/** The order and number of arrivals at an open call do not matter, only which indices have
    arrived. */
module ResidencyArrivals {
  import opened ResidencyProtocol

  /** One arrival at an open call. */
  function Arrive(p: Pending, x: Indexed): Pending {
    if x.index < p.next then p else Drain(p.(buffered := p.buffered[x.index := x.event])).0
  }

  function ArriveAll(p: Pending, arrivals: seq<Indexed>): Pending {
    if arrivals == [] then p
    else Arrive(ArriveAll(p, arrivals[..|arrivals| - 1]), arrivals[|arrivals| - 1])
  }

  /** While no `run.completed` becomes contiguous, the home's handler is `Arrive`. */
  lemma TakeEventArrives(me: Peer, h: Home, from: Peer, rpc: RpcId, x: Indexed, reachable: set<Peer>)
    requires rpc in h.pending && h.pending[rpc].host == from
    requires x.index >= h.pending[rpc].next ==>
               Drain(h.pending[rpc].(buffered := h.pending[rpc].buffered[x.index := x.event])).1.None?
    ensures TakeEvent(me, h, from, rpc, x.index, x.event, reachable).home
         == h.(pending := h.pending[rpc := Arrive(h.pending[rpc], x)])
  {
    assert h.pending == h.pending[rpc := h.pending[rpc]];
  }

  predicate ArrivedAt(arrivals: seq<Indexed>, index: nat) {
    exists k | 0 <= k < |arrivals| :: arrivals[k].index == index
  }

  predicate FromLog(arrivals: seq<Indexed>, log: seq<WireEvent>) {
    forall k | 0 <= k < |arrivals| :: arrivals[k].index < |log| && arrivals[k].event == log[arrivals[k].index]
  }

  predicate Between(i: nat, low: nat, high: nat) { low <= i < high }

  lemma {:induction false} DrainTakesARun(p: Pending)
    ensures var q := Drain(p).0;
            && p.next <= q.next && q.next !in q.buffered
            && (forall i: nat | Between(i, p.next, q.next) :: i in p.buffered)
            && (forall i: nat :: i in q.buffered <==> i in p.buffered && !Between(i, p.next, q.next))
            && (forall i: nat | i in q.buffered :: q.buffered[i] == p.buffered[i])
    decreases |p.buffered|
  {
    if p.next in p.buffered {
      var rest, q := DrainOne(p), Drain(p).0;
      DrainTakesARun(rest);
      forall i: nat ensures Between(i, p.next, q.next) <==> i == p.next || Between(i, rest.next, q.next) {}
    }
  }

  /** `pushed` is the part of the log from `start` up to `next`. */
  predicate PushedSlice(start: nat, next: nat, pushed: seq<WireEvent>, log: seq<WireEvent>) {
    |pushed| == next - start && (pushed == [] || (next <= |log| && pushed == log[start..next]))
  }

  /** What an open call looks like after some arrivals, whatever their order and number. */
  ghost predicate Gathered(start: nat, q: Pending, arrivals: seq<Indexed>, log: seq<WireEvent>) {
    && start <= q.next
    && (forall i: nat | Between(i, start, q.next) :: ArrivedAt(arrivals, i))
    && !ArrivedAt(arrivals, q.next)
    && (forall i: nat :: i in q.buffered <==> q.next < i && ArrivedAt(arrivals, i))
    && (forall i: nat | i in q.buffered :: i < |log| && q.buffered[i] == log[i])
    && q.start == start && PushedSlice(start, q.next, q.pushed, log)
  }

  /** The state of an open call depends only on which indices have arrived: the next index is
      the least one missing, and everything before it is in the stream, in log order. */
  lemma {:induction false} ArrivalOrderIsIrrelevant(p: Pending, arrivals: seq<Indexed>, log: seq<WireEvent>)
    requires p.next == p.start && p.pushed == [] && p.buffered == map[] && FromLog(arrivals, log)
    ensures Gathered(p.start, ArriveAll(p, arrivals), arrivals, log)
  {
    if arrivals != [] {
      var before, x := arrivals[..|arrivals| - 1], arrivals[|arrivals| - 1];
      ArrivalOrderIsIrrelevant(p, before, log);
      assert arrivals == before + [x];
      ArrivalGathers(p.start, ArriveAll(p, before), before, x, log);
    }
  }

  lemma ArrivedAfter(before: seq<Indexed>, x: Indexed, i: nat)
    ensures ArrivedAt(before + [x], i) <==> ArrivedAt(before, i) || i == x.index
  {
    var after := before + [x];
    if ArrivedAt(before, i) {
      var k :| 0 <= k < |before| && before[k].index == i;
      assert after[k].index == i;
    }
    if i == x.index { assert after[|before|].index == i; }
  }

  lemma ArrivalGathers(start: nat, q: Pending, before: seq<Indexed>, x: Indexed, log: seq<WireEvent>)
    requires Gathered(start, q, before, log) && x.index < |log| && x.event == log[x.index]
    ensures Gathered(start, Arrive(q, x), before + [x], log)
  {
    forall i: nat ensures ArrivedAt(before + [x], i) <==> ArrivedAt(before, i) || i == x.index {
      ArrivedAfter(before, x, i);
    }
    if q.next <= x.index {
      NewArrivalGathers(start, q, before, x, log);
    }
  }

  lemma NewArrivalGathers(start: nat, q: Pending, before: seq<Indexed>, x: Indexed, log: seq<WireEvent>)
    requires Gathered(start, q, before, log) && x.index < |log| && x.event == log[x.index] && q.next <= x.index
    requires forall i: nat :: ArrivedAt(before + [x], i) <==> ArrivedAt(before, i) || i == x.index
    ensures Gathered(start, Arrive(q, x), before + [x], log)
  {
    var filled := q.(buffered := q.buffered[x.index := x.event]);
    var q' := Drain(filled).0;
    var after := before + [x];
    DrainTakesARun(filled);
    forall i: nat | Between(i, start, q'.next) ensures ArrivedAt(after, i) {
      if !Between(i, start, q.next) {
        assert Between(i, filled.next, q'.next) && i in filled.buffered;
      }
    }
    assert !ArrivedAt(after, q'.next) by {
      assert !Between(q'.next, filled.next, q'.next);
      assert q'.next !in filled.buffered;
    }
    forall i: nat ensures i in q'.buffered <==> q'.next < i && ArrivedAt(after, i) {
      assert i in q'.buffered <==> i in filled.buffered && !Between(i, filled.next, q'.next);
    }
    NewArrivalPushes(start, q, x, log);
  }

  lemma NewArrivalPushes(start: nat, q: Pending, x: Indexed, log: seq<WireEvent>)
    requires x.index < |log| && x.event == log[x.index] && q.next <= x.index
    requires q.start == start && PushedSlice(start, q.next, q.pushed, log)
    requires forall i: nat | i in q.buffered :: i < |log| && q.buffered[i] == log[i]
    ensures Arrive(q, x).start == start && PushedSlice(start, Arrive(q, x).next, Arrive(q, x).pushed, log)
  {
    var filled := q.(buffered := q.buffered[x.index := x.event]);
    assert BufferFromLog(filled, log);
    DrainExtendsSlice(start, filled, log);
  }

  lemma OneMorePushed(start: nat, next: nat, pushed: seq<WireEvent>, log: seq<WireEvent>)
    requires PushedSlice(start, next, pushed, log) && start <= next < |log|
    ensures PushedSlice(start, next + 1, pushed + [log[next]], log)
  {
    assert log[start..next + 1] == log[start..next] + [log[next]];
  }

  predicate BufferFromLog(p: Pending, log: seq<WireEvent>) {
    forall i: nat | i in p.buffered :: i < |log| && p.buffered[i] == log[i]
  }

  lemma DrainExtendsSlice(start: nat, p: Pending, log: seq<WireEvent>)
    requires p.start == start && PushedSlice(start, p.next, p.pushed, log) && BufferFromLog(p, log)
    ensures Drain(p).0.start == start && PushedSlice(start, Drain(p).0.next, Drain(p).0.pushed, log)
    decreases |p.buffered|
  {
    if p.next in p.buffered {
      OneMorePushed(start, p.next, p.pushed, log);
      DrainExtendsSlice(start, DrainOne(p), log);
    }
  }
}
