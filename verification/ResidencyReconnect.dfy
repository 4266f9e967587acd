/** Reconnecting catches up: what a home asks for when a peer comes back, what the resident answers,
    and where the call stands once the answer has been taken. */
module ResidencyReconnect {
  import opened Basics
  import opened ResidencyProtocol
  import opened ResidencyWorld
  import opened ResidencyFrame
  import opened ResidencyArrivals
  import opened ResidencyHome
  import opened ResidencyChannel
  import opened ResidencyResults

  // ---------------------------------------------------------------- where a call stands

  /** The call has pushed the log from its start up to its next index, and buffers only events of
      the log. */
  predicate FollowsLog(p: Pending, log: seq<WireEvent>) {
    p.start <= p.next <= |log| && p.pushed == log[p.start..p.next] && BufferFromLog(p, log)
  }

  /** The first `run.completed` of the log from `low` on. */
  predicate IsFirstCompletion(log: seq<WireEvent>, low: nat, c: nat) {
    low <= c < |log| && log[c].RunCompleted? && forall i | low <= i < c :: !log[i].RunCompleted?
  }

  /** Everything behind `c` and before `stop` is buffered, and `stop` is not. */
  predicate StopsAt(p: Pending, c: nat, stop: nat) {
    c < stop && stop !in p.buffered && forall i: nat | c < i < stop :: i in p.buffered
  }

  predicate IsLastCompletion(log: seq<WireEvent>, last: nat, stop: nat) {
    last < stop <= |log| && log[last].RunCompleted? && forall i | last < i < stop :: !log[i].RunCompleted?
  }

  /** The call is over: its stream ended as complete with this content, and the home tracks its
      last completion. */
  predicate Completes(home: Home, facts: seq<Fact>, me: Peer, host: Peer, rpc: RpcId, start: nat, stream: seq<WireEvent>) {
    && rpc !in home.pending
    && rpc in home.done && home.done[rpc].host == host
    && Closed(me, host, rpc, start, stream, EndedComplete) in facts
    && start <= home.done[rpc].index < start + |stream|
    && IsLastCompletion(stream, home.done[rpc].index - start, |stream|)
  }

  // ---------------------------------------------------------------- draining

  /** No event of the stream from position `low` on is a `run.completed`. */
  predicate NoneCompletes(stream: seq<WireEvent>, low: int) {
    forall i | 0 <= low <= i < |stream| :: !stream[i].RunCompleted?
  }

  lemma {:induction false} DrainReportsLast(p: Pending)
    requires p.next == p.start + |p.pushed|
    ensures var (q, last) := Drain(p);
            NoneCompletes(q.pushed, if last.Some? then last.value + 1 - p.start else |p.pushed|)
    decreases |p.buffered|
  {
    if p.next in p.buffered {
      var rest := DrainOne(p);
      DrainReportsLast(rest);
      DrainGrows(rest);
      assert rest.pushed[|p.pushed|] == p.buffered[p.next];
      assert Drain(rest).0.pushed[|p.pushed|] == p.buffered[p.next];
    }
  }

  function Filled(p: Pending, log: seq<WireEvent>): Pending
    requires p.next < |log|
  {
    p.(buffered := p.buffered[p.next := log[p.next]])
  }

  lemma AdmitTakes(p: Pending, log: seq<WireEvent>, q: Pending)
    requires p.next < |log| && q == Drain(Filled(p, log)).0
    ensures p.next < q.next && q.next !in p.buffered
    ensures forall i: nat | p.next < i < q.next :: i in p.buffered
    ensures forall i: nat | q.next < i && i in p.buffered :: i in q.buffered
    ensures forall i: nat | i in q.buffered :: i in p.buffered
  {
    var filled := Filled(p, log);
    DrainTakesARun(filled);
    assert q.next != p.next by { assert p.next in filled.buffered; }
    assert !Between(q.next, p.next, q.next);
    assert Between(p.next, p.next, q.next);
    forall i: nat | i in q.buffered ensures i in p.buffered {
      assert i in filled.buffered && !Between(i, p.next, q.next);
    }
    forall i: nat | p.next < i < q.next ensures i in p.buffered {
      assert Between(i, p.next, q.next);
    }
    forall i: nat | q.next < i && i in p.buffered ensures i in q.buffered {
      assert !Between(i, p.next, q.next);
    }
  }

  lemma DrainKeepsFromLog(p: Pending, log: seq<WireEvent>)
    requires BufferFromLog(p, log)
    ensures BufferFromLog(Drain(p).0, log)
  {
    DrainTakesARun(p);
    var q := Drain(p).0;
    forall i: nat | i in q.buffered ensures i < |log| && q.buffered[i] == log[i] {
      assert i in p.buffered;
    }
  }

  /** One event of the log at its turn. */
  lemma AdmitFollows(p: Pending, log: seq<WireEvent>, q: Pending)
    requires FollowsLog(p, log) && p.next < |log| && q == Drain(Filled(p, log)).0
    ensures p.next < q.next && q.start == p.start && q.host == p.host && FollowsLog(q, log)
  {
    var filled := Filled(p, log);
    assert BufferFromLog(filled, log);
    DrainKeepsFromLog(filled, log);
    DrainExtendsSlice(p.start, filled, log);
    DrainGrows(filled);
    AdmitTakes(p, log, q);
  }

  lemma NoneReachesBehind(q: Pending, log: seq<WireEvent>, low: nat, c: nat)
    requires FollowsLog(q, log) && NoneCompletes(q.pushed, low - q.start)
    requires q.start <= low <= c < |log| && log[c].RunCompleted?
    ensures q.next <= c
  {
    assert forall i | low <= i < q.next :: q.pushed[i - q.start] == log[i];
  }

  lemma AdmitLeaves(p: Pending, log: seq<WireEvent>, q: Pending, c: nat)
    requires FollowsLog(p, log) && p.next < |log| && IsFirstCompletion(log, p.next, c)
    requires Drain(Filled(p, log)) == (q, None)
    ensures IsFirstCompletion(log, q.next, c)
  {
    AdmitFollows(p, log, q);
    DrainReportsLast(Filled(p, log));
    NoneReachesBehind(q, log, p.next, c);
  }

  lemma KeepsStop(p: Pending, log: seq<WireEvent>, q: Pending, c: nat, stop: nat)
    requires p.next < |log| && q == Drain(Filled(p, log)).0 && q.next <= c && StopsAt(p, c, stop)
    ensures StopsAt(q, c, stop)
  {
    AdmitTakes(p, log, q);
  }

  lemma StopIsNext(p: Pending, log: seq<WireEvent>, q: Pending, c: nat, stop: nat)
    requires p.next < |log| && q == Drain(Filled(p, log)).0 && p.next <= c < q.next && StopsAt(p, c, stop)
    ensures q.next == stop
  {
    AdmitTakes(p, log, q);
  }

  lemma LastOfStream(q: Pending, log: seq<WireEvent>, last: nat)
    requires FollowsLog(q, log) && NoneCompletes(q.pushed, last + 1 - q.start) && CompletionAt(q, q.start, last)
    ensures IsLastCompletion(log, last, q.next)
  {
    assert q.pushed[last - q.start] == log[last];
    assert forall i | last < i < q.next :: q.pushed[i - q.start] == log[i];
  }

  lemma AdmitFinishes(p: Pending, log: seq<WireEvent>, q: Pending, last: nat, c: nat, stop: nat)
    requires FollowsLog(p, log) && p.next < |log| && IsFirstCompletion(log, p.next, c) && StopsAt(p, c, stop)
    requires Drain(Filled(p, log)) == (q, Some(last))
    ensures q.next == stop && p.next <= last && IsLastCompletion(log, last, stop)
  {
    AdmitFollows(p, log, q);
    DrainReportsLast(Filled(p, log));
    DrainCompletes(Filled(p, log));
    LastOfStream(q, log, last);
    StopIsNext(p, log, q, c, stop);
  }

  // ---------------------------------------------------------------- taking the answer

  /** The events of the log from `low` up to `high`, under their indices. */
  predicate AreLogEvents(events: seq<Indexed>, log: seq<WireEvent>, low: nat, high: nat) {
    low <= high <= |log| && |events| == high - low
    && forall k | 0 <= k < |events| :: events[k] == Indexed(low + k, log[low + k])
  }

  lemma {:induction false} SettledCallIgnoresEvents(me: Peer, h: Home, from: Peer, rpc: RpcId, events: seq<Indexed>,
                                                    reachable: set<Peer>)
    requires rpc !in h.pending
    ensures TakeEvents(me, h, from, rpc, events, reachable).home == h
    decreases |events|
  {
    if events != [] {
      SettledCallIgnoresEvents(me, h, from, rpc, events[1..], reachable);
    }
  }

  lemma FinishedCallCompletes(me: Peer, h: Home, from: Peer, rpc: RpcId, q: Pending, last: nat, log: seq<WireEvent>,
                              home: Home, facts: seq<Fact>)
    requires home == h.(pending := h.pending - {rpc}, done := h.done[rpc := Completion(from, last)])
    requires ClosedFact(me, rpc, q, EndedComplete) in facts && q.host == from
    requires FollowsLog(q, log) && q.start <= last && IsLastCompletion(log, last, q.next)
    ensures Completes(home, facts, me, from, rpc, q.start, log[q.start..q.next])
  {
    var stream := log[q.start..q.next];
    forall i | last - q.start < i < |stream| ensures !stream[i].RunCompleted? {
      assert stream[i] == log[q.start + i];
    }
  }

  lemma FirstEventFinishes(me: Peer, h: Home, from: Peer, rpc: RpcId, log: seq<WireEvent>, c: nat, stop: nat,
                           reachable: set<Peer>)
    requires rpc in h.pending && h.pending[rpc].host == from && FollowsLog(h.pending[rpc], log)
    requires h.pending[rpc].next < |log| && IsFirstCompletion(log, h.pending[rpc].next, c)
    requires StopsAt(h.pending[rpc], c, stop) && Drain(Filled(h.pending[rpc], log)).1.Some?
    ensures var p := h.pending[rpc];
            var e := TakeEvent(me, h, from, rpc, p.next, log[p.next], reachable);
            p.start <= stop <= |log| && Completes(e.home, e.facts, me, from, rpc, p.start, log[p.start..stop])
  {
    var p := h.pending[rpc];
    var (q, last) := Drain(Filled(p, log));
    AdmitFollows(p, log, q);
    AdmitFinishes(p, log, q, last.value, c, stop);
    var e := TakeEvent(me, h, from, rpc, p.next, log[p.next], reachable);
    assert e == AdmitEvent(me, h, from, rpc, p.next, log[p.next], reachable);
    FinishedCallCompletes(me, h, from, rpc, q, last.value, log, e.home, e.facts);
  }

  lemma RestOfLogEvents(events: seq<Indexed>, log: seq<WireEvent>, low: nat, high: nat)
    requires AreLogEvents(events, log, low, high) && low < high
    ensures events[0] == Indexed(low, log[low]) && AreLogEvents(events[1..], log, low + 1, high)
  {
    forall k | 0 <= k < |events| - 1 ensures events[1..][k] == Indexed(low + 1 + k, log[low + 1 + k]) {
      assert events[1..][k] == events[k + 1];
    }
  }

  lemma CompletesLater(me: Peer, h: Home, from: Peer, rpc: RpcId, events: seq<Indexed>, start: nat,
                       stream: seq<WireEvent>, reachable: set<Peer>)
    requires events != []
    requires var first := TakeEvent(me, h, from, rpc, events[0].index, events[0].event, reachable);
             var rest := TakeEvents(me, first.home, from, rpc, events[1..], reachable);
             Completes(rest.home, first.facts + rest.facts, me, from, rpc, start, stream)
    ensures var e := TakeEvents(me, h, from, rpc, events, reachable);
            Completes(e.home, e.facts, me, from, rpc, start, stream)
  {
  }

  /** The call is open, follows the log, and will reach its completion at `c`. */
  predicate Awaits(h: Home, host: Peer, rpc: RpcId, start: nat, log: seq<WireEvent>, c: nat, stop: nat) {
    && rpc in h.pending && h.pending[rpc].host == host && h.pending[rpc].start == start
    && FollowsLog(h.pending[rpc], log) && IsFirstCompletion(log, h.pending[rpc].next, c)
    && StopsAt(h.pending[rpc], c, stop)
  }

  lemma EventGoesOn(me: Peer, h: Home, from: Peer, rpc: RpcId, start: nat, log: seq<WireEvent>, c: nat, stop: nat,
                    reachable: set<Peer>)
    requires Awaits(h, from, rpc, start, log, c, stop) && Drain(Filled(h.pending[rpc], log)).1.None?
    ensures var e := TakeEvent(me, h, from, rpc, h.pending[rpc].next, log[h.pending[rpc].next], reachable);
            Awaits(e.home, from, rpc, start, log, c, stop) && h.pending[rpc].next < e.home.pending[rpc].next
  {
    var p := h.pending[rpc];
    var (q, last) := Drain(Filled(p, log));
    AdmitFollows(p, log, q);
    AdmitLeaves(p, log, q, c);
    KeepsStop(p, log, q, c, stop);
    assert TakeEvent(me, h, from, rpc, p.next, log[p.next], reachable).home == h.(pending := h.pending[rpc := q]);
  }

  lemma EventGoesOnOrFinishes(me: Peer, h: Home, from: Peer, rpc: RpcId, start: nat, log: seq<WireEvent>, c: nat,
                              stop: nat, reachable: set<Peer>)
    requires Awaits(h, from, rpc, start, log, c, stop)
    ensures var e := TakeEvent(me, h, from, rpc, h.pending[rpc].next, log[h.pending[rpc].next], reachable);
            || (start <= stop <= |log| && Completes(e.home, e.facts, me, from, rpc, start, log[start..stop]))
            || (Awaits(e.home, from, rpc, start, log, c, stop) && h.pending[rpc].next < e.home.pending[rpc].next)
  {
    if Drain(Filled(h.pending[rpc], log)).1.Some? {
      FirstEventFinishes(me, h, from, rpc, log, c, stop, reachable);
    } else {
      EventGoesOn(me, h, from, rpc, start, log, c, stop, reachable);
    }
  }

  lemma {:induction false} EventsFinish(me: Peer, h: Home, from: Peer, rpc: RpcId, events: seq<Indexed>, start: nat,
                                        log: seq<WireEvent>, low: nat, high: nat, c: nat, stop: nat, reachable: set<Peer>)
    requires Awaits(h, from, rpc, start, log, c, stop) && low <= h.pending[rpc].next
    requires AreLogEvents(events, log, low, high) && c < high
    ensures var e := TakeEvents(me, h, from, rpc, events, reachable);
            start <= stop <= |log| && Completes(e.home, e.facts, me, from, rpc, start, log[start..stop])
    decreases |events|
  {
    RestOfLogEvents(events, log, low, high);
    var first := TakeEvent(me, h, from, rpc, low, log[low], reachable);
    if low == h.pending[rpc].next { EventGoesOnOrFinishes(me, h, from, rpc, start, log, c, stop, reachable); }
    if rpc in first.home.pending {
      EventsFinish(me, first.home, from, rpc, events[1..], start, log, low + 1, high, c, stop, reachable);
    } else {
      SettledCallIgnoresEvents(me, first.home, from, rpc, events[1..], reachable);
    }
    CompletesLater(me, h, from, rpc, events, start, log[start..stop], reachable);
  }

  // ---------------------------------------------------------------- what is asked

  /** The packet asks the host about this call. */
  predicate AsksAbout(ask: Packet, rpc: RpcId) {
    ask.message.Reconcile? && exists q | q in ask.message.attempts :: q.rpc == rpc
  }

  /** A home that knows an open call of a peer asks about it when the peer comes back, in one packet
      to that peer. */
  lemma ReconnectAsks(me: Peer, h: Home, host: Peer, rpc: RpcId, reachable: set<Peer>)
    requires rpc in h.pending && h.pending[rpc].host == host
    ensures exists ask :: ask in ReconnectPackets(me, h, host, reachable) && AsksAbout(ask, rpc)
    ensures forall ask | ask in ReconnectPackets(me, h, host, reachable) && ask.message.Reconcile? ::
              ask.src == me && ask.dst == host && AsksAbout(ask, rpc)
  {
    var q := ReconcileRequest(rpc, h.pending[rpc].next - 1);
    assert q in ReconcileRequests(h, host);
    var ask := Packet(me, host, Reconcile(ReconcileRequests(h, host)));
    assert q in ask.message.attempts;
    assert ask in ReconnectPackets(me, h, host, reachable);
  }

  lemma LogEventsAfter(log: seq<WireEvent>, next: nat)
    requires next <= |log|
    ensures AreLogEvents(IndexedAfter(log, next - 1), log, next, |log|)
  {
  }

  lemma AskedOnce(me: Peer, h: Home, host: Peer, ask: Packet, reachable: set<Peer>, q: ReconcileRequest)
    requires ask in ReconnectPackets(me, h, host, reachable) && ask.message.Reconcile? && q in ask.message.attempts
    ensures q.rpc in h.pending && h.pending[q.rpc].host == host && q.lastIndex == h.pending[q.rpc].next - 1
  {
    assert q in ReconcileRequests(h, host);
  }

  lemma CompletedReplyIs(me: Peer, host: Peer, r: Resident, q: ReconcileRequest, reply: Packet)
    requires Key(me, q.rpc) in r.journal && r.journal[Key(me, q.rpc)].state == Completed
    requires reply in ReconcileReply(host, r, me, q)
    ensures reply == Packet(host, me, Outcome(q.rpc, OutcomeCompleted, IndexedAfter(r.journal[Key(me, q.rpc)].log, q.lastIndex)))
  {
  }

  lemma ReplyTells(me: Peer, h: Home, host: Peer, r: Node, rpc: RpcId, ask: Packet, reply: Packet,
                   reachable: set<Peer>, reachable': set<Peer>)
    requires rpc in h.pending && h.pending[rpc].host == host
    requires ask in ReconnectPackets(me, h, host, reachable) && ask.message.Reconcile?
    requires Key(me, rpc) in r.resident.journal && r.resident.journal[Key(me, rpc)].state == Completed
    requires reply in Handle(host, r, me, ask.message, reachable').sends && reply.message.Outcome? && reply.message.rpc == rpc
    ensures reply.src == host && reply.dst == me && reply.message.kind == OutcomeCompleted
    ensures var log := r.resident.journal[Key(me, rpc)].log;
            h.pending[rpc].next < |log| ==> AreLogEvents(reply.message.events, log, h.pending[rpc].next, |log|)
  {
    var q := ReplyIsFor(me, host, r, ask, reply, reachable');
    AskedOnce(me, h, host, ask, reachable, q);
    CompletedReplyIs(me, host, r.resident, q, reply);
    var log := r.resident.journal[Key(me, rpc)].log;
    if h.pending[rpc].next < |log| { LogEventsAfter(log, h.pending[rpc].next); }
  }

  lemma ReplyIsFor(me: Peer, host: Peer, r: Node, ask: Packet, reply: Packet, reachable: set<Peer>)
    returns (q: ReconcileRequest)
    requires ask.message.Reconcile? && reply in Handle(host, r, me, ask.message, reachable).sends && reply.message.Outcome?
    ensures q in ask.message.attempts && reply in ReconcileReply(host, r.resident, me, q) && q.rpc == reply.message.rpc
  {
    q :| q in ask.message.attempts && reply in ReconcileReply(host, r.resident, me, q);
  }

  lemma ReplyComes(me: Peer, h: Home, host: Peer, r: Node, rpc: RpcId, ask: Packet,
                   reachable: set<Peer>, reachable': set<Peer>)
    requires rpc in h.pending && h.pending[rpc].host == host
    requires ask in ReconnectPackets(me, h, host, reachable) && ask.message.Reconcile?
    requires Key(me, rpc) in r.resident.journal && r.resident.journal[Key(me, rpc)].state == Completed
    ensures exists reply :: reply in Handle(host, r, me, ask.message, reachable').sends
                            && reply.message.Outcome? && reply.message.rpc == rpc
  {
    var q := ReconcileRequest(rpc, h.pending[rpc].next - 1);
    assert q in ask.message.attempts;
    var reply := OutcomePacket(host, Key(me, rpc), r.resident.journal[Key(me, rpc)], OutcomeCompleted, q.lastIndex);
    assert reply in ReconcileReply(host, r.resident, me, q);
    assert reply in Handle(host, r, me, ask.message, reachable').sends;
  }

  // ---------------------------------------------------------------- main results

  lemma BufferEnds(p: Pending, log: seq<WireEvent>, c: nat) returns (stop: nat)
    requires BufferFromLog(p, log) && c < |log|
    ensures StopsAt(p, c, stop) && stop <= |log|
  {
    stop := c + 1;
    while stop in p.buffered
      invariant c < stop <= |log| && forall i: nat | c < i < stop :: i in p.buffered
      decreases |log| - stop
    {
      stop := stop + 1;
    }
  }

  /** Reconnecting catches up.  The home asks about the call when the host comes back; the host has
      completed the attempt; and however much more the home has received meanwhile, taking the
      answer ends the call as complete.  Its stream is the log from its start up to the first
      `run.completed` it had not received, and on through what it had buffered directly behind
      that. */
  lemma ReconnectCatchesUp(me: Peer, host: Peer, asking: Home, r: Node, taking: Node, rpc: RpcId, ask: Packet,
                           reply: Packet, log: seq<WireEvent>, c: nat, stop: nat,
                           atAsk: set<Peer>, atReply: set<Peer>, atEnd: set<Peer>)
    requires rpc in asking.pending && asking.pending[rpc].host == host
    requires ask in ReconnectPackets(me, asking, host, atAsk) && ask.message.Reconcile?
    requires Key(me, rpc) in r.resident.journal && r.resident.journal[Key(me, rpc)].state == Completed
    requires reply in Handle(host, r, me, ask.message, atReply).sends && reply.message.Outcome? && reply.message.rpc == rpc
    requires r.resident.journal[Key(me, rpc)].log <= log && c < |r.resident.journal[Key(me, rpc)].log|
    requires rpc in taking.home.pending && taking.home.pending[rpc].host == host
    requires asking.pending[rpc].next <= taking.home.pending[rpc].next
    requires FollowsLog(taking.home.pending[rpc], log)
    requires IsFirstCompletion(log, taking.home.pending[rpc].next, c) && StopsAt(taking.home.pending[rpc], c, stop)
    ensures reply.src == host && reply.dst == me
    ensures var e := Handle(me, taking, host, reply.message, atEnd);
            var start := taking.home.pending[rpc].start;
            start <= stop <= |log| && Completes(e.node.home, e.facts, me, host, rpc, start, log[start..stop])
  {
    ReplyTells(me, asking, host, r, rpc, ask, reply, atAsk, atReply);
    var said := r.resident.journal[Key(me, rpc)].log;
    EventsFinish(me, taking.home, host, rpc, reply.message.events, taking.home.pending[rpc].start, log, asking.pending[rpc].next, |said|, c, stop, atEnd);
  }

  // ---------------------------------------------------------------- the other answers

  /** The host knows the attempt to have begun, or to have said something. */
  predicate MayHaveRun(r: Resident, key: Key) {
    key in r.journal && !(r.journal[key].state == Accepted && r.journal[key].log == [])
  }

  /** The host is silent about a call exactly while its turn may still finish. */
  lemma SilentExactly(me: Peer, h: Home, host: Peer, r: Node, rpc: RpcId, ask: Packet,
                      reachable: set<Peer>, reachable': set<Peer>)
    requires rpc in h.pending && h.pending[rpc].host == host
    requires ask in ReconnectPackets(me, h, host, reachable) && ask.message.Reconcile?
    ensures (forall reply | reply in Handle(host, r, me, ask.message, reachable').sends ::
               !(reply.message.Outcome? && reply.message.rpc == rpc))
            <==> (MayHaveRun(r.resident, Key(me, rpc)) && Key(me, rpc) in r.resident.active
                  && r.resident.journal[Key(me, rpc)].state != Completed)
  {
    var q := ReconcileRequest(rpc, h.pending[rpc].next - 1);
    assert q in ask.message.attempts;
    var sends := Handle(host, r, me, ask.message, reachable').sends;
    forall reply | reply in sends && reply.message.Outcome? && reply.message.rpc == rpc
      ensures reply in ReconcileReply(host, r.resident, me, q)
    {
      var q' := ReplyIsFor(me, host, r, ask, reply, reachable');
      AskedOnce(me, h, host, ask, reachable, q');
    }
    if ReconcileReply(host, r.resident, me, q) != {} {
      var reply :| reply in ReconcileReply(host, r.resident, me, q);
      assert reply in sends && reply.message.Outcome? && reply.message.rpc == rpc;
    }
  }

  lemma OtherReplyIs(me: Peer, host: Peer, r: Resident, q: ReconcileRequest, reply: Packet)
    requires Key(me, q.rpc) in r.journal ==> r.journal[Key(me, q.rpc)].state != Completed
    requires reply in ReconcileReply(host, r, me, q)
    ensures reply == Packet(host, me, Outcome(q.rpc, if MayHaveRun(r, Key(me, q.rpc)) then OutcomeAmbiguous else OutcomeNeverStarted, []))
  {
  }

  /** The call is over as ambiguous; its stream keeps what it had. */
  predicate GivesUp(e: NodeEffect, me: Peer, host: Peer, rpc: RpcId, p: Pending) {
    rpc !in e.node.home.pending && Closed(me, host, rpc, p.start, p.pushed, EndedAmbiguous) in e.facts
  }

  /** Any other answer: the home asks the host once more to run a turn that cannot have begun, and
      gives the call up otherwise. */
  lemma ReconnectRetriesOrGivesUp(me: Peer, host: Peer, asking: Home, r: Node, taking: Node, rpc: RpcId, ask: Packet,
                                  reply: Packet, atAsk: set<Peer>, atReply: set<Peer>, atEnd: set<Peer>)
    requires rpc in asking.pending && asking.pending[rpc].host == host
    requires ask in ReconnectPackets(me, asking, host, atAsk) && ask.message.Reconcile?
    requires Key(me, rpc) in r.resident.journal ==> r.resident.journal[Key(me, rpc)].state != Completed
    requires reply in Handle(host, r, me, ask.message, atReply).sends && reply.message.Outcome? && reply.message.rpc == rpc
    requires rpc in taking.home.pending && taking.home.pending[rpc].host == host
    ensures reply.src == host && reply.dst == me
    ensures var e := Handle(me, taking, host, reply.message, atEnd);
            var p := taking.home.pending[rpc];
            if !MayHaveRun(r.resident, Key(me, rpc)) && p.retries == 0 then
              && e.sends == {Packet(me, host, Deliver(p.request))} && e.facts == []
              && e.node.home == taking.home.(pending := taking.home.pending[rpc := p.(retries := 1)])
            else GivesUp(e, me, host, rpc, p)
  {
    var q := ReplyIsFor(me, host, r, ask, reply, atReply);
    OtherReplyIs(me, host, r.resident, q, reply);
  }

  // ---------------------------------------------------------------- settling a completed call

  /** The terminal acknowledgement of the call. */
  predicate Acknowledges(p: Packet, rpc: RpcId) {
    p.message.RunEventAck? && p.message.rpc == rpc
  }

  /** A home that has completed a call repeats its acknowledgement when the host comes back; the host
      confirms, and the home forgets the call: if and only if the completion it names is the last
      event of the log. */
  lemma ReconnectSettles(me: Peer, host: Peer, h: Home, r: Node, taking: Node, rpc: RpcId, ack: Packet,
                         atAck: set<Peer>, atConfirm: set<Peer>, atEnd: set<Peer>)
    requires rpc in h.done && h.done[rpc].host == host && host in atAck
    requires Key(me, rpc) in r.resident.journal && r.resident.journal[Key(me, rpc)].state == Completed
    requires h.done[rpc].index < |r.resident.journal[Key(me, rpc)].log|
    requires rpc in taking.home.done && taking.home.done[rpc] == h.done[rpc]
    requires ack in ReconnectPackets(me, h, host, atAck) && Acknowledges(ack, rpc)
    ensures ack.src == me && ack.dst == host
    ensures h.done[rpc].index == |r.resident.journal[Key(me, rpc)].log| - 1
            <==> exists confirm :: confirm in Handle(host, r, me, ack.message, atConfirm).sends
                                   && rpc !in Handle(me, taking, confirm.src, confirm.message, atEnd).node.home.done
    ensures forall confirm | confirm in Handle(host, r, me, ack.message, atConfirm).sends ::
              confirm.src == host && confirm.dst == me
              && rpc !in Handle(me, taking, host, confirm.message, atEnd).node.home.done
  {
    var last := |r.resident.journal[Key(me, rpc)].log| - 1;
    assert ack.message.upTo == h.done[rpc].index;
    if h.done[rpc].index == last {
      var confirm := Packet(host, me, CompletionAck(rpc, last));
      assert confirm in Handle(host, r, me, ack.message, atConfirm).sends;
      assert rpc !in Handle(me, taking, confirm.src, confirm.message, atEnd).node.home.done;
    }
  }

  /** A concrete completion that no acknowledgement of the home ever settles: the host's log goes on
      behind it. */
  lemma LongerLogIsNeverConfirmed() returns (me: Peer, host: Peer, h: Home, r: Node, rpc: RpcId)
    ensures rpc in h.done && h.done[rpc] == Completion(host, 0)
    ensures Key(me, rpc) in r.resident.journal && r.resident.journal[Key(me, rpc)].state == Completed
    ensures r.resident.journal[Key(me, rpc)].log == [RunCompleted(""), OtherEvent("")]
    ensures forall ack, atAck, atConfirm | ack in ReconnectPackets(me, h, host, atAck) :: Handle(host, r, me, ack.message, atConfirm).sends == {}
  {
    me, host, rpc := "home", "host", "call";
    h := Home(1, map[], map[rpc := Completion(host, 0)]);
    var attempt := Attempt(Request(rpc, "", Member("", ""), "", 0), Completed, 1, [RunCompleted(""), OtherEvent("")], Clean, -1);
    r := Node(Resident({}, map[Key(me, rpc) := attempt], {}, map[], {}), Home(1, map[], map[]));
    forall ack, atAck, atConfirm | ack in ReconnectPackets(me, h, host, atAck)
      ensures Handle(host, r, me, ack.message, atConfirm).sends == {}
    {
      assert ReconcileRequests(h, host) == {};
      assert ack.message == RunEventAck(rpc, 0);
    }
  }

  lemma ReconnectAcknowledges(me: Peer, host: Peer, h: Home, rpc: RpcId, reachable: set<Peer>)
    requires rpc in h.done && h.done[rpc].host == host && host in reachable
    ensures exists ack :: ack in ReconnectPackets(me, h, host, reachable) && Acknowledges(ack, rpc)
  {
    var ack := Packet(me, host, RunEventAck(rpc, h.done[rpc].index));
    assert ack in CompletionEventAck(me, rpc, h.done[rpc], reachable);
    assert ack in RetryAcks(me, h, Some(host), reachable);
    assert ack in ReconnectPackets(me, h, host, reachable) && Acknowledges(ack, rpc);
  }

  // ---------------------------------------------------------------- logs over a run

  lemma StepBefore(ws: seq<World>, rules: Rules, i: nat) returns (s: Step)
    requires Trace(ws, rules) && 0 < i < |ws|
    ensures Possible(ws[i - 1], s) && Allowed(ws[i - 1], s, rules) && ws[i] == Apply(ws[i - 1], s)
  {
    assert Next(ws[i - 1], ws[i - 1 + 1], rules);
    s :| Possible(ws[i - 1], s) && Allowed(ws[i - 1], s, rules) && ws[i] == Apply(ws[i - 1], s);
  }

  lemma LogsGrowOnce(ws: seq<World>, rules: Rules, k: nat)
    requires Trace(ws, rules) && KeepsLogs(rules) && 0 < k < |ws|
    ensures LogsGrow(ws[k - 1], ws[k])
  {
    TraceKeepsChannel(ws, rules, k - 1);
    var s := StepBefore(ws, rules, k);
    StepHolds(ws[k - 1], s, rules);
  }

  /** The log of this attempt at `host` begins with these events. */
  predicate HasLogged(w: World, host: Peer, key: Key, log: seq<WireEvent>) {
    host in w.nodes && key in w.nodes[host].resident.journal && log <= w.nodes[host].resident.journal[key].log
  }

  lemma LoggedOnceMore(w: World, w': World, host: Peer, key: Key, log: seq<WireEvent>)
    requires LogsGrow(w, w') && HasLogged(w, host, key, log)
    ensures HasLogged(w', host, key, log)
  {
    assert LogsGrowIn(w.nodes[host].resident.journal, w'.nodes[host].resident.journal);
  }

  predicate LogsGrowAt(ws: seq<World>, i: nat)
    requires i + 1 < |ws|
  {
    LogsGrow(ws[i], ws[i + 1])
  }

  predicate LogsAlwaysGrow(ws: seq<World>) {
    forall i: nat | i + 1 < |ws| :: LogsGrowAt(ws, i)
  }

  lemma RunLogsGrow(ws: seq<World>, rules: Rules)
    requires Trace(ws, rules) && KeepsLogs(rules)
    ensures LogsAlwaysGrow(ws)
  {
    forall i: nat | i + 1 < |ws| ensures LogsGrowAt(ws, i) {
      LogsGrowOnce(ws, rules, i + 1);
    }
  }

  lemma {:induction false} StaysLogged(ws: seq<World>, j: nat, k: nat, host: Peer, key: Key, log: seq<WireEvent>)
    requires LogsAlwaysGrow(ws) && j <= k < |ws| && HasLogged(ws[j], host, key, log)
    ensures HasLogged(ws[k], host, key, log)
    decreases k
  {
    if j < k {
      StaysLogged(ws, j, k - 1, host, key, log);
      assert LogsGrowAt(ws, k - 1);
      LoggedOnceMore(ws[k - 1], ws[k], host, key, log);
    }
  }

  lemma CallFollows(w: World, me: Peer, rpc: RpcId, p: Pending, log: seq<WireEvent>)
    requires CallLogged(w, me, rpc, p) && p.host in w.nodes && Key(me, rpc) in w.nodes[p.host].resident.journal
    requires log == w.nodes[p.host].resident.journal[Key(me, rpc)].log && p.start <= |log|
    ensures FollowsLog(p, log)
  {
    SliceIsLogSlice(w, p.host, me, rpc, p.start, p.pushed);
    forall i: nat | i in p.buffered ensures i < |log| && p.buffered[i] == log[i] {
      assert Logged(w, p.host, me, rpc, i, p.buffered[i]);
    }
  }

  /** The journal of `host` has completed the attempt with this log. */
  predicate HasCompleted(w: World, host: Peer, home: Peer, rpc: RpcId, log: seq<WireEvent>) {
    host in w.nodes &&
    var journal := w.nodes[host].resident.journal;
    Key(home, rpc) in journal && journal[Key(home, rpc)].state == Completed && journal[Key(home, rpc)].log == log
  }

  predicate HasOpenCall(w: World, me: Peer, rpc: RpcId, host: Peer) {
    me in w.nodes && rpc in w.nodes[me].home.pending && w.nodes[me].home.pending[rpc].host == host
  }

  function CallAt(w: World, me: Peer, rpc: RpcId): Pending
    requires me in w.nodes && rpc in w.nodes[me].home.pending
  {
    w.nodes[me].home.pending[rpc]
  }

  // ---------------------------------------------------------------- open streams and completed attempts

  /** No open call has pushed a `run.completed`. */
  predicate OpenCallsRunOn(h: Home) {
    forall rpc | rpc in h.pending ::
      h.pending[rpc].next == h.pending[rpc].start + |h.pending[rpc].pushed| && NoneCompletes(h.pending[rpc].pushed, 0)
  }

  lemma DrainRunsOn(p: Pending)
    requires p.next == p.start + |p.pushed| && NoneCompletes(p.pushed, 0) && Drain(p).1.None?
    ensures var q := Drain(p).0; q.next == q.start + |q.pushed| && NoneCompletes(q.pushed, 0)
  {
    DrainGrows(p);
    DrainReportsLast(p);
    assert forall i | 0 <= i < |p.pushed| :: Drain(p).0.pushed[i] == p.pushed[i];
  }

  lemma TakeEventRunsOn(me: Peer, h: Home, from: Peer, rpc: RpcId, index: nat, event: WireEvent, reachable: set<Peer>)
    requires OpenCallsRunOn(h)
    ensures OpenCallsRunOn(TakeEvent(me, h, from, rpc, index, event, reachable).home)
  {
    if rpc in h.pending && h.pending[rpc].host == from && index >= h.pending[rpc].next {
      var filled := h.pending[rpc].(buffered := h.pending[rpc].buffered[index := event]);
      if Drain(filled).1.None? { DrainRunsOn(filled); }
    }
  }

  lemma {:induction false} TakeEventsRunOn(me: Peer, h: Home, from: Peer, rpc: RpcId, events: seq<Indexed>,
                                           reachable: set<Peer>)
    requires OpenCallsRunOn(h)
    ensures OpenCallsRunOn(TakeEvents(me, h, from, rpc, events, reachable).home)
    decreases |events|
  {
    if events != [] {
      TakeEventRunsOn(me, h, from, rpc, events[0].index, events[0].event, reachable);
      var first := TakeEvent(me, h, from, rpc, events[0].index, events[0].event, reachable);
      TakeEventsRunOn(me, first.home, from, rpc, events[1..], reachable);
    }
  }

  lemma HandleRunsOn(me: Peer, n: Node, from: Peer, m: Message, reachable: set<Peer>)
    requires OpenCallsRunOn(n.home)
    ensures OpenCallsRunOn(Handle(me, n, from, m, reachable).node.home)
  {
    match m
    case Outcome(rpc, kind, events) =>
      TakeEventsRunOn(me, n.home, from, rpc, events, reachable);
    case RunEvent(rpc, index, event) => TakeEventRunsOn(me, n.home, from, rpc, index, event, reachable);
    case _ =>
  }

  lemma StepRunsOn(w: World, s: Step)
    requires Possible(w, s) && OpenCallsRunOn(w.nodes[Actor(s)].home)
    ensures OpenCallsRunOn(Act(w, s).node.home)
  {
    match s
    case Receive(p, reachable) => HandleRunsOn(p.dst, w.nodes[p.dst], p.src, p.message, reachable);
    case _ =>
  }

  /** The run up to its `n`-th world. */
  ghost predicate Path(ws: seq<World>, rules: Rules, n: nat)
    requires n < |ws|
  {
    if n == 0 then Initial(ws[0]) else Path(ws, rules, n - 1) && Next(ws[n - 1], ws[n], rules)
  }

  lemma {:induction false} RunIsPath(ws: seq<World>, rules: Rules, n: nat)
    requires Trace(ws, rules) && n < |ws|
    ensures Path(ws, rules, n)
  {
    if n > 0 {
      RunIsPath(ws, rules, n - 1);
      assert Next(ws[n - 1], ws[n - 1 + 1], rules);
    }
  }

  lemma NextRunsOn(w: World, w': World, rules: Rules, me: Peer)
    requires Next(w, w', rules) && me in w'.nodes && (me in w.nodes ==> OpenCallsRunOn(w.nodes[me].home))
    ensures me in w.nodes && OpenCallsRunOn(w'.nodes[me].home)
  {
    var s :| Possible(w, s) && Allowed(w, s, rules) && w' == Apply(w, s);
    assert me in w.nodes;
    if me == Actor(s) { StepRunsOn(w, s); }
  }

  lemma {:induction false} PathRunsOn(ws: seq<World>, rules: Rules, i: nat, me: Peer)
    requires i < |ws| && Path(ws, rules, i) && me in ws[i].nodes
    ensures OpenCallsRunOn(ws[i].nodes[me].home)
  {
    if i > 0 {
      if me in ws[i - 1].nodes { PathRunsOn(ws, rules, i - 1, me); }
      NextRunsOn(ws[i - 1], ws[i], rules, me);
    }
  }

  lemma OpenCallsAlwaysRunOn(ws: seq<World>, rules: Rules, i: nat, me: Peer)
    requires Trace(ws, rules) && i < |ws| && me in ws[i].nodes
    ensures OpenCallsRunOn(ws[i].nodes[me].home)
  {
    RunIsPath(ws, rules, i);
    PathRunsOn(ws, rules, i, me);
  }

  /** A turn that has yielded a `run.completed`, and an attempt that is completed, have one logged. */
  predicate CompletionsAreLogged(r: Resident) {
    && (forall key | key in r.running && r.running[key].completed :: LogCompletes(r, key))
    && (forall key | key in r.journal && r.journal[key].state == Completed :: LogCompletes(r, key))
  }

  predicate LogCompletes(r: Resident, key: Key) {
    key in r.journal && HasCompletion(r.journal[key].log)
  }

  predicate CompletionAtKey(r: Resident, key: Key) {
    && (key in r.running && r.running[key].completed ==> LogCompletes(r, key))
    && (key in r.journal && r.journal[key].state == Completed ==> LogCompletes(r, key))
  }

  lemma LongerLogCompletes(log: seq<WireEvent>, log': seq<WireEvent>)
    requires log <= log' && HasCompletion(log)
    ensures HasCompletion(log')
  {
    var i :| 0 <= i < |log| && log[i].RunCompleted?;
    assert log'[i].RunCompleted?;
  }

  /** The step marks no turn and no attempt as completed that was not. */
  predicate MarksNothing(r: Resident, r': Resident, key: Key) {
    && (key in r'.running && r'.running[key].completed ==> key in r.running && r.running[key].completed)
    && (key in r'.journal && r'.journal[key].state == Completed ==> key in r.journal && r.journal[key].state == Completed)
  }

  lemma MarkedBefore(r: Resident, r': Resident, key: Key)
    requires CompletionsAreLogged(r) && LogsGrowIn(r.journal, r'.journal) && MarksNothing(r, r', key)
    ensures CompletionAtKey(r', key)
  {
    if LogCompletes(r, key) { LongerLogCompletes(r.journal[key].log, r'.journal[key].log); }
  }

  lemma YieldIsLogged(me: Peer, r: Resident, key: Key, event: WireEvent)
    requires CompletionsAreLogged(r) && Running(r, key) && EndsCleanly(r, key)
    ensures CompletionAtKey(YieldEvent(me, r, key, event).resident, key)
  {
    var r' := YieldEvent(me, r, key, event).resident;
    var log, log' := r.journal[key].log, r'.journal[key].log;
    assert log' == log + [event];
    if event.RunCompleted? {
      assert log'[|log|].RunCompleted?;
    } else if LogCompletes(r, key) {
      LongerLogCompletes(log, log');
    }
  }

  lemma FinishIsLogged(me: Peer, r: Resident, key: Key)
    requires CompletionsAreLogged(r) && Running(r, key)
    ensures CompletionAtKey(FinishTurn(me, r, key).resident, key)
  {
  }

  lemma CrashMarksNothing(me: Peer, r: Resident, midway: Midway)
    requires MidwayPossible(r, midway)
    ensures MarksNothing(r, Remains(me, r, midway).resident, MidwayKey(midway))
  {
  }

  lemma ActIsLogged(w: World, s: Step)
    requires Possible(w, s) && CompletionsAreLogged(w.nodes[Actor(s)].resident)
    requires AppendsCleanly(w.nodes[Actor(s)].resident, s) && LogsGrow(w, Apply(w, s))
    ensures CompletionAtKey(Act(w, s).node.resident, StepKey(s))
  {
    var r, r', key := w.nodes[Actor(s)].resident, Act(w, s).node.resident, StepKey(s);
    assert LogsGrowIn(r.journal, Apply(w, s).nodes[Actor(s)].resident.journal);
    match s {
      case Yield(me, _, event) => YieldIsLogged(me, r, key, event);
      case Finish(me, _) => FinishIsLogged(me, r, key);
      case Crash(me, midway) =>
        CrashMarksNothing(me, r, midway);
        MarkedBefore(r, r', key);
      case Receive(p, reachable) =>
        HandleMarksNothing(p.dst, w.nodes[p.dst], p, reachable);
        MarkedBefore(r, r', key);
      case _ => MarkedBefore(r, r', key);
    }
  }

  lemma HandleMarksNothing(me: Peer, n: Node, p: Packet, reachable: set<Peer>)
    ensures MarksNothing(n.resident, Handle(me, n, p.src, p.message, reachable).node.resident, StepKey(Receive(p, reachable)))
  {
  }

  lemma OthersAreLogged(r: Resident, r': Resident, key: Key)
    requires CompletionsAreLogged(r) && TouchesOnly(r, r', key) && CompletionAtKey(r', key)
    ensures CompletionsAreLogged(r')
  {
    forall k | k in r'.running && r'.running[k].completed ensures LogCompletes(r', k) {
      if k != key { assert LogCompletes(r, k); }
    }
    forall k | k in r'.journal && r'.journal[k].state == Completed ensures LogCompletes(r', k) {
      if k != key { assert LogCompletes(r, k); }
    }
  }

  lemma StepIsLogged(w: World, s: Step, rules: Rules)
    requires Holds(w, rules) && KeepsLogs(rules) && Possible(w, s) && Allowed(w, s, rules)
    requires CompletionsAreLogged(w.nodes[Actor(s)].resident)
    ensures CompletionsAreLogged(Act(w, s).node.resident)
  {
    StepHolds(w, s, rules);
    ActIsLogged(w, s);
    ActTouchesOnly(w, s);
    OthersAreLogged(w.nodes[Actor(s)].resident, Act(w, s).node.resident, StepKey(s));
  }

  lemma NextIsLogged(w: World, w': World, rules: Rules, host: Peer)
    requires Next(w, w', rules) && Holds(w, rules) && KeepsLogs(rules) && host in w'.nodes
    requires host in w.nodes ==> CompletionsAreLogged(w.nodes[host].resident)
    ensures host in w.nodes && CompletionsAreLogged(w'.nodes[host].resident)
  {
    var s :| Possible(w, s) && Allowed(w, s, rules) && w' == Apply(w, s);
    assert host in w.nodes;
    if host == Actor(s) { StepIsLogged(w, s, rules); }
  }

  ghost predicate AllHold(ws: seq<World>, rules: Rules) {
    forall i | 0 <= i < |ws| :: Holds(ws[i], rules)
  }

  lemma {:induction false} PathIsLogged(ws: seq<World>, rules: Rules, i: nat, host: Peer)
    requires i < |ws| && Path(ws, rules, i) && AllHold(ws, rules) && KeepsLogs(rules) && host in ws[i].nodes
    ensures CompletionsAreLogged(ws[i].nodes[host].resident)
  {
    if i > 0 {
      if host in ws[i - 1].nodes { PathIsLogged(ws, rules, i - 1, host); }
      NextIsLogged(ws[i - 1], ws[i], rules, host);
    }
  }

  lemma CompletionsAlwaysLogged(ws: seq<World>, rules: Rules, i: nat, host: Peer)
    requires Trace(ws, rules) && KeepsLogs(rules) && i < |ws| && host in ws[i].nodes
    ensures CompletionsAreLogged(ws[i].nodes[host].resident)
  {
    RunIsPath(ws, rules, i);
    forall j | 0 <= j < |ws| ensures Holds(ws[j], rules) {
      TraceKeepsChannel(ws, rules, j);
    }
    PathIsLogged(ws, rules, i, host);
  }

  /** In every run that keeps logs, the log of a completed attempt holds a `run.completed`, and the
      stream of an open call holds none. */
  lemma CompletedExactlyThere(ws: seq<World>, rules: Rules, i: nat, me: Peer, host: Peer, rpc: RpcId, log: seq<WireEvent>)
    requires Trace(ws, rules) && KeepsLogs(rules) && i < |ws|
    ensures HasCompleted(ws[i], host, me, rpc, log) ==> HasCompletion(log)
    ensures HasOpenCall(ws[i], me, rpc, host) ==> !HasCompletion(CallAt(ws[i], me, rpc).pushed)
  {
    if HasCompleted(ws[i], host, me, rpc, log) {
      CompletionsAlwaysLogged(ws, rules, i, host);
      assert LogCompletes(ws[i].nodes[host].resident, Key(me, rpc));
    }
    if HasOpenCall(ws[i], me, rpc, host) { OpenCallsAlwaysRunOn(ws, rules, i, me); }
  }

  // ---------------------------------------------------------------- over runs

  /** Taking the answer ends the call as complete with the log from its start as its stream. */
  ghost predicate EndsTheCall(w: World, me: Peer, host: Peer, rpc: RpcId, c: nat, e: NodeEffect) {
    host in w.nodes && Key(me, rpc) in w.nodes[host].resident.journal && HasOpenCall(w, me, rpc, host) &&
    var p := CallAt(w, me, rpc);
    var log := w.nodes[host].resident.journal[Key(me, rpc)].log;
    exists stop: nat :: StopsAt(p, c, stop) && p.start <= stop <= |log|
                   && Completes(e.node.home, e.facts, me, host, rpc, p.start, log[p.start..stop])
  }

  lemma CompletionIsAhead(w: World, me: Peer, rpc: RpcId, p: Pending, log: seq<WireEvent>, c: nat)
    requires CallLogged(w, me, rpc, p) && NoneCompletes(p.pushed, 0)
    requires p.host in w.nodes && Key(me, rpc) in w.nodes[p.host].resident.journal
    requires log == w.nodes[p.host].resident.journal[Key(me, rpc)].log && IsFirstCompletion(log, p.start, c)
    ensures IsFirstCompletion(log, p.next, c)
  {
    CallFollows(w, me, rpc, p, log);
    NoneReachesBehind(p, log, p.start, c);
  }

  /** In every run that keeps logs: the home asks at some moment, the host has completed the attempt
      when it answers, and the call is still open when the answer arrives.  Taking the answer then
      ends the call as complete, with the log from its start as its stream. */
  lemma ReconnectEndsTheCall(ws: seq<World>, rules: Rules, i: nat, j: nat, k: nat, me: Peer, host: Peer, rpc: RpcId,
                             ask: Packet, reply: Packet, said: seq<WireEvent>, c: nat,
                             atAsk: set<Peer>, atReply: set<Peer>, atEnd: set<Peer>)
    requires Trace(ws, rules) && KeepsLogs(rules) && i <= j <= k < |ws|
    requires HasOpenCall(ws[i], me, rpc, host) && HasOpenCall(ws[k], me, rpc, host)
    requires CallAt(ws[i], me, rpc).next <= CallAt(ws[k], me, rpc).next
    requires ask in ReconnectPackets(me, ws[i].nodes[me].home, host, atAsk) && ask.message.Reconcile?
    requires HasCompleted(ws[j], host, me, rpc, said) && IsFirstCompletion(said, CallAt(ws[k], me, rpc).start, c)
    requires reply in Handle(host, ws[j].nodes[host], me, ask.message, atReply).sends
    requires reply.message.Outcome? && reply.message.rpc == rpc
    ensures EndsTheCall(ws[k], me, host, rpc, c, Handle(me, ws[k].nodes[me], host, reply.message, atEnd))
  {
    RunLogsGrow(ws, rules);
    StaysLogged(ws, j, k, host, Key(me, rpc), said);
    var log := ws[k].nodes[host].resident.journal[Key(me, rpc)].log;
    var p := CallAt(ws[k], me, rpc);
    TraceKeepsChannel(ws, rules, k);
    assert CallLogged(ws[k], me, rpc, p);
    FirstCompletionStays(said, log, p.start, c);
    OpenCallsAlwaysRunOn(ws, rules, k, me);
    CompletionIsAhead(ws[k], me, rpc, p, log, c);
    CallFollows(ws[k], me, rpc, p, log);
    var stop := BufferEnds(p, log, c);
    ReconnectCatchesUp(me, host, ws[i].nodes[me].home, ws[j].nodes[host], ws[k].nodes[me], rpc, ask, reply, log, c, stop,
                       atAsk, atReply, atEnd);
  }

  lemma FirstCompletionStays(said: seq<WireEvent>, log: seq<WireEvent>, low: nat, c: nat)
    requires said <= log && IsFirstCompletion(said, low, c)
    ensures IsFirstCompletion(log, low, c)
  {
    assert forall i | low <= i <= c :: said[i] == log[i];
  }
}
