/** What holds of every home in every run, whatever adapters do: it acknowledges only what it has
    received, and it never tracks more calls of a host than it may. */
module ResidencyHome {
  import opened Basics
  import opened ResidencyProtocol
  import opened ResidencyWorld

  /** The home has pushed the event of this position, or was asked to start after it. */
  ghost predicate KnownTo(facts: seq<Fact>, home: Peer, host: Peer, rpc: RpcId, index: int) {
    index >= 0
    && ((exists event :: Pushed(home, host, rpc, index, event) in facts)
        || (exists start: nat :: index < start && Opened(home, host, rpc, start) in facts))
  }

  predicate PushesRecorded(facts: seq<Fact>, home: Peer, host: Peer, rpc: RpcId, start: nat, pushed: seq<WireEvent>) {
    forall i | 0 <= i < |pushed| :: Pushed(home, host, rpc, start + i, pushed[i]) in facts
  }

  predicate CallTracked(facts: seq<Fact>, me: Peer, rpc: RpcId, p: Pending) {
    && p.next == p.start + |p.pushed|
    && Opened(me, p.host, rpc, p.start) in facts
    && PushesRecorded(facts, me, p.host, rpc, p.start, p.pushed)
  }

  ghost predicate HomeTracked(facts: seq<Fact>, me: Peer, h: Home) {
    && (forall rpc | rpc in h.pending :: CallTracked(facts, me, rpc, h.pending[rpc]))
    && (forall rpc | rpc in h.done :: KnownTo(facts, me, h.done[rpc].host, rpc, h.done[rpc].index))
    && (forall host :: Outstanding(h, host) <= h.limit)
  }

  ghost predicate AcksKnown(facts: seq<Fact>, sends: set<Packet>) {
    forall p | p in sends && p.message.RunEventAck? :: KnownTo(facts, p.src, p.dst, p.message.rpc, p.message.upTo)
  }

  ghost predicate HomeInvariant(w: World) {
    AcksKnown(w.facts, w.net) && forall n | n in w.nodes :: HomeTracked(w.facts, n, w.nodes[n].home)
  }

  // ---------------------------------------------------------------- growth

  lemma KnownGrows(facts: seq<Fact>, more: seq<Fact>, home: Peer, host: Peer, rpc: RpcId, index: int)
    requires KnownTo(facts, home, host, rpc, index)
    ensures KnownTo(facts + more, home, host, rpc, index)
  {
    if event :| Pushed(home, host, rpc, index, event) in facts {
      assert Pushed(home, host, rpc, index, event) in facts + more;
    } else {
      var start: nat :| index < start && Opened(home, host, rpc, start) in facts;
      assert Opened(home, host, rpc, start) in facts + more;
    }
  }

  lemma AcksGrow(facts: seq<Fact>, more: seq<Fact>, sends: set<Packet>)
    requires AcksKnown(facts, sends)
    ensures AcksKnown(facts + more, sends)
  {
    forall p | p in sends && p.message.RunEventAck?
      ensures KnownTo(facts + more, p.src, p.dst, p.message.rpc, p.message.upTo)
    {
      KnownGrows(facts, more, p.src, p.dst, p.message.rpc, p.message.upTo);
    }
  }

  lemma HomeGrows(facts: seq<Fact>, more: seq<Fact>, me: Peer, h: Home)
    requires HomeTracked(facts, me, h)
    ensures HomeTracked(facts + more, me, h)
  {
    forall rpc | rpc in h.done ensures KnownTo(facts + more, me, h.done[rpc].host, rpc, h.done[rpc].index) {
      KnownGrows(facts, more, me, h.done[rpc].host, rpc, h.done[rpc].index);
    }
    forall rpc | rpc in h.pending ensures CallTracked(facts + more, me, rpc, h.pending[rpc]) {
      assert CallTracked(facts, me, rpc, h.pending[rpc]);
    }
  }

  // ---------------------------------------------------------------- draining

  predicate CompletionAt(p: Pending, from: nat, at: nat) {
    p.start <= from <= at < p.next && at - p.start < |p.pushed| && p.pushed[at - p.start].RunCompleted?
  }

  lemma {:induction false} DrainCompletes(p: Pending)
    requires p.next == p.start + |p.pushed|
    ensures Drain(p).1.Some? ==> CompletionAt(Drain(p).0, p.next, Drain(p).1.value)
    decreases |p.buffered|
  {
    if p.next in p.buffered {
      var rest := DrainOne(p);
      DrainCompletes(rest);
      DrainGrows(rest);
      assert rest.pushed[|p.pushed|] == p.buffered[p.next];
    }
  }

  lemma PushFactsRecord(facts: seq<Fact>, me: Peer, rpc: RpcId, before: Pending, after: Pending)
    requires before.next == before.start + |before.pushed| && before.pushed <= after.pushed
    requires after.host == before.host && after.start == before.start
    requires PushesRecorded(facts, me, before.host, rpc, before.start, before.pushed)
    ensures PushesRecorded(facts + PushFacts(me, rpc, before, after), me, after.host, rpc, after.start, after.pushed)
  {
    var pushes := PushFacts(me, rpc, before, after);
    forall i | 0 <= i < |after.pushed|
      ensures Pushed(me, after.host, rpc, after.start + i, after.pushed[i]) in facts + pushes
    {
      if i < |before.pushed| {
        assert Pushed(me, before.host, rpc, before.start + i, before.pushed[i]) in facts;
      } else {
        assert pushes[i - |before.pushed|] == Pushed(me, after.host, rpc, after.start + i, after.pushed[i]);
      }
    }
  }

  /** A tracked call may be acknowledged as far as it has come. */
  lemma ProgressKnown(facts: seq<Fact>, me: Peer, rpc: RpcId, p: Pending)
    requires CallTracked(facts, me, rpc, p) && p.next > 0
    ensures KnownTo(facts, me, p.host, rpc, p.next - 1)
  {
    if p.pushed != [] {
      assert Pushed(me, p.host, rpc, p.start + (|p.pushed| - 1), p.pushed[|p.pushed| - 1]) in facts;
    }
  }

  lemma CompletionKnown(facts: seq<Fact>, me: Peer, rpc: RpcId, p: Pending, from: nat, at: nat)
    requires CallTracked(facts, me, rpc, p) && CompletionAt(p, from, at)
    ensures KnownTo(facts, me, p.host, rpc, at)
  {
    assert Pushed(me, p.host, rpc, p.start + (at - p.start), p.pushed[at - p.start]) in facts;
  }

  lemma DrainTracks(facts: seq<Fact>, me: Peer, rpc: RpcId, p: Pending, index: nat, event: WireEvent)
    requires CallTracked(facts, me, rpc, p)
    ensures var (q, completed) := Drain(p.(buffered := p.buffered[index := event]));
            && q.host == p.host && q.start == p.start && p.pushed <= q.pushed
            && CallTracked(facts + PushFacts(me, rpc, p, q), me, rpc, q)
            && (completed.Some? ==> CompletionAt(q, p.next, completed.value))
  {
    var filled := p.(buffered := p.buffered[index := event]);
    DrainCompletes(filled);
    DrainGrows(filled);
    PushFactsRecord(facts, me, rpc, p, Drain(filled).0);
  }

  // ---------------------------------------------------------------- the tables

  /** Completion moves a call from one table to the other: the total stays, or falls if the call
      was there before. */
  lemma CompletionMoves(h: Home, rpc: RpcId, c: Completion, host: Peer)
    requires rpc in h.pending && h.pending[rpc].host == c.host
    ensures Outstanding(h.(pending := h.pending - {rpc}, done := h.done[rpc := c]), host) <= Outstanding(h, host)
    ensures rpc !in h.done ==>
              Outstanding(h.(pending := h.pending - {rpc}, done := h.done[rpc := c]), host) == Outstanding(h, host)
  {
    var h' := h.(pending := h.pending - {rpc}, done := h.done[rpc := c]);
    if host == c.host {
      assert PendingAt(h', host) == PendingAt(h, host) - {rpc};
      assert DoneAt(h', host) == DoneAt(h, host) + {rpc};
    } else {
      assert PendingAt(h', host) == PendingAt(h, host);
      SubsetSize(DoneAt(h', host), DoneAt(h, host));
      if rpc !in h.done { assert DoneAt(h', host) == DoneAt(h, host); }
    }
  }

  lemma DroppingLowers(h: Home, h': Home, host: Peer)
    requires h'.pending.Keys <= h.pending.Keys && h'.done.Keys <= h.done.Keys
    requires forall rpc | rpc in h'.pending :: h'.pending[rpc].host == h.pending[rpc].host
    requires forall rpc | rpc in h'.done :: h'.done[rpc].host == h.done[rpc].host
    ensures Outstanding(h', host) <= Outstanding(h, host)
  {
    SubsetSize(PendingAt(h', host), PendingAt(h, host));
    SubsetSize(DoneAt(h', host), DoneAt(h, host));
  }

  lemma RequestSets(h: Home, h': Home, rpc: RpcId, host: Peer)
    requires rpc !in h.pending && rpc in h'.pending && h'.done == h.done
    requires h'.pending == h.pending[rpc := h'.pending[rpc]]
    ensures DoneAt(h', host) == DoneAt(h, host) && rpc !in PendingAt(h, host)
    ensures PendingAt(h', host) == PendingAt(h, host) + if host == h'.pending[rpc].host then {rpc} else {}
  {
  }

  lemma RequestAddsOne(h: Home, h': Home, rpc: RpcId, host: Peer)
    requires rpc !in h.pending && rpc in h'.pending && h'.done == h.done
    requires h'.pending == h.pending[rpc := h'.pending[rpc]]
    ensures Outstanding(h', host) <= Outstanding(h, host) + if host == h'.pending[rpc].host then 1 else 0
  {
    RequestSets(h, h', rpc, host);
  }

  // ---------------------------------------------------------------- the handlers

  ghost predicate GoodHome(facts: seq<Fact>, me: Peer, h: Home, e: HomeEffect) {
    && HomeTracked(facts + e.facts, me, e.home)
    && AcksKnown(facts + e.facts, e.sends)
    && e.home.limit == h.limit
  }

  lemma NothingHappens(facts: seq<Fact>, me: Peer, h: Home, sends: set<Packet>)
    requires HomeTracked(facts, me, h) && AcksKnown(facts, sends)
    ensures GoodHome(facts, me, h, HomeEffect(h, sends, []))
  {
    assert facts + [] == facts;
  }

  lemma ProgressIsGood(facts: seq<Fact>, me: Peer, h: Home, rpc: RpcId, q: Pending, pushes: seq<Fact>)
    requires HomeTracked(facts, me, h) && rpc in h.pending && h.pending[rpc].host == q.host
    requires CallTracked(facts + pushes, me, rpc, q)
    ensures GoodHome(facts, me, h,
              HomeEffect(h.(pending := h.pending[rpc := q]), AckPackets(me, q.host, rpc, q.next - 1), pushes))
  {
    HomeGrows(facts, pushes, me, h);
    var h' := h.(pending := h.pending[rpc := q]);
    forall host ensures Outstanding(h', host) <= h.limit {
      DroppingLowers(h, h', host);
    }
    if q.next > 0 { ProgressKnown(facts + pushes, me, rpc, q); }
  }

  lemma CompletionIsGood(facts: seq<Fact>, me: Peer, h: Home, rpc: RpcId, q: Pending, at: nat, reachable: set<Peer>,
                         pushes: seq<Fact>, closed: seq<Fact>)
    requires HomeTracked(facts, me, h) && rpc in h.pending && h.pending[rpc].host == q.host
    requires CallTracked(facts + pushes, me, rpc, q) && CompletionAt(q, h.pending[rpc].next, at)
    ensures var c := Completion(q.host, at);
            GoodHome(facts, me, h,
              HomeEffect(h.(pending := h.pending - {rpc}, done := h.done[rpc := c]),
                         CompletionEventAck(me, rpc, c, reachable), pushes + closed))
  {
    assert facts + (pushes + closed) == (facts + pushes) + closed;
    CompletionKnown(facts + pushes, me, rpc, q, h.pending[rpc].next, at);
    KnownGrows(facts + pushes, closed, me, q.host, rpc, at);
    HomeGrows(facts, pushes + closed, me, h);
    var h' := h.(pending := h.pending - {rpc}, done := h.done[rpc := Completion(q.host, at)]);
    forall host ensures Outstanding(h', host) <= h.limit {
      CompletionMoves(h, rpc, Completion(q.host, at), host);
    }
  }

  lemma AdmitEventIsGood(facts: seq<Fact>, me: Peer, h: Home, from: Peer, rpc: RpcId, index: nat, event: WireEvent,
                         reachable: set<Peer>)
    requires HomeTracked(facts, me, h) && rpc in h.pending && h.pending[rpc].host == from
    ensures GoodHome(facts, me, h, AdmitEvent(me, h, from, rpc, index, event, reachable))
  {
    var p := h.pending[rpc];
    var (q, completed) := Drain(p.(buffered := p.buffered[index := event]));
    DrainTracks(facts, me, rpc, p, index, event);
    DrainedIsGood(facts, me, h, rpc, q, completed, reachable, PushFacts(me, rpc, p, q));
  }

  lemma DrainedIsGood(facts: seq<Fact>, me: Peer, h: Home, rpc: RpcId, q: Pending, completed: Option<nat>,
                      reachable: set<Peer>, pushes: seq<Fact>)
    requires HomeTracked(facts, me, h) && rpc in h.pending && h.pending[rpc].host == q.host
    requires CallTracked(facts + pushes, me, rpc, q)
    requires completed.Some? ==> CompletionAt(q, h.pending[rpc].next, completed.value)
    ensures completed.Some? ==>
              var c := Completion(q.host, completed.value);
              GoodHome(facts, me, h,
                HomeEffect(h.(pending := h.pending - {rpc}, done := h.done[rpc := c]),
                           CompletionEventAck(me, rpc, c, reachable), pushes + [ClosedFact(me, rpc, q, EndedComplete)]))
    ensures completed.None? ==>
              GoodHome(facts, me, h,
                HomeEffect(h.(pending := h.pending[rpc := q]), AckPackets(me, q.host, rpc, q.next - 1), pushes))
  {
    if completed.Some? {
      CompletionIsGood(facts, me, h, rpc, q, completed.value, reachable, pushes, [ClosedFact(me, rpc, q, EndedComplete)]);
    } else {
      ProgressIsGood(facts, me, h, rpc, q, pushes);
    }
  }

  lemma TakeEventIsGood(facts: seq<Fact>, me: Peer, h: Home, from: Peer, rpc: RpcId, index: nat, event: WireEvent,
                        reachable: set<Peer>)
    requires HomeTracked(facts, me, h)
    ensures GoodHome(facts, me, h, TakeEvent(me, h, from, rpc, index, event, reachable))
  {
    if rpc !in h.pending || h.pending[rpc].host != from {
      NothingHappens(facts, me, h, TakeEvent(me, h, from, rpc, index, event, reachable).sends);
    } else if index < h.pending[rpc].next {
      ProgressKnown(facts, me, rpc, h.pending[rpc]);
      NothingHappens(facts, me, h, AckPackets(me, from, rpc, h.pending[rpc].next - 1));
    } else {
      AdmitEventIsGood(facts, me, h, from, rpc, index, event, reachable);
    }
  }

  lemma {:induction false} TakeEventsAreGood(facts: seq<Fact>, me: Peer, h: Home, from: Peer, rpc: RpcId,
                                             events: seq<Indexed>, reachable: set<Peer>)
    requires HomeTracked(facts, me, h)
    ensures GoodHome(facts, me, h, TakeEvents(me, h, from, rpc, events, reachable))
    decreases |events|
  {
    if events == [] {
      NothingHappens(facts, me, h, {});
    } else {
      var first := TakeEvent(me, h, from, rpc, events[0].index, events[0].event, reachable);
      TakeEventIsGood(facts, me, h, from, rpc, events[0].index, events[0].event, reachable);
      TakeEventsAreGood(facts + first.facts, me, first.home, from, rpc, events[1..], reachable);
      var rest := TakeEvents(me, first.home, from, rpc, events[1..], reachable);
      assert facts + (first.facts + rest.facts) == (facts + first.facts) + rest.facts;
      AcksGrow(facts + first.facts, rest.facts, first.sends);
    }
  }

  lemma DroppedIsGood(facts: seq<Fact>, me: Peer, h: Home, e: HomeEffect)
    requires HomeTracked(facts, me, h) && e.home.limit == h.limit && AcksKnown(facts + e.facts, e.sends)
    requires e.home.pending.Keys <= h.pending.Keys && e.home.done.Keys <= h.done.Keys
    requires forall rpc | rpc in e.home.done :: e.home.done[rpc] == h.done[rpc]
    requires forall rpc | rpc in e.home.pending :: e.home.pending[rpc].(retries := 0) == h.pending[rpc].(retries := 0)
    ensures GoodHome(facts, me, h, e)
  {
    HomeGrows(facts, e.facts, me, h);
    forall host ensures Outstanding(e.home, host) <= e.home.limit {
      DroppingLowers(h, e.home, host);
    }
    forall rpc | rpc in e.home.pending ensures CallTracked(facts + e.facts, me, rpc, e.home.pending[rpc]) {
      assert CallTracked(facts + e.facts, me, rpc, h.pending[rpc]);
    }
  }

  lemma TakeOutcomeIsGood(facts: seq<Fact>, me: Peer, h: Home, from: Peer, rpc: RpcId, kind: OutcomeKind,
                          events: seq<Indexed>, reachable: set<Peer>)
    requires HomeTracked(facts, me, h)
    ensures GoodHome(facts, me, h, TakeOutcome(me, h, from, rpc, kind, events, reachable))
  {
    if rpc !in h.pending || h.pending[rpc].host != from {
      NothingHappens(facts, me, h, {});
    } else if kind.OutcomeCompleted? {
      TakeEventsAreGood(facts, me, h, from, rpc, events, reachable);
    } else {
      DroppedIsGood(facts, me, h, RetryOrFail(me, h, rpc, kind));
    }
  }

  lemma RequestIsGood(facts: seq<Fact>, me: Peer, h: Home, host: Peer, request: Request, start: nat, reachable: set<Peer>)
    requires HomeTracked(facts, me, h)
    ensures GoodHome(facts, me, h, RequestTurn(me, h, host, request, start, reachable))
  {
    var e, rpc := RequestTurn(me, h, host, request, start, reachable), request.rpc;
    if DeliverRefusal(h, host, rpc, reachable).Some? || rpc in h.pending {
      NothingHappens(facts, me, h, {});
    } else {
      HomeGrows(facts, e.facts, me, h);
      forall peer ensures Outstanding(e.home, peer) <= e.home.limit {
        RequestAddsOne(h, e.home, rpc, peer);
      }
    }
  }

  lemma RetriesAreKnown(facts: seq<Fact>, me: Peer, h: Home, host: Option<Peer>, reachable: set<Peer>)
    requires HomeTracked(facts, me, h)
    ensures AcksKnown(facts, RetryAcks(me, h, host, reachable))
    ensures host.Some? ==> AcksKnown(facts, ReconnectPackets(me, h, host.value, reachable))
  {
  }

  // ---------------------------------------------------------------- every step keeps it

  predicate NoAcks(sends: set<Packet>) {
    forall p | p in sends :: !p.message.RunEventAck?
  }

  /** What a step leaves of the home that takes it. */
  ghost predicate TracksAt(w: World, me: Peer, e: NodeEffect) {
    HomeTracked(w.facts + e.facts, me, e.node.home) && AcksKnown(w.facts + e.facts, e.sends)
  }

  lemma ResidentStepTracks(w: World, me: Peer, e: NodeEffect)
    requires me in w.nodes && HomeTracked(w.facts, me, w.nodes[me].home)
    requires e.node.home == w.nodes[me].home && NoAcks(e.sends)
    ensures TracksAt(w, me, e)
  {
    HomeGrows(w.facts, e.facts, me, w.nodes[me].home);
  }

  lemma HandleTracks(w: World, p: Packet, reachable: set<Peer>)
    requires p.dst in w.nodes && HomeTracked(w.facts, p.dst, w.nodes[p.dst].home)
    ensures TracksAt(w, p.dst, Handle(p.dst, w.nodes[p.dst], p.src, p.message, reachable))
  {
    var me, n := p.dst, w.nodes[p.dst];
    match p.message
    case Outcome(rpc, kind, events) => TakeOutcomeIsGood(w.facts, me, n.home, p.src, rpc, kind, events, reachable);
    case RunEvent(rpc, index, event) => TakeEventIsGood(w.facts, me, n.home, p.src, rpc, index, event, reachable);
    case CompletionAck(rpc, last) => DroppedIsGood(w.facts, me, n.home, TakeCompletionAck(n.home, p.src, rpc, last));
    case _ => ResidentStepTracks(w, me, Handle(me, n, p.src, p.message, reachable));
  }

  lemma CrashTracks(facts: seq<Fact>, me: Peer, h: Home)
    ensures HomeTracked(facts, me, h.(pending := map[], done := map[]))
  {
    var h' := h.(pending := map[], done := map[]);
    forall host ensures Outstanding(h', host) <= h'.limit {
      assert PendingAt(h', host) == {} && DoneAt(h', host) == {};
    }
  }

  lemma ActTracks(w: World, s: Step)
    requires HomeInvariant(w) && Possible(w, s)
    ensures TracksAt(w, Actor(s), Act(w, s))
  {
    var me := Actor(s);
    var h := w.nodes[me].home;
    assert HomeTracked(w.facts, me, h);
    match s
    case Receive(p, reachable) => HandleTracks(w, p, reachable);
    case RequestRun(_, host, request, start, reachable) => RequestIsGood(w.facts, me, h, host, request, start, reachable);
    case PeerConnected(_, peer, reachable) =>
      RetriesAreKnown(w.facts, me, h, Some(peer), reachable);
      NothingHappens(w.facts, me, h, ReconnectPackets(me, h, peer, reachable));
    case RetryTimer(_, reachable) =>
      RetriesAreKnown(w.facts, me, h, None, reachable);
      NothingHappens(w.facts, me, h, RetryAcks(me, h, None, reachable));
    case Crash(_, midway) => CrashTracks(w.facts + Act(w, s).facts, me, h);
    case _ => ResidentStepTracks(w, me, Act(w, s));
  }

  lemma EffectKeepsHome(w: World, me: Peer, e: NodeEffect)
    requires HomeInvariant(w) && me in w.nodes && TracksAt(w, me, e)
    ensures HomeInvariant(Commit(w, me, e))
  {
    var w' := Commit(w, me, e);
    AcksGrow(w.facts, e.facts, w.net);
    forall n | n in w'.nodes ensures HomeTracked(w'.facts, n, w'.nodes[n].home) {
      if n != me { HomeGrows(w.facts, e.facts, n, w.nodes[n].home); }
    }
  }

  lemma StepKeepsHome(w: World, s: Step)
    requires HomeInvariant(w) && Possible(w, s)
    ensures HomeInvariant(Apply(w, s))
  {
    ActTracks(w, s);
    EffectKeepsHome(w, Actor(s), Act(w, s));
  }

  lemma StartKeepsHome(w: World)
    requires Initial(w)
    ensures HomeInvariant(w)
  {
    forall n | n in w.nodes ensures HomeTracked(w.facts, n, w.nodes[n].home) {
      CrashTracks(w.facts, n, w.nodes[n].home);
      assert w.nodes[n].home == w.nodes[n].home.(pending := map[], done := map[]);
    }
  }

  lemma {:induction false} TraceKeepsHome(ws: seq<World>, rules: Rules, i: nat)
    requires Trace(ws, rules) && i < |ws|
    ensures HomeInvariant(ws[i])
  {
    if i == 0 {
      StartKeepsHome(ws[0]);
    } else {
      TraceKeepsHome(ws, rules, i - 1);
      assert Next(ws[i - 1], ws[i - 1 + 1], rules);
      var s :| Possible(ws[i - 1], s) && Allowed(ws[i - 1], s, rules) && ws[i] == Apply(ws[i - 1], s);
      StepKeepsHome(ws[i - 1], s);
    }
  }

  // ---------------------------------------------------------------- main results

  /** In every run, no acknowledgement ever sent names an event that its sender had not received,
      unless the sender was asked to start after it. */
  lemma AcksNameKnownEvents(ws: seq<World>, rules: Rules, i: nat, p: Packet)
    requires Trace(ws, rules) && i < |ws| && p in ws[i].net && p.message.RunEventAck?
    ensures KnownTo(ws[i].facts, p.src, p.dst, p.message.rpc, p.message.upTo)
  {
    TraceKeepsHome(ws, rules, i);
  }

  /** In every run, open calls and unconfirmed completions of a host together never exceed the
      limit. */
  lemma TrackingIsBounded(ws: seq<World>, rules: Rules, i: nat, me: Peer, host: Peer)
    requires Trace(ws, rules) && i < |ws| && me in ws[i].nodes
    ensures Outstanding(ws[i].nodes[me].home, host) <= ws[i].nodes[me].home.limit
  {
    TraceKeepsHome(ws, rules, i);
    assert HomeTracked(ws[i].facts, me, ws[i].nodes[me].home);
  }
}
