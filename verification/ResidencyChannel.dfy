/** Everything in flight, buffered or received is what the resident's log holds, in every run in
    which no event is appended behind an unfinished record. */
module ResidencyChannel {
  import opened ResidencyProtocol
  import opened ResidencyWorld
  import opened ResidencyHome

  /** The journal of `host` holds `event` at position `index` of that attempt. */
  predicate Logged(w: World, host: Peer, home: Peer, rpc: RpcId, index: nat, event: WireEvent) {
    host in w.nodes &&
    var journal := w.nodes[host].resident.journal;
    Key(home, rpc) in journal && index < |journal[Key(home, rpc)].log|
    && journal[Key(home, rpc)].log[index] == event
  }

  predicate EventsLogged(w: World, host: Peer, home: Peer, rpc: RpcId, events: seq<Indexed>) {
    forall i | 0 <= i < |events| :: Logged(w, host, home, rpc, events[i].index, events[i].event)
  }

  predicate PacketLogged(w: World, p: Packet) {
    match p.message
    case RunEvent(rpc, index, event) => Logged(w, p.src, p.dst, rpc, index, event)
    case Outcome(rpc, _, events) => EventsLogged(w, p.src, p.dst, rpc, events)
    case _ => true
  }

  /** `pushed` is the slice of the resident journal that starts at `start`. */
  predicate Slice(w: World, host: Peer, home: Peer, rpc: RpcId, start: nat, pushed: seq<WireEvent>) {
    forall i | 0 <= i < |pushed| :: Logged(w, host, home, rpc, start + i, pushed[i])
  }

  predicate BufferLogged(w: World, me: Peer, rpc: RpcId, p: Pending) {
    forall i | i in p.buffered :: Logged(w, p.host, me, rpc, i, p.buffered[i])
  }

  predicate CallLogged(w: World, me: Peer, rpc: RpcId, p: Pending) {
    && p.next == p.start + |p.pushed|
    && Slice(w, p.host, me, rpc, p.start, p.pushed)
    && BufferLogged(w, me, rpc, p)
  }

  predicate HomeLogged(w: World, me: Peer, h: Home) {
    forall rpc | rpc in h.pending :: CallLogged(w, me, rpc, h.pending[rpc])
  }

  predicate HasCompletion(pushed: seq<WireEvent>) {
    exists i | 0 <= i < |pushed| :: pushed[i].RunCompleted?
  }

  predicate FactLogged(w: World, f: Fact) {
    match f
    case Pushed(home, host, rpc, index, event) => Logged(w, host, home, rpc, index, event)
    case Closed(home, host, rpc, start, pushed, how) =>
      Slice(w, host, home, rpc, start, pushed) && (how == EndedComplete ==> HasCompletion(pushed))
    case _ => true
  }

  predicate PacketsLogged(w: World, sends: set<Packet>) {
    forall p | p in sends :: PacketLogged(w, p)
  }

  predicate FactsLogged(w: World, facts: seq<Fact>) {
    forall f | f in facts :: FactLogged(w, f)
  }

  ghost predicate ChannelInvariant(w: World) {
    && PacketsLogged(w, w.net)
    && (forall n | n in w.nodes :: HomeLogged(w, n, w.nodes[n].home))
    && FactsLogged(w, w.facts)
  }

  // ---------------------------------------------------------------- growth

  predicate LogsGrowIn(a: map<Key, Attempt>, b: map<Key, Attempt>) {
    forall key | key in a :: key in b && a[key].log <= b[key].log
  }

  /** No log loses or changes an event that it held. */
  predicate LogsGrow(w: World, w': World) {
    forall n | n in w.nodes :: n in w'.nodes && LogsGrowIn(w.nodes[n].resident.journal, w'.nodes[n].resident.journal)
  }

  lemma LoggedGrows(w: World, w': World, host: Peer, home: Peer, rpc: RpcId, index: nat, event: WireEvent)
    requires LogsGrow(w, w') && Logged(w, host, home, rpc, index, event)
    ensures Logged(w', host, home, rpc, index, event)
  {
    assert LogsGrowIn(w.nodes[host].resident.journal, w'.nodes[host].resident.journal);
  }

  lemma SliceGrows(w: World, w': World, host: Peer, home: Peer, rpc: RpcId, start: nat, pushed: seq<WireEvent>)
    requires LogsGrow(w, w') && Slice(w, host, home, rpc, start, pushed)
    ensures Slice(w', host, home, rpc, start, pushed)
  {
    forall i | 0 <= i < |pushed| ensures Logged(w', host, home, rpc, start + i, pushed[i]) {
      LoggedGrows(w, w', host, home, rpc, start + i, pushed[i]);
    }
  }

  lemma PacketGrows(w: World, w': World, p: Packet)
    requires LogsGrow(w, w') && PacketLogged(w, p)
    ensures PacketLogged(w', p)
  {
    match p.message
    case RunEvent(rpc, index, event) => LoggedGrows(w, w', p.src, p.dst, rpc, index, event);
    case Outcome(rpc, _, events) =>
      forall i | 0 <= i < |events| ensures Logged(w', p.src, p.dst, rpc, events[i].index, events[i].event) {
        LoggedGrows(w, w', p.src, p.dst, rpc, events[i].index, events[i].event);
      }
    case _ =>
  }

  lemma CallGrows(w: World, w': World, me: Peer, rpc: RpcId, p: Pending)
    requires LogsGrow(w, w') && CallLogged(w, me, rpc, p)
    ensures CallLogged(w', me, rpc, p)
  {
    SliceGrows(w, w', p.host, me, rpc, p.start, p.pushed);
    forall i | i in p.buffered ensures Logged(w', p.host, me, rpc, i, p.buffered[i]) {
      LoggedGrows(w, w', p.host, me, rpc, i, p.buffered[i]);
    }
  }

  lemma HomeLogsGrow(w: World, w': World, me: Peer, h: Home)
    requires LogsGrow(w, w') && HomeLogged(w, me, h)
    ensures HomeLogged(w', me, h)
  {
    forall rpc | rpc in h.pending ensures CallLogged(w', me, rpc, h.pending[rpc]) {
      CallGrows(w, w', me, rpc, h.pending[rpc]);
    }
  }

  lemma FactGrows(w: World, w': World, f: Fact)
    requires LogsGrow(w, w') && FactLogged(w, f)
    ensures FactLogged(w', f)
  {
    match f
    case Pushed(home, host, rpc, index, event) => LoggedGrows(w, w', host, home, rpc, index, event);
    case Closed(home, host, rpc, start, pushed, how) => SliceGrows(w, w', host, home, rpc, start, pushed);
    case _ =>
  }

  // ---------------------------------------------------------------- the home's handlers

  /** A home handler's effect that is right about a world. */
  predicate RightHome(w: World, me: Peer, e: HomeEffect) {
    HomeLogged(w, me, e.home) && FactsLogged(w, e.facts)
  }

  lemma DrainOneKeeps(w: World, me: Peer, rpc: RpcId, p: Pending)
    requires CallLogged(w, me, rpc, p) && p.next in p.buffered
    ensures CallLogged(w, me, rpc, DrainOne(p))
  {
    var rest := DrainOne(p);
    assert Logged(w, p.host, me, rpc, p.next, p.buffered[p.next]);
    forall i | 0 <= i < |rest.pushed| ensures Logged(w, p.host, me, rpc, p.start + i, rest.pushed[i]) {
      if i < |p.pushed| { assert rest.pushed[i] == p.pushed[i]; }
    }
  }

  lemma {:induction false} DrainKeeps(w: World, me: Peer, rpc: RpcId, p: Pending)
    requires CallLogged(w, me, rpc, p)
    ensures CallLogged(w, me, rpc, Drain(p).0)
    decreases |p.buffered|
  {
    if p.next in p.buffered {
      DrainOneKeeps(w, me, rpc, p);
      DrainKeeps(w, me, rpc, DrainOne(p));
    }
  }

  lemma PushFactsLogged(w: World, me: Peer, rpc: RpcId, before: Pending, after: Pending)
    requires before.next == before.start + |before.pushed| && before.pushed <= after.pushed
    requires after.host == before.host && after.start == before.start
    requires Slice(w, after.host, me, rpc, after.start, after.pushed)
    ensures FactsLogged(w, PushFacts(me, rpc, before, after))
  {
    var pushes := PushFacts(me, rpc, before, after);
    forall f | f in pushes ensures FactLogged(w, f) {
      var i :| 0 <= i < |pushes| && pushes[i] == f;
      assert Logged(w, after.host, me, rpc, after.start + (|before.pushed| + i), after.pushed[|before.pushed| + i]);
    }
  }

  /** Buffering and draining an event that the log holds. */
  lemma NewEventDrains(w: World, me: Peer, rpc: RpcId, p: Pending, index: nat, event: WireEvent)
    requires CallLogged(w, me, rpc, p) && Logged(w, p.host, me, rpc, index, event)
    ensures var (q, completed) := Drain(p.(buffered := p.buffered[index := event]));
            && CallLogged(w, me, rpc, q) && q.host == p.host && p.pushed <= q.pushed
            && FactsLogged(w, PushFacts(me, rpc, p, q))
            && (completed.Some? ==> HasCompletion(q.pushed))
  {
    var filled := p.(buffered := p.buffered[index := event]);
    assert CallLogged(w, me, rpc, filled);
    DrainKeeps(w, me, rpc, filled);
    DrainGrows(filled);
    DrainCompletes(filled);
    PushFactsLogged(w, me, rpc, p, Drain(filled).0);
  }

  lemma FactsJoin(w: World, a: seq<Fact>, b: seq<Fact>)
    requires FactsLogged(w, a) && FactsLogged(w, b)
    ensures FactsLogged(w, a + b)
  {
  }

  lemma AdmitEventIsRight(w: World, me: Peer, h: Home, from: Peer, rpc: RpcId, index: nat, event: WireEvent,
                          reachable: set<Peer>)
    requires HomeLogged(w, me, h) && Logged(w, from, me, rpc, index, event)
    requires rpc in h.pending && h.pending[rpc].host == from
    ensures RightHome(w, me, AdmitEvent(me, h, from, rpc, index, event, reachable))
  {
    var p := h.pending[rpc];
    var (q, completed) := Drain(p.(buffered := p.buffered[index := event]));
    NewEventDrains(w, me, rpc, p, index, event);
    if completed.Some? {
      assert FactLogged(w, ClosedFact(me, rpc, q, EndedComplete));
      FactsJoin(w, PushFacts(me, rpc, p, q), [ClosedFact(me, rpc, q, EndedComplete)]);
    }
  }

  /** An event that the log really holds keeps the home right, whenever it arrives and however
      often. */
  lemma TakeEventIsRight(w: World, me: Peer, h: Home, from: Peer, rpc: RpcId, index: nat, event: WireEvent,
                         reachable: set<Peer>)
    requires HomeLogged(w, me, h) && Logged(w, from, me, rpc, index, event)
    ensures RightHome(w, me, TakeEvent(me, h, from, rpc, index, event, reachable))
  {
    if rpc in h.pending && h.pending[rpc].host == from && h.pending[rpc].next <= index {
      AdmitEventIsRight(w, me, h, from, rpc, index, event, reachable);
    }
  }

  lemma {:induction false} TakeEventsAreRight(w: World, me: Peer, h: Home, from: Peer, rpc: RpcId,
                                              events: seq<Indexed>, reachable: set<Peer>)
    requires HomeLogged(w, me, h) && EventsLogged(w, from, me, rpc, events)
    ensures RightHome(w, me, TakeEvents(me, h, from, rpc, events, reachable))
    decreases |events|
  {
    if events != [] {
      var first := TakeEvent(me, h, from, rpc, events[0].index, events[0].event, reachable);
      TakeEventIsRight(w, me, h, from, rpc, events[0].index, events[0].event, reachable);
      assert EventsLogged(w, from, me, rpc, events[1..]);
      TakeEventsAreRight(w, me, first.home, from, rpc, events[1..], reachable);
      FactsJoin(w, first.facts, TakeEvents(me, first.home, from, rpc, events[1..], reachable).facts);
    }
  }

  lemma TakeOutcomeIsRight(w: World, me: Peer, h: Home, from: Peer, rpc: RpcId, kind: OutcomeKind, events: seq<Indexed>,
                           reachable: set<Peer>)
    requires HomeLogged(w, me, h) && EventsLogged(w, from, me, rpc, events)
    ensures RightHome(w, me, TakeOutcome(me, h, from, rpc, kind, events, reachable))
  {
    if rpc in h.pending && h.pending[rpc].host == from {
      if kind.OutcomeCompleted? {
        TakeEventsAreRight(w, me, h, from, rpc, events, reachable);
      } else {
        assert CallLogged(w, me, rpc, h.pending[rpc]);
      }
    }
  }

  /** The home sends nothing that has to be in a log. */
  predicate SendsNoEvents(sends: set<Packet>) {
    forall p | p in sends :: !p.message.RunEvent? && !p.message.Outcome?
  }

  lemma {:induction false} TakeEventsSend(me: Peer, h: Home, from: Peer, rpc: RpcId, events: seq<Indexed>, reachable: set<Peer>)
    ensures SendsNoEvents(TakeEvents(me, h, from, rpc, events, reachable).sends)
    decreases |events|
  {
    if events != [] {
      var first := TakeEvent(me, h, from, rpc, events[0].index, events[0].event, reachable);
      TakeEventsSend(me, first.home, from, rpc, events[1..], reachable);
    }
  }

  lemma HomeHandlingSends(me: Peer, n: Node, from: Peer, m: Message, reachable: set<Peer>)
    requires m.Outcome? || m.RunEvent? || m.CompletionAck?
    ensures SendsNoEvents(Handle(me, n, from, m, reachable).sends)
  {
    if m.Outcome? { TakeEventsSend(me, n.home, from, m.rpc, m.events, reachable); }
  }

  lemma HomeHandlingIsRight(w: World, me: Peer, n: Node, from: Peer, m: Message, reachable: set<Peer>)
    requires HomeLogged(w, me, n.home) && PacketLogged(w, Packet(from, me, m))
    requires m.Outcome? || m.RunEvent? || m.CompletionAck?
    ensures var e := Handle(me, n, from, m, reachable);
            e.node.resident == n.resident && SendsNoEvents(e.sends) && HomeLogged(w, me, e.node.home) && FactsLogged(w, e.facts)
  {
    HomeHandlingSends(me, n, from, m, reachable);
    match m
    case Outcome(rpc, kind, events) => TakeOutcomeIsRight(w, me, n.home, from, rpc, kind, events, reachable);
    case RunEvent(rpc, index, event) => TakeEventIsRight(w, me, n.home, from, rpc, index, event, reachable);
    case CompletionAck(rpc, last) =>
  }

  // ---------------------------------------------------------------- the resident's handlers

  /** The packets a resident handler sends, about the journal it leaves. */
  predicate SendsLogged(me: Peer, journal: map<Key, Attempt>, sends: set<Packet>) {
    forall p | p in sends :: SendLogged(me, journal, p)
  }

  predicate EventLogged(journal: map<Key, Attempt>, key: Key, index: nat, event: WireEvent) {
    key in journal && index < |journal[key].log| && journal[key].log[index] == event
  }

  predicate SendLogged(me: Peer, journal: map<Key, Attempt>, p: Packet) {
    match p.message
    case RunEvent(rpc, index, event) => p.src == me && EventLogged(journal, Key(p.dst, rpc), index, event)
    case Outcome(rpc, _, events) =>
      p.src == me && forall i | 0 <= i < |events| :: EventLogged(journal, Key(p.dst, rpc), events[i].index, events[i].event)
    case _ => true
  }

  lemma OutcomeLogged(me: Peer, journal: map<Key, Attempt>, key: Key, attempt: Attempt, kind: OutcomeKind, last: int)
    requires key in journal && attempt.log == journal[key].log
    ensures SendLogged(me, journal, OutcomePacket(me, key, attempt, kind, last))
  {
  }

  /** A resident handler that only lengthens logs, and sends what they hold. */
  predicate RightResident(me: Peer, r: Resident, e: ResidentEffect) {
    LogsGrowIn(r.journal, e.resident.journal) && SendsLogged(me, e.resident.journal, e.sends)
  }

  lemma AcceptIsRight(me: Peer, r: Resident, home: Peer, request: Request)
    ensures RightResident(me, r, AcceptDelivery(me, r, home, request))
  {
    var key, e := Key(home, request.rpc), AcceptDelivery(me, r, home, request);
    forall p | p in e.sends ensures SendLogged(me, e.resident.journal, p) {
      if p.message.kind.OutcomeCompleted? {
        OutcomeLogged(me, e.resident.journal, key, Ensure(r.journal, key, request)[key], OutcomeCompleted, -1);
      }
    }
  }

  lemma ReconcileIsRight(me: Peer, r: Resident, home: Peer, asked: set<ReconcileRequest>)
    ensures SendsLogged(me, r.journal, ReconcileReplies(me, r, home, asked))
  {
    forall p | p in ReconcileReplies(me, r, home, asked) ensures SendLogged(me, r.journal, p) {
      var q :| q in asked && p in ReconcileReply(me, r, home, q);
      if Key(home, q.rpc) in r.journal {
        var attempt := r.journal[Key(home, q.rpc)];
        OutcomeLogged(me, r.journal, Key(home, q.rpc), attempt, p.message.kind, q.lastIndex);
      }
    }
  }

  lemma AckIsRight(me: Peer, r: Resident, home: Peer, rpc: RpcId, upTo: int)
    ensures RightResident(me, r, AcknowledgeEvent(me, r, home, rpc, upTo))
  {
  }

  /** An append behind a whole record. */
  lemma EmissionIsRight(me: Peer, before: Resident, key: Key, event: WireEvent)
    requires EndsCleanly(before, key)
    ensures RightResident(me, before, EmitEvent(me, before, key, event))
  {
    assert Key(key.home, key.rpc) == key;
  }

  lemma TurnIsRight(me: Peer, r: Resident, key: Key, event: WireEvent)
    requires Running(r, key) && EndsCleanly(r, key)
    ensures RightResident(me, r, FireTurn(me, r, key)) && RightResident(me, r, YieldEvent(me, r, key, event))
  {
    var turn := r.running[key];
    EmissionIsRight(me, SetState(r.(running := r.running[key := turn.(started := true)]), key, Started), key, StartedEvent(turn.request));
    EmissionIsRight(me, r.(running := r.running[key := turn.(completed := turn.completed || event.RunCompleted?)]), key, event);
  }

  lemma LateFireIsRight(me: Peer, r: Resident, hook: Hook)
    requires EndsCleanly(r, hook.key)
    ensures RightResident(me, r, FireLate(me, r, hook))
  {
    EmissionIsRight(me, SetState(r, hook.key, Started), hook.key, StartedEvent(hook.request));
  }

  lemma EndIsRight(me: Peer, r: Resident, key: Key)
    requires Running(r, key)
    ensures RightResident(me, r, FinishTurn(me, r, key)) && RightResident(me, r, ThrowTurn(me, r, key))
  {
  }

  lemma CutAppendGrows(a: Attempt, event: WireEvent, cut: Tail)
    requires cut == Clean || a.tail != Unterminated || a.log == []
    ensures a.log <= a.AppendCut(event, cut).log
  {
  }

  lemma CrashIsRight(me: Peer, r: Resident, midway: Midway)
    requires MidwayPossible(r, midway) && AppendsCleanly(r, Crash(me, midway))
    ensures RightResident(me, r, Remains(me, r, midway))
  {
    match midway
    case WhileFiring(key, cut) =>
      CutAppendGrows(r.journal[key].(state := Started), StartedEvent(r.running[key].request), cut);
    case WhileFiringLate(hook, cut) =>
      CutAppendGrows(r.journal[hook.key].(state := Started), StartedEvent(hook.request), cut);
    case WhileYielding(key, event, cut) => CutAppendGrows(r.journal[key], event, cut);
    case _ =>
  }

  // ---------------------------------------------------------------- every clean step keeps it

  /** A step's effect that keeps the channel right. */
  predicate RightEffect(w: World, me: Peer, e: NodeEffect)
    requires me in w.nodes
  {
    var w' := Commit(w, me, e);
    LogsGrow(w, w') && PacketsLogged(w', e.sends) && HomeLogged(w', me, e.node.home) && FactsLogged(w', e.facts)
  }

  predicate RecordsTurns(facts: seq<Fact>) {
    forall f | f in facts :: f.Begun? || f.Fired?
  }

  lemma ResidentEffectIsRight(w: World, me: Peer, e: NodeEffect, h: Home)
    requires ChannelInvariant(w) && me in w.nodes && RecordsTurns(e.facts)
    requires LogsGrowIn(w.nodes[me].resident.journal, e.node.resident.journal)
    requires SendsLogged(me, e.node.resident.journal, e.sends)
    requires e.node.home == h && (h == w.nodes[me].home || h.pending == map[])
    ensures RightEffect(w, me, e)
  {
    var w' := Commit(w, me, e);
    assert LogsGrow(w, w');
    if h == w.nodes[me].home { HomeLogsGrow(w, w', me, h); }
    forall p | p in e.sends ensures PacketLogged(w', p) {
      assert SendLogged(me, e.node.resident.journal, p);
    }
  }

  lemma HomeEffectIsRight(w: World, me: Peer, e: NodeEffect)
    requires me in w.nodes && e.node.resident == w.nodes[me].resident
    requires SendsNoEvents(e.sends) && HomeLogged(w, me, e.node.home) && FactsLogged(w, e.facts)
    ensures RightEffect(w, me, e)
  {
    var w' := Commit(w, me, e);
    assert LogsGrow(w, w');
    HomeLogsGrow(w, w', me, e.node.home);
    forall f | f in e.facts ensures FactLogged(w', f) {
      FactGrows(w, w', f);
    }
  }

  lemma HandleIsRight(w: World, p: Packet, reachable: set<Peer>)
    requires ChannelInvariant(w) && p in w.net && p.dst in w.nodes
    ensures RightEffect(w, p.dst, Handle(p.dst, w.nodes[p.dst], p.src, p.message, reachable))
  {
    var me, n := p.dst, w.nodes[p.dst];
    var e := Handle(me, n, p.src, p.message, reachable);
    assert PacketLogged(w, p) && HomeLogged(w, me, n.home);
    match p.message {
      case Deliver(request) =>
        AcceptIsRight(me, n.resident, p.src, request);
        ResidentEffectIsRight(w, me, e, n.home);
      case RunEventAck(rpc, upTo) =>
        AckIsRight(me, n.resident, p.src, rpc, upTo);
        ResidentEffectIsRight(w, me, e, n.home);
      case Reconcile(attempts) =>
        ReconcileIsRight(me, n.resident, p.src, attempts);
        ResidentEffectIsRight(w, me, e, n.home);
      case _ =>
        HomeHandlingIsRight(w, me, n, p.src, p.message, reachable);
        HomeEffectIsRight(w, me, e);
    }
  }

  /** The handlers of the resident's turns. */
  lemma TurnStepIsRight(w: World, s: Step)
    requires Possible(w, s) && AppendsCleanly(w.nodes[Actor(s)].resident, s)
    requires s.Fire? || s.LateFire? || s.Yield? || s.Finish? || s.Throw? || s.SpawnFails? || s.Settle? || s.Crash?
    ensures var e := Act(w, s);
            && RecordsTurns(e.facts) && SendsLogged(Actor(s), e.node.resident.journal, e.sends)
            && LogsGrowIn(w.nodes[Actor(s)].resident.journal, e.node.resident.journal)
            && (e.node.home == w.nodes[Actor(s)].home || e.node.home.pending == map[])
  {
    var r := w.nodes[Actor(s)].resident;
    match s
    case Fire(me, key) => TurnIsRight(me, r, key, OtherEvent(""));
    case LateFire(me, hook) => LateFireIsRight(me, r, hook);
    case Yield(me, key, event) => TurnIsRight(me, r, key, event);
    case Finish(me, key) => EndIsRight(me, r, key);
    case Throw(me, key) => EndIsRight(me, r, key);
    case Crash(me, midway) => CrashIsRight(me, r, midway);
    case _ =>
  }

  lemma ActIsRight(w: World, s: Step)
    requires ChannelInvariant(w) && Possible(w, s) && AppendsCleanly(w.nodes[Actor(s)].resident, s)
    ensures RightEffect(w, Actor(s), Act(w, s))
  {
    var me := Actor(s);
    assert HomeLogged(w, me, w.nodes[me].home);
    match s
    case Receive(p, reachable) => HandleIsRight(w, p, reachable);
    case RequestRun(_, _, _, _, _) => HomeEffectIsRight(w, me, Act(w, s));
    case PeerConnected(_, _, _) => HomeEffectIsRight(w, me, Act(w, s));
    case RetryTimer(_, _) => HomeEffectIsRight(w, me, Act(w, s));
    case _ =>
      TurnStepIsRight(w, s);
      ResidentEffectIsRight(w, me, Act(w, s), Act(w, s).node.home);
  }

  lemma EffectKeepsChannel(w: World, me: Peer, e: NodeEffect)
    requires ChannelInvariant(w) && me in w.nodes && RightEffect(w, me, e)
    ensures ChannelInvariant(Commit(w, me, e))
  {
    var w' := Commit(w, me, e);
    forall p | p in w'.net ensures PacketLogged(w', p) {
      if p in w.net { PacketGrows(w, w', p); }
    }
    forall n | n in w'.nodes ensures HomeLogged(w', n, w'.nodes[n].home) {
      if n != me { HomeLogsGrow(w, w', n, w.nodes[n].home); }
    }
    forall f | f in w'.facts ensures FactLogged(w', f) {
      if f in w.facts { FactGrows(w, w', f); }
    }
  }

  lemma StepKeepsChannel(w: World, s: Step)
    requires ChannelInvariant(w) && Possible(w, s) && AppendsCleanly(w.nodes[Actor(s)].resident, s)
    ensures ChannelInvariant(Apply(w, s)) && LogsGrow(w, Apply(w, s))
  {
    ActIsRight(w, s);
    EffectKeepsChannel(w, Actor(s), Act(w, s));
  }
}
