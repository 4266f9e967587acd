/** What a step leaves alone: everything but one attempt of the peer that takes it. */
module ResidencyFrame {
  import opened ResidencyProtocol
  import opened ResidencyWorld

  // ---------------------------------------------------------------- the attempt a step is about

  function MidwayKey(midway: Midway): Key {
    match midway
    case Nowhere => Key("", "")
    case AfterInsert(home, request) => Key(home, request.rpc)
    case WhileFiring(key, _) => key
    case WhileFiringLate(hook, _) => hook.key
    case WhileYielding(key, _, _) => key
  }

  function StepKey(s: Step): Key {
    match s
    case Receive(p, _) =>
      (match p.message
       case Deliver(request) => Key(p.src, request.rpc)
       case RunEventAck(rpc, _) => Key(p.src, rpc)
       case _ => Key("", ""))
    case Fire(_, key) => key
    case LateFire(_, hook) => hook.key
    case Yield(_, key, _) => key
    case Finish(_, key) => key
    case Throw(_, key) => key
    case SpawnFails(_, key) => key
    case Settle(_, key) => key
    case Crash(_, midway) => MidwayKey(midway)
    case _ => Key("", "")
  }

  function CountOf(journal: map<Key, Attempt>, key: Key): nat {
    if key in journal then journal[key].count else 0
  }

  /** Other attempts keep their entries; their turns and callbacks can only be forgotten. */
  predicate TouchesOnly(r: Resident, r': Resident, key: Key) {
    && (forall k | k in r'.active :: k == key || k in r.active)
    && (forall k | k in r'.running && k != key ::
          k in r.running && r'.running[k] == r.running[k] && (k in r.active ==> k in r'.active))
    && (forall k | k in r.journal && k != key :: k in r'.journal && r'.journal[k] == r.journal[k])
    && (forall k | k in r'.journal :: k == key || k in r.journal)
    && (key in r.journal ==> key in r'.journal)
    && HookStep(r, r', key)
  }

  /** A step forgets callbacks, or adds that of the turn it ends; and a turn runs only if it did
      or has just begun. */
  predicate HookStep(r: Resident, r': Resident, key: Key) {
    && (r'.ended <= r.ended ||
        (key in r.running && r'.ended == r.ended + {HookOf(key, r.running[key])} && key !in r'.running))
    && (key in r'.running ==> key in r.running || CountOf(r.journal, key) < CountOf(r'.journal, key))
  }

  lemma BeginTouches(me: Peer, r: Resident, journal: map<Key, Attempt>, key: Key, request: Request)
    requires journal == Ensure(r.journal, key, request) && key in journal
    ensures TouchesOnly(r, BeginTurn(me, r.(journal := journal), key, request).resident, key)
  {
    assert CountOf(journal, key) == CountOf(r.journal, key);
  }

  lemma EntryTouched(r: Resident, key: Key, attempt: Attempt)
    ensures TouchesOnly(r, r.(journal := r.journal[key := attempt]), key)
  {
  }

  lemma AcceptTouches(me: Peer, r: Resident, home: Peer, request: Request)
    ensures TouchesOnly(r, AcceptDelivery(me, r, home, request).resident, Key(home, request.rpc))
  {
    var key := Key(home, request.rpc);
    var journal := Ensure(r.journal, key, request);
    var r' := AcceptDelivery(me, r, home, request).resident;
    if r' == r {
      NothingTouched(r, key);
    } else if r' == BeginTurn(me, r.(journal := journal), key, request).resident {
      BeginTouches(me, r, journal, key, request);
    } else {
      EntryTouched(r, key, r'.journal[key]);
      assert r' == r.(journal := r.journal[key := r'.journal[key]]);
    }
  }

  lemma TurnTouches(me: Peer, r: Resident, key: Key, event: WireEvent)
    requires Running(r, key)
    ensures TouchesOnly(r, FireTurn(me, r, key).resident, key)
    ensures TouchesOnly(r, YieldEvent(me, r, key, event).resident, key)
  {
  }

  lemma EndTouches(me: Peer, r: Resident, key: Key)
    requires Running(r, key)
    ensures TouchesOnly(r, FinishTurn(me, r, key).resident, key)
    ensures TouchesOnly(r, ThrowTurn(me, r, key).resident, key)
    ensures TouchesOnly(r, EndTurn(r, key), key)
  {
  }

  lemma LateFireTouches(me: Peer, r: Resident, hook: Hook)
    requires hook.key in r.journal
    ensures TouchesOnly(r, FireLate(me, r, hook).resident, hook.key)
  {
  }

  lemma AckTouches(me: Peer, r: Resident, home: Peer, rpc: RpcId, upTo: int)
    ensures TouchesOnly(r, AcknowledgeEvent(me, r, home, rpc, upTo).resident, Key(home, rpc))
  {
  }

  lemma CrashTouches(me: Peer, r: Resident, midway: Midway)
    requires MidwayPossible(r, midway)
    ensures TouchesOnly(r, Remains(me, r, midway).resident, MidwayKey(midway))
  {
  }

  lemma NothingTouched(r: Resident, key: Key)
    ensures TouchesOnly(r, r, key)
  {
  }

  lemma HandleTouches(me: Peer, n: Node, p: Packet, reachable: set<Peer>)
    ensures TouchesOnly(n.resident, Handle(me, n, p.src, p.message, reachable).node.resident, StepKey(Receive(p, reachable)))
  {
    match p.message {
      case Deliver(request) => AcceptTouches(me, n.resident, p.src, request);
      case RunEventAck(rpc, upTo) => AckTouches(me, n.resident, p.src, rpc, upTo);
      case _ => HomeHandlingFacts(me, n, p.src, p.message, reachable);
    }
  }

  lemma ActTouchesOnly(w: World, s: Step)
    requires Possible(w, s)
    ensures TouchesOnly(w.nodes[Actor(s)].resident, Act(w, s).node.resident, StepKey(s))
  {
    var r := w.nodes[Actor(s)].resident;
    match s
    case Receive(p, reachable) => HandleTouches(p.dst, w.nodes[p.dst], p, reachable);
    case Fire(me, key) => TurnTouches(me, r, key, OtherEvent(""));
    case LateFire(me, hook) => LateFireTouches(me, r, hook);
    case Yield(me, key, event) => TurnTouches(me, r, key, event);
    case Finish(me, key) => EndTouches(me, r, key);
    case Throw(me, key) => EndTouches(me, r, key);
    case SpawnFails(me, key) => EndTouches(me, r, key);
    case Crash(me, midway) => CrashTouches(me, r, midway);
    case Settle(me, key) =>
    case _ => NothingTouched(r, StepKey(s));
  }

  // ---------------------------------------------------------------- the home's handlers

  predicate HomeFacts(facts: seq<Fact>) {
    forall f | f in facts :: !f.Begun? && !f.Fired?
  }

  lemma TakeEventFacts(me: Peer, h: Home, from: Peer, rpc: RpcId, index: nat, event: WireEvent, reachable: set<Peer>)
    ensures HomeFacts(TakeEvent(me, h, from, rpc, index, event, reachable).facts)
  {
    if rpc in h.pending && h.pending[rpc].host == from && index >= h.pending[rpc].next {
      var p := h.pending[rpc].(buffered := h.pending[rpc].buffered[index := event]);
      DrainGrows(p);
      assert HomeFacts(PushFacts(me, rpc, h.pending[rpc], Drain(p).0));
    }
  }

  lemma TakeEventsFacts(me: Peer, h: Home, from: Peer, rpc: RpcId, events: seq<Indexed>, reachable: set<Peer>)
    ensures HomeFacts(TakeEvents(me, h, from, rpc, events, reachable).facts)
    decreases |events|
  {
    if events != [] {
      var first := TakeEvent(me, h, from, rpc, events[0].index, events[0].event, reachable);
      TakeEventFacts(me, h, from, rpc, events[0].index, events[0].event, reachable);
      TakeEventsFacts(me, first.home, from, rpc, events[1..], reachable);
    }
  }

  lemma HomeHandlingFacts(me: Peer, n: Node, from: Peer, m: Message, reachable: set<Peer>)
    requires !m.Deliver? && !m.RunEventAck?
    ensures Handle(me, n, from, m, reachable).node.resident == n.resident
    ensures HomeFacts(Handle(me, n, from, m, reachable).facts)
  {
    match m
    case Outcome(rpc, kind, events) => TakeEventsFacts(me, n.home, from, rpc, events, reachable);
    case RunEvent(rpc, index, event) => TakeEventFacts(me, n.home, from, rpc, index, event, reachable);
    case _ =>
  }
}
