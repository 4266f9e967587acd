/** Adapters that report a turn's start before its first event keep every append behind a whole
    record, whatever else they do: what the channel needs of a run then follows from what adapters
    promise. */
module ResidencyPromise {
  import opened ResidencyProtocol
  import opened ResidencyWorld
  import opened ResidencyFrame

  /** Nothing was appended before a start; what may still be appended to ends cleanly. */
  predicate EntryTidy(r: Resident, key: Key)
    requires key in r.journal
  {
    var a := r.journal[key];
    && (a.state == Accepted ==> a.log == [] && a.tail == Clean)
    && (key in r.running ==> a.tail == Clean && (r.running[key].started ==> a.state != Accepted))
  }

  predicate IsTidy(r: Resident) {
    && (forall key | key in r.running :: key in r.journal)
    && (forall key | key in r.journal :: EntryTidy(r, key))
    && (forall hook | hook in r.ended :: EndsCleanly(r, hook.key))
  }

  predicate TidyWorld(w: World) {
    forall n | n in w.nodes :: IsTidy(w.nodes[n].resident)
  }

  /** What a step leaves of the entry it is about. */
  predicate TidyAt(r: Resident, key: Key) {
    && (key in r.running ==> key in r.journal)
    && (key in r.journal ==> EntryTidy(r, key))
    && (forall hook | hook in r.ended && hook.key == key :: EndsCleanly(r, key))
  }

  /** An entry that ends cleanly and is past accepted is tidy. */
  lemma CleanIsTidy(r: Resident, key: Key)
    requires EndsCleanly(r, key) && r.journal[key].state != Accepted
    ensures TidyAt(r, key)
  {
  }

  lemma AcceptIsTidy(me: Peer, r: Resident, home: Peer, request: Request)
    requires IsTidy(r)
    ensures TidyAt(AcceptDelivery(me, r, home, request).resident, Key(home, request.rpc))
  {
    var key := Key(home, request.rpc);
    var r' := AcceptDelivery(me, r, home, request).resident;
    assert key in r.journal ==> EntryTidy(r, key);
    assert r'.ended == r.ended;
    forall hook | hook in r'.ended && hook.key == key ensures EndsCleanly(r', key) {
      assert EndsCleanly(r, hook.key);
    }
  }

  lemma FireIsTidy(me: Peer, r: Resident, key: Key)
    requires IsTidy(r) && Running(r, key)
    ensures TidyAt(FireTurn(me, r, key).resident, key)
  {
    assert EntryTidy(r, key);
    CleanIsTidy(FireTurn(me, r, key).resident, key);
  }

  lemma LateFireIsTidy(me: Peer, r: Resident, hook: Hook)
    requires IsTidy(r) && IsHeld(r, hook)
    ensures TidyAt(FireLate(me, r, hook).resident, hook.key)
  {
    assert EndsCleanly(r, hook.key);
    CleanIsTidy(FireLate(me, r, hook).resident, hook.key);
  }

  lemma YieldIsTidy(me: Peer, r: Resident, key: Key, event: WireEvent)
    requires IsTidy(r) && Running(r, key) && HasStarted(r, key)
    ensures TidyAt(YieldEvent(me, r, key, event).resident, key)
  {
    assert EntryTidy(r, key);
    CleanIsTidy(YieldEvent(me, r, key, event).resident, key);
  }

  /** A turn that ends leaves its entry as it was, finished, or accepted with nothing in it. */
  lemma EndIsTidy(r: Resident, r': Resident, key: Key, state: AttemptState)
    requires IsTidy(r) && Running(r, key)
    requires r'.journal == r.journal[key := r.journal[key].(state := state)] && key !in r'.running
    requires state == Accepted ==> r.journal[key].log == []
    ensures TidyAt(r', key)
  {
    assert EntryTidy(r, key);
  }

  lemma FinishIsTidy(me: Peer, r: Resident, key: Key)
    requires IsTidy(r) && Running(r, key)
    ensures TidyAt(FinishTurn(me, r, key).resident, key) && TidyAt(ThrowTurn(me, r, key).resident, key)
    ensures TidyAt(EndTurn(r, key), key)
  {
    var finished, thrown := FinishTurn(me, r, key).resident, ThrowTurn(me, r, key).resident;
    EndIsTidy(r, finished, key, finished.journal[key].state);
    EndIsTidy(r, thrown, key, thrown.journal[key].state);
    assert EntryTidy(r, key);
    assert r.journal == r.journal[key := r.journal[key].(state := r.journal[key].state)];
    EndIsTidy(r, EndTurn(r, key), key, r.journal[key].state);
  }

  lemma SettleIsTidy(r: Resident, key: Key)
    requires IsTidy(r)
    ensures TidyAt(r, key) && TidyAt(r.(active := r.active - {key}), key)
  {
    assert key in r.journal ==> EntryTidy(r, key);
    forall hook | hook in r.ended && hook.key == key
      ensures EndsCleanly(r, key) && EndsCleanly(r.(active := r.active - {key}), key)
    {
      assert EndsCleanly(r, hook.key);
    }
  }

  lemma AckIsTidy(me: Peer, r: Resident, home: Peer, rpc: RpcId, upTo: int)
    requires IsTidy(r)
    ensures TidyAt(AcknowledgeEvent(me, r, home, rpc, upTo).resident, Key(home, rpc))
  {
    var key, r' := Key(home, rpc), AcknowledgeEvent(me, r, home, rpc, upTo).resident;
    assert key in r.journal ==> EntryTidy(r, key);
    forall hook | hook in r'.ended && hook.key == key ensures EndsCleanly(r', key) {
      assert EndsCleanly(r, hook.key);
    }
  }

  /** A crash leaves no turns and no callbacks, so only accepted entries must be as they were. */
  lemma CrashIsTidy(me: Peer, r: Resident, midway: Midway)
    requires IsTidy(r) && MidwayPossible(r, midway) && StartsFirst(r, Crash(me, midway))
    ensures TidyAt(Remains(me, r, midway).resident, MidwayKey(midway))
  {
    var key := MidwayKey(midway);
    assert key in r.journal ==> EntryTidy(r, key);
  }

  lemma HandleIsTidy(me: Peer, n: Node, p: Packet, reachable: set<Peer>)
    requires IsTidy(n.resident)
    ensures TidyAt(Handle(me, n, p.src, p.message, reachable).node.resident, StepKey(Receive(p, reachable)))
  {
    match p.message {
      case Deliver(request) => AcceptIsTidy(me, n.resident, p.src, request);
      case RunEventAck(rpc, upTo) => AckIsTidy(me, n.resident, p.src, rpc, upTo);
      case _ =>
        HomeHandlingFacts(me, n, p.src, p.message, reachable);
        SettleIsTidy(n.resident, StepKey(Receive(p, reachable)));
    }
  }

  lemma ActIsTidy(w: World, s: Step)
    requires TidyWorld(w) && Possible(w, s) && StartsFirst(w.nodes[Actor(s)].resident, s)
    ensures TidyAt(Act(w, s).node.resident, StepKey(s))
  {
    var me := Actor(s);
    var r := w.nodes[me].resident;
    assert IsTidy(r);
    match s
    case Receive(p, reachable) => HandleIsTidy(me, w.nodes[me], p, reachable);
    case Fire(_, key) => FireIsTidy(me, r, key);
    case LateFire(_, hook) => LateFireIsTidy(me, r, hook);
    case Yield(_, key, event) => YieldIsTidy(me, r, key, event);
    case Finish(_, key) => FinishIsTidy(me, r, key);
    case Throw(_, key) => FinishIsTidy(me, r, key);
    case SpawnFails(_, key) => FinishIsTidy(me, r, key);
    case Crash(_, midway) => CrashIsTidy(me, r, midway);
    case _ => SettleIsTidy(r, StepKey(s));
  }

  /** Entries and callbacks that a step is not about stay as they were. */
  lemma OthersStayTidy(r: Resident, r': Resident, key: Key)
    requires IsTidy(r) && TouchesOnly(r, r', key) && TidyAt(r', key)
    ensures IsTidy(r')
  {
    forall k | k in r'.journal ensures EntryTidy(r', k) {
      if k != key { assert EntryTidy(r, k); }
    }
    forall hook | hook in r'.ended ensures EndsCleanly(r', hook.key) {
      if hook.key != key { assert EndsCleanly(r, hook.key); }
    }
  }

  lemma PromiseMeansClean(r: Resident, s: Step)
    requires IsTidy(r) && StartsFirst(r, s)
    requires s.Fire? || s.Yield? ==> Running(r, s.key)
    requires s.LateFire? ==> IsHeld(r, s.hook)
    requires s.Crash? ==> MidwayPossible(r, s.midway)
    ensures AppendsCleanly(r, s)
  {
    var key := StepKey(s);
    assert key in r.journal ==> EntryTidy(r, key);
    if LateHook(s).Some? { assert EndsCleanly(r, LateHook(s).value.key); }
  }

  /** If adapters report a start before the first event, every append is clean. */
  lemma PromisedStepIsClean(w: World, s: Step)
    requires TidyWorld(w) && Possible(w, s) && StartsFirst(w.nodes[Actor(s)].resident, s)
    ensures AppendsCleanly(w.nodes[Actor(s)].resident, s) && TidyWorld(Apply(w, s))
  {
    var r := w.nodes[Actor(s)].resident;
    PromiseMeansClean(r, s);
    ActTouchesOnly(w, s);
    ActIsTidy(w, s);
    OthersStayTidy(r, Act(w, s).node.resident, StepKey(s));
  }
}
