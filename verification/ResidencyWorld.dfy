/** Any number of peers running the resident attempt protocol.

    The channel is the set of every packet ever sent: delivering any packet of that set any
    number of times, in any order, or never, is loss, repetition and reordering.  A peer may
    crash at any moment, also inside a journal append, and then keeps only its journal.

    Adapters may do anything with what they are given: report a turn's start late, twice, or
    never, also after the turn has ended, and yield any events.  `Rules` names what a run may be
    known to keep to, so that it is visible which results need what. */
module ResidencyWorld {
  import opened Basics
  import opened ResidencyProtocol

  datatype World = World(nodes: map<Peer, Node>, net: set<Packet>, facts: seq<Fact>)

  /** What a run keeps to.  `startsFirst`: a turn's start is reported before its first event.
      `lastStarts`: a start reported after the turn's stream has ended is that of the last turn
      begun.  `openStarts`: such a start is that of an attempt that is not finished.
      `cleanAppends`: no event is appended behind an unfinished record, and no append that is cut
      joins a record that readers see. */
  datatype Rules = Rules(startsFirst: bool, lastStarts: bool, openStarts: bool, cleanAppends: bool)

  /** Where a crash interrupts a peer, besides between two handlers. */
  datatype Midway =
    | Nowhere
    | AfterInsert(home: Peer, request: Request)
    | WhileFiring(key: Key, cut: Tail)
    | WhileFiringLate(hook: Hook, cut: Tail)
    | WhileYielding(key: Key, event: WireEvent, cut: Tail)

  datatype Step =
    | Receive(packet: Packet, reachable: set<Peer>)
    | RequestRun(me: Peer, host: Peer, request: Request, start: nat, reachable: set<Peer>)
    | PeerConnected(me: Peer, peer: Peer, reachable: set<Peer>)
    | RetryTimer(me: Peer, reachable: set<Peer>)
    | Fire(me: Peer, key: Key)
    | LateFire(me: Peer, hook: Hook)
    | Yield(me: Peer, key: Key, event: WireEvent)
    | Finish(me: Peer, key: Key)
    | Throw(me: Peer, key: Key)
    | SpawnFails(me: Peer, key: Key)
    | Settle(me: Peer, key: Key)
    | Crash(me: Peer, midway: Midway)

  function Actor(s: Step): Peer {
    if s.Receive? then s.packet.dst else s.me
  }

  predicate Running(r: Resident, key: Key) {
    key in r.running && key in r.journal
  }

  predicate IsHeld(r: Resident, hook: Hook) {
    hook in r.ended && hook.key in r.journal
  }

  predicate MidwayPossible(r: Resident, midway: Midway) {
    match midway
    case Nowhere => true
    case AfterInsert(home, request) => Key(home, request.rpc) !in r.journal
    case WhileFiring(key, _) => Running(r, key)
    case WhileFiringLate(hook, _) => IsHeld(r, hook)
    case WhileYielding(key, _, _) => Running(r, key)
  }

  /** The steps the program can take. */
  predicate Possible(w: World, s: Step) {
    Actor(s) in w.nodes &&
    var r := w.nodes[Actor(s)].resident;
    match s
    case Receive(packet, _) => packet in w.net
    case Fire(_, key) => Running(r, key)
    case LateFire(_, hook) => IsHeld(r, hook)
    case Yield(_, key, _) => Running(r, key)
    case Finish(_, key) => Running(r, key)
    case Throw(_, key) => Running(r, key)
    case SpawnFails(_, key) => Running(r, key) && !r.running[key].started
    case Settle(_, key) => key in r.active && key !in r.running
    case Crash(_, midway) => MidwayPossible(r, midway)
    case _ => true
  }

  // ---------------------------------------------------------------- what a run may keep to

  predicate HasStarted(r: Resident, key: Key) {
    key in r.running && r.running[key].started
  }

  predicate StartsFirst(r: Resident, s: Step) {
    match s
    case Yield(_, key, _) => HasStarted(r, key)
    case Crash(_, WhileYielding(key, _, _)) => HasStarted(r, key)
    case _ => true
  }

  /** The callback of an ended turn that the step calls. */
  function LateHook(s: Step): Option<Hook> {
    match s
    case LateFire(_, hook) => Some(hook)
    case Crash(_, WhileFiringLate(hook, _)) => Some(hook)
    case _ => None
  }

  predicate IsLastTurn(r: Resident, hook: Hook) {
    hook.key in r.journal && r.journal[hook.key].count == hook.number
  }

  predicate IsOpen(r: Resident, key: Key) {
    key in r.journal && (r.journal[key].state.Accepted? || r.journal[key].state.Started?)
  }

  predicate StartsLast(r: Resident, s: Step) {
    LateHook(s).Some? ==> IsLastTurn(r, LateHook(s).value)
  }

  predicate StartsOpen(r: Resident, s: Step) {
    LateHook(s).Some? ==> IsOpen(r, LateHook(s).value.key)
  }

  predicate EndsCleanly(r: Resident, key: Key) {
    key in r.journal && r.journal[key].tail == Clean
  }

  /** An append that is cut joins no record that readers see. */
  predicate CutLosesNothing(r: Resident, key: Key, cut: Tail) {
    key in r.journal && (cut == Clean || r.journal[key].tail != Unterminated || r.journal[key].log == [])
  }

  predicate AppendsCleanly(r: Resident, s: Step) {
    match s
    case Fire(_, key) => EndsCleanly(r, key)
    case LateFire(_, hook) => EndsCleanly(r, hook.key)
    case Yield(_, key, _) => EndsCleanly(r, key)
    case Crash(_, WhileFiring(key, cut)) => CutLosesNothing(r, key, cut)
    case Crash(_, WhileFiringLate(hook, cut)) => CutLosesNothing(r, hook.key, cut)
    case Crash(_, WhileYielding(key, _, cut)) => CutLosesNothing(r, key, cut)
    case _ => true
  }

  predicate Allowed(w: World, s: Step, rules: Rules) {
    Actor(s) in w.nodes &&
    var r := w.nodes[Actor(s)].resident;
    && (rules.startsFirst ==> StartsFirst(r, s))
    && (rules.lastStarts ==> StartsLast(r, s))
    && (rules.openStarts ==> StartsOpen(r, s))
    && (rules.cleanAppends ==> AppendsCleanly(r, s))
  }

  // ---------------------------------------------------------------- steps and runs

  /** What survives a crash at the given point. */
  function Remains(me: Peer, r: Resident, midway: Midway): ResidentEffect
    requires MidwayPossible(r, midway)
  {
    var dead := r.(active := {}, running := map[], ended := {});
    match midway
    case Nowhere => ResidentEffect(dead, {}, [])
    case AfterInsert(home, request) =>
      ResidentEffect(dead.(journal := Ensure(r.journal, Key(home, request.rpc), request)), {}, [])
    case WhileFiring(key, cut) =>
      var attempt := r.journal[key].(state := Started).AppendCut(StartedEvent(r.running[key].request), cut);
      ResidentEffect(dead.(journal := r.journal[key := attempt]), {}, [Fired(me, key, r.running[key].number)])
    case WhileFiringLate(hook, cut) =>
      var attempt := r.journal[hook.key].(state := Started).AppendCut(StartedEvent(hook.request), cut);
      ResidentEffect(dead.(journal := r.journal[hook.key := attempt]), {}, [Fired(me, hook.key, hook.number)])
    case WhileYielding(key, event, cut) =>
      ResidentEffect(dead.(journal := r.journal[key := r.journal[key].AppendCut(event, cut)]), {}, [])
  }

  function Act(w: World, s: Step): NodeEffect
    requires Possible(w, s)
  {
    var n := w.nodes[Actor(s)];
    var r := n.resident;
    match s
    case Receive(p, reachable) => Handle(p.dst, n, p.src, p.message, reachable)
    case RequestRun(me, host, request, start, reachable) =>
      OfHome(n, RequestTurn(me, n.home, host, request, start, reachable))
    case PeerConnected(me, peer, reachable) =>
      NodeEffect(n, ReconnectPackets(me, n.home, peer, reachable), [])
    case RetryTimer(me, reachable) => NodeEffect(n, RetryAcks(me, n.home, None, reachable), [])
    case Fire(me, key) => OfResident(n, FireTurn(me, r, key))
    case LateFire(me, hook) => OfResident(n, FireLate(me, r, hook))
    case Yield(me, key, event) => OfResident(n, YieldEvent(me, r, key, event))
    case Finish(me, key) => OfResident(n, FinishTurn(me, r, key))
    case Throw(me, key) => OfResident(n, ThrowTurn(me, r, key))
    case SpawnFails(me, key) => OfResident(n, ResidentEffect(EndTurn(r, key), {}, []))
    case Settle(me, key) => OfResident(n, ResidentEffect(r.(active := r.active - {key}), {}, []))
    case Crash(me, midway) =>
      var remains := Remains(me, r, midway);
      NodeEffect(Node(remains.resident, n.home.(pending := map[], done := map[])), {}, remains.facts)
  }

  function Commit(w: World, me: Peer, e: NodeEffect): World {
    World(w.nodes[me := e.node], w.net + e.sends, w.facts + e.facts)
  }

  function Apply(w: World, s: Step): World
    requires Possible(w, s)
  {
    Commit(w, Actor(s), Act(w, s))
  }

  ghost predicate Next(w: World, w': World, rules: Rules) {
    exists s :: Possible(w, s) && Allowed(w, s, rules) && w' == Apply(w, s)
  }

  ghost predicate Initial(w: World) {
    && w.net == {} && w.facts == []
    && (forall n | n in w.nodes ::
          var node := w.nodes[n];
          && node.resident.journal == map[] && node.resident.active == {} && node.resident.running == map[]
          && node.resident.ended == {}
          && node.home.pending == map[] && node.home.done == map[])
  }

  ghost predicate Trace(ws: seq<World>, rules: Rules) {
    && |ws| > 0 && Initial(ws[0])
    && (forall i | 0 <= i < |ws| - 1 :: Next(ws[i], ws[i + 1], rules))
  }

  /** A run with its steps. */
  ghost predicate IsRun(ws: seq<World>, ss: seq<Step>) {
    && |ws| == |ss| + 1 && Initial(ws[0])
    && (forall i | 0 <= i < |ss| :: Possible(ws[i], ss[i]) && ws[i + 1] == Apply(ws[i], ss[i]))
  }

  lemma LateStartActs(w: World, s: Step, hook: Hook)
    requires Possible(w, s) && LateHook(s) == Some(hook)
    ensures hook.key in w.nodes[Actor(s)].resident.journal
    ensures Apply(w, s).facts == w.facts + [Fired(Actor(s), hook.key, hook.number)]
    ensures var journal := w.nodes[Actor(s)].resident.journal;
            var journal' := Apply(w, s).nodes[Actor(s)].resident.journal;
            hook.key in journal' && journal'[hook.key].state == Started && journal'[hook.key].count == journal[hook.key].count
  {
  }
}
