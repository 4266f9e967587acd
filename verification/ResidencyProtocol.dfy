/** The resident attempt protocol of `packages/switchboard/src/residency.ts`, as functions.

    Every peer plays both parts: as a home it asks another peer to run an agent turn and
    collects the turn's events in order; as a resident it runs turns and journals them.
    The functions below say what each handler of the coordinator does to one peer's state
    and which packets it sends.  ResidencyCoordinator.dfy implements them with the classes
    of the source; ResidencyWorld.dfy lets any number of peers run them over a channel that
    loses, repeats and reorders packets, with crashes; the other Residency files prove what holds
    of its runs. */
module ResidencyProtocol {
  import opened Basics

  type Peer = string
  type RpcId = string

  datatype WireEvent =
    | RunStarted(member: string, trigger: nat)
    | RunCompleted(finalText: string)
    | OtherEvent(body: string)

  datatype Member = Member(id: string, harness: string)

  datatype Request = Request(rpc: RpcId, room: string, member: Member, payload: string, trigger: nat)

  // ---------------------------------------------------------------- the durable journal

  datatype AttemptState = Accepted | Started | Completed | Ambiguous

  /** How the last record of an event file ends.  A crash inside an append leaves either a
      partial record, which no reader sees, or a whole record without its newline. */
  datatype Tail = Clean | Partial | Unterminated

  datatype Attempt = Attempt(request: Request, state: AttemptState, count: nat,
                             log: seq<WireEvent>, tail: Tail, acked: int)
  {
    /** What readers see after one more record is appended.  Behind a broken tail the new
        record joins the unfinished line, and the joined line is unreadable. */
    function Append(event: WireEvent): Attempt {
      match tail
      case Clean => this.(log := log + [event])
      case Partial => this.(tail := Clean)
      case Unterminated => this.(log := log[..if |log| == 0 then 0 else |log| - 1], tail := Clean)
    }

    /** What readers see when the process dies inside that append. */
    function AppendCut(event: WireEvent, cut: Tail): Attempt {
      match (tail, cut)
      case (_, Clean) => this
      case (Clean, Partial) => this.(tail := Partial)
      case (Clean, Unterminated) => this.(log := log + [event], tail := Unterminated)
      case (Partial, _) => this
      case (Unterminated, _) => this.(log := log[..if |log| == 0 then 0 else |log| - 1], tail := Partial)
    }
  }

  /** An attempt is identified by the home that asked for it and that home's call id. */
  datatype Key = Key(home: Peer, rpc: RpcId)

  /** The locals of one `runResidentAttempt` call that has entered the adapter. */
  datatype Turn = Turn(number: nat, request: Request, started: bool, completed: bool)

  /** The `onStarted` callback of one turn, as the adapter holds it. */
  datatype Hook = Hook(key: Key, number: nat, request: Request)

  /** `active`, `running` and `ended`, the callbacks of turns whose event stream has ended, are
      lost in a crash; the journal is not. */
  datatype Resident = Resident(adapters: set<string>, journal: map<Key, Attempt>,
                               active: set<Key>, running: map<Key, Turn>, ended: set<Hook>)

  // ---------------------------------------------------------------- the wire

  datatype OutcomeKind = OutcomeCompleted | OutcomeNeverStarted | OutcomeAmbiguous

  datatype Indexed = Indexed(index: nat, event: WireEvent)

  datatype ReconcileRequest = ReconcileRequest(rpc: RpcId, lastIndex: int)

  datatype Message =
    | Deliver(request: Request)
    | Reconcile(attempts: set<ReconcileRequest>)
    | Outcome(rpc: RpcId, kind: OutcomeKind, events: seq<Indexed>)
    | RunEvent(rpc: RpcId, index: nat, event: WireEvent)
    | RunEventAck(rpc: RpcId, upTo: int)
    | CompletionAck(rpc: RpcId, last: int)

  datatype Packet = Packet(src: Peer, dst: Peer, message: Message)

  // ---------------------------------------------------------------- the home

  /** A remote call in flight.  `pushed` is what the home's event stream has received. */
  datatype Pending = Pending(host: Peer, request: Request, start: nat, next: nat,
                             pushed: seq<WireEvent>, buffered: map<nat, WireEvent>, retries: nat)

  datatype Completion = Completion(host: Peer, index: nat)

  datatype Home = Home(limit: nat, pending: map<RpcId, Pending>, done: map<RpcId, Completion>)

  datatype Node = Node(resident: Resident, home: Home)

  // ---------------------------------------------------------------- history

  datatype Ending = EndedComplete | EndedAmbiguous

  /** Things that happened, for stating properties of whole runs. */
  datatype Fact =
    | Begun(host: Peer, key: Key, number: nat)
    | Fired(host: Peer, key: Key, number: nat)
    | Opened(home: Peer, host: Peer, rpc: RpcId, start: nat)
    | Pushed(home: Peer, host: Peer, rpc: RpcId, index: nat, event: WireEvent)
    | Closed(home: Peer, host: Peer, rpc: RpcId, start: nat, pushed: seq<WireEvent>, how: Ending)

  datatype ResidentEffect = ResidentEffect(resident: Resident, sends: set<Packet>, facts: seq<Fact>)

  datatype HomeEffect = HomeEffect(home: Home, sends: set<Packet>, facts: seq<Fact>)

  // ---------------------------------------------------------------- resident handlers

  /** The events after `last`, with their positions in the log. */
  function IndexedAfter(log: seq<WireEvent>, last: int): seq<Indexed> {
    var low := if last < 0 then 0 else if last < |log| then last + 1 else |log|;
    seq(|log| - low, i requires 0 <= i < |log| - low => Indexed(low + i, log[low + i]))
  }

  function OutcomePacket(me: Peer, key: Key, attempt: Attempt, kind: OutcomeKind, last: int): Packet {
    Packet(me, key.home,
           Outcome(key.rpc, kind, if kind.OutcomeCompleted? then IndexedAfter(attempt.log, last) else []))
  }

  /** `ensure` refuses an rpc id that comes back with another room, member or payload. */
  predicate Conflicts(attempt: Attempt, request: Request) {
    || attempt.request.room != request.room
    || attempt.request.member.id != request.member.id
    || attempt.request.payload != request.payload
  }

  function Ensure(journal: map<Key, Attempt>, key: Key, request: Request): map<Key, Attempt> {
    if key in journal then journal else journal[key := Attempt(request, Accepted, 0, [], Clean, -1)]
  }

  function SetState(r: Resident, key: Key, state: AttemptState): Resident
    requires key in r.journal
  {
    r.(journal := r.journal[key := r.journal[key].(state := state)])
  }

  function AcceptDelivery(me: Peer, r: Resident, home: Peer, request: Request): ResidentEffect {
    var key := Key(home, request.rpc);
    if key in r.journal && Conflicts(r.journal[key], request) then
      ResidentEffect(r, {}, [])
    else
      var r1 := r.(journal := Ensure(r.journal, key, request));
      var attempt := r1.journal[key];
      if attempt.state == Completed then
        ResidentEffect(r1, {OutcomePacket(me, key, attempt, OutcomeCompleted, -1)}, [])
      else if attempt.state == Ambiguous || (attempt.state == Started && key !in r1.active) then
        ResidentEffect(r1, {OutcomePacket(me, key, attempt, OutcomeAmbiguous, -1)}, [])
      else if key in r1.active then
        ResidentEffect(r1, {}, [])
      else if attempt.count >= 2 then
        ResidentEffect(SetState(r1, key, Ambiguous),
                       {OutcomePacket(me, key, attempt, OutcomeAmbiguous, -1)}, [])
      else
        BeginTurn(me, r1, key, request)
  }

  /** The synchronous start of a turn: count it, then find the adapter. */
  function BeginTurn(me: Peer, r: Resident, key: Key, request: Request): ResidentEffect
    requires key in r.journal
  {
    var attempt := r.journal[key].(count := r.journal[key].count + 1);
    var r1 := r.(journal := r.journal[key := attempt], active := r.active + {key});
    var begun := [Begun(me, key, attempt.count)];
    if request.member.harness !in r.adapters then
      ResidentEffect(SetState(r1, key, Ambiguous),
                     {OutcomePacket(me, key, attempt, OutcomeAmbiguous, -1)}, begun)
    else
      ResidentEffect(r1.(running := r1.running[key := Turn(attempt.count, request, false, false)]), {}, begun)
  }

  /** Journal an event, then send it under the position it was given. */
  function EmitEvent(me: Peer, r: Resident, key: Key, event: WireEvent): ResidentEffect
    requires key in r.journal
  {
    var attempt := r.journal[key];
    ResidentEffect(r.(journal := r.journal[key := attempt.Append(event)]),
                   {Packet(me, key.home, RunEvent(key.rpc, |attempt.log|, event))}, [])
  }

  function StartedEvent(request: Request): WireEvent {
    RunStarted(request.member.id, request.trigger)
  }

  /** `onStarted`, called while the turn's event stream is still open. */
  function FireTurn(me: Peer, r: Resident, key: Key): ResidentEffect
    requires key in r.running && key in r.journal
  {
    var turn := r.running[key];
    var r1 := SetState(r.(running := r.running[key := turn.(started := true)]), key, Started);
    var emitted := EmitEvent(me, r1, key, StartedEvent(turn.request));
    emitted.(facts := [Fired(me, key, turn.number)])
  }

  /** `onStarted`, called after the turn's event stream has ended: nothing stops it. */
  function FireLate(me: Peer, r: Resident, hook: Hook): ResidentEffect
    requires hook.key in r.journal
  {
    var emitted := EmitEvent(me, SetState(r, hook.key, Started), hook.key, StartedEvent(hook.request));
    emitted.(facts := [Fired(me, hook.key, hook.number)])
  }

  /** `onStarted`, whenever it is called. */
  function FireHook(me: Peer, r: Resident, hook: Hook): ResidentEffect
    requires hook.key in r.journal
  {
    if hook.key in r.running && r.running[hook.key].number == hook.number then FireTurn(me, r, hook.key)
    else FireLate(me, r, hook)
  }

  /** The adapter yields one event. */
  function YieldEvent(me: Peer, r: Resident, key: Key, event: WireEvent): ResidentEffect
    requires key in r.running && key in r.journal
  {
    var turn := r.running[key];
    var r1 := r.(running := r.running[key := turn.(completed := turn.completed || event.RunCompleted?)]);
    EmitEvent(me, r1, key, event)
  }

  function HookOf(key: Key, turn: Turn): Hook {
    Hook(key, turn.number, turn.request)
  }

  /** A turn that never reached the adapter ends. */
  function EndTurn(r: Resident, key: Key): Resident {
    r.(running := r.running - {key})
  }

  /** A turn ends whose callbacks the adapter may still hold. */
  function LeaveTurn(r: Resident, key: Key): Resident
    requires key in r.running
  {
    EndTurn(r, key).(ended := r.ended + {HookOf(key, r.running[key])})
  }

  /** The adapter's event stream ends. */
  function FinishTurn(me: Peer, r: Resident, key: Key): ResidentEffect
    requires key in r.running && key in r.journal
  {
    var turn := r.running[key];
    var attempt := r.journal[key];
    var left := LeaveTurn(r, key);
    if turn.completed then
      ResidentEffect(SetState(left, key, Completed), {}, [])
    else if turn.started || |attempt.log| > 0 || turn.number >= 2 then
      ResidentEffect(SetState(left, key, Ambiguous),
                     {OutcomePacket(me, key, attempt, OutcomeAmbiguous, -1)}, [])
    else
      ResidentEffect(SetState(left, key, Accepted),
                     {OutcomePacket(me, key, attempt, OutcomeNeverStarted, -1)}, [])
  }

  /** The adapter's event stream throws. */
  function ThrowTurn(me: Peer, r: Resident, key: Key): ResidentEffect
    requires key in r.running && key in r.journal
  {
    var attempt := r.journal[key];
    var left := LeaveTurn(r, key);
    if !r.running[key].started && |attempt.log| == 0 && attempt.count < 2 then
      ResidentEffect(SetState(left, key, Accepted),
                     {OutcomePacket(me, key, attempt, OutcomeNeverStarted, -1)}, [])
    else
      ResidentEffect(SetState(left, key, Ambiguous),
                     {OutcomePacket(me, key, attempt, OutcomeAmbiguous, -1)}, [])
  }

  /** The reply to one entry of a reconcile request; silence while a turn is running. */
  function ReconcileReply(me: Peer, r: Resident, home: Peer, asked: ReconcileRequest): set<Packet> {
    var key := Key(home, asked.rpc);
    if key !in r.journal then
      {Packet(me, home, Outcome(asked.rpc, OutcomeNeverStarted, []))}
    else
      var attempt := r.journal[key];
      if attempt.state == Completed then
        {OutcomePacket(me, key, attempt, OutcomeCompleted, asked.lastIndex)}
      else if attempt.state == Accepted && |attempt.log| == 0 then
        {OutcomePacket(me, key, attempt, OutcomeNeverStarted, asked.lastIndex)}
      else if key !in r.active then
        {OutcomePacket(me, key, attempt, OutcomeAmbiguous, asked.lastIndex)}
      else
        {}
  }

  function ReconcileReplies(me: Peer, r: Resident, home: Peer, asked: set<ReconcileRequest>): set<Packet> {
    set q, p | q in asked && p in ReconcileReply(me, r, home, q) :: p
  }

  function Max(a: int, b: int): int { if a < b then b else a }

  function AcknowledgeEvent(me: Peer, r: Resident, home: Peer, rpc: RpcId, index: int): ResidentEffect {
    var key := Key(home, rpc);
    if key !in r.journal then ResidentEffect(r, {}, [])
    else
      var attempt := r.journal[key].(acked := Max(r.journal[key].acked, index));
      var r1 := r.(journal := r.journal[key := attempt]);
      var final := |attempt.log| - 1;
      ResidentEffect(
        r1,
        if attempt.state == Completed && final >= 0 && index >= final
        then {Packet(me, home, CompletionAck(rpc, final))} else {},
        [])
  }

  // ---------------------------------------------------------------- home handlers

  function PendingAt(h: Home, host: Peer): set<RpcId> {
    set rpc | rpc in h.pending && h.pending[rpc].host == host
  }

  function DoneAt(h: Home, host: Peer): set<RpcId> {
    set rpc | rpc in h.done && h.done[rpc].host == host
  }

  /** What `deliver` counts against `maxPendingCompletionAcks`. */
  function Outstanding(h: Home, host: Peer): nat {
    |DoneAt(h, host)| + |PendingAt(h, host)|
  }

  datatype Refusal = Unreachable | TooManyInFlight

  /** Why `deliver` throws, if it does. */
  function DeliverRefusal(h: Home, host: Peer, rpc: RpcId, reachable: set<Peer>): Option<Refusal> {
    if host !in reachable then Some(Unreachable)
    else if rpc in h.pending then None
    else if Outstanding(h, host) >= h.limit then Some(TooManyInFlight)
    else None
  }

  function RequestTurn(me: Peer, h: Home, host: Peer, request: Request, start: nat, reachable: set<Peer>): HomeEffect {
    if DeliverRefusal(h, host, request.rpc, reachable).Some? || request.rpc in h.pending then
      HomeEffect(h, {}, [])
    else
      HomeEffect(
        h.(pending := h.pending[request.rpc := Pending(host, request, start, start, [], map[], 0)]),
        {Packet(me, host, Deliver(request))},
        [Opened(me, host, request.rpc, start)])
  }

  /** Move the next buffered event into the stream. */
  function DrainOne(p: Pending): (q: Pending)
    requires p.next in p.buffered
    ensures |q.buffered| < |p.buffered|
  {
    assert (p.buffered - {p.next}).Keys == p.buffered.Keys - {p.next};
    p.(buffered := p.buffered - {p.next}, next := p.next + 1, pushed := p.pushed + [p.buffered[p.next]])
  }

  /** Move buffered events into the stream as long as they are contiguous.  The second result
      is the position of the last `run.completed` moved. */
  function Drain(p: Pending): (Pending, Option<nat>)
    decreases |p.buffered|
  {
    if p.next in p.buffered then
      var (drained, completed) := Drain(DrainOne(p));
      (drained,
       if completed.Some? then completed
       else if p.buffered[p.next].RunCompleted? then Some(p.next) else None)
    else
      (p, None)
  }

  function AckPackets(me: Peer, host: Peer, rpc: RpcId, index: int): set<Packet> {
    if index < 0 then {} else {Packet(me, host, RunEventAck(rpc, index))}
  }

  /** A terminal acknowledgement, sent only to a reachable host. */
  function CompletionEventAck(me: Peer, rpc: RpcId, c: Completion, reachable: set<Peer>): set<Packet> {
    if c.host in reachable then {Packet(me, c.host, RunEventAck(rpc, c.index))} else {}
  }

  function PushFacts(me: Peer, rpc: RpcId, before: Pending, after: Pending): seq<Fact>
    requires |before.pushed| <= |after.pushed|
  {
    seq(|after.pushed| - |before.pushed|,
        i requires 0 <= i < |after.pushed| - |before.pushed| =>
          Pushed(me, before.host, rpc, before.next + i, after.pushed[|before.pushed| + i]))
  }

  function ClosedFact(me: Peer, rpc: RpcId, p: Pending, how: Ending): Fact {
    Closed(me, p.host, rpc, p.start, p.pushed, how)
  }

  lemma DrainGrows(p: Pending)
    ensures p.pushed <= Drain(p).0.pushed
    ensures Drain(p).0.next - |Drain(p).0.pushed| == p.next - |p.pushed|
    ensures Drain(p).0.host == p.host && Drain(p).0.start == p.start && Drain(p).0.request == p.request
    ensures Drain(p).0.retries == p.retries
    decreases |p.buffered|
  {
    if p.next in p.buffered {
      DrainGrows(DrainOne(p));
    }
  }

  /** An event at or past the next index of its open call. */
  function AdmitEvent(me: Peer, h: Home, from: Peer, rpc: RpcId, index: nat, event: WireEvent,
                      reachable: set<Peer>): HomeEffect
    requires rpc in h.pending
  {
    var p := h.pending[rpc];
    var (drained, completed) := Drain(p.(buffered := p.buffered[index := event]));
    DrainGrows(p.(buffered := p.buffered[index := event]));
    var pushes := PushFacts(me, rpc, p, drained);
    if completed.Some? then
      var c := Completion(from, completed.value);
      HomeEffect(h.(pending := h.pending - {rpc}, done := h.done[rpc := c]),
                 CompletionEventAck(me, rpc, c, reachable),
                 pushes + [ClosedFact(me, rpc, drained, EndedComplete)])
    else
      HomeEffect(h.(pending := h.pending[rpc := drained]),
                 AckPackets(me, from, rpc, drained.next - 1), pushes)
  }

  function TakeEvent(me: Peer, h: Home, from: Peer, rpc: RpcId, index: nat, event: WireEvent,
                     reachable: set<Peer>): HomeEffect {
    if rpc !in h.pending || h.pending[rpc].host != from then
      if rpc in h.done && h.done[rpc].host == from && index <= h.done[rpc].index then
        HomeEffect(h, CompletionEventAck(me, rpc, h.done[rpc], reachable), [])
      else
        HomeEffect(h, {}, [])
    else if index < h.pending[rpc].next then
      HomeEffect(h, AckPackets(me, from, rpc, h.pending[rpc].next - 1), [])
    else
      AdmitEvent(me, h, from, rpc, index, event, reachable)
  }

  function TakeEvents(me: Peer, h: Home, from: Peer, rpc: RpcId, events: seq<Indexed>, reachable: set<Peer>): HomeEffect
    decreases |events|
  {
    if events == [] then HomeEffect(h, {}, [])
    else
      var first := TakeEvent(me, h, from, rpc, events[0].index, events[0].event, reachable);
      var rest := TakeEvents(me, first.home, from, rpc, events[1..], reachable);
      HomeEffect(rest.home, first.sends + rest.sends, first.facts + rest.facts)
  }

  /** The resident has no turn to show: ask once more, or give the call up. */
  function RetryOrFail(me: Peer, h: Home, rpc: RpcId, kind: OutcomeKind): HomeEffect
    requires rpc in h.pending
  {
    var p := h.pending[rpc];
    if kind.OutcomeNeverStarted? && p.retries < 1 then
      HomeEffect(h.(pending := h.pending[rpc := p.(retries := p.retries + 1)]),
                 {Packet(me, p.host, Deliver(p.request))}, [])
    else
      HomeEffect(h.(pending := h.pending - {rpc}), {}, [ClosedFact(me, rpc, p, EndedAmbiguous)])
  }

  function TakeOutcome(me: Peer, h: Home, from: Peer, rpc: RpcId, kind: OutcomeKind, events: seq<Indexed>,
                       reachable: set<Peer>): HomeEffect {
    if rpc !in h.pending || h.pending[rpc].host != from then HomeEffect(h, {}, [])
    else if kind.OutcomeCompleted? then TakeEvents(me, h, from, rpc, events, reachable)
    else RetryOrFail(me, h, rpc, kind)
  }

  function TakeCompletionAck(h: Home, from: Peer, rpc: RpcId, index: int): HomeEffect {
    if rpc in h.done && h.done[rpc].host == from && h.done[rpc].index == index then
      HomeEffect(h.(done := h.done - {rpc}), {}, [])
    else
      HomeEffect(h, {}, [])
  }

  /** The terminal acknowledgements repeated by the timer, or for one host on reconnect. */
  function RetryAcks(me: Peer, h: Home, host: Option<Peer>, reachable: set<Peer>): set<Packet> {
    set rpc, p | rpc in h.done && (host.None? || h.done[rpc].host == host.value)
                 && p in CompletionEventAck(me, rpc, h.done[rpc], reachable) :: p
  }

  function ReconcileRequests(h: Home, host: Peer): set<ReconcileRequest> {
    set rpc | rpc in h.pending && h.pending[rpc].host == host :: ReconcileRequest(rpc, h.pending[rpc].next - 1)
  }

  /** What a home sends when a peer (re)connects. */
  function ReconnectPackets(me: Peer, h: Home, host: Peer, reachable: set<Peer>): set<Packet> {
    RetryAcks(me, h, Some(host), reachable)
    + (if ReconcileRequests(h, host) == {} then {}
       else {Packet(me, host, Reconcile(ReconcileRequests(h, host)))})
  }

  // ---------------------------------------------------------------- one peer's dispatch

  datatype NodeEffect = NodeEffect(node: Node, sends: set<Packet>, facts: seq<Fact>)

  function OfResident(n: Node, e: ResidentEffect): NodeEffect {
    NodeEffect(n.(resident := e.resident), e.sends, e.facts)
  }

  function OfHome(n: Node, e: HomeEffect): NodeEffect {
    NodeEffect(n.(home := e.home), e.sends, e.facts)
  }

  /** `handleEnvelope`. */
  function Handle(me: Peer, n: Node, from: Peer, m: Message, reachable: set<Peer>): NodeEffect {
    match m
    case Deliver(request) => OfResident(n, AcceptDelivery(me, n.resident, from, request))
    case Reconcile(attempts) => NodeEffect(n, ReconcileReplies(me, n.resident, from, attempts), [])
    case Outcome(rpc, kind, events) => OfHome(n, TakeOutcome(me, n.home, from, rpc, kind, events, reachable))
    case RunEvent(rpc, index, event) => OfHome(n, TakeEvent(me, n.home, from, rpc, index, event, reachable))
    case RunEventAck(rpc, index) => OfResident(n, AcknowledgeEvent(me, n.resident, from, rpc, index))
    case CompletionAck(rpc, index) => OfHome(n, TakeCompletionAck(n.home, from, rpc, index))
  }
}
