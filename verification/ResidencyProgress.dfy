/** Calls that go forward: with nothing lost, a call takes its turn from the request to the last
    confirmation, whatever the adapter yields and however the turn ends. */
module ResidencyProgress {
  import opened Basics
  import opened ResidencyProtocol
  import opened ResidencyWorld

  /** The steps, taken one after another, lead there. */
  ghost predicate Chain<W(!new), S>(takes: (W, S, W) -> bool, w: W, ss: seq<S>, w': W)
    decreases |ss|
  {
    if ss == [] then w' == w else exists m :: Chain(takes, w, Front(ss), m) && takes(m, Last(ss), w')
  }

  function Front<T>(s: seq<T>): seq<T>
    requires s != []
  {
    s[..|s| - 1]
  }

  function Last<T>(s: seq<T>): T
    requires s != []
  {
    s[|s| - 1]
  }

  lemma ChainOn<W(!new), S>(takes: (W, S, W) -> bool, w: W, ss: seq<S>, m: W, s: S, w': W)
    requires Chain(takes, w, ss, m) && takes(m, s, w')
    ensures Chain(takes, w, ss + [s], w')
  {
    assert Front(ss + [s]) == ss;
  }

  lemma ChainTwo<W(!new), S>(takes: (W, S, W) -> bool, w: W, ss: seq<S>, m: W, steps: seq<S>, m1: W, w': W)
    requires |steps| == 2 && Chain(takes, w, ss, m) && takes(m, steps[0], m1) && takes(m1, steps[1], w')
    ensures Chain(takes, w, ss + steps, w')
  {
    ChainOn(takes, w, ss, m, steps[0], m1);
    ChainOn(takes, w, ss + [steps[0]], m1, steps[1], w');
    assert ss + [steps[0]] + [steps[1]] == ss + steps;
  }

  lemma ChainThree<W(!new), S>(takes: (W, S, W) -> bool, w: W, ss: seq<S>, m: W, steps: seq<S>, m1: W, m2: W, w': W)
    requires |steps| == 3 && Chain(takes, w, ss, m)
    requires takes(m, steps[0], m1) && takes(m1, steps[1], m2) && takes(m2, steps[2], w')
    ensures Chain(takes, w, ss + steps, w')
  {
    ChainTwo(takes, w, ss, m, steps[..2], m1, m2);
    ChainOn(takes, w, ss + steps[..2], m2, steps[2], w');
    assert ss + steps[..2] + [steps[2]] == ss + steps;
  }

  lemma ChainFour<W(!new), S>(takes: (W, S, W) -> bool, w: W, ss: seq<S>, m: W, steps: seq<S>, m1: W, m2: W, m3: W, w': W)
    requires |steps| == 4 && Chain(takes, w, ss, m) && takes(m, steps[0], m1)
    requires takes(m1, steps[1], m2) && takes(m2, steps[2], m3) && takes(m3, steps[3], w')
    ensures Chain(takes, w, ss + steps, w')
  {
    ChainThree(takes, w, ss, m, steps[..3], m1, m2, m3);
    ChainOn(takes, w, ss + steps[..3], m3, steps[3], w');
    assert ss + steps[..3] + [steps[3]] == ss + steps;
  }

  predicate Takes(w: World, s: Step, w': World) {
    Possible(w, s) && w' == Apply(w, s)
  }

  /** These steps can be taken one after another, and lead there. */
  ghost predicate Leads(w: World, ss: seq<Step>, w': World) {
    Chain(Takes, w, ss, w')
  }

  // ---------------------------------------------------------------- where both sides stand

  /** The host runs this turn of this attempt. */
  predicate Serves(w: World, host: Peer, key: Key, turn: Turn, attempt: Attempt) {
    host in w.nodes &&
    var r := w.nodes[host].resident;
    key in r.running && r.running[key] == turn && key in r.journal && r.journal[key] == attempt
  }

  /** The host has the attempt and runs no turn of it. */
  predicate Rests(w: World, host: Peer, key: Key, attempt: Attempt) {
    host in w.nodes &&
    var r := w.nodes[host].resident;
    key !in r.running && key in r.journal && r.journal[key] == attempt
  }

  /** The home has this call open. */
  predicate Calls(w: World, me: Peer, rpc: RpcId, p: Pending) {
    me in w.nodes && rpc in w.nodes[me].home.pending && w.nodes[me].home.pending[rpc] == p
  }

  predicate HomesKept(w: World, w': World) {
    forall n | n in w.nodes :: n in w'.nodes && w'.nodes[n].home == w.nodes[n].home
  }

  predicate ResidentsKept(w: World, w': World) {
    forall n | n in w.nodes :: n in w'.nodes && w'.nodes[n].resident == w.nodes[n].resident
  }

  // ---------------------------------------------------------------- one step

  lemma RequestOpens(w: World, me: Peer, host: Peer, request: Request, reachable: set<Peer>)
    requires me in w.nodes && request.rpc !in w.nodes[me].home.pending
    requires DeliverRefusal(w.nodes[me].home, host, request.rpc, reachable).None?
    ensures var s := RequestRun(me, host, request, 0, reachable);
            Possible(w, s) &&
            var w' := Apply(w, s);
            && ResidentsKept(w, w') && Calls(w', me, request.rpc, Pending(host, request, 0, 0, [], map[], 0))
            && Packet(me, host, Deliver(request)) in w'.net
  {
  }

  /** A delivery of an attempt that is not known, or was accepted and rests, begins its next turn. */
  lemma DeliveryBegins(w: World, me: Peer, host: Peer, request: Request, count: nat, reachable: set<Peer>)
    requires Packet(me, host, Deliver(request)) in w.net && host in w.nodes && count < 2
    requires var r := w.nodes[host].resident;
             var key := Key(me, request.rpc);
             && key !in r.active && request.member.harness in r.adapters
             && (if count == 0 then key !in r.journal
                 else key in r.journal && r.journal[key] == Attempt(request, Accepted, count, [], Clean, -1))
    ensures var s := Receive(Packet(me, host, Deliver(request)), reachable);
            Possible(w, s) &&
            var w' := Apply(w, s);
            && HomesKept(w, w')
            && Serves(w', host, Key(me, request.rpc), Turn(count + 1, request, false, false),
                      Attempt(request, Accepted, count + 1, [], Clean, -1))
            && Begun(host, Key(me, request.rpc), count + 1) in w'.facts && w.facts <= w'.facts
            && Key(me, request.rpc) in w'.nodes[host].resident.active
            && w'.nodes[host].resident.adapters == w.nodes[host].resident.adapters
  {
  }

  lemma FireTravels(w: World, host: Peer, key: Key, turn: Turn, attempt: Attempt)
    requires Serves(w, host, key, turn, attempt) && attempt.tail == Clean
    ensures var s := Fire(host, key);
            Possible(w, s) &&
            var w' := Apply(w, s);
            && HomesKept(w, w')
            && Serves(w', host, key, turn.(started := true),
                      attempt.(state := Started, log := attempt.log + [StartedEvent(turn.request)]))
            && Packet(host, key.home, RunEvent(key.rpc, |attempt.log|, StartedEvent(turn.request))) in w'.net
  {
  }

  lemma YieldTravels(w: World, host: Peer, key: Key, turn: Turn, attempt: Attempt, event: WireEvent)
    requires Serves(w, host, key, turn, attempt) && attempt.tail == Clean
    ensures var s := Yield(host, key, event);
            Possible(w, s) &&
            var w' := Apply(w, s);
            && HomesKept(w, w')
            && Serves(w', host, key, turn.(completed := turn.completed || event.RunCompleted?),
                      attempt.(log := attempt.log + [event]))
            && Packet(host, key.home, RunEvent(key.rpc, |attempt.log|, event)) in w'.net
  {
  }

  lemma DrainsOne(p: Pending, event: WireEvent)
    requires p.buffered == map[]
    ensures Drain(p.(buffered := p.buffered[p.next := event]))
         == (p.(next := p.next + 1, pushed := p.pushed + [event]), if event.RunCompleted? then Some(p.next) else None)
  {
    var filled := p.(buffered := p.buffered[p.next := event]);
    assert filled.buffered - {p.next} == map[];
    assert DrainOne(filled) == p.(next := p.next + 1, pushed := p.pushed + [event]);
  }

  lemma EventArrives(w: World, me: Peer, host: Peer, rpc: RpcId, p: Pending, event: WireEvent, reachable: set<Peer>)
    requires Calls(w, me, rpc, p) && p.host == host && p.buffered == map[] && !event.RunCompleted?
    requires Packet(host, me, RunEvent(rpc, p.next, event)) in w.net
    ensures var s := Receive(Packet(host, me, RunEvent(rpc, p.next, event)), reachable);
            Possible(w, s) &&
            var w' := Apply(w, s);
            ResidentsKept(w, w') && Calls(w', me, rpc, p.(next := p.next + 1, pushed := p.pushed + [event]))
  {
    DrainsOne(p, event);
  }

  lemma CompletionArrives(w: World, me: Peer, host: Peer, rpc: RpcId, p: Pending, event: WireEvent, reachable: set<Peer>)
    requires Calls(w, me, rpc, p) && p.host == host && p.buffered == map[] && event.RunCompleted? && host in reachable
    requires Packet(host, me, RunEvent(rpc, p.next, event)) in w.net
    ensures var s := Receive(Packet(host, me, RunEvent(rpc, p.next, event)), reachable);
            Possible(w, s) &&
            var w' := Apply(w, s);
            && ResidentsKept(w, w') && me in w'.nodes && rpc !in w'.nodes[me].home.pending
            && rpc in w'.nodes[me].home.done && w'.nodes[me].home.done[rpc] == Completion(host, p.next)
            && Closed(me, host, rpc, p.start, p.pushed + [event], EndedComplete) in w'.facts
            && Packet(me, host, RunEventAck(rpc, p.next)) in w'.net
  {
    DrainsOne(p, event);
    var n := w.nodes[me];
    var e := AdmitEvent(me, n.home, host, rpc, p.next, event, reachable);
    assert Closed(me, host, rpc, p.start, p.pushed + [event], EndedComplete) == e.facts[|e.facts| - 1];
  }

  // ---------------------------------------------------------------- a turn goes on

  function TurnSteps(me: Peer, host: Peer, rpc: RpcId, index: nat, event: WireEvent, reachable: set<Peer>): seq<Step> {
    [Yield(host, Key(me, rpc), event), Receive(Packet(host, me, RunEvent(rpc, index, event)), reachable)]
  }

  /** Each event is yielded, and taken by the home, in turn. */
  function EventSteps(me: Peer, host: Peer, rpc: RpcId, index: nat, events: seq<WireEvent>, reachable: set<Peer>): seq<Step> {
    if events == [] then []
    else EventSteps(me, host, rpc, index, Front(events), reachable)
         + TurnSteps(me, host, rpc, index + |events| - 1, Last(events), reachable)
  }

  predicate NoCompletion(events: seq<WireEvent>) {
    forall e | e in events :: !e.RunCompleted?
  }

  /** The turn runs and its events arrive: the home's stream is the log. */
  predicate InStep(w: World, me: Peer, host: Peer, rpc: RpcId, turn: Turn, attempt: Attempt, p: Pending) {
    && Serves(w, host, Key(me, rpc), turn, attempt) && attempt.tail == Clean
    && Calls(w, me, rpc, p) && p.host == host && p.buffered == map[] && p.next == |attempt.log|
  }

  function Further(p: Pending, events: seq<WireEvent>): Pending {
    p.(next := p.next + |events|, pushed := p.pushed + events)
  }

  lemma OneMoreTravels(w: World, me: Peer, host: Peer, rpc: RpcId, turn: Turn, attempt: Attempt, p: Pending,
                       event: WireEvent, reachable: set<Peer>) returns (mid: World, w': World)
    requires InStep(w, me, host, rpc, turn, attempt, p) && !event.RunCompleted?
    ensures Takes(w, Yield(host, Key(me, rpc), event), mid)
    ensures Takes(mid, Receive(Packet(host, me, RunEvent(rpc, p.next, event)), reachable), w')
    ensures InStep(w', me, host, rpc, turn, attempt.(log := attempt.log + [event]), Further(p, [event]))
  {
    YieldTravels(w, host, Key(me, rpc), turn, attempt, event);
    mid := Apply(w, Yield(host, Key(me, rpc), event));
    EventArrives(mid, me, host, rpc, p, event, reachable);
    w' := Apply(mid, Receive(Packet(host, me, RunEvent(rpc, p.next, event)), reachable));
  }

  /** The steps lead to a world in which both sides are in step. */
  ghost predicate Reaches(w0: World, ss: seq<Step>, w: World, me: Peer, host: Peer, rpc: RpcId, turn: Turn,
                          attempt: Attempt, p: Pending) {
    Leads(w0, ss, w) && InStep(w, me, host, rpc, turn, attempt, p)
  }

  function Logs(attempt: Attempt, events: seq<WireEvent>): Attempt {
    attempt.(log := attempt.log + events)
  }

  lemma {:induction false} EventsTravel(w0: World, before: seq<Step>, w: World, me: Peer, host: Peer, rpc: RpcId, turn: Turn,
                                        attempt: Attempt, p: Pending, events: seq<WireEvent>, reachable: set<Peer>)
    returns (w': World)
    requires Reaches(w0, before, w, me, host, rpc, turn, attempt, p) && NoCompletion(events)
    ensures Reaches(w0, before + EventSteps(me, host, rpc, p.next, events, reachable), w', me, host, rpc, turn,
                    Logs(attempt, events), Further(p, events))
    decreases |events|
  {
    if events == [] {
      w' := w;
      NoneTravels(before, attempt, p);
    } else {
      var m := EventsTravel(w0, before, w, me, host, rpc, turn, attempt, p, Front(events), reachable);
      var steps := EventSteps(me, host, rpc, p.next, Front(events), reachable);
      w' := OneMoreReaches(w0, before + steps, m, me, host, rpc, turn, Logs(attempt, Front(events)),
                           Further(p, Front(events)), Last(events), reachable);
      OneMoreEvent(attempt, p, events);
      OneMoreTurnStep(before, me, host, rpc, p, events, reachable);
    }
  }

  lemma OneMoreReaches(w0: World, ss: seq<Step>, w: World, me: Peer, host: Peer, rpc: RpcId, turn: Turn,
                       attempt: Attempt, p: Pending, event: WireEvent, reachable: set<Peer>) returns (w': World)
    requires Reaches(w0, ss, w, me, host, rpc, turn, attempt, p) && !event.RunCompleted?
    ensures Reaches(w0, ss + TurnSteps(me, host, rpc, p.next, event, reachable), w', me, host, rpc, turn,
                    Logs(attempt, [event]), Further(p, [event]))
  {
    var m;
    m, w' := OneMoreTravels(w, me, host, rpc, turn, attempt, p, event, reachable);
    ChainTwo(Takes, w0, ss, w, TurnSteps(me, host, rpc, p.next, event, reachable), m, w');
  }

  lemma OneMoreTurnStep(before: seq<Step>, me: Peer, host: Peer, rpc: RpcId, p: Pending, events: seq<WireEvent>,
                        reachable: set<Peer>)
    requires events != []
    ensures before + EventSteps(me, host, rpc, p.next, Front(events), reachable)
              + TurnSteps(me, host, rpc, Further(p, Front(events)).next, Last(events), reachable)
         == before + EventSteps(me, host, rpc, p.next, events, reachable)
  {
    var steps := EventSteps(me, host, rpc, p.next, Front(events), reachable);
    var more := TurnSteps(me, host, rpc, Further(p, Front(events)).next, Last(events), reachable);
    assert EventSteps(me, host, rpc, p.next, events, reachable) == steps + more;
    assert before + steps + more == before + (steps + more);
  }

  lemma NoneTravels(before: seq<Step>, attempt: Attempt, p: Pending)
    ensures before + [] == before && Logs(attempt, []) == attempt && Further(p, []) == p
  {
    assert attempt.log + [] == attempt.log && p.pushed + [] == p.pushed;
  }

  lemma OneMoreEvent(attempt: Attempt, p: Pending, events: seq<WireEvent>)
    requires events != []
    ensures Logs(Logs(attempt, Front(events)), [Last(events)]) == Logs(attempt, events)
    ensures Further(Further(p, Front(events)), [Last(events)]) == Further(p, events)
  {
    assert events == Front(events) + [Last(events)];
    assert attempt.log + Front(events) + [Last(events)] == attempt.log + events;
    assert p.pushed + Front(events) + [Last(events)] == p.pushed + events;
  }

  // ---------------------------------------------------------------- a turn begins

  predicate CanBegin(r: Resident, key: Key, request: Request) {
    && key !in r.active && request.member.harness in r.adapters
    && key !in r.journal
  }

  function OpenSteps(me: Peer, host: Peer, request: Request, reachable: set<Peer>): seq<Step> {
    [RequestRun(me, host, request, 0, reachable), Receive(Packet(me, host, Deliver(request)), reachable)]
  }

  /** Nothing stands in the way of this call. */
  predicate IsFree(w: World, me: Peer, host: Peer, request: Request, reachable: set<Peer>) {
    && me in w.nodes && host in w.nodes && host in reachable
    && request.rpc !in w.nodes[me].home.pending
    && DeliverRefusal(w.nodes[me].home, host, request.rpc, reachable).None?
    && CanBegin(w.nodes[host].resident, Key(me, request.rpc), request)
  }

  function NewAttempt(request: Request, count: nat): Attempt {
    Attempt(request, Accepted, count, [], Clean, -1)
  }

  function NewCall(host: Peer, request: Request, retries: nat): Pending {
    Pending(host, request, 0, 0, [], map[], retries)
  }

  lemma CallOpens(w: World, me: Peer, host: Peer, request: Request, reachable: set<Peer>) returns (w': World)
    requires IsFree(w, me, host, request, reachable)
    ensures Reaches(w, OpenSteps(me, host, request, reachable), w', me, host, request.rpc,
                    Turn(1, request, false, false), NewAttempt(request, 1), NewCall(host, request, 0))
    ensures Begun(host, Key(me, request.rpc), 1) in w'.facts
    ensures Key(me, request.rpc) in w'.nodes[host].resident.active
    ensures request.member.harness in w'.nodes[host].resident.adapters
  {
    RequestOpens(w, me, host, request, reachable);
    var m := Apply(w, RequestRun(me, host, request, 0, reachable));
    DeliveryBegins(m, me, host, request, 0, reachable);
    w' := Apply(m, Receive(Packet(me, host, Deliver(request)), reachable));
    ChainTwo(Takes, w, [], w, OpenSteps(me, host, request, reachable), m, w');
    assert [] + OpenSteps(me, host, request, reachable) == OpenSteps(me, host, request, reachable);
  }

  function StartSteps(me: Peer, host: Peer, request: Request, reachable: set<Peer>): seq<Step> {
    [Fire(host, Key(me, request.rpc)),
     Receive(Packet(host, me, RunEvent(request.rpc, 0, StartedEvent(request))), reachable)]
  }

  lemma StartReaches(w0: World, ss: seq<Step>, w: World, me: Peer, host: Peer, request: Request, retries: nat, number: nat,
                     reachable: set<Peer>) returns (w': World)
    requires Reaches(w0, ss, w, me, host, request.rpc, Turn(number, request, false, false),
                     NewAttempt(request, number), NewCall(host, request, retries))
    ensures Reaches(w0, ss + StartSteps(me, host, request, reachable), w', me, host, request.rpc,
                    Turn(number, request, true, false),
                    Attempt(request, Started, number, [StartedEvent(request)], Clean, -1),
                    Further(NewCall(host, request, retries), [StartedEvent(request)]))
  {
    var key, started := Key(me, request.rpc), StartedEvent(request);
    FireTravels(w, host, key, Turn(number, request, false, false), NewAttempt(request, number));
    assert [] + [started] == [started];
    var m := Apply(w, Fire(host, key));
    EventArrives(m, me, host, request.rpc, NewCall(host, request, retries), started, reachable);
    var hear := Receive(Packet(host, me, RunEvent(request.rpc, 0, started)), reachable);
    w' := Apply(m, hear);
    ChainTwo(Takes, w0, ss, w, StartSteps(me, host, request, reachable), m, w');
  }

  // ---------------------------------------------------------------- a turn ends

  lemma CompletionReaches(w0: World, ss: seq<Step>, w: World, me: Peer, host: Peer, rpc: RpcId, turn: Turn,
                          attempt: Attempt, p: Pending, event: WireEvent, reachable: set<Peer>) returns (w': World)
    requires Reaches(w0, ss, w, me, host, rpc, turn, attempt, p) && event.RunCompleted? && host in reachable
    ensures Leads(w0, ss + TurnSteps(me, host, rpc, p.next, event, reachable), w')
    ensures Serves(w', host, Key(me, rpc), turn.(completed := true), Logs(attempt, [event]))
    ensures me in w'.nodes && rpc !in w'.nodes[me].home.pending
    ensures rpc in w'.nodes[me].home.done && w'.nodes[me].home.done[rpc] == Completion(host, p.next)
    ensures Closed(me, host, rpc, p.start, p.pushed + [event], EndedComplete) in w'.facts
    ensures Packet(me, host, RunEventAck(rpc, p.next)) in w'.net
  {
    YieldTravels(w, host, Key(me, rpc), turn, attempt, event);
    var m := Apply(w, Yield(host, Key(me, rpc), event));
    CompletionArrives(m, me, host, rpc, p, event, reachable);
    var hear := Receive(Packet(host, me, RunEvent(rpc, p.next, event)), reachable);
    w' := Apply(m, hear);
    ChainTwo(Takes, w0, ss, w, TurnSteps(me, host, rpc, p.next, event, reachable), m, w');
  }

  lemma CompletedTurnEnds(w: World, host: Peer, key: Key, turn: Turn, attempt: Attempt)
    requires Serves(w, host, key, turn, attempt) && turn.completed
    ensures Possible(w, Finish(host, key)) &&
            var w' := Apply(w, Finish(host, key));
            HomesKept(w, w') && Rests(w', host, key, attempt.(state := Completed))
            && w.net <= w'.net && w.facts <= w'.facts
  {
  }

  function EndStep(host: Peer, key: Key, throws: bool): Step {
    if throws then Throw(host, key) else Finish(host, key)
  }

  /** Nothing can have been run. */
  predicate NeverRan(turn: Turn, attempt: Attempt) {
    !turn.started && attempt.log == [] && attempt.count < 2
  }

  lemma OpenTurnEnds(w: World, host: Peer, key: Key, turn: Turn, attempt: Attempt, throws: bool)
    requires Serves(w, host, key, turn, attempt) && !turn.completed && turn.number == attempt.count
    ensures var s := EndStep(host, key, throws);
            Possible(w, s) &&
            var w' := Apply(w, s);
            && HomesKept(w, w') && w.facts <= w'.facts
            && Rests(w', host, key, attempt.(state := if NeverRan(turn, attempt) then Accepted else Ambiguous))
            && w'.nodes[host].resident.active == w.nodes[host].resident.active
            && w'.nodes[host].resident.adapters == w.nodes[host].resident.adapters
            && Packet(host, key.home, Outcome(key.rpc, if NeverRan(turn, attempt) then OutcomeNeverStarted
                                                       else OutcomeAmbiguous, [])) in w'.net
  {
  }

  lemma AmbiguousArrives(w: World, me: Peer, host: Peer, rpc: RpcId, p: Pending, reachable: set<Peer>)
    requires Calls(w, me, rpc, p) && p.host == host && Packet(host, me, Outcome(rpc, OutcomeAmbiguous, [])) in w.net
    ensures var s := Receive(Packet(host, me, Outcome(rpc, OutcomeAmbiguous, [])), reachable);
            Possible(w, s) &&
            var w' := Apply(w, s);
            && ResidentsKept(w, w') && me in w'.nodes && rpc !in w'.nodes[me].home.pending
            && Closed(me, host, rpc, p.start, p.pushed, EndedAmbiguous) in w'.facts && w.facts <= w'.facts
  {
  }

  lemma NeverStartedArrives(w: World, me: Peer, host: Peer, rpc: RpcId, p: Pending, reachable: set<Peer>)
    requires Calls(w, me, rpc, p) && p.host == host && p.retries == 0
    requires Packet(host, me, Outcome(rpc, OutcomeNeverStarted, [])) in w.net
    ensures var s := Receive(Packet(host, me, Outcome(rpc, OutcomeNeverStarted, [])), reachable);
            Possible(w, s) &&
            var w' := Apply(w, s);
            && ResidentsKept(w, w') && Calls(w', me, rpc, p.(retries := 1)) && w.facts <= w'.facts
            && Packet(me, host, Deliver(p.request)) in w'.net
  {
  }

  lemma AckArrives(w: World, me: Peer, host: Peer, rpc: RpcId, attempt: Attempt, reachable: set<Peer>)
    requires Rests(w, host, Key(me, rpc), attempt) && attempt.state == Completed && attempt.log != []
    requires Packet(me, host, RunEventAck(rpc, |attempt.log| - 1)) in w.net && attempt.acked < |attempt.log|
    ensures var s := Receive(Packet(me, host, RunEventAck(rpc, |attempt.log| - 1)), reachable);
            Possible(w, s) &&
            var w' := Apply(w, s);
            && HomesKept(w, w') && Rests(w', host, Key(me, rpc), attempt.(acked := |attempt.log| - 1))
            && w.facts <= w'.facts && Packet(host, me, CompletionAck(rpc, |attempt.log| - 1)) in w'.net
  {
  }

  lemma ConfirmationArrives(w: World, me: Peer, host: Peer, rpc: RpcId, last: nat, reachable: set<Peer>)
    requires me in w.nodes && rpc in w.nodes[me].home.done && w.nodes[me].home.done[rpc] == Completion(host, last)
    requires Packet(host, me, CompletionAck(rpc, last)) in w.net
    ensures var s := Receive(Packet(host, me, CompletionAck(rpc, last)), reachable);
            Possible(w, s) &&
            var w' := Apply(w, s);
            && ResidentsKept(w, w') && me in w'.nodes && rpc !in w'.nodes[me].home.done
            && w'.nodes[me].home.pending == w.nodes[me].home.pending && w.facts <= w'.facts
  {
  }

  // ---------------------------------------------------------------- main results

  /** The home's acknowledgement and the host's confirmation settle the call. */
  function SettleSteps(me: Peer, host: Peer, rpc: RpcId, last: nat, reachable: set<Peer>): seq<Step> {
    [Finish(host, Key(me, rpc)), Receive(Packet(me, host, RunEventAck(rpc, last)), reachable),
     Receive(Packet(host, me, CompletionAck(rpc, last)), reachable)]
  }

  lemma CompletionSettles(w: World, me: Peer, host: Peer, rpc: RpcId, attempt: Attempt, reachable: set<Peer>)
    returns (m: World, w': World)
    requires Rests(w, host, Key(me, rpc), attempt) && attempt.state == Completed
    requires attempt.log != [] && attempt.acked < |attempt.log| && me in w.nodes && rpc !in w.nodes[me].home.pending
    requires rpc in w.nodes[me].home.done && w.nodes[me].home.done[rpc] == Completion(host, |attempt.log| - 1)
    requires Packet(me, host, RunEventAck(rpc, |attempt.log| - 1)) in w.net
    ensures Takes(w, Receive(Packet(me, host, RunEventAck(rpc, |attempt.log| - 1)), reachable), m)
    ensures Takes(m, Receive(Packet(host, me, CompletionAck(rpc, |attempt.log| - 1)), reachable), w')
    ensures w.facts <= w'.facts && Rests(w', host, Key(me, rpc), attempt.(acked := |attempt.log| - 1))
    ensures me in w'.nodes && rpc !in w'.nodes[me].home.pending && rpc !in w'.nodes[me].home.done
  {
    AckArrives(w, me, host, rpc, attempt, reachable);
    m := Apply(w, Receive(Packet(me, host, RunEventAck(rpc, |attempt.log| - 1)), reachable));
    ConfirmationArrives(m, me, host, rpc, |attempt.log| - 1, reachable);
    w' := Apply(m, Receive(Packet(host, me, CompletionAck(rpc, |attempt.log| - 1)), reachable));
  }

  lemma TurnSettles(w0: World, ss: seq<Step>, w: World, me: Peer, host: Peer, rpc: RpcId, turn: Turn, attempt: Attempt,
                    reachable: set<Peer>) returns (w': World)
    requires Leads(w0, ss, w) && Serves(w, host, Key(me, rpc), turn, attempt) && turn.completed
    requires attempt.log != [] && attempt.acked < |attempt.log| && me in w.nodes && rpc !in w.nodes[me].home.pending
    requires rpc in w.nodes[me].home.done && w.nodes[me].home.done[rpc] == Completion(host, |attempt.log| - 1)
    requires Packet(me, host, RunEventAck(rpc, |attempt.log| - 1)) in w.net
    ensures Leads(w0, ss + SettleSteps(me, host, rpc, |attempt.log| - 1, reachable), w') && w.facts <= w'.facts
    ensures Rests(w', host, Key(me, rpc), attempt.(state := Completed, acked := |attempt.log| - 1))
    ensures me in w'.nodes && rpc !in w'.nodes[me].home.pending && rpc !in w'.nodes[me].home.done
  {
    CompletedTurnEnds(w, host, Key(me, rpc), turn, attempt);
    var m := Apply(w, Finish(host, Key(me, rpc)));
    var m';
    m', w' := CompletionSettles(m, me, host, rpc, attempt.(state := Completed), reachable);
    ChainThree(Takes, w0, ss, w, SettleSteps(me, host, rpc, |attempt.log| - 1, reachable), m, m', w');
  }

  function TurnUpTo(me: Peer, host: Peer, request: Request, body: seq<WireEvent>, reachable: set<Peer>): seq<Step> {
    OpenSteps(me, host, request, reachable) + StartSteps(me, host, request, reachable)
    + EventSteps(me, host, request.rpc, 1, body, reachable)
  }

  lemma TurnReaches(w: World, me: Peer, host: Peer, request: Request, body: seq<WireEvent>, reachable: set<Peer>)
    returns (w': World)
    requires IsFree(w, me, host, request, reachable) && NoCompletion(body)
    ensures Reaches(w, TurnUpTo(me, host, request, body, reachable), w', me, host, request.rpc, Turn(1, request, true, false),
                    Attempt(request, Started, 1, [StartedEvent(request)] + body, Clean, -1),
                    Pending(host, request, 0, 1 + |body|, [StartedEvent(request)] + body, map[], 0))
  {
    var begun := CallOpens(w, me, host, request, reachable);
    var started := StartReaches(w, OpenSteps(me, host, request, reachable), begun, me, host, request, 0, 1, reachable);
    var attempt := Attempt(request, Started, 1, [StartedEvent(request)], Clean, -1);
    var p := Further(NewCall(host, request, 0), [StartedEvent(request)]);
    w' := EventsTravel(w, OpenSteps(me, host, request, reachable) + StartSteps(me, host, request, reachable), started, me, host,
                       request.rpc, Turn(1, request, true, false), attempt, p, body, reachable);
    FurtherIs(host, request, body);
  }

  lemma FurtherIs(host: Peer, request: Request, body: seq<WireEvent>)
    ensures Further(Further(NewCall(host, request, 0), [StartedEvent(request)]), body)
         == Pending(host, request, 0, 1 + |body|, [StartedEvent(request)] + body, map[], 0)
  {
    assert [] + [StartedEvent(request)] == [StartedEvent(request)];
  }

  function CallSteps(me: Peer, host: Peer, request: Request, body: seq<WireEvent>, last: WireEvent, reachable: set<Peer>): seq<Step> {
    TurnUpTo(me, host, request, body, reachable) + TurnSteps(me, host, request.rpc, 1 + |body|, last, reachable)
    + SettleSteps(me, host, request.rpc, 1 + |body|, reachable)
  }

  /** With nothing lost, a call takes these steps: it is requested, delivered and started, each event
      is sent under its position and taken, the turn ends, and the completion is acknowledged and
      confirmed.  The home's stream is then what the adapter yielded behind the start, the host's
      journal holds the same, and the home has forgotten the call. */
  lemma UndisturbedCallCompletes(w: World, me: Peer, host: Peer, request: Request, body: seq<WireEvent>, last: WireEvent,
                                 reachable: set<Peer>) returns (w': World)
    requires IsFree(w, me, host, request, reachable) && NoCompletion(body) && last.RunCompleted?
    ensures Leads(w, CallSteps(me, host, request, body, last, reachable), w')
    ensures var stream := [StartedEvent(request)] + body + [last];
            && Closed(me, host, request.rpc, 0, stream, EndedComplete) in w'.facts
            && Rests(w', host, Key(me, request.rpc), Attempt(request, Completed, 1, stream, Clean, |stream| - 1))
    ensures me in w'.nodes && request.rpc !in w'.nodes[me].home.pending && request.rpc !in w'.nodes[me].home.done
  {
    var rpc := request.rpc;
    var log := [StartedEvent(request)] + body;
    var attempt := Attempt(request, Started, 1, log, Clean, -1);
    var p := Pending(host, request, 0, 1 + |body|, log, map[], 0);
    var ss := TurnUpTo(me, host, request, body, reachable);
    var m := TurnReaches(w, me, host, request, body, reachable);
    var m' := CompletionReaches(w, ss, m, me, host, rpc, Turn(1, request, true, false), attempt, p, last, reachable);
    w' := TurnSettles(w, ss + TurnSteps(me, host, rpc, p.next, last, reachable), m', me, host, rpc,
                      Turn(1, request, true, true), Logs(attempt, [last]), reachable);
  }

  function InterruptedSteps(me: Peer, host: Peer, request: Request, body: seq<WireEvent>, throws: bool,
                            reachable: set<Peer>): seq<Step> {
    TurnUpTo(me, host, request, body, reachable)
    + [EndStep(host, Key(me, request.rpc), throws),
       Receive(Packet(host, me, Outcome(request.rpc, OutcomeAmbiguous, [])), reachable)]
  }

  /** A turn that started and ends without completing ends the call as ambiguous, with all it said in
      the stream. */
  lemma InterruptedTurnEndsTheCall(w: World, me: Peer, host: Peer, request: Request, body: seq<WireEvent>, throws: bool,
                                   reachable: set<Peer>) returns (w': World)
    requires IsFree(w, me, host, request, reachable) && NoCompletion(body)
    ensures Leads(w, InterruptedSteps(me, host, request, body, throws, reachable), w')
    ensures var stream := [StartedEvent(request)] + body;
            && Closed(me, host, request.rpc, 0, stream, EndedAmbiguous) in w'.facts
            && Rests(w', host, Key(me, request.rpc), Attempt(request, Ambiguous, 1, stream, Clean, -1))
    ensures me in w'.nodes && request.rpc !in w'.nodes[me].home.pending
  {
    var rpc := request.rpc;
    var log := [StartedEvent(request)] + body;
    var attempt := Attempt(request, Started, 1, log, Clean, -1);
    var m := TurnReaches(w, me, host, request, body, reachable);
    var end := EndStep(host, Key(me, rpc), throws);
    OpenTurnEnds(m, host, Key(me, rpc), Turn(1, request, true, false), attempt, throws);
    var m' := Apply(m, end);
    AmbiguousArrives(m', me, host, rpc, Pending(host, request, 0, 1 + |body|, log, map[], 0), reachable);
    var hear := Receive(Packet(host, me, Outcome(rpc, OutcomeAmbiguous, [])), reachable);
    w' := Apply(m', hear);
    ChainTwo(Takes, w, TurnUpTo(me, host, request, body, reachable), m, [end, hear], m', w');
  }

  /** A first turn that ends before it ran anything, and the request for a second. */
  function RetrySteps(me: Peer, host: Peer, request: Request, throws: bool, reachable: set<Peer>): seq<Step> {
    [EndStep(host, Key(me, request.rpc), throws), Settle(host, Key(me, request.rpc)),
     Receive(Packet(host, me, Outcome(request.rpc, OutcomeNeverStarted, [])), reachable),
     Receive(Packet(me, host, Deliver(request)), reachable)]
  }

  /** The turn has ended before it ran anything, and another may begin. */
  predicate CanRetry(w: World, me: Peer, host: Peer, request: Request) {
    && Rests(w, host, Key(me, request.rpc), NewAttempt(request, 1))
    && Calls(w, me, request.rpc, NewCall(host, request, 0))
    && request.member.harness in w.nodes[host].resident.adapters
    && Packet(host, me, Outcome(request.rpc, OutcomeNeverStarted, [])) in w.net
  }

  lemma FirstTurnFails(w: World, me: Peer, host: Peer, request: Request, throws: bool) returns (m: World, w': World)
    requires InStep(w, me, host, request.rpc, Turn(1, request, false, false), NewAttempt(request, 1), NewCall(host, request, 0))
    requires Key(me, request.rpc) in w.nodes[host].resident.active
    requires request.member.harness in w.nodes[host].resident.adapters
    ensures Takes(w, EndStep(host, Key(me, request.rpc), throws), m) && Takes(m, Settle(host, Key(me, request.rpc)), w')
    ensures CanRetry(w', me, host, request) && Key(me, request.rpc) !in w'.nodes[host].resident.active
    ensures w.facts <= w'.facts
  {
    var key := Key(me, request.rpc);
    OpenTurnEnds(w, host, key, Turn(1, request, false, false), NewAttempt(request, 1), throws);
    m := Apply(w, EndStep(host, key, throws));
    w' := SettleRests(m, host, key, NewAttempt(request, 1), request);
  }

  lemma SecondTurnBegins(w: World, me: Peer, host: Peer, request: Request, reachable: set<Peer>) returns (m: World, w': World)
    requires CanRetry(w, me, host, request) && Key(me, request.rpc) !in w.nodes[host].resident.active
    ensures Takes(w, Receive(Packet(host, me, Outcome(request.rpc, OutcomeNeverStarted, [])), reachable), m)
    ensures Takes(m, Receive(Packet(me, host, Deliver(request)), reachable), w')
    ensures InStep(w', me, host, request.rpc, Turn(2, request, false, false), NewAttempt(request, 2), NewCall(host, request, 1))
    ensures w.facts <= w'.facts && Begun(host, Key(me, request.rpc), 2) in w'.facts
  {
    NeverStartedArrives(w, me, host, request.rpc, NewCall(host, request, 0), reachable);
    m := Apply(w, Receive(Packet(host, me, Outcome(request.rpc, OutcomeNeverStarted, [])), reachable));
    DeliveryBegins(m, me, host, request, 1, reachable);
    w' := Apply(m, Receive(Packet(me, host, Deliver(request)), reachable));
  }

  lemma FailedTurnIsRetried(w: World, me: Peer, host: Peer, request: Request, throws: bool, reachable: set<Peer>)
    returns (w': World)
    requires IsFree(w, me, host, request, reachable)
    ensures Reaches(w, OpenSteps(me, host, request, reachable) + RetrySteps(me, host, request, throws, reachable), w', me, host,
                    request.rpc, Turn(2, request, false, false), NewAttempt(request, 2), NewCall(host, request, 1))
    ensures Begun(host, Key(me, request.rpc), 1) in w'.facts && Begun(host, Key(me, request.rpc), 2) in w'.facts
  {
    var w1 := CallOpens(w, me, host, request, reachable);
    var w2, w3 := FirstTurnFails(w1, me, host, request, throws);
    var w4;
    w4, w' := SecondTurnBegins(w3, me, host, request, reachable);
    ChainFour(Takes, w, OpenSteps(me, host, request, reachable), w1, RetrySteps(me, host, request, throws, reachable), w2, w3, w4, w');
  }

  /** Two turns that never ran anything end the call as ambiguous with an empty stream: the host is
      asked once more, and not again. */
  lemma TwoFailuresEndTheCall(w: World, me: Peer, host: Peer, request: Request, first: bool, second: bool,
                              reachable: set<Peer>) returns (w': World)
    requires IsFree(w, me, host, request, reachable)
    ensures Leads(w, OpenSteps(me, host, request, reachable) + RetrySteps(me, host, request, first, reachable)
                     + [EndStep(host, Key(me, request.rpc), second),
                        Receive(Packet(host, me, Outcome(request.rpc, OutcomeAmbiguous, [])), reachable)], w')
    ensures Closed(me, host, request.rpc, 0, [], EndedAmbiguous) in w'.facts
    ensures Begun(host, Key(me, request.rpc), 1) in w'.facts && Begun(host, Key(me, request.rpc), 2) in w'.facts
    ensures Rests(w', host, Key(me, request.rpc), Attempt(request, Ambiguous, 2, [], Clean, -1))
    ensures me in w'.nodes && request.rpc !in w'.nodes[me].home.pending
  {
    var key := Key(me, request.rpc);
    var m := FailedTurnIsRetried(w, me, host, request, first, reachable);
    var end, hear := EndStep(host, key, second), Receive(Packet(host, me, Outcome(request.rpc, OutcomeAmbiguous, [])), reachable);
    OpenTurnEnds(m, host, key, Turn(2, request, false, false), NewAttempt(request, 2), second);
    var m' := Apply(m, end);
    AmbiguousArrives(m', me, host, request.rpc, NewCall(host, request, 1), reachable);
    w' := Apply(m', hear);
    ChainTwo(Takes, w, OpenSteps(me, host, request, reachable) + RetrySteps(me, host, request, first, reachable), m, [end, hear], m', w');
  }

  lemma SettleRests(w: World, host: Peer, key: Key, attempt: Attempt, request: Request) returns (w': World)
    requires Rests(w, host, key, attempt) && request.member.harness in w.nodes[host].resident.adapters
    requires key in w.nodes[host].resident.active
    ensures Takes(w, Settle(host, key), w') && HomesKept(w, w') && Rests(w', host, key, attempt)
    ensures key !in w'.nodes[host].resident.active && request.member.harness in w'.nodes[host].resident.adapters
    ensures w'.net == w.net && w'.facts == w.facts
  {
    w' := Apply(w, Settle(host, key));
  }

  // ---------------------------------------------------------------- what each message gets

  predicate SameRequest(a: Request, b: Request) {
    a.room == b.room && a.member.id == b.member.id && a.payload == b.payload
  }

  /** A delivery under a known call id with another room, member or payload does nothing; one of a
      finished attempt is answered with its outcome, all events of a completed one from the first on;
      one of a running turn waits. */
  lemma RepeatedDeliveryIsAnswered(host: Peer, n: Node, me: Peer, request: Request, reachable: set<Peer>)
    requires Key(me, request.rpc) in n.resident.journal
    ensures var r, key := n.resident, Key(me, request.rpc);
            var a, e := r.journal[key], Handle(host, n, me, Deliver(request), reachable);
            && (!SameRequest(a.request, request) ==> e == NodeEffect(n, {}, []))
            && (SameRequest(a.request, request) ==>
                  && (a.state == Completed ==>
                        e == NodeEffect(n, {Packet(host, me, Outcome(request.rpc, OutcomeCompleted, EventsOf(a.log)))}, []))
                  && (a.state == Ambiguous || (a.state == Started && key !in r.active) ==>
                        e == NodeEffect(n, {Packet(host, me, Outcome(request.rpc, OutcomeAmbiguous, []))}, []))
                  && (key in r.active && (a.state == Accepted || a.state == Started) ==> e == NodeEffect(n, {}, []))
                  && (key !in r.active && a.state == Accepted && a.count >= 2 ==>
                        && e.sends == {Packet(host, me, Outcome(request.rpc, OutcomeAmbiguous, []))} && e.facts == []
                        && e.node == n.(resident := r.(journal := r.journal[key := a.(state := Ambiguous)]))))
  {
    var r, key := n.resident, Key(me, request.rpc);
    assert r.(journal := r.journal) == r;
    assert IndexedAfter(r.journal[key].log, -1) == EventsOf(r.journal[key].log);
  }

  function EventsOf(log: seq<WireEvent>): seq<Indexed> {
    seq(|log|, i requires 0 <= i < |log| => Indexed(i, log[i]))
  }

  /** A turn whose adapter the host does not have is counted and ends at once as ambiguous. */
  lemma UnknownAdapterEndsTheTurn(host: Peer, n: Node, me: Peer, request: Request, reachable: set<Peer>)
    requires CanTurn(n.resident, Key(me, request.rpc), request) && request.member.harness !in n.resident.adapters
    ensures var key, e := Key(me, request.rpc), Handle(host, n, me, Deliver(request), reachable);
            && key in e.node.resident.journal && e.node.resident.journal[key].state == Ambiguous
            && e.node.resident.journal[key].count == 1 + (if key in n.resident.journal then n.resident.journal[key].count else 0)
            && e.sends == {Packet(host, me, Outcome(request.rpc, OutcomeAmbiguous, []))}
            && e.node.resident.running == n.resident.running && e.node.home == n.home
  {
  }

  /** The attempt is unknown, or accepted before and may have another turn. */
  predicate CanTurn(r: Resident, key: Key, request: Request) {
    && key !in r.active
    && (key in r.journal ==>
          SameRequest(r.journal[key].request, request) && r.journal[key].state == Accepted && r.journal[key].count < 2)
  }

  /** A request opens a call and is sent exactly when the host is reachable, the call is not open
      already, and the calls of that host that are open or unconfirmed are fewer than the limit. */
  lemma RequestOpensExactly(me: Peer, h: Home, host: Peer, request: Request, start: nat, reachable: set<Peer>)
    ensures var e := RequestTurn(me, h, host, request, start, reachable);
            if host in reachable && request.rpc !in h.pending
               && |set rpc | rpc in h.pending && h.pending[rpc].host == host| + |set rpc | rpc in h.done && h.done[rpc].host == host| < h.limit
            then e.sends == {Packet(me, host, Deliver(request))}
                 && e.home == h.(pending := h.pending[request.rpc := Pending(host, request, start, start, [], map[], 0)])
            else e == HomeEffect(h, {}, [])
  {
  }

  /** The acknowledgement of everything before `next`. */
  function AckUpTo(me: Peer, host: Peer, rpc: RpcId, next: nat): set<Packet> {
    if next == 0 then {} else {Packet(me, host, RunEventAck(rpc, next - 1))}
  }

  lemma AdmittedIsAcknowledged(me: Peer, h: Home, host: Peer, rpc: RpcId, index: nat, event: WireEvent,
                               reachable: set<Peer>, q: Pending, last: Option<nat>)
    requires rpc in h.pending
    requires (q, last) == Drain(h.pending[rpc].(buffered := h.pending[rpc].buffered[index := event]))
    ensures var e := AdmitEvent(me, h, host, rpc, index, event, reachable);
            if last.Some? then rpc !in e.home.pending
            else rpc in e.home.pending && e.home.pending[rpc].next == q.next && e.sends == AckUpTo(me, host, rpc, q.next)
  {
  }

  lemma NewIsAcknowledged(me: Peer, h: Home, host: Peer, rpc: RpcId, index: nat, event: WireEvent, reachable: set<Peer>)
    requires rpc in h.pending
    ensures var e := AdmitEvent(me, h, host, rpc, index, event, reachable);
            rpc in e.home.pending ==> e.sends == AckUpTo(me, host, rpc, e.home.pending[rpc].next)
  {
    var (q, last) := Drain(h.pending[rpc].(buffered := h.pending[rpc].buffered[index := event]));
    AdmittedIsAcknowledged(me, h, host, rpc, index, event, reachable, q, last);
  }

  lemma TakenIsAdmitted(me: Peer, h: Home, host: Peer, rpc: RpcId, index: nat, event: WireEvent, reachable: set<Peer>)
    requires rpc in h.pending && h.pending[rpc].host == host
    ensures TakeEvent(me, h, host, rpc, index, event, reachable) ==
              if index < h.pending[rpc].next then HomeEffect(h, AckUpTo(me, host, rpc, h.pending[rpc].next), [])
              else AdmitEvent(me, h, host, rpc, index, event, reachable)
  {
  }

  /** Every event of an open call is acknowledged as far as the stream has come. */
  lemma EventsAreAcknowledged(me: Peer, n: Node, host: Peer, rpc: RpcId, index: nat, event: WireEvent, reachable: set<Peer>)
    requires rpc in n.home.pending && n.home.pending[rpc].host == host
    ensures var e := Handle(me, n, host, RunEvent(rpc, index, event), reachable);
            rpc in e.node.home.pending ==> e.sends == AckUpTo(me, host, rpc, e.node.home.pending[rpc].next)
  {
    TakenIsAdmitted(me, n.home, host, rpc, index, event, reachable);
    NewIsAcknowledged(me, n.home, host, rpc, index, event, reachable);
  }

  /** An event that comes again after its call completed gets the terminal acknowledgement again, and
      one of a call the home does not know gets none. */
  lemma LateEventsAreAcknowledged(me: Peer, n: Node, host: Peer, rpc: RpcId, index: nat, event: WireEvent, reachable: set<Peer>)
    requires rpc !in n.home.pending
    ensures Handle(me, n, host, RunEvent(rpc, index, event), reachable) == NodeEffect(n,
              if rpc in n.home.done && n.home.done[rpc].host == host && index <= n.home.done[rpc].index && host in reachable
              then {Packet(me, host, RunEventAck(rpc, n.home.done[rpc].index))} else {}, [])
  {
  }

  /** An acknowledgement raises what is acknowledged, and is confirmed exactly when the attempt is
      completed and it covers the last event. */
  lemma AckIsConfirmedExactly(host: Peer, n: Node, me: Peer, rpc: RpcId, index: int, reachable: set<Peer>)
    requires Key(me, rpc) in n.resident.journal
    ensures var a := n.resident.journal[Key(me, rpc)];
            var e := Handle(host, n, me, RunEventAck(rpc, index), reachable);
            && Key(me, rpc) in e.node.resident.journal
            && e.node.resident.journal[Key(me, rpc)] == a.(acked := if a.acked < index then index else a.acked)
            && e.sends == (if a.state == Completed && a.log != [] && |a.log| - 1 <= index
                           then {Packet(host, me, CompletionAck(rpc, |a.log| - 1))} else {})
  {
  }

  /** The timer repeats the acknowledgement of every completion whose host is reachable. */
  lemma TimerRepeatsEveryAck(me: Peer, h: Home, reachable: set<Peer>, p: Packet)
    ensures p in RetryAcks(me, h, None, reachable) <==>
              exists rpc :: rpc in h.done && h.done[rpc].host in reachable
                            && p == Packet(me, h.done[rpc].host, RunEventAck(rpc, h.done[rpc].index))
  {
    if rpc :| rpc in h.done && h.done[rpc].host in reachable && p == Packet(me, h.done[rpc].host, RunEventAck(rpc, h.done[rpc].index)) {
      assert p in CompletionEventAck(me, rpc, h.done[rpc], reachable);
    }
  }
}
