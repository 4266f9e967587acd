/** Two runs of the resident attempt protocol that show what its results need: one in which an
    event is appended behind an unfinished record, and one in which a start comes late. */
module ResidencyRuns {
  import opened Basics
  import opened ResidencyProtocol
  import opened ResidencyWorld
  import opened ResidencyTurns
  import opened ResidencyResults

  lemma ExtendTrace(ws: seq<World>, s: Step, rules: Rules)
    requires Trace(ws, rules) && Possible(ws[|ws| - 1], s) && Allowed(ws[|ws| - 1], s, rules)
    ensures Trace(ws + [Apply(ws[|ws| - 1], s)], rules)
  {
    var w, w' := ws[|ws| - 1], Apply(ws[|ws| - 1], s);
    var longer := ws + [w'];
    assert Next(w, w', rules);
    forall i | 0 <= i < |longer| - 1 ensures Next(longer[i], longer[i + 1], rules) {
      if i < |ws| - 1 { assert Next(ws[i], ws[i + 1], rules); }
    }
  }

  // ---------------------------------------------------------------- an append that is not clean

  /** No start comes late; nothing else is kept to. */
  const UNTIDY := Rules(false, true, true, false)

  const HOME: Peer := "home"
  const HOST: Peer := "host"
  const CALL := Request("call", "room", Member("agent", "fake"), "go", 1)
  const CALL_KEY := Key(HOME, "call")
  const ASKED := Packet(HOME, HOST, Deliver(CALL))

  function Quiet(adapters: set<string>): Node {
    Node(Resident(adapters, map[], {}, map[], {}), Home(1, map[], map[]))
  }

  function Waiting(pushed: seq<WireEvent>): Home {
    Home(1, map["call" := Pending(HOST, CALL, 0, |pushed|, pushed, map[], 0)], map[])
  }

  function Entry(log: seq<WireEvent>, count: nat, tail: Tail): Attempt {
    Attempt(CALL, Accepted, count, log, tail, -1)
  }

  function AtRest(entry: Attempt): Resident {
    Resident({"fake"}, map[CALL_KEY := entry], {}, map[], {})
  }

  function InTurn(entry: Attempt): Resident {
    AtRest(entry).(active := {CALL_KEY}, running := map[CALL_KEY := Turn(entry.count, CALL, false, false)])
  }

  ghost predicate Shows(w: World, host: Resident, home: Home, sent: set<Packet>) {
    && HOME in w.nodes && HOST in w.nodes
    && w.nodes[HOST].resident == host
    && w.nodes[HOME].home == home
    && sent <= w.net
  }

  function EventPacket(index: nat, event: WireEvent): Packet {
    Packet(HOST, HOME, RunEvent("call", index, event))
  }

  lemma CallIsSent(rules: Rules) returns (ws: seq<World>)
    ensures Trace(ws, rules)
    ensures Shows(ws[|ws| - 1], Quiet({"fake"}).resident, Waiting([]), {ASKED})
  {
    var w0 := World(map[HOME := Quiet({}), HOST := Quiet({"fake"})], {}, []);
    var h := w0.nodes[HOME].home;
    assert DoneAt(h, HOST) == {} && PendingAt(h, HOST) == {};
    ExtendTrace([w0], RequestRun(HOME, HOST, CALL, 0, {HOST}), rules);
    ws := [w0] + [Apply(w0, RequestRun(HOME, HOST, CALL, 0, {HOST}))];
  }

  lemma CallBegins(ws: seq<World>, before: Resident, log: seq<WireEvent>, count: nat, tail: Tail, h: Home,
                   sent: set<Packet>) returns (ws': seq<World>)
    requires Trace(ws, UNTIDY) && Shows(ws[|ws| - 1], before, h, sent) && ASKED in sent && count < 2
    requires before == AtRest(Entry(log, count, tail)) ||
             (before == Quiet({"fake"}).resident && log == [] && count == 0 && tail == Clean)
    ensures Trace(ws', UNTIDY) && Shows(ws'[|ws'| - 1], InTurn(Entry(log, count + 1, tail)), h, sent)
  {
    var w, s := ws[|ws| - 1], Receive(ASKED, {});
    ExtendTrace(ws, s, UNTIDY);
    ws' := ws + [Apply(w, s)];
    var after := AcceptDelivery(HOST, before, HOME, CALL).resident;
    assert after == BeginTurn(HOST, before.(journal := Ensure(before.journal, CALL_KEY, CALL)), CALL_KEY, CALL).resident;
    assert after.journal[CALL_KEY] == Entry(log, count + 1, tail);
    assert after == InTurn(Entry(log, count + 1, tail));
  }

  lemma CallYields(ws: seq<World>, entry: Attempt, event: WireEvent, h: Home, sent: set<Packet>)
    returns (ws': seq<World>)
    requires Trace(ws, UNTIDY) && Shows(ws[|ws| - 1], InTurn(entry), h, sent) && event.OtherEvent?
    ensures Trace(ws', UNTIDY)
    ensures Shows(ws'[|ws'| - 1], InTurn(entry.Append(event)), h, sent + {EventPacket(|entry.log|, event)})
  {
    var w, s := ws[|ws| - 1], Yield(HOST, CALL_KEY, event);
    ExtendTrace(ws, s, UNTIDY);
    ws' := ws + [Apply(w, s)];
    assert YieldEvent(HOST, InTurn(entry), CALL_KEY, event).resident == InTurn(entry.Append(event));
  }

  lemma CallDies(ws: seq<World>, entry: Attempt, event: WireEvent, h: Home, sent: set<Packet>)
    returns (ws': seq<World>)
    requires Trace(ws, UNTIDY) && Shows(ws[|ws| - 1], InTurn(entry), h, sent)
    ensures Trace(ws', UNTIDY) && Shows(ws'[|ws'| - 1], AtRest(entry.AppendCut(event, Partial)), h, sent)
  {
    var w, s := ws[|ws| - 1], Crash(HOST, WhileYielding(CALL_KEY, event, Partial));
    ExtendTrace(ws, s, UNTIDY);
    ws' := ws + [Apply(w, s)];
    assert Remains(HOST, InTurn(entry), s.midway).resident == AtRest(entry.AppendCut(event, Partial));
  }

  lemma CallReceives(ws: seq<World>, host: Resident, pushed: seq<WireEvent>, event: WireEvent, sent: set<Packet>)
    returns (ws': seq<World>)
    requires Trace(ws, UNTIDY) && Shows(ws[|ws| - 1], host, Waiting(pushed), sent) && event.OtherEvent?
    requires EventPacket(|pushed|, event) in sent
    ensures Trace(ws', UNTIDY) && Shows(ws'[|ws'| - 1], host, Waiting(pushed + [event]), sent)
  {
    var w, s := ws[|ws| - 1], Receive(EventPacket(|pushed|, event), {});
    ExtendTrace(ws, s, UNTIDY);
    ws' := ws + [Apply(w, s)];
    var p := Pending(HOST, CALL, 0, |pushed|, pushed, map[|pushed| := event], 0);
    var q := Pending(HOST, CALL, 0, |pushed| + 1, pushed + [event], map[], 0);
    assert DrainOne(p) == q && Drain(q) == (q, None) && Drain(p) == (q, None);
    assert Waiting(pushed).pending["call"].(buffered := map[|pushed| := event]) == p;
    assert TakeEvent(HOME, Waiting(pushed), HOST, "call", |pushed|, event, {}).home == Waiting(pushed + [event]);
  }

  /** A turn that never reports its start yields `a` and dies writing `b`. */
  lemma FirstUnreportedTurn(a: WireEvent, b: WireEvent) returns (ws: seq<World>)
    requires a.OtherEvent? && b.OtherEvent?
    ensures Trace(ws, UNTIDY)
    ensures Shows(ws[|ws| - 1], AtRest(Entry([a], 1, Partial)), Waiting([]), {ASKED, EventPacket(0, a)})
  {
    assert [] + [a] == [a];
    ws := CallIsSent(UNTIDY);
    ws := CallBegins(ws, Quiet({"fake"}).resident, [], 0, Clean, Waiting([]), {ASKED});
    ws := CallYields(ws, Entry([], 1, Clean), a, Waiting([]), {ASKED});
    ws := CallDies(ws, Entry([a], 1, Clean), b, Waiting([]), {ASKED, EventPacket(0, a)});
  }

  /** The next turn yields `b` behind the broken record, and then `c`. */
  lemma UnreportedTurns(a: WireEvent, b: WireEvent, c: WireEvent) returns (ws: seq<World>)
    requires a.OtherEvent? && b.OtherEvent? && c.OtherEvent?
    ensures Trace(ws, UNTIDY)
    ensures Shows(ws[|ws| - 1], InTurn(Entry([a, c], 2, Clean)), Waiting([]),
                  {ASKED, EventPacket(0, a), EventPacket(1, b), EventPacket(1, c)})
  {
    assert [a] + [c] == [a, c];
    var h, sent := Waiting([]), {ASKED, EventPacket(0, a)};
    ws := FirstUnreportedTurn(a, b);
    ws := CallBegins(ws, AtRest(Entry([a], 1, Partial)), [a], 1, Partial, h, sent);
    ws := CallYields(ws, Entry([a], 2, Partial), b, h, sent);
    ws := CallYields(ws, Entry([a], 2, Clean), c, h, sent + {EventPacket(1, b)});
  }

  /** With an append behind an unfinished record the slice property fails: adapters yield without
      reporting a start, a second turn appends behind the record that the first one broke, one
      index is handed out twice, and the home pushes an event that the resident's log does not
      hold. */
  lemma SliceNeedsCleanAppends() returns (ws: seq<World>)
    ensures Trace(ws, UNTIDY)
    ensures var w := ws[|ws| - 1];
            && HOME in w.nodes && "call" in w.nodes[HOME].home.pending
            && var p := w.nodes[HOME].home.pending["call"];
               !IsLogSlice(w, p.host, HOME, "call", p.start, p.pushed)
  {
    var a, b, c := OtherEvent("a"), OtherEvent("b"), OtherEvent("c");
    ws := UnreportedTurns(a, b, c);
    var host := InTurn(Entry([a, c], 2, Clean));
    var sent := {ASKED, EventPacket(0, a), EventPacket(1, b), EventPacket(1, c)};
    assert [] + [a] == [a] && [a] + [b] == [a, b];
    ws := CallReceives(ws, host, [], a, sent);
    ws := CallReceives(ws, host, [a], b, sent);
    assert [a, c][0..2][1] == c;
  }

  // ---------------------------------------------------------------- a start that comes late

  /** Starts come before events and appends are clean; only starts may come late. */
  const LATE := Rules(true, false, false, true)

  const HOOK := Hook(CALL_KEY, 1, CALL)

  const STARTED := RunStarted("agent", 1)

  const DONE := RunCompleted("done")

  function Row(state: AttemptState, count: nat, log: seq<WireEvent>): map<Key, Attempt> {
    map[CALL_KEY := Attempt(CALL, state, count, log, Clean, -1)]
  }

  function Ended(journal: map<Key, Attempt>, ended: set<Hook>): Resident {
    Resident({"fake"}, journal, {}, map[], ended)
  }

  function During(journal: map<Key, Attempt>, turn: Turn, ended: set<Hook>): Resident {
    Resident({"fake"}, journal, {CALL_KEY}, map[CALL_KEY := turn], ended)
  }

  ghost predicate HostIs(w: World, host: Resident, past: set<Fact>) {
    HOST in w.nodes && w.nodes[HOST].resident == host && ASKED in w.net && forall f | f in past :: f in w.facts
  }

  lemma HostActs(ws: seq<World>, s: Step, host: Resident, host': Resident, past: set<Fact>, fact: set<Fact>)
    returns (ws': seq<World>)
    requires Trace(ws, LATE) && HostIs(ws[|ws| - 1], host, past) && Actor(s) == HOST
    requires Possible(ws[|ws| - 1], s) && Allowed(ws[|ws| - 1], s, LATE)
    requires Act(ws[|ws| - 1], s).node.resident == host'
    requires forall f | f in fact :: f in Act(ws[|ws| - 1], s).facts
    ensures ws' == ws + [Apply(ws[|ws| - 1], s)] && Trace(ws', LATE)
    ensures HostIs(ws'[|ws'| - 1], host', past + fact)
  {
    ExtendTrace(ws, s, LATE);
    ws' := ws + [Apply(ws[|ws| - 1], s)];
  }

  /** The first turn throws before it starts; the call is delivered once more. */
  lemma FirstTurnThrows() returns (ws: seq<World>)
    ensures Trace(ws, LATE)
    ensures HostIs(ws[|ws| - 1], During(Row(Accepted, 2, []), Turn(2, CALL, false, false), {HOOK}), {})
  {
    ws := CallIsSent(LATE);
    var r1 := During(Row(Accepted, 1, []), Turn(1, CALL, false, false), {});
    assert AcceptDelivery(HOST, Quiet({"fake"}).resident, HOME, CALL).resident == r1;
    ws := HostActs(ws, Receive(ASKED, {}), Quiet({"fake"}).resident, r1, {}, {});
    var r2 := Ended(Row(Accepted, 1, []), {HOOK});
    assert ThrowTurn(HOST, r1, CALL_KEY).resident == r2.(active := {CALL_KEY});
    ws := HostActs(ws, Throw(HOST, CALL_KEY), r1, r2.(active := {CALL_KEY}), {}, {});
    ws := HostActs(ws, Settle(HOST, CALL_KEY), r2.(active := {CALL_KEY}), r2, {}, {});
    var r3 := During(Row(Accepted, 2, []), Turn(2, CALL, false, false), {HOOK});
    assert AcceptDelivery(HOST, r2, HOME, CALL).resident == r3;
    ws := HostActs(ws, Receive(ASKED, {}), r2, r3, {}, {});
  }

  const FIRED := {Fired(HOST, CALL_KEY, 2)}

  lemma SecondTurnStarts(before: seq<World>) returns (ws: seq<World>)
    requires Trace(before, LATE)
    requires HostIs(before[|before| - 1], During(Row(Accepted, 2, []), Turn(2, CALL, false, false), {HOOK}), {})
    ensures Trace(ws, LATE)
    ensures HostIs(ws[|ws| - 1], During(Row(Started, 2, [STARTED]), Turn(2, CALL, true, false), {HOOK}), FIRED)
  {
    assert [] + [STARTED] == [STARTED] && {} + FIRED == FIRED;
    var r0 := During(Row(Accepted, 2, []), Turn(2, CALL, false, false), {HOOK});
    var r1 := During(Row(Started, 2, [STARTED]), Turn(2, CALL, true, false), {HOOK});
    assert FireTurn(HOST, r0, CALL_KEY).resident == r1;
    ws := HostActs(before, Fire(HOST, CALL_KEY), r0, r1, {}, FIRED);
  }

  lemma SecondTurnYields(before: seq<World>) returns (ws: seq<World>)
    requires Trace(before, LATE)
    requires HostIs(before[|before| - 1], During(Row(Started, 2, [STARTED]), Turn(2, CALL, true, false), {HOOK}), FIRED)
    ensures Trace(ws, LATE)
    ensures HostIs(ws[|ws| - 1], During(Row(Started, 2, [STARTED, DONE]), Turn(2, CALL, true, true), {HOOK}), FIRED)
  {
    assert [STARTED] + [DONE] == [STARTED, DONE] && FIRED + {} == FIRED;
    var r1 := During(Row(Started, 2, [STARTED]), Turn(2, CALL, true, false), {HOOK});
    var r2 := During(Row(Started, 2, [STARTED, DONE]), Turn(2, CALL, true, true), {HOOK});
    assert YieldEvent(HOST, r1, CALL_KEY, DONE).resident == r2;
    ws := HostActs(before, Yield(HOST, CALL_KEY, DONE), r1, r2, FIRED, {});
  }

  function Over(): Resident {
    Ended(Row(Completed, 2, [STARTED, DONE]), {HOOK, Hook(CALL_KEY, 2, CALL)}).(active := {CALL_KEY})
  }

  lemma SecondTurnFinishes(before: seq<World>) returns (ws: seq<World>)
    requires Trace(before, LATE)
    requires HostIs(before[|before| - 1], During(Row(Started, 2, [STARTED, DONE]), Turn(2, CALL, true, true), {HOOK}), FIRED)
    ensures Trace(ws, LATE) && HostIs(ws[|ws| - 1], Over(), FIRED)
  {
    assert FIRED + {} == FIRED;
    var r2 := During(Row(Started, 2, [STARTED, DONE]), Turn(2, CALL, true, true), {HOOK});
    assert FinishTurn(HOST, r2, CALL_KEY).resident == Over();
    ws := HostActs(before, Finish(HOST, CALL_KEY), r2, Over(), FIRED, {});
  }

  /** The first turn's callback then comes: two turns of one attempt have started, and a completed
      entry is back to started, with one event more. */
  lemma LateStartBreaksTheHistory() returns (ws: seq<World>)
    ensures Trace(ws, LATE) && |ws| > 1
    ensures HasFired(ws[|ws| - 1].facts, HOST, CALL_KEY, 1) && HasFired(ws[|ws| - 1].facts, HOST, CALL_KEY, 2)
    ensures
      var before, after := ws[|ws| - 2], ws[|ws| - 1];
      && HOST in before.nodes && CALL_KEY in before.nodes[HOST].resident.journal
      && HOST in after.nodes && CALL_KEY in after.nodes[HOST].resident.journal
      && before.nodes[HOST].resident.journal[CALL_KEY].state == Completed
      && after.nodes[HOST].resident.journal[CALL_KEY].state == Started
      && |before.nodes[HOST].resident.journal[CALL_KEY].log| < |after.nodes[HOST].resident.journal[CALL_KEY].log|
  {
    ws := FirstTurnThrows();
    ws := SecondTurnStarts(ws);
    ws := SecondTurnYields(ws);
    ws := SecondTurnFinishes(ws);
    var late := FireLate(HOST, Over(), HOOK);
    ws := HostActs(ws, LateFire(HOST, HOOK), Over(), late.resident, FIRED, {Fired(HOST, CALL_KEY, 1)});
  }
}
