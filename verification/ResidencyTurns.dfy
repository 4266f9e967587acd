/** When at most one turn of an attempt starts, and when a journal entry never goes back.

    Both depend on starts that come late, after their turn's stream has ended, and on nothing else
    that adapters do: only the last turn begun has started if and only if every late start is that
    of the last turn begun, and no entry goes back if and only if no late start meets a finished
    attempt. */
module ResidencyTurns {
  import opened ResidencyProtocol
  import opened ResidencyWorld
  import opened ResidencyFrame
  import opened ResidencyAttempts

  // ---------------------------------------------------------------- which turn has started

  /** The adapter turn of this number has fired its `onStarted`. */
  predicate HasFired(facts: seq<Fact>, host: Peer, key: Key, number: nat) {
    Fired(host, key, number) in facts
  }

  predicate FiredFits(journal: map<Key, Attempt>, key: Key, number: nat) {
    key in journal && 0 < number == journal[key].count && journal[key].state != Accepted
  }

  /** Whatever turn of an attempt has started is the last one begun, and has left accepted. */
  ghost predicate StartsFit(w: World) {
    forall n, key, number | n in w.nodes && HasFired(w.facts, n, key, number) ::
      FiredFits(w.nodes[n].resident.journal, key, number)
  }

  lemma HandlingStartsNothing(me: Peer, n: Node, from: Peer, m: Message, reachable: set<Peer>)
    ensures forall f | f in Handle(me, n, from, m, reachable).facts :: !f.Fired?
  {
    if !m.Deliver? && !m.RunEventAck? { HomeHandlingFacts(me, n, from, m, reachable); }
  }

  /** A step records a start only as that of the last turn begun. */
  lemma StepStarts(w: World, s: Step, n: Peer, key: Key, number: nat)
    requires AttemptsInvariant(w) && Possible(w, s) && StartsLast(w.nodes[Actor(s)].resident, s)
    requires Fired(n, key, number) in Act(w, s).facts
    ensures n == Actor(s) && FiredFits(Act(w, s).node.resident.journal, key, number)
  {
    var r := w.nodes[Actor(s)].resident;
    assert ResidentFits(r);
    assert key in r.running ==> RunsRight(r.running[key], r.journal[key]);
    if s.Receive? {
      HandlingStartsNothing(s.packet.dst, w.nodes[s.packet.dst], s.packet.src, s.packet.message, s.reachable);
    } else if LateHook(s).Some? {
      assert HookFits(r, LateHook(s).value);
      LateStartActs(w, s, LateHook(s).value);
    }
  }

  lemma StepKeepsStarts(w: World, s: Step)
    requires AttemptsInvariant(w) && StartsFit(w) && Possible(w, s) && StartsLast(w.nodes[Actor(s)].resident, s)
    ensures StartsFit(Apply(w, s))
  {
    var w' := Apply(w, s);
    StepKeepsAttempts(w, s);
    forall n, key, number | n in w'.nodes && HasFired(w'.facts, n, key, number)
      ensures FiredFits(w'.nodes[n].resident.journal, key, number)
    {
      if HasFired(w.facts, n, key, number) {
        assert FiredFits(w.nodes[n].resident.journal, key, number);
        assert Continues(w.nodes[n].resident.journal[key], w'.nodes[n].resident.journal[key]);
      } else {
        StepStarts(w, s, n, key, number);
      }
    }
  }

  lemma {:induction false} TraceKeepsStarts(ws: seq<World>, rules: Rules, i: nat)
    requires Trace(ws, rules) && rules.lastStarts && i < |ws|
    ensures StartsFit(ws[i])
  {
    if i > 0 {
      TraceKeepsStarts(ws, rules, i - 1);
      TraceKeepsAttempts(ws, rules, i - 1);
      assert Next(ws[i - 1], ws[i - 1 + 1], rules);
      var s :| Possible(ws[i - 1], s) && Allowed(ws[i - 1], s, rules) && ws[i] == Apply(ws[i - 1], s);
      StepKeepsStarts(ws[i - 1], s);
    }
  }

  /** In every run whose late starts are those of the last turn begun, at every moment: all
      `onStarted` calls ever made for an attempt came from one turn, the last one begun. */
  lemma AtMostOneTurnStarts(ws: seq<World>, rules: Rules, i: nat, host: Peer, key: Key)
    requires Trace(ws, rules) && rules.lastStarts && i < |ws| && host in ws[i].nodes
    ensures forall a, b | HasFired(ws[i].facts, host, key, a) && HasFired(ws[i].facts, host, key, b) :: a == b
    ensures forall a | HasFired(ws[i].facts, host, key, a) ::
              |Begins(ws[i].facts, host, key)| == a && a in Begins(ws[i].facts, host, key)
  {
    TraceKeepsStarts(ws, rules, i);
    TraceKeepsAttempts(ws, rules, i);
    var journal := ws[i].nodes[host].resident.journal;
    assert BeginsInOrder(ws[i].facts, host, key, journal);
    forall a | HasFired(ws[i].facts, host, key, a)
      ensures |Begins(ws[i].facts, host, key)| == a && a in Begins(ws[i].facts, host, key)
      ensures a == CountOf(journal, key)
    {
      assert FiredFits(journal, key, a);
      assert UpTo(a)[a - 1] == a;
    }
  }

  /** Whatever turn of an attempt has started, it is the last one begun. */
  ghost predicate OnlyTheLastStarted(w: World) {
    forall host, key, number | host in w.nodes && HasFired(w.facts, host, key, number) ::
      number == |Begins(w.facts, host, key)|
  }

  lemma FittingStartsAreLast(w: World)
    requires AttemptsInvariant(w) && StartsFit(w)
    ensures OnlyTheLastStarted(w)
  {
    forall host, key, number | host in w.nodes && HasFired(w.facts, host, key, number)
      ensures number == |Begins(w.facts, host, key)|
    {
      assert FiredFits(w.nodes[host].resident.journal, key, number);
      assert BeginsInOrder(w.facts, host, key, w.nodes[host].resident.journal);
    }
  }

  predicate IsLastStart(w: World, s: Step) {
    Actor(s) in w.nodes && StartsLast(w.nodes[Actor(s)].resident, s)
  }

  /** A late start of a turn that a newer one has replaced is not that of the last one. */
  lemma OldStartBreaks(w: World, s: Step)
    requires AttemptsInvariant(w) && Possible(w, s) && !IsLastStart(w, s)
    ensures !OnlyTheLastStarted(Apply(w, s))
  {
    var me, hook, w' := Actor(s), LateHook(s).value, Apply(w, s);
    LateStartActs(w, s, hook);
    StepKeepsAttempts(w, s);
    assert BeginsInOrder(w'.facts, me, hook.key, w'.nodes[me].resident.journal);
    assert HasFired(w'.facts, me, hook.key, hook.number);
  }

  lemma {:induction false} RunKeepsStarts(ws: seq<World>, ss: seq<Step>, i: nat)
    requires IsRun(ws, ss) && i < |ws|
    ensures AttemptsInvariant(ws[i])
    ensures (forall j | 0 <= j < i :: IsLastStart(ws[j], ss[j])) ==> StartsFit(ws[i])
  {
    if i == 0 {
      StartKeepsAttempts(ws[0]);
    } else {
      RunKeepsStarts(ws, ss, i - 1);
      assert Possible(ws[i - 1], ss[i - 1]) && ws[i - 1 + 1] == Apply(ws[i - 1], ss[i - 1]);
      StepKeepsAttempts(ws[i - 1], ss[i - 1]);
      if forall j | 0 <= j < i :: IsLastStart(ws[j], ss[j]) {
        assert IsLastStart(ws[i - 1], ss[i - 1]);
        StepKeepsStarts(ws[i - 1], ss[i - 1]);
      }
    }
  }

  /** In a run with any adapters: at every moment only the last turn begun for an attempt has
      started, if and only if every late start is that of the last turn begun. */
  lemma OnlyTheLastStartsExactly(ws: seq<World>, ss: seq<Step>)
    requires IsRun(ws, ss)
    ensures (forall i | 0 <= i < |ws| :: OnlyTheLastStarted(ws[i])) <==> (forall i | 0 <= i < |ss| :: IsLastStart(ws[i], ss[i]))
  {
    if forall i | 0 <= i < |ss| :: IsLastStart(ws[i], ss[i]) {
      forall i | 0 <= i < |ws| ensures OnlyTheLastStarted(ws[i]) {
        RunKeepsStarts(ws, ss, i);
        FittingStartsAreLast(ws[i]);
      }
    }
    if forall i | 0 <= i < |ws| :: OnlyTheLastStarted(ws[i]) {
      forall i | 0 <= i < |ss| ensures IsLastStart(ws[i], ss[i]) {
        RunKeepsStarts(ws, ss, i);
        assert OnlyTheLastStarted(ws[i + 1]);
        if !IsLastStart(ws[i], ss[i]) { OldStartBreaks(ws[i], ss[i]); }
      }
    }
  }

  // ---------------------------------------------------------------- when entries go forward

  function Rank(s: AttemptState): nat {
    match s
    case Accepted => 0
    case Started => 1
    case _ => 2
  }

  /** How one journal entry may change over time, if it only goes forward. */
  predicate Advances(a: Attempt, b: Attempt) {
    && Continues(a, b)
    && Rank(a.state) <= Rank(b.state)
    && (Rank(a.state) == 2 ==> b.state == a.state && b.log == a.log)
  }

  predicate JournalAdvances(a: map<Key, Attempt>, b: map<Key, Attempt>) {
    forall key | key in a :: key in b && Advances(a[key], b[key])
  }

  ghost predicate JournalsAdvance(w: World, w': World) {
    forall n | n in w.nodes ::
      n in w'.nodes && JournalAdvances(w.nodes[n].resident.journal, w'.nodes[n].resident.journal)
  }

  /** The entry a step is about only goes forward. */
  predicate AdvancesAt(r: Resident, r': Resident, key: Key) {
    key in r.journal && key in r'.journal ==>
      && Rank(r.journal[key].state) <= Rank(r'.journal[key].state)
      && (Rank(r.journal[key].state) == 2 ==>
            r'.journal[key].state == r.journal[key].state && r'.journal[key].log == r.journal[key].log)
  }

  lemma AcceptAdvances(me: Peer, r: Resident, home: Peer, request: Request)
    ensures AdvancesAt(r, AcceptDelivery(me, r, home, request).resident, Key(home, request.rpc))
  {
  }

  lemma TurnAdvances(me: Peer, r: Resident, key: Key, event: WireEvent)
    requires ResidentFits(r) && Running(r, key)
    ensures AdvancesAt(r, FireTurn(me, r, key).resident, key)
    ensures AdvancesAt(r, YieldEvent(me, r, key, event).resident, key)
    ensures AdvancesAt(r, FinishTurn(me, r, key).resident, key)
    ensures AdvancesAt(r, ThrowTurn(me, r, key).resident, key)
  {
    assert RunsRight(r.running[key], r.journal[key]);
  }

  lemma CrashAdvances(me: Peer, r: Resident, midway: Midway)
    requires ResidentFits(r) && MidwayPossible(r, midway) && StartsOpen(r, Crash(me, midway))
    ensures AdvancesAt(r, Remains(me, r, midway).resident, MidwayKey(midway))
  {
    var key := MidwayKey(midway);
    assert key in r.running ==> RunsRight(r.running[key], r.journal[key]);
  }

  lemma HandleAdvances(me: Peer, n: Node, p: Packet, reachable: set<Peer>)
    ensures AdvancesAt(n.resident, Handle(me, n, p.src, p.message, reachable).node.resident, StepKey(Receive(p, reachable)))
  {
    match p.message {
      case Deliver(request) => AcceptAdvances(me, n.resident, p.src, request);
      case RunEventAck(_, _) =>
      case _ => HomeHandlingFacts(me, n, p.src, p.message, reachable);
    }
  }

  lemma ActAdvances(w: World, s: Step)
    requires AttemptsInvariant(w) && Possible(w, s) && StartsOpen(w.nodes[Actor(s)].resident, s)
    ensures AdvancesAt(w.nodes[Actor(s)].resident, Act(w, s).node.resident, StepKey(s))
  {
    var r := w.nodes[Actor(s)].resident;
    assert ResidentFits(r);
    match s
    case Receive(p, reachable) => HandleAdvances(p.dst, w.nodes[p.dst], p, reachable);
    case Fire(me, key) => TurnAdvances(me, r, key, OtherEvent(""));
    case Yield(me, key, event) => TurnAdvances(me, r, key, event);
    case Finish(me, key) => TurnAdvances(me, r, key, OtherEvent(""));
    case Throw(me, key) => TurnAdvances(me, r, key, OtherEvent(""));
    case Crash(me, midway) => CrashAdvances(me, r, midway);
    case _ =>
  }

  lemma ResidentAdvances(r: Resident, r': Resident, key: Key)
    requires TouchesOnly(r, r', key) && AdvancesAt(r, r', key) && JournalContinues(r.journal, r'.journal)
    ensures JournalAdvances(r.journal, r'.journal)
  {
  }

  lemma EffectAdvances(w: World, me: Peer, e: NodeEffect, key: Key)
    requires me in w.nodes && JournalsContinue(w, Commit(w, me, e))
    requires TouchesOnly(w.nodes[me].resident, e.node.resident, key)
    requires AdvancesAt(w.nodes[me].resident, e.node.resident, key)
    ensures JournalsAdvance(w, Commit(w, me, e))
  {
    var w' := Commit(w, me, e);
    assert w'.nodes[me].resident == e.node.resident;
    assert JournalContinues(w.nodes[me].resident.journal, w'.nodes[me].resident.journal);
    ResidentAdvances(w.nodes[me].resident, e.node.resident, key);
  }

  predicate IsOpenStart(w: World, s: Step) {
    Actor(s) in w.nodes && StartsOpen(w.nodes[Actor(s)].resident, s)
  }

  /** A step moves every entry forward, if and only if it is not the start of a finished attempt. */
  lemma StepAdvancesExactly(w: World, s: Step)
    requires AttemptsInvariant(w) && Possible(w, s)
    ensures JournalsAdvance(w, Apply(w, s)) <==> IsOpenStart(w, s)
  {
    var me, w' := Actor(s), Apply(w, s);
    var r, r' := w.nodes[me].resident, w'.nodes[me].resident;
    if IsOpenStart(w, s) {
      StepKeepsAttempts(w, s);
      ActTouchesOnly(w, s);
      ActAdvances(w, s);
      EffectAdvances(w, me, Act(w, s), StepKey(s));
    } else {
      LateStartActs(w, s, LateHook(s).value);
      assert JournalsAdvance(w, w') ==> JournalAdvances(r.journal, r'.journal);
    }
  }

  lemma JournalsAdvanceTransitive(a: World, b: World, c: World)
    requires JournalsAdvance(a, b) && JournalsAdvance(b, c)
    ensures JournalsAdvance(a, c)
  {
    forall n, key | n in a.nodes && key in a.nodes[n].resident.journal
      ensures n in c.nodes && key in c.nodes[n].resident.journal
      ensures Advances(a.nodes[n].resident.journal[key], c.nodes[n].resident.journal[key])
    {
      assert n in b.nodes && key in b.nodes[n].resident.journal;
      assert Advances(a.nodes[n].resident.journal[key], b.nodes[n].resident.journal[key]);
    }
  }

  lemma TraceStepAdvances(ws: seq<World>, rules: Rules, j: nat)
    requires Trace(ws, rules) && rules.openStarts && 0 < j < |ws|
    ensures JournalsAdvance(ws[j - 1], ws[j])
  {
    assert Next(ws[j - 1], ws[j - 1 + 1], rules);
    TraceKeepsAttempts(ws, rules, j - 1);
    var s :| Possible(ws[j - 1], s) && Allowed(ws[j - 1], s, rules) && ws[j] == Apply(ws[j - 1], s);
    StepAdvancesExactly(ws[j - 1], s);
  }

  /** In every run in which no late start meets a finished attempt, a journal entry only moves
      forward: the states accepted, started and finished are passed in that order, and a finished
      entry keeps its state and its events. */
  lemma {:induction false} JournalNeverGoesBack(ws: seq<World>, rules: Rules, i: nat, j: nat)
    requires Trace(ws, rules) && rules.openStarts && i <= j < |ws|
    ensures JournalsAdvance(ws[i], ws[j])
    decreases j - i
  {
    if i == j {
      JournalsAdvanceRefl(ws[i]);
    } else {
      JournalNeverGoesBack(ws, rules, i, j - 1);
      TraceStepAdvances(ws, rules, j);
      JournalsAdvanceTransitive(ws[i], ws[j - 1], ws[j]);
    }
  }

  lemma JournalsAdvanceRefl(w: World)
    ensures JournalsAdvance(w, w)
  {
  }

  /** In a run with any adapters: no step moves a journal entry back, if and only if no late start
      meets a finished attempt. */
  lemma JournalGoesForwardExactly(ws: seq<World>, ss: seq<Step>)
    requires IsRun(ws, ss)
    ensures (forall i | 0 <= i < |ss| :: JournalsAdvance(ws[i], ws[i + 1])) <==> (forall i | 0 <= i < |ss| :: IsOpenStart(ws[i], ss[i]))
  {
    if forall i | 0 <= i < |ss| :: IsOpenStart(ws[i], ss[i]) {
      forall i | 0 <= i < |ss| ensures JournalsAdvance(ws[i], ws[i + 1]) {
        OneStepExactly(ws, ss, i);
      }
    }
    if forall i | 0 <= i < |ss| :: JournalsAdvance(ws[i], ws[i + 1]) {
      forall i | 0 <= i < |ss| ensures IsOpenStart(ws[i], ss[i]) {
        OneStepExactly(ws, ss, i);
      }
    }
  }

  lemma OneStepExactly(ws: seq<World>, ss: seq<Step>, i: nat)
    requires IsRun(ws, ss) && i < |ss|
    ensures JournalsAdvance(ws[i], ws[i + 1]) <==> IsOpenStart(ws[i], ss[i])
  {
    RunKeepsStarts(ws, ss, i);
    assert Possible(ws[i], ss[i]) && ws[i + 1] == Apply(ws[i], ss[i]);
    StepAdvancesExactly(ws[i], ss[i]);
  }
}
