/** What holds of every attempt in every run, whatever adapters do: at most two turns are begun,
    one after the other, and an entry that is past accepted never is accepted again. */
module ResidencyAttempts {
  import opened ResidencyProtocol
  import opened ResidencyWorld
  import opened ResidencyFrame

  /** A running turn is the last one begun, its attempt is not finished, and a first turn that has
      not started leaves its attempt accepted. */
  predicate RunsRight(turn: Turn, attempt: Attempt) {
    && 0 < turn.number == attempt.count
    && (attempt.state.Accepted? || attempt.state.Started?)
    && (turn.started ==> attempt.state == Started)
    && (turn.number == 1 && !turn.started ==> attempt.state == Accepted)
  }

  /** A turn that has ended was begun before the one that runs. */
  predicate HookFits(r: Resident, hook: Hook) {
    && hook.key in r.journal && 0 < hook.number <= r.journal[hook.key].count
    && (hook.key in r.running ==> hook.number < r.journal[hook.key].count)
  }

  predicate HooksFit(r: Resident) {
    forall hook | hook in r.ended :: HookFits(r, hook)
  }

  predicate ResidentFits(r: Resident) {
    && HooksFit(r)
    && r.active <= r.journal.Keys
    && r.running.Keys <= r.active
    && (forall key | key in r.running :: RunsRight(r.running[key], r.journal[key]))
    && (forall key | key in r.journal :: r.journal[key].count <= 2)
  }

  /** How one journal entry may change over time. */
  predicate Continues(a: Attempt, b: Attempt) {
    && b.request == a.request
    && (a.state != Accepted ==> b.state != Accepted && b.count == a.count)
    && a.count <= b.count
    && a.acked <= b.acked
  }

  /** The numbers of the turns begun for an attempt, in the order they were begun. */
  function Begins(facts: seq<Fact>, host: Peer, key: Key): seq<nat> {
    if facts == [] then []
    else
      var last := facts[|facts| - 1];
      Begins(facts[..|facts| - 1], host, key)
      + if last.Begun? && last.host == host && last.key == key then [last.number] else []
  }

  lemma BeginsConcat(a: seq<Fact>, b: seq<Fact>, host: Peer, key: Key)
    ensures Begins(a + b, host, key) == Begins(a, host, key) + Begins(b, host, key)
  {
    if b == [] {
      assert a + b == a;
    } else {
      assert (a + b)[..|a + b| - 1] == a + b[..|b| - 1];
      BeginsConcat(a, b[..|b| - 1], host, key);
    }
  }

  function UpTo(count: nat): seq<nat> {
    seq(count, i => i + 1)
  }

  ghost predicate BeginsInOrder(facts: seq<Fact>, host: Peer, key: Key, journal: map<Key, Attempt>) {
    Begins(facts, host, key) == UpTo(CountOf(journal, key))
  }

  ghost predicate AttemptsInvariant(w: World) {
    && (forall n | n in w.nodes :: ResidentFits(w.nodes[n].resident))
    && (forall n, key | n in w.nodes :: BeginsInOrder(w.facts, n, key, w.nodes[n].resident.journal))
  }

  predicate NoneBegun(facts: seq<Fact>) {
    forall f | f in facts :: !f.Begun?
  }

  // ---------------------------------------------------------------- one step

  /** What a step may do to the entry and the turn it is about, and what it records. */
  predicate FitsAt(me: Peer, r: Resident, r': Resident, key: Key, facts: seq<Fact>) {
    && (key in r'.running ==> key in r'.active && key in r'.journal && RunsRight(r'.running[key], r'.journal[key]))
    && (key in r'.active ==> key in r'.journal)
    && (key in r.journal ==> key in r'.journal && Continues(r.journal[key], r'.journal[key]))
    && CountOf(r'.journal, key) <= 2
    && if facts != [] && facts[0].Begun? then
         facts == [Begun(me, key, CountOf(r'.journal, key))] && CountOf(r'.journal, key) == CountOf(r.journal, key) + 1
       else
         NoneBegun(facts) && CountOf(r'.journal, key) == CountOf(r.journal, key)
  }

  lemma BeginFits(me: Peer, r: Resident, key: Key, request: Request)
    requires ResidentFits(r) && key !in r.active && CountOf(r.journal, key) < 2
    requires key in r.journal ==> r.journal[key].state == Accepted
    ensures var e := BeginTurn(me, r.(journal := Ensure(r.journal, key, request)), key, request);
            FitsAt(me, r, e.resident, key, e.facts)
  {
  }

  lemma AcceptFits(me: Peer, r: Resident, home: Peer, request: Request)
    requires ResidentFits(r)
    ensures var e := AcceptDelivery(me, r, home, request);
            FitsAt(me, r, e.resident, Key(home, request.rpc), e.facts)
  {
    var key := Key(home, request.rpc);
    assert key in r.journal ==> r.journal[key].count <= 2;
    assert key in r.running ==> RunsRight(r.running[key], r.journal[key]);
    if key !in r.active && CountOf(r.journal, key) < 2 && (key in r.journal ==> r.journal[key].state == Accepted) {
      BeginFits(me, r, key, request);
    }
  }

  lemma TurnFits(me: Peer, r: Resident, key: Key, event: WireEvent)
    requires ResidentFits(r) && Running(r, key)
    ensures var e := FireTurn(me, r, key); FitsAt(me, r, e.resident, key, e.facts)
    ensures var e := YieldEvent(me, r, key, event); FitsAt(me, r, e.resident, key, e.facts)
  {
    assert RunsRight(r.running[key], r.journal[key]);
    assert FireTurn(me, r, key).resident.journal[key].count == r.journal[key].count;
    assert YieldEvent(me, r, key, event).resident.journal[key].count == r.journal[key].count;
  }

  lemma EndFits(me: Peer, r: Resident, key: Key)
    requires ResidentFits(r) && Running(r, key)
    ensures var e := FinishTurn(me, r, key); FitsAt(me, r, e.resident, key, e.facts)
    ensures var e := ThrowTurn(me, r, key); FitsAt(me, r, e.resident, key, e.facts)
    ensures FitsAt(me, r, EndTurn(r, key), key, [])
  {
    assert RunsRight(r.running[key], r.journal[key]);
  }

  lemma LateFireFits(me: Peer, r: Resident, hook: Hook)
    requires ResidentFits(r) && IsHeld(r, hook)
    ensures var e := FireLate(me, r, hook); FitsAt(me, r, e.resident, hook.key, e.facts)
  {
    assert HookFits(r, hook);
    assert hook.key in r.running ==> RunsRight(r.running[hook.key], r.journal[hook.key]);
    assert FireLate(me, r, hook).resident.journal[hook.key].count == r.journal[hook.key].count;
  }

  lemma SettleFits(me: Peer, r: Resident, key: Key)
    requires ResidentFits(r) && key !in r.running
    ensures FitsAt(me, r, r.(active := r.active - {key}), key, [])
  {
    assert key in r.journal ==> r.journal[key].count <= 2;
  }

  lemma NothingFits(me: Peer, r: Resident, key: Key, facts: seq<Fact>)
    requires ResidentFits(r) && HomeFacts(facts)
    ensures FitsAt(me, r, r, key, facts)
  {
    assert key in r.journal ==> r.journal[key].count <= 2;
    assert key in r.running ==> RunsRight(r.running[key], r.journal[key]);
    assert facts != [] ==> facts[0] in facts;
  }

  lemma AckFits(me: Peer, r: Resident, home: Peer, rpc: RpcId, upTo: int)
    requires ResidentFits(r)
    ensures var e := AcknowledgeEvent(me, r, home, rpc, upTo); FitsAt(me, r, e.resident, Key(home, rpc), e.facts)
  {
    var key := Key(home, rpc);
    assert key in r.journal ==> r.journal[key].count <= 2;
    assert key in r.running ==> RunsRight(r.running[key], r.journal[key]);
  }

  lemma CrashFits(me: Peer, r: Resident, midway: Midway)
    requires ResidentFits(r) && MidwayPossible(r, midway)
    ensures var e := Remains(me, r, midway); FitsAt(me, r, e.resident, MidwayKey(midway), e.facts)
  {
    var key := MidwayKey(midway);
    assert key in r.journal ==> r.journal[key].count <= 2;
  }

  lemma HandleFits(me: Peer, n: Node, p: Packet, reachable: set<Peer>)
    requires ResidentFits(n.resident)
    ensures var e := Handle(me, n, p.src, p.message, reachable);
            FitsAt(me, n.resident, e.node.resident, StepKey(Receive(p, reachable)), e.facts)
  {
    var key := StepKey(Receive(p, reachable));
    match p.message {
      case Deliver(request) => AcceptFits(me, n.resident, p.src, request);
      case RunEventAck(rpc, upTo) => AckFits(me, n.resident, p.src, rpc, upTo);
      case _ =>
        HomeHandlingFacts(me, n, p.src, p.message, reachable);
        NothingFits(me, n.resident, key, Handle(me, n, p.src, p.message, reachable).facts);
    }
  }

  lemma ActFits(w: World, s: Step)
    requires Possible(w, s) && ResidentFits(w.nodes[Actor(s)].resident)
    ensures FitsAt(Actor(s), w.nodes[Actor(s)].resident, Act(w, s).node.resident, StepKey(s), Act(w, s).facts)
  {
    var me := Actor(s);
    var r := w.nodes[me].resident;
    match s
    case Receive(p, reachable) => HandleFits(me, w.nodes[me], p, reachable);
    case Fire(_, key) => TurnFits(me, r, key, OtherEvent(""));
    case LateFire(_, hook) => LateFireFits(me, r, hook);
    case Yield(_, key, event) => TurnFits(me, r, key, event);
    case Finish(_, key) => EndFits(me, r, key);
    case Throw(_, key) => EndFits(me, r, key);
    case SpawnFails(_, key) => EndFits(me, r, key);
    case Settle(_, key) => SettleFits(me, r, key);
    case Crash(_, midway) => CrashFits(me, r, midway);
    case _ => NothingFits(me, r, StepKey(s), Act(w, s).facts);
  }

  // ---------------------------------------------------------------- every step keeps it

  lemma ResidentStaysFit(me: Peer, r: Resident, r': Resident, key: Key, facts: seq<Fact>)
    requires ResidentFits(r) && TouchesOnly(r, r', key) && FitsAt(me, r, r', key, facts)
    ensures ResidentFits(r')
  {
    HooksStayFit(me, r, r', key, facts);
  }

  lemma HooksStayFit(me: Peer, r: Resident, r': Resident, key: Key, facts: seq<Fact>)
    requires ResidentFits(r) && TouchesOnly(r, r', key) && FitsAt(me, r, r', key, facts)
    ensures HooksFit(r')
  {
    forall hook | hook in r'.ended ensures HookFits(r', hook) {
      if hook in r.ended {
        assert HookFits(r, hook);
      } else {
        assert hook == HookOf(key, r.running[key]) && RunsRight(r.running[key], r.journal[key]);
      }
    }
  }

  lemma NoBegins(facts: seq<Fact>, host: Peer, key: Key)
    requires NoneBegun(facts)
    ensures Begins(facts, host, key) == []
  {
    if facts != [] {
      assert facts[|facts| - 1] in facts;
      NoBegins(facts[..|facts| - 1], host, key);
    }
  }

  lemma OneBegin(f: Fact, host: Peer, key: Key)
    ensures Begins([f], host, key) == if f.Begun? && f.host == host && f.key == key then [f.number] else []
  {
    assert [f][..0] == [];
  }

  lemma OwnBegins(past: seq<Fact>, me: Peer, r: Resident, r': Resident, key: Key, facts: seq<Fact>)
    requires BeginsInOrder(past, me, key, r.journal) && FitsAt(me, r, r', key, facts)
    ensures BeginsInOrder(past + facts, me, key, r'.journal)
  {
    BeginsConcat(past, facts, me, key);
    if facts != [] && facts[0].Begun? {
      OneBegin(facts[0], me, key);
      var count := CountOf(r'.journal, key);
      assert UpTo(count) == UpTo(count - 1) + [count];
    } else {
      NoBegins(facts, me, key);
    }
  }

  lemma OtherBegins(past: seq<Fact>, me: Peer, r: Resident, r': Resident, key: Key, facts: seq<Fact>, n: Peer, k: Key)
    requires FitsAt(me, r, r', key, facts) && (n != me || k != key)
    ensures Begins(past + facts, n, k) == Begins(past, n, k)
  {
    BeginsConcat(past, facts, n, k);
    if facts != [] && facts[0].Begun? {
      OneBegin(facts[0], n, k);
    } else {
      NoBegins(facts, n, k);
    }
  }

  predicate JournalContinues(a: map<Key, Attempt>, b: map<Key, Attempt>) {
    forall key | key in a :: key in b && Continues(a[key], b[key])
  }

  ghost predicate JournalsContinue(w: World, w': World) {
    forall n | n in w.nodes ::
      n in w'.nodes && JournalContinues(w.nodes[n].resident.journal, w'.nodes[n].resident.journal)
  }

  lemma JournalGoesOn(me: Peer, r: Resident, r': Resident, key: Key, facts: seq<Fact>)
    requires TouchesOnly(r, r', key) && FitsAt(me, r, r', key, facts)
    ensures JournalContinues(r.journal, r'.journal)
  {
  }

  lemma EffectBegins(w: World, me: Peer, e: NodeEffect, key: Key, n: Peer, k: Key)
    requires me in w.nodes && n in w.nodes && BeginsInOrder(w.facts, n, k, w.nodes[n].resident.journal)
    requires TouchesOnly(w.nodes[me].resident, e.node.resident, key)
    requires FitsAt(me, w.nodes[me].resident, e.node.resident, key, e.facts)
    ensures BeginsInOrder(w.facts + e.facts, n, k, if n == me then e.node.resident.journal else w.nodes[n].resident.journal)
  {
    if n == me && k == key {
      OwnBegins(w.facts, me, w.nodes[me].resident, e.node.resident, key, e.facts);
    } else {
      OtherBegins(w.facts, me, w.nodes[me].resident, e.node.resident, key, e.facts, n, k);
    }
  }

  lemma EffectKeepsAttempts(w: World, me: Peer, e: NodeEffect, key: Key)
    requires AttemptsInvariant(w) && me in w.nodes
    requires TouchesOnly(w.nodes[me].resident, e.node.resident, key)
    requires FitsAt(me, w.nodes[me].resident, e.node.resident, key, e.facts)
    ensures AttemptsInvariant(Commit(w, me, e)) && JournalsContinue(w, Commit(w, me, e))
  {
    var w' := Commit(w, me, e);
    ResidentStaysFit(me, w.nodes[me].resident, e.node.resident, key, e.facts);
    JournalGoesOn(me, w.nodes[me].resident, e.node.resident, key, e.facts);
    forall n, k | n in w'.nodes ensures BeginsInOrder(w'.facts, n, k, w'.nodes[n].resident.journal) {
      EffectBegins(w, me, e, key, n, k);
    }
  }

  lemma StepKeepsAttempts(w: World, s: Step)
    requires AttemptsInvariant(w) && Possible(w, s)
    ensures AttemptsInvariant(Apply(w, s)) && JournalsContinue(w, Apply(w, s))
  {
    ActTouchesOnly(w, s);
    ActFits(w, s);
    EffectKeepsAttempts(w, Actor(s), Act(w, s), StepKey(s));
  }

  lemma StartKeepsAttempts(w: World)
    requires Initial(w)
    ensures AttemptsInvariant(w)
  {
    assert UpTo(0) == [];
  }

  lemma {:induction false} TraceKeepsAttempts(ws: seq<World>, rules: Rules, i: nat)
    requires Trace(ws, rules) && i < |ws|
    ensures AttemptsInvariant(ws[i])
    ensures i > 0 ==> JournalsContinue(ws[i - 1], ws[i])
  {
    if i == 0 {
      StartKeepsAttempts(ws[0]);
    } else {
      TraceKeepsAttempts(ws, rules, i - 1);
      assert Next(ws[i - 1], ws[i - 1 + 1], rules);
      var s :| Possible(ws[i - 1], s) && Allowed(ws[i - 1], s, rules) && ws[i] == Apply(ws[i - 1], s);
      StepKeepsAttempts(ws[i - 1], s);
    }
  }

  // ---------------------------------------------------------------- main results

  /** In every run, whatever adapters do, at most two turns of an attempt are ever begun, the first
      before the second. */
  lemma AtMostTwoTurnsBegin(ws: seq<World>, rules: Rules, i: nat, host: Peer, key: Key)
    requires Trace(ws, rules) && i < |ws| && host in ws[i].nodes
    ensures Begins(ws[i].facts, host, key) <= [1, 2]
  {
    TraceKeepsAttempts(ws, rules, i);
    assert BeginsInOrder(ws[i].facts, host, key, ws[i].nodes[host].resident.journal);
    assert CountOf(ws[i].nodes[host].resident.journal, key) <= 2;
    assert UpTo(0) == [] && UpTo(1) == [1] && UpTo(2) == [1, 2];
  }

  lemma JournalsContinueTransitive(a: World, b: World, c: World)
    requires JournalsContinue(a, b) && JournalsContinue(b, c)
    ensures JournalsContinue(a, c)
  {
    forall n | n in a.nodes
      ensures n in c.nodes && JournalContinues(a.nodes[n].resident.journal, c.nodes[n].resident.journal)
    {
      assert n in b.nodes && JournalContinues(a.nodes[n].resident.journal, b.nodes[n].resident.journal);
      assert JournalContinues(b.nodes[n].resident.journal, c.nodes[n].resident.journal);
      ContinuesTransitive(a.nodes[n].resident.journal, b.nodes[n].resident.journal, c.nodes[n].resident.journal);
    }
  }

  lemma ContinuesTransitive(a: map<Key, Attempt>, b: map<Key, Attempt>, c: map<Key, Attempt>)
    requires JournalContinues(a, b) && JournalContinues(b, c)
    ensures JournalContinues(a, c)
  {
    forall key | key in a ensures key in c && Continues(a[key], c[key]) {
      assert key in b && Continues(a[key], b[key]) && Continues(b[key], c[key]);
    }
  }

  /** In every run, whatever adapters do, an entry that is past accepted never is accepted again
      and begins no further turn, and turn counts and acknowledgements never fall. */
  lemma {:induction false} NeverAcceptedAgain(ws: seq<World>, rules: Rules, i: nat, j: nat)
    requires Trace(ws, rules) && i <= j < |ws|
    ensures JournalsContinue(ws[i], ws[j])
    decreases j - i
  {
    if i == j {
    } else {
      NeverAcceptedAgain(ws, rules, i, j - 1);
      TraceKeepsAttempts(ws, rules, j);
      JournalsContinueTransitive(ws[i], ws[j - 1], ws[j]);
    }
  }
}
