/** The main results about the resident attempt protocol: what a home's stream holds, exactly when
    everything sent is what the log holds, and when the home forgets. */
module ResidencyResults {
  import opened ResidencyProtocol
  import opened ResidencyWorld
  import opened ResidencyFrame
  import opened ResidencyTurns
  import opened ResidencyChannel
  import opened ResidencyPromise

  /** Either no event is appended behind an unfinished record, or adapters report a start before
      the first event; late starts may be whatever they are. */
  predicate KeepsLogs(rules: Rules) {
    rules.cleanAppends || rules.startsFirst
  }

  ghost predicate Holds(w: World, rules: Rules) {
    ChannelInvariant(w) && (rules.startsFirst ==> TidyWorld(w))
  }

  lemma StepHolds(w: World, s: Step, rules: Rules)
    requires Holds(w, rules) && KeepsLogs(rules) && Possible(w, s) && Allowed(w, s, rules)
    ensures Holds(Apply(w, s), rules) && LogsGrow(w, Apply(w, s))
    ensures AppendsCleanly(w.nodes[Actor(s)].resident, s)
  {
    if rules.startsFirst { PromisedStepIsClean(w, s); }
    StepKeepsChannel(w, s);
  }

  lemma {:induction false} TraceKeepsChannel(ws: seq<World>, rules: Rules, i: nat)
    requires Trace(ws, rules) && KeepsLogs(rules) && i < |ws|
    ensures Holds(ws[i], rules)
  {
    if i > 0 {
      TraceKeepsChannel(ws, rules, i - 1);
      assert Next(ws[i - 1], ws[i - 1 + 1], rules);
      var s :| Possible(ws[i - 1], s) && Allowed(ws[i - 1], s, rules) && ws[i] == Apply(ws[i - 1], s);
      StepHolds(ws[i - 1], s, rules);
    }
  }

  /** `pushed` is the part of the resident's log that starts at `start`. */
  predicate IsLogSlice(w: World, host: Peer, home: Peer, rpc: RpcId, start: nat, pushed: seq<WireEvent>) {
    pushed == [] ||
    (host in w.nodes && Key(home, rpc) in w.nodes[host].resident.journal &&
     var log := w.nodes[host].resident.journal[Key(home, rpc)].log;
     start + |pushed| <= |log| && pushed == log[start..start + |pushed|])
  }

  lemma SliceIsLogSlice(w: World, host: Peer, home: Peer, rpc: RpcId, start: nat, pushed: seq<WireEvent>)
    requires Slice(w, host, home, rpc, start, pushed)
    ensures IsLogSlice(w, host, home, rpc, start, pushed)
  {
    if pushed != [] {
      assert Logged(w, host, home, rpc, start + (|pushed| - 1), pushed[|pushed| - 1]);
      var log := w.nodes[host].resident.journal[Key(home, rpc)].log;
      forall i | 0 <= i < |pushed| ensures log[start..start + |pushed|][i] == pushed[i] {
        assert Logged(w, host, home, rpc, start + i, pushed[i]);
      }
    }
  }

  /** In every such run, at every moment, an open stream has received exactly the resident's log
      from the requested start up to the next index, in order, without gap or repeat. */
  lemma OpenStreamIsLogSlice(ws: seq<World>, rules: Rules, i: nat, me: Peer, rpc: RpcId)
    requires Trace(ws, rules) && KeepsLogs(rules) && i < |ws|
    requires me in ws[i].nodes && rpc in ws[i].nodes[me].home.pending
    ensures var p := ws[i].nodes[me].home.pending[rpc];
            p.next == p.start + |p.pushed| && IsLogSlice(ws[i], p.host, me, rpc, p.start, p.pushed)
  {
    TraceKeepsChannel(ws, rules, i);
    var p := ws[i].nodes[me].home.pending[rpc];
    assert CallLogged(ws[i], me, rpc, p);
    SliceIsLogSlice(ws[i], p.host, me, rpc, p.start, p.pushed);
  }

  /** The same for every stream that ever ended; one that ended as complete holds a
      `run.completed`. */
  lemma EndedStreamIsLogSlice(ws: seq<World>, rules: Rules, i: nat, f: Fact)
    requires Trace(ws, rules) && KeepsLogs(rules) && i < |ws| && f in ws[i].facts && f.Closed?
    ensures IsLogSlice(ws[i], f.host, f.home, f.rpc, f.start, f.pushed)
    ensures f.how == EndedComplete ==> HasCompletion(f.pushed)
  {
    TraceKeepsChannel(ws, rules, i);
    assert FactLogged(ws[i], f);
    SliceIsLogSlice(ws[i], f.host, f.home, f.rpc, f.start, f.pushed);
  }

  // ---------------------------------------------------------------- exactly these runs

  /** An event that was ever sent under an index is what the log holds there. */
  predicate SentIsLogged(w: World) {
    forall p | p in w.net && p.message.RunEvent? ::
      Logged(w, p.src, p.dst, p.message.rpc, p.message.index, p.message.event)
  }

  predicate IsCleanStep(w: World, s: Step) {
    Actor(s) in w.nodes && AppendsCleanly(w.nodes[Actor(s)].resident, s)
  }

  /** An emission behind an unfinished record sends an event that the log does not hold. */
  lemma UncleanEmission(me: Peer, r: Resident, key: Key, event: WireEvent)
    requires key in r.journal && r.journal[key].tail != Clean
    ensures var e := EmitEvent(me, r, key, event);
            && Packet(me, key.home, RunEvent(key.rpc, |r.journal[key].log|, event)) in e.sends
            && |e.resident.journal[key].log| <= |r.journal[key].log|
  {
  }

  predicate SendsUnlogged(me: Peer, key: Key, e: ResidentEffect) {
    && key in e.resident.journal
    && exists p :: p in e.sends && p.message.RunEvent? && p.src == me && Key(p.dst, p.message.rpc) == key
                   && |e.resident.journal[key].log| <= p.message.index
  }

  lemma UncleanEventIsUnlogged(me: Peer, before: Resident, key: Key, event: WireEvent, e: ResidentEffect)
    requires key in before.journal && before.journal[key].tail != Clean
    requires e.resident == EmitEvent(me, before, key, event).resident && e.sends == EmitEvent(me, before, key, event).sends
    ensures SendsUnlogged(me, key, e)
  {
    UncleanEmission(me, before, key, event);
    assert Key(key.home, key.rpc) == key;
  }

  lemma UnloggedBreaks(w: World, me: Peer, key: Key, e: ResidentEffect)
    requires me in w.nodes && SendsUnlogged(me, key, e)
    ensures !SentIsLogged(Commit(w, me, OfResident(w.nodes[me], e)))
  {
    var p :| p in e.sends && p.message.RunEvent? && p.src == me && Key(p.dst, p.message.rpc) == key
             && |e.resident.journal[key].log| <= p.message.index;
    assert p in Commit(w, me, OfResident(w.nodes[me], e)).net;
  }

  /** A cut append that joins a whole record takes that record away. */
  lemma UncleanCutBreaks(a: Attempt, event: WireEvent, cut: Tail)
    requires cut != Clean && a.tail == Unterminated && a.log != []
    ensures !(a.log <= a.AppendCut(event, cut).log)
  {
  }

  lemma UncleanCutIsSeen(w: World, me: Peer, midway: Midway)
    requires Possible(w, Crash(me, midway)) && !AppendsCleanly(w.nodes[me].resident, Crash(me, midway))
    ensures !LogsGrow(w, Apply(w, Crash(me, midway)))
  {
    var r := w.nodes[me].resident;
    var key := MidwayKey(midway);
    var r' := Apply(w, Crash(me, midway)).nodes[me].resident;
    match midway
    case WhileFiring(_, cut) =>
      UncleanCutBreaks(r.journal[key].(state := Started), StartedEvent(r.running[key].request), cut);
    case WhileFiringLate(hook, cut) =>
      UncleanCutBreaks(r.journal[key].(state := Started), StartedEvent(hook.request), cut);
    case WhileYielding(_, event, cut) => UncleanCutBreaks(r.journal[key], event, cut);
    case _ =>
  }

  lemma UncleanStepBreaks(w: World, s: Step)
    requires Possible(w, s) && !IsCleanStep(w, s)
    ensures !(LogsGrow(w, Apply(w, s)) && SentIsLogged(Apply(w, s)))
  {
    var r := w.nodes[Actor(s)].resident;
    match s
    case Fire(me, key) =>
      var turn := r.running[key];
      var before := SetState(r.(running := r.running[key := turn.(started := true)]), key, Started);
      UncleanEventIsUnlogged(me, before, key, StartedEvent(turn.request), FireTurn(me, r, key));
      UnloggedBreaks(w, me, key, FireTurn(me, r, key));
    case LateFire(me, hook) =>
      UncleanEventIsUnlogged(me, SetState(r, hook.key, Started), hook.key, StartedEvent(hook.request), FireLate(me, r, hook));
      UnloggedBreaks(w, me, hook.key, FireLate(me, r, hook));
    case Yield(me, key, event) =>
      var turn := r.running[key];
      var before := r.(running := r.running[key := turn.(completed := turn.completed || event.RunCompleted?)]);
      UncleanEventIsUnlogged(me, before, key, event, YieldEvent(me, r, key, event));
      UnloggedBreaks(w, me, key, YieldEvent(me, r, key, event));
    case Crash(me, midway) => UncleanCutIsSeen(w, me, midway);
    case _ =>
  }

  predicate LogsHold(w: World, w': World) {
    LogsGrow(w, w') && SentIsLogged(w')
  }

  lemma {:induction false} CleanRunKeepsChannel(ws: seq<World>, ss: seq<Step>, i: nat)
    requires IsRun(ws, ss) && i < |ws| && forall j | 0 <= j < i :: IsCleanStep(ws[j], ss[j])
    ensures ChannelInvariant(ws[i])
  {
    if i > 0 {
      CleanRunKeepsChannel(ws, ss, i - 1);
      assert IsCleanStep(ws[i - 1], ss[i - 1]) && ws[i - 1 + 1] == Apply(ws[i - 1], ss[i - 1]);
      StepKeepsChannel(ws[i - 1], ss[i - 1]);
    }
  }

  lemma ChannelIsLogged(w: World)
    requires ChannelInvariant(w)
    ensures SentIsLogged(w)
  {
    forall p | p in w.net && p.message.RunEvent?
      ensures Logged(w, p.src, p.dst, p.message.rpc, p.message.index, p.message.event)
    {
      assert PacketLogged(w, p);
    }
  }

  lemma CleanStepHolds(w: World, s: Step)
    requires ChannelInvariant(w) && Possible(w, s) && IsCleanStep(w, s)
    ensures LogsHold(w, Apply(w, s))
  {
    StepKeepsChannel(w, s);
    ChannelIsLogged(Apply(w, s));
  }

  /** In every run: no log ever loses an event, and every event ever sent is what the log holds
      under its index, if and only if every append is clean. */
  lemma SentIsLoggedExactly(ws: seq<World>, ss: seq<Step>)
    requires IsRun(ws, ss)
    ensures (forall i | 0 <= i < |ss| :: LogsHold(ws[i], ws[i + 1])) <==> (forall i | 0 <= i < |ss| :: IsCleanStep(ws[i], ss[i]))
  {
    if forall i | 0 <= i < |ss| :: IsCleanStep(ws[i], ss[i]) {
      forall i | 0 <= i < |ss| ensures LogsHold(ws[i], ws[i + 1]) {
        CleanRunKeepsChannel(ws, ss, i);
        CleanStepHolds(ws[i], ss[i]);
      }
    }
    if forall i | 0 <= i < |ss| :: LogsHold(ws[i], ws[i + 1]) {
      forall i | 0 <= i < |ss| ensures IsCleanStep(ws[i], ss[i]) {
        assert LogsHold(ws[i], ws[i + 1]);
        if !IsCleanStep(ws[i], ss[i]) { UncleanStepBreaks(ws[i], ss[i]); }
      }
    }
  }

  // ---------------------------------------------------------------- what is forgotten

  /** The journal of `host` has completed the attempt and holds an ack of its last event. */
  predicate Settled(w: World, host: Peer, home: Peer, rpc: RpcId, last: int) {
    host in w.nodes &&
    var journal := w.nodes[host].resident.journal;
    Key(home, rpc) in journal &&
    var attempt := journal[Key(home, rpc)];
    attempt.state == Completed && last == |attempt.log| - 1 && last <= attempt.acked
  }

  lemma {:induction false} TakeEventsConfirmNothing(me: Peer, h: Home, from: Peer, rpc: RpcId, events: seq<Indexed>,
                                                    reachable: set<Peer>)
    ensures forall p | p in TakeEvents(me, h, from, rpc, events, reachable).sends :: !p.message.CompletionAck?
    decreases |events|
  {
    if events != [] {
      var first := TakeEvent(me, h, from, rpc, events[0].index, events[0].event, reachable);
      TakeEventsConfirmNothing(me, first.home, from, rpc, events[1..], reachable);
    }
  }

  lemma HandlingConfirms(me: Peer, n: Node, from: Peer, m: Message, reachable: set<Peer>, p: Packet)
    requires p in Handle(me, n, from, m, reachable).sends && p.message.CompletionAck?
    ensures m.RunEventAck? && p == Packet(me, from, CompletionAck(m.rpc, p.message.last))
    ensures p in AcknowledgeEvent(me, n.resident, from, m.rpc, m.upTo).sends
  {
    if m.Outcome? { TakeEventsConfirmNothing(me, n.home, from, m.rpc, m.events, reachable); }
  }

  /** A confirmation is sent only when the attempt is settled. */
  lemma ConfirmsSettled(w: World, s: Step, p: Packet)
    requires Possible(w, s) && p in Act(w, s).sends && p.message.CompletionAck?
    ensures Settled(Apply(w, s), p.src, p.dst, p.message.rpc, p.message.last)
  {
    if s.Receive? {
      HandlingConfirms(s.packet.dst, w.nodes[s.packet.dst], s.packet.src, s.packet.message, s.reachable, p);
    }
  }

  lemma {:induction false} ConfirmedWasSettled(ws: seq<World>, rules: Rules, i: nat, p: Packet) returns (j: nat)
    requires Trace(ws, rules) && i < |ws| && p in ws[i].net && p.message.CompletionAck?
    ensures j <= i && Settled(ws[j], p.src, p.dst, p.message.rpc, p.message.last)
  {
    assert i > 0;
    assert Next(ws[i - 1], ws[i - 1 + 1], rules);
    var s :| Possible(ws[i - 1], s) && Allowed(ws[i - 1], s, rules) && ws[i] == Apply(ws[i - 1], s);
    if p in ws[i - 1].net {
      j := ConfirmedWasSettled(ws, rules, i - 1, p);
    } else {
      ConfirmsSettled(ws[i - 1], s, p);
      j := i;
    }
  }

  lemma TakeEventsKeepsDone(me: Peer, h: Home, from: Peer, rpc: RpcId, events: seq<Indexed>, reachable: set<Peer>)
    ensures h.done.Keys <= TakeEvents(me, h, from, rpc, events, reachable).home.done.Keys
    decreases |events|
  {
    if events != [] {
      var first := TakeEvent(me, h, from, rpc, events[0].index, events[0].event, reachable);
      TakeEventsKeepsDone(me, first.home, from, rpc, events[1..], reachable);
    }
  }

  lemma HandleKeepsDone(me: Peer, n: Node, from: Peer, m: Message, reachable: set<Peer>)
    requires !m.CompletionAck?
    ensures n.home.done.Keys <= Handle(me, n, from, m, reachable).node.home.done.Keys
  {
    match m
    case Outcome(rpc, kind, events) => TakeEventsKeepsDone(me, n.home, from, rpc, events, reachable);
    case _ =>
  }

  lemma OnlyConfirmationsForget(w: World, s: Step, rpc: RpcId)
    requires Possible(w, s) && rpc in w.nodes[Actor(s)].home.done && !s.Crash?
    requires rpc !in Act(w, s).node.home.done
    ensures s.Receive? && s.packet.message.CompletionAck? && s.packet.message.rpc == rpc
    ensures var c := w.nodes[Actor(s)].home.done[rpc];
            s.packet.src == c.host && s.packet.message.last == c.index
  {
    var n := w.nodes[Actor(s)];
    if s.Receive? && !s.packet.message.CompletionAck? {
      HandleKeepsDone(s.packet.dst, n, s.packet.src, s.packet.message, s.reachable);
    }
  }

  lemma SettledStays(w: World, w': World, host: Peer, home: Peer, rpc: RpcId, last: int)
    requires JournalsAdvance(w, w') && Settled(w, host, home, rpc, last)
    ensures Settled(w', host, home, rpc, last)
  {
    assert JournalAdvances(w.nodes[host].resident.journal, w'.nodes[host].resident.journal);
  }

  /** In every run, a home that stays up forgets a finished call only after the resident's journal
      was completed and acknowledged up to the last event, the one the home completed at; and if
      no late start meets a finished attempt, it still is. */
  lemma ForgetsOnlySettledCalls(ws: seq<World>, rules: Rules, i: nat, s: Step, me: Peer, rpc: RpcId)
    requires Trace(ws, rules) && i < |ws| && Possible(ws[i], s)
    requires me in ws[i].nodes && rpc in ws[i].nodes[me].home.done
    requires rpc !in Apply(ws[i], s).nodes[me].home.done && !s.Crash?
    ensures var c := ws[i].nodes[me].home.done[rpc];
            && (exists j: nat :: j <= i && Settled(ws[j], c.host, me, rpc, c.index))
            && (rules.openStarts ==> Settled(ws[i], c.host, me, rpc, c.index))
  {
    assert Actor(s) == me;
    OnlyConfirmationsForget(ws[i], s, rpc);
    var c := ws[i].nodes[me].home.done[rpc];
    var j := ConfirmedWasSettled(ws, rules, i, s.packet);
    assert Settled(ws[j], c.host, me, rpc, c.index);
    if rules.openStarts {
      JournalNeverGoesBack(ws, rules, j, i);
      SettledStays(ws[j], ws[i], c.host, me, rpc, c.index);
    }
  }
}
