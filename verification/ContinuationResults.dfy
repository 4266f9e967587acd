/** What the online writer and the batch projection of a run's events agree on, when a writer
    rebuilt from the journal is the live one, and how rows relate to the room's messages. */
module ContinuationResults {
  import opened Basics
  import opened ContinuationModel

  // ---------------------------------------------------------------- restart transparency

  /** `assign` takes the oldest open compaction off the list, and `observe` then looks for the
      same row once more: it finds it if that row has a second compaction open. */
  predicate TakesTwo(w: Writer, e: Event) {
    && e.Timeline? && e.status.Finished? && e.target.None?
    && w.pending != [] && w.pending[0] in w.pending[1..]
  }

  lemma {:induction false} RemoveFirstFacts(rows: seq<RowId>, row: RowId)
    ensures row !in rows ==> RemoveFirst(rows, row) == rows
    ensures row in rows ==> |RemoveFirst(rows, row)| == |rows| - 1
  {
    if rows != [] { RemoveFirstFacts(rows[1..], row); }
  }

  /** One assignment leaves exactly the state that observing the journaled event leaves, except
      when it takes two open compactions off the list for one completion. */
  lemma AssignmentIsObservation(w: Writer, e: Event, latest: RowId, nextId: RowId)
    ensures var a := Assign(w, e, latest, nextId);
            (a.writer == Observe(w, a.event)) <==> !TakesTwo(w, e)
  {
    if e.Timeline? && e.status.Finished? && e.target.None? && w.pending != [] {
      RemoveFirstFacts(w.pending[1..], w.pending[0]);
    }
  }

  /** A writer rebuilt from the journal of the first `k` events is the live one. */
  predicate Rebuilt(root: RowId, inputs: seq<Input>, k: nat)
    requires k <= |inputs|
  {
    Run(root, inputs[..k]).writer == Replay(root, Run(root, inputs[..k]).journal)
  }

  predicate CompletesCleanly(root: RowId, inputs: seq<Input>, k: nat)
    requires k < |inputs|
  {
    !TakesTwo(Run(root, inputs[..k]).writer, inputs[k].event)
  }

  lemma RunStep(root: RowId, inputs: seq<Input>, k: nat)
    requires k < |inputs|
    ensures Run(root, inputs[..k + 1]) == Land(Run(root, inputs[..k]), inputs[k])
  {
    assert inputs[..k + 1][..k] == inputs[..k];
  }

  lemma JournalStep(root: RowId, journal: seq<Event>, e: Event)
    ensures Replay(root, journal + [e]) == Observe(Replay(root, journal), e)
    ensures Project(root, journal + [e]) == ProjectEvent(root, Project(root, journal), e)
  {
    assert (journal + [e])[..|journal + [e]| - 1] == journal;
  }

  lemma RebuiltStep(root: RowId, inputs: seq<Input>, k: nat)
    requires k < |inputs| && Rebuilt(root, inputs, k)
    ensures Rebuilt(root, inputs, k + 1) <==> CompletesCleanly(root, inputs, k)
  {
    RunStep(root, inputs, k);
    var before, i := Run(root, inputs[..k]), inputs[k];
    JournalStep(root, before.journal, Assign(before.writer, i.event, i.latest, i.nextId).event);
    AssignmentIsObservation(before.writer, i.event, i.latest, i.nextId);
  }

  predicate AlwaysRebuilt(root: RowId, inputs: seq<Input>, n: nat)
    requires n <= |inputs|
  {
    forall k | 0 <= k <= n :: Rebuilt(root, inputs, k)
  }

  predicate AlwaysClean(root: RowId, inputs: seq<Input>, n: nat)
    requires n <= |inputs|
  {
    forall k | 0 <= k < n :: CompletesCleanly(root, inputs, k)
  }

  lemma {:induction false} CleanRunIsRebuilt(root: RowId, inputs: seq<Input>, k: nat)
    requires k <= |inputs| && AlwaysClean(root, inputs, k)
    ensures Rebuilt(root, inputs, k)
  {
    if k == 0 {
      assert inputs[..0] == [];
    } else {
      CleanRunIsRebuilt(root, inputs, k - 1);
      RebuiltStep(root, inputs, k - 1);
    }
  }

  /** A restart at any point is invisible if and only if no completion ever took two open
      compactions off the list. */
  lemma RestartIsTransparent(root: RowId, inputs: seq<Input>, n: nat)
    requires n <= |inputs|
    ensures AlwaysRebuilt(root, inputs, n) <==> AlwaysClean(root, inputs, n)
  {
    if AlwaysRebuilt(root, inputs, n) {
      forall k | 0 <= k < n ensures CompletesCleanly(root, inputs, k) {
        assert Rebuilt(root, inputs, k) && Rebuilt(root, inputs, k + 1);
        RebuiltStep(root, inputs, k);
      }
    }
    if AlwaysClean(root, inputs, n) {
      forall k | 0 <= k <= n ensures Rebuilt(root, inputs, k) {
        CleanRunIsRebuilt(root, inputs, k);
      }
    }
  }

  lemma {:induction false} RunFromConcat(start: Live, a: seq<Input>, b: seq<Input>)
    ensures RunFrom(start, a + b) == RunFrom(RunFrom(start, a), b)
  {
    if b == [] {
      assert a + b == a;
    } else {
      assert (a + b)[..|a + b| - 1] == a + b[..|b| - 1];
      RunFromConcat(start, a, b[..|b| - 1]);
    }
  }

  /** Stopping the writer, rebuilding it from its journal and going on gives the same journal
      and the same new rows as never having stopped. */
  lemma RestartedRunContinues(root: RowId, inputs: seq<Input>, later: seq<Input>)
    requires AlwaysClean(root, inputs, |inputs|)
    ensures var stopped := Run(root, inputs);
            Run(root, inputs + later) == RunFrom(stopped.(writer := Replay(root, stopped.journal)), later)
  {
    RestartIsTransparent(root, inputs, |inputs|);
    assert inputs[..|inputs|] == inputs && Rebuilt(root, inputs, |inputs|);
    RunFromConcat(Live(Fresh(root), [], []), inputs, later);
  }

  function AssignedTo(w: Writer, i: Input): Option<RowId> {
    TargetOf(Assign(w, i.event, i.latest, i.nextId).event)
  }

  lemma RunOneMore(root: RowId, inputs: seq<Input>, i: Input)
    ensures Run(root, inputs + [i]) == Land(Run(root, inputs), i)
  {
    assert (inputs + [i])[..|inputs|] == inputs;
  }

  const OPEN := Input(Timeline(Loading, None), 1, 9)
  const CLOSE := Input(Timeline(Finished, None), 1, 9)
  const COMMIT := Input(RunItem(Commit, None, "", None), 2, 3)

  lemma TwoOpen()
    ensures Run(1, [OPEN, OPEN]).writer == Fresh(1).(pending := [1, 1])
    ensures Run(1, [OPEN, OPEN]).journal == [Timeline(Loading, Some(1)), Timeline(Loading, Some(1))]
  {
    RunOneMore(1, [], OPEN);
    RunOneMore(1, [OPEN], OPEN);
    assert [] + [OPEN] == [OPEN] && [OPEN] + [OPEN] == [OPEN, OPEN];
  }

  lemma NoneOpen()
    ensures Run(1, [OPEN, OPEN, CLOSE]).writer == Fresh(1)
    ensures Run(1, [OPEN, OPEN, CLOSE]).journal
         == [Timeline(Loading, Some(1)), Timeline(Loading, Some(1)), Timeline(Finished, Some(1))]
  {
    TwoOpen();
    RunOneMore(1, [OPEN, OPEN], CLOSE);
    assert [OPEN, OPEN] + [CLOSE] == [OPEN, OPEN, CLOSE];
    assert RemoveFirst([1, 1][1..], 1) == [];
  }

  /** Two compactions open on one row, one completed: the live writer files the next completion
      under the newest row, a rebuilt writer under the old one. */
  lemma RestartCanMoveARow()
    ensures !CompletesCleanly(1, [OPEN, OPEN, CLOSE, COMMIT], 2)
    ensures AssignedTo(Run(1, [OPEN, OPEN, CLOSE, COMMIT]).writer, CLOSE) == Some(3)
    ensures AssignedTo(Replay(1, Run(1, [OPEN, OPEN, CLOSE, COMMIT]).journal), CLOSE) == Some(1)
  {
    TwoOpen();
    NoneOpen();
    assert [OPEN, OPEN, CLOSE, COMMIT][..2] == [OPEN, OPEN];
    assert [OPEN, OPEN, CLOSE] + [COMMIT] == [OPEN, OPEN, CLOSE, COMMIT];
    RunOneMore(1, [OPEN, OPEN, CLOSE], COMMIT);
    assert Assign(Fresh(1), COMMIT.event, 2, 3).writer == Fresh(1).(current := 3);
    RebuiltKeepsOneOpen(Timeline(Loading, Some(1)), Timeline(Finished, Some(1)), RunItem(Commit, None, "", Some(3)));
    assert [Timeline(Loading, Some(1)), Timeline(Loading, Some(1)), Timeline(Finished, Some(1))]
      + [RunItem(Commit, None, "", Some(3))]
        == [Timeline(Loading, Some(1)), Timeline(Loading, Some(1)), Timeline(Finished, Some(1)),
            RunItem(Commit, None, "", Some(3))];
  }

  lemma RebuiltKeepsOneOpen(loading: Event, finished: Event, commit: Event)
    requires loading == Timeline(Loading, Some(1)) && finished == Timeline(Finished, Some(1))
    requires commit == RunItem(Commit, None, "", Some(3))
    ensures Replay(1, [loading, loading, finished, commit]) == Fresh(1).(pending := [1], current := 3)
  {
    JournalStep(1, [], loading);
    JournalStep(1, [loading], loading);
    JournalStep(1, [loading, loading], finished);
    JournalStep(1, [loading, loading, finished], commit);
    assert [] + [loading] == [loading] && [loading] + [loading] == [loading, loading];
    assert [loading, loading] + [finished] == [loading, loading, finished];
    assert [loading, loading, finished] + [commit] == [loading, loading, finished, commit];
    assert Replay(1, [loading, loading]) == Fresh(1).(pending := [1, 1]);
  }

  // ---------------------------------------------------------------- online and batch agree

  /** The writer's prose accumulators say what the projection says. */
  ghost predicate ProseAgrees(p: ProseState, q: Projection) {
    && p.streamed == q.raw && p.aggregate == q.aggregate
    && p.lastKind == q.lastKind && p.lastJournalKind == q.lastJournalKind
    && (forall row :: Lookup(p.visible, row, "") == Lookup(q.bodies, row, ""))
  }

  /** The `k`-th event of the journal adds no final text when it is projected. */
  predicate AddsNoFinalText(root: RowId, journal: seq<Event>, k: nat)
    requires k < |journal|
  {
    journal[k].RunCompleted? ==> |BatchResidual(Project(root, journal[..k]), journal[k])| == 0
  }

  ghost predicate Agrees(root: RowId, journal: seq<Event>, k: nat)
    requires k <= |journal|
  {
    ProseAgrees(Replay(root, journal[..k]).prose, Project(root, journal[..k]))
  }

  lemma ReferKeeps(p: Projection, row: RowId)
    ensures Refer(p, row).raw == p.raw && Refer(p, row).aggregate == p.aggregate
    ensures forall r :: Lookup(Refer(p, row).bodies, r, "") == Lookup(p.bodies, r, "")
  {
  }

  lemma EventAgrees(root: RowId, w: Writer, q: Projection, e: Event)
    requires w.root == root && ProseAgrees(w.prose, q)
    ensures ProseAgrees(Observe(w, e).prose, ProjectEvent(root, q, e))
       <==> (e.RunCompleted? ==> |BatchResidual(q, e)| == 0)
  {
    if !e.Untargetable? {
      var row := if e.target.Some? then e.target.value else root;
      var r := Refer(q, row);
      ReferKeeps(q, row);
      if e.RunCompleted? {
        assert BatchResidual(r, e) == BatchResidual(q, e);
        assert |r.aggregate + BatchResidual(r, e)| == |q.aggregate| + |BatchResidual(q, e)|;
      } else if e.RunItem? && ProseOf(e).Some? && |TextOf(e)| > 0 {
        TextAgrees(w.prose, r, row, ProseOf(e).value, TextOf(e));
      }
    }
  }

  lemma TextAgrees(p: ProseState, q: Projection, row: RowId, kind: Prose, text: string)
    requires ProseAgrees(p, q) && |text| > 0
    ensures ProseAgrees(AddProse(p, row, kind, text), ProjectText(q, row, kind, text))
  {
    var p', q' := AddProse(p, row, kind, text), ProjectText(q, row, kind, text);
    forall r ensures Lookup(p'.visible, r, "") == Lookup(q'.bodies, r, "") {
      assert Lookup(p.visible, r, "") == Lookup(q.bodies, r, "");
    }
  }

  lemma ReplayKeepsRoot(root: RowId, journal: seq<Event>)
    ensures Replay(root, journal).root == root
  {
  }

  lemma AgreesStep(root: RowId, journal: seq<Event>, k: nat)
    requires k < |journal| && Agrees(root, journal, k)
    ensures Agrees(root, journal, k + 1) <==> AddsNoFinalText(root, journal, k)
  {
    assert journal[..k + 1] == journal[..k] + [journal[k]];
    JournalStep(root, journal[..k], journal[k]);
    ReplayKeepsRoot(root, journal[..k]);
    EventAgrees(root, Replay(root, journal[..k]), Project(root, journal[..k]), journal[k]);
  }

  predicate NoFinalTextBefore(root: RowId, journal: seq<Event>, n: nat)
    requires n <= |journal|
  {
    forall k | 0 <= k < n :: AddsNoFinalText(root, journal, k)
  }

  ghost predicate AgreesThroughout(root: RowId, journal: seq<Event>, n: nat)
    requires n <= |journal|
  {
    forall k | 0 <= k <= n :: Agrees(root, journal, k)
  }

  lemma {:induction false} QuietJournalAgrees(root: RowId, journal: seq<Event>, k: nat)
    requires k <= |journal| && NoFinalTextBefore(root, journal, k)
    ensures Agrees(root, journal, k)
  {
    if k == 0 {
      assert journal[..0] == [];
    } else {
      QuietJournalAgrees(root, journal, k - 1);
      AgreesStep(root, journal, k - 1);
    }
  }

  /** The writer's text per row, its aggregate and its raw stream are those of the projection at
      every point of a journal if and only if no completion in it added final text. */
  lemma OnlineAgreesWithBatch(root: RowId, journal: seq<Event>, n: nat)
    requires n <= |journal|
    ensures AgreesThroughout(root, journal, n) <==> NoFinalTextBefore(root, journal, n)
  {
    if AgreesThroughout(root, journal, n) {
      forall k | 0 <= k < n ensures AddsNoFinalText(root, journal, k) {
        assert Agrees(root, journal, k) && Agrees(root, journal, k + 1);
        AgreesStep(root, journal, k);
      }
    }
    if NoFinalTextBefore(root, journal, n) {
      forall k | 0 <= k <= n ensures Agrees(root, journal, k) {
        QuietJournalAgrees(root, journal, k);
      }
    }
  }

  /** The list of open compactions is the only thing about which a live writer and a rebuilt one
      can differ. */
  predicate SameButPending(w: Writer, v: Writer) {
    w.(pending := []) == v.(pending := [])
  }

  lemma AssignmentIsObservationButPending(w: Writer, v: Writer, e: Event, latest: RowId, nextId: RowId)
    requires SameButPending(w, v)
    ensures var a := Assign(w, e, latest, nextId); SameButPending(a.writer, Observe(v, a.event))
  {
  }

  lemma {:induction false} LiveIsRebuiltButPending(root: RowId, inputs: seq<Input>)
    ensures SameButPending(Run(root, inputs).writer, Replay(root, Run(root, inputs).journal))
  {
    if inputs != [] {
      var before, i := inputs[..|inputs| - 1], inputs[|inputs| - 1];
      LiveIsRebuiltButPending(root, before);
      var l := Run(root, before);
      var a := Assign(l.writer, i.event, i.latest, i.nextId);
      JournalStep(root, l.journal, a.event);
      AssignmentIsObservationButPending(l.writer, Replay(root, l.journal), i.event, i.latest, i.nextId);
    }
  }

  /** The writer decides whether a completion still has text to show as the projection does. */
  lemma CompletionDecidedAlike(root: RowId, inputs: seq<Input>, e: Event)
    requires e.RunCompleted?
    requires NoFinalTextBefore(root, Run(root, inputs).journal, |Run(root, inputs).journal|)
    ensures WriterResidual(Run(root, inputs).writer, e) == BatchResidual(Project(root, Run(root, inputs).journal), e)
  {
    var journal := Run(root, inputs).journal;
    LiveIsRebuiltButPending(root, inputs);
    QuietJournalAgrees(root, journal, |journal|);
    assert journal[..|journal|] == journal;
  }

  lemma SubstantiveGrows(root: RowId, p: Projection, e: Event)
    ensures p.substantive <= ProjectEvent(root, p, e).substantive
  {
  }

  /** The event puts something to show into its row. */
  predicate Shows(p: Projection, e: Event) {
    match e
    case RunItem(itemType, _, _, _) => !itemType.ReasoningSummary?
    case Timeline(_, _) => true
    case RunCompleted(_, _, _) => |BatchResidual(p, e)| > 0
    case Untargetable(_) => false
  }

  function FiledUnder(root: RowId, e: Event): RowId {
    if TargetOf(e).Some? then TargetOf(e).value else root
  }

  lemma EventIsSubstantive(root: RowId, p: Projection, e: Event)
    ensures ProjectEvent(root, p, e).substantive == p.substantive + if Shows(p, e) then {FiledUnder(root, e)} else {}
  {
    ReferKeeps(p, FiledUnder(root, e));
  }

  predicate ShowsAt(root: RowId, journal: seq<Event>, row: RowId, m: int) {
    0 <= m < |journal| && FiledUnder(root, journal[m]) == row && Shows(Project(root, journal[..m]), journal[m])
  }

  /** A row has something to show exactly when some event filed under it put it there. */
  lemma {:induction false} SubstantiveExactly(root: RowId, journal: seq<Event>, row: RowId)
    ensures row in Project(root, journal).substantive <==> exists m :: ShowsAt(root, journal, row, m)
  {
    if journal != [] {
      var n := |journal| - 1;
      var shorter := journal[..n];
      SubstantiveExactly(root, shorter, row);
      EventIsSubstantive(root, Project(root, shorter), journal[n]);
      forall m | 0 <= m < n ensures ShowsAt(root, journal, row, m) <==> ShowsAt(root, shorter, row, m) {
        assert journal[..m] == shorter[..m];
      }
      assert ShowsAt(root, journal, row, n) <==> FiledUnder(root, journal[n]) == row && Shows(Project(root, shorter), journal[n]);
    }
  }

  predicate Creates(l: Live, i: Input) {
    Assign(l.writer, i.event, i.latest, i.nextId).created.Some?
  }

  function ProjectRun(root: RowId, inputs: seq<Input>): Projection {
    Project(root, Run(root, inputs).journal)
  }

  /** A completion that the projection leaves without text. */
  predicate IsQuietCompletion(p: Projection, e: Event) {
    e.RunCompleted? && |BatchResidual(p, e)| == 0
  }

  /** A new row has something to show if and only if it had before, or its event is not a
      completion to which the projection adds no text. */
  lemma CreatedRowIsSubstantive(root: RowId, inputs: seq<Input>, i: Input)
    requires Creates(Run(root, inputs), i)
    ensures Land(Run(root, inputs), i).rows == Run(root, inputs).rows + [Some(i.nextId)]
    ensures i.nextId in Project(root, Land(Run(root, inputs), i).journal).substantive
       <==> i.nextId in ProjectRun(root, inputs).substantive || !IsQuietCompletion(ProjectRun(root, inputs), i.event)
  {
    var l := Run(root, inputs);
    var a := Assign(l.writer, i.event, i.latest, i.nextId);
    JournalStep(root, l.journal, a.event);
    EventIsSubstantive(root, Project(root, l.journal), a.event);
  }

  /** The row that the `k`-th input creates. */
  predicate CreatesAt(root: RowId, inputs: seq<Input>, k: nat)
    requires k < |inputs|
  {
    Creates(Run(root, inputs[..k]), inputs[k])
  }

  predicate ShownWhenCreated(root: RowId, inputs: seq<Input>, k: nat)
    requires k < |inputs|
  {
    CreatesAt(root, inputs, k) ==> inputs[k].nextId in ProjectRun(root, inputs[..k + 1]).substantive
  }

  predicate CreatedForSomething(root: RowId, inputs: seq<Input>, k: nat)
    requires k < |inputs|
  {
    CreatesAt(root, inputs, k) && inputs[k].nextId !in ProjectRun(root, inputs[..k]).substantive ==>
      !IsQuietCompletion(ProjectRun(root, inputs[..k]), inputs[k].event)
  }

  /** Every row a run creates has something to show from then on, if and only if no new row was
      created for a completion to which the projection adds no text. */
  lemma CreatedRowsAreSubstantive(root: RowId, inputs: seq<Input>)
    ensures (forall k: nat | k < |inputs| :: ShownWhenCreated(root, inputs, k))
       <==> (forall k: nat | k < |inputs| :: CreatedForSomething(root, inputs, k))
    ensures forall k: nat | k < |inputs| && ShownWhenCreated(root, inputs, k) && CreatesAt(root, inputs, k) ::
              inputs[k].nextId in ProjectRun(root, inputs).substantive
  {
    forall k: nat | k < |inputs|
      ensures ShownWhenCreated(root, inputs, k) <==> CreatedForSomething(root, inputs, k)
    {
      RunStep(root, inputs, k);
      if CreatesAt(root, inputs, k) { CreatedRowIsSubstantive(root, inputs[..k], inputs[k]); }
    }
    forall k: nat | k < |inputs| && ShownWhenCreated(root, inputs, k) && CreatesAt(root, inputs, k)
      ensures inputs[k].nextId in ProjectRun(root, inputs).substantive
    {
      var early, late := Run(root, inputs[..k + 1]).journal, Run(root, inputs).journal;
      JournalGrows(root, inputs, k + 1);
      assert early + late[|early|..] == late;
      SubstantiveStays(root, early, late[|early|..], inputs[k].nextId);
    }
  }

  lemma {:induction false} JournalGrows(root: RowId, inputs: seq<Input>, k: nat)
    requires k <= |inputs|
    ensures Run(root, inputs[..k]).journal <= Run(root, inputs).journal
  {
    if k == |inputs| {
      assert inputs[..k] == inputs;
    } else {
      var shorter := inputs[..|inputs| - 1];
      JournalGrows(root, shorter, k);
      assert shorter[..k] == inputs[..k];
    }
  }

  /** Before any completion has added final text, every row the writer creates has something to
      show: there the writer asks what the projection asks. */
  lemma CreatedBeforeFinalTextIsSubstantive(root: RowId, inputs: seq<Input>, i: Input)
    requires NoFinalTextBefore(root, Run(root, inputs).journal, |Run(root, inputs).journal|)
    ensures Creates(Run(root, inputs), i) ==> i.nextId in Project(root, Land(Run(root, inputs), i).journal).substantive
  {
    if i.event.RunCompleted? { CompletionDecidedAlike(root, inputs, i.event); }
    DecidedAlikeIsSubstantive(root, inputs, i);
  }

  lemma DecidedAlikeIsSubstantive(root: RowId, inputs: seq<Input>, i: Input)
    requires i.event.RunCompleted? ==>
               WriterResidual(Run(root, inputs).writer, i.event) == BatchResidual(ProjectRun(root, inputs), i.event)
    ensures Creates(Run(root, inputs), i) ==> i.nextId in Project(root, Land(Run(root, inputs), i).journal).substantive
  {
    if Creates(Run(root, inputs), i) { CreatedRowIsSubstantive(root, inputs, i); }
  }

  const ANSWER := RunCompleted(false, Some("x"), None)

  /** After a completion that added text this fails: told the same final text again, the writer
      creates a row in which the projection has nothing to show. */
  lemma SecondCompletionCreatesEmptyRow()
    ensures var after := Run(1, [Input(ANSWER, 1, 2), Input(ANSWER, 2, 3)]);
            after.rows == [None, Some(3)] && 3 !in Project(1, after.journal).substantive
  {
    var first, second := Input(ANSWER, 1, 2), Input(ANSWER, 2, 3);
    RunOneMore(1, [], first);
    RunOneMore(1, [first], second);
    assert [] + [first] == [first] && [first] + [second] == [first, second];
    assert Assign(Fresh(1), ANSWER, 1, 2) == Assignment(Fresh(1), WithTarget(ANSWER, 1), None);
    assert Assign(Fresh(1), ANSWER, 2, 3).event == WithTarget(ANSWER, 3);
    FirstCompletionProjects(WithTarget(ANSWER, 1));
    SecondCompletionProjects(WithTarget(ANSWER, 1), WithTarget(ANSWER, 3));
  }

  lemma FirstCompletionProjects(e: Event)
    requires e == RunCompleted(false, Some("x"), Some(1))
    ensures var p := Project(1, [e]); p.aggregate == "x" && p.raw == "" && p.substantive == {1}
  {
    assert [e][..0] == [];
    assert BatchResidual(EmptyProjection(1), e) == "x";
    assert "" + "x" == "x";
  }

  lemma SecondCompletionProjects(first: Event, second: Event)
    requires second == RunCompleted(false, Some("x"), Some(3))
    requires var p := Project(1, [first]); p.aggregate == "x" && p.raw == "" && p.substantive == {1}
    ensures Project(1, [first] + [second]).substantive == {1}
  {
    JournalStep(1, [first], second);
    assert BatchResidual(Project(1, [first]), second) == "";
  }

  lemma {:induction false} SubstantiveStays(root: RowId, journal: seq<Event>, more: seq<Event>, row: RowId)
    requires row in Project(root, journal).substantive
    ensures row in Project(root, journal + more).substantive
  {
    if more == [] {
      assert journal + more == journal;
    } else {
      var shorter, e := more[..|more| - 1], more[|more| - 1];
      SubstantiveStays(root, journal, shorter, row);
      assert journal + more == journal + shorter + [e];
      JournalStep(root, journal + shorter, e);
      SubstantiveGrows(root, Project(root, journal + shorter), e);
    }
  }

  // ---------------------------------------------------------------- the final text is shown

  /** No character of the final text is lost: it ends what the journal's prose and the residual
      spell out, with paragraph breaks or without. */
  lemma FinalTextIsShown(finalText: Option<string>, streamed: string, visible: string)
    ensures var residual := CompletionResidual(finalText, streamed, visible);
            finalText.Some? ==> EndsWith(visible + residual, finalText.value)
                                || EndsWith(streamed + residual, finalText.value)
    ensures var residual := CompletionResidual(finalText, streamed, visible);
            residual == "" || (finalText.Some? && EndsWith(finalText.value, residual))
  {
    var residual := CompletionResidual(finalText, streamed, visible);
    if finalText.Some? && |finalText.value| > 0 {
      var final := finalText.value;
      if |visible| > 0 && visible <= final {
        assert visible + residual == final;
      } else if streamed <= final {
        assert streamed + residual == final;
      } else if residual == "" {
        assert visible + residual == visible && streamed + residual == streamed;
      }
    }
  }

  lemma CompletionProjects(root: RowId, p: Projection, e: Event)
    requires e.RunCompleted?
    ensures ProjectEvent(root, p, e).raw == p.raw
    ensures ProjectEvent(root, p, e).aggregate == p.aggregate + BatchResidual(p, e)
  {
    ReferKeeps(p, if e.target.Some? then e.target.value else root);
    assert BatchResidual(p, e) == "" ==> p.aggregate + BatchResidual(p, e) == p.aggregate;
  }

  /** In the projection of a journal that ends with a run that did not fail. */
  lemma ProjectionShowsFinalText(root: RowId, journal: seq<Event>, e: Event)
    requires e.RunCompleted? && !e.failed && e.finalText.Some?
    ensures var before, after := Project(root, journal), Project(root, journal + [e]);
            && after.raw == before.raw && before.aggregate <= after.aggregate
            && (EndsWith(after.aggregate, e.finalText.value)
                || EndsWith(before.raw + after.aggregate[|before.aggregate|..], e.finalText.value))
  {
    JournalStep(root, journal, e);
    var before := Project(root, journal);
    CompletionProjects(root, before, e);
    FinalTextIsShown(e.finalText, before.raw, before.aggregate);
    var residual := BatchResidual(before, e);
    assert (before.aggregate + residual)[|before.aggregate|..] == residual;
  }

  // ---------------------------------------------------------------- chronology

  /** The allocator returns ids above the newest message. */
  predicate AllocatesAbove(i: Input) {
    NeedsRow(i.event) ==> i.nextId > i.latest
  }

  /** The events whose row becomes the current one. */
  predicate Moves(e: Event) {
    match e
    case RunItem(itemType, _, _, _) => !itemType.ToolResult? && !itemType.ReasoningSummary?
    case Timeline(status, _) => status.Loading?
    case RunCompleted(_, _, _) => true
    case Untargetable(_) => false
  }

  /** The event brings its own row, and that row is older than the current one. */
  predicate FallsBack(w: Writer, e: Event) {
    Moves(e) && e.target.Some? && e.target.value < w.current
  }

  /** The current row moves forward, unless an event brings an older one with it; an event that
      moves it is filed under it; one that may get a new row is not filed above a newer message;
      and a new row appears only after an interleaved one. */
  lemma AssignmentIsChronological(w: Writer, i: Input)
    requires AllocatesAbove(i)
    ensures var a := Assign(w, i.event, i.latest, i.nextId);
            && (w.current <= a.writer.current <==> !FallsBack(w, i.event))
            && (Moves(i.event) ==> TargetOf(a.event) == Some(a.writer.current))
            && (!Moves(i.event) ==> a.writer.current == w.current)
            && (NeedsRow(i.event) && Advances(w, i.event) ==> i.latest <= a.writer.current)
            && (a.created.Some? ==> w.current < i.latest < a.created.value)
  {
  }

  /** The row of the newest tool call with this id in the journal. */
  function LatestCallRow(root: RowId, journal: seq<Event>, id: string): Option<RowId> {
    if journal == [] then None
    else
      var e := journal[|journal| - 1];
      if e.RunItem? && e.itemType.ToolCall? && e.callId == Some(id) then
        Some(if e.target.Some? then e.target.value else root)
      else LatestCallRow(root, journal[..|journal| - 1], id)
  }

  lemma {:induction false} ToolOutputsAreLatestCalls(root: RowId, journal: seq<Event>, id: string)
    ensures var rows := Replay(root, journal).toolOutputs;
            LatestCallRow(root, journal, id) == if id in rows then Some(rows[id]) else None
  {
    if journal != [] {
      ToolOutputsAreLatestCalls(root, journal[..|journal| - 1], id);
      ReplayKeepsRoot(root, journal[..|journal| - 1]);
    }
  }

  /** A tool result lands in the row of the latest tool call with its id. */
  lemma ToolResultJoinsItsCall(root: RowId, inputs: seq<Input>, i: Input)
    requires NeedsRow(i.event) && i.event.RunItem? && i.event.itemType.ToolResult? && i.event.callId.Some?
    requires LatestCallRow(root, Run(root, inputs).journal, i.event.callId.value).Some?
    ensures AssignedTo(Run(root, inputs).writer, i) == LatestCallRow(root, Run(root, inputs).journal, i.event.callId.value)
  {
    var l := Run(root, inputs);
    LiveIsRebuiltButPending(root, inputs);
    ToolOutputsAreLatestCalls(root, l.journal, i.event.callId.value);
  }

  /** The current row before the `k`-th event of a run. */
  function CurrentAt(root: RowId, inputs: seq<Input>, k: nat): RowId
    requires k <= |inputs|
  {
    Run(root, inputs[..k]).writer.current
  }

  predicate FallsBackAt(root: RowId, inputs: seq<Input>, k: nat)
    requires k < |inputs|
  {
    FallsBack(Run(root, inputs[..k]).writer, inputs[k].event)
  }

  lemma CurrentStep(root: RowId, inputs: seq<Input>, k: nat)
    requires k < |inputs| && AllocatesAbove(inputs[k])
    ensures CurrentAt(root, inputs, k) <= CurrentAt(root, inputs, k + 1) <==> !FallsBackAt(root, inputs, k)
  {
    RunStep(root, inputs, k);
    AssignmentIsChronological(Run(root, inputs[..k]).writer, inputs[k]);
  }

  lemma {:induction false} CurrentKeepsUp(root: RowId, inputs: seq<Input>, j: nat, k: nat)
    requires j <= k <= |inputs|
    requires forall m: nat | j <= m < k :: AllocatesAbove(inputs[m]) && !FallsBackAt(root, inputs, m)
    ensures CurrentAt(root, inputs, j) <= CurrentAt(root, inputs, k)
    decreases k - j
  {
    if j < k {
      CurrentKeepsUp(root, inputs, j, k - 1);
      CurrentStep(root, inputs, k - 1);
    }
  }

  /** Over a whole run, with events of every kind: the current row never falls if and only if no
      event brings a row older than it. */
  lemma CurrentNeverFalls(root: RowId, inputs: seq<Input>)
    requires forall m | 0 <= m < |inputs| :: AllocatesAbove(inputs[m])
    ensures (forall j: nat, k: nat | j <= k <= |inputs| :: CurrentAt(root, inputs, j) <= CurrentAt(root, inputs, k))
       <==> (forall m: nat | m < |inputs| :: !FallsBackAt(root, inputs, m))
  {
    if forall j: nat, k: nat | j <= k <= |inputs| :: CurrentAt(root, inputs, j) <= CurrentAt(root, inputs, k) {
      forall m: nat | m < |inputs| ensures !FallsBackAt(root, inputs, m) {
        assert CurrentAt(root, inputs, m) <= CurrentAt(root, inputs, m + 1);
        CurrentStep(root, inputs, m);
      }
    }
    if forall m: nat | m < |inputs| :: !FallsBackAt(root, inputs, m) {
      forall j: nat, k: nat | j <= k <= |inputs| ensures CurrentAt(root, inputs, j) <= CurrentAt(root, inputs, k) {
        CurrentKeepsUp(root, inputs, j, k);
      }
    }
  }

  lemma {:induction false} RunLength(root: RowId, inputs: seq<Input>)
    ensures |Run(root, inputs).journal| == |inputs|
  {
    if inputs != [] { RunLength(root, inputs[..|inputs| - 1]); }
  }

  /** The `k`-th event of a run's journal is the `k`-th input as it was assigned. */
  lemma JournalAt(root: RowId, inputs: seq<Input>, k: nat)
    requires k < |inputs|
    ensures |Run(root, inputs).journal| == |inputs|
    ensures Run(root, inputs).journal[k] ==
              Assign(Run(root, inputs[..k]).writer, inputs[k].event, inputs[k].latest, inputs[k].nextId).event
  {
    RunLength(root, inputs);
    RunLength(root, inputs[..k]);
    RunStep(root, inputs, k);
    JournalGrows(root, inputs, k + 1);
  }

  /** Where the `k`-th event is filed, and under which row the run then is. */
  lemma FiledAt(root: RowId, inputs: seq<Input>, k: nat)
    requires k < |inputs| && AllocatesAbove(inputs[k]) && Moves(inputs[k].event)
    ensures |Run(root, inputs).journal| == |inputs|
    ensures TargetOf(Run(root, inputs).journal[k]) == Some(CurrentAt(root, inputs, k + 1))
    ensures NeedsRow(inputs[k].event) && Advances(Run(root, inputs[..k]).writer, inputs[k].event) ==>
              inputs[k].latest <= CurrentAt(root, inputs, k + 1)
  {
    JournalAt(root, inputs, k);
    RunStep(root, inputs, k);
    AssignmentIsChronological(Run(root, inputs[..k]).writer, inputs[k]);
  }

  /** Over a whole run with events of every kind, in which none brings a row older than the
      current one: of two events that move the current row, the later one is filed under the same
      row or a newer one; and none that may get a new row is filed above a message posted before
      it. */
  lemma RowsFollowTime(root: RowId, inputs: seq<Input>, j: nat, k: nat)
    requires j < k < |inputs| && Moves(inputs[j].event) && Moves(inputs[k].event)
    requires forall m: nat | j <= m <= k :: AllocatesAbove(inputs[m]) && !FallsBackAt(root, inputs, m)
    ensures var journal := Run(root, inputs).journal;
            && |journal| == |inputs| && TargetOf(journal[j]).Some? && TargetOf(journal[k]).Some?
            && TargetOf(journal[j]).value <= TargetOf(journal[k]).value
            && (NeedsRow(inputs[k].event) && Advances(Run(root, inputs[..k]).writer, inputs[k].event) ==>
                  inputs[k].latest <= TargetOf(journal[k]).value)
  {
    FiledAt(root, inputs, j);
    FiledAt(root, inputs, k);
    CurrentKeepsUp(root, inputs, j + 1, k + 1);
  }
}
