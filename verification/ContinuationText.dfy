/** What text a run's rows show: the prose filed under a row, in journal order, with paragraph
    breaks around blocks; and what a completion adds to it. */
module ContinuationText {
  import opened Basics
  import opened ContinuationModel
  import opened ContinuationResults

  // ---------------------------------------------------------------- the text to expect

  datatype Passage = Passage(kind: Prose, text: string)

  /** Passages next to each other are apart if and only if one of the two is a block. */
  function Between(a: Passage, b: Passage): string {
    if a.kind == Block || b.kind == Block then "\n\n" else ""
  }

  function Written(ps: seq<Passage>): string {
    if ps == [] then ""
    else if |ps| == 1 then ps[0].text
    else ps[0].text + Between(ps[0], ps[1]) + Written(ps[1..])
  }

  function RawText(ps: seq<Passage>): string {
    if ps == [] then "" else ps[0].text + RawText(ps[1..])
  }

  /** The passage an event says, if it says anything. */
  function PassageOf(e: Event): seq<Passage> {
    match e
    case RunItem(TextDelta, _, text, _) => if text == "" then [] else [Passage(Delta, text)]
    case RunItem(TextBlock, _, text, _) => if text == "" then [] else [Passage(Block, text)]
    case _ => []
  }

  function Passages(journal: seq<Event>): seq<Passage> {
    if journal == [] then [] else PassageOf(journal[0]) + Passages(journal[1..])
  }

  function FiledHere(root: RowId, e: Event, row: RowId): seq<Event> {
    if FiledUnder(root, e) == row then [e] else []
  }

  /** The events filed under a row, in journal order. */
  function FiledIn(root: RowId, journal: seq<Event>, row: RowId): seq<Event> {
    if journal == [] then []
    else FiledHere(root, journal[0], row) + FiledIn(root, journal[1..], row)
  }

  // ---------------------------------------------------------------- one more passage

  lemma {:induction false} PassagesOneMore(journal: seq<Event>, e: Event)
    ensures Passages(journal + [e]) == Passages(journal) + PassageOf(e)
  {
    if journal == [] {
      assert [e][1..] == [];
    } else {
      assert (journal + [e])[1..] == journal[1..] + [e];
      PassagesOneMore(journal[1..], e);
    }
  }

  lemma {:induction false} FiledInOneMore(root: RowId, journal: seq<Event>, e: Event, row: RowId)
    ensures FiledIn(root, journal + [e], row) == FiledIn(root, journal, row) + FiledHere(root, e, row)
  {
    if journal == [] {
      assert [] + [e] == [e] && [e][1..] == [];
    } else {
      assert (journal + [e])[1..] == journal[1..] + [e];
      FiledInOneMore(root, journal[1..], e, row);
      assert FiledHere(root, journal[0], row) + (FiledIn(root, journal[1..], row) + FiledHere(root, e, row))
          == FiledHere(root, journal[0], row) + FiledIn(root, journal[1..], row) + FiledHere(root, e, row);
    }
  }

  lemma {:induction false} WrittenOneMore(ps: seq<Passage>, p: Passage)
    requires ps != []
    ensures Written(ps + [p]) == Written(ps) + Between(ps[|ps| - 1], p) + p.text
  {
    assert (ps + [p])[1..] == ps[1..] + [p];
    if |ps| > 1 {
      WrittenOneMore(ps[1..], p);
      assert (ps + [p])[1] == ps[1];
    }
  }

  lemma {:induction false} RawOneMore(ps: seq<Passage>, p: Passage)
    ensures RawText(ps + [p]) == RawText(ps) + p.text
  {
    if ps == [] {
      assert [p][1..] == [];
    } else {
      assert (ps + [p])[1..] == ps[1..] + [p];
      RawOneMore(ps[1..], p);
    }
  }

  predicate AreSaid(ps: seq<Passage>) {
    forall p | p in ps :: p.text != ""
  }

  lemma {:induction false} SaidIsWritten(ps: seq<Passage>)
    requires AreSaid(ps)
    ensures Written(ps) == "" <==> ps == []
  {
    if |ps| > 1 { assert ps[0] in ps; }
  }

  lemma {:induction false} PassagesAreSaid(journal: seq<Event>)
    ensures AreSaid(Passages(journal))
  {
    if journal != [] { PassagesAreSaid(journal[1..]); }
  }

  // ---------------------------------------------------------------- one text of the projection

  function LastKind(ps: seq<Passage>): Option<Prose> {
    if ps == [] then None else Some(ps[|ps| - 1].kind)
  }

  /** A text and the kind last added to it are those of these passages. */
  predicate Spells(text: string, kind: Option<Prose>, ps: seq<Passage>) {
    text == Written(ps) && kind == LastKind(ps)
  }

  lemma JoinSpells(text: string, kind: Option<Prose>, ps: seq<Passage>, p: Passage)
    requires Spells(text, kind, ps) && AreSaid(ps)
    ensures Spells(JoinProse(text, kind, p.kind, p.text), Some(p.kind), ps + [p])
  {
    SaidIsWritten(ps);
    if ps == [] {
      assert [] + [p] == [p];
    } else {
      WrittenOneMore(ps, p);
    }
  }

  ghost predicate SpellsAll(root: RowId, p: Projection, journal: seq<Event>) {
    && Spells(p.aggregate, p.lastJournalKind, Passages(journal)) && p.raw == RawText(Passages(journal))
    && (forall row :: SpellsRow(root, p, journal, row))
  }

  predicate SpellsRow(root: RowId, p: Projection, journal: seq<Event>, row: RowId) {
    Spells(Lookup(p.bodies, row, ""), LookupProse(p.lastKind, row), Passages(FiledIn(root, journal, row)))
  }

  /** An event that says something is projected as that passage. */
  lemma SayingProjects(root: RowId, p: Projection, e: Event)
    requires PassageOf(e) != []
    ensures |PassageOf(e)| == 1 && PassageOf(e)[0].text != ""
    ensures ProjectEvent(root, p, e) ==
              ProjectText(Refer(p, FiledUnder(root, e)), FiledUnder(root, e), PassageOf(e)[0].kind, PassageOf(e)[0].text)
  {
  }

  predicate SameTexts(p: Projection, q: Projection, row: RowId) {
    && q.aggregate == p.aggregate && q.raw == p.raw && q.lastJournalKind == p.lastJournalKind
    && Lookup(q.bodies, row, "") == Lookup(p.bodies, row, "") && LookupProse(q.lastKind, row) == LookupProse(p.lastKind, row)
  }

  lemma SilenceProjects(root: RowId, p: Projection, e: Event, row: RowId)
    requires PassageOf(e) == [] && (e.RunCompleted? ==> |BatchResidual(p, e)| == 0)
    ensures SameTexts(p, ProjectEvent(root, p, e), row)
  {
    ReferKeeps(p, FiledUnder(root, e));
  }

  lemma NothingMoreFiled(root: RowId, journal: seq<Event>, e: Event, row: RowId)
    requires PassageOf(e) == [] || FiledUnder(root, e) != row
    ensures Passages(FiledIn(root, journal + [e], row)) == Passages(FiledIn(root, journal, row))
  {
    var filed := FiledIn(root, journal, row);
    FiledInOneMore(root, journal, e, row);
    PassagesOneMore(filed, e);
    assert filed + [] == filed && Passages(filed) + [] == Passages(filed);
  }

  lemma OneMoreFiled(root: RowId, journal: seq<Event>, e: Event)
    ensures Passages(FiledIn(root, journal + [e], FiledUnder(root, e)))
         == Passages(FiledIn(root, journal, FiledUnder(root, e))) + PassageOf(e)
  {
    FiledInOneMore(root, journal, e, FiledUnder(root, e));
    PassagesOneMore(FiledIn(root, journal, FiledUnder(root, e)), e);
  }

  lemma EventSpellsRow(root: RowId, p: Projection, journal: seq<Event>, e: Event, row: RowId)
    requires SpellsRow(root, p, journal, row) && (e.RunCompleted? ==> |BatchResidual(p, e)| == 0)
    ensures SpellsRow(root, ProjectEvent(root, p, e), journal + [e], row)
  {
    if PassageOf(e) == [] {
      SilenceProjects(root, p, e, row);
      NothingMoreFiled(root, journal, e, row);
    } else {
      SayingProjects(root, p, e);
      ReferKeeps(p, FiledUnder(root, e));
      if FiledUnder(root, e) != row {
        NothingMoreFiled(root, journal, e, row);
      } else {
        OneMoreFiled(root, journal, e);
        PassagesAreSaid(FiledIn(root, journal, row));
        JoinSpells(Lookup(p.bodies, row, ""), LookupProse(p.lastKind, row), Passages(FiledIn(root, journal, row)), PassageOf(e)[0]);
        assert PassageOf(e) == [PassageOf(e)[0]];
      }
    }
  }

  lemma EventSpellsJournal(root: RowId, p: Projection, journal: seq<Event>, e: Event)
    requires Spells(p.aggregate, p.lastJournalKind, Passages(journal)) && p.raw == RawText(Passages(journal))
    requires e.RunCompleted? ==> |BatchResidual(p, e)| == 0
    ensures var q, ps := ProjectEvent(root, p, e), Passages(journal + [e]);
            Spells(q.aggregate, q.lastJournalKind, ps) && q.raw == RawText(ps)
  {
    var ps := Passages(journal);
    PassagesOneMore(journal, e);
    if PassageOf(e) == [] {
      SilenceProjects(root, p, e, root);
      assert ps + [] == ps;
    } else {
      SayingProjects(root, p, e);
      ReferKeeps(p, FiledUnder(root, e));
      PassagesAreSaid(journal);
      JoinSpells(p.aggregate, p.lastJournalKind, ps, PassageOf(e)[0]);
      RawOneMore(ps, PassageOf(e)[0]);
      assert PassageOf(e) == [PassageOf(e)[0]];
    }
  }

  lemma EventSpells(root: RowId, p: Projection, journal: seq<Event>, e: Event)
    requires SpellsAll(root, p, journal) && (e.RunCompleted? ==> |BatchResidual(p, e)| == 0)
    ensures SpellsAll(root, ProjectEvent(root, p, e), journal + [e])
  {
    EventSpellsJournal(root, p, journal, e);
    forall row ensures SpellsRow(root, ProjectEvent(root, p, e), journal + [e], row) {
      EventSpellsRow(root, p, journal, e, row);
    }
  }

  // ---------------------------------------------------------------- main results

  ghost predicate SaysTheProse(root: RowId, journal: seq<Event>, k: nat)
    requires k <= |journal|
  {
    SpellsAll(root, Project(root, journal[..k]), journal[..k])
  }

  ghost predicate SaysTheProseThroughout(root: RowId, journal: seq<Event>, n: nat)
    requires n <= |journal|
  {
    forall k: nat | k <= n :: SaysTheProse(root, journal, k)
  }

  lemma SaysTheProseStep(root: RowId, journal: seq<Event>, k: nat)
    requires k < |journal| && SaysTheProse(root, journal, k)
    ensures SaysTheProse(root, journal, k + 1) <==> AddsNoFinalText(root, journal, k)
  {
    var p, e := Project(root, journal[..k]), journal[k];
    assert journal[..k + 1] == journal[..k] + [e];
    JournalStep(root, journal[..k], e);
    if AddsNoFinalText(root, journal, k) {
      EventSpells(root, p, journal[..k], e);
    } else {
      PassagesOneMore(journal[..k], e);
      CompletionProjects(root, p, e);
      assert Passages(journal[..k]) + [] == Passages(journal[..k]);
    }
  }

  lemma {:induction false} QuietJournalSaysTheProse(root: RowId, journal: seq<Event>, n: nat)
    requires n <= |journal| && NoFinalTextBefore(root, journal, n)
    ensures SaysTheProse(root, journal, n)
  {
    if n == 0 {
      assert journal[..0] == [];
    } else {
      QuietJournalSaysTheProse(root, journal, n - 1);
      SaysTheProseStep(root, journal, n - 1);
    }
  }

  /** At every point of a journal, the text of each row is the passages filed under it, the
      aggregate all passages, each in journal order with a paragraph break between neighbours
      exactly when one of the two is a block, and the raw stream all passages without breaks: if and
      only if no completion has added final text. */
  lemma RowsSayTheirProse(root: RowId, journal: seq<Event>, n: nat)
    requires n <= |journal|
    ensures SaysTheProseThroughout(root, journal, n) <==> NoFinalTextBefore(root, journal, n)
  {
    if NoFinalTextBefore(root, journal, n) {
      forall k: nat | k <= n ensures SaysTheProse(root, journal, k) {
        QuietJournalSaysTheProse(root, journal, k);
      }
    }
    if SaysTheProseThroughout(root, journal, n) {
      forall k | 0 <= k < n ensures AddsNoFinalText(root, journal, k) {
        assert SaysTheProse(root, journal, k) && SaysTheProse(root, journal, k + 1);
        SaysTheProseStep(root, journal, k);
      }
    }
  }

  /** A journal whose completions all failed or have no final text. */
  predicate HasNoFinalText(journal: seq<Event>) {
    forall e | e in journal && e.RunCompleted? :: e.failed || e.finalText == None || e.finalText == Some("")
  }

  lemma NoFinalTextAdded(root: RowId, journal: seq<Event>)
    requires HasNoFinalText(journal)
    ensures NoFinalTextBefore(root, journal, |journal|)
  {
    forall k | 0 <= k < |journal| ensures AddsNoFinalText(root, journal, k) {
      assert journal[k] in journal;
    }
  }

  /** In a journal without final texts each row shows its passages and the aggregate shows all. */
  lemma RowsShowTheirPassages(root: RowId, journal: seq<Event>, row: RowId)
    requires HasNoFinalText(journal)
    ensures var p := Project(root, journal);
            && Lookup(p.bodies, row, "") == Written(Passages(FiledIn(root, journal, row)))
            && p.aggregate == Written(Passages(journal)) && p.raw == RawText(Passages(journal))
  {
    NoFinalTextAdded(root, journal);
    QuietJournalSaysTheProse(root, journal, |journal|);
    assert journal[..|journal|] == journal;
    assert SpellsRow(root, Project(root, journal), journal, row);
  }

  lemma {:induction false} DeltasAreRaw(ps: seq<Passage>)
    requires forall p | p in ps :: p.kind == Delta
    ensures Written(ps) == RawText(ps)
  {
    if |ps| > 1 {
      DeltasAreRaw(ps[1..]);
      assert ps[0] in ps && ps[1] in ps;
      assert ps[0].text + "" == ps[0].text;
    } else if |ps| == 1 {
      assert ps[1..] == [] && ps[0].text + "" == ps[0].text;
    }
  }

  lemma {:induction false} PassageKinds(journal: seq<Event>)
    requires forall e | e in journal && e.RunItem? :: e.itemType != TextBlock
    ensures forall p | p in Passages(journal) :: p.kind == Delta
  {
    if journal != [] {
      PassageKinds(journal[1..]);
      assert journal[0] in journal;
    }
  }

  /** A journal that streams deltas alone shows exactly its raw stream. */
  lemma DeltasShowTheRawStream(root: RowId, journal: seq<Event>)
    requires HasNoFinalText(journal) && forall e | e in journal && e.RunItem? :: e.itemType != TextBlock
    ensures Project(root, journal).aggregate == Project(root, journal).raw
  {
    RowsShowTheirPassages(root, journal, root);
    PassageKinds(journal);
    DeltasAreRaw(Passages(journal));
  }

  /** The live writer shows the same, in every run. */
  lemma WriterShowsThePassages(root: RowId, inputs: seq<Input>, row: RowId)
    requires HasNoFinalText(Run(root, inputs).journal)
    ensures var prose, journal := Run(root, inputs).writer.prose, Run(root, inputs).journal;
            && Lookup(prose.visible, row, "") == Written(Passages(FiledIn(root, journal, row)))
            && prose.aggregate == Written(Passages(journal)) && prose.streamed == RawText(Passages(journal))
  {
    var journal := Run(root, inputs).journal;
    NoFinalTextAdded(root, journal);
    LiveIsRebuiltButPending(root, inputs);
    QuietJournalAgrees(root, journal, |journal|);
    assert journal[..|journal|] == journal;
    RowsShowTheirPassages(root, journal, row);
    assert Lookup(Project(root, journal).bodies, row, "") == Lookup(Replay(root, journal).prose.visible, row, "");
  }

  // ---------------------------------------------------------------- completions

  /** A completion touches the text of its own row only, and only behind what the row shows; a row
      with nothing in it takes the new text without a leading paragraph break. */
  lemma CompletionLandsInItsRow(root: RowId, journal: seq<Event>, e: Event, row: RowId)
    requires e.RunCompleted?
    ensures var before, after := Project(root, journal), Project(root, journal + [e]);
            var text, text' := Lookup(before.bodies, row, ""), Lookup(after.bodies, row, "");
            && before.aggregate <= after.aggregate
            && var added := after.aggregate[|before.aggregate|..];
               text' == if row != FiledUnder(root, e) then text
                        else if text == "" && "\n\n" <= added then added[2..] else text + added
  {
    JournalStep(root, journal, e);
    var p := Project(root, journal);
    CompletionProjects(root, p, e);
    ReferKeeps(p, FiledUnder(root, e));
    var residual := BatchResidual(p, e);
    assert (p.aggregate + residual)[|p.aggregate|..] == residual;
    if residual == "" {
      assert Lookup(p.bodies, row, "") + residual == Lookup(p.bodies, row, "");
    }
  }

  lemma {:induction false} RawIsShorter(root: RowId, journal: seq<Event>)
    ensures |Project(root, journal).raw| <= |Project(root, journal).aggregate|
  {
    if journal != [] {
      var shorter, e := journal[..|journal| - 1], journal[|journal| - 1];
      RawIsShorter(root, shorter);
      ReferKeeps(Project(root, shorter), FiledUnder(root, e));
    }
  }

  lemma LongerIsNoPrefix(s: string, more: string, t: string)
    requires !(s <= t)
    ensures !(s + more <= t)
  {
    assert (s + more)[..|s|] == s;
  }

  lemma RepeatedResidual(final: string, raw: string, shown: string)
    requires final != "" && |raw| <= |shown|
    ensures var shown' := shown + CompletionResidual(Some(final), raw, shown);
            CompletionResidual(Some(final), raw, shown') == ""
            <==> shown' == final || (raw != "" && !(raw < final))
  {
    var residual := CompletionResidual(Some(final), raw, shown);
    var shown' := shown + residual;
    if |shown| > 0 && shown <= final {
      assert shown' == final;
    } else if raw == "" {
      assert residual == final;
      if shown == "" { assert shown' == final; } else { assert |shown'| > |final|; }
    } else if raw <= final {
      LongerIsNoPrefix(shown, residual, final);
    } else if residual == "" {
      assert shown' == shown;
    } else {
      assert shown' == shown + final && |shown'| > |final|;
      assert EndsWith(shown', final);
    }
  }

  /** Told the same final text once more, the projection adds nothing, if and only if the text is
      empty, or all that is shown, or the raw stream is neither empty nor the beginning of it. */
  lemma RepeatedCompletionAddsNothing(root: RowId, journal: seq<Event>, e: Event)
    requires e.RunCompleted? && !e.failed && e.finalText.Some?
    ensures var once, twice := Project(root, journal + [e]), Project(root, journal + [e, e]);
            twice.aggregate == once.aggregate <==>
              (e.finalText.value == "" || once.aggregate == e.finalText.value
               || (once.raw != "" && !(once.raw < e.finalText.value)))
  {
    var p, once := Project(root, journal), Project(root, journal + [e]);
    assert journal + [e] + [e] == journal + [e, e];
    JournalStep(root, journal, e);
    JournalStep(root, journal + [e], e);
    CompletionProjects(root, p, e);
    CompletionProjects(root, once, e);
    RawIsShorter(root, journal);
    if e.finalText.value != "" { RepeatedResidual(e.finalText.value, p.raw, p.aggregate); }
    assert once.aggregate + BatchResidual(once, e) == once.aggregate <==> BatchResidual(once, e) == "";
  }

  const FIRST := RunCompleted(false, Some("a"), None)
  const AGAIN := RunCompleted(false, Some("b"), None)

  /** Nothing streamed, and what is shown is not where the final text starts. */
  lemma AllIsAdded(final: string, shown: string)
    requires final != "" && shown != "" && shown[0] != final[0]
    ensures CompletionResidual(Some(final), "", shown) == final
  {
  }

  lemma AgainAdds(journal: seq<Event>)
    requires Project(1, journal).raw == "" && Project(1, journal).aggregate != "" && Project(1, journal).aggregate[0] == 'a'
    ensures var p, q := Project(1, journal), Project(1, journal + [AGAIN]);
            q.raw == "" && q.aggregate == p.aggregate + "b" && q.aggregate[0] == 'a'
  {
    JournalStep(1, journal, AGAIN);
    CompletionProjects(1, Project(1, journal), AGAIN);
    assert "b"[0] == 'b';
    AllIsAdded("b", Project(1, journal).aggregate);
  }

  /** A concrete journal to which the same final text is added twice. */
  lemma RepeatedCompletionCanAddAgain()
    ensures Project(1, [FIRST, AGAIN]).aggregate == "ab" && Project(1, [FIRST, AGAIN, AGAIN]).aggregate == "abb"
  {
    assert [] + [FIRST] == [FIRST] && [FIRST] + [AGAIN] == [FIRST, AGAIN] && [FIRST, AGAIN] + [AGAIN] == [FIRST, AGAIN, AGAIN];
    JournalStep(1, [], FIRST);
    CompletionProjects(1, EmptyProjection(1), FIRST);
    assert "" + "a" == "a" && "a"[0] == 'a';
    AgainAdds([FIRST]);
    AgainAdds([FIRST, AGAIN]);
    assert "a" + "b" == "ab" && "ab" + "b" == "abb";
  }

  // ---------------------------------------------------------------- the rows of a journal

  /** The row of the newest event that has one. */
  function NewestRow(root: RowId, journal: seq<Event>): RowId {
    if journal == [] then root
    else
      var e := journal[|journal| - 1];
      if e.Untargetable? then NewestRow(root, journal[..|journal| - 1]) else FiledUnder(root, e)
  }

  predicate IsFiledIn(root: RowId, journal: seq<Event>, row: RowId) {
    exists e | e in journal :: !e.Untargetable? && FiledUnder(root, e) == row
  }

  lemma FiledInMore(root: RowId, journal: seq<Event>, e: Event, row: RowId)
    ensures IsFiledIn(root, journal + [e], row) <==> IsFiledIn(root, journal, row) || (!e.Untargetable? && FiledUnder(root, e) == row)
  {
    if IsFiledIn(root, journal, row) {
      var x :| x in journal && !x.Untargetable? && FiledUnder(root, x) == row;
      assert x in journal + [e];
    }
    assert e in journal + [e];
  }

  lemma EventRefers(root: RowId, p: Projection, e: Event, row: RowId)
    requires row in p.bodies <==> row in p.referenced
    ensures var q := ProjectEvent(root, p, e);
            && (row in q.referenced <==> row in p.referenced || (!e.Untargetable? && FiledUnder(root, e) == row))
            && (row in q.bodies <==> row in q.referenced)
            && q.result == if e.Untargetable? then p.result else FiledUnder(root, e)
  {
  }

  /** The rows a journal refers to are the root and every row an event is filed under; each has a
      text, and no other row has; and the result is in the row of the newest such event. */
  lemma {:induction false} RowsAreThese(root: RowId, journal: seq<Event>, row: RowId)
    ensures var p := Project(root, journal);
            && (row in p.referenced <==> row == root || IsFiledIn(root, journal, row))
            && (row in p.bodies <==> row in p.referenced) && p.result == NewestRow(root, journal)
  {
    if journal != [] {
      var shorter, e := journal[..|journal| - 1], journal[|journal| - 1];
      RowsAreThese(root, shorter, row);
      EventRefers(root, Project(root, shorter), e, row);
      FiledInMore(root, shorter, e, row);
      assert journal == shorter + [e];
    }
  }
}
