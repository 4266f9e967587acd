/** `newestTranscriptHistoryUnits`: the window it selects, the pages it cuts a transcript into,
    and when its evidence stays with its text. */
module TranscriptWindow {
  import opened Basics
  import opened TranscriptHistory

  /** The longest suffix that fits the limit. */
  function Window(units: seq<Unit>, limit: int): (r: seq<Unit>) {
    if limit <= 0 || units == [] then []
    else if SlotCount(units) <= limit then units
    else Window(units[1..], limit)
  }

  /** Where the window starts. */
  function WindowStart(units: seq<Unit>, limit: int): (r: nat)
    requires 0 < limit
    ensures r <= |units|
  {
    if SlotCount(units) <= limit then 0 else 1 + WindowStart(units[1..], limit)
  }

  lemma {:induction false} DroppedTail(units: seq<Unit>, k: nat)
    requires k < |units|
    ensures units[k..] == [units[k]] + units[k..][1..] && units[k..][1..] == units[k + 1..]
  {
  }

  /** Lengthening a suffix never lowers its count, and one more unit adds one slot at most. */
  lemma {:induction false} CountNeverFalls(units: seq<Unit>, i: nat, j: nat)
    requires i <= j <= |units|
    ensures SlotCount(units[j..]) <= SlotCount(units[i..]) <= SlotCount(units[j..]) + (j - i)
    decreases j - i
  {
    if i < j {
      CountNeverFalls(units, i + 1, j);
      DroppedTail(units, i);
    }
  }

  /** The window is the suffix at its start, it fits, it is full when anything was left out, and
      every longer suffix holds more than the limit. */
  lemma {:induction false} WindowIsLongest(units: seq<Unit>, limit: int)
    requires 0 < limit
    ensures Window(units, limit) == units[WindowStart(units, limit)..]
    ensures SlotCount(Window(units, limit)) == if SlotCount(units) <= limit then SlotCount(units) else limit
    ensures forall k | 0 <= k < WindowStart(units, limit) :: limit < SlotCount(units[k..])
    ensures units != [] ==> Window(units, limit) != []
  {
    if units != [] && limit < SlotCount(units) {
      var rest := units[1..];
      WindowIsLongest(rest, limit);
      forall k | 0 <= k < WindowStart(units, limit) ensures limit < SlotCount(units[k..]) {
        if k == 0 {
          assert units[0..] == units;
        } else {
          assert units[k..] == rest[k - 1..];
        }
      }
    }
  }

  /** A suffix that fits, and whose next longer one does not, is the window. */
  lemma WindowIsUnique(units: seq<Unit>, limit: int, start: nat)
    requires 0 < limit && start <= |units|
    requires SlotCount(units[start..]) <= limit
    requires start > 0 ==> limit < SlotCount(units[start - 1..])
    ensures start == WindowStart(units, limit) && units[start..] == Window(units, limit)
  {
    WindowIsLongest(units, limit);
    UniqueStart(units, limit, WindowStart(units, limit), start);
  }

  lemma UniqueStart(units: seq<Unit>, limit: int, s: nat, start: nat)
    requires s <= |units| && start <= |units|
    requires SlotCount(units[s..]) <= limit && SlotCount(units[start..]) <= limit
    requires forall k | 0 <= k < s :: limit < SlotCount(units[k..])
    requires start > 0 ==> limit < SlotCount(units[start - 1..])
    ensures s == start
  {
    if s < start { CountNeverFalls(units, s, start - 1); }
  }

  // ---------------------------------------------------------------- the algorithm

  /** A charged unit stays charged when a prefix is cut off.  A unit that becomes charged by
      the cut is evidence whose text was in the prefix. */
  lemma ChargedInSuffix(units: seq<Unit>, k: nat, i: nat)
    requires k <= i < |units|
    ensures Charged(units, i) ==> Charged(units[k..], i - k)
    ensures Charged(units[k..], i - k) && !Charged(units, i) <==> IsOrphan(units, k, i)
  {
    var suffix := units[k..];
    assert forall j | 0 <= j < |suffix| :: suffix[j] == units[k + j];
    assert forall j | k <= j < |units| :: units[j] == suffix[j - k];
    if !IsText(units[i]) {
      var f := units[i].family;
      assert IsLastEvidence(units, i) <==> IsLastEvidence(suffix, i - k);
      if HasText(suffix, f) {
        var j :| 0 <= j < |suffix| && IsTextOf(suffix[j], f);
        assert IsTextOf(units[k + j], f);
      }
    }
  }

  /** Evidence that costs a slot in the suffix at `start` although its family has text. */
  predicate IsOrphan(units: seq<Unit>, start: nat, i: nat)
    requires start <= i < |units|
  {
    !IsText(units[i]) && HasText(units, units[i].family) && Charged(units[start..], i - start)
  }

  /** The charged positions of the whole list from `start` on. */
  ghost function ChargedFrom(units: seq<Unit>, start: nat): set<nat> {
    set i: nat | start <= i < |units| && Charged(units, i)
  }

  predicate IsChargedAfterCut(units: seq<Unit>, start: nat, i: nat) {
    start <= i < |units| && Charged(units[start..], i - start)
  }

  ghost function ChargedAfterCut(units: seq<Unit>, start: nat): set<nat> {
    set i: nat | i < |units| && IsChargedAfterCut(units, start, i)
  }

  lemma {:induction false} TranslatedSize(small: set<nat>, large: set<nat>, offset: nat)
    requires forall i: nat :: i in large <==> offset <= i && i - offset in small
    ensures |small| == |large|
    decreases |small|
  {
    if small == {} {
      assert large == {};
    } else {
      var x :| x in small;
      assert x + offset in large by { assert (x + offset) - offset == x; }
      TranslatedSize(small - {x}, large - {x + offset}, offset);
    }
  }

  lemma CountAfterCut(units: seq<Unit>, start: nat)
    requires start <= |units|
    ensures SlotCount(units[start..]) == |ChargedAfterCut(units, start)|
    ensures ChargedFrom(units, start) <= ChargedAfterCut(units, start)
  {
    SlotCountIsChargedSize(units[start..]);
    TranslatedSize(ChargedSet(units[start..]), ChargedAfterCut(units, start), start);
    forall i: nat | i in ChargedFrom(units, start) ensures i in ChargedAfterCut(units, start) {
      ChargedInSuffix(units, start, i);
    }
  }

  /** Cutting at the limit-th charged unit from the end leaves at least that many slots. */
  lemma CutKeepsAtLeast(units: seq<Unit>, charged: seq<nat>, limit: int)
    requires ListsCharged(charged, units) && 0 < limit <= |charged|
    ensures charged[|charged| - limit] < |units|
    ensures |ChargedFrom(units, charged[|charged| - limit])| == limit
    ensures limit <= SlotCount(units[charged[|charged| - limit]..])
  {
    var cut := charged[|charged| - limit];
    assert cut in charged;
    var newest := charged[|charged| - limit..];
    forall i: nat ensures i in newest <==> i in ChargedFrom(units, cut) {
      if i in ChargedFrom(units, cut) {
        assert i in charged;
        var k :| 0 <= k < |charged| && charged[k] == i;
        assert k >= |charged| - limit;
        assert newest[k - (|charged| - limit)] == i;
      }
      if i in newest {
        var k :| 0 <= k < |newest| && newest[k] == i;
        assert charged[|charged| - limit + k] == i && i in charged;
      }
    }
    IncreasingSize(newest, ChargedFrom(units, cut));
    CountAfterCut(units, cut);
    SubsetSize(ChargedFrom(units, cut), ChargedAfterCut(units, cut));
  }

  method TextSlotCount(units: seq<Unit>) returns (count: nat)
    ensures count == SlotCount(units)
  {
    var charged := TextSlotIndices(units);
    ListedCount(charged, units);
    count := |charged|;
  }

  /** `newestTranscriptHistoryUnits`: both loops end, and what is left is the longest suffix. */
  method NewestUnits(units: seq<Unit>, limit: int) returns (r: seq<Unit>)
    ensures r == Window(units, limit)
  {
    if limit <= 0 || |units| == 0 {
      return [];
    }
    var start := 0;
    var selected := units;
    var charged := TextSlotIndices(selected);
    ListedCount(charged, selected);
    while |charged| > limit
      invariant 0 <= start <= |units| && selected == units[start..]
      invariant ListsCharged(charged, selected) && |charged| == SlotCount(selected)
      invariant start > 0 ==> limit <= |charged|
      decreases |units| - start
    {
      CutKeepsAtLeast(selected, charged, limit);
      assert charged[0] < charged[|charged| - limit];
      assert selected[charged[|charged| - limit]..] == units[start + charged[|charged| - limit]..];
      start := start + charged[|charged| - limit];
      selected := units[start..];
      charged := TextSlotIndices(selected);
      ListedCount(charged, selected);
    }
    var selectedSlots := |charged|;
    while start > 0
      invariant 0 <= start <= |units|
      invariant SlotCount(units[start..]) == selectedSlots <= limit
      invariant start > 0 ==> selectedSlots == limit
    {
      var candidateSlots := TextSlotCount(units[start - 1..]);
      CountNeverFalls(units, start - 1, start);
      if candidateSlots != selectedSlots {
        assert limit < SlotCount(units[start - 1..]);
        break;
      }
      start := start - 1;
    }
    WindowIsUnique(units, limit, start);
    r := units[start..];
  }

  // ---------------------------------------------------------------- pages

  /** Taking the window again and again from what it left over, oldest page first. */
  function Pages(units: seq<Unit>, limit: int): (r: seq<seq<Unit>>)
    requires 0 < limit
    decreases |units|
  {
    if units == [] then []
    else
      WindowIsLongest(units, limit);
      Pages(units[..WindowStart(units, limit)], limit) + [Window(units, limit)]
  }

  function Concat(pages: seq<seq<Unit>>): seq<Unit> {
    if pages == [] then [] else Concat(pages[..|pages| - 1]) + pages[|pages| - 1]
  }

  predicate IsPage(page: seq<Unit>, limit: int, oldest: bool) {
    page != [] && SlotCount(page) <= limit && (!oldest ==> SlotCount(page) == limit)
  }

  lemma OneMorePage(older: seq<seq<Unit>>, last: seq<Unit>)
    ensures Concat(older + [last]) == Concat(older) + last
  {
    assert (older + [last])[..|older|] == older;
  }

  /** The newest page fits, holds something, and is full if it leaves anything out. */
  lemma WindowIsPage(units: seq<Unit>, limit: int)
    requires 0 < limit && units != []
    ensures IsPage(Window(units, limit), limit, WindowStart(units, limit) == 0)
    ensures units[..WindowStart(units, limit)] + Window(units, limit) == units
  {
    WindowIsLongest(units, limit);
    FullUnlessAll(units, limit, WindowStart(units, limit));
  }

  lemma FullUnlessAll(units: seq<Unit>, limit: int, s: nat)
    requires s <= |units| && forall k | 0 <= k < s :: limit < SlotCount(units[k..])
    requires SlotCount(units[s..]) == if SlotCount(units) <= limit then SlotCount(units) else limit
    ensures SlotCount(units[s..]) <= limit && (0 < s ==> SlotCount(units[s..]) == limit)
    ensures units[..s] + units[s..] == units
  {
    assert units[0..] == units;
  }

  /** Paging loses nothing and repeats nothing; no page is empty or over the limit, and every
      page but the oldest is full. */
  lemma {:induction false} PagesPartition(units: seq<Unit>, limit: int)
    requires 0 < limit
    ensures Concat(Pages(units, limit)) == units
    ensures forall k | 0 <= k < |Pages(units, limit)| :: IsPage(Pages(units, limit)[k], limit, k == 0)
    decreases |units|
  {
    if units != [] {
      WindowIsLongest(units, limit);
      var start, last := WindowStart(units, limit), Window(units, limit);
      var older := units[..start];
      PagesPartition(older, limit);
      var olderPages := Pages(older, limit);
      OneMorePage(olderPages, last);
      WindowIsPage(units, limit);
    }
  }

  // ---------------------------------------------------------------- evidence and its text

  /** Evidence stays with its text exactly when the first cut already fits.  Otherwise the
      window charges evidence whose text it left behind. */
  lemma EvidenceStaysWithItsText(units: seq<Unit>, limit: int, charged: seq<nat>)
    requires 0 < limit < |charged| && ListsCharged(charged, units)
    ensures charged[|charged| - limit] < |units|
    ensures (forall i: nat | WindowStart(units, limit) <= i < |units| :: !IsOrphan(units, WindowStart(units, limit), i))
            <==> SlotCount(units[charged[|charged| - limit]..]) == limit
  {
    CutKeepsAtLeast(units, charged, limit);
    ListedCount(charged, units);
    WindowIsLongest(units, limit);
    var start, cut := WindowStart(units, limit), charged[|charged| - limit];
    CountAfterCut(units, start);
    if SlotCount(units[cut..]) == limit {
      assert start <= cut;
      CutThatFits(units, start, cut, limit);
    } else {
      if start <= cut { CountNeverFalls(units, start, cut); }
      CutThatDoesNotFit(units, start, cut, limit);
    }
  }

  lemma CutThatFits(units: seq<Unit>, start: nat, cut: nat, limit: int)
    requires start <= cut <= |units| && |ChargedFrom(units, cut)| == limit
    requires |ChargedAfterCut(units, start)| <= limit && ChargedFrom(units, start) <= ChargedAfterCut(units, start)
    ensures forall i: nat | start <= i < |units| :: !IsOrphan(units, start, i)
  {
    assert ChargedFrom(units, cut) <= ChargedFrom(units, start);
    SubsetSize(ChargedFrom(units, cut), ChargedFrom(units, start));
    SubsetSize(ChargedFrom(units, start), ChargedAfterCut(units, start));
    forall i: nat | start <= i < |units| ensures !IsOrphan(units, start, i) {
      ChargedInSuffix(units, start, i);
      assert i in ChargedFrom(units, start) <==> i in ChargedAfterCut(units, start);
    }
  }

  lemma CutThatDoesNotFit(units: seq<Unit>, start: nat, cut: nat, limit: int)
    requires cut < start <= |units| && Charged(units, cut) && |ChargedFrom(units, cut)| == limit
    requires |ChargedAfterCut(units, start)| == limit
    ensures exists i: nat | start <= i < |units| :: IsOrphan(units, start, i)
  {
    if forall i: nat | start <= i < |units| :: !IsOrphan(units, start, i) {
      forall i: nat | i in ChargedAfterCut(units, start) ensures i in ChargedFrom(units, cut) - {cut} {
        ChargedInSuffix(units, start, i);
      }
      SubsetSize(ChargedAfterCut(units, start), ChargedFrom(units, cut) - {cut});
    }
  }

  /** Two notes around one turn's text and tool: the newest two slots hold the tool, without
      the text it belongs to. */
  lemma EvidenceCanLeaveItsText() returns (units: seq<Unit>)
    ensures |units| == 4 && Window(units, 2) == units[2..] && IsOrphan(units, 2, 2)
  {
    var f := Family(1, 1);
    units := [Journal(Prose, f, [0]), Message(2), Journal(Tool, f, [1]), Message(3)];
    assert units[3..] == [Message(3)] && units[4..] == [];
    assert units[2..] == [units[2]] + units[3..] && units[1..] == [units[1]] + units[2..];
    assert SlotCount(units[3..]) == 1;
    assert SlotCount(units[2..]) == 2;
    assert SlotCount(units[1..]) == 3;
    WindowIsUnique(units, 2, 2);
    assert IsTextOf(units[0], f);
    var suffix := units[2..];
    assert IsLastEvidence(suffix, 0);
  }
}
