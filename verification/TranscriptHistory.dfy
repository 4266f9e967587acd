/** The newest window of a transcript (`packages/protocol/src/transcript-history.ts`).

    Text costs one slot a unit.  Tool and timeline evidence is free when its output family has
    text in the window; a family with evidence only costs one slot, charged to its last unit.
    Cutting off a prefix can therefore make evidence start costing, which is what makes the
    search for the window subtle. */
module TranscriptHistory {

  datatype Family = Family(root: int, output: int)

  datatype Kind = Prose | Tool | TimelineItem | SettledTail

  datatype Unit =
    | Message(messageId: int)
    | Journal(kind: Kind, family: Family, eventIndices: seq<nat>)

  predicate IsText(u: Unit) {
    u.Message? || u.kind.Prose? || u.kind.SettledTail?
  }

  predicate IsTextOf(u: Unit, f: Family) {
    u.Journal? && IsText(u) && u.family == f
  }

  predicate IsEvidenceOf(u: Unit, f: Family) {
    !IsText(u) && u.family == f
  }

  predicate HasText(units: seq<Unit>, f: Family) {
    exists i | 0 <= i < |units| :: IsTextOf(units[i], f)
  }

  predicate HasEvidence(units: seq<Unit>, f: Family) {
    exists i | 0 <= i < |units| :: IsEvidenceOf(units[i], f)
  }

  // ---------------------------------------------------------------- what is charged

  predicate IsLastEvidence(units: seq<Unit>, i: int)
    requires 0 <= i < |units| && !IsText(units[i])
  {
    forall j | i < j < |units| :: !IsEvidenceOf(units[j], units[i].family)
  }

  /** A unit consumes a slot if it is text, or if it is the last evidence of a family that has
      no text. */
  predicate Charged(units: seq<Unit>, i: int)
    requires 0 <= i < |units|
  {
    IsText(units[i]) || (!HasText(units, units[i].family) && IsLastEvidence(units, i))
  }

  predicate Increasing(s: seq<nat>) {
    forall i, j | 0 <= i < j < |s| :: s[i] < s[j]
  }

  /** `s` lists exactly the charged positions, in order. */
  ghost predicate ListsCharged(s: seq<nat>, units: seq<Unit>) {
    Increasing(s) && forall i: nat :: i in s <==> i < |units| && Charged(units, i)
  }

  /** What one more unit in front of `rest` adds to the slots of `rest`. */
  function CostBefore(u: Unit, rest: seq<Unit>): nat {
    if u.Message? then 1
    else if IsText(u) then (if HasEvidence(rest, u.family) && !HasText(rest, u.family) then 0 else 1)
    else (if HasEvidence(rest, u.family) || HasText(rest, u.family) then 0 else 1)
  }

  function SlotCount(units: seq<Unit>): nat {
    if units == [] then 0 else CostBefore(units[0], units[1..]) + SlotCount(units[1..])
  }

  ghost function ChargedSet(units: seq<Unit>): set<nat> {
    set i: nat | i < |units| && Charged(units, i)
  }

  lemma TextSplits(u: Unit, rest: seq<Unit>, f: Family)
    ensures HasText([u] + rest, f) <==> IsTextOf(u, f) || HasText(rest, f)
    ensures HasEvidence([u] + rest, f) <==> IsEvidenceOf(u, f) || HasEvidence(rest, f)
  {
    var units := [u] + rest;
    if HasText(rest, f) {
      var i :| 0 <= i < |rest| && IsTextOf(rest[i], f);
      assert IsTextOf(units[i + 1], f);
    }
    if HasText(units, f) {
      var i :| 0 <= i < |units| && IsTextOf(units[i], f);
      assert i > 0 ==> IsTextOf(rest[i - 1], f);
    }
    if HasEvidence(rest, f) {
      var i :| 0 <= i < |rest| && IsEvidenceOf(rest[i], f);
      assert IsEvidenceOf(units[i + 1], f);
    }
    if HasEvidence(units, f) {
      var i :| 0 <= i < |units| && IsEvidenceOf(units[i], f);
      assert i > 0 ==> IsEvidenceOf(rest[i - 1], f);
    }
    assert IsTextOf(u, f) ==> IsTextOf(units[0], f);
    assert IsEvidenceOf(u, f) ==> IsEvidenceOf(units[0], f);
  }

  /** In front of `rest`, a text unit frees the fallback slot of its family and nothing else
      changes for the units of `rest`. */
  lemma ChargedBehind(u: Unit, rest: seq<Unit>, i: nat)
    requires i < |rest|
    ensures Charged([u] + rest, i + 1) <==>
              Charged(rest, i) && !(u.Journal? && IsText(u) && !IsText(rest[i]) && rest[i].family == u.family)
  {
    var units := [u] + rest;
    assert units[i + 1] == rest[i];
    if !IsText(rest[i]) {
      TextSplits(u, rest, rest[i].family);
      assert forall j | i < j < |rest| :: units[j + 1] == rest[j];
      assert forall j | i + 1 < j < |units| :: units[j] == rest[j - 1];
      assert IsLastEvidence(units, i + 1) <==> IsLastEvidence(rest, i);
    }
  }

  lemma ChargedInFront(u: Unit, rest: seq<Unit>)
    ensures Charged([u] + rest, 0) <==>
              IsText(u) || (!HasText(rest, u.family) && !HasEvidence(rest, u.family))
  {
    var units := [u] + rest;
    if !IsText(u) {
      TextSplits(u, rest, u.family);
      assert forall j | 0 <= j < |rest| :: units[j + 1] == rest[j];
      assert forall j | 0 < j < |units| :: units[j] == rest[j - 1];
      assert IsLastEvidence(units, 0) <==> !HasEvidence(rest, u.family);
    }
  }

  /** A family with evidence and no text has exactly one fallback position. */
  lemma FallbackExists(units: seq<Unit>, f: Family) returns (k: nat)
    requires HasEvidence(units, f) && !HasText(units, f)
    ensures k < |units| && IsEvidenceOf(units[k], f) && Charged(units, k)
    ensures forall i: nat | i < |units| && IsEvidenceOf(units[i], f) && Charged(units, i) :: i == k
  {
    var n := |units|;
    while n > 0 && !IsEvidenceOf(units[n - 1], f)
      invariant 0 <= n <= |units| && forall i | n <= i < |units| :: !IsEvidenceOf(units[i], f)
    {
      n := n - 1;
    }
    k := n - 1;
    assert IsLastEvidence(units, k);
  }

  ghost function Shifted(s: set<nat>): (r: set<nat>)
    ensures forall i: nat :: i in r <==> i > 0 && i - 1 in s
  {
    var r := set i | i in s :: i + 1;
    assert forall i: nat | i in s :: i + 1 in r;
    assert forall i: nat | i > 0 && i - 1 in s :: i in r by {
      forall i: nat | i > 0 && i - 1 in s ensures i in r { assert (i - 1) + 1 in r; }
    }
    r
  }

  lemma {:induction false} ShiftedSize(s: set<nat>)
    ensures |Shifted(s)| == |s|
  {
    if s == {} {
      assert Shifted(s) == {};
    } else {
      var x :| x in s;
      assert Shifted(s) == Shifted(s - {x}) + {x + 1};
      ShiftedSize(s - {x});
    }
  }

  /** The slot count is the number of charged units. */
  lemma {:induction false} SlotCountIsChargedSize(units: seq<Unit>)
    ensures SlotCount(units) == |ChargedSet(units)|
  {
    if units == [] {
      assert ChargedSet(units) == {};
    } else {
      var u, rest := units[0], units[1..];
      assert units == [u] + rest;
      SlotCountIsChargedSize(rest);
      ShiftedSize(ChargedSet(rest));
      ChargedInFront(u, rest);
      if u.Journal? && IsText(u) && HasEvidence(rest, u.family) && !HasText(rest, u.family) {
        var k := FallbackExists(rest, u.family);
        ChargedSetReplaces(u, rest, k);
        ShiftedSize(ChargedSet(rest) - {k});
      } else {
        ChargedSetExtends(u, rest);
      }
    }
  }

  lemma ChargedSetReplaces(u: Unit, rest: seq<Unit>, k: nat)
    requires u.Journal? && IsText(u) && k < |rest| && IsEvidenceOf(rest[k], u.family) && Charged(rest, k)
    requires forall i: nat | i < |rest| && IsEvidenceOf(rest[i], u.family) && Charged(rest, i) :: i == k
    ensures ChargedSet([u] + rest) == Shifted(ChargedSet(rest) - {k}) + {0}
  {
    var units := [u] + rest;
    ChargedInFront(u, rest);
    forall i: nat ensures i in ChargedSet(units) <==> i in Shifted(ChargedSet(rest) - {k}) + {0} {
      if 0 < i < |units| {
        ChargedBehind(u, rest, i - 1);
        assert IsText(rest[k]) == false;
      }
    }
  }

  lemma ChargedSetExtends(u: Unit, rest: seq<Unit>)
    requires !(u.Journal? && IsText(u) && HasEvidence(rest, u.family) && !HasText(rest, u.family))
    ensures ChargedSet([u] + rest) == Shifted(ChargedSet(rest)) + if Charged([u] + rest, 0) then {0} else {}
  {
    var units := [u] + rest;
    forall i: nat
      ensures i in ChargedSet(units) <==> i in Shifted(ChargedSet(rest)) + if Charged([u] + rest, 0) then {0} else {}
    {
      if 0 < i < |units| {
        ChargedBehind(u, rest, i - 1);
        if Charged(rest, i - 1) && u.Journal? && IsText(u) && IsEvidenceOf(rest[i - 1], u.family) {
          assert HasEvidence(rest, u.family);
        }
      }
    }
  }

  lemma IncreasingSize(s: seq<nat>, elements: set<nat>)
    requires Increasing(s) && forall i: nat :: i in s <==> i in elements
    ensures |s| == |elements|
  {
    if s == [] {
      assert elements == {};
    } else {
      var last := s[|s| - 1];
      var shorter := s[..|s| - 1];
      forall i: nat ensures i in shorter <==> i in elements - {last} {
        if i in shorter { assert i in s; }
      }
      IncreasingSize(shorter, elements - {last});
    }
  }

  lemma ListedCount(s: seq<nat>, units: seq<Unit>)
    requires ListsCharged(s, units)
    ensures |s| == SlotCount(units)
  {
    IncreasingSize(s, ChargedSet(units));
    SlotCountIsChargedSize(units);
  }

  /** A tool or timeline unit of this family. */
  predicate IsEvidence(u: Unit, f: Family) {
    u.Journal? && u.family == f && (u.kind == Tool || u.kind == TimelineItem)
  }

  /** Prose or a settled tail of this family. */
  predicate IsProse(u: Unit, f: Family) {
    u.Journal? && u.family == f && (u.kind == Prose || u.kind == SettledTail)
  }

  /** Messages, prose and settled tails always take a slot; a tool or timeline unit takes one exactly
      when its family has no prose and no settled tail and no such unit comes after it. */
  lemma ChargedByKind(units: seq<Unit>, i: nat)
    requires i < |units|
    ensures Charged(units, i) <==>
              || units[i].Message? || IsProse(units[i], units[i].family)
              || (&& (forall j | 0 <= j < |units| :: !IsProse(units[j], units[i].family))
                  && (forall j | i < j < |units| :: !IsEvidence(units[j], units[i].family)))
  {
    if units[i].Journal? {
      var f := units[i].family;
      assert forall j | 0 <= j < |units| :: IsProse(units[j], f) <==> IsTextOf(units[j], f);
      assert forall j | 0 <= j < |units| :: IsEvidence(units[j], f) <==> IsEvidenceOf(units[j], f);
    }
  }

  // ---------------------------------------------------------------- the loops of the source

  /** `Array.prototype.sort` on distinct numbers. */
  method SortAscending(s: seq<nat>) returns (r: seq<nat>)
    requires forall i, j | 0 <= i < j < |s| :: s[i] != s[j]
    ensures Increasing(r) && forall x :: x in r <==> x in s
  {
    r := [];
    for i := 0 to |s|
      invariant Increasing(r) && forall x :: x in r <==> x in s[..i]
    {
      assert s[i] !in r;
      r := InsertAscending(r, s[i]);
    }
    assert s[..|s|] == s;
  }

  method InsertAscending(s: seq<nat>, x: nat) returns (r: seq<nat>)
    requires Increasing(s) && x !in s
    ensures Increasing(r) && forall y :: y in r <==> y in s || y == x
  {
    var k := 0;
    while k < |s| && s[k] < x
      invariant 0 <= k <= |s| && forall i | 0 <= i < k :: s[i] < x
    {
      k := k + 1;
    }
    r := s[..k] + [x] + s[k..];
    assert forall y :: y in s <==> y in s[..k] || y in s[k..];
  }

  predicate FallbackOf(units: seq<Unit>, n: nat, fallback: map<Family, nat>)
    requires n <= |units|
  {
    && (forall f | f in fallback :: fallback[f] < n && IsEvidenceOf(units[fallback[f]], f) && !HasText(units, f))
    && (forall i | 0 <= i < n && !IsText(units[i]) && !HasText(units, units[i].family) ::
          units[i].family in fallback && i <= fallback[units[i].family])
  }

  /** `transcriptHistoryTextSlotIndices`. */
  method TextSlotIndices(units: seq<Unit>) returns (charged: seq<nat>)
    ensures ListsCharged(charged, units)
  {
    var textFamilies: set<Family> := {};
    for i := 0 to |units|
      invariant forall f :: f in textFamilies <==> exists k | 0 <= k < i :: IsTextOf(units[k], f)
    {
      if units[i].Journal? && IsText(units[i]) { textFamilies := textFamilies + {units[i].family}; }
    }
    assert forall f :: f in textFamilies <==> HasText(units, f);
    var fallback: map<Family, nat>, texts: seq<nat> := map[], [];
    for i := 0 to |units|
      invariant FallbackOf(units, i, fallback)
      invariant Increasing(texts) && forall k: nat :: k in texts <==> k < i && IsText(units[k])
    {
      if IsText(units[i]) {
        assert forall k | 0 <= k < |texts| :: texts[k] in texts;
        texts := texts + [i];
      } else if units[i].family !in textFamilies {
        fallback := fallback[units[i].family := i];
      }
    }
    charged := AppendValues(units, texts, fallback);
    FallbackIsCharged(units, fallback);
    charged := SortAscending(charged);
  }

  predicate IsFallback(units: seq<Unit>, k: nat, fallback: map<Family, nat>) {
    k < |units| && !IsText(units[k]) && units[k].family in fallback && fallback[units[k].family] == k
  }

  /** Push every value of the map. */
  method AppendValues(units: seq<Unit>, texts: seq<nat>, fallback: map<Family, nat>) returns (all: seq<nat>)
    requires Increasing(texts) && (forall k: nat :: k in texts <==> k < |units| && IsText(units[k]))
    requires FallbackOf(units, |units|, fallback)
    ensures forall i, j | 0 <= i < j < |all| :: all[i] != all[j]
    ensures forall k: nat :: k in all <==> k in texts || IsFallback(units, k, fallback)
  {
    all := texts;
    var families := fallback.Keys;
    while families != {}
      invariant families <= fallback.Keys
      invariant forall i, j | 0 <= i < j < |all| :: all[i] != all[j]
      invariant forall k: nat :: k in all <==>
          k in texts || (IsFallback(units, k, fallback) && units[k].family !in families)
      decreases |families|
    {
      var f :| f in families;
      assert IsFallback(units, fallback[f], fallback) && fallback[f] !in all;
      all := all + [fallback[f]];
      families := families - {f};
    }
  }

  lemma FallbackIsCharged(units: seq<Unit>, fallback: map<Family, nat>)
    requires FallbackOf(units, |units|, fallback)
    ensures forall k: nat | k < |units| && !IsText(units[k]) :: Charged(units, k) <==> IsFallback(units, k, fallback)
  {
    forall k: nat | k < |units| && !IsText(units[k])
      ensures Charged(units, k) <==> IsFallback(units, k, fallback)
    {
      var f := units[k].family;
      if Charged(units, k) {
        assert f in fallback && k <= fallback[f] && IsEvidenceOf(units[fallback[f]], f);
        assert fallback[f] == k;
      }
    }
  }
}
