/** What counts as code in a body, and who is addressed outside it, said without the scans that
    find it. */
module BodyGrammar {
  import opened Basics
  import opened BodyParser

  // ---------------------------------------------------------------- fenced blocks

  predicate NoFence(s: string, low: int, high: int) {
    forall q: nat | low <= q < high :: !IsFence(s, q)
  }

  /** From three backticks through the next three behind them, or to the end when there are none. */
  predicate IsFencedBlock(s: string, r: Range) {
    && r.start + 3 <= r.end <= |s| && IsFence(s, r.start)
    && (|| (r.start + 6 <= r.end && IsFence(s, r.end - 3) && NoFence(s, r.start + 3, r.end - 3))
        || (r.end == |s| && NoFence(s, r.start + 3, |s|)))
  }

  /** The fenced blocks of a text from `i` on, one behind the other; no fence starts between them. */
  predicate AreFencedBlocks(s: string, i: nat, ranges: seq<Range>)
    decreases |ranges|
  {
    if ranges == [] then NoFence(s, i, |s|)
    else
      && i <= ranges[0].start && NoFence(s, i, ranges[0].start)
      && IsFencedBlock(s, ranges[0]) && AreFencedBlocks(s, ranges[0].end, ranges[1..])
  }

  lemma {:induction false} NextFenceIsNext(s: string, i: nat)
    requires i <= |s|
    ensures NoFence(s, i, NextFence(s, i))
    decreases |s| - i
  {
    if i < |s| && !IsFence(s, i) { NextFenceIsNext(s, i + 1); }
  }

  lemma OneBlockMore(s: string, i: nat, first: Range, rest: seq<Range>)
    requires i <= first.start && NoFence(s, i, first.start) && IsFencedBlock(s, first) && AreFencedBlocks(s, first.end, rest)
    ensures AreFencedBlocks(s, i, [first] + rest)
  {
    assert ([first] + rest)[1..] == rest;
  }

  lemma BlockFrom(s: string, open: nat, close: nat)
    requires IsFence(s, open) && open + 3 <= close <= |s| && NoFence(s, open + 3, close) && (close < |s| ==> IsFence(s, close))
    ensures IsFencedBlock(s, Range(open, if close == |s| then |s| else close + 3))
  {
  }

  lemma {:induction false} FencesAreTheBlocks(s: string, i: nat)
    requires i <= |s|
    ensures AreFencedBlocks(s, i, Fences(s, i))
    decreases |s| - i
  {
    var open := NextFence(s, i);
    NextFenceIsNext(s, i);
    if open < |s| {
      var close := NextFence(s, open + 3);
      NextFenceIsNext(s, open + 3);
      BlockFrom(s, open, close);
      if close < |s| {
        FencesAreTheBlocks(s, close + 3);
        OneBlockMore(s, i, Range(open, close + 3), Fences(s, close + 3));
      } else {
        OneBlockMore(s, i, Range(open, |s|), []);
        assert [Range(open, |s|)] + [] == [Range(open, |s|)];
      }
    }
  }

  lemma SameBlock(s: string, i: nat, a: Range, b: Range)
    requires IsFencedBlock(s, a) && i <= a.start && NoFence(s, i, a.start)
    requires IsFencedBlock(s, b) && i <= b.start && NoFence(s, i, b.start)
    ensures a == b
  {
  }

  /** There is no other way to read the fences of a text. */
  lemma {:induction false} BlocksAreUnique(s: string, i: nat, a: seq<Range>, b: seq<Range>)
    requires AreFencedBlocks(s, i, a) && AreFencedBlocks(s, i, b)
    ensures a == b
    decreases |a|
  {
    if a != [] && b != [] {
      SameBlock(s, i, a[0], b[0]);
      BlocksAreUnique(s, a[0].end, a[1..], b[1..]);
      assert a == [a[0]] + a[1..] && b == [b[0]] + b[1..];
    }
  }

  // ---------------------------------------------------------------- inline code

  /** From a backtick through the next one, with no line end between. */
  predicate IsInlineSpan(s: string, r: Range) {
    && r.start + 2 <= r.end <= |s| && s[r.start] == '`' && s[r.end - 1] == '`'
    && forall q: nat | r.start < q < r.end - 1 :: s[q] != '`' && s[q] != '\n'
  }

  predicate HasLineEnd(s: string, low: nat, high: nat) {
    exists k: nat | low <= k < high && k < |s| :: s[k] == '\n'
  }

  /** A backtick with no other behind it on its line. */
  predicate IsLoneTick(s: string, q: nat) {
    q < |s| && s[q] == '`' && forall r: nat | q < r < |s| && s[r] == '`' :: HasLineEnd(s, q + 1, r)
  }

  predicate TicksAreLone(s: string, low: nat, high: nat) {
    forall q: nat | low <= q < high && q < |s| && s[q] == '`' :: IsLoneTick(s, q)
  }

  /** The inline code of a text from `i` on, one span behind the other; every backtick between them
      is alone. */
  predicate AreInlineSpans(s: string, i: nat, ranges: seq<Range>)
    decreases |ranges|
  {
    if ranges == [] then TicksAreLone(s, i, |s|)
    else
      && i <= ranges[0].start && TicksAreLone(s, i, ranges[0].start)
      && IsInlineSpan(s, ranges[0]) && AreInlineSpans(s, ranges[0].end, ranges[1..])
  }

  lemma LineEndFarther(s: string, low: nat, low': nat, high: nat)
    requires low <= low' && HasLineEnd(s, low', high)
    ensures HasLineEnd(s, low, high)
  {
    var k: nat :| low' <= k < high && k < |s| && s[k] == '\n';
    assert s[k] == '\n';
  }

  lemma {:induction false} LineTickIsNext(s: string, i: nat)
    requires i <= |s|
    ensures LineTick(s, i) < |s| ==>
              s[LineTick(s, i)] == '`' && forall q: nat | i <= q < LineTick(s, i) :: s[q] != '`' && s[q] != '\n'
    ensures LineTick(s, i) == |s| ==> forall r: nat | i <= r < |s| && s[r] == '`' :: HasLineEnd(s, i, r)
    decreases |s| - i
  {
    if i < |s| && s[i] != '\n' && s[i] != '`' {
      LineTickIsNext(s, i + 1);
      if LineTick(s, i) == |s| {
        forall r: nat | i <= r < |s| && s[r] == '`' ensures HasLineEnd(s, i, r) {
          LineEndFarther(s, i, i + 1, r);
        }
      }
    } else if i < |s| && s[i] == '\n' {
      forall r: nat | i <= r < |s| && s[r] == '`' ensures HasLineEnd(s, i, r) {
        assert s[i] == '\n';
      }
    }
  }

  lemma OneCharacterMore(s: string, i: nat, ranges: seq<Range>)
    requires i < |s| && AreInlineSpans(s, i + 1, ranges) && (s[i] == '`' ==> IsLoneTick(s, i))
    ensures AreInlineSpans(s, i, ranges)
  {
  }

  lemma {:induction false} InlineCodeIsTheSpans(s: string, i: nat)
    requires i <= |s|
    ensures AreInlineSpans(s, i, InlineCode(s, i))
    decreases |s| - i
  {
    if i < |s| {
      var close := if s[i] == '`' then LineTick(s, i + 1) else |s|;
      LineTickIsNext(s, i + 1);
      if close == |s| {
        InlineCodeIsTheSpans(s, i + 1);
        OneCharacterMore(s, i, InlineCode(s, i + 1));
      } else {
        InlineCodeIsTheSpans(s, close + 1);
        assert InlineCode(s, i)[1..] == InlineCode(s, close + 1);
      }
    }
  }

  lemma SpanStartIsNotAlone(s: string, r: Range)
    requires IsInlineSpan(s, r)
    ensures !IsLoneTick(s, r.start)
  {
    assert s[r.end - 1] == '`' && !HasLineEnd(s, r.start + 1, r.end - 1);
  }

  lemma SameSpan(s: string, i: nat, a: Range, b: Range)
    requires IsInlineSpan(s, a) && i <= a.start && TicksAreLone(s, i, a.start)
    requires IsInlineSpan(s, b) && i <= b.start && TicksAreLone(s, i, b.start)
    ensures a == b
  {
    SpanStartIsNotAlone(s, a);
    SpanStartIsNotAlone(s, b);
  }

  /** There is no other way to read the inline code of a text. */
  lemma {:induction false} SpansAreUnique(s: string, i: nat, a: seq<Range>, b: seq<Range>)
    requires AreInlineSpans(s, i, a) && AreInlineSpans(s, i, b)
    ensures a == b
    decreases |a|
  {
    if a != [] { SpanStartIsNotAlone(s, a[0]); }
    if b != [] { SpanStartIsNotAlone(s, b[0]); }
    if a != [] && b != [] {
      SameSpan(s, i, a[0], b[0]);
      SpansAreUnique(s, a[0].end, a[1..], b[1..]);
      assert a == [a[0]] + a[1..] && b == [b[0]] + b[1..];
    }
  }

  /** The code of a body is its fenced blocks, and the inline code of what is left when they are
      blanked; and these are the only ranges that are. */
  lemma CodeIsThisExactly(body: string, fences: seq<Range>, inline: seq<Range>)
    ensures AreFencedBlocks(body, 0, fences) && AreInlineSpans(Blanked(body, fences), 0, inline)
            <==> fences == Fences(body, 0) && inline == InlineCode(Blanked(body, fences), 0)
    ensures AreFencedBlocks(body, 0, fences) && AreInlineSpans(Blanked(body, fences), 0, inline) ==>
              CodeSpans(body) == fences + inline
  {
    FencesAreTheBlocks(body, 0);
    InlineCodeIsTheSpans(Blanked(body, fences), 0);
    if AreFencedBlocks(body, 0, fences) { BlocksAreUnique(body, 0, fences, Fences(body, 0)); }
    if AreInlineSpans(Blanked(body, fences), 0, inline) {
      SpansAreUnique(Blanked(body, fences), 0, inline, InlineCode(Blanked(body, fences), 0));
    }
  }

  /** Blanking moves no offset and no line end: a covered character is a space, unless it ends a
      line, and every other is as it was. */
  lemma BlankingKeepsLines(body: string, ranges: seq<Range>, i: nat)
    requires i < |body|
    ensures |Blanked(body, ranges)| == |body|
    ensures Blanked(body, ranges)[i] == if IsOutside(ranges, i) || body[i] == '\n' then body[i] else ' '
  {
    if !Covered(ranges, i) {
      forall k | 0 <= k < |ranges| ensures i < ranges[k].start || ranges[k].end <= i {
        assert !Covers(ranges[k], i);
      }
    } else {
      var k :| 0 <= k < |ranges| && Covers(ranges[k], i);
      assert !(i < ranges[k].start || ranges[k].end <= i);
    }
  }

  /** No range covers this place. */
  predicate IsOutside(ranges: seq<Range>, q: nat) {
    forall k | 0 <= k < |ranges| :: q < ranges[k].start || ranges[k].end <= q
  }

  // ---------------------------------------------------------------- where a mention starts

  /** Everything from `q` up to `p` is part of the handle behind the `@` at `q`. */
  predicate RunsInto(s: string, q: nat, p: nat) {
    q < p <= |s| && forall k: nat | q < k < p :: IsHandleChar(s[k])
  }

  /** A mention starts at an `@` before a letter or digit, at the very start or behind a character
      that is no word character, backtick or `@`, and that no earlier mention has taken. */
  predicate Starts(s: string, p: nat)
    decreases p
  {
    && p + 1 < |s| && s[p] == '@' && ('a' <= s[p + 1] <= 'z' || '0' <= s[p + 1] <= '9')
    && (p == 0 || (
          && !IsWord(s[p - 1]) && s[p - 1] != '`' && s[p - 1] != '@'
          && forall q: nat | q < p && Starts(s, q) :: !RunsInto(s, q, p)))
  }

  lemma {:induction false} HandleEndRuns(s: string, i: nat, p: nat)
    requires i <= p <= |s|
    ensures p <= HandleEnd(s, i) <==> forall k: nat | i <= k < p :: IsHandleChar(s[k])
    decreases |s| - i
  {
  }

  lemma MatchEnds(s: string, m: Range)
    requires m in Matches(s, 0)
    ensures IsAt(s, m.start) && m.end == HandleEnd(s, m.start + 1)
  {
    MatchesAreApart(s, 0);
  }

  lemma MatchThere(ranges: seq<Range>, p: nat) returns (m: Range)
    requires StartsAt(ranges, p)
    ensures m in ranges && m.start == p
  {
    var k :| 0 <= k < |ranges| && ranges[k].start == p;
    m := ranges[k];
  }

  lemma MatchIsThere(ranges: seq<Range>, m: Range)
    requires m in ranges
    ensures StartsAt(ranges, m.start) && forall i :: Covers(m, i) ==> Covered(ranges, i)
  {
    var k :| 0 <= k < |ranges| && ranges[k] == m;
    assert ranges[k].start == m.start;
    forall i | Covers(m, i) ensures Covered(ranges, i) {
      assert Covers(ranges[k], i);
    }
  }

  lemma MatchCovers(s: string, p: nat)
    requires 0 < p <= |s| && s[p - 1] != '@'
    ensures Covered(Matches(s, 0), p - 1) <==> exists q: nat :: q < p && StartsAt(Matches(s, 0), q) && RunsInto(s, q, p)
  {
    var matches := Matches(s, 0);
    if Covered(matches, p - 1) {
      var k :| 0 <= k < |matches| && Covers(matches[k], p - 1);
      MatchEnds(s, matches[k]);
      HandleEndRuns(s, matches[k].start + 1, p);
      assert StartsAt(matches, matches[k].start) && RunsInto(s, matches[k].start, p);
    }
    if q: nat :| q < p && StartsAt(matches, q) && RunsInto(s, q, p) {
      var m := MatchThere(matches, q);
      MatchEnds(s, m);
      HandleEndRuns(s, q + 1, p);
      MatchIsThere(matches, m);
      assert Covers(m, p - 1);
    }
  }

  /** These are the places where a scan finds a mention. */
  lemma {:induction false} StartsWhereMatched(s: string, p: nat)
    requires p < |s|
    ensures Starts(s, p) <==> StartsAt(Matches(s, 0), p)
    decreases p
  {
    MatchesAreTheseExactly(s, 0, p);
    if p > 0 && s[p - 1] != '@' {
      MatchCovers(s, p);
      forall q: nat | q < p ensures Starts(s, q) <==> StartsAt(Matches(s, 0), q) {
        StartsWhereMatched(s, q);
      }
    }
  }

  // ---------------------------------------------------------------- who is addressed

  /** The last member with this handle. */
  predicate IsLastNamed(members: seq<Member>, k: nat, handle: string) {
    k < |members| && members[k].handle == handle && forall l: nat | k < l < |members| :: members[l].handle != handle
  }

  lemma {:induction false} ByHandleIsLast(members: seq<Member>, k: nat, handle: string)
    requires IsLastNamed(members, k, handle)
    ensures ByHandle(members, handle) == Some(members[k])
  {
    var n := |members| - 1;
    if k < n {
      assert members[n].handle != handle;
      ByHandleIsLast(members[..n], k, handle);
    }
  }

  lemma {:induction false} LastNamed(members: seq<Member>, handle: string) returns (k: nat)
    requires ByHandle(members, handle).Some?
    ensures IsLastNamed(members, k, handle)
  {
    var n := |members| - 1;
    if members[n].handle == handle { k := n; } else { k := LastNamed(members[..n], handle); }
  }

  /** A handle that a member can be addressed by. */
  predicate IsUsableHandle(h: string) {
    && 2 <= |h| <= 31 && h != "all" && h != "switchboard"
    && ('a' <= h[0] <= 'z' || '0' <= h[0] <= '9')
    && forall i | 0 <= i < |h| :: 'a' <= h[i] <= 'z' || '0' <= h[i] <= '9' || h[i] == '-'
  }

  /** The text names this member at this place: an `@`, the whole handle behind it, and the last
      member of that handle, a human or an agent. */
  predicate Addresses(scan: string, members: seq<Member>, x: Mention, k: nat) {
    var r := x.span;
    && r.start + 1 < r.end <= |scan| && Starts(scan, r.start)
    && RunsInto(scan, r.start, r.end) && (r.end == |scan| || !IsHandleChar(scan[r.end]))
    && IsUsableHandle(scan[r.start + 1..r.end]) && IsLastNamed(members, k, scan[r.start + 1..r.end])
    && (members[k].kind == Human || members[k].kind == Agent) && x.memberId == members[k].id
  }

  lemma WholeHandle(s: string, r: Range)
    requires r.start + 1 <= r.end <= |s|
    ensures r.end == HandleEnd(s, r.start + 1) <==> RunsInto(s, r.start, r.end) && (r.end == |s| || !IsHandleChar(s[r.end]))
  {
    HandleEndRuns(s, r.start + 1, r.end);
    if r.end < |s| { HandleEndRuns(s, r.start + 1, r.end + 1); }
  }

  lemma ReadsAsAddressed(scan: string, members: seq<Member>, x: Mention)
    requires x.span.start + 1 < x.span.end <= |scan|
    ensures ReadMatch(scan, members, x.span) == Mentions(x) <==>
              exists k: nat :: && IsLastNamed(members, k, scan[x.span.start + 1..x.span.end])
                               && IsUsableHandle(scan[x.span.start + 1..x.span.end])
                               && (members[k].kind == Human || members[k].kind == Agent) && x.memberId == members[k].id
  {
    var handle := scan[x.span.start + 1..x.span.end];
    assert IsUsableHandle(handle) <==> IsHandle(handle) && !IsReserved(handle);
    if ReadMatch(scan, members, x.span) == Mentions(x) {
      var k := LastNamed(members, handle);
      ByHandleIsLast(members, k, handle);
    }
    if k: nat :| && IsLastNamed(members, k, handle) && IsUsableHandle(handle)
                 && (members[k].kind == Human || members[k].kind == Agent) && x.memberId == members[k].id {
      ByHandleIsLast(members, k, handle);
    }
  }

  lemma {:induction false} MentionsOfMatches(scan: string, members: seq<Member>, matches: seq<Range>, x: Mention)
    requires AreMatches(scan, matches)
    ensures x in LocalMentions(scan, members, matches) <==>
              x.span in matches && x.span.start + 1 < x.span.end <= |scan| && ReadMatch(scan, members, x.span) == Mentions(x)
  {
    if matches != [] {
      var n := |matches| - 1;
      MentionsOfMatches(scan, members, matches[..n], x);
      var last := ReadMatch(scan, members, matches[n]);
      assert last.Mentions? ==> last.mention.span == matches[n];
      assert matches == matches[..n] + [matches[n]];
    }
  }

  lemma MatchedRange(s: string, r: Range)
    requires r.start < |s|
    ensures r in Matches(s, 0) <==> StartsAt(Matches(s, 0), r.start) && r.end == HandleEnd(s, r.start + 1)
  {
    if StartsAt(Matches(s, 0), r.start) {
      var m := MatchThere(Matches(s, 0), r.start);
      MatchEnds(s, m);
    }
    if r in Matches(s, 0) {
      MatchEnds(s, r);
      MatchIsThere(Matches(s, 0), r);
    }
  }

  lemma MatchedIsWhole(scan: string, r: Range)
    requires r.start + 1 < r.end <= |scan|
    ensures r in Matches(scan, 0) <==>
              Starts(scan, r.start) && RunsInto(scan, r.start, r.end) && (r.end == |scan| || !IsHandleChar(scan[r.end]))
  {
    MatchedRange(scan, r);
    StartsWhereMatched(scan, r.start);
    WholeHandle(scan, r);
  }

  lemma AddressedIsMentioned(scan: string, members: seq<Member>, x: Mention)
    requires AreMatches(scan, Matches(scan, 0))
    ensures x in LocalMentions(scan, members, Matches(scan, 0)) <==> exists k: nat :: Addresses(scan, members, x, k)
  {
    var r := x.span;
    MentionsOfMatches(scan, members, Matches(scan, 0), x);
    if r.start + 1 < r.end <= |scan| {
      MatchedIsWhole(scan, r);
      ReadsAsAddressed(scan, members, x);
      if r in Matches(scan, 0) && ReadMatch(scan, members, r) == Mentions(x) {
        var k: nat :| && IsLastNamed(members, k, scan[r.start + 1..r.end]) && IsUsableHandle(scan[r.start + 1..r.end])
                      && (members[k].kind == Human || members[k].kind == Agent) && x.memberId == members[k].id;
        assert Addresses(scan, members, x, k);
      }
    }
  }

  /** The local mentions of a body are exactly these: in what is left when code and qualified tokens
      are blanked, an `@` where a mention can start, and behind it the whole handle of a human or an
      agent, the last member of that handle, and not a reserved one. */
  lemma LocalMentionsExactly(body: string, members: seq<Member>, candidates: seq<Candidate>, x: Mention)
    ensures x in LocalsOf(body, members, candidates) <==> exists k: nat :: Addresses(Scan(body, candidates), members, x, k)
  {
    MatchesFit(Scan(body, candidates));
    AddressedIsMentioned(Scan(body, candidates), members, x);
  }
}
