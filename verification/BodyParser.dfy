/** The mention grammar of a message body (`packages/protocol/src/body.ts`).

    Code spans and qualified tokens are blanked out of a copy of the body that keeps every offset,
    and local mentions are looked for in what is left.  A character stands for a UTF-16 code unit.
    The scan for qualified tokens gives an ordered list of ranges, each with its outcome. */
module BodyParser {
  import opened Basics

  datatype Range = Range(start: nat, end: nat)

  predicate Covers(r: Range, i: int) {
    r.start <= i < r.end
  }

  predicate Covered(ranges: seq<Range>, i: int) {
    exists k | 0 <= k < |ranges| :: Covers(ranges[k], i)
  }

  // ---------------------------------------------------------------- blanking

  function BlankOf(c: char): char {
    if c == '\n' then '\n' else ' '
  }

  /** The body with some ranges blanked: no offset moves, and line ends stay. */
  function Blanked(body: string, ranges: seq<Range>): (r: string)
    ensures |r| == |body|
    ensures forall i | 0 <= i < |r| :: r[i] == if Covered(ranges, i) then BlankOf(body[i]) else body[i]
  {
    seq(|body|, i requires 0 <= i < |body| => if Covered(ranges, i) then BlankOf(body[i]) else body[i])
  }

  method BlankOne(chars: array<char>, r: Range)
    modifies chars
    ensures forall i | 0 <= i < chars.Length :: chars[i] == if Covers(r, i) then BlankOf(old(chars[i])) else old(chars[i])
  {
    var index := r.start;
    while index < r.end && index < chars.Length
      invariant r.start <= index && (index <= r.end || index == r.start)
      invariant forall i | 0 <= i < chars.Length ::
                  chars[i] == if r.start <= i < index then BlankOf(old(chars[i])) else old(chars[i])
    {
      if chars[index] != '\n' {
        chars[index] := ' ';
      }
      index := index + 1;
    }
  }

  /** `blankRanges`. */
  method BlankRanges(body: string, ranges: seq<Range>) returns (blanked: string)
    ensures blanked == Blanked(body, ranges)
  {
    if |ranges| == 0 {
      assert Blanked(body, ranges) == body;
      return body;
    }
    var chars := new char[|body|](i requires 0 <= i < |body| => body[i]);
    for k := 0 to |ranges|
      invariant chars[..] == Blanked(body, ranges[..k])
    {
      ghost var was := chars[..];
      BlankOne(chars, ranges[k]);
      assert ranges[..k + 1] == ranges[..k] + [ranges[k]];
      BlankedMore(body, ranges[..k], ranges[k], was, chars[..]);
    }
    assert ranges[..|ranges|] == ranges;
    blanked := chars[..];
  }

  lemma BlankedMore(body: string, ranges: seq<Range>, r: Range, was: string, now: string)
    requires was == Blanked(body, ranges) && |now| == |was|
    requires forall i | 0 <= i < |now| :: now[i] == if Covers(r, i) then BlankOf(was[i]) else was[i]
    ensures now == Blanked(body, ranges + [r])
  {
    CoveredMore(ranges, r);
  }

  lemma CoveredMore(ranges: seq<Range>, r: Range)
    ensures forall i :: Covered(ranges + [r], i) <==> Covered(ranges, i) || Covers(r, i)
  {
    forall i ensures Covered(ranges + [r], i) <==> Covered(ranges, i) || Covers(r, i) {
      var all := ranges + [r];
      if Covered(ranges, i) {
        var k :| 0 <= k < |ranges| && Covers(ranges[k], i);
        assert Covers(all[k], i);
      }
      if Covers(r, i) { assert Covers(all[|ranges|], i); }
    }
  }

  predicate IsFence(s: string, i: nat) {
    i + 3 <= |s| && s[i] == '`' && s[i + 1] == '`' && s[i + 2] == '`'
  }

  /** The next fence at or after `i`, or the end. */
  function NextFence(s: string, i: nat): (r: nat)
    requires i <= |s|
    ensures i <= r <= |s| && (r < |s| ==> IsFence(s, r))
    decreases |s| - i
  {
    if i == |s| || IsFence(s, i) then i else NextFence(s, i + 1)
  }

  /** Fenced blocks: from a fence through the next one, or to the end. */
  function Fences(s: string, i: nat): seq<Range>
    requires i <= |s|
    decreases |s| - i
  {
    var open := NextFence(s, i);
    if open == |s| then []
    else
      var close := NextFence(s, open + 3);
      if close == |s| then [Range(open, |s|)] else [Range(open, close + 3)] + Fences(s, close + 3)
  }

  /** The next backtick on the line of `i`, or the end. */
  function LineTick(s: string, i: nat): (r: nat)
    requires i <= |s|
    ensures i <= r <= |s|
    decreases |s| - i
  {
    if i == |s| || s[i] == '\n' then |s| else if s[i] == '`' then i else LineTick(s, i + 1)
  }

  /** Inline code: from a backtick through the next one on the same line. */
  function InlineCode(s: string, i: nat): seq<Range>
    requires i <= |s|
    decreases |s| - i
  {
    if i == |s| then []
    else if s[i] != '`' then InlineCode(s, i + 1)
    else
      var close := LineTick(s, i + 1);
      if close == |s| then InlineCode(s, i + 1) else [Range(i, close + 1)] + InlineCode(s, close + 1)
  }

  function CodeSpans(body: string): seq<Range> {
    Fences(body, 0) + InlineCode(Blanked(body, Fences(body, 0)), 0)
  }

  /** `blankCodeSpans`. */
  function Coded(body: string): string {
    var outside := Blanked(body, Fences(body, 0));
    Blanked(outside, InlineCode(outside, 0))
  }

  /** What is not blank in the blanked copy is what the body has there, outside all code. */
  lemma CodeIsBlank(body: string, i: nat)
    requires i < |body|
    ensures |Coded(body)| == |body|
    ensures Coded(body)[i] == body[i] || Coded(body)[i] == ' '
    ensures Coded(body)[i] != ' ' && Coded(body)[i] != '\n' ==> Coded(body)[i] == body[i] && !Covered(CodeSpans(body), i)
  {
    var fences := Fences(body, 0);
    var inline := InlineCode(Blanked(body, fences), 0);
    if Covered(fences + inline, i) {
      var k :| 0 <= k < |fences + inline| && Covers((fences + inline)[k], i);
      if k < |fences| {
        assert Covers(fences[k], i);
      } else {
        assert Covers(inline[k - |fences|], i);
      }
    }
  }

  // ---------------------------------------------------------------- the local scan

  /** A character right before an `@` that keeps it from starting a mention. */
  predicate Blocks(c: char) {
    IsWord(c) || c == '`' || c == '@'
  }

  predicate IsHandleStart(c: char) {
    'a' <= c <= 'z' || '0' <= c <= '9'
  }

  predicate IsHandleChar(c: char) {
    IsHandleStart(c) || c == '-'
  }

  predicate IsHandle(h: string) {
    2 <= |h| <= 31 && IsHandleStart(h[0]) && forall i | 0 <= i < |h| :: IsHandleChar(h[i])
  }

  function HandleEnd(s: string, i: nat): (r: nat)
    requires i <= |s|
    ensures i <= r <= |s| && forall k | i <= k < r :: IsHandleChar(s[k])
    ensures r < |s| ==> !IsHandleChar(s[r])
    decreases |s| - i
  {
    if i < |s| && IsHandleChar(s[i]) then HandleEnd(s, i + 1) else i
  }

  predicate IsAt(s: string, p: int) {
    0 <= p && p + 1 < |s| && s[p] == '@' && IsHandleStart(s[p + 1])
  }

  /** A match at position `i` of the expression: at the very start, or behind a character that
      does not block, which the match takes along. */
  function MatchAt(s: string, i: nat): (r: Option<Range>)
    ensures r.Some? ==> i <= r.value.start && r.value.start + 1 < r.value.end <= |s|
    ensures r.Some? ==> IsAt(s, r.value.start) && r.value.end == HandleEnd(s, r.value.start + 1)
  {
    if i == 0 && IsAt(s, 0) then Some(Range(0, HandleEnd(s, 1)))
    else if i < |s| && !Blocks(s[i]) && IsAt(s, i + 1) then Some(Range(i + 1, HandleEnd(s, i + 2)))
    else None
  }

  /** `matchAll`: every next match is looked for behind the last. */
  function Matches(s: string, i: nat): seq<Range>
    requires i <= |s|
    decreases |s| - i
  {
    if i == |s| then []
    else
      var m := MatchAt(s, i);
      if m.None? then Matches(s, i + 1) else [m.value] + Matches(s, m.value.end)
  }

  predicate AreApart(ranges: seq<Range>, from: nat) {
    && (forall k | 0 <= k < |ranges| :: from <= ranges[k].start < ranges[k].end)
    && (forall j, k | 0 <= j < k < |ranges| :: ranges[j].end <= ranges[k].start)
  }

  lemma {:induction false} MatchesAreApart(s: string, i: nat)
    requires i <= |s|
    ensures AreApart(Matches(s, i), i)
    ensures forall m | m in Matches(s, i) :: IsAt(s, m.start) && m.end == HandleEnd(s, m.start + 1) && m.end <= |s|
    decreases |s| - i
  {
    if i < |s| {
      var m := MatchAt(s, i);
      MatchesAreApart(s, if m.None? then i + 1 else m.value.end);
    }
  }


  predicate StartsAt(ranges: seq<Range>, p: nat) {
    exists k | 0 <= k < |ranges| :: ranges[k].start == p
  }

  lemma FirstOr(m: Range, rest: seq<Range>, p: nat)
    ensures StartsAt([m] + rest, p) <==> m.start == p || StartsAt(rest, p)
    ensures Covered([m] + rest, p) <==> Covers(m, p) || Covered(rest, p)
  {
    var all := [m] + rest;
    if StartsAt(rest, p) {
      var k :| 0 <= k < |rest| && rest[k].start == p;
      assert all[k + 1].start == p;
    }
    if Covered(rest, p) {
      var k :| 0 <= k < |rest| && Covers(rest[k], p);
      assert Covers(all[k + 1], p);
    }
    assert all[0] == m;
  }

  /** The `@` at `p` is where a scan from `i` finds a mention. */
  predicate IsMentioned(s: string, i: nat, p: nat)
    requires i <= |s| && p < |s|
  {
    IsAt(s, p) && ((p == 0 && i == 0) || (i < p && !Blocks(s[p - 1]) && !Covered(Matches(s, i), p - 1)))
  }

  lemma NoneEarlier(ranges: seq<Range>, from: nat, p: nat)
    requires AreApart(ranges, from) && p < from
    ensures !StartsAt(ranges, p) && !Covered(ranges, p)
  {
  }

  lemma ScanGoesOn(s: string, i: nat, p: nat)
    requires i < |s| && p < |s| && MatchAt(s, i).None?
    ensures Matches(s, i) == Matches(s, i + 1)
    ensures p == i ==> !StartsAt(Matches(s, i), p) && !IsMentioned(s, i, p)
    ensures i < p ==> (IsMentioned(s, i, p) <==> IsMentioned(s, i + 1, p))
  {
    MatchesAreApart(s, i + 1);
    if p == i || p == i + 1 { NoneEarlier(Matches(s, i + 1), i + 1, i); }
  }

  lemma FindsHere(s: string, i: nat, p: nat, m: Range, rest: seq<Range>)
    requires i < |s| && i <= p < |s| && MatchAt(s, i) == Some(m) && p < m.end && AreApart(rest, m.end)
    requires Matches(s, i) == [m] + rest
    ensures StartsAt(Matches(s, i), p) <==> p == m.start
    ensures IsMentioned(s, i, p) <==> p == m.start
  {
    FirstOr(m, rest, p);
    NoneEarlier(rest, m.end, p);
    if p > 0 {
      FirstOr(m, rest, p - 1);
      NoneEarlier(rest, m.end, p - 1);
    }
  }

  lemma FindsLater(s: string, i: nat, p: nat, m: Range, rest: seq<Range>)
    requires i < |s| && MatchAt(s, i) == Some(m) && m.end <= p < |s| && AreApart(rest, m.end)
    requires rest == Matches(s, m.end) && Matches(s, i) == [m] + rest
    ensures StartsAt(Matches(s, i), p) <==> StartsAt(rest, p)
    ensures IsMentioned(s, i, p) <==> IsMentioned(s, m.end, p)
  {
    FirstOr(m, rest, p);
    FirstOr(m, rest, p - 1);
    if p == m.end { NoneEarlier(rest, m.end, p - 1); }
  }

  /** Exactly these are matched: an `@` before a handle that is at the start, or behind a character
      that neither blocks nor belongs to the match before. */
  lemma {:induction false} MatchesAreTheseExactly(s: string, i: nat, p: nat)
    requires i <= p < |s|
    ensures StartsAt(Matches(s, i), p) <==> IsMentioned(s, i, p)
    decreases |s| - i
  {
    if MatchAt(s, i).None? {
      ScanGoesOn(s, i, p);
      if i < p { MatchesAreTheseExactly(s, i + 1, p); }
    } else {
      var m := MatchAt(s, i).value;
      var rest := Matches(s, m.end);
      MatchesAreApart(s, m.end);
      if p < m.end {
        FindsHere(s, i, p, m, rest);
      } else {
        FindsLater(s, i, p, m, rest);
        MatchesAreTheseExactly(s, m.end, p);
      }
    }
  }

  // ---------------------------------------------------------------- members and mentions

  datatype MemberKind = Human | Agent | Extension | System | Bridge

  datatype Member = Member(id: string, kind: MemberKind, handle: string)

  predicate IsAddressable(m: Member) {
    m.kind.Human? || m.kind.Agent?
  }

  /** `new Map(members…)`: of members with one handle, the last. */
  function ByHandle(members: seq<Member>, handle: string): (r: Option<Member>)
    ensures r.Some? ==> r.value in members && r.value.handle == handle
    ensures r.None? ==> forall m | m in members :: m.handle != handle
  {
    if members == [] then None
    else if members[|members| - 1].handle == handle then Some(members[|members| - 1])
    else ByHandle(members[..|members| - 1], handle)
  }

  datatype Mention = Mention(memberId: string, span: Range)

  /** What became of a qualified token: the member it names, or a refusal. */
  datatype Outcome = Resolved(memberId: string) | Refused(reason: string)

  datatype Candidate = Candidate(span: Range, outcome: Outcome)

  predicate IsReserved(handle: string) {
    handle == "all" || handle == "switchboard"
  }

  datatype Reading = Mentions(mention: Mention) | Unknown(handle: string) | Ignored

  function ReadMatch(scan: string, members: seq<Member>, m: Range): Reading
    requires m.start + 1 < m.end <= |scan|
  {
    var handle := scan[m.start + 1..m.end];
    if !IsHandle(handle) || IsReserved(handle) then Ignored
    else
      var member := ByHandle(members, handle);
      if member.None? then Unknown(handle)
      else if IsAddressable(member.value) then Mentions(Mention(member.value.id, m))
      else Ignored
  }

  predicate AreMatches(scan: string, matches: seq<Range>) {
    forall k | 0 <= k < |matches| :: matches[k].start + 1 < matches[k].end <= |scan|
  }

  function LocalMentions(scan: string, members: seq<Member>, matches: seq<Range>): seq<Mention>
    requires AreMatches(scan, matches)
  {
    if matches == [] then []
    else
      var before, last := matches[..|matches| - 1], ReadMatch(scan, members, matches[|matches| - 1]);
      LocalMentions(scan, members, before) + if last.Mentions? then [last.mention] else []
  }

  function Qualified(candidates: seq<Candidate>): seq<Mention> {
    if candidates == [] then []
    else
      var last := candidates[|candidates| - 1];
      Qualified(candidates[..|candidates| - 1]) +
      if last.outcome.Resolved? then [Mention(last.outcome.memberId, last.span)] else []
  }

  function Spans(candidates: seq<Candidate>): (r: seq<Range>)
    ensures |r| == |candidates| && forall k | 0 <= k < |r| :: r[k] == candidates[k].span
  {
    seq(|candidates|, k requires 0 <= k < |candidates| => candidates[k].span)
  }

  /** What the scan for qualified tokens promises: ordered ranges that do not overlap, and a
      resolved one holds no blank. */
  ghost predicate AreCandidates(coded: string, candidates: seq<Candidate>) {
    && AreApart(Spans(candidates), 0)
    && (forall k | 0 <= k < |candidates| :: candidates[k].span.end <= |coded|)
    && (forall k, i | 0 <= k < |candidates| && candidates[k].outcome.Resolved? && Covers(candidates[k].span, i) ::
          coded[i] != ' ' && coded[i] != '\n')
  }

  function Scan(body: string, candidates: seq<Candidate>): (r: string)
    ensures |r| == |body|
  {
    Blanked(Coded(body), Spans(candidates))
  }

  /** Stable, by start. */
  function Insert(sorted: seq<Mention>, m: Mention): seq<Mention> {
    if sorted == [] || sorted[|sorted| - 1].span.start <= m.span.start then sorted + [m]
    else Insert(sorted[..|sorted| - 1], m) + [sorted[|sorted| - 1]]
  }

  function Sort(mentions: seq<Mention>): seq<Mention> {
    if mentions == [] then [] else Insert(Sort(mentions[..|mentions| - 1]), mentions[|mentions| - 1])
  }

  function LocalsOf(body: string, members: seq<Member>, candidates: seq<Candidate>): seq<Mention> {
    var scan := Scan(body, candidates);
    MatchesAreApart(scan, 0);
    MatchesFit(scan);
    LocalMentions(scan, members, Matches(scan, 0))
  }

  lemma MatchesFit(scan: string)
    ensures AreMatches(scan, Matches(scan, 0))
  {
    MatchesAreApart(scan, 0);
    forall k | 0 <= k < |Matches(scan, 0)|
      ensures Matches(scan, 0)[k].start + 1 < Matches(scan, 0)[k].end <= |scan|
    {
      assert Matches(scan, 0)[k] in Matches(scan, 0);
    }
  }

  /** The mentions of `parseBody`. */
  function ParsedMentions(body: string, members: seq<Member>, candidates: seq<Candidate>): seq<Mention> {
    var locals := LocalsOf(body, members, candidates);
    if candidates == [] then locals else Sort(locals + Qualified(candidates))
  }

  /** The loops of `parseBody` over the candidates and over the matches. */
  method ParseBody(body: string, members: seq<Member>, candidates: seq<Candidate>) returns (mentions: seq<Mention>)
    ensures mentions == ParsedMentions(body, members, candidates)
  {
    var coded := Coded(body);
    var occupied: seq<Range>, qualified: seq<Mention>, issues: nat := [], [], 0;
    for k := 0 to |candidates|
      invariant occupied == Spans(candidates[..k]) && qualified == Qualified(candidates[..k])
      invariant |qualified| + issues == k
    {
      assert candidates[..k + 1][..k] == candidates[..k];
      occupied := occupied + [candidates[k].span];
      if candidates[k].outcome.Resolved? {
        qualified := qualified + [Mention(candidates[k].outcome.memberId, candidates[k].span)];
      } else {
        issues := issues + 1;
      }
    }
    assert candidates[..|candidates|] == candidates;
    var scan := BlankRanges(coded, occupied);
    MatchesFit(scan);
    var matches := Matches(scan, 0);
    mentions := [];
    for k := 0 to |matches|
      invariant mentions == LocalMentions(scan, members, matches[..k])
    {
      assert matches[..k + 1][..k] == matches[..k];
      var reading := ReadMatch(scan, members, matches[k]);
      if reading.Mentions? {
        mentions := mentions + [reading.mention];
      }
    }
    assert matches[..|matches|] == matches;
    if |qualified| > 0 || issues > 0 {
      mentions := Sort(mentions + qualified);
    }
  }

  // ---------------------------------------------------------------- main results

  /** The mention is an `@` and its member's handle, as the body has them, and touches neither
      code nor a qualified token. */
  ghost predicate IsLocalMention(body: string, members: seq<Member>, candidates: seq<Candidate>, m: Mention) {
    && m.span.end <= |body|
    && (exists member | member in members ::
          member.id == m.memberId && IsAddressable(member) && !IsReserved(member.handle)
          && m.span.start <= m.span.end && body[m.span.start..m.span.end] == "@" + member.handle)
    && (forall i | Covers(m.span, i) :: !Covered(CodeSpans(body), i) && !Covered(Spans(candidates), i))
  }

  /** What the scan still shows is in the body, outside code and outside qualified tokens. */
  lemma ShownIsThere(body: string, candidates: seq<Candidate>, i: nat)
    requires i < |body| && Scan(body, candidates)[i] != ' ' && Scan(body, candidates)[i] != '\n'
    ensures body[i] == Scan(body, candidates)[i]
    ensures !Covered(CodeSpans(body), i) && !Covered(Spans(candidates), i)
  {
    CodeIsBlank(body, i);
  }

  lemma MatchIsShown(scan: string, m: Range, i: nat)
    requires IsAt(scan, m.start) && m.end == HandleEnd(scan, m.start + 1) && Covers(m, i)
    ensures i < |scan| && scan[i] != ' ' && scan[i] != '\n'
  {
  }

  lemma MatchIsOutside(body: string, candidates: seq<Candidate>, m: Range, i: nat)
    requires
      var scan := Scan(body, candidates);
      IsAt(scan, m.start) && m.end == HandleEnd(scan, m.start + 1) && Covers(m, i)
    ensures i < |body| && body[i] == Scan(body, candidates)[i]
    ensures !Covered(CodeSpans(body), i) && !Covered(Spans(candidates), i)
  {
    MatchIsShown(Scan(body, candidates), m, i);
    ShownIsThere(body, candidates, i);
  }

  lemma SliceOf(body: string, scan: string, m: Range)
    requires m.start + 1 < m.end <= |scan| && |scan| == |body| && scan[m.start] == '@'
    requires forall i | Covers(m, i) :: body[i] == scan[i]
    ensures body[m.start..m.end] == "@" + scan[m.start + 1..m.end]
  {
  }

  lemma MatchMentions(body: string, members: seq<Member>, candidates: seq<Candidate>, m: Range)
    requires
      var scan := Scan(body, candidates);
      && IsAt(scan, m.start) && m.end == HandleEnd(scan, m.start + 1) && m.start + 1 < m.end <= |scan|
      && ReadMatch(scan, members, m).Mentions?
    ensures IsLocalMention(body, members, candidates, ReadMatch(Scan(body, candidates), members, m).mention)
  {
    var scan := Scan(body, candidates);
    forall i: nat | Covers(m, i)
      ensures body[i] == scan[i] && !Covered(CodeSpans(body), i) && !Covered(Spans(candidates), i)
    {
      MatchIsOutside(body, candidates, m, i);
    }
    SliceOf(body, scan, m);
    var member := ByHandle(members, scan[m.start + 1..m.end]).value;
    assert member in members;
  }

  /** Local mentions come in order, each within a match. */
  lemma {:induction false} LocalsAreApart(scan: string, members: seq<Member>, matches: seq<Range>)
    requires AreMatches(scan, matches) && AreApart(matches, 0)
    ensures InOrder(LocalMentions(scan, members, matches))
    ensures forall x | x in LocalMentions(scan, members, matches) ::
              x.span in matches && ReadMatch(scan, members, x.span) == Mentions(x)
  {
    if matches != [] {
      var n := |matches| - 1;
      var last := ReadMatch(scan, members, matches[n]);
      LocalsAreApart(scan, members, matches[..n]);
      if last.Mentions? {
        var before := LocalMentions(scan, members, matches[..n]);
        forall k | 0 <= k < |before| ensures before[k].span.end <= last.mention.span.start {
          assert before[k] in before;
          var i :| 0 <= i < n && matches[i] == before[k].span;
        }
      }
    }
  }

  predicate Before(x: Mention, y: Mention) {
    x.span.end <= y.span.start
  }

  /** Spans that are not empty, in order, and do not overlap. */
  predicate InOrder(mentions: seq<Mention>) {
    && (forall k | 0 <= k < |mentions| :: mentions[k].span.start < mentions[k].span.end)
    && (forall j, k | 0 <= j < k < |mentions| :: Before(mentions[j], mentions[k]))
  }

  predicate HasMentionAt(mentions: seq<Mention>, p: nat) {
    exists k | 0 <= k < |mentions| :: mentions[k].span.start == p
  }

  predicate IsReadAt(scan: string, members: seq<Member>, matches: seq<Range>, p: nat)
    requires AreMatches(scan, matches)
  {
    exists k | 0 <= k < |matches| :: matches[k].start == p && ReadMatch(scan, members, matches[k]).Mentions?
  }

  lemma HasMentionMore(mentions: seq<Mention>, x: Mention, p: nat)
    ensures HasMentionAt(mentions + [x], p) <==> HasMentionAt(mentions, p) || x.span.start == p
  {
    var all := mentions + [x];
    if HasMentionAt(mentions, p) {
      var k :| 0 <= k < |mentions| && mentions[k].span.start == p;
      assert all[k].span.start == p;
    }
    assert all[|mentions|] == x;
  }

  /** The local mentions are the matches that name an addressable member. */
  lemma {:induction false} MatchesAreRead(scan: string, members: seq<Member>, matches: seq<Range>, p: nat)
    requires AreMatches(scan, matches)
    ensures HasMentionAt(LocalMentions(scan, members, matches), p) <==> IsReadAt(scan, members, matches, p)
  {
    if matches != [] {
      var n := |matches| - 1;
      MatchesAreRead(scan, members, matches[..n], p);
      var before, last := LocalMentions(scan, members, matches[..n]), ReadMatch(scan, members, matches[n]);
      if IsReadAt(scan, members, matches[..n], p) {
        var k :| 0 <= k < n && matches[..n][k].start == p && ReadMatch(scan, members, matches[..n][k]).Mentions?;
        assert matches[k].start == p;
      }
      if last.Mentions? {
        HasMentionMore(before, last.mention, p);
      } else {
        assert before + [] == before;
      }
    }
  }

  /** The `@` at `p` stands before the handle of an addressable member. */
  predicate NamesAMember(scan: string, members: seq<Member>, p: nat) {
    p + 1 < |scan| && p + 1 < HandleEnd(scan, p + 1)
    && ReadMatch(scan, members, Range(p, HandleEnd(scan, p + 1))).Mentions?
  }

  /** An `@` in what is left of a body addresses a member exactly when it is where a mention can
      start and the handle behind it is an addressable member's. */
  lemma AddressedExactly(body: string, members: seq<Member>, candidates: seq<Candidate>, p: nat)
    requires p < |body|
    ensures HasMentionAt(LocalsOf(body, members, candidates), p) <==>
              IsMentioned(Scan(body, candidates), 0, p) && NamesAMember(Scan(body, candidates), members, p)
  {
    var scan := Scan(body, candidates);
    MatchesFit(scan);
    MatchesAreTheseExactly(scan, 0, p);
    MatchesAreRead(scan, members, Matches(scan, 0), p);
    ReadWhereMatched(scan, members, p);
  }

  lemma ReadWhereMatched(scan: string, members: seq<Member>, p: nat)
    requires p < |scan| && AreMatches(scan, Matches(scan, 0))
    ensures IsReadAt(scan, members, Matches(scan, 0), p) <==>
              StartsAt(Matches(scan, 0), p) && NamesAMember(scan, members, p)
  {
    var matches := Matches(scan, 0);
    MatchesAreApart(scan, 0);
    assert forall k | 0 <= k < |matches| && matches[k].start == p ::
        matches[k] in matches && matches[k] == Range(p, HandleEnd(scan, p + 1));
  }

  /** Every local mention is what it should be. */
  lemma LocalMentionsAreSound(body: string, members: seq<Member>, candidates: seq<Candidate>, x: Mention)
    requires x in LocalsOf(body, members, candidates)
    ensures IsLocalMention(body, members, candidates, x)
  {
    var scan := Scan(body, candidates);
    MatchesAreApart(scan, 0);
    MatchesFit(scan);
    LocalsAreApart(scan, members, Matches(scan, 0));
    MatchMentions(body, members, candidates, x.span);
  }

  predicate NamedBy(candidates: seq<Candidate>, x: Mention) {
    exists k | 0 <= k < |candidates| :: candidates[k] == Candidate(x.span, Resolved(x.memberId))
  }

  lemma NamedByMore(candidates: seq<Candidate>, last: Candidate, x: Mention)
    ensures NamedBy(candidates + [last], x) <==> NamedBy(candidates, x) || last == Candidate(x.span, Resolved(x.memberId))
  {
    var all := candidates + [last];
    if NamedBy(candidates, x) {
      var k :| 0 <= k < |candidates| && candidates[k] == Candidate(x.span, Resolved(x.memberId));
      assert all[k] == candidates[k];
    }
    assert all[|candidates|] == last;
  }

  /** The qualified mentions are the resolved candidates. */
  lemma {:induction false} QualifiedAreNamed(candidates: seq<Candidate>, x: Mention)
    ensures x in Qualified(candidates) <==> NamedBy(candidates, x)
  {
    if candidates != [] {
      var n := |candidates| - 1;
      assert candidates == candidates[..n] + [candidates[n]];
      QualifiedAreNamed(candidates[..n], x);
      NamedByMore(candidates[..n], candidates[n], x);
    }
  }

  lemma {:induction false} QualifiedAreApart(candidates: seq<Candidate>)
    requires AreApart(Spans(candidates), 0)
    ensures InOrder(Qualified(candidates))
  {
    if candidates != [] {
      var n := |candidates| - 1;
      assert forall k | 0 <= k < n :: Spans(candidates[..n])[k] == Spans(candidates)[k];
      QualifiedAreApart(candidates[..n]);
      var before := Qualified(candidates[..n]);
      forall k | 0 <= k < |before| ensures before[k].span.end <= candidates[n].span.start {
        assert before[k] in before;
        QualifiedAreNamed(candidates[..n], before[k]);
        var i :| 0 <= i < n && candidates[..n][i] == Candidate(before[k].span, Resolved(before[k].memberId));
        assert Spans(candidates)[i].end <= Spans(candidates)[n].start;
      }
      assert Spans(candidates)[n] == candidates[n].span;
    }
  }

  /** A resolved qualified token lies outside code, and a local mention outside every token. */
  lemma QualifiedAreOutsideCode(body: string, candidates: seq<Candidate>, x: Mention, i: nat)
    requires AreCandidates(Coded(body), candidates) && x in Qualified(candidates) && Covers(x.span, i)
    ensures i < |body| && !Covered(CodeSpans(body), i)
  {
    QualifiedAreNamed(candidates, x);
    var k :| 0 <= k < |candidates| && candidates[k] == Candidate(x.span, Resolved(x.memberId));
    assert Covers(candidates[k].span, i);
    CodeIsBlank(body, i);
  }

  lemma LocalsAvoidTokens(body: string, members: seq<Member>, candidates: seq<Candidate>, x: Mention, y: Mention)
    requires AreCandidates(Coded(body), candidates)
    requires x in LocalsOf(body, members, candidates) && y in Qualified(candidates)
    requires x.span.start < x.span.end && y.span.start < y.span.end
    ensures Before(x, y) || Before(y, x)
  {
    LocalMentionsAreSound(body, members, candidates, x);
    QualifiedAreNamed(candidates, y);
    var k :| 0 <= k < |candidates| && candidates[k] == Candidate(y.span, Resolved(y.memberId));
    var i := if x.span.start < y.span.start then y.span.start else x.span.start;
    assert Covers(x.span, i) ==> !Covered(Spans(candidates), i);
    assert Covers(Spans(candidates)[k], i) ==> Covered(Spans(candidates), i);
    assert Spans(candidates)[k] == y.span;
  }

  predicate PairwiseApart(mentions: seq<Mention>) {
    && (forall k | 0 <= k < |mentions| :: mentions[k].span.start < mentions[k].span.end)
    && (forall j, k | 0 <= j < k < |mentions| :: Before(mentions[j], mentions[k]) || Before(mentions[k], mentions[j]))
  }

  lemma {:induction false} InsertAdds(sorted: seq<Mention>, m: Mention)
    ensures |Insert(sorted, m)| == |sorted| + 1
    ensures forall x :: x in Insert(sorted, m) <==> x in sorted || x == m
  {
    if !(sorted == [] || sorted[|sorted| - 1].span.start <= m.span.start) {
      var n := |sorted| - 1;
      InsertAdds(sorted[..n], m);
      assert forall x :: x in sorted <==> x in sorted[..n] || x == sorted[n];
    }
  }

  lemma OrderedMore(sorted: seq<Mention>, m: Mention)
    requires InOrder(sorted) && m.span.start < m.span.end && forall x | x in sorted :: Before(x, m)
    ensures InOrder(sorted + [m])
  {
  }

  lemma {:induction false} InsertKeeps(sorted: seq<Mention>, m: Mention)
    requires InOrder(sorted) && m.span.start < m.span.end
    requires forall x | x in sorted :: Before(x, m) || Before(m, x)
    ensures InOrder(Insert(sorted, m))
  {
    if sorted == [] {
      OrderedMore([], m);
    } else {
      var n := |sorted| - 1;
      var last := sorted[n];
      assert last in sorted;
      if last.span.start <= m.span.start {
        forall x | x in sorted ensures Before(x, m) {
          var k :| 0 <= k < |sorted| && sorted[k] == x;
          assert k < n ==> Before(sorted[k], last);
        }
        OrderedMore(sorted, m);
      } else {
        InsertKeeps(sorted[..n], m);
        InsertAdds(sorted[..n], m);
        forall x | x in Insert(sorted[..n], m) ensures Before(x, last) {
          if x != m {
            var k :| 0 <= k < n && sorted[..n][k] == x;
            assert Before(sorted[k], last);
          }
        }
        OrderedMore(Insert(sorted[..n], m), last);
      }
    }
  }

  lemma {:induction false} SortOrders(mentions: seq<Mention>)
    requires PairwiseApart(mentions)
    ensures InOrder(Sort(mentions)) && |Sort(mentions)| == |mentions|
    ensures forall x :: x in Sort(mentions) <==> x in mentions
  {
    if mentions != [] {
      var n := |mentions| - 1;
      SortOrders(mentions[..n]);
      forall x | x in Sort(mentions[..n]) ensures Before(x, mentions[n]) || Before(mentions[n], x) {
        var k :| 0 <= k < n && mentions[..n][k] == x;
        assert mentions[k] == x;
      }
      InsertKeeps(Sort(mentions[..n]), mentions[n]);
      InsertAdds(Sort(mentions[..n]), mentions[n]);
      assert forall x :: x in mentions <==> x in mentions[..n] || x == mentions[n];
    }
  }

  lemma LocalsAreInOrder(body: string, members: seq<Member>, candidates: seq<Candidate>)
    ensures InOrder(LocalsOf(body, members, candidates))
  {
    var scan := Scan(body, candidates);
    MatchesAreApart(scan, 0);
    MatchesFit(scan);
    LocalsAreApart(scan, members, Matches(scan, 0));
  }

  lemma JoinedAreApart(body: string, members: seq<Member>, candidates: seq<Candidate>)
    requires AreCandidates(Coded(body), candidates)
    ensures PairwiseApart(LocalsOf(body, members, candidates) + Qualified(candidates))
  {
    LocalsAreInOrder(body, members, candidates);
    QualifiedAreApart(candidates);
    var locals, qualified := LocalsOf(body, members, candidates), Qualified(candidates);
    var all := locals + qualified;
    forall j, k | 0 <= j < k < |all| ensures Before(all[j], all[k]) || Before(all[k], all[j]) {
      if j < |locals| <= k {
        assert all[k] == qualified[k - |locals|];
        LocalsAvoidTokens(body, members, candidates, all[j], all[k]);
      }
    }
  }

  /** All mentions of a body come in order and never overlap; they are the local ones and the
      resolved qualified ones, each once. */
  lemma MentionsAreOrderedAndApart(body: string, members: seq<Member>, candidates: seq<Candidate>)
    requires AreCandidates(Coded(body), candidates)
    ensures InOrder(ParsedMentions(body, members, candidates))
    ensures |ParsedMentions(body, members, candidates)| ==
              |LocalsOf(body, members, candidates)| + |Qualified(candidates)|
    ensures forall x :: x in ParsedMentions(body, members, candidates) <==>
              x in LocalsOf(body, members, candidates) || x in Qualified(candidates)
  {
    LocalsAreInOrder(body, members, candidates);
    JoinedAreApart(body, members, candidates);
    SortOrders(LocalsOf(body, members, candidates) + Qualified(candidates));
  }

  /** No mention, local or qualified, touches code. */
  lemma NoMentionInCode(body: string, members: seq<Member>, candidates: seq<Candidate>, x: Mention, i: nat)
    requires AreCandidates(Coded(body), candidates)
    requires x in ParsedMentions(body, members, candidates) && Covers(x.span, i)
    ensures i < |body| && !Covered(CodeSpans(body), i)
  {
    MentionsAreOrderedAndApart(body, members, candidates);
    if x in LocalsOf(body, members, candidates) {
      LocalMentionsAreSound(body, members, candidates, x);
    } else {
      QualifiedAreOutsideCode(body, candidates, x, i);
    }
  }
}
