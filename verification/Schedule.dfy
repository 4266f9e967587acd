/** Scheduling directives (`packages/protocol/src/schedule.ts`): what a message's leading directive
    means, and the rewriting of a friendly clock into an explicit instant at the client.

    A character stands for a UTF-16 code unit.  The byte length of a text, `Date.parse` on other
    forms than the one written here, and the text of years without four digits are parameters. */
module Schedule {
  import opened Basics
  import opened CivilTime

  const MAX_SCHEDULE_DIRECTIVE_CHARS: int := 256
  const MAX_SCHEDULE_BODY_BYTES: int := 65_536
  const MAX_SCHEDULE_HORIZON_MS: int := 365 * 24 * 60 * 60 * 1_000
  const MAX_SAFE_INTEGER: int := 9_007_199_254_740_991

  const HEAD: string := "[send_at="

  datatype Host = Host(
    byteLength: string -> nat,
    parseOther: string -> Option<int>,
    distantText: (int, int) -> string)

  datatype Kind = SendIn | SendAt

  datatype Failure =
    | Malformed | EmptyBody | BodyTooLong | BadOffset | BadDuration | BadInstant | NotFuture | BeyondHorizon

  datatype Parsed =
    | NotADirective
    | Failed(why: Failure)
    | Directive(kind: Kind, directive: string, cleanBody: string, due: int, hostOffset: int)

  // ---------------------------------------------------------------- characters

  function Lower(c: char): char {
    if 'A' <= c <= 'Z' then (c as int + 32) as char else c
  }

  predicate EqualsIgnoringCase(s: string, lower: string) {
    |s| == |lower| && forall i | 0 <= i < |s| :: Lower(s[i]) == lower[i]
  }

  /** How many spaces a text starts with. */
  function Leading(s: string): (k: nat)
    ensures k <= |s| && forall i | 0 <= i < k :: IsSpace(s[i] as int)
    ensures k < |s| ==> !IsSpace(s[k] as int)
  {
    if s == "" || !IsSpace(s[0] as int) then 0 else 1 + Leading(s[1..])
  }

  function TrimEnd(s: string): string {
    if s == "" || !IsSpace(s[|s| - 1] as int) then s else TrimEnd(s[..|s| - 1])
  }

  function Trim(s: string): string {
    TrimEnd(s[Leading(s)..])
  }

  /** `indexOf(']')`; the length when there is none. */
  function CloseOf(s: string): (k: nat)
    ensures k <= |s| && forall i | 0 <= i < k :: s[i] != ']'
    ensures k < |s| ==> s[k] == ']'
  {
    if s == "" || s[0] == ']' then 0 else 1 + CloseOf(s[1..])
  }

  // ---------------------------------------------------------------- durations

  function Rank(c: char): int {
    if c == 'd' then 4 else if c == 'h' then 3 else if c == 'm' then 2 else if c == 's' then 1 else 0
  }

  /** An amount and its unit, as written. */
  datatype Part = Part(digits: string, unit: char)

  predicate IsPart(p: Part) {
    p.digits != "" && AreDigits(p.digits) && 0 < Rank(p.unit)
  }

  function PartText(p: Part): string {
    p.digits + [p.unit]
  }

  function Amount(p: Part): int {
    Number(p.digits) *
    if p.unit == 'd' then 86_400_000 else if p.unit == 'h' then 3_600_000 else if p.unit == 'm' then 60_000 else 1_000
  }

  function Total(parts: seq<Part>): int {
    if parts == [] then 0 else Total(parts[..|parts| - 1]) + Amount(parts[|parts| - 1])
  }

  /** How many digits a text starts with. */
  function Digits(s: string): (k: nat)
    ensures k <= |s|
  {
    if s != "" && IsDigit(s[0]) then 1 + Digits(s[1..]) else 0
  }

  /** The part a text starts with, if its unit ranks below `rank`. */
  function FirstPart(s: string, rank: int): (r: Option<Part>)
    ensures r.Some? ==> |r.value.digits| < |s| && Rank(r.value.unit) < rank
  {
    var k := Digits(s);
    if k == 0 || k == |s| || Rank(s[k]) == 0 || rank <= Rank(s[k]) then None else Some(Part(s[..k], s[k]))
  }

  /** A text as parts with units that descend, so none comes twice. */
  function PartsOf(s: string, rank: int): Option<seq<Part>>
    decreases |s|
  {
    if s == "" then Some([])
    else
      var p := FirstPart(s, rank);
      if p.None? then None else Behind([p.value], PartsOf(s[|p.value.digits| + 1..], Rank(p.value.unit)))
  }

  function Behind(parts: seq<Part>, rest: Option<seq<Part>>): Option<seq<Part>> {
    if rest.None? then None else Some(parts + rest.value)
  }

  /** `relativeMilliseconds`: as amounts are never negative, a total that is too large before the
      end is too large at the end. */
  function RelativeMilliseconds(s: string): Option<int> {
    var parts := PartsOf(s, 5);
    if parts.Some? && 0 < Total(parts.value) <= MAX_SAFE_INTEGER then Some(Total(parts.value)) else None
  }

  lemma {:induction false} NumberIsNatural(s: string)
    requires AreDigits(s)
    ensures 0 <= Number(s)
  {
    if s != "" { NumberIsNatural(s[..|s| - 1]); }
  }

  lemma {:induction false} DigitsAreDigits(s: string)
    ensures AreDigits(s[..Digits(s)])
  {
    if s != "" && IsDigit(s[0]) {
      DigitsAreDigits(s[1..]);
      assert s[..Digits(s)] == [s[0]] + s[1..][..Digits(s[1..])];
    }
  }

  predicate AreParts(parts: seq<Part>) {
    forall i | 0 <= i < |parts| :: IsPart(parts[i])
  }

  lemma AmountIsNatural(p: Part)
    requires IsPart(p)
    ensures 0 <= Amount(p)
  {
    NumberIsNatural(p.digits);
  }

  lemma {:induction false} TotalGrows(parts: seq<Part>, rest: seq<Part>)
    requires AreParts(rest)
    ensures Total(parts) <= Total(parts + rest)
  {
    if rest == [] {
      assert parts + rest == parts;
    } else {
      var n := |rest| - 1;
      assert (parts + rest)[..|parts + rest| - 1] == parts + rest[..n];
      TotalGrows(parts, rest[..n]);
      AmountIsNatural(rest[n]);
    }
  }

  lemma FirstPartIsPart(s: string, rank: int)
    ensures FirstPart(s, rank).Some? ==> IsPart(FirstPart(s, rank).value)
  {
    DigitsAreDigits(s);
  }

  lemma {:induction false} PartsOfAreParts(s: string, rank: int)
    ensures PartsOf(s, rank).Some? ==> AreParts(PartsOf(s, rank).value)
    decreases |s|
  {
    if s != "" {
      var p := FirstPart(s, rank);
      FirstPartIsPart(s, rank);
      if p.Some? { PartsOfAreParts(s[|p.value.digits| + 1..], Rank(p.value.unit)); }
    }
  }

  /** One part more is read, and the rest is what follows it. */
  lemma PartIsRead(left: string, rank: int, rest: string, p: Part, read: seq<Part>)
    requires left != "" && FirstPart(left, rank) == Some(p) && left[|p.digits| + 1..] == rest
    ensures Behind(read, PartsOf(left, rank)) == Behind(read + [p], PartsOf(rest, Rank(p.unit)))
    ensures Total(read + [p]) == Total(read) + Amount(p)
  {
    BehindBehind(read, [p], PartsOf(rest, Rank(p.unit)));
    assert (read + [p])[..|read|] == read;
  }

  /** The loop of the same function. */
  method ReadDuration(value: string) returns (total: Option<int>)
    ensures total == RelativeMilliseconds(value)
  {
    var offset, sum, previousRank := 0, 0, 5;
    ghost var read: seq<Part> := [];
    BehindBehind([], [], PartsOf(value, 5));
    assert value[0..] == value;
    while offset < |value|
      invariant 0 <= offset <= |value| && sum == Total(read) <= MAX_SAFE_INTEGER
      invariant PartsOf(value, 5) == Behind(read, PartsOf(value[offset..], previousRank))
    {
      ghost var left := value[offset..];
      var p, k := ReadPart(value, offset, previousRank);
      if p.None? {
        return None;
      }
      PartIsRead(left, previousRank, value[k..], p.value, read);
      read := read + [p.value];
      sum := sum + Amount(p.value);
      if sum > MAX_SAFE_INTEGER {
        TooLargeStays(read, PartsOf(value[k..], Rank(p.value.unit)), value[k..], Rank(p.value.unit));
        return None;
      }
      previousRank := Rank(p.value.unit);
      offset := k;
    }
    assert value[offset..] == "" && read + [] == read;
    if offset == 0 || sum <= 0 {
      return None;
    }
    total := Some(sum);
  }

  /** One match of the expression, where the last one ended. */
  method ReadPart(value: string, offset: nat, rank: int) returns (p: Option<Part>, k: nat)
    requires offset < |value|
    ensures p == FirstPart(value[offset..], rank)
    ensures p.Some? ==> offset < k <= |value| && value[offset..][|p.value.digits| + 1..] == value[k..]
  {
    ghost var left := value[offset..];
    k := offset;
    while k < |value| && IsDigit(value[k])
      invariant offset <= k <= |value| && Digits(left) == k - offset + Digits(value[k..])
    {
      assert value[k..][1..] == value[k + 1..];
      k := k + 1;
    }
    if k == offset || k == |value| || Rank(value[k]) == 0 || Rank(value[k]) >= rank {
      return None, k;
    }
    assert left[..k - offset] == value[offset..k] && left[k - offset] == value[k];
    p, k := Some(Part(value[offset..k], value[k])), k + 1;
  }

  lemma BehindBehind(a: seq<Part>, b: seq<Part>, rest: Option<seq<Part>>)
    ensures Behind(a, Behind(b, rest)) == Behind(a + b, rest)
    ensures Behind([], rest) == rest
  {
    if rest.Some? { assert a + (b + rest.value) == (a + b) + rest.value && [] + rest.value == rest.value; }
  }

  lemma TooLargeStays(read: seq<Part>, rest: Option<seq<Part>>, s: string, rank: int)
    requires rest == PartsOf(s, rank) && MAX_SAFE_INTEGER < Total(read)
    ensures rest.Some? ==> MAX_SAFE_INTEGER < Total(read + rest.value)
  {
    PartsOfAreParts(s, rank);
    if rest.Some? { TotalGrows(read, rest.value); }
  }

  // ---------------------------------------------------------------- clocks

  datatype Time = Time(hour: int, minute: int, second: int)

  predicate IsTime(t: Time) {
    0 <= t.hour <= 23 && 0 <= t.minute <= 59 && 0 <= t.second <= 59
  }

  /** Two digits below sixty. */
  predicate IsSixtieth(s: string, i: nat) {
    i + 2 <= |s| && '0' <= s[i] <= '5' && IsDigit(s[i + 1])
  }

  predicate IsHalfDay(s: string) {
    EqualsIgnoringCase(s, "am") || EqualsIgnoringCase(s, "pm")
  }

  /** The friendly clock: `h:mm` or `h:mm:ss`, of twelve hours with am or pm, or of a whole day. */
  function FriendlyClock(v: string): (r: Option<Time>)
    ensures r.Some? ==> IsTime(r.value)
  {
    var n: nat := if 2 <= |v| && v[1] == ':' then 1 else 2;
    if |v| <= n || v[n] != ':' || !AreDigits(v[..n]) || !IsSixtieth(v, n + 1) then None
    else
      var hasSeconds := n + 3 < |v| && v[n + 3] == ':' && IsSixtieth(v, n + 4);
      var end := if hasSeconds then n + 6 else n + 3;
      SixtiethReads(v, n + 1);
      var minute := Number(v[n + 1..n + 3]);
      var second := if hasSeconds then SixtiethReads(v, n + 4); Number(v[n + 4..n + 6]) else 0;
      HourReads(v, n);
      var hour := Number(v[..n]);
      if end == |v| then (if hour <= 23 then Some(Time(hour, minute, second)) else None)
      else
        var suffix := v[end..];
        var half := suffix[Leading(suffix)..];
        if IsHalfDay(half) && 1 <= hour <= 12
        then Some(Time(hour % 12 + (if Lower(half[0]) == 'p' then 12 else 0), minute, second))
        else None
  }

  lemma SixtiethReads(v: string, i: nat)
    requires IsSixtieth(v, i)
    ensures 0 <= Number(v[i..i + 2]) <= 59
  {
    assert v[i..i + 2][..1] == [v[i]] && [v[i]][..0] == "";
    assert Number([v[i]]) == DigitOf(v[i]);
  }

  lemma HourReads(v: string, n: nat)
    requires 1 <= n <= 2 && n <= |v| && AreDigits(v[..n])
    ensures 0 <= Number(v[..n])
  {
    assert forall i | 0 <= i < n :: IsDigit(v[..n][i]);
    if n == 2 {
      assert v[..2][..1] == [v[0]] && [v[0]][..0] == "";
      assert Number([v[0]]) == DigitOf(v[0]);
    } else {
      assert v[..1][..0] == "";
    }
  }

  /** `Date.UTC`: a year below one hundred means the nineteen-hundreds. */
  function UtcDay(d: Date): int
    requires 1 <= d.month <= 12
  {
    DayOf(if 0 <= d.year <= 99 then Date(1900 + d.year, d.month, d.day) else d)
  }

  /** A time of a local day, or of the day after if it has passed. */
  function OnOrAfter(day: int, timeOfDay: int, now: int, east: int): int {
    var due := day * MS_PER_DAY + timeOfDay - east * MS_PER_MINUTE;
    if due <= now then due + MS_PER_DAY else due
  }

  /** The next time the host's clock shows `t`. */
  function NextClock(t: Time, now: int, east: int): int {
    var local := now + east * MS_PER_MINUTE;
    OnOrAfter(UtcDay(DateOf(local / MS_PER_DAY)), TimeOfDay(t.hour, t.minute, t.second), now, east)
  }

  /** The text ends in `Z` or a numeric offset. */
  predicate EndsInOffset(v: string) {
    || (v != "" && Lower(v[|v| - 1]) == 'z')
    || (6 <= |v| && var o := v[|v| - 6..]; (o[0] == '+' || o[0] == '-') && AreDigits(o[1..3]) && o[3] == ':' && AreDigits(o[4..6]))
  }

  function ParseDate(h: Host, v: string): Option<int> {
    if ReadInstant(v).Some? then ReadInstant(v) else h.parseOther(v)
  }

  /** `absoluteMilliseconds`. */
  function AbsoluteMilliseconds(h: Host, v: string, now: int, east: int): Option<int> {
    if FriendlyClock(v).Some? then Some(NextClock(FriendlyClock(v).value, now, east))
    else if !EndsInOffset(v) then None
    else ParseDate(h, v)
  }

  // ---------------------------------------------------------------- directives

  predicate IsOffset(east: int) {
    -840 <= east <= 840
  }

  /** `[send_in` or `[send_at` in any case, and no longer word. */
  predicate LooksScheduled(first: string) {
    && 8 <= |first|
    && (EqualsIgnoringCase(first[..8], "[send_in") || EqualsIgnoringCase(first[..8], "[send_at"))
    && (|first| == 8 || !IsWord(first[8]))
  }

  predicate IsValue(v: string) {
    v != "" && forall i | 0 <= i < |v| :: v[i] != ']' && v[i] != '\r' && v[i] != '\n'
  }

  /** The bounds every parsed instant meets. */
  function Bounded(kind: Kind, directive: string, clean: string, due: Option<int>, now: int, east: int): Parsed {
    if due.None? then Failed(if kind.SendIn? then BadDuration else BadInstant)
    else if due.value <= now then Failed(NotFuture)
    else if MAX_SCHEDULE_HORIZON_MS < due.value - now then Failed(BeyondHorizon)
    else Directive(kind, directive, clean, due.value, east)
  }

  /** A value and the text behind its directive. */
  function ParseValue(h: Host, kind: Kind, directive: string, value: string, clean: string, now: int, east: int): Parsed {
    if clean == "" then Failed(EmptyBody)
    else if MAX_SCHEDULE_BODY_BYTES < h.byteLength(clean) then Failed(BodyTooLong)
    else if !IsOffset(east) then Failed(BadOffset)
    else
      match kind
      case SendIn =>
        var total := RelativeMilliseconds(value);
        Bounded(SendIn, directive, clean, if total.None? then None else Some(now + total.value), now, east)
      case SendAt =>
        Bounded(SendAt, directive, clean, AbsoluteMilliseconds(h, value, now, east), now, east)
  }

  /** A directive up to and with its bracket, and the text behind it. */
  function ParseFound(h: Host, directive: string, rest: string, now: int, east: int): Parsed {
    if |directive| < 10 || !IsValue(directive[9..|directive| - 1]) then Failed(Malformed)
    else if "[send_in=" <= directive then
      ParseValue(h, SendIn, directive, directive[9..|directive| - 1], Trim(rest), now, east)
    else if HEAD <= directive then
      ParseValue(h, SendAt, directive, directive[9..|directive| - 1], Trim(rest), now, east)
    else Failed(Malformed)
  }

  /** `parseScheduleDirective`. */
  function Parse(h: Host, body: string, now: int, east: int): Parsed {
    var first := body[Leading(body)..];
    if !LooksScheduled(first) then NotADirective
    else
      var close := CloseOf(first);
      if close == |first| || MAX_SCHEDULE_DIRECTIVE_CHARS < close + 1 then Failed(Malformed)
      else ParseFound(h, first[..close + 1], first[close + 1..], now, east)
  }

  /** The leading `[send_at=…]` of a text, if there is one: its value. */
  function LeadingValue(first: string): Option<string> {
    var close := CloseOf(first);
    if HEAD <= first && 9 < close < |first| && IsValue(first[9..close]) then Some(first[9..close]) else None
  }

  /** The instant as text, on the submitting client's clock. */
  function Explicit(h: Host, due: int, east: int): string {
    if IsClock(ClockOf(due, east)) then ClockText(ClockOf(due, east)) else h.distantText(due, east)
  }

  function Rewritten(body: string, explicit: string): string {
    var first := body[Leading(body)..];
    var close := CloseOf(first);
    body[..Leading(body)] + (HEAD + explicit + "]" + if close < |first| then first[close + 1..] else "")
  }

  /** The form that is rewritten: a leading, complete `send_at` with a friendly clock. */
  predicate IsFriendly(body: string) {
    var value := LeadingValue(body[Leading(body)..]);
    value.Some? && FriendlyClock(value.value).Some?
  }

  /** `canonicalizeScheduleRequest`. */
  function Canonicalize(h: Host, body: string, now: int, east: int): string {
    if !IsFriendly(body) || !IsOffset(east) then body
    else
      var parsed := Parse(h, body, now, east);
      if parsed.Directive? then Rewritten(body, Explicit(h, parsed.due, east)) else body
  }
}
