/** What the texts of a scheduling directive mean: every way of writing a time of day or a duration,
    and the instant a message written with it is due. */
module ScheduleTexts {
  import opened Basics
  import opened CivilTime
  import opened Schedule
  import opened ScheduleResults

  // ---------------------------------------------------------------- letters

  /** The same letters, each in either case. */
  predicate IsInAnyCase(s: string, lower: string) {
    |s| == |lower| && forall i | 0 <= i < |s| ::
      s[i] == lower[i] || ('a' <= lower[i] <= 'z' && s[i] as int + 32 == lower[i] as int)
  }

  lemma EitherCaseEquals(s: string, lower: string)
    requires forall i | 0 <= i < |lower| :: !('A' <= lower[i] <= 'Z')
    ensures EqualsIgnoringCase(s, lower) <==> IsInAnyCase(s, lower)
  {
  }

  // ---------------------------------------------------------------- ways of writing a time

  /** One digit, or two with a leading zero. */
  function HourText(hour: int, padded: bool): string
    requires 0 <= hour <= 23
  {
    if hour < 10 && !padded then [DigitChar(hour)] else Two(hour)
  }

  function MinutesText(t: Time, withSeconds: bool): string
    requires IsTime(t)
  {
    ":" + Two(t.minute) + if withSeconds then ":" + Two(t.second) else ""
  }

  /** The hour on a clock of twelve hours: midnight and noon are twelve. */
  function TwelveHour(hour: int): int {
    if hour == 0 then 12 else if hour <= 12 then hour else hour - 12
  }

  /** A time of a day of twenty-four hours. */
  predicate IsDayText(v: string, t: Time, padded: bool, withSeconds: bool) {
    IsTime(t) && (withSeconds || t.second == 0) && v == HourText(t.hour, padded) + MinutesText(t, withSeconds)
  }

  /** A time of twice twelve hours, with `am` before noon and `pm` from noon on, in any case and
      behind any spaces. */
  predicate IsHalfDayText(v: string, t: Time, padded: bool, withSeconds: bool, spaces: string, half: string) {
    && IsTime(t) && (withSeconds || t.second == 0) && AreSpaces(spaces)
    && IsInAnyCase(half, if t.hour < 12 then "am" else "pm")
    && v == HourText(TwelveHour(t.hour), padded) + MinutesText(t, withSeconds) + (spaces + half)
  }

  ghost predicate Writes(v: string, t: Time) {
    || (exists padded, withSeconds :: IsDayText(v, t, padded, withSeconds))
    || (exists padded, withSeconds, spaces, half :: IsHalfDayText(v, t, padded, withSeconds, spaces, half))
  }

  // ---------------------------------------------------------------- a written time reads back

  lemma HourTextReads(hour: int, padded: bool)
    requires 0 <= hour <= 23
    ensures var s := HourText(hour, padded); 1 <= |s| <= 2 && AreDigits(s) && Number(s) == hour
  {
    if hour < 10 && !padded {
      var s := [DigitChar(hour)];
      assert s[..0] == "" && Number("") == 0;
    } else {
      TwoReads(hour);
    }
  }

  lemma SixtiethIsWritten(v: string, i: nat, n: int)
    requires 0 <= n <= 59 && i + 2 <= |v| && v[i..i + 2] == Two(n)
    ensures IsSixtieth(v, i) && Number(v[i..i + 2]) == n
  {
    TwoReads(n);
    assert v[i] == Two(n)[0] && v[i + 1] == Two(n)[1];
    assert DigitOf(v[i]) == n / 10 && DigitOf(v[i + 1]) == n % 10;
  }

  /** Where the pieces of a written time lie. */
  predicate Laid(v: string, n: nat, t: Time, withSeconds: bool, suffix: string) {
    && IsTime(t) && |v| == n + (if withSeconds then 6 else 3) + |suffix|
    && v[n] == ':' && v[n + 1..n + 3] == Two(t.minute)
    && (withSeconds ==> v[n + 3] == ':' && v[n + 4..n + 6] == Two(t.second))
    && v[n + (if withSeconds then 6 else 3)..] == suffix
  }

  lemma PiecesAreLaid(hour: string, t: Time, withSeconds: bool, suffix: string)
    requires IsTime(t)
    ensures var v := hour + MinutesText(t, withSeconds) + suffix;
            Laid(v, |hour|, t, withSeconds, suffix) && v[..|hour|] == hour
  {
    var v, m := hour + MinutesText(t, withSeconds) + suffix, MinutesText(t, withSeconds);
    assert v[|hour|..|hour| + |m|] == m;
    assert m[0] == ':' && m[1..3] == Two(t.minute);
    if withSeconds { assert m[3] == ':' && m[4..6] == Two(t.second); }
  }

  predicate ReadsTime(v: string, n: nat, withSeconds: bool, t: Time) {
    && n < |v| && v[n] == ':' && IsSixtieth(v, n + 1) && Number(v[n + 1..n + 3]) == t.minute
    && (withSeconds <==> n + 3 < |v| && v[n + 3] == ':' && IsSixtieth(v, n + 4))
    && (if withSeconds then Number(v[n + 4..n + 6]) == t.second else t.second == 0)
  }

  lemma LaidReads(v: string, n: nat, t: Time, withSeconds: bool, suffix: string)
    requires Laid(v, n, t, withSeconds, suffix) && (withSeconds || t.second == 0)
    requires suffix == "" || suffix[0] != ':'
    ensures ReadsTime(v, n, withSeconds, t)
  {
    SixtiethIsWritten(v, n + 1, t.minute);
    if withSeconds {
      SixtiethIsWritten(v, n + 4, t.second);
    } else if suffix != "" {
      assert v[n + 3] == suffix[0];
    }
  }

  /** The text has this hour, these minutes and seconds, and this behind them. */
  predicate ReadsAs(v: string, n: nat, withSeconds: bool, t: Time, hour: int, suffix: string) {
    && 1 <= n <= 2 && ReadsTime(v, n, withSeconds, t) && AreDigits(v[..n]) && Number(v[..n]) == hour
    && n + (if withSeconds then 6 else 3) <= |v| && suffix == v[n + (if withSeconds then 6 else 3)..]
  }

  /** The time of these minutes and seconds, this hour and what follows. */
  function Meaning(t: Time, hour: int, suffix: string): Option<Time> {
    if suffix == "" then (if hour <= 23 then Some(t.(hour := hour)) else None)
    else
      var half := suffix[Leading(suffix)..];
      if IsHalfDay(half) && 1 <= hour <= 12
      then Some(t.(hour := hour % 12 + (if Lower(half[0]) == 'p' then 12 else 0)))
      else None
  }

  lemma ReadTimeMeans(v: string, n: nat, withSeconds: bool, t: Time, hour: int, suffix: string)
    requires ReadsAs(v, n, withSeconds, t, hour, suffix)
    ensures FriendlyClock(v) == Meaning(t, hour, suffix)
  {
    if n == 2 { assert v[1] == v[..n][1]; }
  }

  lemma WrittenReadsAs(v: string, t: Time, hour: int, padded: bool, withSeconds: bool, suffix: string)
    requires IsTime(t) && 0 <= hour <= 23 && (withSeconds || t.second == 0) && (suffix == "" || suffix[0] != ':')
    requires v == HourText(hour, padded) + MinutesText(t, withSeconds) + suffix
    ensures ReadsAs(v, |HourText(hour, padded)|, withSeconds, t, hour, suffix)
  {
    HourTextReads(hour, padded);
    PiecesAreLaid(HourText(hour, padded), t, withSeconds, suffix);
    LaidReads(v, |HourText(hour, padded)|, t, withSeconds, suffix);
  }

  lemma WrittenMeans(v: string, t: Time, hour: int, padded: bool, withSeconds: bool, suffix: string)
    requires IsTime(t) && 0 <= hour <= 23 && (withSeconds || t.second == 0) && (suffix == "" || suffix[0] != ':')
    requires v == HourText(hour, padded) + MinutesText(t, withSeconds) + suffix
    ensures FriendlyClock(v) == Meaning(t, hour, suffix)
  {
    WrittenReadsAs(v, t, hour, padded, withSeconds, suffix);
    ReadTimeMeans(v, |HourText(hour, padded)|, withSeconds, t, hour, suffix);
  }

  lemma DayTextReads(v: string, t: Time, padded: bool, withSeconds: bool)
    requires IsDayText(v, t, padded, withSeconds)
    ensures FriendlyClock(v) == Some(t)
  {
    assert HourText(t.hour, padded) + MinutesText(t, withSeconds) + "" == v;
    WrittenMeans(v, t, t.hour, padded, withSeconds, "");
  }

  lemma HalfIsBehindSpaces(spaces: string, half: string)
    requires AreSpaces(spaces) && IsHalfDay(half)
    ensures Leading(spaces + half) == |spaces| && (spaces + half)[|spaces|..] == half
    ensures spaces + half != "" && (spaces + half)[0] != ':'
  {
    assert Lower(half[0]) == "am"[0] || Lower(half[0]) == "pm"[0];
    LeadingOf(spaces, half);
    if spaces != "" { assert IsSpace(spaces[0] as int); }
  }

  lemma HalfMeans(t: Time, spaces: string, half: string)
    requires IsTime(t) && AreSpaces(spaces) && EqualsIgnoringCase(half, if t.hour < 12 then "am" else "pm")
    ensures 1 <= TwelveHour(t.hour) <= 12 && spaces + half != "" && (spaces + half)[0] != ':'
    ensures Meaning(t, TwelveHour(t.hour), spaces + half) == Some(t)
  {
    HalfIsBehindSpaces(spaces, half);
    assert Lower(half[0]) == (if t.hour < 12 then "am" else "pm")[0];
  }

  lemma HalfDayTextReads(v: string, t: Time, padded: bool, withSeconds: bool, spaces: string, half: string)
    requires IsHalfDayText(v, t, padded, withSeconds, spaces, half)
    ensures FriendlyClock(v) == Some(t)
  {
    EitherCaseEquals(half, if t.hour < 12 then "am" else "pm");
    HalfMeans(t, spaces, half);
    WrittenMeans(v, t, TwelveHour(t.hour), padded, withSeconds, spaces + half);
  }

  // ---------------------------------------------------------------- whatever reads was written so

  lemma TwoWrites(s: string)
    requires |s| == 2 && AreDigits(s)
    ensures 0 <= Number(s) <= 99 && s == Two(Number(s))
  {
    assert s[..1][..0] == "" && Number(s[..1]) == DigitOf(s[0]);
    assert Number(s) == DigitOf(s[0]) * 10 + DigitOf(s[1]);
    assert Number(s) / 10 == DigitOf(s[0]) && Number(s) % 10 == DigitOf(s[1]);
  }

  lemma HourWrites(s: string)
    requires 1 <= |s| <= 2 && AreDigits(s) && Number(s) <= 23
    ensures 0 <= Number(s) && s == HourText(Number(s), |s| == 2)
  {
    if |s| == 2 {
      TwoWrites(s);
    } else {
      assert s[..0] == "" && Number(s) == DigitOf(s[0]);
    }
  }

  lemma SixtiethWrites(v: string, i: nat)
    requires IsSixtieth(v, i)
    ensures 0 <= Number(v[i..i + 2]) <= 59 && v[i..i + 2] == Two(Number(v[i..i + 2]))
  {
    SixtiethReads(v, i);
    assert v[i..i + 2][0] == v[i] && v[i..i + 2][1] == v[i + 1];
    TwoWrites(v[i..i + 2]);
  }

  /** A text that reads as a time, in its pieces. */
  lemma ReadIsLaid(v: string) returns (n: nat, withSeconds: bool, suffix: string)
    requires FriendlyClock(v).Some?
    ensures n <= |v| && ReadsAs(v, n, withSeconds, FriendlyClock(v).value, Number(v[..n]), suffix) && 0 <= Number(v[..n])
    ensures v == v[..n] + MinutesText(FriendlyClock(v).value, withSeconds) + suffix
  {
    var t := FriendlyClock(v).value;
    n := if 2 <= |v| && v[1] == ':' then 1 else 2;
    withSeconds := n + 3 < |v| && v[n + 3] == ':' && IsSixtieth(v, n + 4);
    suffix := v[n + (if withSeconds then 6 else 3)..];
    HourReads(v, n);
    SixtiethWrites(v, n + 1);
    if withSeconds { SixtiethWrites(v, n + 4); }
    Reassemble(v, n, t, withSeconds);
  }

  lemma Reassemble(v: string, n: nat, t: Time, withSeconds: bool)
    requires IsTime(t) && n + (if withSeconds then 6 else 3) <= |v| && v[n] == ':' && v[n + 1..n + 3] == Two(t.minute)
    requires withSeconds ==> v[n + 3] == ':' && v[n + 4..n + 6] == Two(t.second)
    ensures v == v[..n] + MinutesText(t, withSeconds) + v[n + (if withSeconds then 6 else 3)..]
  {
    if withSeconds {
      assert v[n..n + 6] == [v[n]] + v[n + 1..n + 3] + [v[n + 3]] + v[n + 4..n + 6];
      assert v == v[..n] + v[n..n + 6] + v[n + 6..];
    } else {
      assert v[n..n + 3] == [v[n]] + v[n + 1..n + 3];
      assert v == v[..n] + v[n..n + 3] + v[n + 3..];
    }
  }

  lemma DayMeaningIsWritten(v: string, n: nat, t: Time, hour: int, withSeconds: bool)
    requires IsTime(t) && n <= |v| && 1 <= n <= 2 && AreDigits(v[..n]) && Number(v[..n]) == hour && 0 <= hour
    requires v == v[..n] + MinutesText(t, withSeconds) && (withSeconds || t.second == 0)
    requires Meaning(t, hour, "") == Some(t)
    ensures IsDayText(v, t, n == 2, withSeconds)
  {
    HourWrites(v[..n]);
  }

  lemma HalfMeaningIsWritten(v: string, n: nat, t: Time, hour: int, withSeconds: bool, suffix: string)
    requires IsTime(t) && n <= |v| && 1 <= n <= 2 && AreDigits(v[..n]) && Number(v[..n]) == hour && 0 <= hour
    requires v == v[..n] + MinutesText(t, withSeconds) + suffix && (withSeconds || t.second == 0)
    requires suffix != "" && Meaning(t, hour, suffix) == Some(t)
    ensures IsHalfDayText(v, t, n == 2, withSeconds, suffix[..Leading(suffix)], suffix[Leading(suffix)..])
  {
    var k := Leading(suffix);
    HourWrites(v[..n]);
    assert suffix == suffix[..k] + suffix[k..];
    HalfIsThatOf(t, hour, suffix[k..]);
    EitherCaseEquals(suffix[k..], if t.hour < 12 then "am" else "pm");
  }

  lemma ReadIsWritten(v: string, t: Time)
    requires FriendlyClock(v) == Some(t)
    ensures Writes(v, t)
  {
    var n, withSeconds, suffix := ReadIsLaid(v);
    ReadTimeMeans(v, n, withSeconds, t, Number(v[..n]), suffix);
    if suffix == "" {
      assert v[..n] + MinutesText(t, withSeconds) + "" == v[..n] + MinutesText(t, withSeconds);
      DayMeaningIsWritten(v, n, t, Number(v[..n]), withSeconds);
    } else {
      HalfMeaningIsWritten(v, n, t, Number(v[..n]), withSeconds, suffix);
    }
  }

  lemma HalfIsThatOf(t: Time, hour: int, half: string)
    requires IsHalfDay(half) && 1 <= hour <= 12 && t.hour == hour % 12 + (if Lower(half[0]) == 'p' then 12 else 0)
    ensures EqualsIgnoringCase(half, if t.hour < 12 then "am" else "pm") && hour == TwelveHour(t.hour)
  {
    assert Lower(half[0]) == "am"[0] || Lower(half[0]) == "pm"[0];
    assert Lower(half[1]) == 'm';
  }

  /** A text reads as a time of day if and only if it is one of the ways of writing that time: of
      twenty-four hours, or of twelve with am or pm; with or without seconds and a leading zero. */
  lemma ClockTextMeansItsTime(v: string, t: Time)
    ensures FriendlyClock(v) == Some(t) <==> Writes(v, t)
  {
    if FriendlyClock(v) == Some(t) { ReadIsWritten(v, t); }
    if padded, withSeconds :| IsDayText(v, t, padded, withSeconds) { DayTextReads(v, t, padded, withSeconds); }
    if padded, withSeconds, spaces, half :| IsHalfDayText(v, t, padded, withSeconds, spaces, half) {
      HalfDayTextReads(v, t, padded, withSeconds, spaces, half);
    }
  }

  // ---------------------------------------------------------------- a message with a written time

  /** The first instant after now at which a clock that many minutes east of UTC shows the time. */
  ghost predicate IsNextAt(due: int, now: int, east: int, t: Time) {
    && now < due && ShowsClock(due, east, t)
    && forall other | now < other && ShowsClock(other, east, t) :: due <= other
  }

  predicate ShowsClock(instant: int, east: int, t: Time) {
    (instant + east * 60_000) % 86_400_000 == t.hour * 3_600_000 + t.minute * 60_000 + t.second * 1_000
  }

  lemma NextClockIsNextAt(t: Time, now: int, east: int)
    requires IsTime(t) && !IsFirstCentury(now, east)
    ensures IsNextAt(NextClock(t, now, east), now, east, t) && NextClock(t, now, east) <= now + MS_PER_DAY
  {
    NextClockIsSoon(t, now, east);
    assert ShowsClock(NextClock(t, now, east), east, t);
    forall other | now < other && ShowsClock(other, east, t) ensures NextClock(t, now, east) <= other {
      assert ShowsTime(other, east, t);
      NextClockIsTheNext(t, now, east, other);
    }
  }

  /** The text around a directive is in order. */
  predicate IsInOrder(h: Host, value: string, clean: string, east: int) {
    && |value| + 10 <= MAX_SCHEDULE_DIRECTIVE_CHARS && clean != "" && h.byteLength(clean) <= MAX_SCHEDULE_BODY_BYTES
    && -840 <= east <= 840
  }

  /** The message parses as due at the next instant of that time. */
  ghost predicate IsDueNext(p: Parsed, directive: string, clean: string, now: int, east: int, t: Time) {
    && p.Directive? && p == Directive(SendAt, directive, clean, p.due, east)
    && IsNextAt(p.due, now, east, t) && p.due <= now + MS_PER_DAY
  }

  lemma ClockValueParses(h: Host, directive: string, v: string, clean: string, now: int, east: int, t: Time, due: int)
    requires FriendlyClock(v) == Some(t) && |v| + 10 <= MAX_SCHEDULE_DIRECTIVE_CHARS && due == NextClock(t, now, east)
    ensures IsInOrder(h, v, clean, east) ==>
              ParseValue(h, SendAt, directive, v, clean, now, east) == Bounded(SendAt, directive, clean, Some(due), now, east)
    ensures !IsInOrder(h, v, clean, east) ==> ParseValue(h, SendAt, directive, v, clean, now, east).Failed?
  {
  }

  lemma ClockValueIsDueNext(h: Host, directive: string, v: string, clean: string, now: int, east: int, t: Time)
    requires FriendlyClock(v) == Some(t) && |v| + 10 <= MAX_SCHEDULE_DIRECTIVE_CHARS
    ensures IsDueNext(ParseValue(h, SendAt, directive, v, clean, now, east), directive, clean, now, east, t)
            <==> IsInOrder(h, v, clean, east) && !IsFirstCentury(now, east)
  {
    var due := NextClock(t, now, east);
    ClockValueParses(h, directive, v, clean, now, east, t, due);
    if IsFirstCentury(now, east) {
      FirstCenturyIsFar(t, now, east);
    } else {
      NextClockIsNextAt(t, now, east);
    }
  }

  /** A message that starts with `[send_at=` and a written time of day is due at the next instant at
      which the host's clock shows that time: exactly when its text is in order and the host's year
      is not one that `Date.UTC` reads as another. */
  lemma ClockMessageIsDueThen(h: Host, spaces: string, v: string, rest: string, now: int, east: int, t: Time)
    requires AreSpaces(spaces) && Writes(v, t) && IsValue(v)
    ensures IsDueNext(Parse(h, spaces + ("[send_at=" + v + "]" + rest), now, east), "[send_at=" + v + "]", Trim(rest), now, east, t)
            <==> IsInOrder(h, v, Trim(rest), east) && !IsFirstCentury(now, east)
  {
    ClockTextMeansItsTime(v, t);
    if MAX_SCHEDULE_DIRECTIVE_CHARS < |v| + 10 {
      LongDirectivesFail(h, spaces, v, rest, now, east);
    } else {
      WrittenParses(h, spaces, v, rest, now, east);
      ClockValueIsDueNext(h, HEAD + v + "]", v, Trim(rest), now, east, t);
    }
  }

  // ---------------------------------------------------------------- durations

  /** A number in decimal. */
  function Decimal(n: nat): string {
    if n < 10 then [DigitChar(n)] else Decimal(n / 10) + [DigitChar(n % 10)]
  }

  lemma {:induction false} DecimalReads(n: nat)
    ensures Decimal(n) != "" && AreDigits(Decimal(n)) && Number(Decimal(n)) == n
  {
    var s := Decimal(n);
    if n < 10 {
      assert s[..0] == "";
    } else {
      DecimalReads(n / 10);
      assert s[..|s| - 1] == Decimal(n / 10);
    }
  }

  /** An amount behind its number, or nothing when there is none. */
  function AmountText(n: Option<nat>, unit: char): string {
    if n.None? then "" else Decimal(n.value) + [unit]
  }

  function Given(n: Option<nat>): nat {
    if n.None? then 0 else n.value
  }

  function PartIf(n: Option<nat>, unit: char): seq<Part> {
    if n.None? then [] else [Part(Decimal(n.value), unit)]
  }

  lemma PartIfIsPart(n: Option<nat>, unit: char)
    requires 0 < Rank(unit)
    ensures forall p | p in PartIf(n, unit) :: IsPart(p) && p.unit == unit
    ensures PartsText(PartIf(n, unit)) == AmountText(n, unit)
    ensures |PartIf(n, unit)| <= 1
    ensures PartIf(n, unit) != [] ==> Number(PartIf(n, unit)[0].digits) == Given(n)
  {
    if n.Some? {
      DecimalReads(n.value);
      var p := Part(Decimal(n.value), unit);
      assert [p][1..] == [] && PartText(p) + "" == PartText(p);
    }
  }

  lemma {:induction false} PartsTextConcat(a: seq<Part>, b: seq<Part>)
    ensures PartsText(a + b) == PartsText(a) + PartsText(b)
  {
    if a == [] {
      assert a + b == b;
    } else {
      PartsTextConcat(a[1..], b);
      assert (a + b)[1..] == a[1..] + b;
    }
  }

  lemma OneMoreUnit(parts: seq<Part>, n: Option<nat>, unit: char, rank: int)
    requires Rank(unit) == rank - 1 && 0 < Rank(unit) && Descend(parts, rank - 1)
    ensures Descend(PartIf(n, unit) + parts, rank)
    ensures PartsText(PartIf(n, unit) + parts) == AmountText(n, unit) + PartsText(parts)
  {
    PartIfIsPart(n, unit);
    PartsTextConcat(PartIf(n, unit), parts);
    if n.None? {
      assert PartIf(n, unit) + parts == parts;
    } else {
      assert (PartIf(n, unit) + parts)[1..] == parts;
    }
  }

  lemma {:induction false} TotalConcat(a: seq<Part>, b: seq<Part>)
    ensures Total(a + b) == Total(a) + Total(b)
  {
    if b == [] {
      assert a + b == a;
    } else {
      assert (a + b)[..|a + b| - 1] == a + b[..|b| - 1];
      TotalConcat(a, b[..|b| - 1]);
    }
  }

  lemma TotalOfPart(n: Option<nat>, unit: char, ms: nat)
    requires 0 < Rank(unit) && forall digits :: Amount(Part(digits, unit)) == Number(digits) * ms
    ensures Total(PartIf(n, unit)) == Given(n) * ms
  {
    PartIfIsPart(n, unit);
    if n.Some? {
      var p := PartIf(n, unit)[0];
      assert [p][..0] == [] && Total([]) == 0;
    }
  }

  /** Days, hours, minutes and seconds, each given or not. */
  function DurationText(d: Option<nat>, h: Option<nat>, m: Option<nat>, s: Option<nat>): string {
    AmountText(d, 'd') + (AmountText(h, 'h') + (AmountText(m, 'm') + AmountText(s, 's')))
  }

  function Milliseconds(d: nat, h: nat, m: nat, s: nat): nat {
    (((d * 24 + h) * 60 + m) * 60 + s) * 1000
  }

  function DurationParts(d: Option<nat>, h: Option<nat>, m: Option<nat>, s: Option<nat>): seq<Part> {
    PartIf(d, 'd') + (PartIf(h, 'h') + (PartIf(m, 'm') + (PartIf(s, 's') + [])))
  }

  lemma DurationIsParts(d: Option<nat>, h: Option<nat>, m: Option<nat>, s: Option<nat>)
    ensures Descend(DurationParts(d, h, m, s), 5) && PartsText(DurationParts(d, h, m, s)) == DurationText(d, h, m, s)
  {
    OneMoreUnit([], s, 's', 2);
    OneMoreUnit(PartIf(s, 's') + [], m, 'm', 3);
    OneMoreUnit(PartIf(m, 'm') + (PartIf(s, 's') + []), h, 'h', 4);
    OneMoreUnit(PartIf(h, 'h') + (PartIf(m, 'm') + (PartIf(s, 's') + [])), d, 'd', 5);
    assert AmountText(s, 's') + "" == AmountText(s, 's');
  }

  lemma DurationTotal(d: Option<nat>, h: Option<nat>, m: Option<nat>, s: Option<nat>)
    ensures Total(DurationParts(d, h, m, s)) == Milliseconds(Given(d), Given(h), Given(m), Given(s))
  {
    TotalOfPart(d, 'd', 86_400_000);
    TotalOfPart(h, 'h', 3_600_000);
    TotalOfPart(m, 'm', 60_000);
    TotalOfPart(s, 's', 1_000);
    TotalConcat(PartIf(s, 's'), []);
    TotalConcat(PartIf(m, 'm'), PartIf(s, 's') + []);
    TotalConcat(PartIf(h, 'h'), PartIf(m, 'm') + (PartIf(s, 's') + []));
    TotalConcat(PartIf(d, 'd'), PartIf(h, 'h') + (PartIf(m, 'm') + (PartIf(s, 's') + [])));
  }

  /** Days, hours, minutes and seconds in this order, any of them left out, read as their total in
      milliseconds, if and only if that is positive and a safe integer. */
  lemma WrittenDurationReads(d: Option<nat>, h: Option<nat>, m: Option<nat>, s: Option<nat>)
    ensures var total := Milliseconds(Given(d), Given(h), Given(m), Given(s));
            RelativeMilliseconds(DurationText(d, h, m, s))
              == if 0 < total <= 9_007_199_254_740_991 then Some(total) else None
  {
    DurationIsParts(d, h, m, s);
    DurationTotal(d, h, m, s);
    PartsReadBack(DurationParts(d, h, m, s), 5);
  }

  const IN_HEAD: string := "[send_in="

  lemma InHeadLooksScheduled(text: string)
    requires IN_HEAD <= text
    ensures LooksScheduled(text)
  {
    var first := text[..8];
    assert forall i | 0 <= i < 8 :: first[i] == IN_HEAD[i];
    assert first == "[send_in" && text[8] == IN_HEAD[8];
  }

  lemma InFound(h: Host, value: string, rest: string, now: int, east: int)
    requires IsValue(value)
    ensures ParseFound(h, IN_HEAD + value + "]", rest, now, east) ==
              ParseValue(h, SendIn, IN_HEAD + value + "]", value, Trim(rest), now, east)
  {
    ScheduleResults.Parts(IN_HEAD, value, "", IN_HEAD + value + "]" + "");
    assert IN_HEAD + value + "]" + "" == IN_HEAD + value + "]";
  }

  /** A duration behind `[send_in=` parses as that directive. */
  lemma WrittenInParses(h: Host, spaces: string, value: string, rest: string, now: int, east: int)
    requires AreSpaces(spaces) && IsValue(value)
    ensures Parse(h, spaces + (IN_HEAD + value + "]" + rest), now, east) ==
              if |value| + 10 <= MAX_SCHEDULE_DIRECTIVE_CHARS
              then ParseValue(h, SendIn, IN_HEAD + value + "]", value, Trim(rest), now, east)
              else Failed(Malformed)
  {
    var text := IN_HEAD + value + "]" + rest;
    ScheduleResults.Parts(IN_HEAD, value, rest, text);
    assert text[0] == IN_HEAD[0];
    LeadingOf(spaces, text);
    assert (spaces + text)[|spaces|..] == text;
    CloseOfParts(IN_HEAD, value, rest, text);
    InHeadLooksScheduled(text);
    InFound(h, value, rest, now, east);
  }

  /** A message that starts with `[send_in=` and a duration is due that long from now: exactly when
      its text is in order and the duration is positive and within the horizon of 365 days. */
  lemma DurationMessageIsDueThen(h: Host, spaces: string, v: string, rest: string, now: int, east: int, total: int)
    requires AreSpaces(spaces) && IsValue(v) && RelativeMilliseconds(v) == Some(total)
    ensures Parse(h, spaces + ("[send_in=" + v + "]" + rest), now, east)
              == Directive(SendIn, "[send_in=" + v + "]", Trim(rest), now + total, east)
            <==> IsInOrder(h, v, Trim(rest), east) && total <= 365 * 86_400_000
  {
    WrittenInParses(h, spaces, v, rest, now, east);
  }

  lemma ValueIsADirective(h: Host, kind: Kind, directive: string, value: string, clean: string, now: int, east: int)
    ensures !ParseValue(h, kind, directive, value, clean, now, east).NotADirective?
  {
  }

  lemma FoundIsADirective(h: Host, directive: string, rest: string, now: int, east: int)
    ensures !ParseFound(h, directive, rest, now, east).NotADirective?
  {
    if 10 <= |directive| {
      ValueIsADirective(h, SendIn, directive, directive[9..|directive| - 1], Trim(rest), now, east);
      ValueIsADirective(h, SendAt, directive, directive[9..|directive| - 1], Trim(rest), now, east);
    }
  }

  lemma ParsedIfItLooks(h: Host, body: string, first: string, now: int, east: int)
    requires first == body[Leading(body)..]
    ensures Parse(h, body, now, east).NotADirective? <==> !LooksScheduled(first)
  {
    var close := CloseOf(first);
    if close < |first| { FoundIsADirective(h, first[..close + 1], first[close + 1..], now, east); }
  }

  /** Only a text that starts with `[send_in` or `[send_at`, in any case and with no word character
      behind it, is a directive, well formed or not. */
  lemma NoDirectiveExactly(h: Host, spaces: string, text: string, now: int, east: int)
    requires AreSpaces(spaces) && (text != "" ==> !IsSpace(text[0] as int))
    ensures Parse(h, spaces + text, now, east).NotADirective? <==>
              !(&& 8 <= |text| && (IsInAnyCase(text[..8], "[send_in") || IsInAnyCase(text[..8], "[send_at"))
                && (8 < |text| ==> !('a' <= text[8] <= 'z' || 'A' <= text[8] <= 'Z' || '0' <= text[8] <= '9' || text[8] == '_')))
  {
    assert (spaces + text)[|spaces|..] == text;
    if text == "" {
      LeadingOfSpaces(spaces + text);
    } else {
      LeadingOf(spaces, text);
    }
    if 8 <= |text| {
      EitherCaseEquals(text[..8], "[send_in");
      EitherCaseEquals(text[..8], "[send_at");
    }
    ParsedIfItLooks(h, spaces + text, text, now, east);
  }

  lemma HeadIsFound(spaces: string, head: string, more: string)
    requires AreSpaces(spaces) && (head == "[send_at=" || head == "[send_in=")
    ensures Leading(spaces + (head + more)) == |spaces| && (spaces + (head + more))[|spaces|..] == head + more
    ensures LooksScheduled(head + more)
  {
    assert head[0] == '[' && (head + more)[0] == head[0];
    LeadingOf(spaces, head + more);
    if head == "[send_in=" { InHeadLooksScheduled(head + more); } else { HeadLooksScheduled(head + more); }
  }

  /** A value that is empty or holds a line end is malformed, whatever else the text is. */
  lemma BrokenValuesFail(h: Host, spaces: string, head: string, value: string, rest: string, now: int, east: int)
    requires AreSpaces(spaces) && (head == "[send_at=" || head == "[send_in=")
    requires forall i | 0 <= i < |value| :: value[i] != ']'
    requires value == "" || exists i :: 0 <= i < |value| && (value[i] == '\r' || value[i] == '\n')
    ensures Parse(h, spaces + (head + (value + "]" + rest)), now, east) == Failed(Malformed)
  {
    var text := head + value + "]" + rest;
    assert head + (value + "]" + rest) == text;
    ScheduleResults.Parts(head, value, rest, text);
    HeadIsFound(spaces, head, value + "]" + rest);
    BrokenClose(head, value, rest, text);
    BrokenIsMalformed(h, head, value, rest, now, east);
  }

  lemma BrokenClose(head: string, value: string, rest: string, text: string)
    requires text == head + value + "]" + rest && forall i | 0 <= i < |head| :: head[i] != ']'
    requires forall i | 0 <= i < |value| :: value[i] != ']'
    ensures CloseOf(text) == |head| + |value|
  {
    ScheduleResults.Parts(head, value, rest, text);
    var front := head + value;
    assert forall i | 0 <= i < |front| :: front[i] == if i < |head| then head[i] else value[i - |head|];
    CloseIsFound(front, "]" + rest);
  }

  lemma BrokenIsMalformed(h: Host, head: string, value: string, rest: string, now: int, east: int)
    requires |head| == 9 && (value == "" || exists i :: 0 <= i < |value| && (value[i] == '\r' || value[i] == '\n'))
    ensures ParseFound(h, head + value + "]", rest, now, east) == Failed(Malformed)
  {
    var directive := head + value + "]";
    assert directive[9..|directive| - 1] == value;
  }

  // ---------------------------------------------------------------- what is rewritten

  /** The client rewrites exactly the messages that start with `[send_at=`, a written time of day and
      a bracket, and that parse; every other message it leaves alone. */
  lemma RewrittenExactly(h: Host, body: string, now: int, east: int)
    ensures IsFriendly(body) <==>
              exists spaces, v, rest, t :: AreSpaces(spaces) && IsValue(v) && Writes(v, t)
                                           && body == spaces + ("[send_at=" + v + "]" + rest)
    ensures !(IsFriendly(body) && -840 <= east <= 840 && Parse(h, body, now, east).Directive?) ==>
              Canonicalize(h, body, now, east) == body
  {
    if IsFriendly(body) {
      var spaces, v, rest := FriendlyBody(body);
      ClockTextMeansItsTime(v, FriendlyClock(v).value);
      assert body == spaces + ("[send_at=" + v + "]" + rest);
    }
    if spaces, v, rest, t :| AreSpaces(spaces) && IsValue(v) && Writes(v, t)
                             && body == spaces + ("[send_at=" + v + "]" + rest) {
      ClockTextMeansItsTime(v, t);
      WrittenIsFound(spaces, v, rest);
    }
  }

  /** A text that is no written time is an instant only if it ends in `Z` or a numeric offset. */
  lemma InstantsNameAnOffset(h: Host, v: string, now: int, east: int)
    requires AbsoluteMilliseconds(h, v, now, east).Some? && !(exists t :: Writes(v, t))
    ensures v != ""
    ensures v[|v| - 1] == 'Z' || v[|v| - 1] == 'z' ||
            (6 <= |v| && (v[|v| - 6] == '+' || v[|v| - 6] == '-') && v[|v| - 3] == ':'
             && IsDigit(v[|v| - 5]) && IsDigit(v[|v| - 4]) && IsDigit(v[|v| - 2]) && IsDigit(v[|v| - 1]))
  {
    if FriendlyClock(v).Some? { ClockTextMeansItsTime(v, FriendlyClock(v).value); }
    if 6 <= |v| {
      var o := v[|v| - 6..];
      assert o[1..3] == [o[1], o[2]] && o[4..6] == [o[4], o[5]];
    }
  }

  lemma {:induction false} TrimEndDrops(core: string, after: string)
    requires AreSpaces(after) && (core == "" || !IsSpace(core[|core| - 1] as int))
    ensures TrimEnd(core + after) == core
  {
    if after == "" {
      assert core + after == core;
    } else {
      assert (core + after)[..|core + after| - 1] == core + after[..|after| - 1];
      TrimEndDrops(core, after[..|after| - 1]);
    }
  }

  lemma {:induction false} LeadingOfSpaces(s: string)
    requires AreSpaces(s)
    ensures Leading(s) == |s|
  {
    if s != "" { LeadingOfSpaces(s[1..]); }
  }

  /** The text of the message is what is left when the spaces around it are gone. */
  lemma TrimmedIsTheText(before: string, core: string, after: string)
    requires AreSpaces(before) && AreSpaces(after)
    requires core != "" ==> !IsSpace(core[0] as int) && !IsSpace(core[|core| - 1] as int)
    ensures Trim(before + core + after) == core
  {
    var s := before + core + after;
    if core == "" {
      LeadingOfSpaces(s);
      assert s[|s|..] == "";
    } else {
      assert s == before + (core + after);
      LeadingOf(before, core + after);
      TrimEndDrops(core, after);
    }
  }
}
