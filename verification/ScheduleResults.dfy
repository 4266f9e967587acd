/** Rewriting a friendly clock keeps its meaning. */
module ScheduleResults {
  import opened Basics
  import opened CivilTime
  import opened Schedule

  // ---------------------------------------------------------------- the next clock

  predicate ShowsTime(instant: int, east: int, t: Time) {
    (instant + east * MS_PER_MINUTE) % MS_PER_DAY == TimeOfDay(t.hour, t.minute, t.second)
  }

  /** The local year in which `Date.UTC` reads another century. */
  predicate IsFirstCentury(now: int, east: int) {
    0 <= DateOf((now + east * MS_PER_MINUTE) / MS_PER_DAY).year <= 99
  }

  lemma OnOrAfterIsSoon(now: int, east: int, tod: int)
    requires 0 <= tod < MS_PER_DAY
    ensures
      var due := OnOrAfter((now + east * MS_PER_MINUTE) / MS_PER_DAY, tod, now, east);
      now < due <= now + MS_PER_DAY && (due + east * MS_PER_MINUTE) % MS_PER_DAY == tod
  {
    var local := now + east * MS_PER_MINUTE;
    DayAndRest(local / MS_PER_DAY, tod);
    DayAndRest(local / MS_PER_DAY + 1, tod);
  }

  lemma DayAndRest(day: int, tod: int)
    requires 0 <= tod < MS_PER_DAY
    ensures (day * MS_PER_DAY + tod) % MS_PER_DAY == tod && (day * MS_PER_DAY + tod) / MS_PER_DAY == day
  {
  }

  lemma TimeIsInDay(t: Time)
    requires IsTime(t)
    ensures 0 <= TimeOfDay(t.hour, t.minute, t.second) < MS_PER_DAY
    ensures TimeOfDay(t.hour, t.minute, t.second) % 1000 == 0
  {
  }

  lemma SameTimeIsADayApart(a: int, b: int)
    requires a < b && a % MS_PER_DAY == b % MS_PER_DAY
    ensures MS_PER_DAY <= b - a
  {
  }

  lemma UtcDayIsDay(day: int)
    requires !(0 <= DateOf(day).year <= 99)
    ensures UtcDay(DateOf(day)) == day
  {
    DaysRoundTrip(day);
  }

  lemma CenturiesApart(y: int)
    requires 0 <= y <= 99
    ensures 365 * 1899 <= DayFromYear(1900 + y) - DayFromYear(y)
  {
    assert (y - 69) / 4 == (y - 1969) / 4 + 475 && (y - 1) / 100 == (y - 1901) / 100 + 19;
    assert (y + 299) / 400 == 0 && (y - 1601) / 400 <= 0;
  }

  lemma LaterDay(d: Date)
    requires IsDate(d) && 0 <= d.year <= 99
    ensures DayOf(d) + 367 <= UtcDay(d)
  {
    CenturiesApart(d.year);
  }

  /** In the first century `Date.UTC` answers with a day far beyond the horizon. */
  lemma FirstCenturyIsFar(t: Time, now: int, east: int)
    requires IsTime(t) && IsFirstCentury(now, east)
    ensures MAX_SCHEDULE_HORIZON_MS < NextClock(t, now, east) - now
  {
    var day := (now + east * MS_PER_MINUTE) / MS_PER_DAY;
    DaysRoundTrip(day);
    LaterDay(DateOf(day));
    TimeIsInDay(t);
    FarDaysAreFar(now, east, day, UtcDay(DateOf(day)), TimeOfDay(t.hour, t.minute, t.second));
  }

  lemma FarDaysAreFar(now: int, east: int, day: int, later: int, tod: int)
    requires day == (now + east * MS_PER_MINUTE) / MS_PER_DAY && day + 367 <= later && 0 <= tod
    ensures MAX_SCHEDULE_HORIZON_MS < OnOrAfter(later, tod, now, east) - now
  {
    assert now + east * MS_PER_MINUTE < (day + 1) * MS_PER_DAY;
  }

  lemma NoneBetween(due: int, now: int, east: int, t: Time, other: int)
    requires due <= now + MS_PER_DAY && ShowsTime(due, east, t) && now < other && ShowsTime(other, east, t)
    ensures due <= other
  {
    if other < due {
      SameTimeIsADayApart(other + east * MS_PER_MINUTE, due + east * MS_PER_MINUTE);
    }
  }

  lemma NextClockIsSoon(t: Time, now: int, east: int)
    requires IsTime(t) && !IsFirstCentury(now, east)
    ensures now < NextClock(t, now, east) <= now + MS_PER_DAY
    ensures ShowsTime(NextClock(t, now, east), east, t)
  {
    TimeIsInDay(t);
    UtcDayIsDay((now + east * MS_PER_MINUTE) / MS_PER_DAY);
    OnOrAfterIsSoon(now, east, TimeOfDay(t.hour, t.minute, t.second));
  }

  /** A friendly clock means the first instant after now at which the host's clock shows it. */
  lemma NextClockIsTheNext(t: Time, now: int, east: int, other: int)
    requires IsTime(t) && !IsFirstCentury(now, east)
    ensures now < NextClock(t, now, east) <= now + MS_PER_DAY
    ensures ShowsTime(NextClock(t, now, east), east, t)
    ensures now < other && ShowsTime(other, east, t) ==> NextClock(t, now, east) <= other
  {
    NextClockIsSoon(t, now, east);
    if now < other && ShowsTime(other, east, t) { NoneBetween(NextClock(t, now, east), now, east, t, other); }
  }

  lemma OnOrAfterIsWhole(day: int, tod: int, now: int, east: int)
    requires tod % 1000 == 0
    ensures OnOrAfter(day, tod, now, east) % 1000 == 0
  {
    var due := day * MS_PER_DAY + tod - east * MS_PER_MINUTE;
    assert due == (day * 86_400 - east * 60) * 1000 + tod;
    assert due + MS_PER_DAY == (day * 86_400 - east * 60 + 86_400) * 1000 + tod;
  }

  lemma NextClockIsWhole(t: Time, now: int, east: int)
    requires IsTime(t)
    ensures NextClock(t, now, east) % 1000 == 0
  {
    TimeIsInDay(t);
    OnOrAfterIsWhole(
      UtcDay(DateOf((now + east * MS_PER_MINUTE) / MS_PER_DAY)), TimeOfDay(t.hour, t.minute, t.second), now, east);
  }

  // ---------------------------------------------------------------- the rewritten text

  lemma {:induction false} LeadingOf(spaces: string, rest: string)
    requires forall i | 0 <= i < |spaces| :: IsSpace(spaces[i] as int)
    requires rest != "" && !IsSpace(rest[0] as int)
    ensures Leading(spaces + rest) == |spaces|
  {
    if spaces == "" {
      assert spaces + rest == rest;
    } else {
      assert (spaces + rest)[1..] == spaces[1..] + rest;
      LeadingOf(spaces[1..], rest);
    }
  }

  lemma {:induction false} CloseIsFound(s: string, rest: string)
    requires forall i | 0 <= i < |s| :: s[i] != ']'
    requires rest != "" && rest[0] == ']'
    ensures CloseOf(s + rest) == |s|
  {
    if s == "" {
      assert s + rest == rest;
    } else {
      assert (s + rest)[1..] == s[1..] + rest;
      CloseIsFound(s[1..], rest);
    }
  }

  /** The characters of an explicit instant. */
  predicate IsPlain(s: string) {
    forall i | 0 <= i < |s| :: IsDigit(s[i]) || s[i] == '-' || s[i] == ':' || s[i] == 'T' || s[i] == '+'
  }

  lemma ShapeIsPlain(s: string)
    requires HasShape(s)
    ensures IsPlain(s) && IsValue(s) && EndsInOffset(s) && FriendlyClock(s).None?
  {
    assert forall i | 0 <= i < 4 :: s[i] == s[..4][i];
    assert forall i | 5 <= i < 7 :: s[i] == s[5..7][i - 5];
    assert forall i | 8 <= i < 10 :: s[i] == s[8..10][i - 8];
    assert forall i | 11 <= i < 13 :: s[i] == s[11..13][i - 11];
    assert forall i | 14 <= i < 16 :: s[i] == s[14..16][i - 14];
    assert forall i | 17 <= i < 19 :: s[i] == s[17..19][i - 17];
    assert forall i | 20 <= i < 22 :: s[i] == s[20..22][i - 20];
    assert forall i | 23 <= i < 25 :: s[i] == s[23..25][i - 23];
    assert IsPlain(s);
    assert IsDigit(s[1]) && IsDigit(s[2]);
    var o := s[19..];
    assert o[1..3] == s[20..22] && o[4..6] == s[23..25];
    assert s[|s| - 6..] == o;
  }

  /** A head, a value, a bracket and the rest, taken apart again. */
  lemma Parts(head: string, value: string, rest: string, text: string)
    requires text == head + value + "]" + rest
    ensures |text| == |head| + |value| + 1 + |rest|
    ensures text[..|head|] == head && text[|head|..|head| + |value|] == value && text[|head| + |value|] == ']'
    ensures text[..|head| + |value| + 1] == head + value + "]" && text[|head| + |value| + 1..] == rest
    ensures text == (head + value) + ("]" + rest)
  {
  }

  lemma CloseOfParts(head: string, value: string, rest: string, text: string)
    requires text == head + value + "]" + rest && IsValue(value)
    requires forall i | 0 <= i < |head| :: head[i] != ']'
    ensures CloseOf(text) == |head| + |value|
  {
    Parts(head, value, rest, text);
    var front := head + value;
    assert forall i | 0 <= i < |front| :: front[i] == if i < |head| then head[i] else value[i - |head|];
    CloseIsFound(front, "]" + rest);
  }

  lemma HeadLooksScheduled(text: string)
    requires HEAD <= text
    ensures LooksScheduled(text) && !("[send_in=" <= text)
  {
    var first := text[..8];
    assert forall i | 0 <= i < 8 :: first[i] == HEAD[i];
    assert first == "[send_at" && text[8] == HEAD[8];
    assert text[6] == HEAD[6];
  }

  /** What a `send_at` directive that was written parses to. */
  lemma FoundParses(h: Host, value: string, rest: string, now: int, east: int)
    requires IsValue(value)
    ensures ParseFound(h, HEAD + value + "]", rest, now, east) ==
              ParseValue(h, SendAt, HEAD + value + "]", value, Trim(rest), now, east)
  {
    Parts(HEAD, value, "", HEAD + value + "]" + "");
    assert HEAD + value + "]" + "" == HEAD + value + "]";
    HeadLooksScheduled(HEAD + value + "]");
  }

  predicate AreSpaces(s: string) {
    forall i | 0 <= i < |s| :: IsSpace(s[i] as int)
  }

  lemma FirstIsFound(spaces: string, text: string)
    requires AreSpaces(spaces) && HEAD <= text
    ensures Leading(spaces + text) == |spaces| && (spaces + text)[|spaces|..] == text && (spaces + text)[..|spaces|] == spaces
  {
    assert text[0] == HEAD[0];
    LeadingOf(spaces, text);
  }

  /** A directive written after some spaces parses as that directive. */
  lemma WrittenParses(h: Host, spaces: string, value: string, rest: string, now: int, east: int)
    requires AreSpaces(spaces) && IsValue(value) && |value| + 10 <= MAX_SCHEDULE_DIRECTIVE_CHARS
    ensures Parse(h, spaces + (HEAD + value + "]" + rest), now, east) ==
              ParseValue(h, SendAt, HEAD + value + "]", value, Trim(rest), now, east)
  {
    var text := HEAD + value + "]" + rest;
    Parts(HEAD, value, rest, text);
    FirstIsFound(spaces, text);
    CloseOfParts(HEAD, value, rest, text);
    HeadLooksScheduled(text);
    FoundParses(h, value, rest, now, east);
  }

  lemma WrittenIsFound(spaces: string, value: string, rest: string)
    requires AreSpaces(spaces) && IsValue(value)
    ensures
      var body := spaces + (HEAD + value + "]" + rest);
      LeadingValue(body[Leading(body)..]) == Some(value)
  {
    var text := HEAD + value + "]" + rest;
    Parts(HEAD, value, rest, text);
    FirstIsFound(spaces, text);
    CloseOfParts(HEAD, value, rest, text);
  }

  lemma RewrittenIs(body: string, spaces: string, value: string, rest: string, explicit: string)
    requires AreSpaces(spaces) && IsValue(value) && body == spaces + (HEAD + value + "]" + rest)
    ensures Rewritten(body, explicit) == spaces + (HEAD + explicit + "]" + rest)
  {
    var text := HEAD + value + "]" + rest;
    Parts(HEAD, value, rest, text);
    FirstIsFound(spaces, text);
    CloseOfParts(HEAD, value, rest, text);
  }

  // ---------------------------------------------------------------- main results

  lemma Recompose(head: string, first: string, close: nat)
    requires head <= first && |head| <= close < |first| && first[close] == ']'
    ensures first == head + first[|head|..close] + "]" + first[close + 1..]
  {
  }

  lemma SplitSpaces(body: string)
    ensures body == body[..Leading(body)] + body[Leading(body)..] && AreSpaces(body[..Leading(body)])
  {
  }

  /** A friendly body is some spaces, its directive and the rest. */
  lemma FriendlyBody(body: string) returns (spaces: string, value: string, rest: string)
    requires IsFriendly(body)
    ensures AreSpaces(spaces) && IsValue(value) && FriendlyClock(value).Some?
    ensures body == spaces + (HEAD + value + "]" + rest)
  {
    var first := body[Leading(body)..];
    var close := CloseOf(first);
    SplitSpaces(body);
    Recompose(HEAD, first, close);
    spaces, value, rest := body[..Leading(body)], first[9..close], first[close + 1..];
  }

  lemma LongDirectivesFail(h: Host, spaces: string, value: string, rest: string, now: int, east: int)
    requires AreSpaces(spaces) && IsValue(value) && MAX_SCHEDULE_DIRECTIVE_CHARS < |value| + 10
    ensures Parse(h, spaces + (HEAD + value + "]" + rest), now, east) == Failed(Malformed)
  {
    var text := HEAD + value + "]" + rest;
    Parts(HEAD, value, rest, text);
    FirstIsFound(spaces, text);
    CloseOfParts(HEAD, value, rest, text);
    HeadLooksScheduled(text);
  }

  lemma ParsedValue(h: Host, directive: string, value: string, clean: string, now: int, east: int)
    requires ParseValue(h, SendAt, directive, value, clean, now, east).Directive? && FriendlyClock(value).Some?
    ensures ParseValue(h, SendAt, directive, value, clean, now, east) ==
              Directive(SendAt, directive, clean, NextClock(FriendlyClock(value).value, now, east), east)
    ensures clean != "" && h.byteLength(clean) <= MAX_SCHEDULE_BODY_BYTES && IsOffset(east)
  {
  }

  /** A friendly body parses, if it does, to the next time its clock shows. */
  lemma FriendlyParses(h: Host, spaces: string, value: string, rest: string, now: int, east: int)
    requires AreSpaces(spaces) && IsValue(value) && FriendlyClock(value).Some?
    requires Parse(h, spaces + (HEAD + value + "]" + rest), now, east).Directive?
    ensures Parse(h, spaces + (HEAD + value + "]" + rest), now, east) ==
              Directive(SendAt, HEAD + value + "]", Trim(rest), NextClock(FriendlyClock(value).value, now, east), east)
    ensures Trim(rest) != "" && h.byteLength(Trim(rest)) <= MAX_SCHEDULE_BODY_BYTES && IsOffset(east)
  {
    if MAX_SCHEDULE_DIRECTIVE_CHARS < |value| + 10 {
      LongDirectivesFail(h, spaces, value, rest, now, east);
    } else {
      WrittenParses(h, spaces, value, rest, now, east);
      ParsedValue(h, HEAD + value + "]", value, Trim(rest), now, east);
    }
  }

  lemma ExplicitReads(h: Host, due: int, east: int, hostEast: int, later: int)
    requires due % 1000 == 0 && IsClock(ClockOf(due, east))
    ensures IsValue(Explicit(h, due, east)) && |Explicit(h, due, east)| == 25
    ensures FriendlyClock(Explicit(h, due, east)).None?
    ensures AbsoluteMilliseconds(h, Explicit(h, due, east), later, hostEast) == Some(due)
  {
    var clock := ClockOf(due, east);
    ClockTextReads(clock);
    ShapeIsPlain(ClockText(clock));
    ClocksRoundTrip(due, east);
  }

  lemma ExplicitParses(h: Host, spaces: string, rest: string, due: int, east: int, later: int, hostEast: int)
    requires AreSpaces(spaces) && due % 1000 == 0 && IsClock(ClockOf(due, east)) && IsOffset(hostEast)
    requires Trim(rest) != "" && h.byteLength(Trim(rest)) <= MAX_SCHEDULE_BODY_BYTES
    ensures Parse(h, spaces + (HEAD + Explicit(h, due, east) + "]" + rest), later, hostEast) ==
              Bounded(SendAt, HEAD + Explicit(h, due, east) + "]", Trim(rest), Some(due), later, hostEast)
  {
    var text := Explicit(h, due, east);
    ExplicitReads(h, due, east, hostEast, later);
    WrittenParses(h, spaces, text, rest, later, hostEast);
  }

  /** The rewritten body parses, under any host offset and at any time, to the same instant and the
      same text, exactly when that instant is still to come and within the horizon. */
  lemma RewritingKeepsMeaning(h: Host, body: string, now: int, east: int, later: int, hostEast: int)
    requires IsFriendly(body) && Parse(h, body, now, east).Directive? && IsOffset(hostEast)
    requires IsClock(ClockOf(Parse(h, body, now, east).due, east))
    ensures
      var was := Parse(h, body, now, east);
      var text := Canonicalize(h, body, now, east);
      Parse(h, text, later, hostEast) ==
        Directive(SendAt, HEAD + Explicit(h, was.due, east) + "]", was.cleanBody, was.due, hostEast)
      <==> later < was.due <= later + MAX_SCHEDULE_HORIZON_MS
  {
    var spaces, value, rest := FriendlyBody(body);
    FriendlyParses(h, spaces, value, rest, now, east);
    var due := NextClock(FriendlyClock(value).value, now, east);
    NextClockIsWhole(FriendlyClock(value).value, now, east);
    ExplicitParses(h, spaces, rest, due, east, later, hostEast);
    RewrittenIs(body, spaces, value, rest, Explicit(h, due, east));
  }

  /** Rewriting twice is rewriting once, whenever and wherever the second time is. */
  lemma RewritingIsIdempotent(h: Host, body: string, now: int, east: int, later: int, otherEast: int)
    requires IsFriendly(body) && Parse(h, body, now, east).Directive?
    requires IsClock(ClockOf(Parse(h, body, now, east).due, east))
    ensures !IsFriendly(Canonicalize(h, body, now, east))
    ensures Canonicalize(h, Canonicalize(h, body, now, east), later, otherEast) == Canonicalize(h, body, now, east)
  {
    var spaces, value, rest := FriendlyBody(body);
    FriendlyParses(h, spaces, value, rest, now, east);
    var due := NextClock(FriendlyClock(value).value, now, east);
    NextClockIsWhole(FriendlyClock(value).value, now, east);
    ExplicitReads(h, due, east, 0, 0);
    RewrittenIs(body, spaces, value, rest, Explicit(h, due, east));
    WrittenIsFound(spaces, Explicit(h, due, east), rest);
  }

  lemma ParsedIsBounded(h: Host, body: string, now: int, east: int)
    requires Parse(h, body, now, east).Directive?
    ensures Parse(h, body, now, east).due - now <= MAX_SCHEDULE_HORIZON_MS
  {
    var first := body[Leading(body)..];
    var close := CloseOf(first);
    FoundIsBounded(h, first[..close + 1], first[close + 1..], now, east);
  }

  lemma FoundIsBounded(h: Host, directive: string, rest: string, now: int, east: int)
    requires ParseFound(h, directive, rest, now, east).Directive?
    ensures ParseFound(h, directive, rest, now, east).due - now <= MAX_SCHEDULE_HORIZON_MS
  {
    var value := directive[9..|directive| - 1];
    if "[send_in=" <= directive {
      ValueIsBounded(h, SendIn, directive, value, Trim(rest), now, east);
    } else {
      ValueIsBounded(h, SendAt, directive, value, Trim(rest), now, east);
    }
  }

  lemma ValueIsBounded(h: Host, kind: Kind, directive: string, value: string, clean: string, now: int, east: int)
    requires ParseValue(h, kind, directive, value, clean, now, east).Directive?
    ensures ParseValue(h, kind, directive, value, clean, now, east).due - now <= MAX_SCHEDULE_HORIZON_MS
  {
    var due := if kind.SendAt? then AbsoluteMilliseconds(h, value, now, east)
               else if RelativeMilliseconds(value).None? then None
               else Some(now + RelativeMilliseconds(value).value);
    assert ParseValue(h, kind, directive, value, clean, now, east) == Bounded(kind, directive, clean, due, now, east);
    BoundsHold(kind, directive, clean, due, now, east);
  }

  lemma BoundsHold(kind: Kind, directive: string, clean: string, due: Option<int>, now: int, east: int)
    requires Bounded(kind, directive, clean, due, now, east).Directive?
    ensures Bounded(kind, directive, clean, due, now, east).due - now <= MAX_SCHEDULE_HORIZON_MS
  {
  }

  /** A friendly clock that parses is due within a day. */
  lemma FriendlyIsWithinADay(h: Host, body: string, now: int, east: int)
    requires IsFriendly(body) && Parse(h, body, now, east).Directive?
    ensures now < Parse(h, body, now, east).due <= now + MS_PER_DAY
  {
    var spaces, value, rest := FriendlyBody(body);
    FriendlyParses(h, spaces, value, rest, now, east);
    ParsedIsBounded(h, body, now, east);
    if IsFirstCentury(now, east) { FirstCenturyIsFar(FriendlyClock(value).value, now, east); }
    NextClockIsSoon(FriendlyClock(value).value, now, east);
  }

  // ---------------------------------------------------------------- durations

  /** Units descend, from below `rank` on. */
  predicate Descend(parts: seq<Part>, rank: int) {
    parts == [] || (IsPart(parts[0]) && Rank(parts[0].unit) < rank && Descend(parts[1..], Rank(parts[0].unit)))
  }

  function PartsText(parts: seq<Part>): string {
    if parts == [] then "" else PartText(parts[0]) + PartsText(parts[1..])
  }

  lemma {:induction false} DigitsEnd(digits: string, rest: string)
    requires AreDigits(digits) && (rest == "" || !IsDigit(rest[0]))
    ensures Digits(digits + rest) == |digits|
  {
    if digits == "" {
      assert digits + rest == rest;
    } else {
      assert (digits + rest)[1..] == digits[1..] + rest;
      DigitsEnd(digits[1..], rest);
    }
  }

  lemma FirstPartIsRead(p: Part, rest: string, rank: int)
    requires IsPart(p) && Rank(p.unit) < rank
    ensures FirstPart(PartText(p) + rest, rank) == Some(p)
    ensures (PartText(p) + rest)[|p.digits| + 1..] == rest
  {
    var s, k := PartText(p) + rest, |p.digits|;
    assert s == p.digits + ([p.unit] + rest);
    DigitsEnd(p.digits, [p.unit] + rest);
    assert s[k] == p.unit && s[..k] == p.digits;
  }

  /** Parts with descending units read back as they were written. */
  lemma {:induction false} PartsReadBack(parts: seq<Part>, rank: int)
    requires Descend(parts, rank)
    ensures PartsOf(PartsText(parts), rank) == Some(parts)
  {
    if parts != [] {
      FirstPartIsRead(parts[0], PartsText(parts[1..]), rank);
      PartsReadBack(parts[1..], Rank(parts[0].unit));
      assert [parts[0]] + parts[1..] == parts;
    }
  }

  lemma PartIsWritten(s: string, rank: int)
    requires FirstPart(s, rank).Some?
    ensures
      var p := FirstPart(s, rank).value;
      IsPart(p) && s == PartText(p) + s[|p.digits| + 1..]
  {
    FirstPartIsPart(s, rank);
    var k := Digits(s);
    assert s == s[..k] + [s[k]] + s[k + 1..];
  }

  /** And whatever is read is such parts, written. */
  lemma {:induction false} PartsAreWritten(s: string, rank: int)
    requires PartsOf(s, rank).Some?
    ensures Descend(PartsOf(s, rank).value, rank) && s == PartsText(PartsOf(s, rank).value)
    decreases |s|
  {
    if s != "" {
      var p := FirstPart(s, rank).value;
      var left := s[|p.digits| + 1..];
      PartIsWritten(s, rank);
      PartsAreWritten(left, Rank(p.unit));
      var rest := PartsOf(left, Rank(p.unit)).value;
      assert ([p] + rest)[1..] == rest;
    }
  }

  /** A relative duration is amounts whose units descend, and means their total, if that is positive
      and a safe integer; nothing else is a duration. */
  lemma DurationMeansItsTotal(s: string, total: int)
    ensures RelativeMilliseconds(s) == Some(total) <==>
              0 < total <= MAX_SAFE_INTEGER &&
              exists parts :: Descend(parts, 5) && PartsText(parts) == s && Total(parts) == total
  {
    if RelativeMilliseconds(s) == Some(total) { PartsAreWritten(s, 5); }
    if exists parts :: Descend(parts, 5) && PartsText(parts) == s && Total(parts) == total {
      var parts :| Descend(parts, 5) && PartsText(parts) == s && Total(parts) == total;
      PartsReadBack(parts, 5);
    }
  }
}
