/** Instants and civil dates: the time arithmetic of section 21.4.1 of ECMA-262, on whole
    milliseconds, and the date text this project's programs write and read. */
module CivilTime {
  import opened Basics

  const MS_PER_DAY: int := 86_400_000
  const MS_PER_MINUTE: int := 60_000

  // ---------------------------------------------------------------- days and years

  predicate IsLeap(y: int) {
    y % 4 == 0 && (y % 100 != 0 || y % 400 == 0)
  }

  /** Days from 1 January 1970 to 1 January of the year. */
  function DayFromYear(y: int): int {
    365 * (y - 1970) + (y - 1969) / 4 - (y - 1901) / 100 + (y - 1601) / 400
  }

  function YearDays(y: int): int {
    if IsLeap(y) then 366 else 365
  }

  lemma Fours(y: int)
    ensures (y - 1968) / 4 == (y - 1969) / 4 + if y % 4 == 0 then 1 else 0
  {
  }

  lemma Hundreds(y: int)
    ensures (y - 1900) / 100 == (y - 1901) / 100 + if y % 100 == 0 then 1 else 0
  {
  }

  lemma FourHundreds(y: int)
    ensures (y - 1600) / 400 == (y - 1601) / 400 + if y % 400 == 0 then 1 else 0
  {
  }

  lemma Multiples(y: int)
    ensures y % 100 == 0 ==> y % 4 == 0
    ensures y % 400 == 0 ==> y % 100 == 0
  {
  }

  lemma YearSum(y: int, fours: int, hundreds: int, fourHundreds: int)
    requires fours == (y - 1969) / 4 && hundreds == (y - 1901) / 100 && fourHundreds == (y - 1601) / 400
    ensures DayFromYear(y) == 365 * (y - 1970) + fours - hundreds + fourHundreds
  {
  }

  lemma YearLength(y: int)
    ensures DayFromYear(y + 1) - DayFromYear(y) == YearDays(y)
  {
    Fours(y);
    Hundreds(y);
    FourHundreds(y);
    Multiples(y);
    YearSum(y, (y - 1969) / 4, (y - 1901) / 100, (y - 1601) / 400);
    YearSum(y + 1, (y - 1968) / 4, (y - 1900) / 100, (y - 1600) / 400);
  }

  /** A year whose first day is not after `day`, and near it. */
  function EarlyYear(day: int): (y: int)
    ensures DayFromYear(y) <= day
  {
    if 0 <= day then
      var k := day / 366;
      assert (k + 369) / 400 <= (k + 69) / 100 && (k + 1) / 4 <= k + 1;
      assert DayFromYear(1970 + k) == 365 * k + (k + 1) / 4 - (k + 69) / 100 + (k + 369) / 400;
      assert DayFromYear(1970 + k) <= 366 * k;
      1970 + k
    else
      var k := day / 365;
      assert DayFromYear(1970 + k) == 365 * k + (k + 1) / 4 - (k + 69) / 100 + (k + 369) / 400;
      1970 + k
  }

  function YearFrom(day: int, y: int): (r: int)
    requires DayFromYear(y) <= day
    ensures DayFromYear(r) <= day < DayFromYear(r + 1)
    decreases day - DayFromYear(y)
  {
    YearLength(y);
    if day < DayFromYear(y + 1) then y else YearFrom(day, y + 1)
  }

  function YearOf(day: int): (r: int)
    ensures DayFromYear(r) <= day < DayFromYear(r + 1)
  {
    YearFrom(day, EarlyYear(day))
  }

  function DayInYear(day: int): (r: int)
    ensures 0 <= r < YearDays(YearOf(day)) && DayFromYear(YearOf(day)) + r == day
  {
    YearLength(YearOf(day));
    day - DayFromYear(YearOf(day))
  }

  // ---------------------------------------------------------------- dates

  /** Days of the year before the month. */
  function MonthStart(month: int, leap: bool): int
    requires 1 <= month <= 13
  {
    var l := if leap then 1 else 0;
    if month == 1 then 0
    else if month == 2 then 31
    else if month == 3 then 59 + l
    else if month == 4 then 90 + l
    else if month == 5 then 120 + l
    else if month == 6 then 151 + l
    else if month == 7 then 181 + l
    else if month == 8 then 212 + l
    else if month == 9 then 243 + l
    else if month == 10 then 273 + l
    else if month == 11 then 304 + l
    else if month == 12 then 334 + l
    else 365 + l
  }

  function MonthFrom(dayInYear: int, leap: bool, month: int): (r: int)
    requires 1 <= month <= 12 && MonthStart(month, leap) <= dayInYear < MonthStart(13, leap)
    ensures month <= r <= 12 && MonthStart(r, leap) <= dayInYear < MonthStart(r + 1, leap)
    decreases 12 - month
  {
    if month == 12 || dayInYear < MonthStart(month + 1, leap) then month else MonthFrom(dayInYear, leap, month + 1)
  }

  datatype Date = Date(year: int, month: int, day: int)

  predicate IsDate(d: Date) {
    1 <= d.month <= 12 && 1 <= d.day <= MonthStart(d.month + 1, IsLeap(d.year)) - MonthStart(d.month, IsLeap(d.year))
  }

  /** The date of a day of the year, counted from zero. */
  function DateIn(year: int, inYear: int): (r: Date)
    requires 0 <= inYear < YearDays(year)
    ensures IsDate(r) && r.year == year && MonthStart(r.month, IsLeap(year)) + r.day - 1 == inYear
  {
    var month := MonthFrom(inYear, IsLeap(year), 1);
    Date(year, month, inYear - MonthStart(month, IsLeap(year)) + 1)
  }

  function DateOf(day: int): (r: Date)
    ensures IsDate(r)
  {
    DateIn(YearOf(day), DayInYear(day))
  }

  function DayOf(d: Date): int
    requires 1 <= d.month <= 12
  {
    DayFromYear(d.year) + (MonthStart(d.month, IsLeap(d.year)) + d.day - 1)
  }

  lemma {:induction false} YearsAscend(a: int, b: int)
    requires a < b
    ensures DayFromYear(a) + YearDays(a) <= DayFromYear(b)
    decreases b - a
  {
    if a == b - 1 {
      YearLength(a);
    } else {
      YearsAscend(a, b - 1);
      YearLength(b - 1);
    }
  }

  /** Every day has one date. */
  lemma DaysRoundTrip(day: int)
    ensures DayOf(DateOf(day)) == day
  {
  }

  lemma OneYear(day: int, y: int, inYear: int)
    requires day == DayFromYear(y) + inYear && 0 <= inYear < YearDays(y)
    ensures YearOf(day) == y && DayInYear(day) == inYear
  {
    var r, at := YearOf(day), DayInYear(day);
    if r < y { YearsAscend(r, y); }
    if y < r { YearsAscend(y, r); }
  }

  lemma OneDate(d: Date, inYear: int)
    requires IsDate(d) && inYear == MonthStart(d.month, IsLeap(d.year)) + d.day - 1
    ensures 0 <= inYear < YearDays(d.year) && DateIn(d.year, inYear) == d
  {
    var r := DateIn(d.year, inYear);
    MonthsAscend(r.month, d.month, IsLeap(d.year));
    MonthsAscend(d.month, r.month, IsLeap(d.year));
  }

  /** Every date is of one day. */
  lemma DatesRoundTrip(d: Date)
    requires IsDate(d)
    ensures DateOf(DayOf(d)) == d
  {
    var inYear := MonthStart(d.month, IsLeap(d.year)) + d.day - 1;
    OneDate(d, inYear);
    OneYear(DayOf(d), d.year, inYear);
  }

  lemma MonthsAscend(a: int, b: int, leap: bool)
    requires 1 <= a <= 12 && 1 <= b <= 12
    ensures a < b ==> MonthStart(a + 1, leap) <= MonthStart(b, leap)
  {
  }

  // ---------------------------------------------------------------- date text

  predicate IsDigit(c: char) {
    '0' <= c <= '9'
  }

  function DigitOf(c: char): int {
    c as int - '0' as int
  }

  function DigitChar(n: int): (c: char)
    requires 0 <= n <= 9
    ensures IsDigit(c) && DigitOf(c) == n
  {
    ('0' as int + n) as char
  }

  /** `padStart(2, '0')` of a number of at most two digits. */
  function Two(n: int): (r: string)
    requires 0 <= n <= 99
    ensures |r| == 2
  {
    [DigitChar(n / 10), DigitChar(n % 10)]
  }

  function Four(n: int): (r: string)
    requires 0 <= n <= 9999
    ensures |r| == 4
  {
    Two(n / 100) + Two(n % 100)
  }

  predicate AreDigits(s: string) {
    forall i | 0 <= i < |s| :: IsDigit(s[i])
  }

  function Number(s: string): int {
    if s == "" then 0 else Number(s[..|s| - 1]) * 10 + DigitOf(s[|s| - 1])
  }

  lemma TwoReads(n: int)
    requires 0 <= n <= 99
    ensures AreDigits(Two(n)) && Number(Two(n)) == n
  {
    assert Two(n)[..1] == [DigitChar(n / 10)];
    assert Two(n)[..1][..0] == "";
    assert Number(Two(n)[..1]) == n / 10;
  }

  lemma FourReads(n: int)
    requires 0 <= n <= 9999
    ensures AreDigits(Four(n)) && Number(Four(n)) == n
  {
    TwoReads(n / 100);
    TwoReads(n % 100);
    var s := Four(n);
    assert s[..3] == Two(n / 100) + [DigitChar(n % 100 / 10)];
    assert s[..3][..2] == Two(n / 100);
    assert Number(s[..3]) == n / 100 * 10 + n % 100 / 10;
  }

  /** A local time and how far it is east of UTC, in minutes. */
  datatype Clock = Clock(date: Date, hour: int, minute: int, second: int, east: int)

  predicate IsClock(c: Clock) {
    && IsDate(c.date) && 0 <= c.date.year <= 9999
    && 0 <= c.hour <= 23 && 0 <= c.minute <= 59 && 0 <= c.second <= 59
    && -1440 < c.east < 1440
  }

  function TimeOfDay(hour: int, minute: int, second: int): int {
    ((hour * 60 + minute) * 60 + second) * 1000
  }

  function InstantOf(c: Clock): int
    requires 1 <= c.date.month <= 12
  {
    DayOf(c.date) * MS_PER_DAY + TimeOfDay(c.hour, c.minute, c.second) - c.east * MS_PER_MINUTE
  }

  /** Hours, minutes and seconds of a day. */
  function HourOf(seconds: int): int { seconds / 3600 }

  function MinuteOf(seconds: int): int { seconds / 60 % 60 }

  function SecondOf(seconds: int): int { seconds % 60 }

  lemma SecondsRoundTrip(seconds: int)
    requires 0 <= seconds < 86400
    ensures 0 <= HourOf(seconds) <= 23 && 0 <= MinuteOf(seconds) <= 59 && 0 <= SecondOf(seconds) <= 59
    ensures TimeOfDay(HourOf(seconds), MinuteOf(seconds), SecondOf(seconds)) == seconds * 1000
  {
    var minutes := seconds / 60;
    assert minutes / 60 == seconds / 3600;
  }

  function ClockAt(date: Date, seconds: int, east: int): Clock {
    Clock(date, HourOf(seconds), MinuteOf(seconds), SecondOf(seconds), east)
  }

  /** The local time of an instant on a whole second. */
  function ClockOf(instant: int, east: int): Clock {
    var local := instant + east * MS_PER_MINUTE;
    ClockAt(DateOf(local / MS_PER_DAY), local % MS_PER_DAY / 1000, east)
  }

  lemma WholeSeconds(local: int)
    requires local % 1000 == 0
    ensures 0 <= local % MS_PER_DAY / 1000 < 86400
    ensures local == local / MS_PER_DAY * MS_PER_DAY + local % MS_PER_DAY / 1000 * 1000
  {
    assert local % MS_PER_DAY % 1000 == 0;
  }

  lemma MinutesAreWhole(instant: int, minutes: int)
    requires instant % 1000 == 0
    ensures (instant + minutes * MS_PER_MINUTE) % 1000 == 0
  {
    assert minutes * MS_PER_MINUTE == minutes * 60 * 1000;
  }

  lemma ClockAtInstant(date: Date, day: int, seconds: int, east: int, instant: int)
    requires IsDate(date) && DayOf(date) == day && 0 <= seconds < 86400
    requires instant + east * MS_PER_MINUTE == day * MS_PER_DAY + seconds * 1000
    ensures InstantOf(ClockAt(date, seconds, east)) == instant
    ensures var c := ClockAt(date, seconds, east); 0 <= c.hour <= 23 && 0 <= c.minute <= 59 && 0 <= c.second <= 59
  {
    SecondsRoundTrip(seconds);
  }

  lemma LocalParts(instant: int, east: int, day: int, seconds: int)
    requires instant % 1000 == 0
    requires day == (instant + east * MS_PER_MINUTE) / MS_PER_DAY
    requires seconds == (instant + east * MS_PER_MINUTE) % MS_PER_DAY / 1000
    ensures 0 <= seconds < 86400 && instant + east * MS_PER_MINUTE == day * MS_PER_DAY + seconds * 1000
  {
    MinutesAreWhole(instant, east);
    WholeSeconds(instant + east * MS_PER_MINUTE);
  }

  lemma ClockOfParts(instant: int, east: int, day: int, seconds: int)
    requires day == (instant + east * MS_PER_MINUTE) / MS_PER_DAY
    requires seconds == (instant + east * MS_PER_MINUTE) % MS_PER_DAY / 1000
    ensures ClockOf(instant, east) == ClockAt(DateOf(day), seconds, east)
  {
  }

  lemma ClocksRoundTrip(instant: int, east: int)
    requires instant % 1000 == 0
    ensures InstantOf(ClockOf(instant, east)) == instant
    ensures 0 <= ClockOf(instant, east).hour <= 23
    ensures 0 <= ClockOf(instant, east).minute <= 59 && 0 <= ClockOf(instant, east).second <= 59
  {
    var local := instant + east * MS_PER_MINUTE;
    var day, seconds := local / MS_PER_DAY, local % MS_PER_DAY / 1000;
    LocalParts(instant, east, day, seconds);
    ClockOfParts(instant, east, day, seconds);
    DaysRoundTrip(day);
    ClockAtInstant(DateOf(day), day, seconds, east, instant);
  }

  function Layout(y: string, mo: string, d: string, h: string, mi: string, s: string, sign: char, eh: string, em: string): (r: string)
    requires |y| == 4 && |mo| == 2 && |d| == 2 && |h| == 2 && |mi| == 2 && |s| == 2 && |eh| == 2 && |em| == 2
    ensures |r| == 25
    ensures r[4] == '-' && r[7] == '-' && r[10] == 'T' && r[13] == ':' && r[16] == ':' && r[19] == sign && r[22] == ':'
    ensures r[..4] == y && r[5..7] == mo && r[8..10] == d && r[11..13] == h && r[14..16] == mi && r[17..19] == s
    ensures r[20..22] == eh && r[23..25] == em
  {
    var date := y + ['-', mo[0], mo[1], '-', d[0], d[1], 'T'];
    var time := date + [h[0], h[1], ':', mi[0], mi[1], ':', s[0], s[1]];
    time + [sign, eh[0], eh[1], ':', em[0], em[1]]
  }

  /** `YYYY-MM-DDTHH:mm:ss±HH:mm`. */
  function ClockText(c: Clock): string
    requires IsClock(c)
  {
    var east := if c.east < 0 then -c.east else c.east;
    Layout(
      Four(c.date.year), Two(c.date.month), Two(c.date.day), Two(c.hour), Two(c.minute), Two(c.second),
      if c.east < 0 then '-' else '+', Two(east / 60), Two(east % 60))
  }

  predicate HasShape(s: string) {
    && |s| == 25
    && s[4] == '-' && s[7] == '-' && s[10] == 'T' && s[13] == ':' && s[16] == ':' && s[22] == ':'
    && (s[19] == '+' || s[19] == '-')
    && AreDigits(s[..4]) && AreDigits(s[5..7]) && AreDigits(s[8..10])
    && AreDigits(s[11..13]) && AreDigits(s[14..16]) && AreDigits(s[17..19])
    && AreDigits(s[20..22]) && AreDigits(s[23..25])
  }

  function EastIn(s: string): int
    requires |s| == 25
  {
    var east := Number(s[20..22]) * 60 + Number(s[23..25]);
    if s[19] == '-' then -east else east
  }

  function ClockIn(s: string): Clock
    requires |s| == 25
  {
    Clock(
      Date(Number(s[..4]), Number(s[5..7]), Number(s[8..10])),
      Number(s[11..13]), Number(s[14..16]), Number(s[17..19]), EastIn(s))
  }

  /** `Date.parse` on this form, when it is a date and a time; none otherwise. */
  function ReadInstant(s: string): Option<int> {
    if HasShape(s) && IsClock(ClockIn(s)) && Number(s[20..22]) <= 23 && Number(s[23..25]) <= 59
    then Some(InstantOf(ClockIn(s))) else None
  }

  lemma EastReads(east: int, s: string)
    requires -1440 < east < 1440 && |s| == 25
    requires
      var size := if east < 0 then -east else east;
      s[19] == (if east < 0 then '-' else '+') && s[20..22] == Two(size / 60) && s[23..25] == Two(size % 60)
    ensures AreDigits(s[20..22]) && AreDigits(s[23..25]) && EastIn(s) == east
    ensures Number(s[20..22]) <= 23 && Number(s[23..25]) <= 59
  {
    var size := if east < 0 then -east else east;
    TwoReads(size / 60);
    TwoReads(size % 60);
  }

  lemma PartsRead(c: Clock, s: string)
    requires IsClock(c) && s == ClockText(c)
    ensures Number(s[..4]) == c.date.year && Number(s[5..7]) == c.date.month && Number(s[8..10]) == c.date.day
    ensures Number(s[11..13]) == c.hour && Number(s[14..16]) == c.minute && Number(s[17..19]) == c.second
    ensures AreDigits(s[..4]) && AreDigits(s[5..7]) && AreDigits(s[8..10])
    ensures AreDigits(s[11..13]) && AreDigits(s[14..16]) && AreDigits(s[17..19])
  {
    FourReads(c.date.year);
    TwoReads(c.date.month);
    TwoReads(c.date.day);
    TwoReads(c.hour);
    TwoReads(c.minute);
    TwoReads(c.second);
  }

  lemma ReadsClock(c: Clock, s: string)
    requires IsClock(c) && HasShape(s) && ClockIn(s) == c && Number(s[20..22]) <= 23 && Number(s[23..25]) <= 59
    ensures ReadInstant(s) == Some(InstantOf(c))
  {
  }

  /** What is written is read back. */
  lemma ClockTextReads(c: Clock)
    requires IsClock(c)
    ensures HasShape(ClockText(c)) && ReadInstant(ClockText(c)) == Some(InstantOf(c))
  {
    var s := ClockText(c);
    PartsRead(c, s);
    EastReads(c.east, s);
    assert ClockIn(s) == c;
    ReadsClock(c, s);
  }
}
