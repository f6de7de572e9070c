/**
 * `format_timestamp` (app.py:74-76): a Unix timestamp rendered as the civil
 * date and time `YYYY-MM-DD HH:MM:SS` in the fixed zone UTC+8 (TIME_ZONE,
 * app.py:56). The civil calendar is the proleptic Gregorian one that Python's
 * `datetime` uses; everything is integer arithmetic on seconds and days.
 */
module Timestamp {
  import opened Wrappers

  /** The offset of TIME_ZONE: eight hours east of UTC, in seconds. */
  const Offset: int := 8 * 3600
  const SecondsPerDay: int := 86400
  /** Day 0 of Unix time is 1 January of this year. */
  const Epoch: int := 1970
  /** `datetime` has no year from this one on. */
  const YearLimit: int := 10000

  datatype Date = Date(year: int, month: int, day: int)

  /** A wall-clock reading in UTC+8. */
  datatype LocalTime = LocalTime(date: Date, hour: int, minute: int, second: int)

  predicate IsLeapYear(y: int) {
    y % 4 == 0 && (y % 100 != 0 || y % 400 == 0)
  }

  function DaysInYear(y: int): int {
    if IsLeapYear(y) then 366 else 365
  }

  function DaysInMonth(y: int, m: int): int
    requires 1 <= m <= 12
  {
    if m == 2 then (if IsLeapYear(y) then 29 else 28)
    else if m == 4 || m == 6 || m == 9 || m == 11 then 30
    else 31
  }

  /** Number of leap years among 1 .. n, for n >= 0. */
  function LeapsThrough(n: int): int {
    n / 4 - n / 100 + n / 400
  }

  /** Days from 1970-01-01 to 1 January of year `y`. */
  function DaysBeforeYear(y: int): int {
    365 * (y - Epoch) + LeapsThrough(y - 1) - LeapsThrough(Epoch - 1)
  }

  /** Days from 1 January of year `y` to the first day of month `m`; month 13 stands for the next year. */
  function DaysBeforeMonth(y: int, m: int): int
    requires 1 <= m <= 13
  {
    [0, 31, 59, 90, 120, 151, 181, 212, 243, 273, 304, 334, 365][m - 1]
      + (if m > 2 && IsLeapYear(y) then 1 else 0)
  }

  predicate ValidDate(d: Date) {
    Epoch <= d.year && 1 <= d.month <= 12 && 1 <= d.day <= DaysInMonth(d.year, d.month)
  }

  /** Days from 1970-01-01 to the date `d`. */
  function DaysFromCivil(d: Date): int
    requires 1 <= d.month <= 12
  {
    DaysBeforeYear(d.year) + DaysBeforeMonth(d.year, d.month) + d.day - 1
  }

  /** Among 1 .. y there is one multiple of k more than among 1 .. y - 1 exactly when k divides y. */
  lemma MultiplesStep(y: int, k: int)
    requires k == 4 || k == 100 || k == 400
    ensures y / k - (y - 1) / k == (if y % k == 0 then 1 else 0)
  {
    var q, r := (y - 1) / k, (y - 1) % k;
    assert y - 1 == k * q + r && 0 <= r < k;
    if r == k - 1 {
      assert y == k * (q + 1) + 0;
    } else {
      assert y == k * q + (r + 1) && 0 <= r + 1 < k;
    }
  }

  /** Multiples of 400 are multiples of 100, and those are multiples of 4. */
  lemma DivisorsChain(y: int)
    ensures y % 400 == 0 ==> y % 100 == 0
    ensures y % 100 == 0 ==> y % 4 == 0
  {
    if y % 400 == 0 {
      assert y == 100 * (4 * (y / 400));
    }
    if y % 100 == 0 {
      assert y == 4 * (25 * (y / 100));
    }
  }

  /** The Gregorian count of leap years grows by one exactly at a leap year. */
  lemma LeapsStep(y: int)
    ensures LeapsThrough(y) - LeapsThrough(y - 1) == (if IsLeapYear(y) then 1 else 0)
  {
    MultiplesStep(y, 4);
    MultiplesStep(y, 100);
    MultiplesStep(y, 400);
    DivisorsChain(y);
  }

  lemma YearStep(y: int)
    ensures DaysBeforeYear(y + 1) == DaysBeforeYear(y) + DaysInYear(y)
  {
    LeapsStep(y);
    assert DaysBeforeYear(y + 1) - DaysBeforeYear(y) == 365 + LeapsThrough(y) - LeapsThrough(y - 1);
  }

  lemma MonthStep(y: int, m: int)
    requires 1 <= m <= 12
    ensures DaysBeforeMonth(y, m + 1) == DaysBeforeMonth(y, m) + DaysInMonth(y, m)
    ensures DaysBeforeMonth(y, 13) == DaysInYear(y)
  {
  }

  lemma MonthMonotone(y: int, a: int, b: int)
    requires 1 <= a <= b <= 13
    ensures DaysBeforeMonth(y, a) + 28 * (b - a) <= DaysBeforeMonth(y, b)
  {
  }

  /** Every year has at least 365 days, so later years start strictly later. */
  lemma {:induction false} YearMonotone(a: int, b: int)
    requires a <= b
    ensures DaysBeforeYear(a) + 365 * (b - a) <= DaysBeforeYear(b)
    decreases b - a
  {
    if a < b {
      YearMonotone(a, b - 1);
      YearStep(b - 1);
    }
  }

  /** The year, at or after `y`, that day `n` falls in. */
  function YearFrom(n: int, y: int): (r: int)
    requires DaysBeforeYear(y) <= n
    ensures y <= r && DaysBeforeYear(r) <= n < DaysBeforeYear(r + 1)
    decreases n - DaysBeforeYear(y)
  {
    YearStep(y);
    if n < DaysBeforeYear(y + 1) then y else YearFrom(n, y + 1)
  }

  /** The month, at or after `m`, that day-of-year `doy` falls in. */
  function MonthFrom(y: int, doy: int, m: int): (r: int)
    requires 1 <= m <= 12 && DaysBeforeMonth(y, m) <= doy < DaysInYear(y)
    ensures m <= r <= 12 && DaysBeforeMonth(y, r) <= doy < DaysBeforeMonth(y, r + 1)
    decreases 12 - m
  {
    MonthStep(y, m);
    if doy < DaysBeforeMonth(y, m + 1) then m else MonthFrom(y, doy, m + 1)
  }

  /** The civil date of day `n` of Unix time: a valid date that lies exactly `n` days after 1970-01-01. */
  function CivilFromDays(n: int): (d: Date)
    requires 0 <= n
    ensures ValidDate(d) && DaysFromCivil(d) == n
  {
    var y := YearFrom(n, Epoch);
    YearStep(y);
    var doy := n - DaysBeforeYear(y);
    var m := MonthFrom(y, doy, 1);
    MonthStep(y, m);
    Date(y, m, doy - DaysBeforeMonth(y, m) + 1)
  }

  /** A valid date lies within its own year, and no other. */
  lemma DateWithinYear(d: Date)
    requires ValidDate(d)
    ensures DaysBeforeYear(d.year) <= DaysFromCivil(d) < DaysBeforeYear(d.year + 1)
  {
    MonthStep(d.year, d.month);
    MonthMonotone(d.year, d.month + 1, 13);
    YearStep(d.year);
  }

  lemma YearUnique(n: int, a: int, b: int)
    requires DaysBeforeYear(a) <= n < DaysBeforeYear(a + 1)
    requires DaysBeforeYear(b) <= n < DaysBeforeYear(b + 1)
    ensures a == b
  {
    if a < b {
      YearMonotone(a + 1, b);
    } else if b < a {
      YearMonotone(b + 1, a);
    }
  }

  /** Day numbers and valid dates correspond one to one: CivilFromDays undoes DaysFromCivil. */
  lemma {:induction false} CivilFromDaysInverse(d: Date)
    requires ValidDate(d)
    ensures DaysFromCivil(d) >= 0
    ensures CivilFromDays(DaysFromCivil(d)) == d
  {
    var n := DaysFromCivil(d);
    DateWithinYear(d);
    YearMonotone(Epoch, d.year);
    var e := CivilFromDays(n);
    DateWithinYear(e);
    YearUnique(n, d.year, e.year);
    MonthStep(d.year, d.month);
    MonthStep(d.year, e.month);
    if d.month < e.month {
      MonthMonotone(d.year, d.month + 1, e.month);
    } else if e.month < d.month {
      MonthMonotone(d.year, e.month + 1, d.month);
    }
  }

  predicate ValidLocalTime(t: LocalTime) {
    ValidDate(t.date) && t.date.year < YearLimit
    && 0 <= t.hour < 24 && 0 <= t.minute < 60 && 0 <= t.second < 60
  }

  /** Seconds from 1970-01-01 00:00:00 to the wall-clock reading `t`. */
  function SecondsOf(t: LocalTime): int
    requires 1 <= t.date.month <= 12
  {
    DaysFromCivil(t.date) * SecondsPerDay + t.hour * 3600 + t.minute * 60 + t.second
  }

  /** The timestamps `datetime` can place in TIME_ZONE and that are modelled: from 1970 to the end of year 9999, local time. */
  predicate Renderable(ts: int) {
    0 <= ts + Offset < DaysBeforeYear(YearLimit) * SecondsPerDay
  }

  /** The UTC+8 wall-clock reading of the instant `ts`, as `datetime` computes it. */
  function LocalTimeOf(ts: int): (t: LocalTime)
    requires Renderable(ts)
    ensures ValidLocalTime(t) && SecondsOf(t) == ts + Offset
  {
    var local := ts + Offset;
    var date := CivilFromDays(local / SecondsPerDay);
    var sod := local % SecondsPerDay;
    var rest := sod % 3600;
    YearBelowLimit(date);
    LocalTime(date, sod / 3600, rest / 60, rest % 60)
  }

  /** A date before the first day of YearLimit has a four-digit year. */
  lemma YearBelowLimit(d: Date)
    requires ValidDate(d) && DaysFromCivil(d) < DaysBeforeYear(YearLimit)
    ensures d.year < YearLimit
  {
    DateWithinYear(d);
    if d.year >= YearLimit {
      YearMonotone(YearLimit, d.year);
    }
  }

  /** A valid wall-clock reading is the reading of exactly one timestamp. */
  lemma LocalTimeOfInverse(t: LocalTime)
    requires ValidLocalTime(t)
    ensures Renderable(SecondsOf(t) - Offset)
    ensures LocalTimeOf(SecondsOf(t) - Offset) == t
  {
    var n := DaysFromCivil(t.date);
    CivilFromDaysInverse(t.date);
    DateWithinYear(t.date);
    YearMonotone(t.date.year + 1, YearLimit);
    var local := SecondsOf(t);
    var sod := t.hour * 3600 + t.minute * 60 + t.second;
    assert local == n * SecondsPerDay + sod;
    assert local / SecondsPerDay == n;
    assert local % SecondsPerDay == sod;
  }

  predicate IsDigit(c: char) {
    '0' <= c <= '9'
  }

  function Digit(v: int): (c: char)
    requires 0 <= v < 10
    ensures IsDigit(c) && c as int - '0' as int == v
  {
    ('0' as int + v) as char
  }

  function Pow10(w: nat): nat {
    if w == 0 then 1 else 10 * Pow10(w - 1)
  }

  /** The decimal value of a string of digits. */
  function DigitsValue(s: string): int
    requires forall i :: 0 <= i < |s| ==> IsDigit(s[i])
  {
    if s == [] then 0 else 10 * DigitsValue(s[..|s| - 1]) + (s[|s| - 1] as int - '0' as int)
  }

  /** `v` in exactly `width` decimal digits, zero-padded on the left, as `%Y`, `%m`, `%d`, `%H`, `%M` and `%S` write it. */
  function Padded(v: int, width: nat): (s: string)
    requires 0 <= v < Pow10(width)
    ensures |s| == width && forall i :: 0 <= i < width ==> IsDigit(s[i])
    ensures DigitsValue(s) == v
  {
    if width == 0 then "" else
      var s := Padded(v / 10, width - 1) + [Digit(v % 10)];
      assert s[..width - 1] == Padded(v / 10, width - 1);
      s
  }

  /** Every string of digits is the padded rendering of its value. */
  lemma {:induction false} PaddedOfDigits(s: string)
    requires forall i :: 0 <= i < |s| ==> IsDigit(s[i])
    ensures 0 <= DigitsValue(s) < Pow10(|s|)
    ensures Padded(DigitsValue(s), |s|) == s
  {
    if s != [] {
      var init := s[..|s| - 1];
      PaddedOfDigits(init);
      var v := DigitsValue(s);
      var d := s[|s| - 1] as int - '0' as int;
      assert v / 10 == DigitsValue(init) && v % 10 == d;
      assert s == init + [s[|s| - 1]];
    }
  }

  /** The shape `DDDD-DD-DD DD:DD:DD`. */
  predicate WellShaped(s: string) {
    |s| == 19
    && s[4] == '-' && s[7] == '-' && s[10] == ' ' && s[13] == ':' && s[16] == ':'
    && forall i :: 0 <= i < 19 && i !in {4, 7, 10, 13, 16} ==> IsDigit(s[i])
  }

  /** A reading with a four-digit year, written as year-month-day hour:minute:second, every field zero-padded. */
  function Render(t: LocalTime): (s: string)
    requires ValidLocalTime(t)
    ensures WellShaped(s)
  {
    Padded(t.date.year, 4) + "-" + Padded(t.date.month, 2) + "-" + Padded(t.date.day, 2) + " "
      + Padded(t.hour, 2) + ":" + Padded(t.minute, 2) + ":" + Padded(t.second, 2)
  }

  /** app.py:74-76. */
  function FormatTimestamp(ts: int): (s: string)
    requires Renderable(ts)
    ensures WellShaped(s)
  {
    Render(LocalTimeOf(ts))
  }

  /** Reads a rendered timestamp back: the partner of FormatTimestamp. */
  function ParseTimestamp(s: string): Option<int> {
    if WellShaped(s) && ValidLocalTime(ReadFields(s)) then Some(SecondsOf(ReadFields(s)) - Offset) else None
  }

  /** The six digit fields of a well-shaped string, as a wall-clock reading. */
  function ReadFields(s: string): LocalTime
    requires WellShaped(s)
  {
    LocalTime(Date(DigitsValue(s[0..4]), DigitsValue(s[5..7]), DigitsValue(s[8..10])),
              DigitsValue(s[11..13]), DigitsValue(s[14..16]), DigitsValue(s[17..19]))
  }

  lemma RenderFields(t: LocalTime)
    requires ValidLocalTime(t)
    ensures var s := Render(t);
      s[0..4] == Padded(t.date.year, 4) && s[5..7] == Padded(t.date.month, 2)
      && s[8..10] == Padded(t.date.day, 2) && s[11..13] == Padded(t.hour, 2)
      && s[14..16] == Padded(t.minute, 2) && s[17..19] == Padded(t.second, 2)
  {
  }

  /** Rendering loses nothing: the string reads back as the very timestamp it came from. */
  lemma ParseFormat(ts: int)
    requires Renderable(ts)
    ensures ParseTimestamp(FormatTimestamp(ts)) == Some(ts)
  {
    RenderFields(LocalTimeOf(ts));
  }

  /** A well-shaped string is its six digit fields joined by the five separators. */
  lemma ShapeSplit(s: string)
    requires WellShaped(s)
    ensures s == s[0..4] + "-" + s[5..7] + "-" + s[8..10] + " " + s[11..13] + ":" + s[14..16] + ":" + s[17..19]
  {
  }

  /** A well-shaped string holding a valid reading is the rendering of that reading. */
  lemma RenderReadFields(s: string)
    requires WellShaped(s) && ValidLocalTime(ReadFields(s))
    ensures Render(ReadFields(s)) == s
  {
    PaddedOfDigits(s[0..4]);
    PaddedOfDigits(s[5..7]);
    PaddedOfDigits(s[8..10]);
    PaddedOfDigits(s[11..13]);
    PaddedOfDigits(s[14..16]);
    PaddedOfDigits(s[17..19]);
    ShapeSplit(s);
  }

  /** Every well-formed reading of a valid time is the rendering of the timestamp it reads as. */
  lemma FormatParse(s: string, ts: int)
    requires ParseTimestamp(s) == Some(ts)
    ensures Renderable(ts) && FormatTimestamp(ts) == s
  {
    var t := ReadFields(s);
    assert ValidLocalTime(t) && ts == SecondsOf(t) - Offset;
    FormatOfReading(t);
    RenderReadFields(s);
  }

  lemma FormatOfReading(t: LocalTime)
    requires ValidLocalTime(t)
    ensures Renderable(SecondsOf(t) - Offset) && FormatTimestamp(SecondsOf(t) - Offset) == Render(t)
  {
    LocalTimeOfInverse(t);
  }

  /** The timestamp of the sample Harbor event, 2019-11-08 09:35:35 UTC, reads 17:35:35 in UTC+8. */
  lemma SampleEvent()
    ensures Renderable(1573205735)
    ensures FormatTimestamp(1573205735) == "2019-11-08 17:35:35"
  {
    var t := LocalTime(Date(2019, 11, 8), 17, 35, 35);
    assert DaysFromCivil(t.date) == 18208;
    LocalTimeOfInverse(t);
  }
}
