/**
 * Calendar dates of the proleptic Gregorian calendar, their `YYYY-MM-DD`
 * text (the full-date of section 5.6 of RFC 3339) and the JavaScript `Date`
 * values built from them.
 */
module Calendar {
  import opened Wrappers
  import opened JsText

  datatype Ymd = Ymd(year: int, month: int, day: int)

  predicate IsLeapYear(y: int) {
    y % 4 == 0 && (y % 100 != 0 || y % 400 == 0)
  }

  function DaysInMonth(y: int, m: int): (n: int)
    requires 1 <= m <= 12
    ensures 28 <= n <= 31
  {
    if m == 2 then (if IsLeapYear(y) then 29 else 28)
    else if m == 4 || m == 6 || m == 9 || m == 11 then 30
    else 31
  }

  predicate ValidDate(d: Ymd) {
    1 <= d.month <= 12 && 1 <= d.day <= DaysInMonth(d.year, d.month)
  }

  /** A day of the calendar; the month runs 1..12 and the day 1..length of the month. */
  type CivilDate = d: Ymd | ValidDate(d) witness Ymd(1970, 1, 1)

  function YearLength(y: int): int {
    if IsLeapYear(y) then 366 else 365
  }

  /** The number of leap years in [0, y), counted negatively for y < 0. */
  function LeapYearsBefore(y: int): int {
    (y + 3) / 4 - (y + 99) / 100 + (y + 399) / 400
  }

  /** `(y + k - 1) / k` counts the multiples of `k` in [0, y); each step past a multiple adds one. */
  lemma MultiplesOf4Step(y: int)
    ensures (y + 4) / 4 - (y + 3) / 4 == if y % 4 == 0 then 1 else 0
  {
  }

  lemma MultiplesOf100Step(y: int)
    ensures (y + 100) / 100 - (y + 99) / 100 == if y % 100 == 0 then 1 else 0
  {
  }

  lemma MultiplesOf400Step(y: int)
    ensures (y + 400) / 400 - (y + 399) / 400 == if y % 400 == 0 then 1 else 0
  {
  }

  lemma CenturyIsLeapCandidate(y: int)
    requires y % 100 == 0
    ensures y % 4 == 0
  {
    assert y == 4 * (25 * (y / 100));
  }

  lemma QuadCenturyIsCentury(y: int)
    requires y % 400 == 0
    ensures y % 100 == 0
  {
    assert y == 100 * (4 * (y / 400));
  }

  lemma LeapYearsStep(y: int)
    ensures LeapYearsBefore(y + 1) == LeapYearsBefore(y) + (if IsLeapYear(y) then 1 else 0)
  {
    assert LeapYearsBefore(y + 1) == (y + 4) / 4 - (y + 100) / 100 + (y + 400) / 400;
    MultiplesOf4Step(y);
    MultiplesOf100Step(y);
    MultiplesOf400Step(y);
    if y % 100 == 0 { CenturyIsLeapCandidate(y); }
    if y % 400 == 0 { QuadCenturyIsCentury(y); }
  }

  /** Days from 0000-01-01 to the first day of year `y`. */
  function DaysBeforeYear(y: int): int {
    365 * y + LeapYearsBefore(y)
  }

  lemma DaysBeforeYearStep(y: int)
    ensures DaysBeforeYear(y + 1) == DaysBeforeYear(y) + YearLength(y)
  {
    LeapYearsStep(y);
  }

  lemma {:induction false} DaysBeforeYearMonotone(a: int, b: int)
    requires a < b
    ensures DaysBeforeYear(a) + YearLength(a) <= DaysBeforeYear(b)
    decreases b - a
  {
    DaysBeforeYearStep(a);
    if a + 1 < b {
      DaysBeforeYearMonotone(a + 1, b);
    }
  }

  /** Days from the first of January of year `y` to the first day of month `m`. */
  function DaysBeforeMonth(y: int, m: int): int
    requires 1 <= m <= 12
  {
    [0, 31, 59, 90, 120, 151, 181, 212, 243, 273, 304, 334][m - 1]
      + (if m > 2 && IsLeapYear(y) then 1 else 0)
  }

  /** Days from 0000-01-01 to `d`: consecutive days have consecutive numbers. */
  function DayNumber(d: CivilDate): int {
    DaysBeforeYear(d.year) + DaysBeforeMonth(d.year, d.month) + d.day - 1
  }

  /** A day's place in its year lies within the year. */
  lemma DayWithinYear(d: CivilDate)
    ensures 0 <= DaysBeforeMonth(d.year, d.month) + d.day - 1 < YearLength(d.year)
  {
  }

  lemma MonthsOrdered(y: int, m1: int, m2: int)
    requires 1 <= m1 < m2 <= 12
    ensures DaysBeforeMonth(y, m1) + DaysInMonth(y, m1) <= DaysBeforeMonth(y, m2)
  {
  }

  /** Calendar order: earlier year, or same year and earlier month, or same month and earlier day. */
  predicate Before(a: CivilDate, b: CivilDate) {
    || a.year < b.year
    || (a.year == b.year && a.month < b.month)
    || (a.year == b.year && a.month == b.month && a.day < b.day)
  }

  /** Day numbers follow calendar order, in both directions. */
  lemma DayNumberOrder(a: CivilDate, b: CivilDate)
    ensures DayNumber(a) < DayNumber(b) <==> Before(a, b)
  {
    DayWithinYear(a);
    DayWithinYear(b);
    if a.year < b.year {
      DaysBeforeYearMonotone(a.year, b.year);
    } else if b.year < a.year {
      DaysBeforeYearMonotone(b.year, a.year);
    } else if a.month < b.month {
      MonthsOrdered(a.year, a.month, b.month);
    } else if b.month < a.month {
      MonthsOrdered(a.year, b.month, a.month);
    }
  }

  /** Different days have different numbers. */
  lemma DayNumberInjective(a: CivilDate, b: CivilDate)
    ensures DayNumber(a) == DayNumber(b) <==> a == b
  {
    DayNumberOrder(a, b);
    DayNumberOrder(b, a);
  }

  /** The calendar day after `d`, across month, year and leap-day boundaries. */
  function NextDay(d: CivilDate): CivilDate {
    if d.day < DaysInMonth(d.year, d.month) then Ymd(d.year, d.month, d.day + 1)
    else if d.month < 12 then Ymd(d.year, d.month + 1, 1)
    else Ymd(d.year + 1, 1, 1)
  }

  lemma NextDayNumber(d: CivilDate)
    ensures DayNumber(NextDay(d)) == DayNumber(d) + 1
  {
    if d.day == DaysInMonth(d.year, d.month) && d.month == 12 {
      DaysBeforeYearStep(d.year);
    }
  }

  // ---------------------------------------------------------------------------
  // The `YYYY-MM-DD` text
  // ---------------------------------------------------------------------------

  predicate HasFourDigitYear(d: CivilDate) {
    0 <= d.year <= 9999
  }

  /** The full-date text of `d`: four-digit year, two-digit month and day, dash separated. */
  function FullDate(d: CivilDate): (s: string)
    requires HasFourDigitYear(d)
    ensures |s| == 10
  {
    FixedDigits(d.year, 4) + "-" + FixedDigits(d.month, 2) + "-" + FixedDigits(d.day, 2)
  }

  /** Reads a full-date: `None` for any text that is not one, or that names no calendar day. */
  function ParseFullDate(s: string): (r: Option<CivilDate>)
    ensures r.Some? ==> HasFourDigitYear(r.value)
  {
    if |s| == 10 && s[4] == '-' && s[7] == '-'
       && AllDigits(s[..4]) && AllDigits(s[5..7]) && AllDigits(s[8..])
    then
      var y, m, d := DecimalValue(s[..4]), DecimalValue(s[5..7]), DecimalValue(s[8..]);
      assert Pow10(4) == 10000;
      if 1 <= m <= 12 && 1 <= d <= DaysInMonth(y, m) then Some(Ymd(y, m, d)) else None
    else None
  }

  lemma FullDateParts(d: CivilDate)
    requires HasFourDigitYear(d)
    ensures var s := FullDate(d);
      && s[..4] == FixedDigits(d.year, 4) && s[4] == '-'
      && s[5..7] == FixedDigits(d.month, 2) && s[7] == '-'
      && s[8..] == FixedDigits(d.day, 2)
  {
  }

  /** Parsing the text of a date gives the date back. */
  lemma ParseFullDateOfFullDate(d: CivilDate)
    requires HasFourDigitYear(d)
    ensures ParseFullDate(FullDate(d)) == Some(d)
  {
    FullDateParts(d);
    assert Pow10(4) == 10000 && Pow10(2) == 100;
    FixedDigitsValue(d.year, 4);
    FixedDigitsValue(d.month, 2);
    FixedDigitsValue(d.day, 2);
  }

  /** Whatever text parses is the canonical text of the date it names. */
  lemma FullDateOfParseFullDate(s: string)
    requires ParseFullDate(s).Some?
    ensures FullDate(ParseFullDate(s).value) == s
  {
    var d := ParseFullDate(s).value;
    FixedDigitsOfValue(s[..4]);
    FixedDigitsOfValue(s[5..7]);
    FixedDigitsOfValue(s[8..]);
    FullDateParts(d);
    var t := FullDate(d);
    assert t == t[..4] + [t[4]] + t[5..7] + [t[7]] + t[8..];
    assert s == s[..4] + [s[4]] + s[5..7] + [s[7]] + s[8..];
  }

  /**
   * Three dash-separated fields of equal widths compare field by field: the
   * first decides, then the second, then the third.
   */
  lemma DashedFieldsOrder(ya: string, ma: string, da: string, yb: string, mb: string, db: string)
    requires |ya| == |yb| && |ma| == |mb|
    ensures LexLess(ya + "-" + ma + "-" + da, yb + "-" + mb + "-" + db) <==>
      || LexLess(ya, yb)
      || (ya == yb && LexLess(ma, mb))
      || (ya == yb && ma == mb && LexLess(da, db))
  {
    assert ya + "-" + ma + "-" + da == ya + ("-" + (ma + ("-" + da)));
    assert yb + "-" + mb + "-" + db == yb + ("-" + (mb + ("-" + db)));
    LexLessAppend(ya, "-" + (ma + ("-" + da)), yb, "-" + (mb + ("-" + db)));
    LexLessAppend("-", ma + ("-" + da), "-", mb + ("-" + db));
    LexLessAppend(ma, "-" + da, mb, "-" + db);
    LexLessAppend("-", da, "-", db);
    LexLessIrreflexive("-");
  }

  /** Comparing full-date texts as strings compares the days they name. */
  lemma FullDateOrder(a: CivilDate, b: CivilDate)
    requires HasFourDigitYear(a) && HasFourDigitYear(b)
    ensures LexLess(FullDate(a), FullDate(b)) <==> DayNumber(a) < DayNumber(b)
  {
    assert Pow10(4) == 10000 && Pow10(2) == 100;
    FixedDigitsOrder(a.year, b.year, 4);
    FixedDigitsOrder(a.month, b.month, 2);
    FixedDigitsOrder(a.day, b.day, 2);
    DashedFieldsOrder(FixedDigits(a.year, 4), FixedDigits(a.month, 2), FixedDigits(a.day, 2),
                      FixedDigits(b.year, 4), FixedDigits(b.month, 2), FixedDigits(b.day, 2));
    DayNumberOrder(a, b);
  }

  // ---------------------------------------------------------------------------
  // JavaScript `Date` values
  // ---------------------------------------------------------------------------

  /** Milliseconds in a day, `1000 * 60 * 60 * 24`. */
  const MsPerDay: int := 86400000

  /** 1970-01-01, day 0 of JavaScript time values. */
  const Epoch: CivilDate := Ymd(1970, 1, 1)

  /** The day number of the epoch, as `EpochDayNumber` shows. */
  const EpochDay: int := 719528

  lemma EpochDayNumber()
    ensures DayNumber(Epoch) == EpochDay
  {
    assert LeapYearsBefore(1970) == 478;
  }

  /** The time value of `new Date("YYYY-MM-DD")`: UTC midnight of that day, in ms since the epoch. */
  function MidnightTimeValue(d: CivilDate): int {
    (DayNumber(d) - EpochDay) * MsPerDay
  }

  /**
   * A JavaScript `Date`: its time value, and the UTC calendar day and the
   * milliseconds elapsed in it that the `getUTC*` accessors and
   * `toISOString` read off it.
   */
  datatype Instant = Instant(time: int, utcDate: CivilDate, msOfDay: int)

  /** The three agree: every `Date` a date picker hands over is one of these. */
  predicate ValidInstant(i: Instant) {
    0 <= i.msOfDay < MsPerDay && i.time == MidnightTimeValue(i.utcDate) + i.msOfDay
  }

  /** `date.getTime()`. */
  function TimeValue(i: Instant): int {
    i.time
  }

  /** The year as `toISOString` writes it: four digits, or a sign and six digits outside 0..9999. */
  function IsoYear(y: int): string {
    if 0 <= y <= 9999 then FixedDigits(y, 4)
    else (if y < 0 then "-" else "+") + FixedDigits(if y < 0 then -y else y, 6)
  }

  /** `date.toISOString().split('T')[0]`: the UTC calendar day of the instant. */
  function IsoDatePart(i: Instant): string {
    IsoYear(i.utcDate.year) + "-" + FixedDigits(i.utcDate.month, 2) + "-" + FixedDigits(i.utcDate.day, 2)
  }

  /**
   * A year from 0 to 9999 is written as its four digits, any other one with
   * a sign and six digits, so the text always reads back as the year.
   */
  lemma IsoYearValue(y: int)
    requires -999999 <= y <= 999999
    ensures 0 <= y <= 9999 ==> IsoYear(y) == FixedDigits(y, 4)
    ensures y < 0 ==> IsoYear(y) == "-" + FixedDigits(-y, 6) && DecimalValue(IsoYear(y)[1..]) == -y
    ensures y > 9999 ==> IsoYear(y) == "+" + FixedDigits(y, 6) && DecimalValue(IsoYear(y)[1..]) == y
  {
    assert Pow10(6) == 1000000;
    if y < 0 {
      FixedDigitsValue(-y, 6);
      assert IsoYear(y)[1..] == FixedDigits(-y, 6);
    } else if y > 9999 {
      FixedDigitsValue(y, 6);
      assert IsoYear(y)[1..] == FixedDigits(y, 6);
    }
  }

  /** For a four-digit year the date part of `toISOString()` is the full-date of the UTC day. */
  lemma IsoDatePartIsFullDate(i: Instant)
    requires HasFourDigitYear(i.utcDate)
    ensures IsoDatePart(i) == FullDate(i.utcDate)
  {
    IsoYearValue(i.utcDate.year);
  }

  /** An instant that is not later than another falls on the same or an earlier UTC day. */
  lemma TimeValueDay(a: Instant, b: Instant)
    requires ValidInstant(a) && ValidInstant(b)
    requires TimeValue(a) <= TimeValue(b)
    ensures DayNumber(a.utcDate) <= DayNumber(b.utcDate)
  {
  }
}
