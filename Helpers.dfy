/**
 * `getDaysInPeriod` (utils/helpers.ts): the number of calendar days from one
 * `YYYY-MM-DD` date to another, both ends included.
 */
module Helpers {
  import opened Wrappers
  import opened Calendar
  import opened JsText

  /**
   * `new Date(text).getTime()` for date-only text: UTC midnight of the day it
   * names, or `None` (a NaN time value) for text that is not a full-date.
   */
  function DateTime(text: string): (t: Option<int>)
    ensures t.Some? <==> ParseFullDate(text).Some?
    ensures t.Some? ==> t.value == MidnightTimeValue(ParseFullDate(text).value)
  {
    match ParseFullDate(text)
    case Some(d) => Some(MidnightTimeValue(d))
    case None => None
  }

  function Abs(x: int): (r: int)
    ensures r >= 0 && (r == x || r == -x)
  {
    if x < 0 then -x else x
  }

  /** `Math.ceil(a / b)` for a positive divisor. */
  function CeilDiv(a: int, b: int): (r: int)
    requires b > 0
    ensures (r - 1) * b < a <= r * b
  {
    -((-a) / b)
  }

  /**
   * `getDaysInPeriod(startDateStr, endDateStr)`; `None` stands for the NaN the
   * arithmetic yields when either text is not a date.
   */
  function DaysInPeriod(startDateStr: string, endDateStr: string): (r: Option<int>)
    ensures r.None? <==> ParseFullDate(startDateStr).None? || ParseFullDate(endDateStr).None?
  {
    match (DateTime(startDateStr), DateTime(endDateStr))
    case (Some(startTime), Some(endTime)) =>
      var diffTime := Abs(endTime - startTime);
      Some(CeilDiv(diffTime, MsPerDay) + 1)
    case _ => None
  }

  /** The difference of two midnights is a whole number of days, so the ceiling is exact. */
  lemma CeilDivWhole(k: int, b: int)
    requires b > 0
    ensures CeilDiv(k * b, b) == k
  {
    var r := CeilDiv(k * b, b);
    if r < k {
      assert r * b < k * b by { MulStrict(r, k, b); }
    } else if r > k {
      assert k * b <= (r - 1) * b by { MulStrict(k, r - 1, b); }
    }
  }

  lemma MulStrict(x: int, y: int, b: int)
    requires b > 0 && x <= y
    ensures x * b <= y * b
    ensures x < y ==> x * b < y * b
  {
    assert y * b - x * b == (y - x) * b;
  }

  lemma MulSub(x: int, y: int, b: int)
    ensures x * b - y * b == (x - y) * b
  {
  }

  lemma AbsMul(x: int, b: int)
    requires b > 0
    ensures Abs(x * b) == Abs(x) * b
  {
    if x < 0 {
      MulStrict(x, 0, b);
      assert -(x * b) == (-x) * b;
    } else {
      MulStrict(0, x, b);
    }
  }

  /**
   * For two full-dates the count is the distance between their day numbers
   * plus one: the inclusive count of days from one to the other.
   */
  lemma DaysInPeriodValue(startDateStr: string, endDateStr: string)
    requires ParseFullDate(startDateStr).Some? && ParseFullDate(endDateStr).Some?
    ensures DaysInPeriod(startDateStr, endDateStr)
      == Some(Abs(DayNumber(ParseFullDate(endDateStr).value) - DayNumber(ParseFullDate(startDateStr).value)) + 1)
  {
    var s, e := ParseFullDate(startDateStr).value, ParseFullDate(endDateStr).value;
    DaysInPeriodOfMidnights(startDateStr, endDateStr);
    DaysBetweenMidnights(s, e);
  }

  /** For two full-dates the count is taken between their UTC midnights. */
  lemma DaysInPeriodOfMidnights(startDateStr: string, endDateStr: string)
    requires ParseFullDate(startDateStr).Some? && ParseFullDate(endDateStr).Some?
    ensures var s, e := ParseFullDate(startDateStr).value, ParseFullDate(endDateStr).value;
      DaysInPeriod(startDateStr, endDateStr) == Some(CeilDiv(Abs(MidnightTimeValue(e) - MidnightTimeValue(s)), MsPerDay) + 1)
  {
    var s, e := ParseFullDate(startDateStr).value, ParseFullDate(endDateStr).value;
    assert DateTime(startDateStr) == Some(MidnightTimeValue(s)) && DateTime(endDateStr) == Some(MidnightTimeValue(e));
  }

  /** Between the midnights of two days lie exactly as many whole days as between their numbers. */
  lemma DaysBetweenMidnights(s: CivilDate, e: CivilDate)
    ensures CeilDiv(Abs(MidnightTimeValue(e) - MidnightTimeValue(s)), MsPerDay) == Abs(DayNumber(e) - DayNumber(s))
  {
    MidnightDifference(s, e);
    WholeDays(MidnightTimeValue(s), MidnightTimeValue(e), DayNumber(e) - DayNumber(s));
  }

  /** Two midnights are a whole number of days apart. */
  lemma MidnightDifference(s: CivilDate, e: CivilDate)
    ensures MidnightTimeValue(e) - MidnightTimeValue(s) == (DayNumber(e) - DayNumber(s)) * MsPerDay
  {
    MulSub(DayNumber(e) - EpochDay, DayNumber(s) - EpochDay, MsPerDay);
  }

  /** Times `k` whole days apart are `|k|` days apart, rounded up or not. */
  lemma WholeDays(startTime: int, endTime: int, k: int)
    requires endTime - startTime == k * MsPerDay
    ensures CeilDiv(Abs(endTime - startTime), MsPerDay) == Abs(k)
  {
    AbsMul(k, MsPerDay);
    CeilDivWhole(Abs(k), MsPerDay);
  }

  /**
   * Between the full-dates of two days, the later one second, the count is
   * the number of days from the first to the last, both included.
   */
  lemma DaysInPeriodOfFullDates(first: CivilDate, last: CivilDate)
    requires HasFourDigitYear(first) && HasFourDigitYear(last)
    requires DayNumber(first) <= DayNumber(last)
    ensures DaysInPeriod(FullDate(first), FullDate(last)) == Some(DayNumber(last) - DayNumber(first) + 1)
  {
    ParseFullDateOfFullDate(first);
    ParseFullDateOfFullDate(last);
    DaysInPeriodValue(FullDate(first), FullDate(last));
  }

  /** The order of the arguments does not matter. */
  lemma DaysInPeriodSymmetric(a: string, b: string)
    ensures DaysInPeriod(a, b) == DaysInPeriod(b, a)
  {
    if ParseFullDate(a).Some? && ParseFullDate(b).Some? {
      DaysInPeriodValue(a, b);
      DaysInPeriodValue(b, a);
    }
  }

  /** A period of valid dates always counts at least one day. */
  lemma DaysInPeriodPositive(a: string, b: string)
    requires ParseFullDate(a).Some? && ParseFullDate(b).Some?
    ensures DaysInPeriod(a, b).Some? && DaysInPeriod(a, b).value >= 1
  {
    DaysInPeriodValue(a, b);
  }

  /** A period that starts and ends on the same day has one day. */
  lemma DaysInPeriodSameDay(a: string)
    requires ParseFullDate(a).Some?
    ensures DaysInPeriod(a, a) == Some(1)
  {
    DaysInPeriodValue(a, a);
  }

  /**
   * Moving the end one calendar day later, across month, year and leap-day
   * boundaries alike, adds exactly one day to a period that does not run
   * backwards.
   */
  lemma DaysInPeriodNextDay(startDateStr: string, endDateStr: string)
    requires ParseFullDate(startDateStr).Some? && ParseFullDate(endDateStr).Some?
    requires DayNumber(ParseFullDate(startDateStr).value) <= DayNumber(ParseFullDate(endDateStr).value)
    requires HasFourDigitYear(NextDay(ParseFullDate(endDateStr).value))
    ensures DaysInPeriod(startDateStr, FullDate(NextDay(ParseFullDate(endDateStr).value)))
      == Some(DaysInPeriod(startDateStr, endDateStr).value + 1)
  {
    var e := ParseFullDate(endDateStr).value;
    var next := FullDate(NextDay(e));
    ParseFullDateOfFullDate(NextDay(e));
    NextDayNumber(e);
    DaysInPeriodValue(startDateStr, endDateStr);
    DaysInPeriodValue(startDateStr, next);
  }

  /** The period from 2024-01-01 to 2024-01-05 counts five days. */
  lemma DaysInPeriodExample(first: CivilDate, last: CivilDate)
    requires first == Ymd(2024, 1, 1) && last == Ymd(2024, 1, 5)
    ensures DaysInPeriod(FullDate(first), FullDate(last)) == Some(5)
  {
    assert DayNumber(last) - DayNumber(first) == 4;
    DaysInPeriodOfFullDates(first, last);
  }

  /** The four-digit field of the year 2024. */
  lemma YearText2024()
    ensures FixedDigits(2024, 4) == "2024"
  {
    assert FixedDigits(2, 1) == "2";
    assert FixedDigits(20, 2) == "20";
    assert FixedDigits(202, 3) == "202";
  }

  /** The two-digit fields of 1 and 5. */
  lemma TwoDigitTexts()
    ensures FixedDigits(1, 2) == "01" && FixedDigits(5, 2) == "05"
  {
    assert FixedDigits(0, 1) == "0";
  }

  /** The full-dates of those two days are the texts `"2024-01-01"` and `"2024-01-05"`. */
  lemma ExampleFullDates(first: CivilDate, last: CivilDate)
    requires first == Ymd(2024, 1, 1) && last == Ymd(2024, 1, 5)
    ensures FullDate(first) == "2024-01-01" && FullDate(last) == "2024-01-05"
  {
    YearText2024();
    TwoDigitTexts();
  }

  /** `getDaysInPeriod("2024-01-01", "2024-01-05")` is 5. */
  lemma DaysInPeriodTextExample()
    ensures DaysInPeriod("2024-01-01", "2024-01-05") == Some(5)
  {
    var first, last := Ymd(2024, 1, 1), Ymd(2024, 1, 5);
    ExampleFullDates(first, last);
    DaysInPeriodExample(first, last);
  }
}
