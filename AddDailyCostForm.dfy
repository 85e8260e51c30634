/**
 * components/forms/AddDailyCostForm.tsx: what was spent on one day of a
 * period. The form keeps a `Date`; it is modelled by the calendar day it
 * falls on in the device's time zone, the only part of it the form reads.
 */
module AddDailyCostForm {
  import opened Wrappers
  import opened JsText
  import opened Calendar
  import opened Records
  import opened FormSupport

  /**
   * The form's own `formatDate`: the year as `toString` writes it, then the
   * month (`getMonth() + 1`) and the day, each padded to two digits with `0`.
   */
  function FormatDate(date: CivilDate): string {
    IntText(date.year) + "-" + PadStart(IntText(date.month), 2, '0') + "-" + PadStart(IntText(date.day), 2, '0')
  }

  /** Month and day always come out as exactly two digits, whatever the year. */
  lemma FormatDatePadded(date: CivilDate)
    ensures FormatDate(date) == IntText(date.year) + "-" + FixedDigits(date.month, 2) + "-" + FixedDigits(date.day, 2)
  {
    assert Pow10(2) == 100;
    PadStartDigits(date.month, 2);
    PadStartDigits(date.day, 2);
  }

  /** For a four-digit year the form writes exactly the `YYYY-MM-DD` full-date. */
  lemma FormatDateIsFullDate(date: CivilDate)
    requires 1000 <= date.year <= 9999
    ensures HasFourDigitYear(date) && FormatDate(date) == FullDate(date)
  {
    FourDigitText(date.year);
    FormatDatePadded(date);
  }

  /** The record sent to `addDailyCost`; the store assigns the id. */
  datatype NewDailyCost = NewDailyCost(date: string, spent: real, userId: string, periodId: string)

  function InvalidDate(period: Period): Alert {
    Alert("Invalid Date", "The selected date must be between " + period.start_date + " and " + period.end_date + ".")
  }

  /**
   * The date check: the formatted date, compared as a string, is neither
   * before the period's start nor after its end; both ends are allowed.
   */
  predicate WithinPeriod(formatted: string, period: Period) {
    !LexLess(formatted, period.start_date) && !LexLess(period.end_date, formatted)
  }

  /**
   * The checks of `handleSubmit`, in order: the amount must read as a number
   * of at least 0, then the date must lie within the period.
   */
  function Validate(spent: string, date: CivilDate, period: Period, userId: string, parseFloat: string -> JsNumber)
    : (r: Result<NewDailyCost, Alert>)
    ensures r.Ok? <==> NonNegative(parseFloat(spent)) && WithinPeriod(FormatDate(date), period)
    ensures r.Err? ==> r.error == if NonNegative(parseFloat(spent)) then InvalidDate(period) else InvalidAmount
    ensures r.Ok? ==> r.value == NewDailyCost(FormatDate(date), parseFloat(spent).value, userId, period.id)
  {
    var spentAmount := parseFloat(spent);
    if spentAmount.NaN? || spentAmount.value < 0.0 then Err(InvalidAmount)
    else
      var formattedSelectedDate := FormatDate(date);
      if !WithinPeriod(formattedSelectedDate, period) then
        Err(InvalidDate(period))
      else Ok(NewDailyCost(FormatDate(date), spentAmount.value, userId, period.id))
  }

  /**
   * For a period whose dates are full-dates and a day with a four-digit
   * year, the string comparison is the calendar one: the day is accepted
   * exactly when it falls between the first and the last day of the period.
   */
  lemma WithinPeriodIsCalendarRange(date: CivilDate, period: Period)
    requires 1000 <= date.year <= 9999
    requires ParseFullDate(period.start_date).Some? && ParseFullDate(period.end_date).Some?
    ensures WithinPeriod(FormatDate(date), period) <==>
      DayNumber(ParseFullDate(period.start_date).value) <= DayNumber(date) <= DayNumber(ParseFullDate(period.end_date).value)
  {
    var first, last := ParseFullDate(period.start_date).value, ParseFullDate(period.end_date).value;
    FormatDateIsFullDate(date);
    FullDateOfParseFullDate(period.start_date);
    FullDateOfParseFullDate(period.end_date);
    FullDateOrder(date, first);
    FullDateOrder(last, date);
  }

  /** A cost the form sends has a non-negative amount, a date within the period, and the period's id. */
  lemma AcceptedDailyCost(spent: string, date: CivilDate, period: Period, userId: string, parseFloat: string -> JsNumber)
    requires 1000 <= date.year <= 9999
    requires ParseFullDate(period.start_date).Some? && ParseFullDate(period.end_date).Some?
    requires Validate(spent, date, period, userId, parseFloat).Ok?
    ensures var cost := Validate(spent, date, period, userId, parseFloat).value;
      && cost.spent >= 0.0 && cost.periodId == period.id && cost.userId == userId
      && ParseFullDate(cost.date) == Some(date)
      && DayNumber(ParseFullDate(period.start_date).value) <= DayNumber(date) <= DayNumber(ParseFullDate(period.end_date).value)
  {
    var cost := Validate(spent, date, period, userId, parseFloat).value;
    WithinPeriodIsCalendarRange(date, period);
    FormatDateIsFullDate(date);
    assert cost.date == FullDate(date);
    ParseFullDateOfFullDate(date);
  }

  /** What the date picker reported. */
  datatype PickerEvent = Set | Dismissed | NeutralButtonPressed

  class Form {
    const userId: string
    const period: Period
    var date: CivilDate
    var spent: string
    var loading: bool
    var showDatePicker: bool

    /** `today` is the day `new Date()` falls on when the form opens. */
    constructor (userId: string, period: Period, today: CivilDate)
      ensures this.userId == userId && this.period == period
      ensures date == today && spent == "" && !loading && !showDatePicker
    {
      this.userId := userId;
      this.period := period;
      date := today;
      spent := "";
      loading := false;
      showDatePicker := false;
    }

    /** The date button's `onPress`. */
    method OpenDatePicker()
      modifies this
      ensures showDatePicker
      ensures date == old(date) && spent == old(spent) && loading == old(loading)
    {
      showDatePicker := true;
    }

    /**
     * `handleDateChange`: the picker closes, and the date changes only when a
     * date was confirmed.
     */
    method HandleDateChange(event: PickerEvent, selectedDate: Option<CivilDate>)
      modifies this
      ensures !showDatePicker
      ensures date == if event == Set && selectedDate.Some? then selectedDate.value else old(date)
      ensures spent == old(spent) && loading == old(loading)
    {
      showDatePicker := false;
      if event == Set && selectedDate.Some? {
        var newDate := selectedDate.value;
        date := newDate;
      }
    }

    /** `handleSubmit`; `loading` is off again once the store has answered. */
    method HandleSubmit(parseFloat: string -> JsNumber, reply: StoreReply<DailyCost>)
      returns (outcome: Submission<NewDailyCost, DailyCost>)
      modifies this
      ensures outcome == Submitted(Validate(old(spent), old(date), period, userId, parseFloat), reply)
      ensures loading == (if outcome.Rejected? then old(loading) else false)
      ensures date == old(date) && spent == old(spent) && showDatePicker == old(showDatePicker)
    {
      var spentAmount := parseFloat(spent);
      if spentAmount.NaN? || spentAmount.value < 0.0 {
        return Rejected(InvalidAmount);
      }
      var formattedSelectedDate := FormatDate(date);
      if !WithinPeriod(formattedSelectedDate, period) {
        return Rejected(InvalidDate(period));
      }
      loading := true;
      var newCost := NewDailyCost(FormatDate(date), spentAmount.value, userId, period.id);
      outcome := AfterStore(newCost, reply);
      loading := false;
    }
  }
}
