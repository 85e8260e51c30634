/**
 * components/forms/AddPeriodForm.tsx: a named budgeting period from a start
 * date to an end date, both picked as JavaScript `Date`s.
 */
module AddPeriodForm {
  import opened Wrappers
  import opened JsText
  import opened Calendar
  import opened Records
  import opened FormSupport
  import Helpers

  /** The form's own `formatDate`: the part of `toISOString()` before the `T`. */
  function FormatDate(date: Instant): string {
    IsoDatePart(date)
  }

  /** For a four-digit year the form writes the full-date of the instant's UTC day. */
  lemma FormatDateIsFullDate(date: Instant)
    requires HasFourDigitYear(date.utcDate)
    ensures FormatDate(date) == FullDate(date.utcDate)
  {
    IsoDatePartIsFullDate(date);
  }

  /**
   * The record sent to `addPeriod`; the store assigns the id. There is no
   * field for a daily limit or notes: a new period has neither.
   */
  datatype NewPeriod = NewPeriod(name: string, start_date: string, end_date: string, userId: string)

  const EndBeforeStart: Alert := Alert("Error", "End date cannot be before the start date.")

  /**
   * The checks of `handleSubmit`, in order: a name and both dates, then an
   * end that is not earlier than the start, compared as instants.
   */
  function Validate(name: string, startDate: Option<Instant>, endDate: Option<Instant>, userId: string)
    : (r: Result<NewPeriod, Alert>)
    ensures r.Ok? <==>
      !Blank(name) && startDate.Some? && endDate.Some? && TimeValue(startDate.value) <= TimeValue(endDate.value)
    ensures r.Err? ==> r.error == if Blank(name) || startDate.None? || endDate.None? then FillAllFields else EndBeforeStart
    ensures r.Ok? ==> r.value == NewPeriod(Trim(name), FormatDate(startDate.value), FormatDate(endDate.value), userId)
  {
    if Blank(name) || startDate.None? || endDate.None? then Err(FillAllFields)
    else if TimeValue(endDate.value) < TimeValue(startDate.value) then Err(EndBeforeStart)
    else Ok(NewPeriod(Trim(name), FormatDate(startDate.value), FormatDate(endDate.value), userId))
  }

  /**
   * What a period's two texts must be for the rest of the app: they read
   * back as its first and last day, their string order agrees with their
   * calendar order (the order the daily-cost form checks against), and the
   * day count `getDaysInPeriod` gives is the inclusive count of its days.
   */
  predicate DatesOfPeriod(startText: string, endText: string, first: CivilDate, last: CivilDate) {
    && ParseFullDate(startText) == Some(first)
    && ParseFullDate(endText) == Some(last)
    && !LexLess(endText, startText)
    && Helpers.DaysInPeriod(startText, endText) == Some(DayNumber(last) - DayNumber(first) + 1)
  }

  /** The full-dates of two days in order are the texts of the period from one to the other. */
  lemma FullDatesOfPeriod(first: CivilDate, last: CivilDate)
    requires HasFourDigitYear(first) && HasFourDigitYear(last)
    requires DayNumber(first) <= DayNumber(last)
    ensures DatesOfPeriod(FullDate(first), FullDate(last), first, last)
  {
    ParseFullDateOfFullDate(first);
    ParseFullDateOfFullDate(last);
    FullDateOrder(last, first);
    Helpers.DaysInPeriodOfFullDates(first, last);
  }

  /** Two dates picked in order, with four-digit years, format to the texts of their period. */
  lemma PickedDates(startDate: Instant, endDate: Instant)
    requires ValidInstant(startDate) && ValidInstant(endDate)
    requires HasFourDigitYear(startDate.utcDate) && HasFourDigitYear(endDate.utcDate)
    requires TimeValue(startDate) <= TimeValue(endDate)
    ensures DatesOfPeriod(FormatDate(startDate), FormatDate(endDate), startDate.utcDate, endDate.utcDate)
  {
    assert FormatDate(startDate) == FullDate(startDate.utcDate) by { FormatDateIsFullDate(startDate); }
    assert FormatDate(endDate) == FullDate(endDate.utcDate) by { FormatDateIsFullDate(endDate); }
    assert DayNumber(startDate.utcDate) <= DayNumber(endDate.utcDate) by { TimeValueDay(startDate, endDate); }
    FullDatesOfPeriod(startDate.utcDate, endDate.utcDate);
  }

  /** A period the form sends, from dates with four-digit years, has a trimmed name and the texts of its dates. */
  lemma AcceptedPeriod(name: string, startDate: Option<Instant>, endDate: Option<Instant>, userId: string)
    requires Validate(name, startDate, endDate, userId).Ok?
    requires ValidInstant(startDate.value) && ValidInstant(endDate.value)
    requires HasFourDigitYear(startDate.value.utcDate) && HasFourDigitYear(endDate.value.utcDate)
    ensures var period := Validate(name, startDate, endDate, userId).value;
      && TrimmedText(period.name)
      && DatesOfPeriod(period.start_date, period.end_date, startDate.value.utcDate, endDate.value.utcDate)
  {
    TrimmedOfNonBlank(name);
    PickedDates(startDate.value, endDate.value);
  }

  /** Which date the picker is open for. */
  datatype PickerTarget = Start | End

  class Form {
    const userId: string
    var name: string
    var startDate: Option<Instant>
    var endDate: Option<Instant>
    var loading: bool
    var showDatePicker: Option<PickerTarget>

    constructor (userId: string)
      ensures this.userId == userId
      ensures name == "" && startDate.None? && endDate.None? && !loading && showDatePicker.None?
    {
      this.userId := userId;
      name := "";
      startDate := None;
      endDate := None;
      loading := false;
      showDatePicker := None;
    }

    /** The start and end buttons' `onPress`. */
    method OpenDatePicker(target: PickerTarget)
      modifies this
      ensures showDatePicker == Some(target)
      ensures name == old(name) && startDate == old(startDate) && endDate == old(endDate) && loading == old(loading)
    {
      showDatePicker := Some(target);
    }

    /**
     * `handleDateChange`: the picker closes; the start date is set when the
     * start picker was open and the end date otherwise, to the selected date
     * or, with none selected, to what it already was.
     */
    method HandleDateChange(selectedDate: Option<Instant>)
      modifies this
      ensures showDatePicker.None?
      ensures old(showDatePicker) == Some(Start) ==>
        startDate == (if selectedDate.Some? then selectedDate else old(startDate)) && endDate == old(endDate)
      ensures old(showDatePicker) != Some(Start) ==>
        endDate == (if selectedDate.Some? then selectedDate else old(endDate)) && startDate == old(startDate)
      ensures name == old(name) && loading == old(loading)
    {
      var currentDate := if selectedDate.Some? then selectedDate
        else if showDatePicker == Some(Start) then startDate else endDate;
      var target := showDatePicker;
      showDatePicker := None;
      if currentDate.Some? {
        if target == Some(Start) {
          startDate := currentDate;
        } else {
          endDate := currentDate;
        }
      }
    }

    /** `handleSubmit`; `loading` is off again once the store has answered. */
    method HandleSubmit(reply: StoreReply<Period>) returns (outcome: Submission<NewPeriod, Period>)
      modifies this
      ensures outcome == Submitted(Validate(old(name), old(startDate), old(endDate), userId), reply)
      ensures loading == (if outcome.Rejected? then old(loading) else false)
      ensures name == old(name) && startDate == old(startDate) && endDate == old(endDate)
      ensures showDatePicker == old(showDatePicker)
    {
      if Blank(name) || startDate.None? || endDate.None? {
        return Rejected(FillAllFields);
      }
      if TimeValue(endDate.value) < TimeValue(startDate.value) {
        return Rejected(EndBeforeStart);
      }
      loading := true;
      var newPeriod := NewPeriod(Trim(name), FormatDate(startDate.value), FormatDate(endDate.value), userId);
      outcome := AfterStore(newPeriod, reply);
      loading := false;
    }
  }
}
