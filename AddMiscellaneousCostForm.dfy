/** components/forms/AddMiscellaneousCostForm.tsx: a titled one-off cost for a period. */
module AddMiscellaneousCostForm {
  import opened Wrappers
  import opened JsText
  import opened Records
  import opened FormSupport

  /** The record sent to `addMiscellaneousCost`; the store assigns the id. */
  datatype NewMiscellaneousCost = NewMiscellaneousCost(title: string, amount: real, userId: string, periodId: string)

  /**
   * The checks of `handleSubmit`, in order: both fields filled, then the
   * amount a non-negative number; on success the record to send.
   */
  function Validate(title: string, amount: string, userId: string, periodId: string, parseFloat: string -> JsNumber)
    : (r: Result<NewMiscellaneousCost, Alert>)
    ensures r.Ok? <==> !Blank(title) && amount != [] && NonNegative(parseFloat(amount))
    ensures r.Err? ==> r.error == if Blank(title) || amount == [] then FillAllFields else InvalidAmount
    ensures r.Ok? ==> r.value == NewMiscellaneousCost(Trim(title), parseFloat(amount).value, userId, periodId)
  {
    if Blank(title) || amount == [] then Err(FillAllFields)
    else
      var costAmount := parseFloat(amount);
      if costAmount.NaN? || costAmount.value < 0.0 then Err(InvalidAmount)
      else Ok(NewMiscellaneousCost(Trim(title), costAmount.value, userId, periodId))
  }

  /** A cost the form sends has a trimmed, non-empty title and an amount of at least 0. */
  lemma AcceptedMiscellaneousCost(title: string, amount: string, userId: string, periodId: string, parseFloat: string -> JsNumber)
    requires Validate(title, amount, userId, periodId, parseFloat).Ok?
    ensures var cost := Validate(title, amount, userId, periodId, parseFloat).value;
      TrimmedText(cost.title) && cost.amount >= 0.0 && cost.userId == userId && cost.periodId == periodId
  {
    TrimmedOfNonBlank(title);
  }

  class Form {
    const userId: string
    const periodId: string
    var title: string
    var amount: string
    var loading: bool

    constructor (userId: string, periodId: string)
      ensures this.userId == userId && this.periodId == periodId
      ensures title == "" && amount == "" && !loading
    {
      this.userId := userId;
      this.periodId := periodId;
      title := "";
      amount := "";
      loading := false;
    }

    /**
     * `handleSubmit`: a rejected submission leaves `loading` as it was; one
     * that reaches the store ends with `loading` off whatever the store did.
     */
    method HandleSubmit(parseFloat: string -> JsNumber, reply: StoreReply<MiscellaneousCost>)
      returns (outcome: Submission<NewMiscellaneousCost, MiscellaneousCost>)
      modifies this
      ensures outcome == Submitted(Validate(old(title), old(amount), userId, periodId, parseFloat), reply)
      ensures loading == (if outcome.Rejected? then old(loading) else false)
      ensures title == old(title) && amount == old(amount)
    {
      if Blank(title) || amount == [] {
        return Rejected(FillAllFields);
      }
      var costAmount := parseFloat(amount);
      if costAmount.NaN? || costAmount.value < 0.0 {
        return Rejected(InvalidAmount);
      }
      loading := true;
      var newCost := NewMiscellaneousCost(Trim(title), costAmount.value, userId, periodId);
      outcome := AfterStore(newCost, reply);
      loading := false;
    }
  }
}
