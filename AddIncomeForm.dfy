/** components/forms/AddIncomeForm.tsx: money coming in during a period. */
module AddIncomeForm {
  import opened Wrappers
  import opened JsText
  import opened Records
  import opened FormSupport

  /** The record sent to `addIncome`; the store assigns the id. */
  datatype NewIncome = NewIncome(source: string, amount: JsNumber, userId: string, periodId: string)

  /**
   * The one check of `handleSubmit`: both fields filled. The amount is sent as
   * `parseFloat` reads it, with no check for NaN or a negative value.
   */
  function Validate(source: string, amount: string, userId: string, periodId: string, parseFloat: string -> JsNumber)
    : (r: Result<NewIncome, Alert>)
    ensures r.Ok? <==> !Blank(source) && amount != []
    ensures r.Err? ==> r.error == FillAllFields
    ensures r.Ok? ==> r.value == NewIncome(Trim(source), parseFloat(amount), userId, periodId)
  {
    if Blank(source) || amount == [] then Err(FillAllFields)
    else Ok(NewIncome(Trim(source), parseFloat(amount), userId, periodId))
  }

  /** An income the form sends has a trimmed, non-empty source and the caller's ids. */
  lemma AcceptedIncome(source: string, amount: string, userId: string, periodId: string, parseFloat: string -> JsNumber)
    requires Validate(source, amount, userId, periodId, parseFloat).Ok?
    ensures var income := Validate(source, amount, userId, periodId, parseFloat).value;
      TrimmedText(income.source) && income.userId == userId && income.periodId == periodId
  {
    TrimmedOfNonBlank(source);
  }

  class Form {
    const userId: string
    const periodId: string
    var source: string
    var amount: string
    var loading: bool

    constructor (userId: string, periodId: string)
      ensures this.userId == userId && this.periodId == periodId
      ensures source == "" && amount == "" && !loading
    {
      this.userId := userId;
      this.periodId := periodId;
      source := "";
      amount := "";
      loading := false;
    }

    /** `handleSubmit`; `loading` is off again once the store has answered. */
    method HandleSubmit(parseFloat: string -> JsNumber, reply: StoreReply<Income>)
      returns (outcome: Submission<NewIncome, Income>)
      modifies this
      ensures outcome == Submitted(Validate(old(source), old(amount), userId, periodId, parseFloat), reply)
      ensures loading == (if outcome.Rejected? then old(loading) else false)
      ensures source == old(source) && amount == old(amount)
    {
      if Blank(source) || amount == [] {
        return Rejected(FillAllFields);
      }
      loading := true;
      var newIncome := NewIncome(Trim(source), parseFloat(amount), userId, periodId);
      outcome := AfterStore(newIncome, reply);
      loading := false;
    }
  }
}
