/** components/forms/AddBudgetForm.tsx: a named amount set aside in a period. */
module AddBudgetForm {
  import opened Wrappers
  import opened JsText
  import opened Records
  import opened FormSupport

  /** The record sent to `addBudget`; the store assigns the id. */
  datatype NewBudget = NewBudget(name: string, amount_allocated: JsNumber, userId: string, periodId: string, status: BudgetStatus)

  /**
   * The one check of `handleSubmit`: both fields filled. The amount is sent as
   * `parseFloat` reads it, with no check for NaN or a negative value, and
   * every new budget starts out not paid.
   */
  function Validate(name: string, amount: string, userId: string, periodId: string, parseFloat: string -> JsNumber)
    : (r: Result<NewBudget, Alert>)
    ensures r.Ok? <==> !Blank(name) && amount != []
    ensures r.Err? ==> r.error == FillAllFields
    ensures r.Ok? ==> r.value == NewBudget(Trim(name), parseFloat(amount), userId, periodId, NotPaid)
  {
    if Blank(name) || amount == [] then Err(FillAllFields)
    else Ok(NewBudget(Trim(name), parseFloat(amount), userId, periodId, NotPaid))
  }

  /** A budget the form sends has a trimmed, non-empty name and is not paid. */
  lemma AcceptedBudget(name: string, amount: string, userId: string, periodId: string, parseFloat: string -> JsNumber)
    requires Validate(name, amount, userId, periodId, parseFloat).Ok?
    ensures var budget := Validate(name, amount, userId, periodId, parseFloat).value;
      TrimmedText(budget.name) && budget.status == NotPaid
  {
    TrimmedOfNonBlank(name);
  }

  class Form {
    const userId: string
    const periodId: string
    var name: string
    var amount: string
    var loading: bool

    constructor (userId: string, periodId: string)
      ensures this.userId == userId && this.periodId == periodId
      ensures name == "" && amount == "" && !loading
    {
      this.userId := userId;
      this.periodId := periodId;
      name := "";
      amount := "";
      loading := false;
    }

    /** `handleSubmit`; `loading` is off again once the store has answered. */
    method HandleSubmit(parseFloat: string -> JsNumber, reply: StoreReply<Budget>)
      returns (outcome: Submission<NewBudget, Budget>)
      modifies this
      ensures outcome == Submitted(Validate(old(name), old(amount), userId, periodId, parseFloat), reply)
      ensures loading == (if outcome.Rejected? then old(loading) else false)
      ensures name == old(name) && amount == old(amount)
    {
      if Blank(name) || amount == [] {
        return Rejected(FillAllFields);
      }
      loading := true;
      var newBudget := NewBudget(Trim(name), parseFloat(amount), userId, periodId, NotPaid);
      outcome := AfterStore(newBudget, reply);
      loading := false;
    }
  }
}
