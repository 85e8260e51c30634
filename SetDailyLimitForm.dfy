/** components/forms/SetDailyLimitForm.tsx: the amount a period allows per day. */
module SetDailyLimitForm {
  import opened Wrappers
  import opened Records
  import opened FormSupport

  /**
   * The text the input starts with: the current limit written out by
   * `toString` when it is above 0, and empty otherwise.
   */
  function InitialText(currentLimit: real, toString: real -> string): (text: string)
    ensures currentLimit > 0.0 ==> text == toString(currentLimit)
    ensures currentLimit <= 0.0 ==> text == ""
  {
    if currentLimit > 0.0 then toString(currentLimit) else ""
  }

  /** The check of `handleSubmit`: the text must read as a number of at least 0, which is the new limit. */
  function Validate(amount: string, parseFloat: string -> JsNumber): (r: Result<real, Alert>)
    ensures r.Ok? <==> NonNegative(parseFloat(amount))
    ensures r.Ok? ==> r.value == parseFloat(amount).value && r.value >= 0.0
    ensures r.Err? ==> r.error == InvalidAmount
  {
    var limitAmount := parseFloat(amount);
    if limitAmount.NaN? || limitAmount.value < 0.0 then Err(InvalidAmount) else Ok(limitAmount.value)
  }

  /**
   * When the input is left as it started, with no limit set so far, the form
   * refuses it: `parseFloat("")` is NaN. A positive limit whose text reads
   * back as itself is accepted unchanged.
   */
  lemma InitialTextValidates(currentLimit: real, toString: real -> string, parseFloat: string -> JsNumber)
    requires parseFloat("") == NaN
    requires currentLimit > 0.0 ==> parseFloat(toString(currentLimit)) == Num(currentLimit)
    ensures var r := Validate(InitialText(currentLimit, toString), parseFloat);
      && (currentLimit <= 0.0 ==> r == Err(InvalidAmount))
      && (currentLimit > 0.0 ==> r == Ok(currentLimit))
  {
  }

  /** How a submission ended: rejected with an alert, or `onLimitSet(periodId, limit)` was called once. */
  datatype LimitOutcome =
    | LimitRejected(alert: Alert)
    | LimitSubmitted(periodId: string, limit: real, closed: bool)

  class Form {
    const periodId: string
    const currentLimit: real
    var amount: string
    var loading: bool

    constructor (periodId: string, currentLimit: real, toString: real -> string)
      ensures this.periodId == periodId && this.currentLimit == currentLimit
      ensures amount == InitialText(currentLimit, toString) && !loading
    {
      this.periodId := periodId;
      this.currentLimit := currentLimit;
      amount := InitialText(currentLimit, toString);
      loading := false;
    }

    /**
     * `handleSubmit`. Once the check passes, `onLimitSet` is called with the
     * period and the parsed limit; when the promise it returns resolves,
     * `loading` goes off and the form closes. The `await` is not wrapped in
     * `try`, so when that promise rejects `loading` stays on and the form
     * stays open.
     */
    method HandleSubmit(parseFloat: string -> JsNumber, callbackResolves: bool) returns (outcome: LimitOutcome)
      modifies this
      ensures Validate(old(amount), parseFloat).Err? ==>
        outcome == LimitRejected(InvalidAmount) && loading == old(loading)
      ensures Validate(old(amount), parseFloat).Ok? ==>
        && outcome == LimitSubmitted(periodId, Validate(old(amount), parseFloat).value, callbackResolves)
        && loading == !callbackResolves
      ensures amount == old(amount)
    {
      var limitAmount := parseFloat(amount);
      if limitAmount.NaN? || limitAmount.value < 0.0 {
        return LimitRejected(InvalidAmount);
      }
      loading := true;
      if !callbackResolves {
        return LimitSubmitted(periodId, limitAmount.value, false);
      }
      loading := false;
      outcome := LimitSubmitted(periodId, limitAmount.value, true);
    }
  }
}
