/**
 * What the add/set forms under components/forms share: the alerts they show,
 * the checks they make on text and amounts, and how a submission ends.
 */
module FormSupport {
  import opened Wrappers
  import opened JsText
  import opened Records

  /** `Alert.alert(title, message)`. */
  datatype Alert = Alert(title: string, message: string)

  const FillAllFields: Alert := Alert("Error", "Please fill all fields.")
  const InvalidAmount: Alert := Alert("Error", "Please enter a valid, non-negative amount.")

  /** `!text.trim()`: nothing but white space. */
  predicate Blank(text: string) {
    Trim(text) == []
  }

  /** Neither `isNaN(x)` nor `x < 0`. */
  predicate NonNegative(x: JsNumber) {
    x.Num? && x.value >= 0.0
  }

  /** What an `add*` call of the store did: created the record, or threw an error with a message. */
  datatype StoreReply<R> = Created(record: R) | Failed(message: string)

  /**
   * How `handleSubmit` ended: rejected by a check before any store call, or
   * after sending `sent` to the store, either with the record it created
   * (handed to the `on*Added` callback, after which the form closes) or with
   * the store's error shown in an alert.
   */
  datatype Submission<D, R> =
    | Rejected(alert: Alert)
    | Added(sent: D, record: R)
    | StoreFailed(sent: D, alert: Alert)

  /** The `try`/`catch` around the store call, once the checks have passed. */
  function AfterStore<D, R>(sent: D, reply: StoreReply<R>): (s: Submission<D, R>)
    ensures !s.Rejected? && s.sent == sent
    ensures s.Added? <==> reply.Created?
    ensures s.Added? ==> s.record == reply.record
    ensures s.StoreFailed? ==> s.alert == Alert("Error", reply.message)
  {
    match reply
    case Created(record) => Added(sent, record)
    case Failed(message) => StoreFailed(sent, Alert("Error", message))
  }

  /** Where a check failed the submission is rejected with its alert; otherwise the store is called. */
  function Submitted<D, R>(checked: Result<D, Alert>, reply: StoreReply<R>): (s: Submission<D, R>)
    ensures s.Rejected? <==> checked.Err?
    ensures s.Rejected? ==> s.alert == checked.error
    ensures checked.Ok? ==> s == AfterStore(checked.value, reply)
  {
    match checked
    case Err(alert) => Rejected(alert)
    case Ok(sent) => AfterStore(sent, reply)
  }

  /** A name the forms store: trimmed, so trimming it again changes nothing, and not empty. */
  predicate TrimmedText(text: string) {
    text != [] && Trim(text) == text
  }

  /** Whatever is not blank trims to a stored name. */
  lemma TrimmedOfNonBlank(text: string)
    requires !Blank(text)
    ensures TrimmedText(Trim(text))
  {
    TrimIdempotent(text);
  }
}
