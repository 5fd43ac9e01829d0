/** What the React controllers share: the outcome of an awaited request and
    the JavaScript truthiness of the values a form holds. */
module Client {
  import opened Common

  const OperationFailedMessage := "Operation failed"

  /** How an awaited `userAPI`/`addressAPI` request ended. A rejected request
      may carry the `error` property of the server's JSON reply. */
  datatype Outcome = Succeeded | Failed(serverError: Option<string>)

  /** `err.response?.data?.error || 'Operation failed'`: the server's message
      when there is one and it is not the empty string, the fixed fallback
      otherwise. */
  function FailureMessage(serverError: Option<string>): (m: string)
    ensures m != ""
    ensures serverError.Some? && serverError.value != "" ==> m == serverError.value
    ensures serverError.None? || serverError.value == "" ==> m == OperationFailedMessage
  {
    if serverError.Some? && serverError.value != "" then serverError.value else OperationFailedMessage
  }

  /** A form field as JavaScript holds it: the text an input produced, a number
      copied from a server reply, or `null`. */
  datatype FieldValue = Text(text: string) | Number(number: int) | Null

  /** JavaScript truthiness: the empty string, zero and `null` are falsy. */
  predicate Truthy(v: FieldValue)
  {
    match v
    case Text(s) => s != ""
    case Number(n) => n != 0
    case Null => false
  }

  /** A possibly null id copied into a form field. */
  function IdField(id: Option<Id>): (v: FieldValue)
    ensures Truthy(v) <==> id.Some? && id.value != 0
    ensures id.Some? ==> v == Number(id.value)
  {
    if id.Some? then Number(id.value) else Null
  }
}
