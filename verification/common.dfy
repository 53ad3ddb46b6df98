/** Shared value types: optional values, failure-carrying results, and the
    shapes that JavaScript values and batched chain calls take in the model. */
module Common {

  datatype Option<+T> = None | Some(value: T)

  /** The outcome of a step that can throw: a value, or the message of the
      error it raised. */
  datatype Result<+T> = Ok(value: T) | Err(message: string)

  /** The first present value of two, as JavaScript's `a || b` picks the first
      truthy error message. */
  function First<T>(a: Option<T>, b: Option<T>): (r: Option<T>)
    ensures a.Some? ==> r == a
    ensures a.None? ==> r == b
  {
    if a.Some? then a else b
  }

  /** A JavaScript value returned by a contract call, as far as the code
      distinguishes it: a string, a falsy non-string (undefined, null, false,
      0), or a truthy non-string (an object, a non-zero number). */
  datatype JsResult = JsStr(s: string) | JsFalsy | JsOther

  /** JavaScript truthiness of a call result: the empty string is falsy. */
  predicate Truthy(v: JsResult)
  {
    match v
    case JsStr(s) => s != ""
    case JsFalsy => false
    case JsOther => true
  }

  /** One entry of a multicall answered with `allowFailure: true`: either
      `{status: 'success', result}` or `{status: 'failure', error}`. */
  datatype Call<+T> = Succeeded(result: T) | Failed
}
