/** The two JavaScript notions the model needs from the host language:
    an argument that may be omitted (`undefined`), and a call that may
    throw instead of returning. */
module JsValues {

  /** An optional argument: `None` stands for an omitted or `undefined` value. */
  datatype Option<+T> = None | Some(value: T) {

    /** The value, or `default` when the argument was omitted (a JS default parameter). */
    function GetOr(default: T): T {
      match this
      case Some(v) => v
      case None => default
    }
  }

  /** The completion of a call: it returns normally or throws an error. */
  datatype Completion<+T> = Normal(value: T) | Throw(error: string)
}
