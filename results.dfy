/** Failure-compatible wrappers shared by the query modules. */
module Results {

  /** An optional value: the model of a Python argument or field that may be `None`. */
  datatype Option<+T> = None | Some(value: T) {
    function GetOr(default: T): T {
      match this
      case Some(v) => v
      case None => default
    }
  }

  /**
   * The errors the query builder raises. The first and the last both reach
   * the caller as a pydantic `ValidationError`; they are kept apart here by
   * the error that validation wraps.
   */
  datatype QueryError =
    | WrongSortType   // the sort item validator's TypeError("Wrong sort type"), wrapped
    | EmptySort       // ValueError("'sort()' requires arguments."), raised as itself
    | NegativeBound   // the `ge=0` constraint on skip or limit failing

  /** Either a value or the exception raised while computing it. */
  datatype Result<+T> = Ok(value: T) | Fail(error: QueryError) {
    predicate IsFailure() {
      Fail?
    }

    function PropagateFailure<U>(): Result<U>
      requires Fail?
    {
      Fail(error)
    }

    function Extract(): T
      requires Ok?
    {
      value
    }
  }
}
