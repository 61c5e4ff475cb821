/** worker/Result.java: a holder of a value or an error. The Java fields are
    nullable references, so both are modelled as options; only the two
    factories build a Result. */
module Results {

  datatype Option<+T> = None | Some(value: T)

  datatype Result<+T, +E> = Result(value: Option<T>, error: Option<E>)
  {
    /** isOk(): the value is non-null. */
    predicate IsOk() { value.Some? }

    /** isError(): the error is non-null. */
    predicate IsError() { error.Some? }

    function GetValue(): Option<T> { value }

    function GetError(): Option<E> { error }
  }

  /** Result.ok(value). */
  function Ok<T, E>(value: Option<T>): (r: Result<T, E>)
    ensures r.GetValue() == value && r.GetError() == None
    ensures r.IsOk() <==> value.Some?
    ensures !r.IsError()
  {
    Result(value, None)
  }

  /** Result.error(error). */
  function Error<T, E>(error: Option<E>): (r: Result<T, E>)
    ensures r.GetError() == error && r.GetValue() == None
    ensures r.IsError() <==> error.Some?
    ensures !r.IsOk()
  {
    Result(None, error)
  }

  /** A result built by either factory never carries both a value and an
      error, and `ok(null)` is neither ok nor an error. */
  lemma FactoriesAreExclusive<T, E>(v: Option<T>, e: Option<E>)
    ensures !(Ok<T, E>(v).IsOk() && Ok<T, E>(v).IsError())
    ensures !(Error<T, E>(e).IsOk() && Error<T, E>(e).IsError())
    ensures v == None ==> !Ok<T, E>(v).IsOk() && !Ok<T, E>(v).IsError()
  {
  }
}
