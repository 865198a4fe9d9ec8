/** The pieces of the host ERP framework that every model below consumes:
    optional many-to-one references, the outcome of a record action, and
    recordsets. */
module Host {

  /** An optional value: an unset many-to-one reference is `None`. */
  datatype Option<T> = None | Some(value: T)

  /** What a record action ends with. A `ValidationError` aborts the whole
      call and the host rolls back everything the call wrote. */
  datatype Outcome = Ok | ValidationError(message: string)

  /** A computation that either yields a value or raises a validation error. */
  datatype Result<T> = Success(value: T) | Failure(message: string) {

    function ToOutcome(): Outcome {
      if Success? then Ok else ValidationError(message)
    }
  }

  /** A recordset never lists the same record twice. */
  predicate Distinct<T(==)>(s: seq<T>) {
    forall i, j :: 0 <= i < j < |s| ==> s[i] != s[j]
  }
}
