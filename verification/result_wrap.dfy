/**
 * `FieldValidationResultWrap`: a `Result` that carries, besides its outcome,
 * the ordered list of every `ValidationResult` produced along a
 * converter/validator chain.
 *
 * `Result` is the Java interface: `Plain` stands for the library's own
 * results (`Result.ok`, `Result.error`, `FieldSimpleResult`), `Wrap` for the
 * aggregating class. A `Wrap`'s wrapped result is always plain: the only
 * wrapped results the class ever stores are a fresh `FieldSimpleResult`, a
 * non-aggregating mapper result, or another wrap's wrapped result.
 */
module FieldValidationResultWrap {
  import opened Wrappers
  import opened Library

  datatype Result = Plain(outcome: Outcome) | Wrap(wrapped: Outcome, resultList: seq<ValidationResult>) {

    /** The plain result the outcome comes from (`getWrappedResult` on a wrap). */
    function Inner(): Outcome {
      match this
      case Plain(o) => o
      case Wrap(o, _) => o
    }

    /** `isError`: a wrap delegates to its wrapped result. */
    predicate IsError() {
      Inner().Err?
    }

    /** `getMessage`: a wrap delegates to its wrapped result. */
    function GetMessage(): (r: Option<string>)
      ensures r.Some? <==> IsError()
    {
      Inner().GetMessage()
    }

    /** The converted value of a result that is not an error. */
    function OkValue(): Value
      requires !IsError()
    {
      Inner().value
    }

    /**
     * `handle(ifOk, ifError)`: exactly one of the two consumers runs; the
     * model returns what it produced.
     */
    function Handle<X>(ifOk: Value -> X, ifError: string -> X): (x: X)
      ensures IsError() ==> x == ifError(Inner().message)
      ensures !IsError() ==> x == ifOk(OkValue())
    {
      match Inner()
      case Ok(v) => ifOk(v)
      case Err(m) => ifError(m)
    }

    /** `getOrThrow(exceptionProvider)`. */
    function GetOrThrow(exceptionProvider: string -> JavaException): (r: Try<Value>)
      ensures r.Returned? <==> !IsError()
      ensures r.Returned? ==> r.value == OkValue()
      ensures r.Threw? ==> r.exception == exceptionProvider(Inner().message)
    {
      match Inner()
      case Ok(v) => Returned(v)
      case Err(m) => Threw(exceptionProvider(m))
    }

    /**
     * `getValidationResults`. A Dafny sequence is an immutable value, which is
     * what the read-only view guarantees to the caller.
     */
    function ValidationResults(): seq<ValidationResult>
      requires Wrap?
    {
      resultList
    }

    /**
     * `flatMap(mapper)`. A plain result short-circuits on an error (library
     * contract). A wrap first maps its wrapped result; if that gives a plain
     * result the list is carried over, if it gives a wrap the lists are
     * concatenated in chain order and the outcome is the mapper's.
     */
    function FlatMap(mapper: Value -> Result): (r: Result)
      ensures IsError() ==> r == this
      ensures !IsError() ==> r.Inner() == mapper(OkValue()).Inner()
      ensures Wrap? ==> r.Wrap? && resultList <= r.resultList
      ensures Wrap? && !IsError() && mapper(OkValue()).Plain? ==> r.resultList == resultList
      ensures Wrap? && !IsError() && mapper(OkValue()).Wrap? ==>
                r.resultList == resultList + mapper(OkValue()).resultList
      ensures Plain? && !IsError() ==> r == mapper(OkValue())
    {
      match this
      case Plain(o) => PlainFlatMap(o, mapper)
      case Wrap(w, list) =>
        match PlainFlatMap(w, mapper)
        case Plain(o) => Wrap(o, list)
        case Wrap(o, more) => Wrap(o, list + more)
    }
  }

  /** `flatMap` of a plain result: the library's short-circuit on error. */
  function PlainFlatMap(o: Outcome, mapper: Value -> Result): (r: Result)
    ensures o.Err? ==> r == Plain(o)
    ensures o.Ok? ==> r == mapper(o.value)
  {
    match o
    case Ok(v) => mapper(v)
    case Err(m) => Plain(Err(m))
  }

  /**
   * The constructor `FieldValidationResultWrap(value, result)`: one entry,
   * and an error carrying the result's message exactly when the result is an
   * error.
   */
  function FromValidation(value: Value, result: ValidationResult): (r: Result)
    ensures r.Wrap? && r.ValidationResults() == [result]
    ensures r.IsError() <==> result.IsError()
    ensures r.IsError() ==> r.GetMessage() == Some(result.message)
    ensures !r.IsError() ==> r.GetOrThrow(m => NullPointer(m)) == Returned(value)
  {
    if result.IsError() then Wrap(Err(result.message), [result])
    else Wrap(Ok(value), [result])
  }

  /**
   * A result is consistent when a wrap that is not an error holds no error
   * entry: an error entry always stops the chain.
   */
  predicate Consistent(r: Result) {
    r.Wrap? && !r.IsError() ==> forall i :: 0 <= i < |r.resultList| ==> !r.resultList[i].IsError()
  }

  /** The single-result constructor gives consistent results. */
  lemma FromValidationConsistent(value: Value, result: ValidationResult)
    ensures Consistent(FromValidation(value, result))
  {
  }

  /**
   * Non-error entries never make the aggregate an error, and error entries
   * are not what makes it one either: only the wrapped result counts.
   */
  lemma ErrorStateIgnoresList(o: Outcome, list1: seq<ValidationResult>, list2: seq<ValidationResult>)
    ensures Wrap(o, list1).IsError() == Wrap(o, list2).IsError() == Plain(o).IsError()
    ensures Wrap(o, list1).GetMessage() == Plain(o).GetMessage()
  {
  }

  /** `flatMap` keeps results consistent when the mapper's results are. */
  lemma {:induction false} FlatMapConsistent(r: Result, mapper: Value -> Result)
    requires Consistent(r)
    requires forall v :: Consistent(mapper(v))
    ensures Consistent(r.FlatMap(mapper))
  {
    var s := r.FlatMap(mapper);
    if r.Wrap? && !r.IsError() && !s.IsError() {
      var m := mapper(r.OkValue());
      assert Consistent(m);
      if m.Wrap? {
        assert s.resultList == r.resultList + m.resultList;
        forall i | 0 <= i < |s.resultList| ensures !s.resultList[i].IsError() {
          if i >= |r.resultList| {
            assert s.resultList[i] == m.resultList[i - |r.resultList|];
          }
        }
      }
    }
  }

  /** `flatMap` is associative, for plain results and wraps alike. */
  lemma {:induction false} FlatMapAssociative(r: Result, f: Value -> Result, g: Value -> Result, h: Value -> Result)
    requires forall v :: h(v) == f(v).FlatMap(g)
    ensures r.FlatMap(f).FlatMap(g) == r.FlatMap(h)
  {
    match r
    case Plain(o) =>
    case Wrap(w, list) =>
      if w.Ok? {
        var m := f(w.value);
        match m
        case Plain(o) =>
        case Wrap(o, more) =>
          var tail := PlainFlatMap(o, g);
          if tail.Wrap? {
            assert list + (more + tail.resultList) == (list + more) + tail.resultList;
          }
      }
  }
}
