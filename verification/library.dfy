/**
 * The Vaadin library types the core builds on. Their sources are not part of
 * this model; what is written here is the contract the core relies on, stated
 * as an assumption about the library rather than as a fact of the repository.
 */
module Library {
  import opened Wrappers

  /**
   * A value flowing through a binding. The Java chain re-types values from
   * stage to stage; the model uses one dynamic value type, with `Null` for
   * Java's null.
   */
  datatype Value = Null | Text(text: string) | Number(number: int)

  /** `ErrorLevel`: only ERROR, CRITICAL and SYSTEM make a result an error. */
  datatype ErrorLevel = Info | Warning | Error | Critical | System

  /**
   * `ValidationResult`: either ok (no error level) or a result carrying a
   * message and a level.
   */
  datatype ValidationResult = Pass | Problem(message: string, level: ErrorLevel) {

    predicate IsError() {
      Problem? && level != Info && level != Warning
    }

    function GetErrorLevel(): (r: Option<ErrorLevel>)
      ensures r.Some? <==> Problem?
    {
      if Problem? then Some(level) else None
    }
  }

  /** `Validator`: the value context is not modelled. */
  type Validator = Value -> ValidationResult

  /** `Validator.from(predicate, message, level)`, the predicate being `test`. */
  function ValidatorFrom(test: Value -> bool, message: string, level: ErrorLevel): (v: Validator)
    ensures forall x :: test(x) ==> v(x) == Pass
    ensures forall x :: !test(x) ==> v(x) == Problem(message, level)
  {
    x => if test(x) then Pass else Problem(message, level)
  }

  /** `Validator.alwaysPass()`. */
  function AlwaysPass(): (v: Validator)
    ensures forall x :: v(x) == Pass
  {
    x => Pass
  }

  /**
   * A plain `Result` (the library's `SimpleResult`, and the repository's
   * `FieldSimpleResult`, whose source is not part of this model): a value or
   * an error message.
   */
  datatype Outcome = Ok(value: Value) | Err(message: string) {

    /** `Result.getMessage()`. */
    function GetMessage(): (r: Option<string>)
      ensures r.Some? <==> Err?
    {
      if Err? then Some(message) else None
    }
  }
}
