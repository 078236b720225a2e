/**
 * `FieldBinderValidationStatus`: the outcome of binder level validation,
 * built from the status of the binder's single binding.
 *
 * `BindingStatus` stands for `FieldBindingValidationStatus`, whose source is
 * not part of this model: what is written for it is the behaviour the binder
 * relies on, stated as an assumption.
 */
module FieldBinderValidationStatus {
  import opened Wrappers
  import opened Library
  import opened FieldValidationResultWrap

  /**
   * The validation status of one binding: the result of its converter and
   * validator chain, and the binding it belongs to.
   */
  datatype BindingStatus<B> = BindingStatus(result: Result, binding: B) {

    /** The status is an error exactly when the chain's result is one. */
    predicate IsError() {
      result.IsError()
    }

    /** The status message: the chain's error message, present only on error. */
    function GetMessage(): (r: Option<string>)
      ensures r.Some? <==> IsError()
    {
      result.GetMessage()
    }

    /** The validator results collected along the chain; none for a plain result. */
    function ValidationResults(): (r: seq<ValidationResult>)
      ensures result.Wrap? ==> r == result.resultList
      ensures result.Plain? ==> r == []
    {
      if result.Wrap? then result.resultList else []
    }

    /** The result describing a failed chain: an ERROR level result with its message. */
    function ConversionResult(): (r: Option<ValidationResult>)
      ensures r.Some? <==> IsError()
      ensures r.Some? ==> r.value.IsError() && Some(r.value.message) == GetMessage()
    {
      if IsError() then Some(Problem(result.Inner().message, Error)) else None
    }
  }

  /** The status handed to the binder's validation status handler. */
  datatype BinderStatus<E, B> = BinderStatus(binder: E, bindingStatus: BindingStatus<B>) {

    /** `hasError`: the binder failed exactly when its binding did. */
    predicate HasError() {
      bindingStatus.IsError()
    }

    /** `isOk`: the negation of `hasError`. */
    function IsOk(): (r: bool)
      ensures r <==> !bindingStatus.result.IsError()
    {
      !HasError()
    }

    /**
     * `getValidationError`: the binding's conversion result, read with an
     * unchecked `get()`, so it throws when the status is ok.
     */
    function GetValidationError(): (r: Try<ValidationResult>)
      ensures r.Returned? <==> HasError()
      ensures r.Returned? ==> r.value.IsError() && Some(r.value.message) == bindingStatus.GetMessage()
      ensures r.Threw? ==> r.exception.NoSuchElement?
    {
      match bindingStatus.ConversionResult()
      case Some(e) => Returned(e)
      case None => Threw(NoSuchElement("No value present"))
    }

    /**
     * `getFieldValidationError` as written: `Optional.of` of the binding
     * status when it is an error and of `null` otherwise, which throws.
     */
    function FieldValidationErrorAsWritten(): (r: Try<Option<BindingStatus<B>>>)
      ensures r.Returned? <==> HasError()
      ensures r.Threw? ==> r.exception.NullPointer?
    {
      if HasError() then Returned(Some(bindingStatus)) else Threw(NullPointer("value"))
    }

    /**
     * `getFieldValidationError` as its documentation describes it: the
     * failed binding status, if any.
     */
    function FieldValidationError(): (r: Option<BindingStatus<B>>)
      ensures r.Some? <==> HasError()
      ensures r.Some? ==> r.value == bindingStatus
    {
      if HasError() then Some(bindingStatus) else None
    }
  }

  /**
   * The constructor: the binding status must not be null (`None` here); the
   * source binder may be anything.
   */
  function Create<E, B>(source: E, bindingStatus: Option<BindingStatus<B>>): (r: Try<BinderStatus<E, B>>)
    ensures r.Threw? <==> bindingStatus.None?
    ensures r.Threw? ==> r.exception == NullPointer("binding status cannot be null")
    ensures r.Returned? ==> r.value.binder == source && Some(r.value.bindingStatus) == bindingStatus
  {
    match bindingStatus
    case None => Threw(NullPointer("binding status cannot be null"))
    case Some(s) => Returned(BinderStatus(source, s))
  }

  /** A binder status is ok or has an error, never both, and agrees with its binding. */
  lemma OkExactlyWhenNoError<E, B>(s: BinderStatus<E, B>)
    ensures s.IsOk() != s.HasError()
    ensures s.HasError() <==> s.bindingStatus.ConversionResult().Some?
    ensures s.HasError() <==> s.bindingStatus.GetMessage().Some?
  {
  }

  /**
   * Where both are defined, the written `getFieldValidationError` agrees
   * with the documented one.
   */
  lemma FieldValidationErrorAgrees<E, B>(s: BinderStatus<E, B>)
    ensures s.HasError() ==> s.FieldValidationErrorAsWritten() == Returned(s.FieldValidationError())
  {
  }

  /**
   * The written `getFieldValidationError` never reports an absent error: on
   * every ok status it throws instead of returning an empty optional.
   */
  lemma FieldValidationErrorThrowsWhenOk<E, B>(s: BinderStatus<E, B>)
    requires s.IsOk()
    ensures s.FieldValidationErrorAsWritten().Threw?
    ensures s.FieldValidationError() == None
  {
  }
}
