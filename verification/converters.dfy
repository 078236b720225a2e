/**
 * Converters and the converter/validator chain.
 *
 * `Converter`, `Converter.from` and `Converter.chain` are library types: their
 * behaviour here is the assumed contract (`chain` maps to the model through
 * `flatMap` and back to the presentation in reverse order). The validator
 * adapter and the null-representation converters model `FieldBinder.java`.
 */
module Converters {
  import opened Wrappers
  import opened Library
  import opened FieldValidationResultWrap

  /** A pair of conversions; the value context is not modelled. */
  datatype Converter = Converter(toModel: Value -> Result, toPresentation: Value -> Value)

  /** Identity in both directions (`Result.ok(value)` and `value`). */
  function Identity(): (c: Converter)
    ensures forall x :: c.toModel(x) == Plain(Ok(x)) && c.toPresentation(x) == x
  {
    Converter(x => Plain(Ok(x)), y => y)
  }

  /** `Converter.from(toModel, toPresentation, onError)` for conversions that do not throw. */
  function From(toModel: Value -> Value, toPresentation: Value -> Value): (c: Converter)
    ensures forall x :: c.toModel(x) == Plain(Ok(toModel(x)))
    ensures forall y :: c.toPresentation(y) == toPresentation(y)
  {
    Converter(x => Plain(Ok(toModel(x))), toPresentation)
  }

  /** `c.chain(next)`. */
  function Chain(c: Converter, next: Converter): Converter
  {
    Converter(x => c.toModel(x).FlatMap(next.toModel), y => c.toPresentation(next.toPresentation(y)))
  }

  /**
   * The chain a builder accumulates: `first.chain(s0).chain(s1)...`, nested
   * to the left as the repeated reassignment of the builder's chain builds it.
   */
  function Pipeline(first: Converter, stages: seq<Converter>): Converter {
    PipelineUpTo(first, stages, |stages|)
  }

  /** The chain after the first `m` stages. */
  function PipelineUpTo(first: Converter, stages: seq<Converter>, m: nat): Converter
    requires m <= |stages|
    decreases m
  {
    if m == 0 then first else Chain(PipelineUpTo(first, stages, m - 1), stages[m - 1])
  }

  /** The model direction of the chain up to stage `m` runs stage `m` on the chain before it. */
  lemma UpToStep(first: Converter, stages: seq<Converter>, m: nat, x: Value)
    requires 0 < m <= |stages|
    ensures PipelineUpTo(first, stages, m).toModel(x)
              == PipelineUpTo(first, stages, m - 1).toModel(x).FlatMap(stages[m - 1].toModel)
  {
  }

  /** A failure is handed on unchanged by every later stage. */
  lemma FailurePropagates(first: Converter, stages: seq<Converter>, m: nat, x: Value)
    requires 0 < m <= |stages|
    requires PipelineUpTo(first, stages, m - 1).toModel(x).IsError()
    ensures PipelineUpTo(first, stages, m).toModel(x) == PipelineUpTo(first, stages, m - 1).toModel(x)
  {
    UpToStep(first, stages, m, x);
  }

  /** Adding a stage chains it after everything already there. */
  lemma {:induction false} PipelineExtend(first: Converter, stages: seq<Converter>, next: Converter)
    ensures Pipeline(first, stages + [next]) == Chain(Pipeline(first, stages), next)
  {
    PipelineUpToExtend(first, stages, next, |stages|);
  }

  /** Stages after the `m`-th do not affect the chain up to it. */
  lemma {:induction false} PipelineUpToExtend(first: Converter, stages: seq<Converter>, next: Converter, m: nat)
    requires m <= |stages|
    ensures PipelineUpTo(first, stages + [next], m) == PipelineUpTo(first, stages, m)
    decreases m
  {
    if m > 0 {
      PipelineUpToExtend(first, stages, next, m - 1);
      assert (stages + [next])[m - 1] == stages[m - 1];
    }
  }

  /** Chain composition is associative in both directions. */
  lemma ChainAssociative(c1: Converter, c2: Converter, c3: Converter, x: Value, y: Value)
    ensures Chain(Chain(c1, c2), c3).toModel(x) == Chain(c1, Chain(c2, c3)).toModel(x)
    ensures Chain(Chain(c1, c2), c3).toPresentation(y) == Chain(c1, Chain(c2, c3)).toPresentation(y)
  {
    FlatMapAssociative(c1.toModel(x), c2.toModel, c3.toModel, Chain(c2, c3).toModel);
  }

  /** `c` converts back to every presentation value it accepted. */
  ghost predicate RoundTrips(c: Converter) {
    forall x :: !c.toModel(x).IsError() ==> c.toPresentation(c.toModel(x).OkValue()) == x
  }

  /** Chaining two round-tripping converters gives a round-tripping converter. */
  lemma ChainRoundTrips(c1: Converter, c2: Converter)
    requires RoundTrips(c1) && RoundTrips(c2)
    ensures RoundTrips(Chain(c1, c2))
  {
    forall x | !Chain(c1, c2).toModel(x).IsError()
      ensures Chain(c1, c2).toPresentation(Chain(c1, c2).toModel(x).OkValue()) == x
    {
      var r1 := c1.toModel(x);
      assert !r1.IsError();
      var r2 := c2.toModel(r1.OkValue());
      assert Chain(c1, c2).toModel(x).OkValue() == r2.OkValue();
    }
  }

  /**
   * `ValidatorAsConverter`: a same-type converter whose model direction runs
   * the validator and wraps the outcome with its single result, and whose
   * presentation direction is the identity.
   */
  function ValidatorAsConverter(validator: Validator): (c: Converter)
    ensures forall x :: c.toModel(x) == FromValidation(x, validator(x))
    ensures forall y :: c.toPresentation(y) == y
  {
    Converter(x => FromValidation(x, validator(x)), y => y)
  }

  /** A validator stage hands on its input unchanged and never alters the presentation value. */
  lemma ValidatorAsConverterRoundTrips(validator: Validator)
    ensures RoundTrips(ValidatorAsConverter(validator))
  {
  }

  /**
   * The converter behind the null-representation adapter that `forField`
   * installs: identity towards the model, and `null` shown as the field's
   * empty value.
   */
  function NullRepresentationAdapter(emptyValue: Value): (c: Converter)
    ensures forall x :: c.toModel(x) == Plain(Ok(x))
    ensures c.toPresentation(Null) == emptyValue
    ensures forall y :: y != Null ==> c.toPresentation(y) == y
  {
    From(x => x, y => if y == Null then emptyValue else y)
  }

  /**
   * `withNullRepresentation(nullRepresentation)`: the given value reads as
   * `null` towards the model, and `null` is shown as the given value.
   */
  function NullRepresentation(nullRepresentation: Value): (c: Converter)
    ensures c.toModel(nullRepresentation) == Plain(Ok(Null))
    ensures forall x :: x != nullRepresentation ==> c.toModel(x) == Plain(Ok(x))
    ensures c.toPresentation(Null) == nullRepresentation
    ensures forall y :: y != Null ==> c.toPresentation(y) == y
  {
    From(x => if x == nullRepresentation then Null else x, y => if y == Null then nullRepresentation else y)
  }

  /**
   * The null representation round-trips every presentation value except a
   * `null` shown while the representation is something else.
   */
  lemma NullRepresentationRoundTrip(nullRepresentation: Value, x: Value)
    ensures var c := NullRepresentation(nullRepresentation);
            c.toPresentation(c.toModel(x).OkValue()) == x <==> (x != Null || nullRepresentation == Null)
  {
    var c := NullRepresentation(nullRepresentation);
    if x == nullRepresentation {
      assert c.toModel(x) == Plain(Ok(Null));
    } else {
      assert c.toModel(x) == Plain(Ok(x));
    }
  }

  /** The validator stages `withValidator(v0)...withValidator(vn)` add. */
  function ValidatorStages(validators: seq<Validator>): (stages: seq<Converter>)
    ensures |stages| == |validators|
    ensures forall i :: 0 <= i < |validators| ==> stages[i] == ValidatorAsConverter(validators[i])
  {
    seq(|validators|, i requires 0 <= i < |validators| => ValidatorAsConverter(validators[i]))
  }

  /** The validation results of the first `m` validators on `x`, in order. */
  function Results(validators: seq<Validator>, m: nat, x: Value): (results: seq<ValidationResult>)
    requires m <= |validators|
    ensures |results| == m
    ensures forall i :: 0 <= i < m ==> results[i] == validators[i](x)
  {
    seq(m, i requires 0 <= i < m => validators[i](x))
  }

  /** One more validator adds its result at the end. */
  lemma ResultsStep(validators: seq<Validator>, m: nat, x: Value)
    requires m < |validators|
    ensures Results(validators, m + 1, x) == Results(validators, m, x) + [validators[m](x)]
  {
  }

  /** The first `m` validators all pass `x`. */
  ghost predicate PassUpTo(validators: seq<Validator>, m: nat, x: Value)
    requires m <= |validators|
  {
    forall i :: 0 <= i < m ==> !validators[i](x).IsError()
  }

  /** The validator at index `k` is the first to fail `x`. */
  ghost predicate FirstFailure(validators: seq<Validator>, x: Value, k: int) {
    0 <= k < |validators| && validators[k](x).IsError() && PassUpTo(validators, k, x)
  }

  /**
   * One validator stage after a passing wrap appends its result; after a
   * failed one it changes nothing.
   */
  lemma ValidatorStep(r: Result, validator: Validator, x: Value)
    requires r.Wrap?
    requires !r.IsError() ==> r.OkValue() == x
    ensures !r.IsError() ==>
              r.FlatMap(ValidatorAsConverter(validator).toModel)
                == Wrap(if validator(x).IsError() then Err(validator(x).message) else Ok(x), r.resultList + [validator(x)])
    ensures r.IsError() ==> r.FlatMap(ValidatorAsConverter(validator).toModel) == r
  {
  }

  /** Passing validators after an identity first stage hand on `x` and collect their results. */
  lemma {:induction false} PassesUpTo(first: Converter, validators: seq<Validator>, x: Value, m: nat)
    requires first.toModel(x) == Plain(Ok(x))
    requires 0 < m <= |validators| && PassUpTo(validators, m, x)
    ensures PipelineUpTo(first, ValidatorStages(validators), m).toModel(x) == Wrap(Ok(x), Results(validators, m, x))
    decreases m
  {
    if m == 1 {
      assert Results(validators, 1, x) == [validators[0](x)];
    } else {
      PassesUpTo(first, validators, x, m - 1);
      ValidatorStep(Wrap(Ok(x), Results(validators, m - 1, x)), validators[m - 1], x);
      ResultsStep(validators, m - 1, x);
    }
  }

  /** The first failing validator stops the chain with its own message. */
  lemma FailsAt(first: Converter, validators: seq<Validator>, x: Value, k: nat)
    requires first.toModel(x) == Plain(Ok(x))
    requires FirstFailure(validators, x, k)
    ensures PipelineUpTo(first, ValidatorStages(validators), k + 1).toModel(x)
              == Wrap(Err(validators[k](x).message), Results(validators, k + 1, x))
  {
    if k == 0 {
      assert Results(validators, 1, x) == [validators[0](x)];
    } else {
      PassesUpTo(first, validators, x, k);
      ValidatorStep(Wrap(Ok(x), Results(validators, k, x)), validators[k], x);
      ResultsStep(validators, k, x);
    }
  }

  /** Once the `k`-th validator has failed, later stages hand the failure on unchanged. */
  lemma {:induction false} FailsUpTo(first: Converter, validators: seq<Validator>, x: Value, k: nat, m: nat)
    requires first.toModel(x) == Plain(Ok(x))
    requires FirstFailure(validators, x, k) && k < m <= |validators|
    ensures PipelineUpTo(first, ValidatorStages(validators), m).toModel(x)
              == Wrap(Err(validators[k](x).message), Results(validators, k + 1, x))
    decreases m
  {
    if m == k + 1 {
      FailsAt(first, validators, x, k);
    } else {
      FailsUpTo(first, validators, x, k, m - 1);
      FailurePropagates(first, ValidatorStages(validators), m, x);
    }
  }

  /**
   * A chain of validators after an identity first stage that all pass `x`
   * gives `x` with every result, in registration order.
   */
  lemma ValidatorChainPasses(first: Converter, validators: seq<Validator>, x: Value)
    requires first.toModel(x) == Plain(Ok(x))
    requires |validators| > 0 && PassUpTo(validators, |validators|, x)
    ensures Pipeline(first, ValidatorStages(validators)).toModel(x) == Wrap(Ok(x), Results(validators, |validators|, x))
  {
    PassesUpTo(first, validators, x, |validators|);
  }

  /**
   * A chain of validators after an identity first stage whose k-th validator
   * is the first to fail `x` gives that validator's message with exactly the
   * first k+1 results: the later validators never run.
   */
  lemma ValidatorChainFails(first: Converter, validators: seq<Validator>, x: Value, k: nat)
    requires first.toModel(x) == Plain(Ok(x))
    requires FirstFailure(validators, x, k)
    ensures Pipeline(first, ValidatorStages(validators)).toModel(x)
              == Wrap(Err(validators[k](x).message), Results(validators, k + 1, x))
  {
    FailsUpTo(first, validators, x, k, |validators|);
  }
}
