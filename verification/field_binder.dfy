/**
 * `FieldBinder`: a binder for exactly one field. `forField` starts a
 * binding builder; the builder accumulates a converter and validator chain
 * and a status handler, and `bind` turns it into a binding that pushes the
 * initial value to the field and, on every later field change, validates the
 * field and commits the converted value to the binding's buffer.
 *
 * Fields, labels and error displays are objects the binder updates in place;
 * custom status handlers and listeners are represented by identifiers, and
 * calling one appends a `Notice` to the binder's `log`.
 */
module FieldBinder {
  import opened Wrappers
  import opened Library
  import opened FieldValidationResultWrap
  import opened Converters
  import opened FieldBinderValidationStatus
  import opened BinderPolicy

  /** The invalid flag and error message of a field that has validation (`HasValidation`). */
  class ErrorDisplay {
    var invalid: bool
    var errorMessage: string

    constructor ()
      ensures !invalid && errorMessage == ""
    {
      invalid := false;
      errorMessage := "";
    }
  }

  /** A text component used as a status label, and whether it is displayed. */
  class Label {
    var text: string
    var visible: bool

    constructor ()
      ensures text == "" && visible
    {
      text := "";
      visible := true;
    }
  }

  /**
   * A field (`HasValue`). `defaultValidator` is present for a field that
   * has its own default validator (`HasValidator`); `display` for a field
   * that shows validation errors (`HasValidation`). `listener` is the binding
   * whose value change listener is registered on the field.
   */
  class Field {
    var value: Value
    var readOnly: bool
    var requiredIndicatorVisible: bool
    var listener: Binding?
    const emptyValue: Value
    const defaultValidator: Option<Validator>
    const display: ErrorDisplay?

    constructor (emptyValue: Value, defaultValidator: Option<Validator>, display: ErrorDisplay?)
      ensures value == emptyValue && !readOnly && !requiredIndicatorVisible && listener == null
      ensures this.emptyValue == emptyValue && this.defaultValidator == defaultValidator && this.display == display
    {
      value := emptyValue;
      readOnly := false;
      requiredIndicatorVisible := false;
      listener := null;
      this.emptyValue := emptyValue;
      this.defaultValidator := defaultValidator;
      this.display := display;
    }

    /** `setValue`: a value change event is due only when the value differs. */
    method SetValue(v: Value) returns (changed: bool)
      modifies this`value
      ensures value == v
      ensures changed <==> old(value) != v
    {
      changed := value != v;
      value := v;
    }
  }

  /** The validator `forField` installs first: the field's own, or one that always passes. */
  function DefaultValidator(field: Field): (v: Validator)
    ensures field.defaultValidator.None? ==> forall x :: v(x) == Pass
    ensures field.defaultValidator.Some? ==> v == field.defaultValidator.value
  {
    match field.defaultValidator
    case Some(d) => d
    case None => AlwaysPass()
  }

  /** The error display of a field, as a frame. */
  function DisplayOf(field: Field?): set<object> {
    if field == null || field.display == null then {} else {field.display}
  }

  /** The binding level validation status handlers. */
  datatype BindingHandler =
    | DefaultBindingHandler
    | StatusLabelHandler(target: Label)
    | CustomBindingHandler(id: nat)

  /** The label a binding handler writes to, as a frame. */
  function LabelOf(h: BindingHandler): set<object> {
    if h.StatusLabelHandler? then {h.target} else {}
  }

  /** The binder level validation status handlers. */
  datatype EngineHandler = DefaultEngineHandler | CustomEngineHandler(id: nat)

  /** What the binder's observable callbacks received, in order. */
  datatype Notice =
    | ListenerCalled(listener: nat, event: Event)
    | BindingHandlerCalled(id: nat, status: BindingStatus<Binding>)
    | EngineHandlerCalled(id: nat, binderStatus: BinderStatus<Engine, Binding>)

  /** The notices of handing `e` to each listener in order. */
  function NoticesFor(entries: seq<ListenerEntry>, e: Event): (r: seq<Notice>)
    ensures |r| == |entries|
    ensures forall i :: 0 <= i < |entries| ==> r[i] == ListenerCalled(entries[i].listener, e)
  {
    seq(|entries|, i requires 0 <= i < |entries| => ListenerCalled(entries[i].listener, e))
  }

  /**
   * `ConverterDelegate`: the null-representation adapter at the head of every
   * chain. It converts through its delegate, or as the identity once the
   * delegate has been cleared.
   */
  class ConverterDelegate {
    var delegate: Option<Converter>

    constructor (converter: Converter)
      ensures delegate == Some(converter)
    {
      delegate := Some(converter);
    }

    /** The conversion the adapter currently performs. */
    function Current(): (c: Converter)
      reads this
      ensures delegate.None? ==> forall x :: c.toModel(x) == Plain(Ok(x)) && c.toPresentation(x) == x
      ensures delegate.Some? ==> c == delegate.value
    {
      match delegate
      case Some(d) => d
      case None => Identity()
    }

    /** `setIdentity`: drop the delegate. */
    method SetIdentity()
      modifies this
      ensures delegate == None
      ensures forall x :: Current().toModel(x) == Plain(Ok(x)) && Current().toPresentation(x) == x
    {
      delegate := None;
    }
  }

  /**
   * `FieldBindingBuilderImpl`: collects the chain and the status handler of
   * a binding until `bind` is called.
   */
  class BindingBuilder {
    const binder: Engine
    const field: Field
    const adapter: ConverterDelegate
    var statusHandler: BindingHandler
    var isStatusHandlerChanged: bool
    var bound: bool
    /** The stages chained after the adapter, in the order they were added. */
    var stages: seq<Converter>

    constructor (binder: Engine, field: Field, adapter: ConverterDelegate, statusHandler: BindingHandler)
      ensures this.binder == binder && this.field == field && this.adapter == adapter
      ensures this.statusHandler == statusHandler && !isStatusHandlerChanged && !bound && stages == []
    {
      this.binder := binder;
      this.field := field;
      this.adapter := adapter;
      this.statusHandler := statusHandler;
      isStatusHandlerChanged := false;
      bound := false;
      stages := [];
    }

    /** The chain the builder has so far: the adapter followed by every stage. */
    function Chain(): Converter
      reads this, adapter
    {
      Pipeline(adapter.Current(), stages)
    }

    /** `checkUnbound`: a builder can be changed only until `bind`. */
    function CheckUnbound(): (r: Try<()>)
      reads this
      ensures r.Threw? <==> bound
      ensures r.Threw? ==> r.exception == IllegalState("cannot modify binding: already bound to a property")
    {
      if bound then Threw(IllegalState("cannot modify binding: already bound to a property")) else Returned(())
    }

    /** `withValidator`: chain the validator as a validation stage. */
    method WithValidator(validator: Validator) returns (r: Try<()>)
      modifies this`stages
      ensures r == old(CheckUnbound())
      ensures r.Returned? ==> stages == old(stages) + [ValidatorAsConverter(validator)]
      ensures r.Threw? ==> stages == old(stages)
    {
      r := CheckUnbound();
      if r.Returned? {
        stages := stages + [ValidatorAsConverter(validator)];
      }
    }

    /**
     * `withConverter`: chain the converter, after making the adapter the
     * binder now holds for this field an identity. The adapter is looked up
     * by field, so a later `forField` on the same field has replaced it.
     */
    method WithConverter(converter: Converter) returns (r: Try<()>)
      modifies this`stages, if !bound && field in binder.initialConverters then {binder.initialConverters[field]} else {}
      ensures old(bound) ==> r == old(CheckUnbound()) && stages == old(stages)
      ensures !old(bound) && field !in binder.initialConverters ==> r.Threw? && r.exception.NullPointer? && stages == old(stages)
      ensures !old(bound) && field in binder.initialConverters ==>
                r == Returned(()) && stages == old(stages) + [converter] && binder.initialConverters[field].delegate == None
    {
      r := CheckUnbound();
      if r.Threw? {
        return;
      }
      if field !in binder.initialConverters {
        r := Threw(NullPointer("initialConverters.get(field)"));
        return;
      }
      binder.initialConverters[field].SetIdentity();
      stages := stages + [converter];
    }

    /**
     * `withNullRepresentation`: chain a converter that reads the given value
     * as null and shows null as it.
     */
    method WithNullRepresentation(nullRepresentation: Value) returns (r: Try<()>)
      modifies this`stages, if !bound && field in binder.initialConverters then {binder.initialConverters[field]} else {}
      ensures old(bound) ==> r == old(CheckUnbound()) && stages == old(stages)
      ensures !old(bound) && field in binder.initialConverters ==>
                r == Returned(()) && stages == old(stages) + [NullRepresentation(nullRepresentation)]
                && binder.initialConverters[field].delegate == None
      ensures !old(bound) && field !in binder.initialConverters ==> r.Threw? && r.exception.NullPointer? && stages == old(stages)
    {
      r := WithConverter(NullRepresentation(nullRepresentation));
    }

    /** `withValidationStatusHandler`: may be set at most once. */
    method WithValidationStatusHandler(handler: BindingHandler) returns (r: Try<()>)
      modifies this`statusHandler, this`isStatusHandlerChanged
      ensures old(bound) ==> r == old(CheckUnbound())
      ensures !old(bound) && old(isStatusHandlerChanged) ==>
                r == Threw(IllegalState("A FieldBindingValidationStatusHandler has already been set"))
      ensures r.Threw? ==> statusHandler == old(statusHandler) && isStatusHandlerChanged == old(isStatusHandlerChanged)
      ensures !old(bound) && !old(isStatusHandlerChanged) ==>
                r == Returned(()) && statusHandler == handler && isStatusHandlerChanged
    {
      r := CheckUnbound();
      if r.Threw? {
        return;
      }
      if isStatusHandlerChanged {
        r := Threw(IllegalState("A FieldBindingValidationStatusHandler has already been set"));
        return;
      }
      isStatusHandlerChanged := true;
      statusHandler := handler;
    }

    /** `withStatusLabel`: a status handler that shows the status message in the label. */
    method WithStatusLabel(target: Label) returns (r: Try<()>)
      modifies this`statusHandler, this`isStatusHandlerChanged
      ensures r.Returned? <==> !old(bound) && !old(isStatusHandlerChanged)
      ensures r.Returned? ==> statusHandler == StatusLabelHandler(target) && isStatusHandlerChanged
      ensures r.Threw? ==> statusHandler == old(statusHandler) && isStatusHandlerChanged == old(isStatusHandlerChanged)
    {
      r := WithValidationStatusHandler(StatusLabelHandler(target));
    }

    /** `asRequired(validator)`: show the required indicator and chain the validator. */
    method AsRequiredWith(requiredValidator: Validator) returns (r: Try<()>)
      modifies this`stages, field`requiredIndicatorVisible
      ensures r == old(CheckUnbound())
      ensures r.Returned? ==> field.requiredIndicatorVisible && stages == old(stages) + [ValidatorAsConverter(requiredValidator)]
      ensures r.Threw? ==> stages == old(stages) && field.requiredIndicatorVisible == old(field.requiredIndicatorVisible)
    {
      r := CheckUnbound();
      if r.Threw? {
        return;
      }
      field.requiredIndicatorVisible := true;
      r := WithValidator(requiredValidator);
    }

    /**
     * `asRequired(errorMessage)`: require a value different from the field's
     * empty value.
     */
    method AsRequired(errorMessage: string) returns (r: Try<()>)
      modifies this`stages, field`requiredIndicatorVisible
      ensures r == old(CheckUnbound())
      ensures r.Returned? ==>
                field.requiredIndicatorVisible
                && stages == old(stages) + [ValidatorAsConverter(RequiredValidator(field.emptyValue, errorMessage))]
      ensures r.Threw? ==> stages == old(stages)
    {
      r := AsRequiredWith(RequiredValidator(field.emptyValue, errorMessage));
    }

    /**
     * `bind(value)`: create the binding, make it the binder's binding, push
     * the value to the field through the chain, and fire a status change
     * event without errors.
     */
    method Bind(value: Value) returns (r: Try<Binding>)
      requires binder.Valid()
      modifies this`bound, binder`binding, binder`log, field`value, field`listener
      ensures binder.Valid()
      ensures old(bound) ==> r == Threw(old(CheckUnbound()).exception)
      ensures !old(bound) && value == Null ==> r == Threw(NullPointer("value cannot be null"))
      ensures r.Threw? ==>
                bound == old(bound) && binder.binding == old(binder.binding) && binder.log == old(binder.log)
                && field.value == old(field.value) && field.listener == old(field.listener)
      ensures !old(bound) && value != Null ==> r.Returned?
      ensures r.Returned? ==>
                var b := r.value;
                fresh(b) && bound && binder.binding == b && b.Valid()
                && b.binder == binder && b.field == field && b.adapter == adapter && b.stages == stages
                && b.statusHandler == statusHandler && b.value == value && !b.readOnly && !b.valueInit
                && field.listener == b
                && field.value == Chain().toPresentation(value)
                && binder.log == old(binder.log) + binder.Deliveries(StatusChange(false))
    {
      var unbound := CheckUnbound();
      if unbound.Threw? {
        return Threw(unbound.exception);
      }
      if value == Null {
        r := Threw(NullPointer("value cannot be null"));
        return;
      }
      var b := new Binding(this, value);
      binder.binding := b;
      b.InitFieldValue(value);
      binder.FireStatusChangeEvent(false);
      bound := true;
      r := Returned(b);
    }
  }

  /** The validator `asRequired` builds: fails, at ERROR level, on the empty value. */
  function RequiredValidator(emptyValue: Value, errorMessage: string): (v: Validator)
    ensures v(emptyValue) == Problem(errorMessage, Error)
    ensures forall x :: x != emptyValue ==> v(x) == Pass
  {
    ValidatorFrom(x => x != emptyValue, errorMessage, Error)
  }

  /**
   * `FieldBindingImpl`: the link between the field and the buffered value.
   * `unbind` clears both `binder` and `field`.
   */
  class Binding {
    var binder: Engine?
    var field: Field?
    const statusHandler: BindingHandler
    /** The buffered value, committed on every valid field change. */
    var value: Value
    var readOnly: bool
    var valueInit: bool
    const adapter: ConverterDelegate
    const stages: seq<Converter>

    /** A binding is attached to both its binder and its field, or to neither. */
    ghost predicate Valid()
      reads this
    {
      (binder == null) == (field == null)
    }

    constructor (builder: BindingBuilder, value: Value)
      modifies builder.field`listener
      ensures binder == builder.binder && field == builder.field
      ensures statusHandler == builder.statusHandler && adapter == builder.adapter && stages == builder.stages
      ensures this.value == value && !readOnly && !valueInit
      ensures builder.field.listener == this
    {
      binder := builder.binder;
      field := builder.field;
      statusHandler := builder.statusHandler;
      adapter := builder.adapter;
      stages := builder.stages;
      this.value := value;
      readOnly := false;
      valueInit := false;
      new;
      builder.field.listener := this;
    }

    /** The binding's converter and validator chain, as it converts now. */
    function Chain(): Converter
      reads adapter
    {
      Pipeline(adapter.Current(), stages)
    }

    /** `doConversion`: the field's value through the chain. */
    function Conversion(): (r: Result)
      requires field != null
      reads this, field, adapter
    {
      Chain().toModel(field.value)
    }

    /** `doValidation`: the conversion as a binding status of this binding. */
    function Status(): (s: BindingStatus<Binding>)
      requires field != null
      reads this, field, adapter
      ensures s.binding == this && s.IsError() == Conversion().IsError()
    {
      BindingStatus(Conversion(), this)
    }

    /**
     * `validate(fireEvent)`: fails once unbound; otherwise converts the
     * field value and, when asked to, hands the status to the binder's
     * handler and, unless that threw, fires a status change event.
     */
    method Validate(fireEvent: bool) returns (r: Try<BindingStatus<Binding>>)
      requires Valid()
      requires binder != null ==> binder.Valid()
      modifies if fireEvent && binder != null then binder.Targets(this) else {}
      ensures old(binder) == null ==> r == Threw(NullPointer("This Binding is no longer attached to a Binder"))
      ensures old(binder) != null && !fireEvent ==> r == Returned(old(Status()))
      ensures unchanged(this)
      ensures binder != null ==>
                binder.Valid()
                && unchanged(binder`binding, binder`changedBinding, binder`initialConverters, binder`listeners, binder`nextToken)
                && unchanged(binder`statusLabel, binder`statusHandler)
      ensures fireEvent && binder != null ==>
                var s := BinderStatus(binder, old(Status()));
                r == old(binder.HandlerOutcome(s)).Then(s.bindingStatus)
                && HandlerApplied(s, old(binder.GetValidationStatusHandler()), old(field), old(binder.statusLabel))
                && (r.Threw? ==> binder.log == old(binder.log) + old(binder.HandlerNotices(s)))
                && (r.Returned? ==>
                      binder.log == old(binder.log) + old(binder.HandlerNotices(s)) + binder.Deliveries(StatusChange(s.HasError())))
    {
      if binder == null {
        return Threw(NullPointer("This Binding is no longer attached to a Binder"));
      }
      var status := Status();
      r := Returned(status);
      if fireEvent {
        var outcome := binder.ReportStatus(BinderStatus(binder, status), status.IsError());
        r := outcome.Then(status);
      }
    }

    /**
     * `unbind`: remove the field listener; fails on a second call; otherwise
     * detaches from binder and field. The binder keeps its reference to the
     * binding.
     */
    method Unbind() returns (r: Try<()>)
      requires Valid()
      modifies this`binder, this`field, if field == null then {} else {field}
      ensures old(field) != null && old(field.listener) == this ==> old(field).listener == null
      ensures old(field) != null && old(field.listener) != this ==> old(field).listener == old(field.listener)
      ensures old(binder) == null ==> r.Threw? && r.exception.NullPointer? && binder == null && field == old(field)
      ensures old(binder) != null ==> r == Returned(()) && binder == null && field == null
      ensures old(field) != null ==>
                old(field).value == old(field.value) && old(field).readOnly == old(field.readOnly)
                && old(field).requiredIndicatorVisible == old(field.requiredIndicatorVisible)
      ensures value == old(value) && readOnly == old(readOnly)
      ensures Valid()
    {
      if field != null && field.listener == this {
        field.listener := null;
      }
      if binder == null {
        return Threw(NullPointer("binder"));
      }
      binder := null;
      field := null;
      r := Returned(());
    }

    /**
     * `initFieldValue`: show the value in the field through the chain. The
     * change event this causes reaches the binding's own listener while
     * `valueInit` is set, and so is ignored.
     */
    method InitFieldValue(v: Value)
      requires Valid() && field != null && !valueInit
      modifies this`valueInit, field`value
      ensures !valueInit
      ensures field.value == Chain().toPresentation(v)
    {
      valueInit := true;
      var presentation := Chain().toPresentation(v);
      var previous := field.value;
      var changed := field.SetValue(presentation);
      if changed && field.listener == this {
        var _ := HandleFieldValueChange(ValueChange(previous, presentation));
      }
      valueInit := false;
    }

    /**
     * `handleFieldValueChange`: ignored while the initial value is pushed or
     * once unbound; otherwise the binder writes the value if valid and,
     * unless its handler threw, the change event goes to the binder's value
     * change listeners.
     */
    method HandleFieldValueChange(e: Event) returns (r: Try<()>)
      requires Valid()
      requires !valueInit && binder != null ==> binder.Valid()
      modifies if valueInit || binder == null then {} else binder.Targets(this)
      ensures binder == old(binder) && field == old(field) && readOnly == old(readOnly) && valueInit == old(valueInit)
      ensures old(valueInit) || old(binder) == null ==> r == Returned(())
      ensures !old(valueInit) && binder != null ==>
                unchanged(binder`binding, binder`initialConverters, binder`listeners, binder`nextToken)
                && unchanged(binder`statusLabel, binder`statusHandler)
      ensures !old(valueInit) && old(binder) != null ==>
                var s := BinderStatus(binder, old(Status()));
                binder.Valid() && binder.changedBinding == this
                && r == old(binder.HandlerOutcome(s))
                && value == (if !s.HasError() && !readOnly then old(Conversion()).OkValue() else old(value))
                && HandlerApplied(s, old(binder.GetValidationStatusHandler()), old(field), old(binder.statusLabel))
                && (r.Threw? ==> binder.log == old(binder.log) + old(binder.HandlerNotices(s)))
                && (r.Returned? ==>
                      binder.log == old(binder.log) + old(binder.HandlerNotices(s))
                                    + binder.Deliveries(StatusChange(s.HasError())) + binder.Deliveries(e))
    {
      r := Returned(());
      if valueInit || binder == null {
        return;
      }
      var written := binder.HandleFieldValueChange(this);
      if written.Threw? {
        return Threw(written.exception);
      }
      binder.FireEvent(e);
    }

    /**
     * `writeFieldValue`: convert again and, unless read-only, commit a
     * successful conversion to the buffer.
     */
    method WriteFieldValue() returns (s: BindingStatus<Binding>)
      requires field != null
      modifies this`value
      ensures s == old(Status())
      ensures value == if !s.IsError() && !readOnly then old(Conversion()).OkValue() else old(value)
    {
      var result := Conversion();
      if !readOnly && !result.IsError() {
        value := result.OkValue();
      }
      s := BindingStatus(result, this);
    }

    /** `setReadOnly`: the flag is stored before the field is reached, which fails once unbound. */
    method SetReadOnly(ro: bool) returns (r: Try<()>)
      modifies this`readOnly, if field == null then {} else {field}
      ensures readOnly == ro
      ensures old(field) == null ==> r.Threw? && r.exception.NullPointer?
      ensures old(field) != null ==>
                r == Returned(()) && field.readOnly == ro
                && field.value == old(field.value) && field.listener == old(field.listener)
                && field.requiredIndicatorVisible == old(field.requiredIndicatorVisible)
    {
      readOnly := ro;
      if field == null {
        return Threw(NullPointer("field"));
      }
      field.readOnly := ro;
      r := Returned(());
    }

    /** `getValue`: the buffered value. */
    function GetValue(): Value
      reads this`value
    {
      value
    }

    /** `isReadOnly`: the stored flag, kept after unbinding. */
    function IsReadOnly(): bool
      reads this`readOnly
    {
      readOnly
    }

    /** `getValidationStatusHandler`. */
    function GetValidationStatusHandler(): BindingHandler
    {
      statusHandler
    }
  }

  /**
   * A user edit of the field: the field stores the value and, when it
   * changed, its value change listener (the binding bound to it) handles the
   * change, writing the converted value to the buffer when valid. An
   * exception from the listener reaches the caller of `setValue`.
   */
  method EditField(field: Field, v: Value) returns (r: Try<()>)
    requires field.listener != null ==>
               field.listener.Valid() && field.listener.field == field && !field.listener.valueInit
               && field.listener.binder.Valid()
    modifies field`value, if field.listener == null then {} else field.listener.binder.Targets(field.listener)
    ensures field.value == v && field.listener == old(field.listener)
    ensures old(field.listener) == null || old(field.value) == v ==> r == Returned(())
    ensures old(field.listener) != null && old(field.value) != v ==>
              var b := field.listener;
              b.binder == old(b.binder) && b.binder.changedBinding == b
              && b.value == (if b.Chain().toModel(v).IsError() || b.readOnly then old(b.value) else b.Chain().toModel(v).OkValue())
    ensures old(field.listener) != null && old(field.value) != v ==>
              var b := field.listener;
              r == old(b.binder.HandlerOutcome(BinderStatus(b.binder, BindingStatus(b.Chain().toModel(v), b))))
    ensures old(field.listener) != null && old(field.value) != v && r.Threw? ==>
              var b := field.listener;
              b.binder.log == old(b.binder.log) + old(b.binder.HandlerNotices(BinderStatus(b.binder, BindingStatus(b.Chain().toModel(v), b))))
    ensures old(field.listener) != null && old(field.value) != v && r.Returned? ==>
              var b := field.listener;
              b.binder.log == old(b.binder.log) + old(b.binder.HandlerNotices(BinderStatus(b.binder, BindingStatus(b.Chain().toModel(v), b))))
                              + b.binder.Deliveries(StatusChange(b.Chain().toModel(v).IsError()))
                              + b.binder.Deliveries(ValueChange(old(field.value), v))
    ensures old(field.value) == v && field.listener != null ==> unchanged(field.listener)
    ensures field.listener != null ==>
              var b := field.listener;
              b.Valid() && b.field == field && !b.valueInit && b.readOnly == old(b.readOnly)
              && b.binder == old(b.binder) && b.binder.Valid()
              && b.binder.statusLabel == old(b.binder.statusLabel) && b.binder.statusHandler == old(b.binder.statusHandler)
  {
    r := Returned(());
    var previous := field.value;
    var changed := field.SetValue(v);
    if changed && field.listener != null {
      var b: Binding := field.listener;
      ghost var s := BinderStatus(b.binder, BindingStatus(b.Chain().toModel(v), b));
      assert BinderStatus(b.binder, b.Status()) == s;
      assert field !in b.binder.Targets(b);
      r := b.HandleFieldValueChange(ValueChange(previous, v));
    }
  }

  /**
   * `bind(value)` on a new binder for the field, then `setReadOnly(true)`:
   * the binding is the field's listener, holds the value and is read-only.
   */
  method BindReadOnly(field: Field, value: Value) returns (r: Try<Binding>)
    modifies field, DisplayOf(field)
    ensures value != Null <==> r.Returned?
    ensures r.Returned? ==>
              var b := r.value;
              b.value == value && b.readOnly && field.readOnly && field.listener == b
              && b.Valid() && b.field == field && !b.valueInit && b.binder.Valid()
              && b.statusHandler == DefaultBindingHandler && b.binder.statusLabel == null
              && fresh(b) && fresh(b.binder)
  {
    var binder, builder := Engine.Of(field);
    r := builder.Bind(value);
    if r.Threw? {
      return;
    }
    var _ := r.value.SetReadOnly(true);
  }

  /**
   * A read-only binding keeps its buffer: after `bind(value)` and
   * `setReadOnly(true)`, user edits reach the field but never what
   * `getValue` returns, whether or not the binder's handler throws.
   */
  method ReadOnlyBindingKeepsBuffer(field: Field, value: Value, v1: Value, v2: Value) returns (r: Try<Binding>)
    modifies field, DisplayOf(field)
    ensures value != Null <==> r.Returned?
    ensures r.Returned? ==> r.value.readOnly && field.readOnly && field.value == v2 && r.value.value == value
  {
    r := BindReadOnly(field, value);
    if r.Threw? {
      return;
    }
    var _ := EditField(field, v1);
    var _ := EditField(field, v2);
  }

  /**
   * On a chain of validators after the adapter, a value the `k`-th validator
   * is the first to reject makes the binding fail with that validator's
   * message, and that very result is what the field shows.
   */
  lemma FirstFailingValidatorShown(first: Converter, validators: seq<Validator>, x: Value, k: nat, b: Binding)
    requires first.toModel(x) == Plain(Ok(x))
    requires FirstFailure(validators, x, k)
    ensures var status := BindingStatus(Pipeline(first, ValidatorStages(validators)).toModel(x), b);
            status.IsError()
            && ShownResult(status) == Some(validators[k](x))
            && StatusLabelText(status) == validators[k](x).message
  {
    ValidatorChainFails(first, validators, x, k);
    var status := BindingStatus(Pipeline(first, ValidatorStages(validators)).toModel(x), b);
    var results := status.ValidationResults();
    assert results == Results(validators, k + 1, x);
    var p := (v: ValidationResult) => v.IsError();
    var i := FirstIndex(results, p);
    assert p(results[k]);
    assert i == k;
  }

  /**
   * On a chain of validators after the adapter, a value every validator
   * accepts passes unchanged, and the field shows the first warning or info
   * among the results, if any.
   */
  lemma PassingValidatorsShowFirstNotice(first: Converter, validators: seq<Validator>, x: Value, b: Binding)
    requires first.toModel(x) == Plain(Ok(x))
    requires |validators| > 0 && PassUpTo(validators, |validators|, x)
    ensures var status := BindingStatus(Pipeline(first, ValidatorStages(validators)).toModel(x), b);
            !status.IsError()
            && status.result.OkValue() == x
            && ShownResult(status) == FindFirst(Results(validators, |validators|, x), (v: ValidationResult) => v.GetErrorLevel().Some?)
  {
    ValidatorChainPasses(first, validators, x);
  }

  /**
   * The effect of handing `s` to a binder level `handler` on the error
   * display of the binding's `field` and on the labels, `engineLabel` being
   * the binder's status label. The default binder handler first runs the
   * binding's handler and then writes the binder's status label, except on an
   * ok status, where reading the field error throws first and that label
   * keeps its text; a custom one changes none of them.
   */
  twostate predicate HandlerApplied(s: BinderStatus<Engine, Binding>, handler: EngineHandler, field: Field?, engineLabel: Label?)
    reads DisplayOf(field), LabelOf(s.bindingStatus.binding.statusHandler), if engineLabel == null then {} else {engineLabel}
  {
    var h := s.bindingStatus.binding.statusHandler;
    var bs := s.bindingStatus;
    var custom := handler.CustomEngineHandler?;
    var written := EngineLabelTextAsWritten(s);
    && (field != null && field.display != null ==>
          var d := field.display;
          if !custom && h.DefaultBindingHandler? then
            d.invalid == ShownResult(bs).Some?
            && d.errorMessage == (if ShownResult(bs).Some? then ShownResult(bs).value.message else old(d.errorMessage))
          else
            d.invalid == old(d.invalid) && d.errorMessage == old(d.errorMessage))
    && (h.StatusLabelHandler? ==>
          var l := h.target;
          if custom then
            l.text == old(l.text) && l.visible == old(l.visible)
          else
            l.visible == bs.IsError()
            && l.text == (if l == engineLabel && written.Returned? then written.value else StatusLabelText(bs)))
    && (engineLabel != null ==>
          if custom then
            engineLabel.text == old(engineLabel.text) && engineLabel.visible == old(engineLabel.visible)
          else
            var aliased := h.StatusLabelHandler? && h.target == engineLabel;
            engineLabel.text ==
              (if written.Returned? then written.value else if aliased then StatusLabelText(bs) else old(engineLabel.text))
            && (aliased || engineLabel.visible == old(engineLabel.visible)))
  }

  /**
   * `FieldBinder` itself: its one binding, the adapters it created per
   * field, its listeners, its status label and handler, and the record of
   * observable callbacks.
   */
  class Engine {
    var binding: Binding?
    var changedBinding: Binding?
    var initialConverters: map<Field, ConverterDelegate>
    var listeners: map<EventKind, seq<ListenerEntry>>
    var nextToken: nat
    var statusLabel: Label?
    /** The identifier of a custom binder level handler, if one was set. */
    var statusHandler: Option<nat>
    var log: seq<Notice>

    /**
     * A status label and a custom handler exclude each other, and every
     * registration token was handed out before.
     */
    ghost predicate Valid()
      reads this`statusHandler, this`statusLabel, this`listeners, this`nextToken
    {
      && (statusHandler.None? || statusLabel == null)
      && forall k :: k in listeners ==> forall t :: t in Tokens(listeners[k]) ==> t < nextToken
    }

    constructor ()
      ensures Valid()
      ensures binding == null && changedBinding == null && initialConverters == map[] && listeners == map[]
      ensures statusLabel == null && statusHandler == None && log == []
    {
      binding := null;
      changedBinding := null;
      initialConverters := map[];
      listeners := map[];
      nextToken := 0;
      statusLabel := null;
      statusHandler := None;
      log := [];
    }

    /** Everything a validation of binding `b` may change. */
    ghost function Targets(b: Binding): set<object>
      reads this, b
    {
      {this, b} + DisplayOf(b.field) + LabelOf(b.statusHandler) + (if statusLabel == null then {} else {statusLabel})
    }

    /** The listeners registered under `k`. */
    function ListenersOf(k: EventKind): (r: seq<ListenerEntry>)
      reads this`listeners
      ensures k !in listeners ==> r == []
    {
      if k in listeners then listeners[k] else []
    }

    /**
     * The listeners `fireEvent` hands `e` to: those under every key whose
     * class is assignable from the event's. No key admits the binder's own
     * status change event.
     */
    function Matching(e: Event): (r: seq<ListenerEntry>)
      reads this`listeners
      ensures e.StatusChange? ==> r == []
      ensures e.ValueChange? ==> r == ListenersOf(ValueChangeKind)
    {
      (if ReceivesAsWritten(StatusChangeKind, e) then ListenersOf(StatusChangeKind) else [])
        + (if ReceivesAsWritten(ValueChangeKind, e) then ListenersOf(ValueChangeKind) else [])
    }

    /** The notices of firing `e`. */
    function Deliveries(e: Event): (r: seq<Notice>)
      reads this`listeners
      ensures e.StatusChange? ==> r == []
      ensures e.ValueChange? ==> |r| == |ListenersOf(ValueChangeKind)|
    {
      NoticesFor(Matching(e), e)
    }

    /** `getValidationStatusHandler`: the custom handler, or the default one. */
    function GetValidationStatusHandler(): (h: EngineHandler)
      reads this`statusHandler
      ensures h.CustomEngineHandler? <==> statusHandler.Some?
      ensures statusHandler.Some? ==> h == CustomEngineHandler(statusHandler.value)
    {
      match statusHandler
      case Some(id) => CustomEngineHandler(id)
      case None => DefaultEngineHandler
    }

    /** The notices that handing `s` to the binder's handler adds. */
    function HandlerNotices(s: BinderStatus<Engine, Binding>): (r: seq<Notice>)
      reads this`statusHandler
      ensures |r| <= 1
    {
      match GetValidationStatusHandler()
      case CustomEngineHandler(id) => [EngineHandlerCalled(id, s)]
      case DefaultEngineHandler =>
        match s.bindingStatus.binding.statusHandler
        case CustomBindingHandler(id) => [BindingHandlerCalled(id, s.bindingStatus)]
        case _ => []
    }

    /**
     * How handing `s` to the binder's handler ends: the default handler
     * throws while filling a set status label for an ok status.
     */
    function HandlerOutcome(s: BinderStatus<Engine, Binding>): (r: Try<()>)
      reads this`statusHandler, this`statusLabel
      ensures r.Threw? <==> statusHandler.None? && statusLabel != null && s.IsOk()
      ensures r.Threw? ==> r.exception.NullPointer?
    {
      if statusHandler.Some? || statusLabel == null then Returned(())
      else
        match EngineLabelTextAsWritten(s)
        case Threw(e) => Threw(e)
        case Returned(_) => Returned(())
    }

    /** `fireEvent`: hand the event to every matching listener, in registration order. */
    method FireEvent(e: Event)
      modifies this`log
      ensures log == old(log) + Deliveries(e)
    {
      var entries := Matching(e);
      var i := 0;
      while i < |entries|
        invariant 0 <= i <= |entries|
        invariant log == old(log) + NoticesFor(entries[..i], e)
      {
        log := log + [ListenerCalled(entries[i].listener, e)];
        i := i + 1;
        assert entries[..i] == entries[..i - 1] + [entries[i - 1]];
      }
      assert entries[..i] == entries;
    }

    /**
     * `fireStatusChangeEvent`: fire the binder's status change event, which
     * no listener key admits, so no listener is called.
     */
    method FireStatusChangeEvent(hasValidationErrors: bool)
      modifies this`log
      ensures log == old(log) + Deliveries(StatusChange(hasValidationErrors))
      ensures log == old(log)
    {
      FireEvent(StatusChange(hasValidationErrors));
    }

    /** `clearError`: a field with validation is marked valid; its message stays. */
    method ClearError(field: Field?)
      modifies DisplayOf(field)
      ensures field != null && field.display != null ==>
                !field.display.invalid && field.display.errorMessage == old(field.display.errorMessage)
    {
      if field != null && field.display != null {
        field.display.invalid := false;
      }
    }

    /** `handleError`: a result with an error level marks a field with validation invalid with its message. */
    method HandleError(field: Field?, result: ValidationResult)
      modifies DisplayOf(field)
      ensures field != null && field.display != null && result.Problem? ==>
                field.display.invalid && field.display.errorMessage == result.message
      ensures field != null && field.display != null && result.Pass? ==>
                field.display.invalid == old(field.display.invalid) && field.display.errorMessage == old(field.display.errorMessage)
    {
      if result.GetErrorLevel().Some? && field != null && field.display != null {
        field.display.invalid := true;
        field.display.errorMessage := result.message;
      }
    }

    /**
     * `handleValidationStatus`, the default binding handler: clear the
     * field's error, then show the result `ShownResult` picks.
     */
    method HandleValidationStatus(status: BindingStatus<Binding>)
      modifies DisplayOf(status.binding.field)
      ensures var f := status.binding.field;
              f != null && f.display != null ==>
                f.display.invalid == ShownResult(status).Some?
                && f.display.errorMessage ==
                     (if ShownResult(status).Some? then ShownResult(status).value.message else old(f.display.errorMessage))
    {
      var source := status.binding.field;
      ClearError(source);
      var shown := ShownResult(status);
      if shown.Some? {
        HandleError(source, shown.value);
      }
    }

    /** Run the binding's own status handler on its status. */
    method CallBindingHandler(status: BindingStatus<Binding>)
      modifies this`log, DisplayOf(status.binding.field), LabelOf(status.binding.statusHandler)
      ensures var h := status.binding.statusHandler;
              && (h.CustomBindingHandler? ==> log == old(log) + [BindingHandlerCalled(h.id, status)])
              && (!h.CustomBindingHandler? ==> log == old(log))
              && (h.StatusLabelHandler? ==> h.target.text == StatusLabelText(status) && h.target.visible == status.IsError())
      ensures var f := status.binding.field;
              f != null && f.display != null ==>
                if status.binding.statusHandler.DefaultBindingHandler? then
                  f.display.invalid == ShownResult(status).Some?
                  && f.display.errorMessage ==
                       (if ShownResult(status).Some? then ShownResult(status).value.message else old(f.display.errorMessage))
                else
                  f.display.invalid == old(f.display.invalid) && f.display.errorMessage == old(f.display.errorMessage)
    {
      match status.binding.statusHandler
      case DefaultBindingHandler =>
        HandleValidationStatus(status);
      case StatusLabelHandler(target) =>
        target.text := StatusLabelText(status);
        target.visible := status.IsError();
      case CustomBindingHandler(id) =>
        log := log + [BindingHandlerCalled(id, status)];
    }

    /**
     * `handleBinderValidationStatus`, the default binder handler: notify
     * the binding's handler, then show the failed binding's message in the
     * status label. On an ok status with a label set, reading the field
     * error throws before the label is written.
     */
    method HandleBinderValidationStatus(s: BinderStatus<Engine, Binding>) returns (r: Try<()>)
      requires statusHandler.None?
      modifies this`log, DisplayOf(s.bindingStatus.binding.field), LabelOf(s.bindingStatus.binding.statusHandler),
               if statusLabel == null then {} else {statusLabel}
      ensures r == old(HandlerOutcome(s))
      ensures HandlerApplied(s, old(GetValidationStatusHandler()), old(s.bindingStatus.binding.field), old(statusLabel))
      ensures log == old(log) + old(HandlerNotices(s))
    {
      CallBindingHandler(s.bindingStatus);
      r := Returned(());
      if statusLabel != null {
        var text := EngineLabelTextAsWritten(s);
        if text.Threw? {
          return Threw(text.exception);
        }
        statusLabel.text := text.value;
      }
    }

    /** Hand `s` to the binder's validation status handler. */
    method CallEngineHandler(s: BinderStatus<Engine, Binding>) returns (r: Try<()>)
      modifies Targets(s.bindingStatus.binding)
      ensures r == old(HandlerOutcome(s))
      ensures HandlerApplied(s, old(GetValidationStatusHandler()), old(s.bindingStatus.binding.field), old(statusLabel))
      ensures log == old(log) + old(HandlerNotices(s))
      ensures unchanged(this`binding, this`changedBinding, this`initialConverters, this`listeners, this`nextToken)
      ensures unchanged(this`statusLabel, this`statusHandler)
      ensures unchanged(s.bindingStatus.binding)
    {
      match GetValidationStatusHandler()
      case CustomEngineHandler(id) =>
        log := log + [EngineHandlerCalled(id, s)];
        r := Returned(());
      case DefaultEngineHandler =>
        r := HandleBinderValidationStatus(s);
    }

    /**
     * Hand `s` to the binder's handler and, unless that threw, fire a
     * status change event: the common tail of both `validate`s and of
     * `doWriteIfValid`.
     */
    method ReportStatus(s: BinderStatus<Engine, Binding>, hasValidationErrors: bool) returns (r: Try<()>)
      modifies Targets(s.bindingStatus.binding)
      ensures r == old(HandlerOutcome(s))
      ensures HandlerApplied(s, old(GetValidationStatusHandler()), old(s.bindingStatus.binding.field), old(statusLabel))
      ensures r.Threw? ==> log == old(log) + old(HandlerNotices(s))
      ensures r.Returned? ==> log == old(log) + old(HandlerNotices(s)) + Deliveries(StatusChange(hasValidationErrors))
      ensures unchanged(this`binding, this`changedBinding, this`initialConverters, this`listeners, this`nextToken)
      ensures unchanged(this`statusLabel, this`statusHandler)
      ensures unchanged(s.bindingStatus.binding)
    {
      r := CallEngineHandler(s);
      if r.Returned? {
        FireStatusChangeEvent(hasValidationErrors);
      }
    }

    /**
     * `doWriteIfValid`: validate without events, commit the value when the
     * binding is valid, then hand the status to the binder's handler and,
     * unless the handler threw, fire a status change event.
     */
    method DoWriteIfValid(b: Binding) returns (r: Try<BinderStatus<Engine, Binding>>)
      requires Valid() && b.Valid() && b.binder == this
      modifies Targets(b)
      ensures Valid()
      ensures b.binder == old(b.binder) && b.field == old(b.field)
      ensures var s := BinderStatus(this, old(b.Status()));
              && r == old(HandlerOutcome(s)).Then(s)
              && b.value == (if !s.HasError() && !b.readOnly then old(b.Conversion()).OkValue() else old(b.value))
              && HandlerApplied(s, old(GetValidationStatusHandler()), old(b.field), old(statusLabel))
              && (r.Threw? ==> log == old(log) + old(HandlerNotices(s)))
              && (r.Returned? ==> log == old(log) + old(HandlerNotices(s)) + Deliveries(StatusChange(s.HasError())))
      ensures unchanged(this`binding, this`changedBinding, this`initialConverters, this`listeners, this`nextToken)
      ensures unchanged(this`statusLabel, this`statusHandler, b`readOnly, b`valueInit)
    {
      var validated := b.Validate(false);
      var bindingResult := validated.value;
      if !bindingResult.IsError() {
        var _ := b.WriteFieldValue();
      }
      var s := BinderStatus(this, bindingResult);
      var outcome := ReportStatus(s, !s.IsOk());
      r := outcome.Then(s);
    }

    /** `handleFieldValueChange`: remember the binding as changed and write it if valid. */
    method HandleFieldValueChange(b: Binding) returns (r: Try<BinderStatus<Engine, Binding>>)
      requires Valid() && b.Valid() && b.binder == this
      modifies Targets(b)
      ensures Valid() && changedBinding == b
      ensures b.binder == old(b.binder) && b.field == old(b.field)
      ensures var s := BinderStatus(this, old(b.Status()));
              && r == old(HandlerOutcome(s)).Then(s)
              && b.value == (if !s.HasError() && !b.readOnly then old(b.Conversion()).OkValue() else old(b.value))
              && HandlerApplied(s, old(GetValidationStatusHandler()), old(b.field), old(statusLabel))
              && (r.Threw? ==> log == old(log) + old(HandlerNotices(s)))
              && (r.Returned? ==> log == old(log) + old(HandlerNotices(s)) + Deliveries(StatusChange(s.HasError())))
      ensures unchanged(this`binding, this`initialConverters, this`listeners, this`nextToken)
      ensures unchanged(this`statusLabel, this`statusHandler, b`readOnly, b`valueInit)
    {
      changedBinding := b;
      r := DoWriteIfValid(changedBinding);
    }

    /**
     * `createNullRepresentationAdapter`: a new adapter showing null as the
     * field's empty value, remembered as this field's adapter.
     */
    method CreateNullRepresentationAdapter(field: Field) returns (adapter: ConverterDelegate)
      modifies this`initialConverters
      ensures fresh(adapter)
      ensures adapter.delegate == Some(NullRepresentationAdapter(field.emptyValue))
      ensures initialConverters == old(initialConverters)[field := adapter]
    {
      adapter := new ConverterDelegate(NullRepresentationAdapter(field.emptyValue));
      initialConverters := initialConverters[field := adapter];
    }

    /**
     * `forField`: clear the field's error and the status label, and start a
     * builder whose chain is a fresh null-representation adapter followed
     * by the field's default validator.
     */
    method ForField(field: Field) returns (builder: BindingBuilder)
      requires Valid()
      modifies this`initialConverters, DisplayOf(field), if statusLabel == null then {} else {statusLabel}
      ensures Valid()
      ensures fresh(builder) && fresh(builder.adapter)
      ensures builder.binder == this && builder.field == field && builder.statusHandler == DefaultBindingHandler
      ensures !builder.bound && !builder.isStatusHandlerChanged
      ensures builder.adapter.delegate == Some(NullRepresentationAdapter(field.emptyValue))
      ensures builder.stages == [ValidatorAsConverter(DefaultValidator(field))]
      ensures initialConverters == old(initialConverters)[field := builder.adapter]
      ensures field.display != null ==> !field.display.invalid && field.display.errorMessage == old(field.display.errorMessage)
      ensures statusLabel != null ==> statusLabel.text == "" && statusLabel.visible == old(statusLabel.visible)
    {
      ClearError(field);
      if statusLabel != null {
        statusLabel.text := "";
      }
      var adapter := CreateNullRepresentationAdapter(field);
      builder := new BindingBuilder(this, field, adapter, DefaultBindingHandler);
      var _ := builder.WithValidator(DefaultValidator(field));
    }

    /** `of`: a new binder and its builder for the field. */
    static method Of(field: Field) returns (binder: Engine, builder: BindingBuilder)
      modifies DisplayOf(field)
      ensures fresh(binder) && binder.Valid() && fresh(builder) && fresh(builder.adapter)
      ensures binder.binding == null && binder.initialConverters == map[field := builder.adapter]
      ensures binder.statusLabel == null && binder.statusHandler == None
      ensures builder.binder == binder && builder.field == field && builder.statusHandler == DefaultBindingHandler
      ensures !builder.bound && !builder.isStatusHandlerChanged
      ensures builder.adapter.delegate == Some(NullRepresentationAdapter(field.emptyValue))
      ensures builder.stages == [ValidatorAsConverter(DefaultValidator(field))]
      ensures field.display != null ==> !field.display.invalid
    {
      binder := new Engine();
      builder := binder.ForField(field);
    }

    /**
     * The status `validate` computes: fails when there is no bound field,
     * otherwise the binding's status. The binder level validator list is
     * never filled, so the status is always built.
     */
    function ValidationStatus(): (r: Try<BinderStatus<Engine, Binding>>)
      reads this`binding, if binding == null then {} else {binding}
      reads if binding == null || binding.field == null then {} else {binding.field, binding.adapter}
      ensures r.Threw? <==> binding == null || binding.field == null
      ensures r.Threw? ==> r.exception.NullPointer?
      ensures r.Returned? ==>
                r.value.binder == this && r.value.bindingStatus.binding == binding
                && (r.value.HasError() <==> binding.Conversion().IsError())
    {
      if binding == null || binding.field == null then Threw(NullPointer("field"))
      else Returned(BinderStatus(this, binding.Status()))
    }

    /**
     * `validate(fireEvent)`: validate the binding and, when asked to, hand
     * the status to the binder's handler and, unless that threw, fire a
     * status change event.
     */
    method Validate(fireEvent: bool) returns (r: Try<BinderStatus<Engine, Binding>>)
      requires Valid()
      modifies if fireEvent && binding != null then Targets(binding) else {}
      ensures Valid()
      ensures unchanged(this`binding, this`changedBinding, this`initialConverters, this`listeners, this`nextToken)
      ensures unchanged(this`statusLabel, this`statusHandler)
      ensures binding != null ==> unchanged(binding)
      ensures old(ValidationStatus()).Threw? || !fireEvent ==> r == old(ValidationStatus())
      ensures old(ValidationStatus()).Returned? && fireEvent ==>
                var s := old(ValidationStatus()).value;
                r == old(HandlerOutcome(s)).Then(s)
                && HandlerApplied(s, old(GetValidationStatusHandler()), old(binding.field), old(statusLabel))
                && (r.Threw? ==> log == old(log) + old(HandlerNotices(s)))
                && (r.Returned? ==> log == old(log) + old(HandlerNotices(s)) + Deliveries(StatusChange(s.HasError())))
    {
      r := ValidationStatus();
      if r.Returned? && fireEvent {
        var s := r.value;
        var outcome := ReportStatus(s, s.HasError());
        r := outcome.Then(s);
      }
    }

    /** `isValid`: validation without handlers or events. */
    function IsValid(): (r: Try<bool>)
      reads this`binding, if binding == null then {} else {binding}
      reads if binding == null || binding.field == null then {} else {binding.field, binding.adapter}
      ensures r.Threw? <==> binding == null || binding.field == null
      ensures r.Returned? ==> (r.value <==> !binding.Conversion().IsError())
    {
      match ValidationStatus()
      case Threw(e) => Threw(e)
      case Returned(s) => Returned(s.IsOk())
    }

    /** `hasChanges`: whether a field change was ever handled; it is never reset. */
    function HasChanges(): (r: bool)
      reads this`changedBinding
    {
      changedBinding != null
    }

    /** `getValue`: the buffered value of the binding, even after it was unbound. */
    function GetValue(): Try<Value>
      reads this`binding, if binding == null then {} else {binding}
    {
      if binding == null then Threw(NullPointer("binding")) else Returned(binding.value)
    }

    /** `getField`: the binding's field, null once unbound. */
    function GetField(): Try<Field?>
      reads this`binding, if binding == null then {} else {binding}
    {
      if binding == null then Threw(NullPointer("binding")) else Returned(binding.field)
    }

    /** `getStatusLabel`. */
    function GetStatusLabel(): Option<Label>
      reads this`statusLabel
    {
      if statusLabel == null then None else Some(statusLabel)
    }

    /** `setValidationStatusHandler`: refused once a status label is set. */
    method SetValidationStatusHandler(id: nat) returns (r: Try<()>)
      requires Valid()
      modifies this`statusHandler
      ensures Valid()
      ensures old(statusLabel) != null ==>
                r == Threw(IllegalState("Cannot set FieldBinderValidationStatusHandler if a status label has already been set."))
                && statusHandler == old(statusHandler)
      ensures old(statusLabel) == null ==> r == Returned(()) && statusHandler == Some(id)
    {
      if statusLabel != null {
        return Threw(IllegalState("Cannot set FieldBinderValidationStatusHandler if a status label has already been set."));
      }
      statusHandler := Some(id);
      r := Returned(());
    }

    /** `setStatusLabel`: refused once a custom handler is set. */
    method SetStatusLabel(target: Label?) returns (r: Try<()>)
      requires Valid()
      modifies this`statusLabel
      ensures Valid()
      ensures old(statusHandler).Some? ==>
                r == Threw(IllegalState("Cannot set status label if a FieldBinderValidationStatusHandler has already been set."))
                && statusLabel == old(statusLabel)
      ensures old(statusHandler).None? ==> r == Returned(()) && statusLabel == target
    {
      if statusHandler.Some? {
        return Threw(IllegalState("Cannot set status label if a FieldBinderValidationStatusHandler has already been set."));
      }
      statusLabel := target;
      r := Returned(());
    }

    /**
     * `removeBinding(field)`: unbind when the field is the binding's. The
     * binder keeps its reference to the binding.
     */
    method RemoveBindingOfField(field: Field) returns (r: Try<()>)
      requires binding != null ==> binding.Valid()
      modifies if binding == null then {} else {binding}, if binding == null || binding.field == null then {} else {binding.field}
      ensures binding == old(binding)
      ensures old(binding) == null ==> r.Threw? && r.exception.NullPointer?
      ensures old(binding) != null && old(binding.field) != field ==>
                r == Threw(IllegalArgument("Provided Field is not in this Binder")) && binding.field == old(binding.field)
      ensures old(binding) != null && old(binding.field) == field ==>
                r == Returned(()) && binding.binder == null && binding.field == null
                && (old(field.listener) == binding ==> field.listener == null)
                && (old(field.listener) != binding ==> field.listener == old(field.listener))
                && field.value == old(field.value) && field.readOnly == old(field.readOnly)
    ensures binding != null ==> binding.value == old(binding.value) && binding.readOnly == old(binding.readOnly)
    {
      if binding == null {
        return Threw(NullPointer("binding"));
      }
      if binding.field != field {
        return Threw(IllegalArgument("Provided Field is not in this Binder"));
      }
      r := binding.Unbind();
    }

    /**
     * `removeBinding(binding)`: unbind when it is this binder's binding; a
     * second removal fails inside `unbind`.
     */
    method RemoveBinding(b: Binding) returns (r: Try<()>)
      requires b.Valid()
      modifies if binding != b then {} else {b}, if binding != b || b.field == null then {} else {b.field}
      ensures binding == old(binding)
      ensures old(binding) != b ==> r == Threw(IllegalArgument("Provided Binding is not in this Binder"))
      ensures old(binding) == b && old(b.binder) == null ==> r.Threw? && r.exception.NullPointer?
      ensures old(binding) == b && old(b.binder) != null ==> r == Returned(()) && b.binder == null && b.field == null
      ensures old(binding) == b && old(b.field) != null ==>
                var f := old(b.field);
                (old(f.listener) == b ==> f.listener == null)
                && (old(f.listener) != b ==> f.listener == old(f.listener))
                && f.value == old(f.value) && f.readOnly == old(f.readOnly)
      ensures b.value == old(b.value) && b.readOnly == old(b.readOnly)
    {
      if binding != b {
        return Threw(IllegalArgument("Provided Binding is not in this Binder"));
      }
      r := b.Unbind();
    }

    /**
     * `addListener`: append the listener under its event type; the returned
     * token is what the registration removes.
     */
    method AddListener(kind: EventKind, listener: nat) returns (token: nat)
      requires Valid()
      modifies this`listeners, this`nextToken
      ensures Valid()
      ensures token == old(nextToken) && token !in Tokens(old(ListenersOf(kind)))
      ensures listeners == old(listeners)[kind := old(ListenersOf(kind)) + [ListenerEntry(token, listener)]]
    {
      token := nextToken;
      var current := ListenersOf(kind);
      var entries := current + [ListenerEntry(token, listener)];
      assert forall i :: 0 <= i < |entries| ==> entries[i].token <= token by {
        assert forall i :: 0 <= i < |current| ==> entries[i] == current[i] && current[i].token in Tokens(current);
      }
      listeners := listeners[kind := entries];
      nextToken := nextToken + 1;
    }

    /** `addStatusChangeListener`. */
    method AddStatusChangeListener(listener: nat) returns (token: nat)
      requires Valid()
      modifies this`listeners, this`nextToken
      ensures Valid()
      ensures token == old(nextToken)
      ensures listeners == old(listeners)[StatusChangeKind := old(ListenersOf(StatusChangeKind)) + [ListenerEntry(token, listener)]]
    {
      token := AddListener(StatusChangeKind, listener);
    }

    /** `addValueChangeListener`. */
    method AddValueChangeListener(listener: nat) returns (token: nat)
      requires Valid()
      modifies this`listeners, this`nextToken
      ensures Valid()
      ensures token == old(nextToken)
      ensures listeners == old(listeners)[ValueChangeKind := old(ListenersOf(ValueChangeKind)) + [ListenerEntry(token, listener)]]
    {
      token := AddListener(ValueChangeKind, listener);
    }

    /** `Registration.remove`: drop the registration with this token. */
    method RemoveListener(kind: EventKind, token: nat)
      requires Valid()
      modifies this`listeners
      ensures Valid()
      ensures kind in old(listeners) ==> listeners == old(listeners)[kind := RemoveToken(old(listeners[kind]), token)]
      ensures kind !in old(listeners) ==> listeners == old(listeners)
    {
      if kind in listeners {
        listeners := listeners[kind := RemoveToken(listeners[kind], token)];
      }
    }
  }
}
