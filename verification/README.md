# field-binder-flow, modelled in Dafny

`FieldBinder` is a Vaadin Flow binder for a single field that needs no bean.
`forField(field)` (or the static `of(field)`) starts a binding builder.
The builder collects a converter and validator chain behind a
null-representation adapter, plus a status handler (the default one, a status
label, or a custom one). `bind(value)` creates the binding and shows the
value in the field through the chain. Each later change of the field value is
validated. A valid value is written to the binding's buffer (`getValue`).
The resulting status goes to the binder's status handler, and then a status
change event is fired, which as written reaches no listener (see below).
`FieldValidationResultWrap` is the `Result` that carries
every validation result of the chain. `FieldBinderValidationStatus` is the
binder-level status built from a binding's status.

The model has one module per concern:

- `Wrappers`: `Option`, and `Try` with the Java exceptions the core throws.
- `Library`: the Vaadin values the core consumes. These are field values,
  `ValidationResult` with its error levels, `Validator`, and plain results.
- `FieldValidationResultWrap`: `Result`, meaning plain results and the
  aggregating wrap, with `flatMap` and its laws.
- `Converters`: converters, `chain`, the validator stage, the null
  representations, and the behaviour of a chain of validators.
- `FieldBinderValidationStatus`: the binding status and the binder status.
- `BinderPolicy`: the stateless decisions. These are which result a field
  shows, what the status labels read, which listeners an event reaches, and
  registration tokens.
- `FieldBinder`: the mutable objects as classes. These are the field, its
  error display, labels, the adapter (`ConverterDelegate`), the builder
  (`BindingBuilder`), the binding (`Binding`) and the binder itself
  (`Engine`).

Custom handlers and listeners are identifiers. Calling one appends a `Notice`
to the binder's `log`, so the order of callbacks is part of every contract.
Field values are one dynamic `Value` type (null, text, number), since the
chain re-types values freely. Exceptions are results (`Try`).

Where the code and its documentation disagree, the model follows the code:

- No status change listener is ever called. The listeners are registered
  under Vaadin's `StatusChangeEvent`, which the binder's own status event is
  not an instance of (the second finding below).
- With a status label set and no custom binder handler, every valid value
  makes the handler throw a null pointer (the first finding below). The
  binding's handler has already run and the buffer has already been written,
  but the binder's label keeps its text and no status or value change event
  follows. The exception reaches whoever set the field value or called
  `validate`.
- The binder's `getValue` returns the buffer even after `unbind`, because the
  binder keeps its reference to the binding. `removeBindingInternal`
  (FieldBinder.java:1243-1245) only clears its parameter. For the same reason,
  a binder `validate` after `unbind` fails with a null pointer rather than
  reporting an unresolved status.
- `hasChanges` is never reset.
- Every `withConverter`, including `withNullRepresentation`, makes the
  adapter the binder holds for the field an identity. The adapter is looked up
  by field, so after a second `forField` on the same field it is the newer
  builder's adapter.
- A second `unbind` fails with a null pointer, after it has already removed
  the value change listener.
- `setReadOnly` on an unbound binding stores the flag and then fails.
- The binder's own validator list is never filled, so a binder status is
  always created.
- A read-only binding still reports a passing status, but keeps its buffer.
- A warning or info as the first non-passing result of a passing chain marks
  the field invalid, with that result's message.
- The class documentation (FieldBinder.java:46-47) allows rebinding, but
  `bind` never unbinds the earlier binding of the same field. That binding
  keeps listening to the field, so every later change is handled by both. The
  model does not capture this: a field has one listener (see "Left out").

## Model

| member | source | states |
|---|---|---|
| FieldValidationResultWrap.Result.GetMessage | src/main/java/org/vaadin/fieldbinder/FieldValidationResultWrap.java:76-78 | a message is present exactly when the result is an error, for wraps and plain results alike |
| FieldValidationResultWrap.Result.Handle | src/main/java/org/vaadin/fieldbinder/FieldValidationResultWrap.java:65-68 | exactly one consumer runs: the error consumer with the wrapped message on an error, otherwise the ok consumer with the value |
| FieldValidationResultWrap.Result.GetOrThrow | src/main/java/org/vaadin/fieldbinder/FieldValidationResultWrap.java:81-85 | returns the value exactly when not an error; otherwise throws what the provider makes of the message |
| FieldValidationResultWrap.Result.FlatMap | src/main/java/org/vaadin/fieldbinder/FieldValidationResultWrap.java:50-62 | an error is returned unchanged; otherwise the outcome is the mapper's. A wrap stays a wrap, and its list is kept as a prefix: carried over after a plain mapper result, or followed by the mapper's list after a wrap |
| FieldValidationResultWrap.PlainFlatMap | src/main/java/org/vaadin/fieldbinder/FieldValidationResultWrap.java:51 | the wrapped result's own flatMap: a short-circuit on an error, otherwise the mapper's result |
| FieldValidationResultWrap.FromValidation | src/main/java/org/vaadin/fieldbinder/FieldValidationResultWrap.java:31-39 | a wrap with the single validation result, failing with the result's message exactly when the result is an error, otherwise holding the value |
| FieldValidationResultWrap.FromValidationConsistent | src/main/java/org/vaadin/fieldbinder/FieldValidationResultWrap.java:31-39 | a passing single-result wrap holds no error entry |
| FieldValidationResultWrap.ErrorStateIgnoresList | src/main/java/org/vaadin/fieldbinder/FieldValidationResultWrap.java:71-78 | error state and message depend on the wrapped result only, never on the list |
| FieldValidationResultWrap.FlatMapConsistent | src/main/java/org/vaadin/fieldbinder/FieldValidationResultWrap.java:50-62 | flatMap keeps the invariant that a passing wrap holds no error entry |
| FieldValidationResultWrap.FlatMapAssociative | src/main/java/org/vaadin/fieldbinder/FieldValidationResultWrap.java:50-62 | flatMap is associative, lists included, so the way a chain is grouped does not matter |
| Converters.Identity | src/main/java/org/vaadin/fieldbinder/FieldBinder.java:1060-1075 | passes every value unchanged in both directions |
| Converters.From | src/main/java/org/vaadin/fieldbinder/FieldBinder.java:1149-1161 | a converter from two functions never fails towards the model |
| Converters.PipelineExtend | src/main/java/org/vaadin/fieldbinder/FieldBinder.java:575-576 | adding a stage to the builder chains it after the whole chain built so far |
| Converters.PipelineUpToExtend | src/main/java/org/vaadin/fieldbinder/FieldBinder.java:647-648 | a prefix of a chain is unaffected by a stage added at its end |
| Converters.UpToStep | src/main/java/org/vaadin/fieldbinder/FieldBinder.java:575-576 | each stage's model direction runs through flatMap on the previous stages' result |
| Converters.FailurePropagates | src/main/java/org/vaadin/fieldbinder/FieldBinder.java:874-878 | once a prefix of the chain fails, every longer prefix returns the same failure |
| Converters.ChainAssociative | src/main/java/org/vaadin/fieldbinder/FieldBinder.java:575-576 | chaining is associative in both directions |
| Converters.ChainRoundTrips | src/main/java/org/vaadin/fieldbinder/FieldBinder.java:926-931 | a chain of round-tripping converters round-trips: the model value of a shown value gives back the shown value |
| Converters.ValidatorAsConverter | src/main/java/org/vaadin/fieldbinder/FieldBinder.java:1015-1040 | the model direction wraps the validator's result over the unchanged input; the presentation direction is the identity |
| Converters.ValidatorAsConverterRoundTrips | src/main/java/org/vaadin/fieldbinder/FieldBinder.java:1015-1040 | a validator stage never changes a value it accepts |
| Converters.NullRepresentationAdapter | src/main/java/org/vaadin/fieldbinder/FieldBinder.java:1149-1161 | the identity towards the model; null is shown as the field's empty value, anything else unchanged |
| Converters.NullRepresentation | src/main/java/org/vaadin/fieldbinder/FieldBinder.java:325-334 | the representation reads as null and every other value is kept; null is shown as the representation |
| Converters.NullRepresentationRoundTrip | src/main/java/org/vaadin/fieldbinder/FieldBinder.java:325-334 | a shown value survives the round trip exactly when it is not a null shown while the representation is something else |
| Converters.ValidatorStages | src/main/java/org/vaadin/fieldbinder/FieldBinder.java:569-578 | one validator stage per `withValidator`, in call order |
| Converters.Results | src/main/java/org/vaadin/fieldbinder/FieldValidationResultWrap.java:56-58 | the results of the first m validators on a value, in order |
| Converters.ResultsStep | src/main/java/org/vaadin/fieldbinder/FieldValidationResultWrap.java:56-58 | one more validator appends its result at the end |
| Converters.ValidatorStep | src/main/java/org/vaadin/fieldbinder/FieldValidationResultWrap.java:50-62 | a validator stage after a passing wrap appends its result and fails with its message exactly when it rejects; after a failure it changes nothing |
| Converters.PassesUpTo | src/main/java/org/vaadin/fieldbinder/FieldBinder.java:569-578 | validators that all accept a value hand it on with all their results |
| Converters.FailsAt | src/main/java/org/vaadin/fieldbinder/FieldBinder.java:569-578 | the first rejecting validator fails the chain with its own message |
| Converters.FailsUpTo | src/main/java/org/vaadin/fieldbinder/FieldBinder.java:569-578 | validators after the first rejecting one never run |
| Converters.ValidatorChainPasses | src/main/java/org/vaadin/fieldbinder/FieldBinder.java:874-878 | a value all validators accept converts to itself, with every result in registration order |
| Converters.ValidatorChainFails | src/main/java/org/vaadin/fieldbinder/FieldBinder.java:874-878 | a value the k-th validator is the first to reject fails with that validator's message, with exactly the first k+1 results |
| FieldBinderValidationStatus.BindingStatus.GetMessage | src/main/java/org/vaadin/fieldbinder/FieldBinder.java:369-376 | a message is present exactly when the binding status is an error |
| FieldBinderValidationStatus.BindingStatus.ValidationResults | src/main/java/org/vaadin/fieldbinder/FieldBinder.java:1285-1307 | the wrap's list, or nothing for a plain result |
| FieldBinderValidationStatus.BindingStatus.ConversionResult | src/main/java/org/vaadin/fieldbinder/FieldBinder.java:1296-1298 | present exactly on an error, as an error-level result with the status message |
| FieldBinderValidationStatus.BinderStatus.IsOk | src/main/java/org/vaadin/fieldbinder/FieldBinderValidationStatus.java:67-79 | ok exactly when the binding status is not an error |
| FieldBinderValidationStatus.BinderStatus.GetValidationError | src/main/java/org/vaadin/fieldbinder/FieldBinderValidationStatus.java:95-98 | the conversion error on a failed status; throws NoSuchElement on an ok one |
| FieldBinderValidationStatus.BinderStatus.FieldValidationErrorAsWritten | src/main/java/org/vaadin/fieldbinder/FieldBinderValidationStatus.java:120-122 | returns the failed binding status on an error, and throws a null pointer on every ok status |
| FieldBinderValidationStatus.BinderStatus.FieldValidationError | src/main/java/org/vaadin/fieldbinder/FieldBinderValidationStatus.java:120-122 | present exactly on an error, holding the binding status |
| FieldBinderValidationStatus.Create | src/main/java/org/vaadin/fieldbinder/FieldBinderValidationStatus.java:54-60 | refuses a missing binding status with the source's null pointer message; otherwise keeps binder and status |
| FieldBinderValidationStatus.OkExactlyWhenNoError | src/main/java/org/vaadin/fieldbinder/FieldBinderValidationStatus.java:67-79 | isOk and hasError are complements |
| FieldBinderValidationStatus.FieldValidationErrorAgrees | src/main/java/org/vaadin/fieldbinder/FieldBinderValidationStatus.java:120-122 | on a failed status the written and the intended accessor agree |
| FieldBinderValidationStatus.FieldValidationErrorThrowsWhenOk | src/main/java/org/vaadin/fieldbinder/FieldBinderValidationStatus.java:120-122 | on every ok status the written accessor throws, while the intended one is empty |
| BinderPolicy.FirstIndex | src/main/java/org/vaadin/fieldbinder/FieldBinder.java:1290-1292 | the first index satisfying the filter, with none before it, or -1 when none does |
| BinderPolicy.FindFirst | src/main/java/org/vaadin/fieldbinder/FieldBinder.java:1290-1292 | present exactly when some element satisfies the filter, and then the first such element |
| BinderPolicy.ShownResult | src/main/java/org/vaadin/fieldbinder/FieldBinder.java:1285-1307 | a failed status shows its first error result, or the conversion error when no validator failed; a passing status shows its first warning or info, or nothing when all passed |
| BinderPolicy.ShownResultIsError | src/main/java/org/vaadin/fieldbinder/FieldBinder.java:1285-1307 | a failed status always shows an error-level result |
| BinderPolicy.StatusLabelText | src/main/java/org/vaadin/fieldbinder/FieldBinder.java:369-376 | the status message on an error, empty otherwise |
| BinderPolicy.EngineLabelTextAsWritten | src/main/java/org/vaadin/fieldbinder/FieldBinder.java:1496-1509 | throws exactly on an ok status; otherwise the failed binding's message |
| BinderPolicy.EngineLabelText | src/main/java/org/vaadin/fieldbinder/FieldBinder.java:1496-1509 | the failed binding's message, or empty on an ok status |
| BinderPolicy.EngineLabelTextDiscrepancy | src/main/java/org/vaadin/fieldbinder/FieldBinder.java:1496-1509 | the written label text throws a null pointer on every ok status, where the intended one is empty; on failures they agree |
| BinderPolicy.KindOf | src/main/java/org/vaadin/fieldbinder/FieldBinder.java:1529-1573 | status events belong to status listeners, value events to value listeners |
| BinderPolicy.Receives | src/main/java/org/vaadin/fieldbinder/FieldBinder.java:1105-1114 | a listener list receives an event exactly when it is registered under that event's kind |
| BinderPolicy.StatusChangeNeverDelivered | src/main/java/org/vaadin/fieldbinder/FieldBinder.java:1105-1114 | as written, no status change event reaches any listener list |
| BinderPolicy.BindStatusEventLost | src/main/java/org/vaadin/fieldbinder/FieldBinder.java:1529-1531 | as written, the event `bind` fires does not reach status change listeners, while the intended dispatch delivers it |
| BinderPolicy.ExactlyOneKindReceives | src/main/java/org/vaadin/fieldbinder/FieldBinder.java:1105-1114 | every event reaches exactly one listener kind |
| BinderPolicy.Tokens | src/main/java/org/vaadin/fieldbinder/FieldBinder.java:1544-1550 | exactly the tokens of the registered listeners |
| BinderPolicy.TokenIndex | src/main/java/org/vaadin/fieldbinder/FieldBinder.java:1549 | the first entry with the token, or -1 exactly when the token is not registered |
| BinderPolicy.RemoveToken | src/main/java/org/vaadin/fieldbinder/FieldBinder.java:1549 | removes exactly one entry when the token is registered, and nothing otherwise; it adds no token |
| BinderPolicy.AddThenRemove | src/main/java/org/vaadin/fieldbinder/FieldBinder.java:1544-1550 | removing a fresh registration restores the list it was added to |
| FieldBinder.Field.SetValue | src/main/java/org/vaadin/fieldbinder/FieldBinder.java:919-920 | stores the value; a change event is due exactly when it differs from the old one |
| FieldBinder.DefaultValidator | src/main/java/org/vaadin/fieldbinder/FieldBinder.java:1143-1146 | the field's own default validator, or one that passes every value |
| FieldBinder.RequiredValidator | src/main/java/org/vaadin/fieldbinder/FieldBinder.java:601-607 | fails at error level with the message on the field's empty value, and passes every other value |
| FieldBinder.ConverterDelegate.Current | src/main/java/org/vaadin/fieldbinder/FieldBinder.java:1048-1080 | the delegate's conversion, or the identity once the delegate is cleared |
| FieldBinder.ConverterDelegate.SetIdentity | src/main/java/org/vaadin/fieldbinder/FieldBinder.java:1077-1079 | afterwards the adapter is the identity in both directions |
| FieldBinder.BindingBuilder.constructor | src/main/java/org/vaadin/fieldbinder/FieldBinder.java:534-542 | a builder for binder, field, adapter and handler, with no stage, not bound, and the handler not yet changed |
| FieldBinder.BindingBuilder.CheckUnbound | src/main/java/org/vaadin/fieldbinder/FieldBinder.java:670-675 | throws the source's IllegalStateException exactly once the builder is bound |
| FieldBinder.BindingBuilder.WithValidator | src/main/java/org/vaadin/fieldbinder/FieldBinder.java:569-578 | appends a validator stage unless bound; a bound builder throws and keeps its chain |
| FieldBinder.BindingBuilder.WithConverter | src/main/java/org/vaadin/fieldbinder/FieldBinder.java:580-584 | unless bound, resets the field's adapter in the binder to the identity and appends the converter; without an adapter for the field, a null pointer |
| FieldBinder.BindingBuilder.WithNullRepresentation | src/main/java/org/vaadin/fieldbinder/FieldBinder.java:325-334 | appends the null-representation converter through `withConverter`, with the same failures, and resets the field's adapter in the binder to the identity |
| FieldBinder.BindingBuilder.WithValidationStatusHandler | src/main/java/org/vaadin/fieldbinder/FieldBinder.java:586-599 | sets the handler once; a second call throws the source's IllegalStateException and keeps the first handler |
| FieldBinder.BindingBuilder.WithStatusLabel | src/main/java/org/vaadin/fieldbinder/FieldBinder.java:369-376 | installs the label handler under the same once-only rule |
| FieldBinder.BindingBuilder.AsRequiredWith | src/main/java/org/vaadin/fieldbinder/FieldBinder.java:609-615 | unless bound, shows the required indicator and appends the validator |
| FieldBinder.BindingBuilder.AsRequired | src/main/java/org/vaadin/fieldbinder/FieldBinder.java:429-432 | appends the required validator for the field's empty value with the message; an empty message is `asRequired()` |
| FieldBinder.BindingBuilder.Bind | src/main/java/org/vaadin/fieldbinder/FieldBinder.java:544-559 | throws when bound or on a null value; otherwise makes a fresh binding the binder's, shows the value through the chain, fires an error-free status event, which reaches no listener, and marks the builder bound |
| FieldBinder.Binding.constructor | src/main/java/org/vaadin/fieldbinder/FieldBinder.java:806-817 | copies binder, field, handler and chain from the builder, buffers the value, and registers the binding as the field's listener |
| FieldBinder.Binding.Status | src/main/java/org/vaadin/fieldbinder/FieldBinder.java:892-894 | the status of this binding fails exactly when the field value does not convert |
| FieldBinder.Binding.Validate | src/main/java/org/vaadin/fieldbinder/FieldBinder.java:841-851 | throws the source's null pointer once unbound; otherwise returns the conversion status. With events, it first applies the binder's handler; when that throws, the exception is returned and nothing is fired, otherwise a status event is fired, which reaches no listener. The binding itself, the binder's binding, changed binding, adapters, listeners, label and handler are all kept |
| FieldBinder.Binding.Unbind | src/main/java/org/vaadin/fieldbinder/FieldBinder.java:858-865 | removes the field listener, then detaches from binder and field, keeping the buffer and the read-only flag; the field keeps its value, read-only flag and required indicator; a second call throws |
| FieldBinder.Binding.InitFieldValue | src/main/java/org/vaadin/fieldbinder/FieldBinder.java:915-931 | shows the value's presentation in the field without handling the change it causes |
| FieldBinder.Binding.HandleFieldValueChange | src/main/java/org/vaadin/fieldbinder/FieldBinder.java:945-957 | ignored while initialising or unbound; otherwise records the change, commits a valid value unless read-only, and applies the handler. When the handler throws, the exception is returned and no event follows; otherwise the status event (which reaches no listener) and then the value event are fired. Binder, field, read-only flag and initialising flag are kept, and so are the binder's binding, adapters, listeners, label and handler |
| FieldBinder.Binding.WriteFieldValue | src/main/java/org/vaadin/fieldbinder/FieldBinder.java:964-971 | commits the converted value exactly when conversion succeeds and the binding is writable |
| FieldBinder.Binding.SetReadOnly | src/main/java/org/vaadin/fieldbinder/FieldBinder.java:994-997 | stores the flag, then sets the field's, keeping the field's value, listener and required indicator; throws once unbound |
| FieldBinder.EditField | src/main/java/org/vaadin/fieldbinder/FieldBinder.java:812-813 | a user edit stores the value. When it changed, the bound binding commits the value exactly when the chain accepts it and the binding is writable, and the handler's exception, if any, reaches the editor, in which case the value listeners are not called. The field's binding stays bound and valid with the same read-only flag, binder, label and handler, so edits compose |
| FieldBinder.FirstFailingValidatorShown | src/main/java/org/vaadin/fieldbinder/FieldBinder.java:1285-1307 | on a validator chain, the first rejecting validator's result is what the field shows and its message what a status label reads |
| FieldBinder.BindReadOnly | src/main/java/org/vaadin/fieldbinder/FieldBinder.java:994-997 | `bind` on a new binder followed by `setReadOnly(true)`: for a non-null value, a fresh valid binding that is the field's listener, holds the value, and is read-only together with its field |
| FieldBinder.ReadOnlyBindingKeepsBuffer | src/main/java/org/vaadin/fieldbinder/FieldBinder.java:964-971 | once a binding is read-only, any two user edits reach the field but leave the value `getValue` returns unchanged, whether or not the handler throws |
| FieldBinder.PassingValidatorsShowFirstNotice | src/main/java/org/vaadin/fieldbinder/FieldBinder.java:1299-1305 | a value every validator accepts passes unchanged, and the field shows the first warning or info among the results |
| FieldBinder.Engine.constructor | src/main/java/org/vaadin/fieldbinder/FieldBinder.java:1082-1094 | a binder with no binding, adapter, listener, label or handler |
| FieldBinder.Engine.ListenersOf | src/main/java/org/vaadin/fieldbinder/FieldBinder.java:1544-1550 | the listeners under a kind, or none |
| FieldBinder.Engine.Matching | src/main/java/org/vaadin/fieldbinder/FieldBinder.java:1105-1114 | as written, a status event matches no listener list, and a value event matches exactly the value listeners |
| FieldBinder.Engine.GetValidationStatusHandler | src/main/java/org/vaadin/fieldbinder/FieldBinder.java:1481-1484 | the custom handler that was set, when one was set, otherwise the default |
| FieldBinder.Engine.HandlerOutcome | src/main/java/org/vaadin/fieldbinder/FieldBinder.java:1496-1509 | the default handler throws a null pointer exactly when no custom handler is set, a label is, and the status is ok |
| FieldBinder.Engine.HandlerNotices | src/main/java/org/vaadin/fieldbinder/FieldBinder.java:1496-1499 | handing a status to the handlers makes at most one custom callback |
| FieldBinder.Engine.FireEvent | src/main/java/org/vaadin/fieldbinder/FieldBinder.java:1105-1114 | every matching listener is called once, in registration order |
| FieldBinder.Engine.FireStatusChangeEvent | src/main/java/org/vaadin/fieldbinder/FieldBinder.java:1099-1103 | as written, no listener is called at all |
| FieldBinder.Engine.ClearError | src/main/java/org/vaadin/fieldbinder/FieldBinder.java:1339-1344 | a field with validation is marked valid, keeping its message |
| FieldBinder.Engine.HandleError | src/main/java/org/vaadin/fieldbinder/FieldBinder.java:1320-1328 | a result with an error level marks the field invalid with its message; a passing result changes nothing |
| FieldBinder.Engine.HandleValidationStatus | src/main/java/org/vaadin/fieldbinder/FieldBinder.java:1285-1307 | the field ends invalid exactly when a result is shown, with that result's message |
| FieldBinder.Engine.CallBindingHandler | src/main/java/org/vaadin/fieldbinder/FieldBinderValidationStatus.java:144-147 | runs the binding's handler: the default marks the field, a label shows the message and is visible exactly on error, and a custom handler is called once |
| FieldBinder.Engine.HandleBinderValidationStatus | src/main/java/org/vaadin/fieldbinder/FieldBinder.java:1496-1509 | runs the binding's handler. It then throws a null pointer exactly when a label is set and the status is ok, leaving that label as it was; otherwise it writes the failed binding's message into the label |
| FieldBinder.Engine.CallEngineHandler | src/main/java/org/vaadin/fieldbinder/FieldBinder.java:1481-1484 | a custom handler is called once and changes no display; the default one behaves as above, including the exception |
| FieldBinder.Engine.ReportStatus | src/main/java/org/vaadin/fieldbinder/FieldBinder.java:1664-1665 | the handler is applied as above; unless it threw, one status event follows. The binding and the binder's binding, adapters, listeners, label and handler are kept |
| FieldBinder.Engine.DoWriteIfValid | src/main/java/org/vaadin/fieldbinder/FieldBinder.java:1651-1667 | the buffer takes the converted value exactly when valid and writable; then the handler runs. When it throws, the exception is returned and no event follows; otherwise the binding's status is returned after one status event. The label, the handler and the binding's read-only and initialising flags are kept |
| FieldBinder.Engine.HandleFieldValueChange | src/main/java/org/vaadin/fieldbinder/FieldBinder.java:1614-1617 | records the changed binding, so that `hasChanges` (FieldBinder.java:1274-1276) holds from then on, and writes if valid, with the same outcome and the same kept state |
| FieldBinder.Engine.CreateNullRepresentationAdapter | src/main/java/org/vaadin/fieldbinder/FieldBinder.java:1149-1161 | a fresh adapter over the field's empty value, replacing any earlier one for that field |
| FieldBinder.Engine.ForField | src/main/java/org/vaadin/fieldbinder/FieldBinder.java:1135-1147 | clears the field's error and the label text, and returns a fresh builder whose chain is a fresh adapter then the field's default validator |
| FieldBinder.Engine.Of | src/main/java/org/vaadin/fieldbinder/FieldBinder.java:1688-1691 | `forField` on a new binder, which has no status label and no custom handler |
| FieldBinder.Engine.ValidationStatus | src/main/java/org/vaadin/fieldbinder/FieldBinder.java:1397-1438 | fails without a bound field; otherwise the binding's status, failing exactly when the field value does not convert |
| FieldBinder.Engine.Validate | src/main/java/org/vaadin/fieldbinder/FieldBinder.java:1383-1410 | returns that status. With events, it applies the handler first; when the handler throws, the exception is returned and nothing is fired, otherwise one status event is fired. Only the log and the displays change: binding, changed binding, adapters, listeners, label and handler are kept |
| FieldBinder.Engine.IsValid | src/main/java/org/vaadin/fieldbinder/FieldBinder.java:1424-1426 | true exactly when the field value converts, with no handler or event |
| FieldBinder.Engine.SetValidationStatusHandler | src/main/java/org/vaadin/fieldbinder/FieldBinder.java:1365-1375 | refused with the source's IllegalStateException once a label is set; otherwise sets the handler |
| FieldBinder.Engine.SetStatusLabel | src/main/java/org/vaadin/fieldbinder/FieldBinder.java:1456-1463 | refused with the source's IllegalStateException once a handler is set; otherwise sets the label |
| FieldBinder.Engine.RemoveBindingOfField | src/main/java/org/vaadin/fieldbinder/FieldBinder.java:1189-1196 | a field other than the bound one is refused with IllegalArgumentException; the bound one is unbound, its listener cleared, and the binder keeps the binding. The field keeps its value and read-only flag, and the binding its buffer and read-only flag |
| FieldBinder.Engine.RemoveBinding | src/main/java/org/vaadin/fieldbinder/FieldBinder.java:1211-1219 | a binding other than the binder's is refused with IllegalArgumentException; the binder's own is unbound and a second removal throws. The field's listener is cleared when it was this binding and kept otherwise; the field's value and read-only flag and the binding's buffer and read-only flag are kept |
| FieldBinder.Engine.AddListener | src/main/java/org/vaadin/fieldbinder/FieldBinder.java:1544-1550 | appends the listener under its kind with a token not yet in use |
| FieldBinder.Engine.AddStatusChangeListener | src/main/java/org/vaadin/fieldbinder/FieldBinder.java:1529-1531 | registers under the status change kind |
| FieldBinder.Engine.AddValueChangeListener | src/main/java/org/vaadin/fieldbinder/FieldBinder.java:1570-1573 | registers under the value change kind |
| FieldBinder.Engine.RemoveListener | src/main/java/org/vaadin/fieldbinder/FieldBinder.java:1549 | removes exactly that registration, keeping every token below the next one to hand out |

## Left out

- Locale and `ValueContext`: converters and validators here do not depend on
  a locale.
- Serialization and the `setVisible` styling helper: only the visible flag of
  a label is modelled.
- Exceptions thrown inside user converters or validators.
- The null checks on arguments other than `bind`'s value. Null checks on
  fields, validators, converters and handlers are excluded by the types.
- `createConverter`, `convertDataToModelType` and `writeIfValid`: nothing in
  the core calls them.
- `createUnresolvedStatus` (FieldBinderValidationStatus.java:40-43): it
  depends on a library factory that is not part of this model.
- `notifyBindingValidationStatusHandler(filter)`: its filter is ignored by the
  code, so only the unfiltered call is modelled.
- `withConverter(converter, false)`: never called with `false`.
- The iteration order of the binder's listener map: the two event kinds have
  disjoint listener lists, so the order between keys never matters.
- FieldBinder.Engine.Validate: the binder validator list is never filled, so
  the branch that leaves the status null is not modelled.
- FieldBinder.BindingBuilder.Bind: a field holds one value change listener,
  and a new binding replaces it. In the code (FieldBinder.java:545-559 with
  815-816), a second `forField(f)...bind(v)` without `removeBinding` leaves the
  earlier binding listening. Its handler then also receives the field change
  that `bind` makes, and every later edit. Each time it sets the binder's
  changed binding, writes its own buffer, runs the status handler and fires the
  value listeners. `Bind`'s log and changed-binding results, and those of every
  later edit, hold only when the field had no earlier binding still listening.
- The library's `FieldBindingValidationStatus`, `ValidationResult`,
  `Validator.from`, `Result.ok/error` and `HasValue.setValue` are assumed as
  follows. A message is present exactly on error. The conversion result is an
  error-level result. `FieldBindingValidationStatus.getResult()` is empty on
  an ok status. Validators built with `Validator.from` fail at error level. A
  change event fires only when the value changes.
- Custom handlers and listeners are recorded in the binder's log, not run, so
  a callback that changes the binder while it is being notified is not
  modelled.

## Findings

| source | as written | input that shows it | evidently intended | confidence | as-written member | corrected member |
|---|---|---|---|---|---|---|
| src/main/java/org/vaadin/fieldbinder/FieldBinderValidationStatus.java:120-122 | `Optional.of` of null for an ok status throws, so the default binder handler (FieldBinder.java:1496-1509) fails whenever a status label is set and the value is valid | a binder with a status label, and a field value that passes every validator | `Optional.ofNullable`: empty on an ok status, clearing the label, with the events that follow still fired | not executed | BinderPolicy.EngineLabelTextAsWritten | BinderPolicy.EngineLabelText |
| src/main/java/org/vaadin/fieldbinder/FieldBinder.java:1529-1531 | status listeners are registered under Vaadin's `StatusChangeEvent`, but the binder fires `FieldBinderStatusChangeEvent`, which extends `EventObject`, so `fireEvent`'s assignability filter (FieldBinder.java:1105-1114) never delivers it | any `addStatusChangeListener`, followed by `bind` or a field change | the status change listeners are notified of every status change (FieldBinder.java:1511-1520) | not executed | BinderPolicy.StatusChangeNeverDelivered | BinderPolicy.Receives |
