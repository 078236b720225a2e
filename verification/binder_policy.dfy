/**
 * The decisions `FieldBinder` makes without changing any state: which
 * validation result a field shows, what the status labels read, and which
 * listeners an event reaches.
 */
module BinderPolicy {
  import opened Wrappers
  import opened Library
  import opened FieldValidationResultWrap
  import opened FieldBinderValidationStatus

  /**
   * The index of the first element satisfying `p`, or -1 when there is none
   * (`stream().filter(p).findFirst()`).
   */
  function FirstIndex<T>(s: seq<T>, p: T -> bool): (i: int)
    ensures -1 <= i < |s|
    ensures i >= 0 ==> p(s[i]) && forall j :: 0 <= j < i ==> !p(s[j])
    ensures i == -1 ==> forall j :: 0 <= j < |s| ==> !p(s[j])
    decreases |s|
  {
    if s == [] then -1
    else if p(s[0]) then 0
    else
      var k := FirstIndex(s[1..], p);
      if k == -1 then -1 else k + 1
  }

  /** `findFirst` over a filtered stream. */
  function FindFirst<T>(s: seq<T>, p: T -> bool): (r: Option<T>)
    ensures r.Some? <==> exists i :: 0 <= i < |s| && p(s[i])
    ensures r.Some? ==> exists i :: 0 <= i < |s| && r.value == s[i] && p(s[i]) && forall j :: 0 <= j < i ==> !p(s[j])
  {
    var i := FirstIndex(s, p);
    if i == -1 then None else Some(s[i])
  }

  /**
   * The result `handleValidationStatus` shows on the field: for a failed
   * status the first failed validator result, or the conversion error when no
   * validator failed; for a passed status the first result that has an error
   * level (a warning or an info).
   */
  function ShownResult<B>(status: BindingStatus<B>): (r: Option<ValidationResult>)
    ensures r.Some? ==> r.value.Problem?
    ensures status.IsError() ==> r.Some?
    ensures status.IsError() && (exists i :: 0 <= i < |status.ValidationResults()| && status.ValidationResults()[i].IsError()) ==>
              exists i :: 0 <= i < |status.ValidationResults()| && r == Some(status.ValidationResults()[i])
                && status.ValidationResults()[i].IsError()
                && forall j :: 0 <= j < i ==> !status.ValidationResults()[j].IsError()
    ensures status.IsError() && (forall i :: 0 <= i < |status.ValidationResults()| ==> !status.ValidationResults()[i].IsError()) ==>
              r == status.ConversionResult()
    ensures !status.IsError() && r.Some? ==>
              exists i :: 0 <= i < |status.ValidationResults()| && r == Some(status.ValidationResults()[i])
                && forall j :: 0 <= j < i ==> status.ValidationResults()[j] == Pass
    ensures !status.IsError() && r.None? ==> forall i :: 0 <= i < |status.ValidationResults()| ==> status.ValidationResults()[i] == Pass
  {
    var results := status.ValidationResults();
    if status.IsError() then
      match FindFirst(results, (v: ValidationResult) => v.IsError())
      case Some(e) => Some(e)
      case None => status.ConversionResult()
    else
      FindFirst(results, (v: ValidationResult) => v.GetErrorLevel().Some?)
  }

  /**
   * A field whose chain passes with only passing validator results shows
   * nothing, and a failed chain always shows an error-level result.
   */
  lemma ShownResultIsError<B>(status: BindingStatus<B>)
    requires status.IsError()
    ensures ShownResult(status).Some? && ShownResult(status).value.IsError()
  {
    var results := status.ValidationResults();
    var p := (v: ValidationResult) => v.IsError();
    var i := FirstIndex(results, p);
    if i == -1 {
      assert ShownResult(status) == status.ConversionResult();
    } else {
      assert FindFirst(results, p) == Some(results[i]);
    }
  }

  /**
   * The text of a status label set with `withStatusLabel`: the status
   * message, or empty when there is none.
   */
  function StatusLabelText<B>(status: BindingStatus<B>): (text: string)
    ensures status.IsError() ==> Some(text) == status.GetMessage()
    ensures !status.IsError() ==> text == ""
  {
    status.GetMessage().GetOr("")
  }

  /**
   * The text the binder's default handler writes to the binder's status
   * label, as written: reading `getFieldValidationError` throws on an ok
   * status.
   */
  function EngineLabelTextAsWritten<E, B>(s: BinderStatus<E, B>): (r: Try<string>)
    ensures r.Threw? <==> s.IsOk()
    ensures r.Returned? ==> Some(r.value) == s.bindingStatus.GetMessage()
  {
    match s.FieldValidationErrorAsWritten()
    case Threw(e) => Threw(e)
    case Returned(error) =>
      if error.Some? && error.value.GetMessage().Some? then Returned(error.value.GetMessage().value) else Returned("")
  }

  /**
   * The text the binder's default handler writes to the binder's status
   * label: the failed binding's message, and empty on an ok status.
   */
  function EngineLabelText<E, B>(s: BinderStatus<E, B>): (text: string)
    ensures s.HasError() ==> Some(text) == s.bindingStatus.GetMessage()
    ensures s.IsOk() ==> text == ""
  {
    match s.FieldValidationError()
    case Some(error) => error.GetMessage().GetOr("")
    case None => ""
  }

  /**
   * The written label text fails on every ok status, where the intended one
   * clears the label; on a failed status the two agree.
   */
  lemma EngineLabelTextDiscrepancy<E, B>(s: BinderStatus<E, B>)
    ensures s.IsOk() ==> EngineLabelTextAsWritten(s) == Threw(NullPointer("value")) && EngineLabelText(s) == ""
    ensures s.HasError() ==> EngineLabelTextAsWritten(s) == Returned(EngineLabelText(s))
  {
  }

  /** The two event types the binder fires. */
  datatype Event =
    | StatusChange(hasValidationErrors: bool)
    | ValueChange(oldValue: Value, value: Value)

  /**
   * The keys of the binder's listener map: the event types passed to
   * `addListener` by `addStatusChangeListener` and `addValueChangeListener`.
   */
  datatype EventKind = StatusChangeKind | ValueChangeKind

  /** The kind of listener an event is meant for. */
  function KindOf(e: Event): (k: EventKind)
    ensures k == StatusChangeKind <==> e.StatusChange?
  {
    match e
    case StatusChange(_) => StatusChangeKind
    case ValueChange(_, _) => ValueChangeKind
  }

  /**
   * The Java classes involved in dispatch: the two listener-map keys
   * (Vaadin's `StatusChangeEvent` and `ValueChangeEvent`) and the classes of
   * the events the binder fires.
   */
  datatype JavaClass =
    | VaadinStatusChangeEvent
    | VaadinValueChangeEvent
    | FieldBinderStatusChangeEvent
    | ComponentValueChangeEvent
    | EventObject
    | JavaObject

  /** The proper supertypes of each class. */
  function Supertypes(c: JavaClass): set<JavaClass> {
    match c
    case VaadinStatusChangeEvent => {EventObject, JavaObject}
    case VaadinValueChangeEvent => {JavaObject}
    case FieldBinderStatusChangeEvent => {EventObject, JavaObject}
    case ComponentValueChangeEvent => {VaadinValueChangeEvent, EventObject, JavaObject}
    case EventObject => {JavaObject}
    case JavaObject => {}
  }

  /** `a.isAssignableFrom(b)`. */
  predicate IsAssignableFrom(a: JavaClass, b: JavaClass) {
    a == b || a in Supertypes(b)
  }

  /** The class a listener-map key stands for. */
  function KeyClass(k: EventKind): JavaClass {
    match k
    case StatusChangeKind => VaadinStatusChangeEvent
    case ValueChangeKind => VaadinValueChangeEvent
  }

  /** The run-time class of an event the binder fires. */
  function EventClass(e: Event): JavaClass {
    match e
    case StatusChange(_) => FieldBinderStatusChangeEvent
    case ValueChange(_, _) => ComponentValueChangeEvent
  }

  /** Whether `fireEvent`, as written, hands `e` to the listeners under key `k`. */
  predicate ReceivesAsWritten(k: EventKind, e: Event) {
    IsAssignableFrom(KeyClass(k), EventClass(e))
  }

  /** Whether the listeners under key `k` are meant to receive `e`. */
  function Receives(k: EventKind, e: Event): (r: bool)
    ensures r <==> k == KindOf(e)
  {
    match e
    case StatusChange(_) => k == StatusChangeKind
    case ValueChange(_, _) => k == ValueChangeKind
  }

  /**
   * As written, a status change event reaches no listener at all, while a
   * value change event reaches exactly the value change listeners.
   */
  lemma StatusChangeNeverDelivered(e: Event, k: EventKind)
    ensures e.StatusChange? ==> !ReceivesAsWritten(k, e)
    ensures e.ValueChange? ==> (ReceivesAsWritten(k, e) <==> Receives(k, e))
  {
  }

  /** A concrete witness: the event `bind` fires is lost to status listeners. */
  lemma BindStatusEventLost()
    ensures Receives(StatusChangeKind, StatusChange(false))
    ensures !ReceivesAsWritten(StatusChangeKind, StatusChange(false))
  {
  }

  /** Every event is meant for listeners of exactly one kind. */
  lemma ExactlyOneKindReceives(e: Event)
    ensures Receives(StatusChangeKind, e) != Receives(ValueChangeKind, e)
  {
  }

  /** A listener registration: the token its `Registration` removes, and the listener. */
  datatype ListenerEntry = ListenerEntry(token: nat, listener: nat)

  /** The tokens of a listener list. */
  function Tokens(entries: seq<ListenerEntry>): (r: set<nat>)
    ensures forall i :: 0 <= i < |entries| ==> entries[i].token in r
    ensures forall t :: t in r ==> exists i :: 0 <= i < |entries| && entries[i].token == t
  {
    set i | 0 <= i < |entries| :: entries[i].token
  }

  /** The position of the first entry registered under `token`, or -1. */
  function TokenIndex(entries: seq<ListenerEntry>, token: nat): (i: int)
    ensures -1 <= i < |entries|
    ensures i == -1 <==> token !in Tokens(entries)
    ensures i >= 0 ==> entries[i].token == token && forall j :: 0 <= j < i ==> entries[j].token != token
  {
    FirstIndex(entries, (e: ListenerEntry) => e.token == token)
  }

  /**
   * `list.remove(method)` as the registration does it: the first entry with
   * the token goes, the others keep their order.
   */
  function RemoveToken(entries: seq<ListenerEntry>, token: nat): (r: seq<ListenerEntry>)
    ensures token !in Tokens(entries) ==> r == entries
    ensures token in Tokens(entries) ==>
              |r| == |entries| - 1 && multiset(r) + multiset{entries[TokenIndex(entries, token)]} == multiset(entries)
    ensures Tokens(r) <= Tokens(entries)
  {
    var i := TokenIndex(entries, token);
    if i == -1 then entries
    else
      assert entries == entries[..i] + [entries[i]] + entries[i + 1..];
      var r := entries[..i] + entries[i + 1..];
      assert forall j :: 0 <= j < |r| ==> r[j] in multiset(entries);
      r
  }

  /**
   * Removing a fresh registration right after adding it restores the
   * listener list.
   */
  lemma AddThenRemove(entries: seq<ListenerEntry>, token: nat, listener: nat)
    requires token !in Tokens(entries)
    ensures RemoveToken(entries + [ListenerEntry(token, listener)], token) == entries
  {
    var added := entries + [ListenerEntry(token, listener)];
    var i := TokenIndex(added, token);
    assert added[|entries|].token == token;
    assert forall j :: 0 <= j < |entries| ==> added[j] == entries[j];
    assert added[..|entries|] == entries;
  }
}
