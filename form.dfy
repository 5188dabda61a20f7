/**
 * The form aggregator: an ordered list of fields with optional submit and
 * cancel callbacks. Submitting validates every field and either hands the
 * collected values to the submit callback or reports the per-field errors;
 * cancelling never validates. Each field is modelled by its label and the
 * outcome its own validation gives for the value it currently holds.
 */
module Form {
  import opened Wrappers

  /** Rust's `u8`. */
  newtype u8 = x: int | 0 <= x < 256

  type FieldErrors = seq<string>

  /** `FormErrors`: label to that field's error messages. */
  type FormErrors = map<string, FieldErrors>

  /** A field of the form as `validate` sees it: its label and what its validation returns. */
  datatype FormField<V> = FormField(labelText: string, outcome: Result<V, FieldErrors>)

  // ---------------------------------------------------------------------------
  // What `validate` computes
  // ---------------------------------------------------------------------------

  /** The value map after inserting, in order, every successful field (a later label overwrites). */
  function Data<V>(fs: seq<FormField<V>>): map<string, V> {
    if fs == [] then map[]
    else
      var last := fs[|fs| - 1];
      var before := Data(fs[..|fs| - 1]);
      if last.outcome.Success? then before[last.labelText := last.outcome.value] else before
  }

  /** The error map after inserting, in order, every failing field (a later label overwrites). */
  function Errors<V>(fs: seq<FormField<V>>): FormErrors {
    if fs == [] then map[]
    else
      var last := fs[|fs| - 1];
      var before := Errors(fs[..|fs| - 1]);
      if last.outcome.Failure? then before[last.labelText := last.outcome.error] else before
  }

  predicate AllValid<V>(fs: seq<FormField<V>>) {
    forall i :: 0 <= i < |fs| ==> fs[i].outcome.Success?
  }

  function Labels<V>(fs: seq<FormField<V>>): set<string> {
    set i | 0 <= i < |fs| :: fs[i].labelText
  }

  function PassingLabels<V>(fs: seq<FormField<V>>): set<string> {
    set i | 0 <= i < |fs| && fs[i].outcome.Success? :: fs[i].labelText
  }

  function FailingLabels<V>(fs: seq<FormField<V>>): set<string> {
    set i | 0 <= i < |fs| && fs[i].outcome.Failure? :: fs[i].labelText
  }

  /** No later field with the same label has the same kind of outcome, so field `i` wins the map entry. */
  predicate LastOfItsKind<V>(fs: seq<FormField<V>>, i: int)
    requires 0 <= i < |fs|
  {
    forall j :: i < j < |fs| && fs[j].labelText == fs[i].labelText ==> fs[j].outcome.Success? != fs[i].outcome.Success?
  }

  predicate UniqueLabels<V>(fs: seq<FormField<V>>) {
    forall i, j :: 0 <= i < j < |fs| ==> fs[i].labelText != fs[j].labelText
  }

  /** The keys of the value map are exactly the labels of the successful fields. */
  lemma {:induction false} DataKeys<V>(fs: seq<FormField<V>>)
    ensures Data(fs).Keys == PassingLabels(fs)
  {
    if fs != [] {
      var init := fs[..|fs| - 1];
      DataKeys(init);
      assert forall i :: 0 <= i < |init| ==> init[i] == fs[i];
      assert PassingLabels(fs) == PassingLabels(init) + (if fs[|fs| - 1].outcome.Success? then {fs[|fs| - 1].labelText} else {});
    }
  }

  /** The keys of the error map are exactly the labels of the failing fields. */
  lemma {:induction false} ErrorsKeys<V>(fs: seq<FormField<V>>)
    ensures Errors(fs).Keys == FailingLabels(fs)
  {
    if fs != [] {
      var init := fs[..|fs| - 1];
      ErrorsKeys(init);
      assert forall i :: 0 <= i < |init| ==> init[i] == fs[i];
      assert FailingLabels(fs) == FailingLabels(init) + (if fs[|fs| - 1].outcome.Failure? then {fs[|fs| - 1].labelText} else {});
    }
  }

  /** A successful field that no later successful field overrides maps its label to its value. */
  lemma {:induction false} DataValue<V>(fs: seq<FormField<V>>, i: int)
    requires 0 <= i < |fs| && fs[i].outcome.Success? && LastOfItsKind(fs, i)
    ensures fs[i].labelText in Data(fs) && Data(fs)[fs[i].labelText] == fs[i].outcome.value
  {
    var init := fs[..|fs| - 1];
    if i < |fs| - 1 {
      assert init[i] == fs[i];
      assert forall j :: i < j < |init| ==> init[j] == fs[j];
      DataValue(init, i);
    }
  }

  /** A failing field that no later failing field overrides maps its label to its own error list. */
  lemma {:induction false} ErrorsValue<V>(fs: seq<FormField<V>>, i: int)
    requires 0 <= i < |fs| && fs[i].outcome.Failure? && LastOfItsKind(fs, i)
    ensures fs[i].labelText in Errors(fs) && Errors(fs)[fs[i].labelText] == fs[i].outcome.error
  {
    var init := fs[..|fs| - 1];
    if i < |fs| - 1 {
      assert init[i] == fs[i];
      assert forall j :: i < j < |init| ==> init[j] == fs[j];
      ErrorsValue(init, i);
    }
  }

  /**
   * The result of `validate`: Ok with the value map when the error map is
   * empty, the error map otherwise. Every field is looked at; there is no
   * early exit, so all failing fields are reported together.
   */
  function ValidationResult<V>(fs: seq<FormField<V>>): (r: Result<map<string, V>, FormErrors>)
    ensures r.Success? <==> AllValid(fs)
    ensures r.Success? ==> r.value.Keys == Labels(fs) && r.value == Data(fs)
    ensures r.Failure? ==> r.error.Keys == FailingLabels(fs) && r.error != map[] && r.error == Errors(fs)
  {
    ErrorsKeys(fs);
    DataKeys(fs);
    assert AllValid(fs) ==> PassingLabels(fs) == Labels(fs);
    assert !AllValid(fs) ==> exists i :: 0 <= i < |fs| && fs[i].outcome.Failure? && fs[i].labelText in FailingLabels(fs);
    if |Errors(fs)| == 0 then Success(Data(fs)) else Failure(Errors(fs))
  }

  /** With unique labels, each field's own outcome is what the result holds for its label. */
  lemma ValidationPerField<V>(fs: seq<FormField<V>>, i: int)
    requires UniqueLabels(fs) && 0 <= i < |fs|
    ensures ValidationResult(fs).Success? ==> ValidationResult(fs).value[fs[i].labelText] == fs[i].outcome.value
    ensures ValidationResult(fs).Failure? && fs[i].outcome.Failure? ==>
              ValidationResult(fs).error[fs[i].labelText] == fs[i].outcome.error
    ensures ValidationResult(fs).Failure? && fs[i].outcome.Success? ==> fs[i].labelText !in ValidationResult(fs).error
  {
    assert LastOfItsKind(fs, i);
    if fs[i].outcome.Success? {
      DataValue(fs, i);
      ErrorsKeys(fs);
    } else {
      ErrorsValue(fs, i);
    }
  }

  // ---------------------------------------------------------------------------
  // Events and their outcomes
  // ---------------------------------------------------------------------------

  /** What a callback handed back to the event loop does once it runs. */
  datatype Callback<V> = Submitted(value: map<string, V>) | Cancelled

  /** `EventResult`: not handled, or handled with an optional callback to run. */
  datatype EventResult<V> = Ignored | Consumed(callback: Option<Callback<V>>)

  /** `event_submit`: consumed in every case; the submit callback with the values only when validation succeeds and one is set. */
  function SubmitResult<V>(fs: seq<FormField<V>>, hasOnSubmit: bool): (r: EventResult<V>)
    ensures r.Consumed?
    ensures r.callback.Some? <==> AllValid(fs) && hasOnSubmit
    ensures r.callback.Some? ==> r.callback.value == Submitted(Data(fs))
  {
    match ValidationResult(fs)
    case Success(data) => Consumed(if hasOnSubmit then Some(Submitted(data)) else None)
    case Failure(_) => Consumed(None)
  }

  /** `event_cancel`: consumed; the cancel callback when one is set. No field is looked at. */
  function CancelResult<V>(hasOnCancel: bool): (r: EventResult<V>)
    ensures r.Consumed?
    ensures r.callback.Some? <==> hasOnCancel
    ensures r.callback.Some? ==> r.callback.value == Cancelled
  {
    Consumed(if hasOnCancel then Some(Cancelled) else None)
  }

  datatype Key = Enter | Tab | Esc | Backspace | OtherKey(code: nat)

  datatype MouseButton = LeftButton | MiddleButton | RightButton | OtherButton

  datatype MouseEvent = Press(button: MouseButton) | Release(button: MouseButton) | Hold(button: MouseButton) | WheelUp | WheelDown

  /** The host's input events (mouse offset and position are not looked at here). */
  datatype Event =
    | Char(c: char)
    | CtrlChar(c: char)
    | AltChar(c: char)
    | KeyEvent(key: Key)
    | Mouse(event: MouseEvent)
    | Refresh
    | WindowResize
    | Unknown

  /** `DialogFocus`: the dialog's content, or the button with that index (0 is Cancel, 1 is Submit). */
  datatype DialogFocus = Content | Button(index: nat)

  /** What `wrap_on_event` does with an event. */
  datatype Intent = CancelForm | SubmitForm | Forward | Ignore

  /** Cancel on button 0, submit on button 1, something else otherwise. */
  function ByFocus(focus: DialogFocus, otherwise: Intent): Intent {
    match focus
    case Button(0) => CancelForm
    case Button(1) => SubmitForm
    case _ => otherwise
  }

  /**
   * The dispatch table of `wrap_on_event`. `focus` is the dialog focus when
   * the event arrives; `focusAfter` is the focus after the dialog has seen a
   * left mouse press (which may move it onto a button).
   */
  function Dispatch(event: Event, focus: DialogFocus, focusAfter: DialogFocus): (r: Intent)
    ensures r == CancelForm <==>
              || (event == KeyEvent(Enter) && focus == Button(0))
              || (event == Mouse(Press(LeftButton)) && focusAfter == Button(0))
    ensures r == SubmitForm <==>
              || (event == KeyEvent(Enter) && focus == Button(1))
              || event == CtrlChar('f')
              || (event == Mouse(Press(LeftButton)) && focusAfter == Button(1))
    ensures r == Ignore <==>
              || (event.Mouse? && event.event.Press? && event.event.button != LeftButton)
              || (event == Mouse(Press(LeftButton)) && focusAfter != Button(0) && focusAfter != Button(1))
  {
    match event
    case Mouse(Press(button)) =>
      if button == LeftButton then ByFocus(focusAfter, Ignore) else Ignore
    case KeyEvent(Enter) => ByFocus(focus, Forward)
    case CtrlChar(c) => if c == 'f' then SubmitForm else Forward
    case _ => Forward
  }

  // ---------------------------------------------------------------------------
  // `FormView`
  // ---------------------------------------------------------------------------

  class FormView<V> {
    /** The layout's children, in insertion order. */
    var fields: seq<FormField<V>>
    var fieldCount: u8
    var hasOnSubmit: bool
    var hasOnCancel: bool

    /** `field_count` counts the layout's children. */
    ghost predicate Valid()
      reads this
    {
      fieldCount as int == |fields|
    }

    /** `FormView::new`: no field, no callback. */
    constructor ()
      ensures Valid()
      ensures fields == [] && fieldCount == 0
      ensures !hasOnSubmit && !hasOnCancel
    {
      fields := [];
      fieldCount := 0;
      hasOnSubmit := false;
      hasOnCancel := false;
    }

    /** `FormView::field`: appends the field after the existing ones; `field_count += 1` must not overflow. */
    method Field(field: FormField<V>)
      requires Valid()
      requires fieldCount < 255
      modifies this
      ensures Valid()
      ensures fields == old(fields) + [field]
      ensures fieldCount == old(fieldCount) + 1
      ensures hasOnSubmit == old(hasOnSubmit) && hasOnCancel == old(hasOnCancel)
    {
      fieldCount := fieldCount + 1;
      fields := fields + [field];
    }

    /** `FormView::set_on_submit`: a submit callback is now present; nothing else changes. */
    method SetOnSubmit()
      requires Valid()
      modifies this
      ensures Valid()
      ensures hasOnSubmit
      ensures fields == old(fields) && fieldCount == old(fieldCount) && hasOnCancel == old(hasOnCancel)
    {
      hasOnSubmit := true;
    }

    /** `FormView::set_on_cancel`: a cancel callback is now present; nothing else changes. */
    method SetOnCancel()
      requires Valid()
      modifies this
      ensures Valid()
      ensures hasOnCancel
      ensures fields == old(fields) && fieldCount == old(fieldCount) && hasOnSubmit == old(hasOnSubmit)
    {
      hasOnCancel := true;
    }

    /** `FormView::validate`: visits the fields `0..field_count` in order, filling the value and error maps. */
    method Validate() returns (r: Result<map<string, V>, FormErrors>)
      requires Valid()
      ensures r == ValidationResult(fields)
      ensures r.Success? <==> AllValid(fields)
    {
      var data: map<string, V> := map[];
      var errors: FormErrors := map[];
      var idx: u8 := 0;
      while idx < fieldCount
        invariant idx <= fieldCount
        invariant data == Data(fields[..idx])
        invariant errors == Errors(fields[..idx])
      {
        var field := fields[idx];
        assert fields[..idx + 1][..idx] == fields[..idx];
        match field.outcome {
          case Success(v) => data := data[field.labelText := v];
          case Failure(e) => errors := errors[field.labelText := e];
        }
        idx := idx + 1;
      }
      assert fields[..idx] == fields;
      if |errors| == 0 {
        r := Success(data);
      } else {
        r := Failure(errors);
      }
    }

    /** `FormView::event_submit`. Nothing is changed, so a failed submission can be retried. */
    method EventSubmit() returns (r: EventResult<V>)
      requires Valid()
      ensures r == SubmitResult(fields, hasOnSubmit)
    {
      var validated := Validate();
      match validated {
        case Success(data) =>
          r := Consumed(if hasOnSubmit then Some(Submitted(data)) else None);
        case Failure(_) =>
          r := Consumed(None);
      }
    }

    /** `FormView::event_cancel`. */
    method EventCancel() returns (r: EventResult<V>)
      ensures r == CancelResult(hasOnCancel)
    {
      r := Consumed(if hasOnCancel then Some(Cancelled) else None);
    }

    /**
     * `wrap_on_event`: `inner` is what the dialog answers to a forwarded
     * event. Cancel and submit intents produce the outcomes of
     * `event_cancel` and `event_submit`; forwarded events return the
     * dialog's answer; ignored events are not consumed.
     */
    method WrapOnEvent(event: Event, focus: DialogFocus, focusAfter: DialogFocus, inner: EventResult<V>) returns (r: EventResult<V>)
      requires Valid()
      ensures Dispatch(event, focus, focusAfter) == CancelForm ==> r == CancelResult(hasOnCancel)
      ensures Dispatch(event, focus, focusAfter) == SubmitForm ==> r == SubmitResult(fields, hasOnSubmit)
      ensures Dispatch(event, focus, focusAfter) == Forward ==> r == inner
      ensures Dispatch(event, focus, focusAfter) == Ignore ==> r == Ignored
    {
      match event {
        case Mouse(Press(button)) =>
          if button == LeftButton {
            // The dialog sees the press first; its answer is dropped and the new focus decides.
            match focusAfter {
              case Button(0) => r := EventCancel();
              case Button(1) => r := EventSubmit();
              case _ => r := Ignored;
            }
          } else {
            r := Ignored;
          }
        case KeyEvent(Enter) =>
          match focus {
            case Button(0) => r := EventCancel();
            case Button(1) => r := EventSubmit();
            case _ => r := inner;
          }
        case CtrlChar(c) =>
          if c == 'f' {
            r := EventSubmit();
          } else {
            r := inner;
          }
        case _ => r := inner;
      }
    }
  }
}
