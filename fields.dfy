/**
 * A form field: its label, help text, initial value, ordered validators and
 * the manager of its widget, assembled by builder steps; and the one-line
 * annotation "label: help" shown above the widget.
 */
module Fields {

  /** The width `{:20}` pads the label to. */
  const AnnotationWidth: nat := 20

  function Max(a: int, b: int): int {
    if a >= b then a else b
  }

  /** `format!("{:w}", s)` for a string: left-aligned, padded with spaces up to `width`, never truncated. */
  function PadRight(s: string, width: nat): (r: string)
    ensures |r| == Max(width, |s|)
    ensures r[..|s|] == s
    ensures forall i :: |s| <= i < |r| ==> r[i] == ' '
    decreases width - |s|
  {
    if |s| >= width then s
    else
      var r := PadRight(s + " ", width);
      assert r[..|s|] == r[..|s| + 1][..|s|];
      r
  }

  /**
   * `format_annotation`: the label padded to 20 characters, followed by
   * ": " and the help text when there is help, and by nothing otherwise.
   */
  function FormatAnnotation(labelText: string, help: string): (r: string)
    ensures |r| == Max(AnnotationWidth, |labelText|) + (if |help| > 0 then 2 + |help| else 0)
    ensures r[..|labelText|] == labelText
    ensures forall i :: |labelText| <= i < Max(AnnotationWidth, |labelText|) ==> r[i] == ' '
    ensures |help| > 0 ==> r[Max(AnnotationWidth, |labelText|)..] == ": " + help
  {
    if |help| > 0 then
      var padded := PadRight(labelText, AnnotationWidth);
      assert (padded + ": " + help)[..|padded|] == padded;
      padded + ": " + help
    else
      PadRight(labelText, AnnotationWidth)
  }

  /**
   * `Field<W, T>`: W is the widget manager, T the initial value and V stands
   * for a validator (whose rule is not part of this model).
   */
  class Field<W, T, V> {
    var labelText: string
    var help: string
    var initial: T
    var validators: seq<V>
    var widgetManager: W

    /** `Field::new`: the given label, manager and initial value; no help, no validators. */
    constructor (labelText: string, widgetManager: W, initial: T)
      ensures this.labelText == labelText && this.widgetManager == widgetManager && this.initial == initial
      ensures help == [] && validators == []
    {
      this.labelText := labelText;
      this.help := "";
      this.initial := initial;
      this.validators := [];
      this.widgetManager := widgetManager;
    }

    /** `Field::help`: replaces the help text and nothing else. */
    method Help(msg: string)
      modifies this
      ensures help == msg
      ensures labelText == old(labelText) && initial == old(initial) && validators == old(validators)
      ensures widgetManager == old(widgetManager)
    {
      help := msg;
    }

    /** `Field::validator`: appends one validator after the existing ones. */
    method Validator(validator: V)
      modifies this
      ensures validators == old(validators) + [validator]
      ensures |validators| == |old(validators)| + 1 && validators[..|old(validators)|] == old(validators)
      ensures labelText == old(labelText) && help == old(help) && initial == old(initial)
      ensures widgetManager == old(widgetManager)
    {
      validators := validators + [validator];
    }
  }
}
