/** The rating widget of src/components/ResultFeedback.tsx as a state machine: the comment dialog,
    the comment buffer and the submitted flag, driven by the user's clicks and typing. */
module Feedback {
  import opened Common

  /** The characters `String.prototype.trim` strips: ECMAScript white space and line terminators. */
  predicate IsSpace(c: char) {
    var n := c as int;
    n == 0x09 || n == 0x0A || n == 0x0B || n == 0x0C || n == 0x0D || n == 0x20 || n == 0xA0
    || n == 0x1680 || (0x2000 <= n <= 0x200A) || n == 0x2028 || n == 0x2029 || n == 0x202F
    || n == 0x205F || n == 0x3000 || n == 0xFEFF
  }

  /** Nothing but white space. */
  predicate Blank(s: string) {
    forall i :: 0 <= i < |s| ==> IsSpace(s[i])
  }

  /** Leading white space removed. */
  function TrimStart(s: string): (r: string)
    ensures |r| <= |s| && r == s[|s| - |r|..]
    ensures r == [] || !IsSpace(r[0])
    ensures forall i :: 0 <= i < |s| - |r| ==> IsSpace(s[i])
    decreases |s|
  {
    if s != [] && IsSpace(s[0]) then TrimStart(s[1..]) else s
  }

  /** Trailing white space removed. */
  function TrimEnd(s: string): (r: string)
    ensures |r| <= |s| && r == s[..|r|]
    ensures r == [] || !IsSpace(r[|r| - 1])
    ensures forall i :: |r| <= i < |s| ==> IsSpace(s[i])
    decreases |s|
  {
    if s != [] && IsSpace(s[|s| - 1]) then TrimEnd(s[..|s| - 1]) else s
  }

  /** `s.trim()`. */
  function Trim(s: string): string {
    TrimEnd(TrimStart(s))
  }

  /** `!comment.trim()` holds exactly for blank comments. */
  lemma TrimEmptyIffBlank(s: string)
    ensures Trim(s) == "" <==> Blank(s)
  {
  }

  datatype Widget = Widget(dialogOpen: bool, comment: string, submitted: bool)

  const Fresh: Widget := Widget(false, "", false)

  /** What the widget hands to `onFeedback`. */
  datatype Rating = PositiveRating | NegativeRating(comment: string)

  /** The widget after a user action and the rating emitted by it, if any. */
  datatype Reaction = Reaction(next: Widget, emitted: Option<Rating>)

  /** The three phases a user sees: rating buttons, the open comment dialog, the thank-you note. */
  datatype Phase = Idle | DialogOpen | Submitted

  function PhaseOf(w: Widget): Phase {
    if w.submitted then Submitted else if w.dialogOpen then DialogOpen else Idle
  }

  /** The comment dialog's send button is enabled. */
  predicate CanSubmitComment(w: Widget) {
    Trim(w.comment) != ""
  }

  /** `handlePositiveFeedback`, reachable only while the buttons are shown and enabled. */
  function PositiveClick(w: Widget, disabled: bool): (r: Reaction)
    ensures w.submitted || disabled ==> r == Reaction(w, None)
    ensures !w.submitted && !disabled ==>
      r.emitted == Some(PositiveRating) && r.next == w.(submitted := true)
  {
    if w.submitted || disabled then Reaction(w, None)
    else Reaction(w.(submitted := true), Some(PositiveRating))
  }

  /** `handleNegativeFeedback`: opens the dialog and emits nothing. */
  function NegativeClick(w: Widget, disabled: bool): (r: Reaction)
    ensures r.emitted.None?
    ensures w.submitted || disabled ==> r.next == w
    ensures !w.submitted && !disabled ==> PhaseOf(r.next) == DialogOpen && r.next.comment == w.comment
  {
    if w.submitted || disabled then Reaction(w, None)
    else Reaction(w.(dialogOpen := true), None)
  }

  /** Typing in the dialog's text area. */
  function EditComment(w: Widget, text: string): (r: Reaction)
    ensures r.emitted.None?
    ensures !w.submitted && w.dialogOpen ==> r.next == w.(comment := text)
    ensures w.submitted || !w.dialogOpen ==> r.next == w
  {
    if !w.submitted && w.dialogOpen then Reaction(w.(comment := text), None) else Reaction(w, None)
  }

  /** `handleSubmitComment`, reachable only while the dialog is open and the comment is not blank. */
  function SubmitComment(w: Widget): (r: Reaction)
    ensures r.emitted.Some? <==> !w.submitted && w.dialogOpen && !Blank(w.comment)
    ensures r.emitted.Some? ==> r.emitted.value == NegativeRating(w.comment) && r.next == Widget(false, "", true)
    ensures r.emitted.None? ==> r.next == w
  {
    TrimEmptyIffBlank(w.comment);
    if !w.submitted && w.dialogOpen && CanSubmitComment(w) then Reaction(Widget(false, "", true), Some(NegativeRating(w.comment)))
    else Reaction(w, None)
  }

  /** The dialog's cancel button (or dismissing it): closes without emitting and keeps the typed text. */
  function CloseDialog(w: Widget): (r: Reaction)
    ensures r.emitted.None?
    ensures !w.submitted ==> r.next == w.(dialogOpen := false)
    ensures w.submitted ==> r.next == w
  {
    if w.submitted then Reaction(w, None) else Reaction(w.(dialogOpen := false), None)
  }

  datatype Action = ClickPositive | ClickNegative | Type(text: string) | Send | Cancel

  /** A user action together with the `disabled` prop at that moment. */
  datatype Input = Input(action: Action, disabled: bool)

  function Step(w: Widget, i: Input): (r: Reaction)
    ensures w.submitted ==> r == Reaction(w, None)
    ensures r.emitted.Some? <==> !w.submitted && r.next.submitted
    ensures r.emitted.Some? && r.emitted.value.NegativeRating? ==> !Blank(r.emitted.value.comment)
    ensures r.emitted.Some? ==> !r.next.dialogOpen || r.emitted.value.PositiveRating?
  {
    match i.action
    case ClickPositive => PositiveClick(w, i.disabled)
    case ClickNegative => NegativeClick(w, i.disabled)
    case Type(text) => EditComment(w, text)
    case Send => SubmitComment(w)
    case Cancel => CloseDialog(w)
  }

  /** The widget after a run of inputs and the ratings emitted along the way. */
  datatype Trace = Trace(final: Widget, emitted: seq<Rating>)

  function Run(w: Widget, inputs: seq<Input>): Trace
    decreases |inputs|
  {
    if inputs == [] then Trace(w, [])
    else
      var r := Step(w, inputs[0]);
      var rest := Run(r.next, inputs[1..]);
      Trace(rest.final, (if r.emitted.Some? then [r.emitted.value] else []) + rest.emitted)
  }

  /** Whatever the user does, the widget emits at most one rating; it is submitted exactly when it has
      emitted one; once submitted nothing changes; every negative rating carries a non-blank comment. */
  lemma {:induction false} RunEmitsAtMostOnce(w: Widget, inputs: seq<Input>)
    ensures w.submitted ==> Run(w, inputs) == Trace(w, [])
    ensures !w.submitted ==> |Run(w, inputs).emitted| <= 1
    ensures Run(w, inputs).final.submitted <==> w.submitted || |Run(w, inputs).emitted| == 1
    ensures forall k :: 0 <= k < |Run(w, inputs).emitted| && Run(w, inputs).emitted[k].NegativeRating? ==>
      !Blank(Run(w, inputs).emitted[k].comment)
    decreases |inputs|
  {
    if inputs != [] {
      var r := Step(w, inputs[0]);
      RunEmitsAtMostOnce(r.next, inputs[1..]);
    }
  }

  /** From a fresh widget the user can give at most one rating. */
  lemma FreshWidgetRatesOnce(inputs: seq<Input>)
    ensures |Run(Fresh, inputs).emitted| <= 1
    ensures Run(Fresh, inputs).final.submitted <==> |Run(Fresh, inputs).emitted| == 1
  {
    RunEmitsAtMostOnce(Fresh, inputs);
  }
}
