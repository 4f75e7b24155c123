/** The new-todo input: its text, whether it is disabled, and the submit
    handler that validates the text before handing it to the add handler. */
module NewTodo {
  import opened Text

  const EmptyTitleError: string := "Title should not be empty"

  datatype Form = Form(title: string, isDisabled: bool)

  const Initial: Form := Form("", false)

  /** The input never holds text that starts with whitespace. */
  predicate NoLeadingWhitespace(f: Form)
  {
    f.title == [] || !IsWhitespace(f.title[0])
  }

  /** `handleChange`: the typed value is stored with its leading whitespace
      removed, and only that. */
  function Change(f: Form, value: string): (r: Form)
    ensures NoLeadingWhitespace(r)
    ensures |r.title| <= |value| && r.title == value[|value| - |r.title|..]
    ensures AllWhitespace(value[..|value| - |r.title|])
    ensures r.isDisabled == f.isDisabled
  {
    f.(title := TrimStart(value))
  }

  /** What submitting the form does synchronously: either it refuses with an
      error for the application's banner, or it disables the input and calls
      the add handler with a title. */
  datatype Submission = Refused(error: string) | Invoked(form: Form, title: string)

  /** The part of `handleSubmit` up to its `await`. A blank text is refused
      and the add handler is not called; otherwise the add handler receives
      the trimmed text, which is never blank and neither starts nor ends with
      whitespace, and the input is disabled with its text kept. */
  function SubmitBegin(f: Form): (r: Submission)
    ensures r.Refused? <==> AllWhitespace(f.title)
    ensures r.Refused? ==> r.error == EmptyTitleError
    ensures r.Invoked? ==>
      && r.title == Trim(f.title)
      && r.title != "" && !IsWhitespace(r.title[0]) && !IsWhitespace(r.title[|r.title| - 1])
      && r.form == Form(f.title, true)
  {
    if Trim(f.title) == "" then Refused(EmptyTitleError)
    else Invoked(f.(isDisabled := true), Trim(f.title))
  }

  /** The rest of `handleSubmit`, once the add handler's promise settles:
      the text is cleared only if the add succeeded, and the input is enabled
      again on both paths. */
  function SubmitSettle(f: Form, addRejected: bool): (r: Form)
    ensures !r.isDisabled
    ensures addRejected ==> r.title == f.title
    ensures !addRejected ==> r.title == ""
  {
    if addRejected then f.(isDisabled := false) else Form("", false)
  }

  /** Everything that can happen to the input. */
  datatype Event = Typed(value: string) | Submitted | AddSettled(rejected: bool)

  function Apply(f: Form, e: Event): (r: Form)
  {
    match e
    case Typed(value) => Change(f, value)
    case Submitted =>
      (match SubmitBegin(f)
       case Refused(_) => f
       case Invoked(form, _) => form)
    case AddSettled(rejected) => SubmitSettle(f, rejected)
  }

  function Run(f: Form, events: seq<Event>): (r: Form)
    decreases |events|
  {
    if |events| == 0 then f else Run(Apply(f, events[0]), events[1..])
  }

  /** Whatever the user types and however submissions settle, the stored
      text never starts with whitespace. */
  lemma {:induction false} NeverLeadingWhitespace(f: Form, events: seq<Event>)
    requires NoLeadingWhitespace(f)
    ensures NoLeadingWhitespace(Run(f, events))
    decreases |events|
  {
    if |events| > 0 {
      NeverLeadingWhitespace(Apply(f, events[0]), events[1..]);
    }
  }

  /** In particular from the empty input the component starts with. */
  lemma InitialNeverLeadingWhitespace(events: seq<Event>)
    ensures NoLeadingWhitespace(Run(Initial, events))
  {
    NeverLeadingWhitespace(Initial, events);
  }
}
