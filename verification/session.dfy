/** The new-todo input wired to the application component, as the header
    renders them: a refused submission reports through the application's
    error, and an accepted one runs the add handler, whose rejection decides
    whether the input is cleared. */
module Session {
  import opened Wrappers
  import opened Text
  import opened Todos
  import App
  import NewTodo

  datatype Screen = Screen(app: App.State, form: NewTodo.Form)

  /** Submitting the form, up to the add handler's `await`. */
  function Submit(sc: Screen): (r: (Screen, seq<App.Request>))
    ensures AllWhitespace(sc.form.title) ==>
      r == (Screen(sc.app.(error := NewTodo.EmptyTitleError), sc.form), [])
    ensures !AllWhitespace(sc.form.title) ==>
      && r.0.app == sc.app.(tempTodo := Some(Todo(PlaceholderId, Trim(sc.form.title), false, UserId)))
      && r.0.form == sc.form.(isDisabled := true)
      && r.1 == [App.PostTodo(Trim(sc.form.title), false, UserId)]
  {
    match NewTodo.SubmitBegin(sc.form)
    case Refused(message) => (Screen(sc.app.(error := message), sc.form), [])
    case Invoked(form, title) =>
      var begun := App.AddBegin(sc.app, title);
      (Screen(begun.state, form), begun.requests)
  }

  /** The create request settling: the add handler's updates, then the
      submit handler's. The placeholder goes and the input is enabled on both
      paths. Success appends the server's todo and clears the typed text;
      failure keeps the collection and the text and shows the add error. */
  function SettleSubmit(sc: Screen, response: Outcome<Todo>): (r: Screen)
    ensures r.app.tempTodo == None && !r.form.isDisabled
    ensures response.Fulfilled? ==>
      && r.app.todos == sc.app.todos + [response.value]
      && r.app.error == sc.app.error
      && r.form.title == ""
    ensures response.Rejected? ==>
      && r.app.todos == sc.app.todos
      && r.app.error == App.AddError
      && r.form.title == sc.form.title
    ensures r.app == sc.app.(todos := r.app.todos, error := r.app.error, tempTodo := None)
  {
    var settled := App.AddSettle(sc.app, response);
    Screen(settled.state, NewTodo.SubmitSettle(sc.form, settled.rejected))
  }

  /** A full submission of a non-blank text: exactly one todo is appended on
      success, the server's, after an optimistic placeholder carrying the
      trimmed text, and the input is cleared; on failure the collection and
      the typed text are both kept and the add error is shown. Either way the
      placeholder is gone and the input is enabled again. */
  lemma SubmitRoundTrip(sc: Screen, response: Outcome<Todo>)
    requires !AllWhitespace(sc.form.title)
    ensures var (pending, _) := Submit(sc);
      var done := SettleSubmit(pending, response);
      && pending.app.tempTodo == Some(Todo(PlaceholderId, Trim(sc.form.title), false, UserId))
      && pending.form.isDisabled
      && done.app.tempTodo == None
      && !done.form.isDisabled
      && (response.Fulfilled? ==>
            done.app.todos == sc.app.todos + [response.value] && done.form.title == "")
      && (response.Rejected? ==>
            && done.app.todos == sc.app.todos
            && done.form.title == sc.form.title
            && done.app.error == App.AddError)
  {
    var (pending, _) := Submit(sc);
    var settled := App.AddSettle(pending.app, response);
    if response.Fulfilled? {
      assert settled.state.todos == sc.app.todos + [response.value];
    }
  }

  /** A blank submission sends nothing, keeps the typed text and the input
      enabled state, and reports the empty-title error. */
  lemma BlankSubmitRefused(sc: Screen)
    requires AllWhitespace(sc.form.title)
    ensures Submit(sc).1 == []
    ensures Submit(sc).0.form == sc.form
    ensures Submit(sc).0.app.error == NewTodo.EmptyTitleError
    ensures Submit(sc).0.app.todos == sc.app.todos
  {
  }
}
