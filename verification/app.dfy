/** The state the application component keeps and the handlers that change
    it. Every asynchronous handler is split at its `await`:

    - a begin step runs synchronously when the handler is invoked, reads the
      state as it is then, and returns the new state together with the
      requests it sends;
    - a settle step runs when the request's promise settles, and applies the
      handler's functional state updates and its error and cleanup blocks to
      whatever state exists at that moment, given how the promise settled.

    A settle step is one atomic transition; other handlers may have run
    between a begin step and its settle step. */
module App {
  import opened Wrappers
  import opened Seqs
  import opened Text
  import opened Todos

  const AddError: string := "Unable to add a todo"
  const DeleteError: string := "Unable to delete a todo"
  const UnexpectedDeleteError: string := "Unexpected error while deleting todos"
  const UpdateError: string := "Unable to update a todo"

  /** The component's state hooks, minus the filter and the initial-load
      flag, which no handler here touches. */
  datatype State = State(
    todos: seq<Todo>,
    error: string,
    tempTodo: Option<Todo>,
    loadingTodoIds: seq<int>,
    editingTodoId: Option<int>,
    query: string)

  /** The calls made to the todo API. */
  datatype Request =
    | PostTodo(title: string, completed: bool, userId: int)
    | DeleteTodo(id: int)
    | PatchCompleted(id: int, completed: bool)
    | PatchTitle(id: int, title: string)

  /** The result of a begin step: the new state and the requests sent, in the
      order they are sent. */
  datatype Step = Step(state: State, requests: seq<Request>)

  /** The loading list after a request for `id` has settled: every copy of
      `id` is gone and the rest keep their order. */
  ghost predicate LoadingCleared(after: seq<int>, before: seq<int>, id: int)
  {
    && Subsequence(after, before)
    && forall x :: multiset(after)[x] == if x == id then 0 else multiset(before)[x]
  }

  // ---------------------------------------------------------------------
  // handleAddTodo

  /** Invoking `handleAddTodo(title)`: the placeholder appears and the create
      request goes out. */
  function AddBegin(s: State, title: string): (r: Step)
    ensures r.state.tempTodo == Some(Todo(PlaceholderId, title, false, UserId))
    ensures r.state == s.(tempTodo := r.state.tempTodo)
    ensures r.requests == [PostTodo(title, false, UserId)]
  {
    Step(s.(tempTodo := Some(Todo(PlaceholderId, title, false, UserId))),
         [PostTodo(title, false, UserId)])
  }

  /** The state after the add settles, and whether `handleAddTodo` rethrows
      to its caller. */
  datatype AddSettled = AddSettled(state: State, rejected: bool)

  /** The create request settling. On success the created todo is appended
      after every existing todo; on failure the collection is kept, the error
      is set and the caller sees a rejection. The placeholder is gone either
      way, and nothing else changes. */
  function AddSettle(s: State, response: Outcome<Todo>): (r: AddSettled)
    ensures r.state.tempTodo == None
    ensures r.rejected <==> response.Rejected?
    ensures response.Fulfilled? ==>
      && |r.state.todos| == |s.todos| + 1
      && r.state.todos[..|s.todos|] == s.todos
      && r.state.todos[|s.todos|] == response.value
      && r.state.error == s.error
    ensures response.Rejected? ==> r.state.todos == s.todos && r.state.error == AddError
    ensures r.state == s.(todos := r.state.todos, error := r.state.error, tempTodo := None)
  {
    match response
    case Fulfilled(created) => AddSettled(s.(todos := s.todos + [created], tempTodo := None), false)
    case Rejected => AddSettled(s.(error := AddError, tempTodo := None), true)
  }

  // ---------------------------------------------------------------------
  // handleDeleteTodo

  /** Invoking `handleDeleteTodo(id)`: `id` is appended to the loading list
      (a second copy if it is already there) and the delete request goes
      out. */
  function DeleteBegin(s: State, id: int): (r: Step)
    ensures r.state == s.(loadingTodoIds := r.state.loadingTodoIds)
    ensures |r.state.loadingTodoIds| == |s.loadingTodoIds| + 1
    ensures r.state.loadingTodoIds[..|s.loadingTodoIds|] == s.loadingTodoIds
    ensures r.state.loadingTodoIds[|s.loadingTodoIds|] == id
    ensures r.requests == [DeleteTodo(id)]
  {
    Step(s.(loadingTodoIds := s.loadingTodoIds + [id]), [DeleteTodo(id)])
  }

  /** The delete request settling. On success exactly the todos with that id
      leave the collection and the others keep their order; on failure the
      collection is kept and the error is set. Every copy of `id` leaves the
      loading list on both paths. */
  function DeleteSettle(s: State, id: int, response: Settlement): (r: State)
    ensures LoadingCleared(r.loadingTodoIds, s.loadingTodoIds, id)
    ensures response.Fulfilled? ==>
      && Subsequence(r.todos, s.todos)
      && (forall t :: multiset(r.todos)[t] == if t.id == id then 0 else multiset(s.todos)[t])
      && r.error == s.error
    ensures response.Rejected? ==> r.todos == s.todos && r.error == DeleteError
    ensures r == s.(todos := r.todos, error := r.error, loadingTodoIds := r.loadingTodoIds)
  {
    var loading := Remove(s.loadingTodoIds, id);
    match response
    case Fulfilled(_) => s.(todos := WithoutId(s.todos, id), loadingTodoIds := loading)
    case Rejected => s.(error := DeleteError, loadingTodoIds := loading)
  }

  // ---------------------------------------------------------------------
  // handleDeleteCompletedTodos

  /** Some completed todo carries `x`. */
  ghost predicate CompletedId(todos: seq<Todo>, x: int)
  {
    exists i | 0 <= i < |todos| :: todos[i].completed && todos[i].id == x
  }

  /** The ids the bulk delete targets: one per completed todo, in list
      order. */
  function CompletedIds(todos: seq<Todo>): (ids: seq<int>)
    ensures |ids| == |GetPreparedTodos(todos, Completed)|
    ensures forall k | 0 <= k < |ids| :: ids[k] == GetPreparedTodos(todos, Completed)[k].id
    ensures ids == [] <==> forall i | 0 <= i < |todos| :: !todos[i].completed
    ensures forall i | 0 <= i < |todos| && todos[i].completed :: todos[i].id in ids
    ensures forall k | 0 <= k < |ids| :: CompletedId(todos, ids[k])
  {
    var done := GetPreparedTodos(todos, Completed);
    var ids := Ids(done);
    forall i | 0 <= i < |todos| && todos[i].completed
      ensures todos[i].id in ids
    {
      FilterKeeps(IsCompleted, todos, i);
      var k :| 0 <= k < |done| && done[k] == todos[i];
      assert ids[k] == todos[i].id;
    }
    forall k | 0 <= k < |ids|
      ensures CompletedId(todos, ids[k])
    {
      FilterFrom(IsCompleted, todos, k);
      var i :| 0 <= i < |todos| && todos[i] == done[k];
      assert todos[i].completed && todos[i].id == ids[k];
    }
    ids
  }

  /** Invoking `handleDeleteCompletedTodos`. With no completed todo it returns
      at once; otherwise it appends the ids to the loading list and sends one
      delete request per id, in list order. */
  function ClearCompletedBegin(s: State): (r: Step)
    ensures CompletedIds(s.todos) == [] ==> r == Step(s, [])
    ensures CompletedIds(s.todos) != [] ==>
      && r.state == s.(loadingTodoIds := s.loadingTodoIds + CompletedIds(s.todos))
      && |r.requests| == |CompletedIds(s.todos)|
      && forall k | 0 <= k < |r.requests| :: r.requests[k] == DeleteTodo(CompletedIds(s.todos)[k])
  {
    var ids := CompletedIds(s.todos);
    if ids == [] then Step(s, [])
    else Step(s.(loadingTodoIds := s.loadingTodoIds + ids), Map((id: int) => DeleteTodo(id), ids))
  }

  /** How the awaited `Promise.allSettled` ends: with one status per id, in
      the order of the ids, or by throwing (only a request function that
      throws synchronously can lead there). */
  datatype BulkResult = AllSettled(results: seq<Settlement>) | Threw

  /** The delete of `x` was attempted and fulfilled. */
  ghost predicate Deleted(ids: seq<int>, results: seq<Settlement>, x: int)
    requires |results| == |ids|
  {
    exists i | 0 <= i < |ids| :: ids[i] == x && results[i].Fulfilled?
  }

  /** The ids whose delete was fulfilled: the ids at the positions whose
      settlement is fulfilled. */
  function SucceededIds(ids: seq<int>, results: seq<Settlement>): (r: seq<int>)
    requires |results| == |ids|
    ensures forall x :: x in r <==> Deleted(ids, results, x)
    decreases |ids|
  {
    if |ids| == 0 then []
    else
      var rest := SucceededIds(ids[1..], results[1..]);
      assert forall x :: Deleted(ids[1..], results[1..], x) ==> Deleted(ids, results, x) by {
        forall x | Deleted(ids[1..], results[1..], x)
          ensures Deleted(ids, results, x)
        {
          var i :| 0 <= i < |ids| - 1 && ids[1..][i] == x && results[1..][i].Fulfilled?;
          assert ids[i + 1] == x && results[i + 1].Fulfilled?;
        }
      }
      if results[0].Fulfilled? then [ids[0]] + rest else rest
  }

  /** At least one of the deletes was rejected. */
  predicate AnyRejected(results: seq<Settlement>)
  {
    exists i | 0 <= i < |results| :: results[i].Rejected?
  }

  /** The bulk delete settling; `ids` are the ids captured at invocation.
      The collection loses exactly the todos whose id had a fulfilled delete,
      the others keep their order; the error is set to the delete error when
      at least one delete was rejected and is otherwise left alone. If the
      await throws, the collection is kept and the unexpected-error message
      is shown. Every attempted id leaves the loading list in all cases. */
  function ClearCompletedSettle(s: State, ids: seq<int>, result: BulkResult): (r: State)
    requires result.AllSettled? ==> |result.results| == |ids|
    ensures Subsequence(r.loadingTodoIds, s.loadingTodoIds)
    ensures forall x :: multiset(r.loadingTodoIds)[x] == if x in ids then 0 else multiset(s.loadingTodoIds)[x]
    ensures result.AllSettled? ==>
      && Subsequence(r.todos, s.todos)
      && (forall t :: multiset(r.todos)[t] ==
            if Deleted(ids, result.results, t.id) then 0 else multiset(s.todos)[t])
      && r.error == if AnyRejected(result.results) then DeleteError else s.error
    ensures result.Threw? ==> r.todos == s.todos && r.error == UnexpectedDeleteError
    ensures r == s.(todos := r.todos, error := r.error, loadingTodoIds := r.loadingTodoIds)
  {
    var loading := RemoveAll(s.loadingTodoIds, ids);
    match result
    case AllSettled(results) =>
      var todos := WithoutIds(s.todos, SucceededIds(ids, results));
      var error := if AnyRejected(results) then DeleteError else s.error;
      s.(todos := todos, error := error, loadingTodoIds := loading)
    case Threw =>
      s.(error := UnexpectedDeleteError, loadingTodoIds := loading)
  }

  // ---------------------------------------------------------------------
  // handleChangeTodoStatus

  /** Invoking `handleChangeTodoStatus(id, completed)`. */
  function ToggleBegin(s: State, id: int, completed: bool): (r: Step)
    ensures r.state == s.(loadingTodoIds := r.state.loadingTodoIds)
    ensures |r.state.loadingTodoIds| == |s.loadingTodoIds| + 1
    ensures r.state.loadingTodoIds[..|s.loadingTodoIds|] == s.loadingTodoIds
    ensures r.state.loadingTodoIds[|s.loadingTodoIds|] == id
    ensures r.requests == [PatchCompleted(id, completed)]
  {
    Step(s.(loadingTodoIds := s.loadingTodoIds + [id]), [PatchCompleted(id, completed)])
  }

  /** The status update settling. On success the todos with that id take the
      `completed` value the server returned, and nothing else about any todo
      changes: not its id, title, owner or position. On failure the
      collection is kept and the error is set. The id leaves the loading
      list on both paths. */
  function ToggleSettle(s: State, id: int, response: Outcome<Todo>): (r: State)
    ensures LoadingCleared(r.loadingTodoIds, s.loadingTodoIds, id)
    ensures response.Fulfilled? ==>
      && |r.todos| == |s.todos|
      && r.error == s.error
      && forall i | 0 <= i < |s.todos| ::
           && r.todos[i].id == s.todos[i].id
           && r.todos[i].title == s.todos[i].title
           && r.todos[i].userId == s.todos[i].userId
           && r.todos[i].completed == if s.todos[i].id == id then response.value.completed
                                      else s.todos[i].completed
    ensures response.Rejected? ==> r.todos == s.todos && r.error == UpdateError
    ensures r == s.(todos := r.todos, error := r.error, loadingTodoIds := r.loadingTodoIds)
  {
    var loading := Remove(s.loadingTodoIds, id);
    match response
    case Fulfilled(updated) =>
      s.(todos := SetCompletedById(s.todos, id, updated.completed), loadingTodoIds := loading)
    case Rejected => s.(error := UpdateError, loadingTodoIds := loading)
  }

  // ---------------------------------------------------------------------
  // handleChangeAllTodoStatus

  /** The status every todo is sent to: the negation of "every todo is
      completed". It is true exactly when some todo is still active, so an
      empty list yields false. */
  function ToggleAllTarget(todos: seq<Todo>): (target: bool)
    ensures target <==> exists i | 0 <= i < |todos| :: !todos[i].completed
    ensures |todos| == 0 ==> !target
  {
    !(forall i | 0 <= i < |todos| :: todos[i].completed)
  }

  /** The todos that receive a status update: exactly those whose status
      differs from the target, each as often as it occurs, in list order. */
  function ToggleAllTargets(todos: seq<Todo>): (r: seq<Todo>)
    ensures Subsequence(r, todos)
    ensures forall i | 0 <= i < |r| :: r[i].completed != ToggleAllTarget(todos)
    ensures forall t :: multiset(r)[t] == (if t.completed != ToggleAllTarget(todos) then multiset(todos)[t] else 0)
  {
    var target := ToggleAllTarget(todos);
    Filter((t: Todo) => t.completed != target, todos)
  }

  /** A todo whose status differs from the target is among the todos
      toggle-all updates. */
  lemma ToggleAllTargetsHas(todos: seq<Todo>, i: nat)
    requires i < |todos| && todos[i].completed != ToggleAllTarget(todos)
    ensures exists k | 0 <= k < |ToggleAllTargets(todos)| :: ToggleAllTargets(todos)[k] == todos[i]
  {
    assert multiset(ToggleAllTargets(todos))[todos[i]] == multiset(todos)[todos[i]];
    assert todos[i] in ToggleAllTargets(todos);
  }

  /** Every todo toggle-all updates is in the collection. */
  lemma ToggleAllTargetsFrom(todos: seq<Todo>, k: nat)
    requires k < |ToggleAllTargets(todos)|
    ensures exists i | 0 <= i < |todos| :: todos[i] == ToggleAllTargets(todos)[k]
  {
    var ts := ToggleAllTargets(todos);
    assert ts[k] in multiset(ts);
    assert ts[k] in todos;
  }

  /** The status updates sent for `ts`, one per todo, in order. */
  function ToggleRequests(ts: seq<Todo>, target: bool): (r: seq<Request>)
    ensures |r| == |ts|
    ensures forall k | 0 <= k < |ts| :: r[k] == PatchCompleted(ts[k].id, target)
    decreases |ts|
  {
    if |ts| == 0 then [] else [PatchCompleted(ts[0].id, target)] + ToggleRequests(ts[1..], target)
  }

  /** The status handler's begin step run for each todo of `ts` in turn,
      each on the state the previous one left, with the requests collected
      in the order they are sent. */
  function BeginEach(s: State, ts: seq<Todo>, target: bool): (r: Step)
    decreases |ts|
  {
    if |ts| == 0 then Step(s, [])
    else
      var first := ToggleBegin(s, ts[0].id, target);
      var rest := BeginEach(first.state, ts[1..], target);
      Step(rest.state, first.requests + rest.requests)
  }

  /** Running `handleChangeTodoStatus(t.id, target)` for each `t` of `ts` in
      turn, up to its `await`: each run appends its id to the loading list
      and sends its update. */
  function IssueToggles(s: State, ts: seq<Todo>, target: bool): (r: Step)
    ensures r.state == s.(loadingTodoIds := r.state.loadingTodoIds)
    ensures |r.state.loadingTodoIds| == |s.loadingTodoIds| + |ts|
    ensures r.state.loadingTodoIds[..|s.loadingTodoIds|] == s.loadingTodoIds
    ensures forall k | 0 <= k < |ts| :: r.state.loadingTodoIds[|s.loadingTodoIds| + k] == ts[k].id
    ensures r.requests == ToggleRequests(ts, target)
  {
    Step(s.(loadingTodoIds := s.loadingTodoIds + Ids(ts)), ToggleRequests(ts, target))
  }

  /** Invoking `handleChangeAllTodoStatus`: one status update per todo whose
      status differs from the target, all sent to the target. Each then
      settles independently through `ToggleSettle`. */
  function ToggleAllBegin(s: State): (r: Step)
    ensures r.state == s.(loadingTodoIds := s.loadingTodoIds + Ids(ToggleAllTargets(s.todos)))
    ensures |r.requests| == |ToggleAllTargets(s.todos)|
    ensures forall k | 0 <= k < |r.requests| ::
      r.requests[k] == PatchCompleted(ToggleAllTargets(s.todos)[k].id, ToggleAllTarget(s.todos))
    ensures |s.todos| == 0 ==> r.requests == []
  {
    IssueToggles(s, ToggleAllTargets(s.todos), ToggleAllTarget(s.todos))
  }

  // ---------------------------------------------------------------------
  // handleSetIsEditing

  /** Entering edit mode for a todo seeds the draft with its title; leaving
      it clears both. Nothing else changes. */
  function SetEditing(s: State, todo: Option<Todo>): (r: State)
    ensures todo.Some? ==> r.editingTodoId == Some(todo.value.id) && r.query == todo.value.title
    ensures todo.None? ==> r.editingTodoId == None && r.query == ""
    ensures r == s.(editingTodoId := r.editingTodoId, query := r.query)
  {
    match todo
    case Some(t) => s.(editingTodoId := Some(t.id), query := t.title)
    case None => s.(editingTodoId := None, query := "")
  }

  // ---------------------------------------------------------------------
  // handleUpdateTodo

  /** Invoking `handleUpdateTodo(id, text)` on the collection as it is at
      that moment:
      - an id that is not in the collection does nothing;
      - a trimmed text equal to the todo's title leaves edit mode without a
        request;
      - otherwise, a blank text is handed to `handleDeleteTodo`;
      - otherwise the id is marked loading and the trimmed title is sent. */
  function RenameBegin(s: State, id: int, text: string): (r: Step)
    ensures Find(s.todos, id).None? ==> r == Step(s, [])
    ensures Find(s.todos, id).Some? && Trim(text) == Find(s.todos, id).value.title ==>
      r == Step(s.(editingTodoId := None, query := ""), [])
    ensures Find(s.todos, id).Some? && Trim(text) != Find(s.todos, id).value.title && AllWhitespace(text) ==>
      r == DeleteBegin(s, id)
    ensures Find(s.todos, id).Some? && Trim(text) != Find(s.todos, id).value.title && !AllWhitespace(text) ==>
      && r.state == s.(loadingTodoIds := s.loadingTodoIds + [id])
      && r.requests == [PatchTitle(id, Trim(text))]
  {
    match Find(s.todos, id)
    case None => Step(s, [])
    case Some(current) =>
      var trimmed := Trim(text);
      if trimmed == current.title then Step(s.(editingTodoId := None, query := ""), [])
      else if trimmed == "" then DeleteBegin(s, id)
      else Step(s.(loadingTodoIds := s.loadingTodoIds + [id]), [PatchTitle(id, trimmed)])
  }

  /** The title update settling. On success every todo with that id is
      replaced by the server's response, the others stay as they were, and
      edit mode is left with the draft cleared. On failure the collection,
      the editing id and the draft are kept and the error is set. The id
      leaves the loading list on both paths. */
  function RenameSettle(s: State, id: int, response: Outcome<Todo>): (r: State)
    ensures LoadingCleared(r.loadingTodoIds, s.loadingTodoIds, id)
    ensures response.Fulfilled? ==>
      && |r.todos| == |s.todos|
      && (forall i | 0 <= i < |s.todos| && s.todos[i].id == id :: r.todos[i] == response.value)
      && (forall i | 0 <= i < |s.todos| && s.todos[i].id != id :: r.todos[i] == s.todos[i])
      && r.editingTodoId == None && r.query == ""
      && r.error == s.error
    ensures response.Rejected? ==>
      && r.todos == s.todos
      && r.editingTodoId == s.editingTodoId && r.query == s.query
      && r.error == UpdateError
    ensures r.tempTodo == s.tempTodo
  {
    var loading := Remove(s.loadingTodoIds, id);
    match response
    case Fulfilled(updated) =>
      s.(todos := ReplaceById(s.todos, id, updated), editingTodoId := None, query := "",
         loadingTodoIds := loading)
    case Rejected => s.(error := UpdateError, loadingTodoIds := loading)
  }

  // ---------------------------------------------------------------------
  // The error banner's close button

  function DismissError(s: State): (r: State)
    ensures r.error == ""
    ensures r == s.(error := r.error)
  {
    s.(error := "")
  }
}
