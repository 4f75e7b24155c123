/** Properties that relate several handlers of the application component,
    or a begin step to its settle step. */
module AppProperties {
  import opened Wrappers
  import opened Seqs
  import opened Text
  import opened Todos
  import opened App

  // ---------------------------------------------------------------------
  // Loading list bookkeeping

  /** A delete's begin and settle steps, with nothing in between, leave the
      loading list as they found it whatever the outcome, provided the id
      was not already loading. */
  lemma DeleteRestoresLoading(s: State, id: int, response: Settlement)
    requires id !in s.loadingTodoIds
    ensures DeleteSettle(DeleteBegin(s, id).state, id, response).loadingTodoIds == s.loadingTodoIds
  {
    RemoveAfterAppend(s.loadingTodoIds, id);
  }

  /** The same for a status update. */
  lemma ToggleRestoresLoading(s: State, id: int, completed: bool, response: Outcome<Todo>)
    requires id !in s.loadingTodoIds
    ensures ToggleSettle(ToggleBegin(s, id, completed).state, id, response).loadingTodoIds == s.loadingTodoIds
  {
    RemoveAfterAppend(s.loadingTodoIds, id);
  }

  /** The same for the bulk delete: all attempted ids leave the loading list
      again, whatever the individual outcomes. */
  lemma ClearCompletedRestoresLoading(s: State, result: BulkResult)
    requires forall x | x in CompletedIds(s.todos) :: x !in s.loadingTodoIds
    requires result.AllSettled? ==> |result.results| == |CompletedIds(s.todos)|
    ensures ClearCompletedSettle(ClearCompletedBegin(s).state, CompletedIds(s.todos), result).loadingTodoIds
         == s.loadingTodoIds
  {
    var ids := CompletedIds(s.todos);
    if ids == [] {
      FilterKeepsAll(y => y !in ids, s.loadingTodoIds);
    } else {
      RemoveAllAfterAppend(s.loadingTodoIds, ids);
    }
  }

  // ---------------------------------------------------------------------
  // Add and delete

  /** A successful delete undoes a successful add: the created todo goes and
      the collection is exactly what it was, provided its id was new. */
  lemma AddThenDeleteRestores(s: State, created: Todo)
    requires forall i | 0 <= i < |s.todos| :: s.todos[i].id != created.id
    ensures DeleteSettle(AddSettle(s, Fulfilled(created)).state, created.id, Fulfilled(())).todos == s.todos
  {
    var p := (t: Todo) => t.id != created.id;
    FilterConcat(p, s.todos, [created]);
    FilterKeepsAll(p, s.todos);
  }

  /** The placeholder shows the submitted title exactly while the create
      request is pending: it is set by the begin step and cleared by the
      settle step on both paths, whatever ran in between. */
  lemma PlaceholderLifecycle(s: State, title: string, current: State, response: Outcome<Todo>)
    ensures AddBegin(s, title).state.tempTodo == Some(Todo(PlaceholderId, title, false, UserId))
    ensures AddBegin(s, title).state.todos == s.todos
    ensures AddSettle(current, response).state.tempTodo == None
    ensures response.Rejected? ==> AddSettle(current, response).state.todos == current.todos
  {
  }

  // ---------------------------------------------------------------------
  // Clear completed

  /** When every delete is fulfilled, the successful ids are all the ids. */
  lemma SucceededAllFulfilled(ids: seq<int>, results: seq<Settlement>, x: int)
    requires |results| == |ids|
    requires forall i | 0 <= i < |results| :: results[i].Fulfilled?
    ensures x in SucceededIds(ids, results) <==> x in ids
  {
    if x in ids {
      var k :| 0 <= k < |ids| && ids[k] == x;
      assert Deleted(ids, results, x);
    }
  }

  /** With unique ids, a todo's id is among the completed ids exactly when
      that todo is completed. */
  lemma CompletedIdOfUnique(todos: seq<Todo>, i: nat)
    requires UniqueIds(todos)
    requires i < |todos|
    ensures todos[i].id in CompletedIds(todos) <==> todos[i].completed
  {
    if todos[i].id in CompletedIds(todos) {
      var k :| 0 <= k < |CompletedIds(todos)| && CompletedIds(todos)[k] == todos[i].id;
      var j :| 0 <= j < |todos| && todos[j].completed && todos[j].id == CompletedIds(todos)[k];
      assert j == i;
    }
  }

  /** When every delete of the bulk delete is fulfilled and the collection
      has not changed since it was invoked, what remains is exactly the
      Active view of the collection, and no error is raised. */
  lemma ClearCompletedAllFulfilled(s: State, results: seq<Settlement>)
    requires UniqueIds(s.todos)
    requires |results| == |CompletedIds(s.todos)|
    requires forall i | 0 <= i < |results| :: results[i].Fulfilled?
    ensures ClearCompletedSettle(ClearCompletedBegin(s).state, CompletedIds(s.todos), AllSettled(results)).todos
         == GetPreparedTodos(s.todos, Active)
    ensures ClearCompletedSettle(ClearCompletedBegin(s).state, CompletedIds(s.todos), AllSettled(results)).error
         == s.error
  {
    var ids := CompletedIds(s.todos);
    var succ := SucceededIds(ids, results);
    forall i | 0 <= i < |s.todos|
      ensures (s.todos[i].id !in succ) == IsActive(s.todos[i])
    {
      SucceededAllFulfilled(ids, results, s.todos[i].id);
      CompletedIdOfUnique(s.todos, i);
    }
    FilterCongruent((t: Todo) => t.id !in succ, IsActive, s.todos);
    assert !AnyRejected(results);
  }

  /** When every delete of the bulk delete is rejected, the collection is
      kept and the delete error is shown. */
  lemma ClearCompletedAllRejected(s: State, ids: seq<int>, results: seq<Settlement>)
    requires |ids| > 0 && |results| == |ids|
    requires forall i | 0 <= i < |results| :: results[i].Rejected?
    ensures ClearCompletedSettle(s, ids, AllSettled(results)).todos == s.todos
    ensures ClearCompletedSettle(s, ids, AllSettled(results)).error == DeleteError
  {
    var r := ClearCompletedSettle(s, ids, AllSettled(results));
    assert results[0].Rejected?;
    assert forall t :: multiset(r.todos)[t] == multiset(s.todos)[t];
    assert multiset(r.todos) == multiset(s.todos);
    SubsequenceSameLength(r.todos, s.todos);
  }

  /** A subsequence with as many elements as the whole is the whole. */
  lemma {:induction false} SubsequenceSameLength<T>(a: seq<T>, b: seq<T>)
    requires Subsequence(a, b)
    requires |a| == |b|
    ensures a == b
    decreases |b|
  {
    if |a| > 0 {
      if a[0] == b[0] && Subsequence(a[1..], b[1..]) {
        SubsequenceSameLength(a[1..], b[1..]);
        assert a == [a[0]] + a[1..];
        assert b == [b[0]] + b[1..];
      } else {
        SubsequenceNotLonger(a, b[1..]);
        assert false;
      }
    }
  }

  lemma {:induction false} SubsequenceNotLonger<T>(a: seq<T>, b: seq<T>)
    requires Subsequence(a, b)
    ensures |a| <= |b|
    decreases |b|
  {
    if |a| > 0 {
      if a[0] == b[0] && Subsequence(a[1..], b[1..]) {
        SubsequenceNotLonger(a[1..], b[1..]);
      } else {
        SubsequenceNotLonger(a, b[1..]);
      }
    }
  }

  // ---------------------------------------------------------------------
  // Status updates

  /** The status updates of one id, settled in the given order. */
  function SettleToggles(s: State, id: int, responses: seq<Outcome<Todo>>): (r: State)
    decreases |responses|
  {
    if |responses| == 0 then s
    else SettleToggles(ToggleSettle(s, id, responses[0]), id, responses[1..])
  }

  /** The `completed` value of the last fulfilled response, if any. */
  function LastFulfilled(responses: seq<Outcome<Todo>>): (r: Option<bool>)
    decreases |responses|
  {
    if |responses| == 0 then None
    else match LastFulfilled(responses[1..])
      case Some(v) => Some(v)
      case None => if responses[0].Fulfilled? then Some(responses[0].value.completed) else None
  }

  /** Whatever order status updates for one id were issued in, the todo ends
      with the value of the response that settled last among the fulfilled
      ones; no other todo's status moves, and no todo changes position,
      title or owner. */
  lemma {:induction false} LastSettledWins(s: State, id: int, responses: seq<Outcome<Todo>>)
    ensures |SettleToggles(s, id, responses).todos| == |s.todos|
    ensures forall i | 0 <= i < |s.todos| ::
      var t := SettleToggles(s, id, responses).todos[i];
      && t.id == s.todos[i].id && t.title == s.todos[i].title && t.userId == s.todos[i].userId
      && t.completed == if s.todos[i].id == id && LastFulfilled(responses).Some?
                        then LastFulfilled(responses).value else s.todos[i].completed
    decreases |responses|
  {
    if |responses| > 0 {
      LastSettledWins(ToggleSettle(s, id, responses[0]), id, responses[1..]);
    }
  }

  /** The status updates that toggle-all sends, each answered by a server
      that echoes the requested status, settled in list order. */
  function SettleEchoes(s: State, ts: seq<Todo>, target: bool): (r: State)
    decreases |ts|
  {
    if |ts| == 0 then s
    else SettleEchoes(ToggleSettle(s, ts[0].id, Fulfilled(ts[0].(completed := target))), ts[1..], target)
  }

  /** Some todo of `ts` carries `id`. */
  ghost predicate Covered(ts: seq<Todo>, id: int)
  {
    exists k | 0 <= k < |ts| :: ts[k].id == id
  }

  /** Settling echoed updates for `ts` brings every todo whose id is in `ts`
      to the target; the others keep their status, and every todo keeps its
      id and position. */
  lemma {:induction false} SettleEchoesReachTarget(s: State, ts: seq<Todo>, target: bool)
    ensures |SettleEchoes(s, ts, target).todos| == |s.todos|
    ensures forall i | 0 <= i < |s.todos| ::
      && SettleEchoes(s, ts, target).todos[i].id == s.todos[i].id
      && SettleEchoes(s, ts, target).todos[i].completed
         == if Covered(ts, s.todos[i].id) then target else s.todos[i].completed
    decreases |ts|
  {
    if |ts| > 0 {
      var s1 := ToggleSettle(s, ts[0].id, Fulfilled(ts[0].(completed := target)));
      SettleEchoesReachTarget(s1, ts[1..], target);
      var r := SettleEchoes(s, ts, target);
      assert r == SettleEchoes(s1, ts[1..], target);
      forall i | 0 <= i < |s.todos|
        ensures r.todos[i].id == s.todos[i].id
        ensures r.todos[i].completed == if Covered(ts, s.todos[i].id) then target else s.todos[i].completed
      {
        var id := s.todos[i].id;
        assert s1.todos[i].id == id;
        if Covered(ts[1..], id) {
          var k :| 0 <= k < |ts[1..]| && ts[1..][k].id == id;
          assert ts[k + 1].id == id;
        } else if id == ts[0].id {
          assert Covered(ts, id);
        }
      }
    }
  }

  /** Toggle-all, with every update answered by a server that echoes it and
      no other change to the collection in between, leaves every todo with
      the target status: all completed if one was active, all active if all
      were completed. */
  lemma ToggleAllConverges(s: State)
    ensures var r := SettleEchoes(ToggleAllBegin(s).state, ToggleAllTargets(s.todos), ToggleAllTarget(s.todos));
      && |r.todos| == |s.todos|
      && forall i | 0 <= i < |s.todos| :: r.todos[i].completed == ToggleAllTarget(s.todos)
  {
    var begun := ToggleAllBegin(s).state;
    assert begun.todos == s.todos;
    DifferingCovered(s.todos);
    EchoesUniform(begun, ToggleAllTargets(s.todos), ToggleAllTarget(s.todos));
  }

  /** When every todo off the target is covered by `ts`, settling the echoed
      updates for `ts` leaves every todo at the target. */
  lemma EchoesUniform(s: State, ts: seq<Todo>, target: bool)
    requires forall i | 0 <= i < |s.todos| && s.todos[i].completed != target :: Covered(ts, s.todos[i].id)
    ensures |SettleEchoes(s, ts, target).todos| == |s.todos|
    ensures forall i | 0 <= i < |s.todos| :: SettleEchoes(s, ts, target).todos[i].completed == target
  {
    SettleEchoesReachTarget(s, ts, target);
  }

  /** Every todo whose status differs from the toggle-all target has its id
      among the todos toggle-all updates. */
  lemma DifferingCovered(todos: seq<Todo>)
    ensures forall i | 0 <= i < |todos| && todos[i].completed != ToggleAllTarget(todos) ::
      Covered(ToggleAllTargets(todos), todos[i].id)
  {
    var ts := ToggleAllTargets(todos);
    forall i | 0 <= i < |todos| && todos[i].completed != ToggleAllTarget(todos)
      ensures Covered(ts, todos[i].id)
    {
      ToggleAllTargetsHas(todos, i);
      var k :| 0 <= k < |ts| && ts[k] == todos[i];
      assert ts[k].id == todos[i].id;
    }
  }

  /** A todo whose status differs from the target gets an update. */
  lemma ToggleAllSendsForDiffering(s: State, i: nat)
    requires i < |s.todos| && s.todos[i].completed != ToggleAllTarget(s.todos)
    ensures PatchCompleted(s.todos[i].id, ToggleAllTarget(s.todos)) in ToggleAllBegin(s).requests
  {
    ToggleAllTargetsHas(s.todos, i);
    var k :| 0 <= k < |ToggleAllTargets(s.todos)| && ToggleAllTargets(s.todos)[k] == s.todos[i];
    assert ToggleAllBegin(s).requests[k] == PatchCompleted(s.todos[i].id, ToggleAllTarget(s.todos));
  }

  /** With unique ids, a todo that gets an update had a status differing
      from the target. */
  lemma ToggleAllSendsOnlyForDiffering(s: State, i: nat)
    requires UniqueIds(s.todos)
    requires i < |s.todos|
    requires PatchCompleted(s.todos[i].id, ToggleAllTarget(s.todos)) in ToggleAllBegin(s).requests
    ensures s.todos[i].completed != ToggleAllTarget(s.todos)
  {
    var ts := ToggleAllTargets(s.todos);
    var rs := ToggleAllBegin(s).requests;
    var k :| 0 <= k < |rs| && rs[k] == PatchCompleted(s.todos[i].id, ToggleAllTarget(s.todos));
    ToggleAllTargetsFrom(s.todos, k);
    var j :| 0 <= j < |s.todos| && s.todos[j] == ts[k];
    assert s.todos[j].id == s.todos[i].id;
  }

  /** Toggle-all sends an update for a todo exactly when its status differs
      from the target (given unique ids, an update for its id cannot belong
      to another todo). */
  lemma ToggleAllRequestsExactlyDiffering(s: State)
    requires UniqueIds(s.todos)
    ensures forall i | 0 <= i < |s.todos| ::
      (s.todos[i].completed != ToggleAllTarget(s.todos)
       <==> PatchCompleted(s.todos[i].id, ToggleAllTarget(s.todos)) in ToggleAllBegin(s).requests)
  {
    forall i | 0 <= i < |s.todos|
      ensures s.todos[i].completed != ToggleAllTarget(s.todos)
          <==> PatchCompleted(s.todos[i].id, ToggleAllTarget(s.todos)) in ToggleAllBegin(s).requests
    {
      if s.todos[i].completed != ToggleAllTarget(s.todos) {
        ToggleAllSendsForDiffering(s, i);
      }
      if PatchCompleted(s.todos[i].id, ToggleAllTarget(s.todos)) in ToggleAllBegin(s).requests {
        ToggleAllSendsOnlyForDiffering(s, i);
      }
    }
  }

  /** With unique ids, toggle-all never sends two updates for the same todo. */
  lemma ToggleAllRequestsDistinct(s: State)
    requires UniqueIds(s.todos)
    ensures forall a, b | 0 <= a < b < |ToggleAllBegin(s).requests| ::
      ToggleAllBegin(s).requests[a] != ToggleAllBegin(s).requests[b]
  {
    var target := ToggleAllTarget(s.todos);
    var ts := ToggleAllTargets(s.todos);
    var r := ToggleAllBegin(s);
    FilterKeepsIdsUnique((t: Todo) => t.completed != target, s.todos);
    forall a, b | 0 <= a < b < |r.requests|
      ensures r.requests[a] != r.requests[b]
    {
      assert ts[a].id != ts[b].id;
    }
  }

  // ---------------------------------------------------------------------
  // Editing and renaming

  /** Committing a blank draft is a delete: the same loading entry and the
      same request as `handleDeleteTodo`, and no update error. */
  lemma RenameBlankIsDelete(s: State, id: int, text: string)
    requires Find(s.todos, id).Some? && Find(s.todos, id).value.title != ""
    requires AllWhitespace(text)
    ensures RenameBegin(s, id, text) == DeleteBegin(s, id)
  {
  }

  /** Entering edit mode and committing the draft untouched leaves edit mode
      again without any request, provided the todo's title is stored trimmed
      (as every title committed through this component is). */
  lemma CommitUnchangedDraft(s: State, t: Todo)
    requires Find(s.todos, t.id) == Some(t)
    requires Trim(t.title) == t.title
    ensures var editing := SetEditing(s, Some(t));
      RenameBegin(editing, t.id, editing.query) == Step(s.(editingTodoId := None, query := ""), [])
  {
  }

  /** Leaving edit mode through `handleSetIsEditing(null)` forgets the
      draft: entering and leaving edit mode that way leaves only a cleared
      editing state behind. */
  lemma CancelEditForgetsDraft(s: State, t: Todo)
    ensures SetEditing(SetEditing(s, Some(t)), None) == s.(editingTodoId := None, query := "")
  {
  }

  /** A rename whose begin step sends a request sends the trimmed text, never
      the raw one, and it is never blank. */
  lemma RenameSendsTrimmedTitle(s: State, id: int, text: string)
    requires |RenameBegin(s, id, text).requests| > 0
    requires RenameBegin(s, id, text).requests[0].PatchTitle?
    ensures RenameBegin(s, id, text).requests == [PatchTitle(id, Trim(text))]
    ensures Trim(text) != "" && !IsWhitespace(Trim(text)[0])
  {
  }

  /** After a successful rename answered with a todo carrying the same id,
      looking the id up finds the server's response. */
  lemma RenameSettledIsFound(s: State, id: int, updated: Todo)
    requires updated.id == id
    requires Find(s.todos, id).Some?
    ensures Find(RenameSettle(s, id, Fulfilled(updated)).todos, id) == Some(updated)
  {
    var r := RenameSettle(s, id, Fulfilled(updated));
    var k := FirstIndex(s.todos, id).value;
    assert r.todos[k] == updated;
    assert forall j | 0 <= j < k :: r.todos[j] == s.todos[j];
    FirstIndexIs(r.todos, id, k);
  }

  /** Running the status handler's begin step once per todo appends the
      todos' ids to the loading list and changes nothing else. */
  lemma {:induction false} BeginEachState(s: State, ts: seq<Todo>, target: bool)
    ensures BeginEach(s, ts, target).state == s.(loadingTodoIds := s.loadingTodoIds + Ids(ts))
    decreases |ts|
  {
    if |ts| == 0 {
      assert s.loadingTodoIds + Ids(ts) == s.loadingTodoIds;
    } else {
      var next := s.(loadingTodoIds := s.loadingTodoIds + [ts[0].id]);
      BeginEachState(next, ts[1..], target);
      assert Ids(ts) == [ts[0].id] + Ids(ts[1..]);
      assert s.loadingTodoIds + Ids(ts) == next.loadingTodoIds + Ids(ts[1..]);
    }
  }

  /** Running the status handler's begin step once per todo sends one
      update per todo, in order. */
  lemma {:induction false} BeginEachRequests(s: State, ts: seq<Todo>, target: bool)
    ensures BeginEach(s, ts, target).requests == ToggleRequests(ts, target)
    decreases |ts|
  {
    if |ts| > 0 {
      var next := s.(loadingTodoIds := s.loadingTodoIds + [ts[0].id]);
      BeginEachRequests(next, ts[1..], target);
    }
  }

  /** Toggle-all's begin step is the status handler's begin step run once
      per todo, in order: the loading list and the requests it produces are
      exactly those of `BeginEach`. */
  lemma IssueTogglesRunsToggleBegin(s: State, ts: seq<Todo>, target: bool)
    ensures IssueToggles(s, ts, target).state == BeginEach(s, ts, target).state
    ensures IssueToggles(s, ts, target).requests == BeginEach(s, ts, target).requests
  {
    BeginEachState(s, ts, target);
    BeginEachRequests(s, ts, target);
  }

  /** Two overlapping status updates for one id: the first to settle removes
      every copy of the id from the loading list, so the todo stops showing
      as loading while the other request is still pending. */
  lemma OverlappingTogglesClearLoading(s: State, id: int, a: bool, b: bool, response: Outcome<Todo>)
    ensures var twice := ToggleBegin(ToggleBegin(s, id, a).state, id, b).state;
      && multiset(twice.loadingTodoIds)[id] >= 2
      && id !in ToggleSettle(twice, id, response).loadingTodoIds
  {
  }
}
