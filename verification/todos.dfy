/** The todo record, the three list filters, and the lookups the handlers
    perform on the collection. */
module Todos {
  import opened Wrappers
  import opened Seqs

  /** A todo as the server returns it. `id` is assigned by the server; the
      placeholder shown while a create request is pending carries
      `PlaceholderId`. */
  datatype Todo = Todo(id: int, title: string, completed: bool, userId: int)

  const PlaceholderId: int := 0

  /** The user every request is made for. */
  const UserId: int := 3633

  /** The filter modes offered by the footer. */
  datatype Filters = All | Active | Completed

  predicate IsActive(t: Todo) { !t.completed }

  predicate IsCompleted(t: Todo) { t.completed }

  /** Whether a todo is shown under a filter mode. */
  predicate Shown(t: Todo, filter: Filters)
  {
    match filter
    case All => true
    case Active => !t.completed
    case Completed => t.completed
  }

  /** `getPreparedTodos`: the todos shown under `filter`. The result is the
      subsequence of `todos` made of exactly the shown todos, each as often as
      it occurs in `todos`, in their original order; `All` hands the list back
      unchanged. */
  function GetPreparedTodos(todos: seq<Todo>, filter: Filters): (r: seq<Todo>)
    ensures Subsequence(r, todos)
    ensures forall i | 0 <= i < |r| :: Shown(r[i], filter)
    ensures forall t :: multiset(r)[t] == if Shown(t, filter) then multiset(todos)[t] else 0
    ensures filter == All ==> r == todos
  {
    match filter
    case Active => Filter(IsActive, todos)
    case Completed => Filter(IsCompleted, todos)
    case All => SubsequenceReflexive(todos); todos
  }

  /** Active and Completed split the collection: every todo lands in exactly
      one of them, with its multiplicity, and neither adds anything. */
  lemma {:induction false} ActiveCompletedPartition(todos: seq<Todo>)
    ensures multiset(GetPreparedTodos(todos, Active)) + multiset(GetPreparedTodos(todos, Completed))
         == multiset(todos)
    ensures |GetPreparedTodos(todos, Active)| + |GetPreparedTodos(todos, Completed)| == |todos|
  {
    var a := GetPreparedTodos(todos, Active);
    var c := GetPreparedTodos(todos, Completed);
    assert multiset(a) + multiset(c) == multiset(todos) by {
      forall t
        ensures (multiset(a) + multiset(c))[t] == multiset(todos)[t]
      {
      }
    }
    assert |multiset(a) + multiset(c)| == |multiset(todos)|;
  }

  /** Filtering, like the list itself, is distributive: a view of a
      concatenation is the concatenation of the views. */
  lemma ViewOfAppend(todos: seq<Todo>, more: seq<Todo>, filter: Filters)
    ensures GetPreparedTodos(todos + more, filter)
         == GetPreparedTodos(todos, filter) + GetPreparedTodos(more, filter)
  {
    match filter
    case Active => FilterConcat(IsActive, todos, more);
    case Completed => FilterConcat(IsCompleted, todos, more);
    case All =>
  }

  /** The position of the first todo carrying `id`, if any: the index
      behind the lookup the rename handler performs. */
  function FirstIndex(todos: seq<Todo>, id: int): (r: Option<nat>)
    ensures r.None? <==> forall i | 0 <= i < |todos| :: todos[i].id != id
    ensures r.Some? ==> r.value < |todos| && todos[r.value].id == id
    ensures r.Some? ==> forall j | 0 <= j < r.value :: todos[j].id != id
    decreases |todos|
  {
    if |todos| == 0 then None
    else if todos[0].id == id then Some(0)
    else match FirstIndex(todos[1..], id)
      case None => None
      case Some(k) => Some(k + 1)
  }

  /** The first index holding an id is the one `FirstIndex` reports. */
  lemma FirstIndexIs(todos: seq<Todo>, id: int, k: nat)
    requires k < |todos| && todos[k].id == id
    requires forall j | 0 <= j < k :: todos[j].id != id
    ensures FirstIndex(todos, id) == Some(k)
  {
  }

  /** `t` sits at a position of `todos` before which no todo carries `id`. */
  ghost predicate FirstWithId(todos: seq<Todo>, id: int, t: Todo)
  {
    exists k | 0 <= k < |todos| :: todos[k] == t && forall j | 0 <= j < k :: todos[j].id != id
  }

  /** Looking a todo up by id: the first todo in list order that carries
      it, or nothing when none does. */
  function Find(todos: seq<Todo>, id: int): (r: Option<Todo>)
    ensures r.None? <==> forall i | 0 <= i < |todos| :: todos[i].id != id
    ensures r.Some? ==> r.value.id == id && FirstWithId(todos, id, r.value)
  {
    match FirstIndex(todos, id)
    case None => None
    case Some(k) => Some(todos[k])
  }

  /** Every id occurs at most once in the collection, as the server
      guarantees for the todos it hands out. */
  ghost predicate UniqueIds(todos: seq<Todo>)
  {
    forall i, j | 0 <= i < |todos| && 0 <= j < |todos| && todos[i].id == todos[j].id :: i == j
  }

  /** The ids of the todos, one per todo, in list order. */
  function Ids(todos: seq<Todo>): (ids: seq<int>)
    ensures |ids| == |todos|
    ensures forall k | 0 <= k < |todos| :: ids[k] == todos[k].id
    decreases |todos|
  {
    if |todos| == 0 then [] else [todos[0].id] + Ids(todos[1..])
  }

  /** The todos whose id is not `id`, in their original order: what a
      successful delete leaves. */
  function WithoutId(todos: seq<Todo>, id: int): (r: seq<Todo>)
    ensures Subsequence(r, todos)
    ensures forall i | 0 <= i < |r| :: r[i].id != id
    ensures forall t :: multiset(r)[t] == if t.id == id then 0 else multiset(todos)[t]
  {
    Filter((t: Todo) => t.id != id, todos)
  }

  /** The todos whose id is none of `ids`, in their original order. */
  function WithoutIds(todos: seq<Todo>, ids: seq<int>): (r: seq<Todo>)
    ensures Subsequence(r, todos)
    ensures forall i | 0 <= i < |r| :: r[i].id !in ids
    ensures forall t :: multiset(r)[t] == if t.id in ids then 0 else multiset(todos)[t]
  {
    Filter((t: Todo) => t.id !in ids, todos)
  }

  /** Every todo carrying `id` takes the given status; all other todos, and
      every other field, stay as they are. */
  function SetCompletedById(todos: seq<Todo>, id: int, completed: bool): (r: seq<Todo>)
    ensures |r| == |todos|
    ensures forall i | 0 <= i < |todos| ::
      r[i] == if todos[i].id == id then todos[i].(completed := completed) else todos[i]
  {
    Map((t: Todo) => if t.id == id then t.(completed := completed) else t, todos)
  }

  /** Every todo carrying `id` is replaced by `replacement`; the others stay
      in place. */
  function ReplaceById(todos: seq<Todo>, id: int, replacement: Todo): (r: seq<Todo>)
    ensures |r| == |todos|
    ensures forall i | 0 <= i < |todos| :: r[i] == if todos[i].id == id then replacement else todos[i]
  {
    Map((t: Todo) => if t.id == id then replacement else t, todos)
  }

  /** A filter of a collection with unique ids has unique ids. */
  lemma {:induction false} FilterKeepsIdsUnique(p: Todo -> bool, todos: seq<Todo>)
    requires UniqueIds(todos)
    ensures UniqueIds(Filter(p, todos))
    decreases |todos|
  {
    if |todos| > 0 {
      var tail := todos[1..];
      assert UniqueIds(tail) by {
        forall i, j | 0 <= i < |tail| && 0 <= j < |tail| && tail[i].id == tail[j].id
          ensures i == j
        {
          assert todos[i + 1].id == todos[j + 1].id;
        }
      }
      FilterKeepsIdsUnique(p, tail);
      var rest := Filter(p, tail);
      if p(todos[0]) {
        var r := [todos[0]] + rest;
        forall k | 0 <= k < |rest|
          ensures rest[k].id != todos[0].id
        {
          assert rest[k] in multiset(rest);
          assert rest[k] in tail;
          var j :| 0 <= j < |tail| && tail[j] == rest[k];
          assert todos[j + 1] == rest[k];
        }
        assert UniqueIds(r) by {
          forall i, j | 0 <= i < |r| && 0 <= j < |r| && r[i].id == r[j].id
            ensures i == j
          {
            if i > 0 && j > 0 {
              assert rest[i - 1].id == rest[j - 1].id;
            }
          }
        }
      }
    }
  }
}
