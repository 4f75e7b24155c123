# Todo app: state reconciliation model

A Dafny model of the React todo application's state handling. The app keeps
a list of todos. It also keeps a list of ids whose requests are in flight, an
optimistic placeholder for a todo being created, the id and draft text of the
todo being edited, and one error message. Its handlers change that state when
the user acts and again when the server's answer arrives. The model also
covers the new-todo input, which validates a title before handing it to the
add handler.

Each asynchronous handler is split at its `await` into two pure functions
over an explicit `App.State`:

- a **begin** step returns the new state and the requests sent (`App.Step`);
- a **settle** step takes the state as it is when the promise settles, plus
  the outcome (`Wrappers.Outcome`: fulfilled with the server's payload, or
  rejected), and applies the handler's `prev => …` updaters and its
  `catch`/`finally` blocks.

The modules are:

- `Wrappers`: option values and promise outcomes.
- `Seqs`: `filter` on sequences, specified by the subsequence relation and
  element multiplicities, and `map`, specified position by position.
- `Text`: JavaScript's `trim`/`trimStart`.
- `Todos`: the todo record, `getPreparedTodos`, and lookup by id.
- `App`: the handlers of `src/App.tsx`.
- `AppProperties`: lemmas that relate several handlers.
- `NewTodo`: `src/components/NewTodo.tsx`.
- `Session`: the input wired to the add handler.

Details of the code's behaviour that the model keeps:

- The loading ids form a list, not a set. Starting a request appends its id,
  even when the id is already there. Settling removes every copy.
- The placeholder lives in its own `tempTodo` slot and never enters the
  collection.
- A blank rename is handled as a delete only when the trimmed text differs
  from the current title. The equality check comes first, so renaming a todo
  whose title is `""` to a blank text just leaves edit mode.
- The bulk delete has a second error path, with the message "Unexpected error
  while deleting todos" (`App.BulkResult.Threw`). `Promise.allSettled` on an
  array never rejects. So this path is reached only when a request function
  throws synchronously while the list of delete promises is being built.
- Two overlapping requests for one id share a single loading marker. The
  first to settle removes every copy of the id from the loading list
  (src/App.tsx:113, 163, 219), so the todo stops showing as loading while
  the other request is still pending
  (`AppProperties.OverlappingTogglesClearLoading`).
- A blank rename hands the id to the delete handler and does nothing else.
  It leaves the editing id and the draft set (src/App.tsx:202-205), and
  neither the delete nor its settlement clears them.

## Model

| member | source | states |
|---|---|---|
| Todos.GetPreparedTodos | src/App.tsx:20-31 | The view under a filter is the subsequence of the todos made of exactly the shown ones, each with its multiplicity, in original order. All returns the list unchanged. |
| Todos.ActiveCompletedPartition | src/App.tsx:20-31 | The Active and Completed views together hold every todo exactly as often as the collection does. Their lengths add up to its length. |
| Todos.ViewOfAppend | src/App.tsx:20-31 | A view of a concatenation is the concatenation of the views, so filtering never reorders. |
| Todos.Find | src/App.tsx:187 | The lookup returns the first todo in list order that carries the requested id. It returns nothing exactly when no todo has that id. |
| Todos.FirstIndex | src/App.tsx:187 | The index found is that of the first todo with the id. None means no todo has it. |
| App.AddBegin | src/App.tsx:82-92 | The placeholder `{id 0, title, completed false, userId 3633}` is installed. One create request with that title is sent. Nothing else changes. |
| App.AddSettle | src/App.tsx:91-100 | On success the server's todo is appended after the unchanged earlier todos. On failure the collection is kept, the add error is set and the caller sees a rejection. The placeholder is cleared on both paths. |
| App.DeleteBegin | src/App.tsx:103-107 | The id is appended to the loading list and one delete request is sent. |
| App.DeleteSettle | src/App.tsx:106-114 | On success exactly the todos with that id are removed and the rest keep their order. On failure the collection is kept and the delete error is set. Every copy of the id leaves the loading list on both paths. |
| App.CompletedIds | src/App.tsx:118 | The ids captured for the bulk delete are one per completed todo, in list order: the k-th id is that of the k-th todo of the Completed view. The list is empty iff no todo is completed. |
| App.ClearCompletedBegin | src/App.tsx:117-128 | With nothing completed, neither the state nor the requests change. Otherwise the captured ids are appended to the loading list and one delete per id is sent, in order. |
| App.SucceededIds | src/App.tsx:131-133 | An id is among the successful ids iff the delete at some position with that id was fulfilled. |
| App.ClearCompletedSettle | src/App.tsx:126-146 | Exactly the todos whose id had a fulfilled delete are removed, in order. The delete error is set iff some delete was rejected. A throw keeps the collection and sets the unexpected-error message. All attempted ids leave the loading list. |
| App.ToggleBegin | src/App.tsx:149-153 | The id is appended to the loading list and one status update is sent. |
| App.ToggleSettle | src/App.tsx:152-164 | On success only the `completed` field of todos with that id changes, to the server's value. Id, title, owner and position are untouched. On failure the collection is kept and the update error is set. The id leaves the loading list on both paths. |
| App.ToggleAllTarget | src/App.tsx:168-169 | The target is true iff some todo is active, so it is false on an empty list. |
| App.ToggleAllTargets | src/App.tsx:171-172 | The todos updated are exactly those whose status differs from the target, each with its multiplicity, in order. |
| App.ToggleRequests | src/App.tsx:173 | Exactly one status update per given todo, in order, each setting it to the target. |
| App.IssueToggles | src/App.tsx:171-173 | The given todos' ids are appended, in order, after the unchanged loading list. Their updates are sent and nothing else changes. |
| App.ToggleAllBegin | src/App.tsx:167-174 | Request k sets the k-th differing todo to the target. No requests are sent for an empty list. The ids of the differing todos are appended, in order, to the loading list. Nothing else in the state changes. |
| App.SetEditing | src/App.tsx:176-184 | Given a todo, the editing id becomes its id and the draft its title. Given null, both are cleared. Nothing else changes. |
| App.RenameBegin | src/App.tsx:186-211 | An unknown id does nothing. A trimmed text equal to the title leaves edit mode with no request. Otherwise a blank text is exactly a delete. Otherwise the id is marked loading and the trimmed title is sent. |
| App.RenameSettle | src/App.tsx:210-220 | On success the todos with that id become the response and the others stay put. Edit mode is left and the draft cleared. On failure the collection, editing id and draft are kept and the update error is set. |
| App.DismissError | src/App.tsx:304 | The error becomes empty and nothing else changes. |
| AppProperties.BeginEachState | src/App.tsx:149-173 | Running the status handler's begin step once per todo appends their ids, in order, to the loading list and changes nothing else. |
| AppProperties.BeginEachRequests | src/App.tsx:149-173 | Running the status handler's begin step once per todo sends one update per todo, in order, each to the target. |
| AppProperties.IssueTogglesRunsToggleBegin | src/App.tsx:149-173 | Toggle-all's begin step gives the same state and requests as running the status handler's begin step once per todo, in order, each on the state the previous one left. |
| AppProperties.OverlappingTogglesClearLoading | src/App.tsx:149-163 | After two status updates for one id begin, the id is loading twice. Once either settles, the id is no longer loading at all. |
| AppProperties.DeleteRestoresLoading | src/App.tsx:103-115 | The begin and settle steps of a delete give the loading list back unchanged, whatever the outcome, if the id was not loading before. |
| AppProperties.ToggleRestoresLoading | src/App.tsx:149-165 | The same round trip for a status update. |
| AppProperties.ClearCompletedRestoresLoading | src/App.tsx:117-146 | The same round trip for the bulk delete, whatever the individual outcomes. |
| AppProperties.AddThenDeleteRestores | src/App.tsx:82-115 | A successful delete of a freshly added todo gives back exactly the previous collection. |
| AppProperties.PlaceholderLifecycle | src/App.tsx:89-100 | The placeholder carries the submitted title while the request is pending. It is null after settlement on both paths. A failed add keeps the collection. |
| AppProperties.ClearCompletedAllFulfilled | src/App.tsx:117-146 | If every delete is fulfilled and the collection has not changed, what remains is the Active view and the error is untouched. |
| AppProperties.ClearCompletedAllRejected | src/App.tsx:131-141 | If every delete is rejected, the collection is kept and the delete error is set. |
| AppProperties.LastSettledWins | src/App.tsx:155-159 | After status updates for one id, its todos hold the value of the last fulfilled response in settlement order. Every other field and todo is unchanged. |
| AppProperties.SettleEchoesReachTarget | src/App.tsx:155-159 | Settling echoed updates for a list of todos, on any state, sets every todo whose id was updated to the target. Every other todo keeps its status, and every todo keeps its id and position. |
| AppProperties.EchoesUniform | src/App.tsx:155-159 | If every todo whose status differs from the target had an update, settling the echoed updates leaves every todo at the target. |
| AppProperties.DifferingCovered | src/App.tsx:168-173 | Every todo whose status differs from the toggle-all target has its id among the updated todos. |
| AppProperties.ToggleAllConverges | src/App.tsx:167-174 | If every toggle-all update is echoed by the server, every todo ends with the target status. |
| AppProperties.ToggleAllSendsForDiffering | src/App.tsx:171-173 | Every todo whose status differs from the target gets an update to the target. |
| AppProperties.ToggleAllSendsOnlyForDiffering | src/App.tsx:171-173 | With unique ids, a todo that gets an update had a status differing from the target. |
| AppProperties.ToggleAllRequestsExactlyDiffering | src/App.tsx:171-173 | With unique ids, a todo gets an update iff its status differs from the target. |
| AppProperties.ToggleAllRequestsDistinct | src/App.tsx:171-173 | With unique ids, no todo gets two updates. |
| AppProperties.RenameBlankIsDelete | src/App.tsx:202-206 | Committing a blank draft, for a todo with a non-empty title, gives the same state and requests as the delete handler. |
| AppProperties.CommitUnchangedDraft | src/App.tsx:176-200 | For a todo whose title is already trimmed, entering edit mode and committing the untouched draft leaves edit mode with no request. |
| AppProperties.CancelEditForgetsDraft | src/App.tsx:176-184 | Entering and then leaving edit mode leaves only a cleared editing id and draft. |
| AppProperties.RenameSendsTrimmedTitle | src/App.tsx:193-211 | A rename that sends a request sends the trimmed text, which is not blank. |
| AppProperties.RenameSettledIsFound | src/App.tsx:213 | After a successful rename whose response carries the same id, looking the id up finds the server's response. |
| Text.Trim | src/App.tsx:193 | The trimmed text is a contiguous piece of the input with only whitespace cut off at both ends. It does not start or end with whitespace. It is empty iff the input is all whitespace. |
| Text.TrimStart | src/components/NewTodo.tsx:43 | The result is a suffix of the input with only whitespace dropped before it, and it does not start with whitespace. |
| NewTodo.Change | src/components/NewTodo.tsx:42-43 | The stored text is the typed value minus its leading whitespace, so it never starts with whitespace. |
| NewTodo.SubmitBegin | src/components/NewTodo.tsx:23-34 | A blank text is refused with "Title should not be empty" and the add handler is not called. Otherwise the add handler gets the trimmed, non-blank text and the input is disabled with its text kept. |
| NewTodo.SubmitSettle | src/components/NewTodo.tsx:33-39 | The text is cleared only if the add succeeded and is kept on failure. The input is enabled again on both paths. |
| NewTodo.NeverLeadingWhitespace | src/components/NewTodo.tsx:42-43 | Over any sequence of typing, submitting and settling, the stored text never starts with whitespace. |
| NewTodo.InitialNeverLeadingWhitespace | src/components/NewTodo.tsx:14 | From the initial empty input, the stored text never starts with whitespace. |
| Session.Submit | src/components/NewTodo.tsx:23-34 | A blank submission only sets the app's error. A non-blank one installs the placeholder with the trimmed title, disables the input and sends one create request. |
| Session.SettleSubmit | src/components/NewTodo.tsx:32-39 | Settling the create request removes the placeholder and enables the input on both paths. Success appends the server's todo and clears the text. Failure keeps the collection and the text and shows the add error. Nothing else in the app state changes. |
| Session.SubmitRoundTrip | src/components/NewTodo.tsx:32-39 | On success exactly the server's todo is appended and the input is cleared. On failure the collection and typed text are kept and the add error is shown. On both paths the placeholder goes and the input is enabled. |
| Session.BlankSubmitRefused | src/components/NewTodo.tsx:26-30 | A blank submission sends nothing, keeps the input and the collection, and shows the empty-title error. |

## Left out

- The initial load (`getTodos` in the mount effect, src/App.tsx:43-52) is not modelled. It is mount-time wiring, not one of the user-facing handlers.
- The 3-second error auto-clear is not modelled because it depends on timers. Only explicit dismissal is modelled (`App.DismissError`).
- Rendering, CSS classes, focus handling, refs and the filter links are not modelled because they are UI. `TodoList` and `Filter` are not modelled either; they only pass events through.
- `TodoComp` is not modelled, and it does two things of its own. On Escape (src/components/TodoComp.tsx:32-35) it calls `handleSetIsEditing(null)` and then sets the draft back to the todo's title, so after that cancel the draft is the title, not empty. `AppProperties.CancelEditForgetsDraft` covers only `handleSetIsEditing(null)`.
- The edit field strips leading whitespace from the draft as it is typed (src/components/TodoComp.tsx:87). The model's draft is whatever text is handed to the rename handler.
- `src/api/todos.ts` and its HTTP client are not modelled. Each call is an abstract outcome, and the user id constant 3633 is kept.
- The `USER_ID` guard and its warning screen are not modelled because they are configuration.
- Interleaving of in-flight promises is not modelled. Each settlement is one atomic step on the current state, and `Promise.allSettled` is a given list of per-id outcomes.
- JavaScript strings are UTF-16. The model uses code points, which changes nothing for `trim`: every whitespace character it strips lies in the Basic Multilingual Plane.
- Todo ids are JavaScript numbers. They are modelled as unbounded integers, since ids are server-assigned integers.
- App.ClearCompletedBegin: reports all N delete requests as sent. If a request function threw synchronously while the promises were being built, only the requests before it would go out, and the `Threw` settlement would follow in the same turn. The model does not describe that partial list.
- App.ClearCompletedSettle: states exactly which todos are removed, but not the count "N completed, K rejected, N−K removed" as a number.
- AppProperties.ClearCompletedAllFulfilled: assumes that ids are unique in the collection, as the server guarantees. Without that, an active todo that shares an id with a completed one would be removed too.
- AppProperties.ToggleAllRequestsExactlyDiffering: assumes unique ids for the same reason. An update for an id shared by two todos would be counted for both.
- AppProperties.ToggleAllSendsOnlyForDiffering: assumes unique ids for the same reason.
- AppProperties.ToggleAllRequestsDistinct: assumes unique ids. Two todos with the same id and status would make their requests equal.
