# TaskMaster to-do list, modelled in Dafny

This project models the core of TaskMaster, a single-page React to-do application. It covers:

- the application shell, which restores the session from the browser store, logs users in and out, and picks the screen;
- the sign-in form and its in-memory user directory;
- the task list screen, which loads or seeds a user's tasks, creates, edits, toggles and deletes them, tallies them, and shows a searched, filtered and sorted view;
- the task editor, which validates a form and builds the payload and its completion time;
- one task row, which applies the overdue rule and dispatches toggle, delete and edit.

The model is organised as follows:

- The browser store is a `Store` object holding a `map<string, Value>`. The shell and the task screen share it, as they share `localStorage`.
- Timestamps are integer milliseconds.
- The current time, the zone offset, the answer of the confirmation dialog, and the text of `Date.now()` used in new ids are all parameters.
- Stateful components are classes whose methods change their fields and the store. Each method is proved against a pure function of the old state.
- The pure functions carry the properties: invariants kept, round trips, permutation, sortedness and stability of the view, and the sign-up and log-out rules.

Modules:

| file | module | models |
|---|---|---|
| types.dfy | `Types` | the `User` and `Todo` records and the editor's payload |
| seqs.dfy | `Seqs` | `Array.prototype.filter` and its laws |
| storage.dfy | `Storage` | the store, its two kinds of key, and `getItem`/`setItem`/`removeItem` |
| todo_modal.dfy | `TaskEditor` | TodoModal.tsx |
| todo_item.dfy | `TaskItem` | TodoItem.tsx |
| todo_list.dfy | `TaskList` | the list transforms, the sample list and the tallies of TodoList.tsx |
| todo_view.dfy | `TaskView` | `filteredAndSortedTodos` of TodoList.tsx: search, status filter, stable sort, and the in-place sort on an array |
| todo_list_component.dfy | `TodoListScreen` | the TodoList.tsx component state and its handlers |
| login_form.dfy | `Login` | LoginForm.tsx |
| app.dfy | `Session` | App.tsx |

A task does not always carry a completion time exactly when it is done:

- Editing a done task back to pending builds a payload without `finishedTime`. The spread in `handleUpdateTodo` then keeps the old one, so a pending task can carry a completion time.
- `TaskList.EditToPendingKeepsFinishTime` states this outright.
- Toggling does clear the completion time, and the editor never marks a task done without one. `TaskList.CreateKeepsInvariants`, `TaskList.ToggleKeepsInvariants`, `TaskList.UpdateKeepsDoneHasFinish` and `TaskList.DeleteKeepsInvariants` prove the weaker invariant that survives every change: done implies a completion time.

## Model

| member | source | states |
|---|---|---|
| TaskList.SampleTodosValid | todolistapp-main/src/components/TodoList.tsx:25-56 | the seeded list has four tasks with distinct ids, all owned by the user; two are pending and two done, and exactly the done ones carry a completion time |
| TaskList.SampleTodos | todolistapp-main/src/components/TodoList.tsx:25-56 | the sample list installed for a user without a saved list; its shape is stated by TaskList.SampleTodosValid |
| TaskList.SampleTally | todolistapp-main/src/components/TodoList.tsx:25-56 | a freshly seeded list tallies as 4 total, 2 pending, 2 done |
| TaskList.LoadedTodos | todolistapp-main/src/components/TodoList.tsx:20-24 | the list a mounted screen holds: the saved list when the user's key is present, else the sample list; used by TodoListScreen.TodoList.constructor and Session.LogoutThenLoginReseeds |
| Storage.TodosKey | todolistapp-main/src/components/TodoList.tsx:21 | the per-user key `taskmaster_todos_` plus the id, never the session key; also the key App.tsx removes on log-out (Session.LogoutTodosKey) |
| Storage.TodosKeyInjective | todolistapp-main/src/components/TodoList.tsx:21 | different users have different task-list keys |
| TaskList.CreateTodo | todolistapp-main/src/components/TodoList.tsx:67-73 | create appends exactly one task at the end, carrying the payload's fields, the given id and the user's id; every earlier task is unchanged and in order |
| TaskList.CreateKeepsInvariants | todolistapp-main/src/components/TodoList.tsx:67-73 | with a fresh id, create keeps ids unique and every task owned by the user, and the new id is then present; a payload that is done only with a completion time keeps "done implies completion time", and one with a completion time exactly when done keeps "completion time iff done" |
| TaskList.Merge | todolistapp-main/src/components/TodoList.tsx:79 | the spread merge keeps id and owner, overwrites text, status and deadline, and keeps the old completion time when the payload has none |
| TaskList.UpdateTodo | todolistapp-main/src/components/TodoList.tsx:77-80 | update keeps length and order; each task with the id becomes its merge with the payload, and every other task is unchanged |
| TaskList.UpdateAbsentIsNoop | todolistapp-main/src/components/TodoList.tsx:78-80 | updating an id that is not in the list returns the list unchanged |
| TaskList.UpdateKeepsInvariants | todolistapp-main/src/components/TodoList.tsx:77-80 | update keeps every position's id and owner, keeps unique ids and ownership, and is idempotent |
| TaskList.UpdateKeepsDoneHasFinish | todolistapp-main/src/components/TodoList.tsx:77-80 | if every done task has a completion time and the payload gives one when it says done, the updated list keeps that property |
| TaskList.EditToPendingKeepsFinishTime | todolistapp-main/src/components/TodoList.tsx:79 | saving a done task as pending through the editor leaves a pending task that still has a completion time |
| TaskList.Toggled | todolistapp-main/src/components/TodoList.tsx:87-93 | toggling one task flips its status; becoming done stamps now, becoming pending clears the completion time; id, owner, text and deadline are kept |
| TaskList.ToggleTodo | todolistapp-main/src/components/TodoList.tsx:85-96 | toggle keeps length and order, toggles exactly the tasks with the id, and leaves the others unchanged |
| TaskList.ToggleTwice | todolistapp-main/src/components/TodoList.tsx:85-96 | toggling twice restores every task except its completion time, which is the second toggle's time for a task that ends done and absent otherwise |
| TaskList.ToggleKeepsInvariants | todolistapp-main/src/components/TodoList.tsx:85-96 | toggle keeps "completion time iff done", "done implies completion time", unique ids and ownership |
| TaskList.DeleteTodo | todolistapp-main/src/components/TodoList.tsx:100-102 | delete keeps exactly the tasks whose id differs, each as often as before |
| TaskList.DeleteKeepsOrder | todolistapp-main/src/components/TodoList.tsx:101 | delete distributes over concatenation, so the survivors keep their relative order |
| TaskList.DeleteIdempotent | todolistapp-main/src/components/TodoList.tsx:101 | deleting twice is deleting once, and deleting an absent id changes nothing |
| TaskList.DeleteUndoesCreate | todolistapp-main/src/components/TodoList.tsx:67-73 | deleting the task just created with a fresh id gives back the original list |
| TaskList.DeleteKeepsInvariants | todolistapp-main/src/components/TodoList.tsx:101 | delete keeps unique ids, ownership, "completion time iff done" and "done implies completion time" |
| TaskList.DeleteKeepsUniqueIds | todolistapp-main/src/components/TodoList.tsx:101 | delete keeps ids unique |
| TaskList.StatusPartition | todolistapp-main/src/components/TodoList.tsx:136-137 | the pending and the done tasks are disjoint and together are the whole list, counted with multiplicity |
| TaskList.Tally | todolistapp-main/src/components/TodoList.tsx:133-139 | the tallies count all tasks, the pending ones and the done ones, and total equals pending plus done |
| Seqs.Filter | todolistapp-main/src/components/TodoList.tsx:109-116 | filtering keeps exactly the elements the test accepts and never lengthens the list |
| Seqs.FilterConcat | todolistapp-main/src/components/TodoList.tsx:109-116 | filtering preserves the input order |
| Seqs.FilterPartition | todolistapp-main/src/components/TodoList.tsx:136-137 | two complementary filters split the input with multiplicity |
| TaskView.Lower | todolistapp-main/src/components/TodoList.tsx:110 | lower-casing keeps length and maps each character |
| TaskView.Includes | todolistapp-main/src/components/TodoList.tsx:110 | `includes` holds iff the substring occurs at some position |
| TaskView.MatchesQuery | todolistapp-main/src/components/TodoList.tsx:109-111 | the search test: the lower-cased query occurs in the lower-cased text; its combination with the status test is stated by TaskView.FilterStepsAreVisible |
| TaskView.Searched | todolistapp-main/src/components/TodoList.tsx:108-112 | the search step, skipped for an empty query; stated by TaskView.FilterStepsAreVisible |
| TaskView.StatusFiltered | todolistapp-main/src/components/TodoList.tsx:115-117 | the status step, skipped for `all`; stated by TaskView.FilterStepsAreVisible |
| TaskView.Visible | todolistapp-main/src/components/TodoList.tsx:108-117 | a task is shown iff the query is empty or matches, and the filter is `all` or its status; TaskView.ProjectionSpec shows the view holds exactly these tasks |
| TaskView.SortKey | todolistapp-main/src/components/TodoList.tsx:120-128 | the comparator's key: the deadline, or 0 for pending and 1 for done; TaskView.SortedBySorted shows the sort orders by it |
| TaskView.SortedBy | todolistapp-main/src/components/TodoList.tsx:120-128 | the stable sort; TaskView.SortedBySorted, TaskView.SortedByMultiset and TaskView.SortedByStable state that it orders, permutes and keeps ties in input order |
| TaskView.Projection | todolistapp-main/src/components/TodoList.tsx:104-131 | `filteredAndSortedTodos`: search, status filter, then sort; TaskView.ProjectionSpec states what it returns and TodoListScreen.TodoList.FilteredAndSortedTodos is proved equal to it |
| TaskView.FilterStepsAreVisible | todolistapp-main/src/components/TodoList.tsx:105-117 | the two optional filter steps equal one filter by "matches the query and the status filter" |
| TaskView.InsertMultiset | todolistapp-main/src/components/TodoList.tsx:120-128 | inserting one task adds exactly that task |
| TaskView.InsertSorted | todolistapp-main/src/components/TodoList.tsx:120-128 | inserting into a sorted list keeps it sorted by the comparator's key |
| TaskView.SortedBySorted | todolistapp-main/src/components/TodoList.tsx:120-128 | the sort's output is ordered by the comparator's key |
| TaskView.SortedByMultiset | todolistapp-main/src/components/TodoList.tsx:120-128 | the sort's output is a permutation of its input |
| TaskView.InsertStable | todolistapp-main/src/components/TodoList.tsx:120-128 | insertion places the new task after every task with the same key |
| TaskView.SortedByStable | todolistapp-main/src/components/TodoList.tsx:120-128 | the sort is stable: the tasks with any one key keep their input order |
| TaskView.InsertAt | todolistapp-main/src/components/TodoList.tsx:120-128 | insertion puts the task right after the last task whose key is not larger |
| TaskView.InsertByStatus | todolistapp-main/src/components/TodoList.tsx:124-126 | inserting into "pending then done" puts a pending task at the end of the pending part and a done task at the end |
| TaskView.SortByStatusPartitions | todolistapp-main/src/components/TodoList.tsx:124-126 | sorting by status gives all pending tasks in input order, then all done tasks in input order |
| TaskView.ProjectionSpec | todolistapp-main/src/components/TodoList.tsx:104-131 | the view is a permutation of exactly the tasks matching the query and the status filter, sorted by the key, with equal keys in list order |
| TaskView.ProjectionByStatus | todolistapp-main/src/components/TodoList.tsx:104-131 | with status order, the view is the visible pending tasks then the visible done tasks, each in list order |
| TaskView.StatusViewsSplitList | todolistapp-main/src/components/TodoList.tsx:115-116 | the "pending" view and the "done" view are disjoint and together are the whole list |
| TaskView.SortInPlace | todolistapp-main/src/components/TodoList.tsx:120-128 | sorting the array in place leaves it holding the stable sort of its old contents |
| TaskView.InsertLast | todolistapp-main/src/components/TodoList.tsx:120-128 | one pass of the in-place sort inserts the next element into the sorted prefix and leaves the rest alone |
| TaskView.SortedByPrefix | todolistapp-main/src/components/TodoList.tsx:120-128 | sorting one more element of the input is inserting it into the sorted prefix |
| TodoListScreen.TodoList.constructor | todolistapp-main/src/components/TodoList.tsx:13-60 | mounting loads the saved list if the user's key exists, else installs and saves the sample list; the store entry then matches the list; the controls take their defaults |
| TodoListScreen.TodoList.SaveTodos | todolistapp-main/src/components/TodoList.tsx:62-65 | the new list replaces the list on screen and the user's store entry, and nothing else in the store changes |
| TodoListScreen.TodoList.HandleCreateTodo | todolistapp-main/src/components/TodoList.tsx:67-75 | the list becomes the create transform of the old list, is saved, and the create editor closes |
| TodoListScreen.TodoList.HandleUpdateTodo | todolistapp-main/src/components/TodoList.tsx:77-83 | the list becomes the update transform of the old list, is saved, and the edit editor closes |
| TodoListScreen.TodoList.HandleToggleStatus | todolistapp-main/src/components/TodoList.tsx:85-98 | the list becomes the toggle transform of the old list and is saved |
| TodoListScreen.TodoList.HandleDeleteTodo | todolistapp-main/src/components/TodoList.tsx:100-102 | the list becomes the delete transform of the old list and is saved |
| TodoListScreen.TodoList.SetModalOpen | todolistapp-main/src/components/TodoList.tsx:268 | the add button opens the create editor and its close button closes it |
| TodoListScreen.TodoList.SetEditing | todolistapp-main/src/components/TodoList.tsx:298 | a row's edit button opens the editor on that task; closing clears it |
| TodoListScreen.TodoList.SetControls | todolistapp-main/src/components/TodoList.tsx:231-252 | the search box and the two selects set the query, the status filter and the sort order |
| TodoListScreen.TodoList.Dispatch | todolistapp-main/src/components/TodoList.tsx:298-300 | a row's toggle and delete requests run the toggle and delete handlers; its edit request opens the editor without touching the list or the store |
| TodoListScreen.TodoList.FilteredAndSortedTodos | todolistapp-main/src/components/TodoList.tsx:104-131 | the step-by-step filters and the in-place sort return exactly the specified view of the current list |
| TaskEditor.TrimSlice | todolistapp-main/src/components/TodoModal.tsx:36 | `trim` keeps a contiguous slice of the text with only whitespace around it, and the slice neither starts nor ends with whitespace |
| TaskEditor.TrimEmpty | todolistapp-main/src/components/TodoModal.tsx:25 | the trimmed text is empty iff the text is all whitespace |
| TaskEditor.Trim | todolistapp-main/src/components/TodoModal.tsx:25 | `trim`: never longer than the text, and neither starts nor ends with whitespace; TaskEditor.TrimSlice and TaskEditor.TrimEmpty complete its description |
| TaskEditor.FieldFromInstantAsWritten | todolistapp-main/src/components/TodoModal.tsx:14-18 | as written, the deadline field shows the UTC time, rounded down to a whole minute |
| TaskEditor.FieldFromInstant | todolistapp-main/src/components/TodoModal.tsx:14-18 | the corrected field shows the local time, rounded down to a whole minute |
| TaskEditor.InstantFromField | todolistapp-main/src/components/TodoModal.tsx:38 | a zoneless field value is read as local time |
| TaskEditor.ResubmitShiftsDeadlineAsWritten | todolistapp-main/src/components/TodoModal.tsx:16 | as written, saving an unchanged deadline field moves the deadline by minus the zone offset |
| TaskEditor.ResubmitShiftsDeadlineExample | todolistapp-main/src/components/TodoModal.tsx:16 | a task due 2025-12-15 09:00 UTC, edited seven hours ahead of UTC, comes back due seven hours earlier |
| TaskEditor.ResubmitKeepsDeadline | todolistapp-main/src/components/TodoModal.tsx:16 | with the corrected field, saving it unchanged keeps the deadline to the minute in any whole-minute zone |
| TaskEditor.CompletionTime | todolistapp-main/src/components/TodoModal.tsx:41-45 | the payload's completion time: none when pending, now when newly done, the old one when it was already done |
| TaskEditor.Submit | todolistapp-main/src/components/TodoModal.tsx:21-47 | saves iff the trimmed text is non-empty and a deadline is chosen; otherwise the first failing check's message; a saved payload has the trimmed text, the status, the deadline read as local time and the completion time |
| TaskEditor.SavedDoneHasFinish | todolistapp-main/src/components/TodoModal.tsx:41-45 | a saved payload marked done always carries a completion time, provided the edited task did |
| TaskEditor.TodoModal.constructor | todolistapp-main/src/components/TodoModal.tsx:12-19 | the fields start from the edited task, or else empty, pending and due now, with the deadline field filled with the UTC time as written; the error starts empty |
| TaskEditor.TodoModal.SetFields | todolistapp-main/src/components/TodoModal.tsx:73-100 | the three `onChange` setters set the text, the deadline field (possibly cleared) and the status |
| TaskEditor.TodoModal.HandleSubmit | todolistapp-main/src/components/TodoModal.tsx:21-48 | the error is set to the first failing check's message and nothing is saved; otherwise the error is cleared and the payload is returned |
| TaskEditor.UnchangedEditShiftsDeadline | todolistapp-main/src/components/TodoModal.tsx:12-47 | as written, opening a task and saving it unchanged returns its trimmed text and its status, for a done task its completion time, but its deadline moved by minus the zone offset |
| TaskEditor.UnchangedEditKeepsTask | todolistapp-main/src/components/TodoModal.tsx:12-47 | with the corrected field, opening a task and saving it unchanged returns its trimmed text, its status, its deadline to the minute, and for a done task its completion time |
| TaskItem.OverdueCases | todolistapp-main/src/components/TodoItem.tsx:23-27 | overdue iff the deadline has passed and the task is pending; a done task and a deadline equal to now are never overdue |
| TaskItem.IsOverdue | todolistapp-main/src/components/TodoItem.tsx:23-27 | `isOverdue`; its cases are stated by TaskItem.OverdueCases |
| TaskItem.IsPending | todolistapp-main/src/components/TodoItem.tsx:29 | `isPending`; stated by TaskItem.PendingOrDone |
| TaskItem.OverdueStaysOverdue | todolistapp-main/src/components/TodoItem.tsx:23-27 | an overdue task stays overdue as time passes |
| TaskItem.PendingOrDone | todolistapp-main/src/components/TodoItem.tsx:29 | the pending look applies exactly when the task is not done |
| TaskItem.OnToggleClick | todolistapp-main/src/components/TodoItem.tsx:36 | the status button always asks to toggle this task's id |
| TaskItem.OnDeleteClick | todolistapp-main/src/components/TodoItem.tsx:96-101 | the delete button asks to delete this task's id iff the confirmation answered yes |
| TaskItem.OnEditClick | todolistapp-main/src/components/TodoItem.tsx:90 | the edit button hands over this task |
| Login.InitialUsers | todolistapp-main/src/components/LoginForm.tsx:10-18 | the directory starts with the one account `user_1` and its hashed password |
| Login.FindByEmail | todolistapp-main/src/components/LoginForm.tsx:42 | the lookup fails iff no account has the address, and otherwise returns an account with that address |
| Login.FindByEmailFirst | todolistapp-main/src/components/LoginForm.tsx:59 | the lookup returns the first account with the address |
| Login.FindByEmailUnique | todolistapp-main/src/components/LoginForm.tsx:59 | with distinct addresses, looking up an account's address returns that account |
| Login.NewUser | todolistapp-main/src/components/LoginForm.tsx:48-54 | a new account has id `user_` plus the time stamp, the given name and address, password `hashed_` plus the password, and the address-seeded avatar |
| Login.EmailLogin | todolistapp-main/src/components/LoginForm.tsx:27-68 | a missing address or password, then (on sign-up) a missing name or a taken address, then (on log-in) an unknown address fail with their messages and leave the directory alone; sign-up appends exactly the new account and logs it in; log-in logs in the account found |
| Login.SignUpKeepsEmailsDistinct | todolistapp-main/src/components/LoginForm.tsx:42-56 | sign-up keeps the directory's addresses pairwise distinct |
| Login.LoginIgnoresPassword | todolistapp-main/src/components/LoginForm.tsx:58-66 | any two non-empty passwords give the same log-in result |
| Login.SignUpThenLogIn | todolistapp-main/src/components/LoginForm.tsx:42-66 | after a sign-up, logging in with that address and any non-empty password returns the new account and leaves the directory as it is |
| Login.FindAppended | todolistapp-main/src/components/LoginForm.tsx:42-59 | an account appended under a new address is what its address looks up |
| Login.GoogleUser | todolistapp-main/src/components/LoginForm.tsx:70-76 | the Google account always has address `user@gmail.com`, the fixed name and avatar, and no password |
| Login.UserDirectory.constructor | todolistapp-main/src/components/LoginForm.tsx:10-18 | the directory starts as the initial accounts |
| Login.UserDirectory.Push | todolistapp-main/src/components/LoginForm.tsx:56 | `push` appends one account |
| Login.LoginForm.constructor | todolistapp-main/src/components/LoginForm.tsx:21-25 | the form starts empty, in log-in mode, without an error |
| Login.LoginForm.SetFields | todolistapp-main/src/components/LoginForm.tsx:103-131 | typing sets the name, address and password fields |
| Login.LoginForm.ToggleMode | todolistapp-main/src/components/LoginForm.tsx:175-178 | the mode link switches between log-in and sign-up and clears the error |
| Login.LoginForm.HandleEmailLogin | todolistapp-main/src/components/LoginForm.tsx:27-68 | the directory becomes what the e-mail rules give; a failure sets its message and logs nobody in; a success clears the error and returns the account |
| Login.LoginForm.HandleGoogleLogin | todolistapp-main/src/components/LoginForm.tsx:70-79 | returns the Google account without touching the directory or the form |
| Session.Restored | todolistapp-main/src/App.tsx:29-32 | startup restores a user iff the session key is present, and restores the stored user |
| Session.AfterLogin | todolistapp-main/src/App.tsx:37-40 | log-in stores the user under the session key and leaves every other key as it was |
| Session.LogoutTodosKey | todolistapp-main/src/App.tsx:45 | log-out targets the signed-in user's task-list key, or the key for the text "undefined" when nobody is signed in |
| Session.AfterLogout | todolistapp-main/src/App.tsx:42-46 | log-out removes the session key and the signed-in user's task list, and leaves every other key as it was |
| Session.LoginThenRestore | todolistapp-main/src/App.tsx:29-39 | after a log-in, the next startup restores that user |
| Session.LogoutThenRestore | todolistapp-main/src/App.tsx:29-44 | after a log-out, the next startup restores nobody |
| Session.LogoutThenLoginReseeds | todolistapp-main/src/App.tsx:45 | logging out and back in as the same user finds no saved list, so the task screen seeds the sample list again |
| Session.LogoutKeepsOtherLists | todolistapp-main/src/App.tsx:45 | log-out keeps every other user's saved list |
| Session.Render | todolistapp-main/src/App.tsx:48-63 | the spinner iff loading; otherwise the sign-in form iff nobody is signed in, else the task list of the signed-in user |
| Session.App.constructor | todolistapp-main/src/App.tsx:23-24 | the shell starts loading, with nobody signed in |
| Session.App.Startup | todolistapp-main/src/App.tsx:26-35 | startup takes the stored user if the session key is present, else keeps nobody, and always ends loading |
| Session.App.HandleLogin | todolistapp-main/src/App.tsx:37-40 | the session becomes that user and the store becomes the log-in store |
| Session.App.HandleLogout | todolistapp-main/src/App.tsx:42-46 | the session becomes anonymous and the store becomes the log-out store for the previously signed-in user |

## Left out

- Markup, styling, icons and React hook plumbing are not modelled. Each component is explicit state plus one method per handler. `useMemo` re-runs are not modelled; the view is computed on request.
- JSON is left out. The store holds records, not JSON text. A value of the wrong shape under a key, where `JSON.parse` would misbehave, is excluded by a `requires` on the members that read it.
- The 500 ms delay before the startup check is left out. Startup is one step.
- The confirmation dialog is a boolean parameter.
- `Date.now()` and `new Date()` are left out. The current time is a parameter. New ids are parameters: the whole id for a task, and the text after `user_` or `google_` for an account.
- Date text is not parsed or formatted. Deadlines and completion times are millisecond instants. The sample list's zoneless times are read as UTC. The browser zone is a fixed offset, with no daylight-saving changes.
- TaskView.Lower: lower-cases ASCII letters only. Full Unicode case mapping is not modelled.
- TaskView.SortInPlace: the engine's `Array.prototype.sort` algorithm is replaced by an insertion sort. The ECMAScript standard requires that sort to be stable (since its 2019 edition), so its result is the same; the comparisons it makes are not modelled.
- In-place sort aliasing is left out. With no search and no status filter active, the source sorts the state array itself. `TodoListScreen.TodoList.FilteredAndSortedTodos` sorts a copy, so this side effect on the stored order is not modelled.
- The browser's check that the e-mail field holds an address is not modelled. Neither is the empty-list message.
- The shell's task screen is not mounted from the session. `TodoListScreen.TodoList` takes the user's id and the shared store directly.

## Findings

| source | as written | input that shows it | evidently intended | confidence | as-written member | corrected member |
|---|---|---|---|---|---|---|
| todolistapp-main/src/components/TodoModal.tsx:14-18 | the deadline field is filled with `toISOString().slice(0, 16)`, the UTC date and time, but the field's value is read back (line 38) as local time | a task due 2025-12-15 09:00 UTC, opened and saved unchanged at UTC+7, comes back due 02:00 UTC, seven hours earlier; every further edit shifts it again | fill the field with the local date and time, so that an unchanged field keeps the deadline | high (not executed) | TaskEditor.ResubmitShiftsDeadlineExample | TaskEditor.ResubmitKeepsDeadline |
