/** The task list of one signed-in user (TodoList.tsx): the list loaded
    from the store or seeded, the four edits each written back at once,
    the tallies, and the searched, filtered and sorted view of the list. */
module TaskList {
  import opened Types
  import opened Seqs
  import opened Storage
  import TaskEditor

  // ---------------------------------------------------------------------
  // Tests handed to Filter

  /** Keeps the tasks whose id is not `id`. */
  function WithoutId(id: string): Todo -> bool
  {
    (t: Todo) => t.id != id
  }

  /** Keeps the tasks with status `st`. */
  function WithStatus(st: Status): Todo -> bool
  {
    (t: Todo) => t.status == st
  }

  // ---------------------------------------------------------------------
  // Properties of a list

  ghost predicate UniqueIds(todos: seq<Todo>)
  {
    forall i, j :: 0 <= i < j < |todos| ==> todos[i].id != todos[j].id
  }

  ghost predicate OwnedBy(todos: seq<Todo>, userId: string)
  {
    forall t :: t in todos ==> t.userId == userId
  }

  ghost predicate IdAbsent(todos: seq<Todo>, id: string)
  {
    forall t :: t in todos ==> t.id != id
  }

  /** Every done task carries the time it was finished. */
  ghost predicate DoneHasFinish(todos: seq<Todo>)
  {
    forall t :: t in todos ==> (t.status == Done ==> t.finishedTime.Some?)
  }

  /** A task carries a finish time exactly when it is done. */
  ghost predicate FinishedIffDone(todos: seq<Todo>)
  {
    forall t :: t in todos ==> (t.status == Done <==> t.finishedTime.Some?)
  }

  // ---------------------------------------------------------------------
  // The sample list installed for a user with no saved list

  const SampleText1: string := "Hoàn thành báo cáo dự án Q4 và trình bày cho ban giám đốc"
  const SampleText2: string := "Họp team weekly review công việc tuần và lên kế hoạch tuần sau"
  const SampleText3: string := "Code review PR #123 về tính năng authentication mới"
  const SampleText4: string := "Chuẩn bị tài liệu và slide cho buổi training nhân viên mới"

  /** The four sample tasks, owned by `userId`. */
  function SampleTodos(userId: string): seq<Todo>
  {
    [Todo("1", userId, SampleText1, Pending, 1765789200000, None),
     Todo("2", userId, SampleText2, Pending, 1765634400000, None),
     Todo("3", userId, SampleText3, Done, 1765382400000, Some(1765380600000)),
     Todo("4", userId, SampleText4, Done, 1765188000000, Some(1765187100000))]
  }

  /** The sample list has four tasks with distinct ids, all owned by the
      user, two pending and two done, and exactly the done ones carry a
      finish time. */
  lemma SampleTodosValid(userId: string)
    ensures var r := SampleTodos(userId);
            && |r| == 4 && UniqueIds(r) && OwnedBy(r, userId) && FinishedIffDone(r)
            && |Filter(WithStatus(Pending), r)| == 2 && |Filter(WithStatus(Done), r)| == 2
  {
    var r := SampleTodos(userId);
    forall i, j | 0 <= i < j < |r| ensures r[i].id != r[j].id {
      assert r[i].id[0] != r[j].id[0];
    }
    forall t | t in r ensures t.userId == userId && (t.status == Done <==> t.finishedTime.Some?) {
      assert t == r[0] || t == r[1] || t == r[2] || t == r[3];
    }
    var pending, done := [r[0], r[1]], [r[2], r[3]];
    assert r == pending + done;
    SampleCounts(pending, done);
  }

  /** Helper for SampleTodosValid: counting the statuses of two pending and
      two done tasks. */
  lemma SampleCounts(pending: seq<Todo>, done: seq<Todo>)
    requires |pending| == 2 && |done| == 2
    requires forall t :: t in pending ==> t.status == Pending
    requires forall t :: t in done ==> t.status == Done
    ensures |Filter(WithStatus(Pending), pending + done)| == 2
    ensures |Filter(WithStatus(Done), pending + done)| == 2
  {
    FilterConcat(WithStatus(Pending), pending, done);
    FilterConcat(WithStatus(Done), pending, done);
    FilterKeepsAll(WithStatus(Pending), pending);
    FilterKeepsAll(WithStatus(Done), done);
    assert Filter(WithStatus(Pending), done) == [];
    assert Filter(WithStatus(Done), pending) == [];
  }

  /** What the list holds right after loading: the saved list if there is
      one (even an empty one), the sample list otherwise. */
  function LoadedTodos(m: map<string, Value>, userId: string): seq<Todo>
    requires TodosKey(userId) in m ==> m[TodosKey(userId)].TodosValue?
  {
    if TodosKey(userId) in m then m[TodosKey(userId)].todos else SampleTodos(userId)
  }

  // ---------------------------------------------------------------------
  // Create

  /** `[...todos, { ...draft, id, userId }]`. */
  function CreateTodo(todos: seq<Todo>, draft: Draft, id: string, userId: string): (r: seq<Todo>)
    ensures |r| == |todos| + 1 && r[..|todos|] == todos
    ensures r[|todos|].id == id && r[|todos|].userId == userId
    ensures r[|todos|].text == draft.text && r[|todos|].status == draft.status
    ensures r[|todos|].deadline == draft.deadline && r[|todos|].finishedTime == draft.finishedTime
  {
    todos + [Todo(id, userId, draft.text, draft.status, draft.deadline, draft.finishedTime)]
  }

  /** With a fresh id, creating keeps ids unique and every task the
      user's; a payload that is done only with a finish time (as the
      editor's always is) keeps "done implies finish time", and one that
      has a finish time exactly when done keeps "finish time iff done". */
  lemma CreateKeepsInvariants(todos: seq<Todo>, draft: Draft, id: string, userId: string)
    requires UniqueIds(todos) && OwnedBy(todos, userId) && IdAbsent(todos, id)
    ensures var r := CreateTodo(todos, draft, id, userId);
            UniqueIds(r) && OwnedBy(r, userId) && !IdAbsent(r, id)
            && (DoneHasFinish(todos) && (draft.status == Done ==> draft.finishedTime.Some?) ==> DoneHasFinish(r))
            && (FinishedIffDone(todos) && (draft.status == Done <==> draft.finishedTime.Some?) ==> FinishedIffDone(r))
  {
    var r := CreateTodo(todos, draft, id, userId);
    assert forall t :: t in r ==> t in todos || t == r[|todos|] by {
      assert r == todos + [r[|todos|]];
    }
    forall i, j | 0 <= i < j < |r| ensures r[i].id != r[j].id {
      if j == |todos| {
        assert r[i] == todos[i] && r[i] in todos;
      } else {
        assert r[i] == todos[i] && r[j] == todos[j];
      }
    }
    assert r[|todos|] in r;
  }

  // ---------------------------------------------------------------------
  // Update

  /** `{ ...t, ...draft }`: the draft's fields over the task's; a draft
      without a finish time leaves the task's finish time in place. */
  function Merge(t: Todo, draft: Draft): (r: Todo)
    ensures r.id == t.id && r.userId == t.userId
    ensures r.text == draft.text && r.status == draft.status && r.deadline == draft.deadline
    ensures draft.finishedTime.Some? ==> r.finishedTime == draft.finishedTime
    ensures draft.finishedTime.None? ==> r.finishedTime == t.finishedTime
  {
    Todo(t.id, t.userId, draft.text, draft.status, draft.deadline,
         if draft.finishedTime.Some? then draft.finishedTime else t.finishedTime)
  }

  /** `todos.map(t => t.id === id ? { ...t, ...draft } : t)`. */
  function UpdateTodo(todos: seq<Todo>, id: string, draft: Draft): (r: seq<Todo>)
    ensures |r| == |todos|
    ensures forall i :: 0 <= i < |todos| && todos[i].id == id ==> r[i] == Merge(todos[i], draft)
    ensures forall i :: 0 <= i < |todos| && todos[i].id != id ==> r[i] == todos[i]
  {
    seq(|todos|, i requires 0 <= i < |todos| => if todos[i].id == id then Merge(todos[i], draft) else todos[i])
  }

  /** Updating an id that is not in the list changes nothing. */
  lemma UpdateAbsentIsNoop(todos: seq<Todo>, id: string, draft: Draft)
    requires IdAbsent(todos, id)
    ensures UpdateTodo(todos, id, draft) == todos
  {
    var r := UpdateTodo(todos, id, draft);
    forall i | 0 <= i < |todos| ensures r[i] == todos[i] {
      assert todos[i] in todos;
    }
  }

  /** Updating keeps every task's id and owner, so the list's invariants
      survive it; applying the same draft again changes nothing more. */
  lemma UpdateKeepsInvariants(todos: seq<Todo>, id: string, draft: Draft, userId: string)
    ensures var r := UpdateTodo(todos, id, draft);
            (forall i :: 0 <= i < |r| ==> r[i].id == todos[i].id && r[i].userId == todos[i].userId)
            && (UniqueIds(todos) ==> UniqueIds(r))
            && (OwnedBy(todos, userId) ==> OwnedBy(r, userId))
            && UpdateTodo(r, id, draft) == r
  {
    var r := UpdateTodo(todos, id, draft);
    if OwnedBy(todos, userId) {
      forall t | t in r ensures t.userId == userId {
        var i :| 0 <= i < |r| && r[i] == t;
        assert todos[i] in todos;
      }
    }
    var r2 := UpdateTodo(r, id, draft);
    assert forall i :: 0 <= i < |r| ==> r2[i] == r[i];
  }

  /** An update whose draft gives every done status a finish time keeps
      every done task finished. */
  lemma UpdateKeepsDoneHasFinish(todos: seq<Todo>, id: string, draft: Draft)
    requires DoneHasFinish(todos)
    requires draft.status == Done ==> draft.finishedTime.Some?
    ensures DoneHasFinish(UpdateTodo(todos, id, draft))
  {
    var r := UpdateTodo(todos, id, draft);
    forall t | t in r ensures t.status == Done ==> t.finishedTime.Some? {
      var i :| 0 <= i < |r| && r[i] == t;
      assert todos[i] in todos;
    }
  }

  /** The converse rule does not survive an edit: a done task edited back
      to pending through the editor keeps its old finish time, because the
      pending payload has no finish time to spread over it. */
  lemma EditToPendingKeepsFinishTime(t: Todo, now: int)
    requires t.status == Done && t.finishedTime.Some? && TaskEditor.Trim(t.text) != []
    ensures var s := TaskEditor.Submit(t.text, Pending, Some(t.deadline), Some(t), now, 0);
            s.Saved? && !FinishedIffDone(UpdateTodo([t], t.id, s.draft))
  {
    var s := TaskEditor.Submit(t.text, Pending, Some(t.deadline), Some(t), now, 0);
    var r := UpdateTodo([t], t.id, s.draft);
    assert r[0] in r;
  }

  // ---------------------------------------------------------------------
  // Toggle

  /** One task with its status flipped: becoming done stamps `now` as its
      finish time, becoming pending clears it. */
  function Toggled(t: Todo, now: int): (r: Todo)
    ensures r.status != t.status
    ensures r.status == Done ==> r.finishedTime == Some(now)
    ensures r.status == Pending ==> r.finishedTime == None
    ensures r.id == t.id && r.userId == t.userId && r.text == t.text && r.deadline == t.deadline
  {
    var st := Flip(t.status);
    Todo(t.id, t.userId, t.text, st, t.deadline, if st == Done then Some(now) else None)
  }

  /** `todos.map(...)` flipping the tasks whose id is `id`. */
  function ToggleTodo(todos: seq<Todo>, id: string, now: int): (r: seq<Todo>)
    ensures |r| == |todos|
    ensures forall i :: 0 <= i < |todos| && todos[i].id == id ==> r[i] == Toggled(todos[i], now)
    ensures forall i :: 0 <= i < |todos| && todos[i].id != id ==> r[i] == todos[i]
  {
    seq(|todos|, i requires 0 <= i < |todos| => if todos[i].id == id then Toggled(todos[i], now) else todos[i])
  }

  /** Toggling twice gives every task its status back; only the finish time
      of a task that ends done is new (the second toggle's time). */
  lemma ToggleTwice(todos: seq<Todo>, id: string, now1: int, now2: int)
    ensures var r := ToggleTodo(ToggleTodo(todos, id, now1), id, now2);
            |r| == |todos|
            && (forall i :: 0 <= i < |todos| ==> r[i].(finishedTime := todos[i].finishedTime) == todos[i])
            && (forall i :: 0 <= i < |todos| && todos[i].id == id ==>
                  r[i].finishedTime == (if todos[i].status == Done then Some(now2) else None))
            && (forall i :: 0 <= i < |todos| && todos[i].id != id ==> r[i] == todos[i])
  {
    var r1 := ToggleTodo(todos, id, now1);
    var r := ToggleTodo(r1, id, now2);
    forall i | 0 <= i < |todos| && todos[i].id == id
      ensures r[i].status == todos[i].status
    {
      assert r1[i] == Toggled(todos[i], now1);
    }
  }

  /** Toggling keeps "finish time exactly when done" and the list's ids and
      owners. */
  lemma ToggleKeepsInvariants(todos: seq<Todo>, id: string, now: int, userId: string)
    ensures var r := ToggleTodo(todos, id, now);
            (FinishedIffDone(todos) ==> FinishedIffDone(r))
            && (DoneHasFinish(todos) ==> DoneHasFinish(r))
            && (UniqueIds(todos) ==> UniqueIds(r))
            && (OwnedBy(todos, userId) ==> OwnedBy(r, userId))
  {
    var r := ToggleTodo(todos, id, now);
    forall t | t in r
      ensures (FinishedIffDone(todos) ==> (t.status == Done <==> t.finishedTime.Some?))
      ensures (DoneHasFinish(todos) ==> (t.status == Done ==> t.finishedTime.Some?))
      ensures (OwnedBy(todos, userId) ==> t.userId == userId)
    {
      var i :| 0 <= i < |r| && r[i] == t;
      assert todos[i] in todos;
    }
  }

  // ---------------------------------------------------------------------
  // Delete

  /** `todos.filter(t => t.id !== id)`. */
  function DeleteTodo(todos: seq<Todo>, id: string): (r: seq<Todo>)
    ensures forall t :: t in r <==> t in todos && t.id != id
    ensures forall t :: multiset(r)[t] == if t.id == id then 0 else multiset(todos)[t]
  {
    FilterMultiset(WithoutId(id), todos);
    Filter(WithoutId(id), todos)
  }

  /** Deleting keeps the remaining tasks in their order: the result for a
      list is the results for its two halves, one after the other. */
  lemma DeleteKeepsOrder(a: seq<Todo>, b: seq<Todo>, id: string)
    ensures DeleteTodo(a + b, id) == DeleteTodo(a, id) + DeleteTodo(b, id)
  {
    FilterConcat(WithoutId(id), a, b);
  }

  /** Deleting again is a no-op, and so is deleting an id not in the list. */
  lemma DeleteIdempotent(todos: seq<Todo>, id: string)
    ensures DeleteTodo(DeleteTodo(todos, id), id) == DeleteTodo(todos, id)
    ensures IdAbsent(todos, id) ==> DeleteTodo(todos, id) == todos
  {
    FilterIdempotent(WithoutId(id), todos);
    if IdAbsent(todos, id) {
      FilterKeepsAll(WithoutId(id), todos);
    }
  }

  /** Deleting the task just created with a fresh id gives the list back. */
  lemma DeleteUndoesCreate(todos: seq<Todo>, draft: Draft, id: string, userId: string)
    requires IdAbsent(todos, id)
    ensures DeleteTodo(CreateTodo(todos, draft, id, userId), id) == todos
  {
    var t := Todo(id, userId, draft.text, draft.status, draft.deadline, draft.finishedTime);
    FilterConcat(WithoutId(id), todos, [t]);
    FilterKeepsAll(WithoutId(id), todos);
    FilterSingleton(WithoutId(id), t);
  }

  /** Deleting keeps every remaining task the user's and keeps the
      finish-time rules, since it only drops tasks. */
  lemma DeleteKeepsInvariants(todos: seq<Todo>, id: string, userId: string)
    ensures var r := DeleteTodo(todos, id);
            (UniqueIds(todos) ==> UniqueIds(r))
            && (OwnedBy(todos, userId) ==> OwnedBy(r, userId))
            && (FinishedIffDone(todos) ==> FinishedIffDone(r))
            && (DoneHasFinish(todos) ==> DoneHasFinish(r))
  {
    if UniqueIds(todos) {
      DeleteKeepsUniqueIds(todos, id);
    }
  }

  /** Deleting keeps ids unique. */
  lemma {:induction false} DeleteKeepsUniqueIds(todos: seq<Todo>, id: string)
    requires UniqueIds(todos)
    ensures UniqueIds(DeleteTodo(todos, id))
  {
    if todos != [] {
      var rest := todos[1..];
      assert UniqueIds(rest) by {
        forall i, j | 0 <= i < j < |rest| ensures rest[i].id != rest[j].id {
          assert rest[i] == todos[i + 1] && rest[j] == todos[j + 1];
        }
      }
      DeleteKeepsUniqueIds(rest, id);
      var tail := DeleteTodo(rest, id);
      if todos[0].id != id {
        assert IdAbsent(rest, todos[0].id) by {
          forall t | t in rest ensures t.id != todos[0].id {
            var k :| 0 <= k < |rest| && rest[k] == t;
            assert todos[k + 1] == t;
          }
        }
        UniqueAfterFreshHead(todos[0], tail);
      }
    }
  }

  /** Helper for DeleteKeepsUniqueIds: a task put in front of a list with
      unique ids none equal to its own. */
  lemma UniqueAfterFreshHead(t: Todo, tail: seq<Todo>)
    requires UniqueIds(tail) && IdAbsent(tail, t.id)
    ensures UniqueIds([t] + tail)
  {
    var r := [t] + tail;
    forall i, j | 0 <= i < j < |r| ensures r[i].id != r[j].id {
      assert r[j] == tail[j - 1] && r[j] in tail;
      if i > 0 {
        assert r[i] == tail[i - 1];
      }
    }
  }

  // ---------------------------------------------------------------------
  // Tallies

  datatype Stats = Stats(total: nat, pending: nat, done: nat)

  /** The pending and the done tasks split the list: no task is in both
      and together they hold every task as often as the list does. */
  lemma StatusPartition(todos: seq<Todo>)
    ensures multiset(Filter(WithStatus(Pending), todos)) + multiset(Filter(WithStatus(Done), todos)) == multiset(todos)
    ensures |Filter(WithStatus(Pending), todos)| + |Filter(WithStatus(Done), todos)| == |todos|
    ensures forall t :: !(t in Filter(WithStatus(Pending), todos) && t in Filter(WithStatus(Done), todos))
  {
    FilterPartition(WithStatus(Pending), WithStatus(Done), todos);
  }

  /** `stats`: the number of tasks, of pending tasks and of done tasks. */
  function Tally(todos: seq<Todo>): (st: Stats)
    ensures st.total == |todos| && st.total == st.pending + st.done
    ensures st.pending == |Filter(WithStatus(Pending), todos)|
    ensures st.done == |Filter(WithStatus(Done), todos)|
  {
    StatusPartition(todos);
    Stats(|todos|, |Filter(WithStatus(Pending), todos)|, |Filter(WithStatus(Done), todos)|)
  }

  /** A freshly seeded list has four tasks, two pending and two done. */
  lemma SampleTally(userId: string)
    ensures Tally(SampleTodos(userId)) == Stats(4, 2, 2)
  {
    SampleTodosValid(userId);
  }
}
