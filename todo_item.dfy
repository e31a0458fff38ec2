/** One row of the task list (TodoItem.tsx): the overdue and pending rules
    it renders by, and what its toggle and delete buttons dispatch. */
module TaskItem {
  import opened Types

  /** The row's warning: the deadline has passed and the task is still
      pending. */
  predicate IsOverdue(t: Todo, now: int)
  {
    t.deadline < now && t.status == Pending
  }

  /** The row's pending styling and label. */
  predicate IsPending(t: Todo)
  {
    t.status == Pending
  }

  /** Overdue exactly when past the deadline and pending; in particular a
      done task is never overdue, and a deadline equal to now is not yet
      passed. */
  lemma OverdueCases(t: Todo, now: int)
    ensures IsOverdue(t, now) <==> t.deadline < now && IsPending(t)
    ensures t.status == Done ==> !IsOverdue(t, now)
    ensures t.deadline == now ==> !IsOverdue(t, now)
  {
  }

  /** Once overdue, a task stays overdue as time goes on until its status
      changes. */
  lemma OverdueStaysOverdue(t: Todo, now: int, later: int)
    requires IsOverdue(t, now) && now <= later
    ensures IsOverdue(t, later)
  {
  }

  /** The pending label and the done styling never apply together: the row
      is in exactly one of the two states. */
  lemma PendingOrDone(t: Todo)
    ensures IsPending(t) <==> t.status != Done
  {
  }

  datatype Action = ToggleStatus(id: string) | DeleteTask(id: string) | EditTask(todo: Todo)

  /** The status button always asks to toggle this row's task. */
  function OnToggleClick(t: Todo): (a: Action)
    ensures a.ToggleStatus? && a.id == t.id
  {
    ToggleStatus(t.id)
  }

  /** The delete button asks to delete this row's task only when the
      confirmation dialog answered yes. */
  function OnDeleteClick(t: Todo, confirmed: bool): (a: Option<Action>)
    ensures a.Some? <==> confirmed
    ensures a.Some? ==> a.value == DeleteTask(t.id)
  {
    if confirmed then Some(DeleteTask(t.id)) else None
  }

  /** The edit button hands this row's task to the editor. */
  function OnEditClick(t: Todo): (a: Action)
    ensures a.EditTask? && a.todo == t
  {
    EditTask(t)
  }
}
