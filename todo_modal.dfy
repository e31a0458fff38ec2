/** The task editor (TodoModal.tsx): its form fields and their defaults,
    the validation that runs on submit, and the payload it hands to the
    task list, including the completion-time policy. */
module TaskEditor {
  import opened Types

  const TextRequired: string := "Vui lòng nhập nội dung công việc"
  const DeadlineRequired: string := "Vui lòng chọn deadline"

  // ---------------------------------------------------------------------
  // String.prototype.trim

  /** The characters `trim` removes: ECMAScript's WhiteSpace and
      LineTerminator code points. */
  predicate IsWhitespace(c: char)
  {
    c == '\t' || c == '\n' || c == '\U{B}' || c == '\U{C}' || c == '\r' || c == ' '
    || c == '\U{A0}' || c == '\U{1680}' || ('\U{2000}' <= c <= '\U{200A}')
    || c == '\U{2028}' || c == '\U{2029}' || c == '\U{202F}' || c == '\U{205F}'
    || c == '\U{3000}' || c == '\U{FEFF}'
  }

  predicate AllWhitespace(s: string)
  {
    forall i :: 0 <= i < |s| ==> IsWhitespace(s[i])
  }

  /** The number of whitespace characters `s` starts with. */
  function LeadingWhitespace(s: string): (n: nat)
    ensures n <= |s| && AllWhitespace(s[..n])
    ensures n < |s| ==> !IsWhitespace(s[n])
  {
    if s == [] || !IsWhitespace(s[0]) then 0
    else
      var m := LeadingWhitespace(s[1..]);
      WhitespaceCons(s, m + 1);
      m + 1
  }

  /** A whitespace character before a run of whitespace. */
  lemma WhitespaceCons(s: string, n: nat)
    requires 0 < n <= |s| && IsWhitespace(s[0]) && AllWhitespace(s[1..][..n - 1])
    ensures AllWhitespace(s[..n])
  {
    forall i | 0 <= i < n
      ensures IsWhitespace(s[..n][i])
    {
      if i > 0 {
        assert s[..n][i] == s[1..][..n - 1][i - 1];
      }
    }
  }

  /** The number of whitespace characters `s` ends with. */
  function TrailingWhitespace(s: string): (n: nat)
    ensures n <= |s| && AllWhitespace(s[|s| - n..])
    ensures n < |s| ==> !IsWhitespace(s[|s| - n - 1])
  {
    if s == [] || !IsWhitespace(s[|s| - 1]) then 0
    else
      var m := TrailingWhitespace(s[..|s| - 1]);
      WhitespaceSnoc(s, |s| - 1 - m);
      m + 1
  }

  /** A run of whitespace followed by a whitespace character. */
  lemma WhitespaceSnoc(s: string, n: nat)
    requires n < |s| && IsWhitespace(s[|s| - 1]) && AllWhitespace(s[..|s| - 1][n..])
    ensures AllWhitespace(s[n..])
  {
    forall i | 0 <= i < |s| - n
      ensures IsWhitespace(s[n..][i])
    {
      if i < |s| - 1 - n {
        assert s[n..][i] == s[..|s| - 1][n..][i];
      }
    }
  }

  /** `s` without its leading whitespace. */
  function TrimStart(s: string): (r: string)
    ensures |r| <= |s| && r == s[|s| - |r|..]
    ensures AllWhitespace(s[..|s| - |r|])
    ensures r != [] ==> !IsWhitespace(r[0])
  {
    s[LeadingWhitespace(s)..]
  }

  /** `s` without its trailing whitespace. */
  function TrimEnd(s: string): (r: string)
    ensures |r| <= |s| && r == s[..|r|]
    ensures AllWhitespace(s[|r|..])
    ensures r != [] ==> !IsWhitespace(r[|r| - 1])
  {
    s[..|s| - TrailingWhitespace(s)]
  }

  /** `s.trim()`: `s` without its leading and trailing whitespace. */
  function Trim(s: string): (r: string)
    ensures |r| <= |s|
    ensures r != [] ==> !IsWhitespace(r[0]) && !IsWhitespace(r[|r| - 1])
  {
    TrimStart(TrimEnd(s))
  }

  /** What `trim` keeps is a slice of `s` with only whitespace around
      it. */
  lemma TrimSlice(s: string)
    ensures var r := Trim(s);
            exists i | 0 <= i <= |s| - |r| :: r == s[i..i + |r|] && AllWhitespace(s[..i]) && AllWhitespace(s[i + |r|..])
  {
    var t := TrimEnd(s);
    var r := TrimStart(t);
    var i := |t| - |r|;
    var j := i + |r|;
    assert j == |t|;
    assert r == s[i..j];
    assert s[..i] == t[..i];
    assert AllWhitespace(s[..i]);
    assert AllWhitespace(s[j..]);
  }

  /** `trim` leaves nothing exactly when `s` is all whitespace. */
  lemma TrimEmpty(s: string)
    ensures Trim(s) == [] <==> AllWhitespace(s)
  {
    var t := TrimEnd(s);
    var r := TrimStart(t);
    var i := |t| - |r|;
    if r == [] {
      assert t[..i] == t;
      assert s[..i] == t;
      WhitespaceConcat(s, i);
    } else {
      assert r[0] == t[i] == s[i];
    }
  }

  /** Two runs of whitespace make one. */
  lemma WhitespaceConcat(s: string, i: nat)
    requires i <= |s| && AllWhitespace(s[..i]) && AllWhitespace(s[i..])
    ensures AllWhitespace(s)
  {
    forall k | 0 <= k < |s|
      ensures IsWhitespace(s[k])
    {
      if k < i {
        assert s[k] == s[..i][k];
      } else {
        assert s[k] == s[i..][k - i];
      }
    }
  }

  // ---------------------------------------------------------------------
  // The deadline field (an <input type="datetime-local">)

  const MinuteMs: int := 60000

  /** An instant rounded down to the whole minute. */
  function MinuteFloor(t: int): (r: int)
    ensures r <= t < r + MinuteMs
    ensures r % MinuteMs == 0
  {
    t - t % MinuteMs
  }

  /** The field's value for an instant as the source fills it in:
      `toISOString().slice(0, 16)` shows the UTC date and time to the
      minute. Field values are the shown date and time, counted in
      milliseconds as if they were UTC. */
  function FieldFromInstantAsWritten(instant: int): (field: int)
    ensures field <= instant < field + MinuteMs
    ensures field % MinuteMs == 0
  {
    MinuteFloor(instant)
  }

  /** The field's value for an instant in the user's own zone, which is
      `zoneOffset` milliseconds ahead of UTC: the local date and time to
      the minute. */
  function FieldFromInstant(instant: int, zoneOffset: int): (field: int)
    ensures field <= instant + zoneOffset < field + MinuteMs
    ensures field % MinuteMs == 0
  {
    MinuteFloor(instant + zoneOffset)
  }

  /** `new Date(field)`: a date and time without a zone is read as local
      time, so the instant is the shown time minus the zone's offset. */
  function InstantFromField(field: int, zoneOffset: int): (instant: int)
    ensures instant + zoneOffset == field
  {
    field - zoneOffset
  }

  /** As written, submitting an unchanged deadline field moves the
      deadline by the zone's offset (and drops its seconds). */
  lemma ResubmitShiftsDeadlineAsWritten(deadline: int, zoneOffset: int)
    ensures InstantFromField(FieldFromInstantAsWritten(deadline), zoneOffset) == MinuteFloor(deadline) - zoneOffset
  {
  }

  /** A task due at 2025-12-15 09:00 UTC, edited in a zone seven hours
      ahead of UTC without touching its deadline, comes back due seven
      hours earlier. */
  lemma ResubmitShiftsDeadlineExample()
    ensures InstantFromField(FieldFromInstantAsWritten(1765789200000), 25200000) == 1765789200000 - 25200000
  {
    ResubmitShiftsDeadlineAsWritten(1765789200000, 25200000);
    assert 1765789200000 % MinuteMs == 0;
  }

  /** With the field filled in local time, submitting an unchanged field
      keeps the deadline (to the minute) in every zone whose offset is a
      whole number of minutes. */
  lemma ResubmitKeepsDeadline(deadline: int, zoneOffset: int)
    requires zoneOffset % MinuteMs == 0
    ensures InstantFromField(FieldFromInstant(deadline, zoneOffset), zoneOffset) == MinuteFloor(deadline)
  {
    var q := zoneOffset / MinuteMs;
    assert zoneOffset == q * MinuteMs;
    var d := deadline / MinuteMs;
    var m := deadline % MinuteMs;
    assert deadline + zoneOffset == (d + q) * MinuteMs + m;
    assert (deadline + zoneOffset) % MinuteMs == m;
  }

  // ---------------------------------------------------------------------
  // Submitting the form

  /** The completion time the payload carries, given the chosen status and
      the task being edited (`None` when creating). */
  function CompletionTime(status: Status, previous: Option<Todo>, now: int): (r: Option<int>)
    ensures status == Pending ==> r == None
    ensures status == Done && (previous.None? || previous.value.status != Done) ==> r == Some(now)
    ensures status == Done && previous.Some? && previous.value.status == Done ==> r == previous.value.finishedTime
  {
    if status == Done && !(previous.Some? && previous.value.status == Done) then Some(now)
    else if status == Done && previous.Some? && previous.value.finishedTime.Some? then previous.value.finishedTime
    else None
  }

  datatype Submission = Rejected(message: string) | Saved(draft: Draft)

  /** What `handleSubmit` does with the field values: the first failing
      check's message, or the payload passed to `onSave`. A deadline field
      of `None` is the empty field. */
  function Submit(text: string, status: Status, deadline: Option<int>, previous: Option<Todo>, now: int, zoneOffset: int): (r: Submission)
    ensures r.Saved? <==> Trim(text) != [] && deadline.Some?
    ensures Trim(text) == [] ==> r == Rejected(TextRequired)
    ensures Trim(text) != [] && deadline.None? ==> r == Rejected(DeadlineRequired)
    ensures r.Saved? ==> r.draft.text == Trim(text) && r.draft.status == status
    ensures r.Saved? ==> r.draft.deadline + zoneOffset == deadline.value
    ensures r.Saved? ==> r.draft.finishedTime == CompletionTime(status, previous, now)
  {
    if Trim(text) == [] then Rejected(TextRequired)
    else if deadline.None? then Rejected(DeadlineRequired)
    else Saved(Draft(Trim(text), status, InstantFromField(deadline.value, zoneOffset), CompletionTime(status, previous, now)))
  }

  /** A payload the editor saves never marks a task done without a
      completion time, provided the task it edits did not either. */
  lemma SavedDoneHasFinish(text: string, status: Status, deadline: Option<int>, previous: Option<Todo>, now: int, zoneOffset: int)
    requires previous.Some? && previous.value.status == Done ==> previous.value.finishedTime.Some?
    ensures var r := Submit(text, status, deadline, previous, now, zoneOffset);
            r.Saved? && r.draft.status == Done ==> r.draft.finishedTime.Some?
  {
  }

  /** The editor's state: the task being edited (if any), the three fields
      and the error line. */
  class TodoModal {
    const todo: Option<Todo>
    const zoneOffset: int
    var text: string
    var status: Status
    var deadline: Option<int>
    var error: string

    /** A new task starts empty, pending and due now; an edited task starts
        from its own text, status and deadline. The deadline field is
        filled as the source fills it, with the UTC time. */
    constructor(todo: Option<Todo>, now: int, zoneOffset: int)
      ensures this.todo == todo && this.zoneOffset == zoneOffset && error == ""
      ensures text == (if todo.Some? then todo.value.text else "")
      ensures status == (if todo.Some? then todo.value.status else Pending)
      ensures deadline == Some(FieldFromInstantAsWritten(if todo.Some? then todo.value.deadline else now))
    {
      this.todo := todo;
      this.zoneOffset := zoneOffset;
      if todo.Some? {
        text := todo.value.text;
        status := todo.value.status;
        deadline := Some(FieldFromInstantAsWritten(todo.value.deadline));
      } else {
        text := "";
        status := Pending;
        deadline := Some(FieldFromInstantAsWritten(now));
      }
      error := "";
    }

    /** Typing into the text area, choosing a status and editing the
        deadline field; `None` is the cleared field. */
    method SetFields(text: string, status: Status, deadline: Option<int>)
      modifies this`text, this`status, this`deadline
      ensures this.text == text && this.status == status && this.deadline == deadline
    {
      this.text, this.status, this.deadline := text, status, deadline;
    }

    /** Clears the error, runs the checks in order and either sets the
        error of the first one that fails or returns the payload for
        `onSave`. */
    method HandleSubmit(now: int) returns (saved: Option<Draft>)
      modifies this`error
      ensures Trim(text) == [] ==> error == TextRequired && saved == None
      ensures Trim(text) != [] && deadline.None? ==> error == DeadlineRequired && saved == None
      ensures Trim(text) != [] && deadline.Some? ==> error == "" && saved == Some(Submit(text, status, deadline, todo, now, zoneOffset).draft)
    {
      error := "";
      if Trim(text) == [] {
        error := TextRequired;
        return None;
      }
      if deadline.None? {
        error := DeadlineRequired;
        return None;
      }
      var draft := Draft(Trim(text), status, InstantFromField(deadline.value, zoneOffset), None);
      if status == Done && !(todo.Some? && todo.value.status == Done) {
        draft := draft.(finishedTime := Some(now));
      } else if status == Done && todo.Some? && todo.value.finishedTime.Some? {
        draft := draft.(finishedTime := todo.value.finishedTime);
      }
      saved := Some(draft);
    }
  }

  /** As written, opening the editor on a task and saving it unchanged
      gives back that task's text (trimmed) and status, but its deadline
      moved by the zone's offset. */
  lemma UnchangedEditShiftsDeadline(t: Todo, now: int, zoneOffset: int)
    requires Trim(t.text) != []
    ensures var r := Submit(t.text, t.status, Some(FieldFromInstantAsWritten(t.deadline)), Some(t), now, zoneOffset);
            r.Saved? && r.draft.text == Trim(t.text) && r.draft.status == t.status
            && r.draft.deadline == MinuteFloor(t.deadline) - zoneOffset
            && (t.status == Done ==> r.draft.finishedTime == t.finishedTime)
  {
    ResubmitShiftsDeadlineAsWritten(t.deadline, zoneOffset);
  }

  /** With the field filled in local time, opening the editor on a task and
      saving it unchanged gives back that task's text (trimmed), status
      and, to the minute, deadline. */
  lemma UnchangedEditKeepsTask(t: Todo, now: int, zoneOffset: int)
    requires zoneOffset % MinuteMs == 0
    requires Trim(t.text) != []
    ensures var r := Submit(t.text, t.status, Some(FieldFromInstant(t.deadline, zoneOffset)), Some(t), now, zoneOffset);
            r.Saved? && r.draft.text == Trim(t.text) && r.draft.status == t.status
            && r.draft.deadline == MinuteFloor(t.deadline)
            && (t.status == Done ==> r.draft.finishedTime == t.finishedTime)
  {
    ResubmitKeepsDeadline(t.deadline, zoneOffset);
  }
}
