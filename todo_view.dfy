/** The displayed list (`filteredAndSortedTodos` in TodoList.tsx): a
    case-insensitive search on the text, then a status filter, then a
    stable sort by deadline or by status, done in place on an array. */
module TaskView {
  import opened Types
  import opened Seqs
  import opened TaskList

  datatype StatusFilter = All | Only(status: Status)
  datatype SortBy = ByDeadline | ByStatus

  // ---------------------------------------------------------------------
  // Search

  /** `toLowerCase` on one character, for the ASCII letters. */
  function LowerChar(c: char): char
  {
    if 'A' <= c <= 'Z' then (c as int + 32) as char else c
  }

  function Lower(s: string): (r: string)
    ensures |r| == |s|
    ensures forall i :: 0 <= i < |s| ==> r[i] == LowerChar(s[i])
  {
    seq(|s|, i requires 0 <= i < |s| => LowerChar(s[i]))
  }

  /** `sub` occurs in `s` starting at position `i`. */
  predicate OccursAt(s: string, sub: string, i: int)
  {
    0 <= i <= |s| - |sub| && s[i..i + |sub|] == sub
  }

  /** `s.includes(sub)`: `sub` occurs in `s` at some position. */
  function Includes(s: string, sub: string): (b: bool)
    ensures b <==> exists i :: OccursAt(s, sub, i)
  {
    if |sub| <= |s| && s[..|sub|] == sub then
      assert OccursAt(s, sub, 0);
      true
    else if |s| <= |sub| then
      assert forall i :: OccursAt(s, sub, i) ==> i == 0;
      false
    else
      var b := Includes(s[1..], sub);
      assert forall i :: OccursAt(s[1..], sub, i) <==> OccursAt(s, sub, i + 1) by {
        forall i ensures OccursAt(s[1..], sub, i) <==> OccursAt(s, sub, i + 1) {
          if 0 <= i <= |s| - 1 - |sub| {
            assert s[1..][i..i + |sub|] == s[i + 1..i + 1 + |sub|];
          }
        }
      }
      assert !OccursAt(s, sub, 0);
      assert (exists i :: OccursAt(s, sub, i)) ==> b by {
        if exists i :: OccursAt(s, sub, i) {
          var i :| OccursAt(s, sub, i);
          assert OccursAt(s[1..], sub, i - 1);
        }
      }
      b
  }

  /** The search test: the query, lower-cased, occurs in the lower-cased
      text. */
  function MatchesQuery(query: string): Todo -> bool
  {
    (t: Todo) => Includes(Lower(t.text), Lower(query))
  }

  /** Whether a task is shown under the given search query and status
      filter: an empty query and `All` let everything through. */
  predicate Visible(t: Todo, query: string, filter: StatusFilter)
  {
    (query == "" || Includes(Lower(t.text), Lower(query)))
    && (filter.All? || t.status == filter.status)
  }

  function VisibleUnder(query: string, filter: StatusFilter): Todo -> bool
  {
    (t: Todo) => Visible(t, query, filter)
  }

  /** The search step: skipped for an empty query. */
  function Searched(todos: seq<Todo>, query: string): seq<Todo>
  {
    if query == "" then todos else Filter(MatchesQuery(query), todos)
  }

  /** The status step: skipped for `All`. */
  function StatusFiltered(todos: seq<Todo>, filter: StatusFilter): seq<Todo>
  {
    if filter.All? then todos else Filter(WithStatus(filter.status), todos)
  }

  /** The two filter steps are one filter by `Visible`. */
  lemma FilterStepsAreVisible(todos: seq<Todo>, query: string, filter: StatusFilter)
    ensures StatusFiltered(Searched(todos, query), filter) == Filter(VisibleUnder(query, filter), todos)
  {
    var v := VisibleUnder(query, filter);
    if query == "" {
      if filter.All? {
        FilterKeepsAll(v, todos);
      } else {
        FilterSameTest(WithStatus(filter.status), v, todos);
      }
    } else {
      if filter.All? {
        FilterSameTest(MatchesQuery(query), v, todos);
      } else {
        FilterFilter(MatchesQuery(query), WithStatus(filter.status), v, todos);
      }
    }
  }

  // ---------------------------------------------------------------------
  // Sorting

  /** The comparator's key: the deadline, or 0 for pending and 1 for done. */
  function SortKey(t: Todo, order: SortBy): int
  {
    match order
    case ByDeadline => t.deadline
    case ByStatus => if t.status == Pending then 0 else 1
  }

  function WithKey(order: SortBy, k: int): Todo -> bool
  {
    (t: Todo) => SortKey(t, order) == k
  }

  ghost predicate IsSortedBy(s: seq<Todo>, order: SortBy)
  {
    forall i, j :: 0 <= i < j < |s| ==> SortKey(s[i], order) <= SortKey(s[j], order)
  }

  /** `x` placed into `s` after every element whose key is not larger
      than its own. */
  function Insert(x: Todo, s: seq<Todo>, order: SortBy): seq<Todo>
  {
    if s == [] then [x]
    else if SortKey(s[|s| - 1], order) > SortKey(x, order) then
      Insert(x, s[..|s| - 1], order) + [s[|s| - 1]]
    else
      s + [x]
  }

  /** Inserting adds `x` and loses nothing. */
  lemma {:induction false} InsertMultiset(x: Todo, s: seq<Todo>, order: SortBy)
    ensures multiset(Insert(x, s, order)) == multiset(s) + multiset{x}
  {
    if s != [] && SortKey(s[|s| - 1], order) > SortKey(x, order) {
      var init := s[..|s| - 1];
      InsertMultiset(x, init, order);
      assert s == init + [s[|s| - 1]];
    }
  }

  /** Inserting into a sorted list keeps it sorted. */
  lemma {:induction false} InsertSorted(x: Todo, s: seq<Todo>, order: SortBy)
    requires IsSortedBy(s, order)
    ensures IsSortedBy(Insert(x, s, order), order)
  {
    if s == [] {
    } else if SortKey(s[|s| - 1], order) > SortKey(x, order) {
      var init := s[..|s| - 1];
      var last := s[|s| - 1];
      InsertSorted(x, init, order);
      SortedBelowLast(s, order);
      assert forall t :: t in init ==> t in s;
      InsertBounded(x, init, order, SortKey(last, order));
      SortedSnoc(Insert(x, init, order), last, order);
    } else {
      SortedBelowLast(s, order);
      SortedSnoc(s, x, order);
    }
  }

  /** In a sorted non-empty list no task has a larger key than the last. */
  lemma SortedBelowLast(s: seq<Todo>, order: SortBy)
    requires s != [] && IsSortedBy(s, order)
    ensures forall t :: t in s ==> SortKey(t, order) <= SortKey(s[|s| - 1], order)
  {
    forall t | t in s ensures SortKey(t, order) <= SortKey(s[|s| - 1], order) {
      var k :| 0 <= k < |s| && s[k] == t;
      if k < |s| - 1 {
        assert SortKey(s[k], order) <= SortKey(s[|s| - 1], order);
      }
    }
  }

  /** Inserting a task no larger than a bound into tasks no larger than
      that bound gives tasks no larger than it. */
  lemma InsertBounded(x: Todo, s: seq<Todo>, order: SortBy, bound: int)
    requires forall t :: t in s ==> SortKey(t, order) <= bound
    requires SortKey(x, order) <= bound
    ensures forall t :: t in Insert(x, s, order) ==> SortKey(t, order) <= bound
  {
    var r := Insert(x, s, order);
    InsertMultiset(x, s, order);
    forall t | t in r ensures SortKey(t, order) <= bound {
      assert t in multiset(r);
      if t != x {
        assert t in multiset(s);
      }
    }
  }

  /** Appending a task at least as large as every other keeps a list
      sorted. */
  lemma SortedSnoc(s: seq<Todo>, last: Todo, order: SortBy)
    requires IsSortedBy(s, order)
    requires forall t :: t in s ==> SortKey(t, order) <= SortKey(last, order)
    ensures IsSortedBy(s + [last], order)
  {
    var r := s + [last];
    forall i, j | 0 <= i < j < |r| ensures SortKey(r[i], order) <= SortKey(r[j], order) {
      assert r[i] == s[i] && s[i] in s;
      if j < |s| {
        assert r[j] == s[j];
      }
    }
  }

  /** The list sorted by key, ties kept in their original order: the
      result of any stable sort with the source's comparator. */
  function SortedBy(s: seq<Todo>, order: SortBy): seq<Todo>
  {
    if s == [] then [] else Insert(s[|s| - 1], SortedBy(s[..|s| - 1], order), order)
  }

  /** The sorted list is sorted by key. */
  lemma {:induction false} SortedBySorted(s: seq<Todo>, order: SortBy)
    ensures IsSortedBy(SortedBy(s, order), order)
  {
    if s != [] {
      SortedBySorted(s[..|s| - 1], order);
      InsertSorted(s[|s| - 1], SortedBy(s[..|s| - 1], order), order);
    }
  }

  /** The sorted list is a permutation of the input. */
  lemma {:induction false} SortedByMultiset(s: seq<Todo>, order: SortBy)
    ensures multiset(SortedBy(s, order)) == multiset(s)
  {
    if s != [] {
      var init := s[..|s| - 1];
      SortedByMultiset(init, order);
      InsertMultiset(s[|s| - 1], SortedBy(init, order), order);
      assert s == init + [s[|s| - 1]];
    }
  }

  /** Inserting appends `x` to the tasks of its key and leaves the tasks
      of every other key as they were: the tasks `x` is moved past all have
      a larger key than its own. */
  lemma {:induction false} InsertStable(x: Todo, s: seq<Todo>, order: SortBy, k: int)
    ensures SortKey(x, order) == k ==> Filter(WithKey(order, k), Insert(x, s, order)) == Filter(WithKey(order, k), s) + [x]
    ensures SortKey(x, order) != k ==> Filter(WithKey(order, k), Insert(x, s, order)) == Filter(WithKey(order, k), s)
  {
    var f := WithKey(order, k);
    if s == [] {
      FilterSingleton(f, x);
    } else if SortKey(s[|s| - 1], order) > SortKey(x, order) {
      InsertStable(x, s[..|s| - 1], order, k);
      InsertStableStep(x, s, order, k);
    } else {
      FilterSnoc(f, s + [x]);
      assert (s + [x])[..|s|] == s;
    }
  }

  /** Helper for InsertStable: moving `x` past the last task, whose key is
      larger than its own. */
  lemma InsertStableStep(x: Todo, s: seq<Todo>, order: SortBy, k: int)
    requires s != [] && SortKey(s[|s| - 1], order) > SortKey(x, order)
    requires SortKey(x, order) == k ==> Filter(WithKey(order, k), Insert(x, s[..|s| - 1], order)) == Filter(WithKey(order, k), s[..|s| - 1]) + [x]
    requires SortKey(x, order) != k ==> Filter(WithKey(order, k), Insert(x, s[..|s| - 1], order)) == Filter(WithKey(order, k), s[..|s| - 1])
    ensures SortKey(x, order) == k ==> Filter(WithKey(order, k), Insert(x, s, order)) == Filter(WithKey(order, k), s) + [x]
    ensures SortKey(x, order) != k ==> Filter(WithKey(order, k), Insert(x, s, order)) == Filter(WithKey(order, k), s)
  {
    var f := WithKey(order, k);
    var head := Insert(x, s[..|s| - 1], order);
    var last := s[|s| - 1];
    var kept := Filter(f, s[..|s| - 1]);
    assert Insert(x, s, order) == head + [last];
    FilterConcat(f, head, [last]);
    FilterSingleton(f, last);
    FilterSnoc(f, s);
    if SortKey(x, order) == k {
      assert Filter(f, [last]) == [];
      assert Filter(f, s) == kept + [] == kept;
      assert Filter(f, Insert(x, s, order)) == Filter(f, head) + [] == Filter(f, head);
    } else {
      var tail := Filter(f, [last]);
      assert Filter(f, Insert(x, s, order)) == kept + tail;
    }
  }

  /** The sort is stable: for every key, the tasks with that key appear in
      the order they had before sorting. */
  lemma {:induction false} SortedByStable(s: seq<Todo>, order: SortBy, k: int)
    ensures Filter(WithKey(order, k), SortedBy(s, order)) == Filter(WithKey(order, k), s)
  {
    if s != [] {
      var f := WithKey(order, k);
      var init := s[..|s| - 1];
      var x := s[|s| - 1];
      assert SortedBy(s, order) == Insert(x, SortedBy(init, order), order);
      SortedByStable(init, order, k);
      InsertStable(x, SortedBy(init, order), order, k);
      FilterSnoc(f, s);
      FilterSingleton(f, x);
      if SortKey(x, order) != k {
        assert Filter(f, s) == Filter(f, init) + [] == Filter(f, init);
      }
    }
  }

  /** `x` goes in at position `n` when every task from `n` on has a larger
      key than `x` and the task before `n` does not. */
  lemma {:induction false} InsertAt(x: Todo, s: seq<Todo>, n: nat, order: SortBy)
    requires n <= |s|
    requires forall i :: n <= i < |s| ==> SortKey(s[i], order) > SortKey(x, order)
    requires n > 0 ==> SortKey(s[n - 1], order) <= SortKey(x, order)
    ensures Insert(x, s, order) == s[..n] + [x] + s[n..]
    decreases |s| - n
  {
    if n == |s| {
      assert s[..n] == s && s[n..] == [];
    } else {
      InsertAt(x, s[..|s| - 1], n, order);
      InsertAtStep(x, s, n, order);
    }
  }

  /** Helper for InsertAt: one more task with a larger key at the end. */
  lemma InsertAtStep(x: Todo, s: seq<Todo>, n: nat, order: SortBy)
    requires n < |s| && SortKey(s[|s| - 1], order) > SortKey(x, order)
    requires Insert(x, s[..|s| - 1], order) == s[..|s| - 1][..n] + [x] + s[..|s| - 1][n..]
    ensures Insert(x, s, order) == s[..n] + [x] + s[n..]
  {
    var init := s[..|s| - 1];
    var last := s[|s| - 1];
    assert init[..n] == s[..n];
    assert init[n..] + [last] == s[n..];
    calc {
      Insert(x, s, order);
      Insert(x, init, order) + [last];
      init[..n] + [x] + init[n..] + [last];
      { SeqAssoc(init[..n] + [x], init[n..], [last]); }
      s[..n] + [x] + s[n..];
    }
  }

  lemma SeqAssoc<T>(a: seq<T>, b: seq<T>, c: seq<T>)
    ensures a + b + c == a + (b + c)
  {
  }

  /** Inserting by status into "pending tasks, then done tasks". */
  lemma InsertByStatus(x: Todo, pending: seq<Todo>, done: seq<Todo>)
    requires forall t :: t in pending ==> t.status == Pending
    requires forall t :: t in done ==> t.status == Done
    ensures Insert(x, pending + done, ByStatus) ==
            if x.status == Pending then pending + [x] + done else pending + done + [x]
  {
    var s := pending + done;
    if x.status == Pending {
      if pending != [] {
        assert s[|pending| - 1] == pending[|pending| - 1] && pending[|pending| - 1] in pending;
      }
      forall i | |pending| <= i < |s| ensures SortKey(s[i], ByStatus) > SortKey(x, ByStatus) {
        assert s[i] == done[i - |pending|] && s[i] in done;
      }
      InsertAt(x, s, |pending|, ByStatus);
      assert s[..|pending|] == pending && s[|pending|..] == done;
    } else {
      InsertAt(x, s, |s|, ByStatus);
      assert s[..|s|] == s;
    }
  }

  /** Sorting by status puts the pending tasks first and the done tasks
      after them, each group in its original order. */
  lemma {:induction false} SortByStatusPartitions(s: seq<Todo>)
    ensures SortedBy(s, ByStatus) == Filter(WithStatus(Pending), s) + Filter(WithStatus(Done), s)
  {
    if s != [] {
      var init := s[..|s| - 1];
      var x := s[|s| - 1];
      SortByStatusPartitions(init);
      var pending := Filter(WithStatus(Pending), init);
      var done := Filter(WithStatus(Done), init);
      InsertByStatus(x, pending, done);
      FilterSnoc(WithStatus(Pending), s);
      FilterSnoc(WithStatus(Done), s);
      if x.status == Pending {
        assert Filter(WithStatus(Pending), s) == pending + [x];
        assert Filter(WithStatus(Done), s) == done + [] == done;
      } else {
        assert Filter(WithStatus(Pending), s) == pending + [] == pending;
        assert Filter(WithStatus(Done), s) == done + [x];
        SeqAssoc(pending, done, [x]);
      }
    }
  }

  // ---------------------------------------------------------------------
  // The projection

  /** The displayed list: searched, filtered by status, sorted. */
  function Projection(todos: seq<Todo>, query: string, filter: StatusFilter, order: SortBy): seq<Todo>
  {
    SortedBy(StatusFiltered(Searched(todos, query), filter), order)
  }

  /** The displayed list holds exactly the visible tasks, each as often as
      in the list, sorted by the chosen key, with ties in list order. */
  lemma ProjectionSpec(todos: seq<Todo>, query: string, filter: StatusFilter, order: SortBy)
    ensures var p := Projection(todos, query, filter, order);
            && (forall t :: multiset(p)[t] == if Visible(t, query, filter) then multiset(todos)[t] else 0)
            && (forall t :: t in p <==> t in todos && Visible(t, query, filter))
            && IsSortedBy(p, order)
            && (forall k :: Filter(WithKey(order, k), p) == Filter(WithKey(order, k), Filter(VisibleUnder(query, filter), todos)))
  {
    var shown := Filter(VisibleUnder(query, filter), todos);
    FilterStepsAreVisible(todos, query, filter);
    FilterMultiset(VisibleUnder(query, filter), todos);
    var p := Projection(todos, query, filter, order);
    SortedBySorted(shown, order);
    SortedByMultiset(shown, order);
    assert multiset(p) == multiset(shown);
    forall t ensures t in p <==> t in todos && Visible(t, query, filter) {
      assert t in p <==> t in multiset(p);
      assert t in shown <==> t in multiset(shown);
    }
    forall k ensures Filter(WithKey(order, k), p) == Filter(WithKey(order, k), shown) {
      SortedByStable(shown, order, k);
    }
  }

  /** Sorted by status, every visible pending task comes before every
      visible done task. */
  lemma ProjectionByStatus(todos: seq<Todo>, query: string, filter: StatusFilter)
    ensures var shown := Filter(VisibleUnder(query, filter), todos);
            Projection(todos, query, filter, ByStatus) == Filter(WithStatus(Pending), shown) + Filter(WithStatus(Done), shown)
  {
    FilterStepsAreVisible(todos, query, filter);
    SortByStatusPartitions(Filter(VisibleUnder(query, filter), todos));
  }

  /** With no search, the "pending" view and the "done" view split the
      list: no task in both, every task in one of them as often as in the
      list. */
  lemma StatusViewsSplitList(todos: seq<Todo>, order: SortBy)
    ensures var p := Projection(todos, "", Only(Pending), order);
            var d := Projection(todos, "", Only(Done), order);
            multiset(p) + multiset(d) == multiset(todos)
            && (forall t :: !(t in p && t in d))
  {
    var pending := Filter(WithStatus(Pending), todos);
    var done := Filter(WithStatus(Done), todos);
    var p := Projection(todos, "", Only(Pending), order);
    var d := Projection(todos, "", Only(Done), order);
    assert p == SortedBy(pending, order);
    assert d == SortedBy(done, order);
    SortedByMultiset(pending, order);
    SortedByMultiset(done, order);
    StatusPartition(todos);
    forall t | t in p ensures t !in d {
      assert t in multiset(pending);
      assert t in pending && t.status == Pending;
      assert t !in multiset(done);
    }
  }

  // ---------------------------------------------------------------------
  // The imperative computation

  /** `Array.prototype.sort` with the source's comparator, done as an
      in-place insertion sort: stable, like the built-in sort. */
  method SortInPlace(a: array<Todo>, order: SortBy)
    modifies a
    ensures a[..] == SortedBy(old(a[..]), order)
  {
    ghost var input := a[..];
    var i := 0;
    while i < a.Length
      invariant 0 <= i <= a.Length
      invariant a[..i] == SortedBy(input[..i], order)
      invariant a[i..] == input[i..]
    {
      assert a[i] == input[i] by {
        assert a[i..][0] == input[i..][0];
      }
      ghost var rest := a[i + 1..];
      assert rest == input[i + 1..] by {
        assert rest == a[i..][1..];
      }
      InsertLast(a, i, order);
      SortedByPrefix(input, i, order);
      assert a[..i + 1] == SortedBy(input[..i + 1], order);
      assert a[i + 1..] == input[i + 1..];
      i := i + 1;
    }
    assert input[..a.Length] == input;
  }

  /** One pass of the insertion sort: moves `a[i]` back past the tasks
      before it that have a larger key, shifting them up by one. */
  method InsertLast(a: array<Todo>, i: nat, order: SortBy)
    requires i < a.Length
    modifies a
    ensures a[..i + 1] == Insert(old(a[i]), old(a[..i]), order)
    ensures a[i + 1..] == old(a[i + 1..])
  {
    var x := a[i];
    ghost var sorted := a[..i];
    var j := i;
    while j > 0 && SortKey(a[j - 1], order) > SortKey(x, order)
      invariant 0 <= j <= i
      invariant forall k :: 0 <= k < j ==> a[k] == sorted[k]
      invariant forall k :: j < k <= i ==> a[k] == sorted[k - 1]
      invariant forall k :: j <= k < i ==> SortKey(sorted[k], order) > SortKey(x, order)
      invariant a[i + 1..] == old(a[i + 1..])
    {
      a[j] := a[j - 1];
      j := j - 1;
    }
    a[j] := x;
    assert a[..i + 1] == sorted[..j] + [x] + sorted[j..];
    InsertAt(x, sorted, j, order);
  }

  /** Sorting one more element of the input inserts it into the sorted
      prefix. */
  lemma SortedByPrefix(input: seq<Todo>, i: nat, order: SortBy)
    requires i < |input|
    ensures SortedBy(input[..i + 1], order) == Insert(input[i], SortedBy(input[..i], order), order)
  {
    var s := input[..i + 1];
    assert s[..|s| - 1] == input[..i];
  }
}
