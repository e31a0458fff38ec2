/** Sequence helpers: the `filter` of JavaScript arrays and the facts the
    task list and the projection rely on. */
module Seqs {

  /** The elements of `s` that `keep` accepts, in their original order. */
  function Filter<T(!new)>(keep: T -> bool, s: seq<T>): (r: seq<T>)
    ensures |r| <= |s|
    ensures forall x :: x in r <==> x in s && keep(x)
  {
    if s == [] then []
    else if keep(s[0]) then [s[0]] + Filter(keep, s[1..])
    else Filter(keep, s[1..])
  }

  /** Filtering distributes over concatenation: the relative order of the
      kept elements is the order they had in the input. */
  lemma {:induction false} FilterConcat<T(!new)>(keep: T -> bool, a: seq<T>, b: seq<T>)
    ensures Filter(keep, a + b) == Filter(keep, a) + Filter(keep, b)
  {
    if a == [] {
      assert a + b == b;
    } else {
      assert (a + b)[0] == a[0];
      assert (a + b)[1..] == a[1..] + b;
      FilterConcat(keep, a[1..], b);
    }
  }

  /** Each element occurs in the result as often as in the input if it is
      kept, and not at all otherwise. */
  lemma {:induction false} FilterMultiset<T(!new)>(keep: T -> bool, s: seq<T>)
    ensures forall x :: multiset(Filter(keep, s))[x] == if keep(x) then multiset(s)[x] else 0
  {
    if s != [] {
      FilterMultiset(keep, s[1..]);
      assert s == [s[0]] + s[1..];
      assert multiset(s) == multiset{s[0]} + multiset(s[1..]);
    }
  }

  /** Filtering twice with the same test is filtering once. */
  lemma {:induction false} FilterIdempotent<T(!new)>(keep: T -> bool, s: seq<T>)
    ensures Filter(keep, Filter(keep, s)) == Filter(keep, s)
  {
    if s != [] {
      FilterIdempotent(keep, s[1..]);
      if keep(s[0]) {
        var rest := Filter(keep, s[1..]);
        assert ([s[0]] + rest)[0] == s[0];
        assert ([s[0]] + rest)[1..] == rest;
      }
    }
  }

  /** A filter that keeps every element returns its input. */
  lemma {:induction false} FilterKeepsAll<T(!new)>(keep: T -> bool, s: seq<T>)
    requires forall x :: x in s ==> keep(x)
    ensures Filter(keep, s) == s
  {
    if s != [] {
      assert forall x :: x in s[1..] ==> x in s;
      FilterKeepsAll(keep, s[1..]);
      assert [s[0]] + s[1..] == s;
    }
  }

  /** Filters whose tests agree on every element give the same result. */
  lemma {:induction false} FilterSameTest<T(!new)>(keep: T -> bool, other: T -> bool, s: seq<T>)
    requires forall x :: x in s ==> keep(x) == other(x)
    ensures Filter(keep, s) == Filter(other, s)
  {
    if s != [] {
      assert forall x :: x in s[1..] ==> x in s;
      FilterSameTest(keep, other, s[1..]);
    }
  }

  /** Filtering a single element keeps it or drops it. */
  lemma FilterSingleton<T(!new)>(keep: T -> bool, x: T)
    ensures Filter(keep, [x]) == if keep(x) then [x] else []
  {
    assert [x][1..] == [];
  }

  /** Filtering a non-empty sequence: the filtered prefix, then the last
      element if it is kept. */
  lemma FilterSnoc<T(!new)>(keep: T -> bool, s: seq<T>)
    requires s != []
    ensures Filter(keep, s) == Filter(keep, s[..|s| - 1]) + (if keep(s[|s| - 1]) then [s[|s| - 1]] else [])
  {
    var init, last := s[..|s| - 1], s[|s| - 1];
    FilterConcat(keep, init, [last]);
    FilterSingleton(keep, last);
    assert init + [last] == s;
  }

  /** Two filters in a row are one filter by the conjunction of the tests. */
  lemma {:induction false} FilterFilter<T(!new)>(first: T -> bool, second: T -> bool, both: T -> bool, s: seq<T>)
    requires forall x :: both(x) == (first(x) && second(x))
    ensures Filter(second, Filter(first, s)) == Filter(both, s)
  {
    if s != [] {
      FilterFilter(first, second, both, s[1..]);
      if first(s[0]) {
        var rest := Filter(first, s[1..]);
        assert ([s[0]] + rest)[0] == s[0];
        assert ([s[0]] + rest)[1..] == rest;
      }
    }
  }

  /** Two complementary filters split the input into two parts that do not
      overlap and together hold every element exactly as often as the input. */
  lemma FilterPartition<T(!new)>(keep: T -> bool, drop: T -> bool, s: seq<T>)
    requires forall x :: drop(x) == !keep(x)
    ensures multiset(Filter(keep, s)) + multiset(Filter(drop, s)) == multiset(s)
    ensures |Filter(keep, s)| + |Filter(drop, s)| == |s|
    ensures forall x :: !(x in Filter(keep, s) && x in Filter(drop, s))
  {
    FilterMultiset(keep, s);
    FilterMultiset(drop, s);
    assert multiset(Filter(keep, s)) + multiset(Filter(drop, s)) == multiset(s);
    assert |multiset(Filter(keep, s)) + multiset(Filter(drop, s))| == |multiset(s)|;
  }
}
