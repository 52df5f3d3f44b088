/** Stable sorting by a comparison, as the standard library's `sort_by`. */
module Sorting {
  ghost predicate TotalOrder<T(!new)>(le: (T, T) -> bool) {
    && (forall x, y :: le(x, y) || le(y, x))
    && (forall x, y, z :: le(x, y) && le(y, z) ==> le(x, z))
  }

  ghost predicate Sorted<T>(s: seq<T>, le: (T, T) -> bool) {
    forall i, j | 0 <= i < j < |s| :: le(s[i], s[j])
  }

  function Insert<T>(x: T, s: seq<T>, le: (T, T) -> bool): seq<T> {
    if s == [] then [x]
    else if le(x, s[0]) then [x] + s
    else [s[0]] + Insert(x, s[1..], le)
  }

  function SortBy<T>(s: seq<T>, le: (T, T) -> bool): seq<T> {
    if s == [] then [] else Insert(s[0], SortBy(s[1..], le), le)
  }

  lemma {:induction false} InsertElements<T>(x: T, s: seq<T>, le: (T, T) -> bool)
    ensures multiset(Insert(x, s, le)) == multiset(s)[x := multiset(s)[x] + 1]
    ensures |Insert(x, s, le)| == |s| + 1
  {
    if s != [] && !le(x, s[0]) {
      InsertElements(x, s[1..], le);
      assert s == [s[0]] + s[1..];
    }
  }

  lemma {:induction false} InsertSorted<T(!new)>(x: T, s: seq<T>, le: (T, T) -> bool)
    requires TotalOrder(le) && Sorted(s, le)
    ensures Sorted(Insert(x, s, le), le)
  {
    if s != [] && !le(x, s[0]) {
      var tail := s[1..];
      InsertSorted(x, tail, le);
      InsertElements(x, tail, le);
      forall y | y in Insert(x, tail, le) ensures le(s[0], y) {
        assert y in multiset(Insert(x, tail, le));
        if y != x {
          assert y in multiset(tail);
        }
      }
    }
  }

  lemma {:induction false} SortElements<T>(s: seq<T>, le: (T, T) -> bool)
    ensures multiset(SortBy(s, le)) == multiset(s)
    ensures |SortBy(s, le)| == |s|
  {
    if s != [] {
      SortElements(s[1..], le);
      InsertElements(s[0], SortBy(s[1..], le), le);
      assert s == [s[0]] + s[1..];
    }
  }

  lemma {:induction false} SortSorts<T(!new)>(s: seq<T>, le: (T, T) -> bool)
    requires TotalOrder(le)
    ensures Sorted(SortBy(s, le), le)
  {
    if s != [] {
      SortSorts(s[1..], le);
      InsertSorted(s[0], SortBy(s[1..], le), le);
    }
  }

  /** No two of the elements are told apart by the comparison. */
  ghost predicate Tied<T(!new)>(keep: T -> bool, le: (T, T) -> bool) {
    forall x, y :: keep(x) && keep(y) ==> le(x, y)
  }

  lemma {:induction false} InsertStable<T(!new)>(x: T, s: seq<T>, keep: T -> bool, le: (T, T) -> bool)
    requires Tied(keep, le)
    ensures Filter(Insert(x, s, le), keep) == (if keep(x) then [x] else []) + Filter(s, keep)
  {
    hide Tied;
    if s == [] {
      assert [x][1..] == [];
    } else if le(x, s[0]) {
      assert ([x] + s)[1..] == s;
    } else {
      InsertStable(x, s[1..], keep, le);
      assert Insert(x, s, le)[1..] == Insert(x, s[1..], le);
      if keep(x) { NoneTiedBefore(x, s, keep, le); }
    }
  }

  lemma NoneTiedBefore<T(!new)>(x: T, s: seq<T>, keep: T -> bool, le: (T, T) -> bool)
    requires Tied(keep, le) && keep(x) && s != [] && !le(x, s[0])
    ensures !keep(s[0])
  {
  }

  /** Sorting is stable: elements the comparison ties keep their order. */
  lemma {:induction false} SortStable<T(!new)>(s: seq<T>, keep: T -> bool, le: (T, T) -> bool)
    requires Tied(keep, le)
    ensures Filter(SortBy(s, le), keep) == Filter(s, keep)
  {
    hide Tied;
    if s != [] {
      SortStable(s[1..], keep, le);
      InsertStable(s[0], SortBy(s[1..], le), keep, le);
    }
  }

  /** Sorting what is sorted changes nothing. */
  lemma {:induction false} SortedStays<T>(s: seq<T>, le: (T, T) -> bool)
    requires Sorted(s, le)
    ensures SortBy(s, le) == s
  {
    if s != [] {
      SortedStays(s[1..], le);
      assert s == [s[0]] + s[1..];
    }
  }

  lemma SortKeepsMembers<T>(s: seq<T>, le: (T, T) -> bool)
    ensures forall x :: x in SortBy(s, le) <==> x in s
  {
    SortElements(s, le);
    forall x ensures x in SortBy(s, le) <==> x in s {
      assert x in SortBy(s, le) <==> x in multiset(SortBy(s, le));
      assert x in s <==> x in multiset(s);
    }
  }

  function Take<T>(s: seq<T>, n: nat): seq<T> {
    if |s| <= n then s else s[..n]
  }

  lemma TakeMembers<T>(s: seq<T>, n: nat)
    ensures forall x | x in Take(s, n) :: x in s
    ensures |s| <= n ==> Take(s, n) == s
  {
  }

  function Filter<T>(s: seq<T>, keep: T -> bool): seq<T> {
    if s == [] then [] else (if keep(s[0]) then [s[0]] else []) + Filter(s[1..], keep)
  }

  lemma {:induction false} FilterMembers<T>(s: seq<T>, keep: T -> bool)
    ensures forall x | x in Filter(s, keep) :: x in s && keep(x)
    ensures forall x | x in s && keep(x) :: x in Filter(s, keep)
    ensures |Filter(s, keep)| <= |s|
  {
    if s != [] {
      FilterMembers(s[1..], keep);
      assert s == [s[0]] + s[1..];
    }
  }

  lemma {:induction false} FilterAppend<T>(a: seq<T>, b: seq<T>, keep: T -> bool)
    ensures Filter(a + b, keep) == Filter(a, keep) + Filter(b, keep)
  {
    if a == [] {
      assert a + b == b;
    } else {
      var rest := a[1..] + b;
      FilterAppend(a[1..], b, keep);
      assert (a + b)[0] == a[0] && (a + b)[1..] == rest;
      var head := if keep(a[0]) then [a[0]] else [];
      assert Filter(a + b, keep) == head + Filter(rest, keep);
      assert head + (Filter(a[1..], keep) + Filter(b, keep)) == head + Filter(a[1..], keep) + Filter(b, keep);
    }
  }

  lemma {:induction false} FilterSorted<T>(s: seq<T>, keep: T -> bool, le: (T, T) -> bool)
    requires Sorted(s, le)
    ensures Sorted(Filter(s, keep), le)
  {
    if s != [] {
      FilterSorted(s[1..], keep, le);
      FilterMembers(s[1..], keep);
      forall y | y in Filter(s[1..], keep) ensures le(s[0], y) {
        assert y in s[1..];
      }
    }
  }

  lemma {:induction false} FilterInsert<T>(x: T, s: seq<T>, keep: T -> bool, le: (T, T) -> bool)
    ensures |Filter(Insert(x, s, le), keep)| == |Filter(s, keep)| + if keep(x) then 1 else 0
  {
    if s == [] {
      assert [x][1..] == [];
    } else if le(x, s[0]) {
      assert ([x] + s)[1..] == s;
    } else {
      FilterInsert(x, s[1..], keep, le);
      assert Insert(x, s, le)[1..] == Insert(x, s[1..], le);
    }
  }

  /** Sorting changes no count. */
  lemma {:induction false} FilterSort<T>(s: seq<T>, keep: T -> bool, le: (T, T) -> bool)
    ensures |Filter(SortBy(s, le), keep)| == |Filter(s, keep)|
  {
    if s != [] {
      FilterSort(s[1..], keep, le);
      FilterInsert(s[0], SortBy(s[1..], le), keep, le);
    }
  }

  lemma {:induction false} FilterNone<T>(s: seq<T>, keep: T -> bool)
    requires forall x <- s :: !keep(x)
    ensures Filter(s, keep) == []
  {
    if s != [] { FilterNone(s[1..], keep); }
  }

  lemma {:induction false} FilterAll<T>(s: seq<T>, keep: T -> bool)
    requires forall x <- s :: keep(x)
    ensures Filter(s, keep) == s
  {
    if s != [] { FilterAll(s[1..], keep); }
  }

  function Elements<T>(s: seq<T>): set<T> {
    set x | x in s
  }

  lemma ElementsCons<T>(s: seq<T>)
    requires s != []
    ensures Elements(s) == {s[0]} + Elements(s[1..])
  {
    assert s == [s[0]] + s[1..];
  }

  /** A list without repeats has as many members as places. */
  lemma {:induction false} DistinctLength<T>(s: seq<T>)
    requires forall i, j | 0 <= i < j < |s| :: s[i] != s[j]
    ensures |Elements(s)| == |s|
  {
    if s != [] {
      DistinctLength(s[1..]);
      ElementsCons(s);
      assert s[0] !in Elements(s[1..]);
    }
  }

  ghost predicate Apart<T, K>(s: seq<T>, key: T -> K) {
    forall i, j | 0 <= i < j < |s| :: key(s[i]) != key(s[j])
  }

  lemma {:induction false} InsertApart<T, K>(x: T, s: seq<T>, le: (T, T) -> bool, key: T -> K)
    requires Apart(s, key) && forall y <- s :: key(y) != key(x)
    ensures Apart(Insert(x, s, le), key)
  {
    if s != [] && !le(x, s[0]) {
      InsertApart(x, s[1..], le, key);
      InsertElements(x, s[1..], le);
      forall y <- Insert(x, s[1..], le) ensures key(y) != key(s[0]) {
        assert y in multiset(Insert(x, s[1..], le));
        assert y == x || y in s[1..];
      }
    }
  }

  /** Sorting keeps distinct keys distinct. */
  lemma {:induction false} SortApart<T, K>(s: seq<T>, le: (T, T) -> bool, key: T -> K)
    requires Apart(s, key)
    ensures Apart(SortBy(s, le), key)
  {
    if s != [] {
      SortApart(s[1..], le, key);
      var tail, rest := s[1..], SortBy(s[1..], le);
      SortElements(tail, le);
      forall y <- rest ensures key(y) != key(s[0]) {
        assert y in multiset(rest);
        assert y in tail;
        var k :| 0 <= k < |tail| && tail[k] == y;
        assert tail[k] == s[k + 1];
      }
      InsertApart(s[0], rest, le, key);
    }
  }
}
