/** Sorting under a caller-supplied strict order, standing in for Go's `sort` package.
    `sort.Slice` promises only a permutation in which no later element is less than an
    earlier one; it is not stable. `SortedPermutationIsUnique` says when that promise
    already fixes the result, so that instability cannot be observed. */
module Sorting {

  /** What a comparator must satisfy for sorting to be meaningful. */
  ghost predicate StrictWeakOrder<T(!new)>(less: (T, T) -> bool) {
    && (forall a, b :: less(a, b) ==> !less(b, a))
    && (forall a, b, c :: less(a, c) ==> less(a, b) || less(b, c))
  }

  /** No later element is less than an earlier one. */
  ghost predicate Sorted<T>(s: seq<T>, less: (T, T) -> bool) {
    forall i, j :: 0 <= i < j < |s| ==> !less(s[j], s[i])
  }

  /** Any two different elements are ordered one way or the other. */
  ghost predicate Connected<T>(s: seq<T>, less: (T, T) -> bool) {
    forall i, j :: 0 <= i < |s| && 0 <= j < |s| && s[i] != s[j] ==> less(s[i], s[j]) || less(s[j], s[i])
  }

  /** `r` is an outcome `sort.Slice` may produce from `s`. */
  ghost predicate SortOutcome<T>(s: seq<T>, r: seq<T>, less: (T, T) -> bool) {
    multiset(r) == multiset(s) && Sorted(r, less)
  }

  function Insert<T>(x: T, s: seq<T>, less: (T, T) -> bool): seq<T> {
    if s == [] || !less(s[0], x) then [x] + s
    else [s[0]] + Insert(x, s[1..], less)
  }

  function SortBy<T>(s: seq<T>, less: (T, T) -> bool): seq<T> {
    if s == [] then [] else Insert(s[0], SortBy(s[1..], less), less)
  }

  lemma {:induction false} InsertElements<T>(x: T, s: seq<T>, less: (T, T) -> bool)
    ensures multiset(Insert(x, s, less)) == multiset(s) + multiset{x}
  {
    if s == [] || !less(s[0], x) {
    } else {
      InsertElements(x, s[1..], less);
      assert s == [s[0]] + s[1..];
    }
  }

  /** A head no later element is less than. */
  lemma HeadFirst<T>(y: T, rest: seq<T>, less: (T, T) -> bool)
    requires Sorted(rest, less) && forall z :: z in multiset(rest) ==> !less(z, y)
    ensures Sorted([y] + rest, less)
  {
    forall j | 0 <= j < |rest| ensures !less(rest[j], y) { assert rest[j] in multiset(rest); }
  }

  lemma {:induction false} InsertSorts<T(!new)>(x: T, s: seq<T>, less: (T, T) -> bool)
    requires StrictWeakOrder(less) && Sorted(s, less)
    ensures Sorted(Insert(x, s, less), less)
  {
    if s == [] {
    } else if !less(s[0], x) {
      forall z | z in multiset(s) ensures !less(z, x) {
        var j :| 0 <= j < |s| && s[j] == z;
        assert j > 0 ==> !less(s[j], s[0]);
      }
      HeadFirst(x, s, less);
    } else {
      InsertSorts(x, s[1..], less);
      InsertElements(x, s[1..], less);
      forall z | z in multiset(Insert(x, s[1..], less)) ensures !less(z, s[0]) {
        if z != x { var j :| 0 <= j < |s[1..]| && s[1..][j] == z; assert s[j + 1] == z; }
      }
      HeadFirst(s[0], Insert(x, s[1..], less), less);
    }
  }

  lemma InsertOutcome<T(!new)>(x: T, s: seq<T>, less: (T, T) -> bool)
    requires StrictWeakOrder(less) && Sorted(s, less)
    ensures SortOutcome([x] + s, Insert(x, s, less), less)
  {
    InsertElements(x, s, less);
    InsertSorts(x, s, less);
  }

  /** `SortBy` is one of the outcomes `sort.Slice` may produce. */
  lemma {:induction false} SortByOutcome<T(!new)>(s: seq<T>, less: (T, T) -> bool)
    requires StrictWeakOrder(less)
    ensures SortOutcome(s, SortBy(s, less), less)
  {
    if s != [] {
      SortByOutcome(s[1..], less);
      InsertOutcome(s[0], SortBy(s[1..], less), less);
      assert s == [s[0]] + s[1..];
    }
  }

  lemma {:induction false} HeadsAgree<T>(r1: seq<T>, r2: seq<T>, less: (T, T) -> bool)
    requires r1 != [] && Sorted(r1, less) && Sorted(r2, less) && multiset(r1) == multiset(r2)
    requires Connected(r1, less)
    ensures r2 != [] && r1[0] == r2[0]
  {
    assert r1[0] in multiset(r1);
    var j :| 0 <= j < |r2| && r2[j] == r1[0];
    assert r2[0] in multiset(r2);
    var i :| 0 <= i < |r1| && r1[i] == r2[0];
    if i > 0 { assert !less(r1[i], r1[0]); }
    if j > 0 { assert !less(r2[j], r2[0]); }
  }

  lemma TailMultiset<T>(s: seq<T>)
    requires s != []
    ensures multiset(s[1..]) == multiset(s) - multiset{s[0]}
  {
    assert s == [s[0]] + s[1..];
  }

  /** When any two different elements are ordered one way or the other, every sorting
      algorithm, stable or not, returns the same sequence. */
  lemma {:induction false} SortedPermutationIsUnique<T>(r1: seq<T>, r2: seq<T>, less: (T, T) -> bool)
    requires Sorted(r1, less) && Sorted(r2, less) && multiset(r1) == multiset(r2)
    requires Connected(r1, less)
    ensures r1 == r2
  {
    if r1 == [] {
      assert |multiset(r2)| == 0;
    } else {
      HeadsAgree(r1, r2, less);
      TailMultiset(r1);
      TailMultiset(r2);
      SortedPermutationIsUnique(r1[1..], r2[1..], less);
    }
  }
}
