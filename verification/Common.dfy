// What several components share: optional values, lookups with a default, picking from
// a set, and a stable sort.
module Common {
  datatype Option<T> = None | Some(value: T)

  type Time = int

  function One(b: bool): nat {
    if b then 1 else 0
  }

  function Max(a: int, b: int): int {
    if a < b then b else a
  }

  function Min(a: int, b: int): int {
    if a < b then a else b
  }

  // The highest of a list of numbers.
  function Highest(xs: seq<int>): int
    requires xs != []
  {
    var last := xs[|xs| - 1];
    if |xs| == 1 then last
    else if Highest(xs[..|xs| - 1]) > last then Highest(xs[..|xs| - 1]) else last
  }

  lemma {:induction false} HighestIsReached(xs: seq<int>)
    requires xs != []
    ensures exists i :: 0 <= i < |xs| && xs[i] == Highest(xs)
    ensures forall i :: 0 <= i < |xs| ==> xs[i] <= Highest(xs)
  {
    var n := |xs| - 1;
    if n > 0 {
      HighestIsReached(xs[..n]);
      var i :| 0 <= i < n && xs[..n][i] == Highest(xs[..n]);
      assert Highest(xs) == xs[i] || Highest(xs) == xs[n];
    } else {
      assert xs[0] == Highest(xs);
    }
  }

  lemma HighestGrows(xs: seq<int>, x: int)
    ensures Highest(xs + [x]) >= x
    ensures xs != [] ==> Highest(xs + [x]) >= Highest(xs)
  {
    assert (xs + [x])[..|xs|] == xs;
  }

  function Lookup<K, V>(m: map<K, V>, k: K, default: V): V {
    if k in m then m[k] else default
  }

  lemma SubsetIsSmaller<T>(a: set<T>, b: set<T>)
    requires a <= b
    ensures |a| <= |b|
  {
    assert b == a + (b - a);
  }

  // Picks an element; the program's loops over a set of keys do not depend on the order.
  method AnyOf<T(==)>(s: set<T>) returns (x: T)
    requires s != {}
    ensures x in s
  {
    x :| x in s;
  }

  // Insertion into a list with the greatest first, after its equals.
  function Insert<T>(less: (T, T) -> bool, x: T, sorted: seq<T>): seq<T> {
    if sorted == [] || less(sorted[0], x) then [x] + sorted
    else [sorted[0]] + Insert(less, x, sorted[1..])
  }

  // The greatest first, equals in their original order.
  function Sort<T>(less: (T, T) -> bool, xs: seq<T>): seq<T> {
    if xs == [] then [] else Insert(less, xs[|xs| - 1], Sort(less, xs[..|xs| - 1]))
  }

  ghost predicate Sorted<T(!new)>(less: (T, T) -> bool, xs: seq<T>) {
    xs == [] || (Sorted(less, xs[1..]) && forall x :: x in xs[1..] ==> !less(xs[0], x))
  }

  // Nothing is less than itself, and less is transitive.
  ghost predicate Ranks<T(!new)>(less: (T, T) -> bool, xs: seq<T>) {
    && (forall x :: x in xs ==> !less(x, x))
    && (forall x, y, z {:trigger less(x, y), less(y, z)} ::
          x in xs && y in xs && z in xs && less(x, y) && less(y, z) ==> less(x, z))
  }

  lemma {:induction false} InsertPermutes<T>(less: (T, T) -> bool, x: T, sorted: seq<T>)
    ensures multiset(Insert(less, x, sorted)) == multiset(sorted) + multiset{x}
    ensures forall y :: y in Insert(less, x, sorted) <==> y == x || y in sorted
  {
    if sorted != [] && !less(sorted[0], x) {
      InsertPermutes(less, x, sorted[1..]);
      assert sorted == [sorted[0]] + sorted[1..];
    }
  }

  lemma {:induction false} InsertKeepsSorted<T(!new)>(less: (T, T) -> bool, x: T, sorted: seq<T>, xs: seq<T>)
    requires Sorted(less, sorted) && Ranks(less, xs) && x in xs && forall y :: y in sorted ==> y in xs
    ensures Sorted(less, Insert(less, x, sorted))
  {
    if sorted == [] {
    } else if less(sorted[0], x) {
      forall y | y in sorted ensures !less(x, y) {
        assert y == sorted[0] || y in sorted[1..];
      }
      assert Insert(less, x, sorted)[1..] == sorted;
    } else {
      InsertKeepsSorted(less, x, sorted[1..], xs);
      InsertPermutes(less, x, sorted[1..]);
    }
  }

  // Sorting permutes, and sorts wherever the order ranks.
  lemma {:induction false} SortSorts<T(!new)>(less: (T, T) -> bool, xs: seq<T>)
    ensures multiset(Sort(less, xs)) == multiset(xs)
    ensures forall x :: x in Sort(less, xs) <==> x in xs
    ensures Ranks(less, xs) ==> Sorted(less, Sort(less, xs))
  {
    if xs != [] {
      var init, last := xs[..|xs| - 1], xs[|xs| - 1];
      assert xs == init + [last];
      SortSorts(less, init);
      InsertPermutes(less, last, Sort(less, init));
      if Ranks(less, xs) { InsertKeepsSorted(less, last, Sort(less, init), xs); }
    }
  }

  function Filter<T>(p: T -> bool, xs: seq<T>): seq<T> {
    if xs == [] then []
    else Filter(p, xs[..|xs| - 1]) + if p(xs[|xs| - 1]) then [xs[|xs| - 1]] else []
  }

  lemma {:induction false} FilterJoins<T>(p: T -> bool, xs: seq<T>, ys: seq<T>)
    ensures Filter(p, xs + ys) == Filter(p, xs) + Filter(p, ys)
  {
    if ys == [] {
      assert xs + ys == xs;
    } else {
      assert (xs + ys)[..|xs + ys| - 1] == xs + ys[..|ys| - 1];
      FilterJoins(p, xs, ys[..|ys| - 1]);
    }
  }

  lemma {:induction false} FilterNothing<T(!new)>(p: T -> bool, xs: seq<T>)
    requires forall x :: x in xs ==> !p(x)
    ensures Filter(p, xs) == []
  {
    if xs != [] { FilterNothing(p, xs[..|xs| - 1]); }
  }

  // Being not less is transitive, too, and those that p picks are equals.
  ghost predicate Levels<T(!new)>(less: (T, T) -> bool, p: T -> bool, xs: seq<T>) {
    && (forall x, y, z {:trigger less(x, y), less(y, z)} ::
          x in xs && y in xs && z in xs && !less(x, y) && !less(y, z) ==> !less(x, z))
    && (forall x, y {:trigger less(x, y)} :: x in xs && y in xs && p(x) && p(y) ==> !less(x, y))
  }

  lemma {:induction false} InsertIsStable<T(!new)>(less: (T, T) -> bool, p: T -> bool, x: T, sorted: seq<T>, xs: seq<T>)
    requires Sorted(less, sorted) && Levels(less, p, xs) && x in xs && forall y :: y in sorted ==> y in xs
    ensures Filter(p, Insert(less, x, sorted)) == Filter(p, sorted + [x])
  {
    if sorted == [] {
      assert sorted + [x] == [x];
    } else if less(sorted[0], x) {
      if p(x) {
        forall y | y in sorted ensures !p(y) {
          assert y == sorted[0] || y in sorted[1..];
          assert p(y) ==> !less(y, x);
        }
        FilterNothing(p, sorted);
      }
      FilterJoins(p, [x], sorted);
      FilterJoins(p, sorted, [x]);
    } else {
      var first, rest := sorted[0], sorted[1..];
      InsertIsStable(less, p, x, rest, xs);
      FilterJoins(p, [first], Insert(less, x, rest));
      FilterJoins(p, [first], rest + [x]);
      assert sorted + [x] == [first] + (rest + [x]);
    }
  }

  // Sorting keeps the order of equals.
  lemma {:induction false} SortIsStable<T(!new)>(less: (T, T) -> bool, p: T -> bool, xs: seq<T>)
    requires Ranks(less, xs) && Levels(less, p, xs)
    ensures Filter(p, Sort(less, xs)) == Filter(p, xs)
  {
    if xs != [] {
      var init, last := xs[..|xs| - 1], xs[|xs| - 1];
      assert xs == init + [last];
      SortSorts(less, init);
      SortIsStable(less, p, init);
      InsertIsStable(less, p, last, Sort(less, init), xs);
      FilterJoins(p, Sort(less, init), [last]);
      FilterJoins(p, init, [last]);
    }
  }

  lemma {:induction false} SortedPairs<T(!new)>(less: (T, T) -> bool, xs: seq<T>, i: nat, j: nat)
    requires Sorted(less, xs) && i < j < |xs|
    ensures !less(xs[i], xs[j])
  {
    if i == 0 {
      assert xs[j] == xs[1..][j - 1];
    } else {
      SortedPairs(less, xs[1..], i - 1, j - 1);
    }
  }
}
