/** Sorting by a key the way Python's `sorted` does: elements that compare equal keep their order. */
module StableSort {
  import opened Common

  /** `less` is the strict part of a total preorder. */
  ghost predicate IsWeakOrder<T(!new)>(less: (T, T) -> bool) {
    && (forall a, b :: less(a, b) ==> !less(b, a))
    && (forall a, b, c :: !less(b, a) && !less(c, b) ==> !less(c, a))
  }

  ghost predicate SortedBy<T>(less: (T, T) -> bool, xs: seq<T>) {
    forall i, k | 0 <= i < k < |xs| :: !less(xs[k], xs[i])
  }

  /** Puts `x`, which came before all of `xs`, in front of everything it is not behind. */
  function Insert<T>(less: (T, T) -> bool, x: T, xs: seq<T>): seq<T> {
    if xs == [] then [x]
    else if less(xs[0], x) then [xs[0]] + Insert(less, x, xs[1..])
    else [x] + xs
  }

  function Sort<T>(less: (T, T) -> bool, xs: seq<T>): seq<T> {
    if xs == [] then [] else Insert(less, xs[0], Sort(less, xs[1..]))
  }

  function Filter<T>(keep: T -> bool, xs: seq<T>): seq<T> {
    if xs == [] then [] else (if keep(xs[0]) then [xs[0]] else []) + Filter(keep, xs[1..])
  }

  lemma {:induction false} InsertSorts<T(!new)>(less: (T, T) -> bool, x: T, xs: seq<T>)
    requires IsWeakOrder(less) && SortedBy(less, xs)
    ensures SortedBy(less, Insert(less, x, xs))
    ensures multiset(Insert(less, x, xs)) == multiset(xs) + multiset{x}
  {
    if xs != [] {
      assert xs == [xs[0]] + xs[1..];
      if less(xs[0], x) {
        InsertSorts(less, x, xs[1..]);
        var rest := Insert(less, x, xs[1..]);
        forall k | 0 <= k < |rest| ensures !less(rest[k], xs[0]) {
          assert rest[k] in multiset(rest);
          if rest[k] != x {
            assert rest[k] in xs[1..];
          }
        }
      }
    }
  }

  /** The result is ordered and holds the same elements as often. */
  lemma {:induction false} SortSorts<T(!new)>(less: (T, T) -> bool, xs: seq<T>)
    requires IsWeakOrder(less)
    ensures SortedBy(less, Sort(less, xs)) && multiset(Sort(less, xs)) == multiset(xs)
    ensures |Sort(less, xs)| == |xs|
    decreases |xs|
  {
    if xs != [] {
      assert xs == [xs[0]] + xs[1..];
      SortSorts(less, xs[1..]);
      InsertSorts(less, xs[0], Sort(less, xs[1..]));
      assert |multiset(Sort(less, xs))| == |multiset(xs)|;
    }
  }

  lemma {:induction false} FilterIsIn<T>(keep: T -> bool, xs: seq<T>)
    ensures forall x :: x in Filter(keep, xs) <==> x in xs && keep(x)
    ensures |Filter(keep, xs)| <= |xs|
    decreases |xs|
  {
    if xs != [] {
      FilterIsIn(keep, xs[1..]);
    }
  }

  lemma FilterHead<T(!new)>(less: (T, T) -> bool, keep: T -> bool, x: T, xs: seq<T>)
    requires IsWeakOrder(less) && SortedBy(less, xs) && xs != [] && !less(xs[0], x)
    requires Filter(keep, xs) != []
    ensures !less(Filter(keep, xs)[0], x)
  {
    var first := Filter(keep, xs)[0];
    FilterIsIn(keep, xs);
    assert first in Filter(keep, xs);
    var i :| 0 <= i < |xs| && xs[i] == first;
    if i > 0 {
      assert !less(xs[i], xs[0]);
    }
  }

  lemma FilterCons<T>(keep: T -> bool, x: T, xs: seq<T>)
    ensures Filter(keep, [x] + xs) == if keep(x) then [x] + Filter(keep, xs) else Filter(keep, xs)
  {
    assert ([x] + xs)[1..] == xs;
  }

  lemma {:induction false} FilterInsert<T(!new)>(less: (T, T) -> bool, keep: T -> bool, x: T, xs: seq<T>)
    requires IsWeakOrder(less) && SortedBy(less, xs)
    ensures Filter(keep, Insert(less, x, xs)) == if keep(x) then Insert(less, x, Filter(keep, xs)) else Filter(keep, xs)
    decreases |xs|
  {
    if xs != [] && less(xs[0], x) {
      FilterInsert(less, keep, x, xs[1..]);
      FilterCons(keep, xs[0], Insert(less, x, xs[1..]));
      FilterCons(keep, xs[0], xs[1..]);
      assert xs == [xs[0]] + xs[1..];
      if keep(xs[0]) {
        assert Filter(keep, xs)[1..] == Filter(keep, xs[1..]);
      }
    } else {
      FilterCons(keep, x, xs);
      assert Insert(less, x, xs) == [x] + xs;
      if Filter(keep, xs) != [] {
        FilterHead(less, keep, x, xs);
      }
    }
  }

  /** Because the sort is stable it makes no difference whether one filters before or after it. */
  lemma {:induction false} FilterThenSort<T(!new)>(less: (T, T) -> bool, keep: T -> bool, xs: seq<T>)
    requires IsWeakOrder(less)
    ensures Filter(keep, Sort(less, xs)) == Sort(less, Filter(keep, xs))
    decreases |xs|
  {
    if xs != [] {
      FilterThenSort(less, keep, xs[1..]);
      SortSorts(less, xs[1..]);
      FilterInsert(less, keep, xs[0], Sort(less, xs[1..]));
      FilterCons(keep, xs[0], xs[1..]);
      assert xs == [xs[0]] + xs[1..];
      if keep(xs[0]) {
        assert Filter(keep, xs)[1..] == Filter(keep, xs[1..]);
      }
    }
  }

  lemma {:induction false} SortOfTies<T(!new)>(less: (T, T) -> bool, xs: seq<T>)
    requires forall a, b | a in xs && b in xs :: !less(a, b)
    ensures Sort(less, xs) == xs
    decreases |xs|
  {
    if xs != [] {
      assert forall a | a in xs[1..] :: a in xs;
      SortOfTies(less, xs[1..]);
      if xs[1..] != [] {
        assert xs[1..][0] in xs && xs[0] in xs;
      }
      assert xs == [xs[0]] + xs[1..];
    }
  }

  /** Elements that tie with `x` come out in the order in which they went in. */
  lemma SortIsStable<T(!new)>(less: (T, T) -> bool, x: T, xs: seq<T>)
    requires IsWeakOrder(less)
    ensures var ties := (a: T) => !less(a, x) && !less(x, a);
            Filter(ties, Sort(less, xs)) == Filter(ties, xs)
  {
    var ties := (a: T) => !less(a, x) && !less(x, a);
    FilterThenSort(less, ties, xs);
    FilterIsIn(ties, xs);
    SortOfTies(less, Filter(ties, xs));
  }

  lemma {:induction false} FiltersAgree<T>(p: T -> bool, q: T -> bool, xs: seq<T>)
    requires forall x | x in xs :: p(x) == q(x)
    ensures Filter(p, xs) == Filter(q, xs)
    decreases |xs|
  {
    if xs != [] {
      assert xs[0] in xs && forall x | x in xs[1..] :: x in xs;
      FiltersAgree(p, q, xs[1..]);
    }
  }

  lemma {:induction false} FilterTwice<T(!new)>(p: T -> bool, q: T -> bool, both: T -> bool, xs: seq<T>)
    requires forall x :: both(x) <==> q(x) && p(x)
    ensures Filter(p, Filter(q, xs)) == Filter(both, xs)
    decreases |xs|
  {
    if xs != [] {
      FilterTwice(p, q, both, xs[1..]);
      if q(xs[0]) {
        FilterCons(p, xs[0], Filter(q, xs[1..]));
        assert Filter(q, xs) == [xs[0]] + Filter(q, xs[1..]);
        assert p(xs[0]) <==> both(xs[0]);
      } else {
        assert Filter(q, xs) == Filter(q, xs[1..]) && !both(xs[0]);
      }
    }
  }

  lemma {:induction false} FilterSplits<T(!new)>(p: T -> bool, not: T -> bool, xs: seq<T>)
    requires forall x :: not(x) <==> !p(x)
    ensures |Filter(p, xs)| + |Filter(not, xs)| == |xs|
    decreases |xs|
  {
    if xs != [] {
      FilterSplits(p, not, xs[1..]);
    }
  }

  // ----------------------------------------------------------------- lists without duplicates

  ghost predicate DistinctBy<T>(id: T -> string, xs: seq<T>) {
    forall i, k | 0 <= i < k < |xs| :: id(xs[i]) != id(xs[k])
  }

  lemma {:induction false} FilterKeepsDistinct<T(!new)>(id: T -> string, keep: T -> bool, xs: seq<T>)
    requires DistinctBy(id, xs)
    ensures DistinctBy(id, Filter(keep, xs))
    decreases |xs|
  {
    if xs != [] {
      FilterKeepsDistinct(id, keep, xs[1..]);
      FilterIsIn(keep, xs[1..]);
      var rest := Filter(keep, xs[1..]);
      forall k | 0 <= k < |rest| ensures id(rest[k]) != id(xs[0]) {
        assert rest[k] in rest;
        var j :| 0 <= j < |xs[1..]| && xs[1..][j] == rest[k];
        assert xs[j + 1] == rest[k];
      }
    }
  }

  lemma SameElements<T(!new)>(a: seq<T>, b: seq<T>)
    requires multiset(a) == multiset(b)
    ensures forall x :: x in a <==> x in b
  {
    assert forall x :: x in a <==> x in multiset(a);
    assert forall x :: x in b <==> x in multiset(b);
  }

  lemma PermutationKeepsDistinct<T(!new)>(id: T -> string, a: seq<T>, b: seq<T>)
    requires DistinctBy(id, a) && multiset(a) == multiset(b)
    ensures DistinctBy(id, b)
  {
    forall i, k | 0 <= i < k < |b| ensures id(b[i]) != id(b[k]) {
      if id(b[i]) == id(b[k]) {
        SameElements(a, b);
        assert b[i] in a && b[k] in a;
        var p :| 0 <= p < |a| && a[p] == b[i];
        var q :| 0 <= q < |a| && a[q] == b[k];
        assert p == q;
        TwoOccurrences(b, i, k);
        OneOccurrence(id, a, p);
      }
    }
  }

  lemma TwoOccurrences<T>(b: seq<T>, i: nat, k: nat)
    requires i < k < |b| && b[i] == b[k]
    ensures multiset(b)[b[i]] >= 2
  {
    assert b == b[..i] + [b[i]] + b[i + 1..k] + [b[k]] + b[k + 1..];
  }

  lemma OneOccurrence<T>(id: T -> string, a: seq<T>, p: nat)
    requires DistinctBy(id, a) && p < |a|
    ensures multiset(a)[a[p]] == 1
  {
    assert a == a[..p] + [a[p]] + a[p + 1..];
    assert a[p] !in a[..p] && a[p] !in a[p + 1..];
  }

  lemma {:induction false} FilterAppend<T>(keep: T -> bool, a: seq<T>, b: seq<T>)
    ensures Filter(keep, a + b) == Filter(keep, a) + Filter(keep, b)
    decreases |a|
  {
    if a == [] {
      assert a + b == b;
    } else {
      FilterAppend(keep, a[1..], b);
      assert (a + b)[1..] == a[1..] + b;
      Associates(if keep(a[0]) then [a[0]] else [], Filter(keep, a[1..]), Filter(keep, b));
    }
  }

  lemma {:induction false} FilterAllOrNone<T>(keep: T -> bool, xs: seq<T>)
    ensures (forall x | x in xs :: keep(x)) ==> Filter(keep, xs) == xs
    ensures (forall x | x in xs :: !keep(x)) ==> Filter(keep, xs) == []
    decreases |xs|
  {
    if xs != [] {
      FilterAllOrNone(keep, xs[1..]);
      assert xs[0] in xs && forall x | x in xs[1..] :: x in xs;
    }
  }

  /** In a list without duplicates, dropping the members of its first part leaves the second part. */
  lemma FilterOutFirst<T(!new)>(id: T -> string, first: seq<T>, rest: seq<T>)
    requires DistinctBy(id, first + rest)
    ensures Filter((x: T) => x !in first, first + rest) == rest
  {
    var keep := (x: T) => x !in first;
    forall x | x in rest ensures keep(x) {
      var k :| 0 <= k < |rest| && rest[k] == x;
      assert (first + rest)[|first| + k] == x;
      forall i | 0 <= i < |first| ensures first[i] != x {
        assert (first + rest)[i] == first[i] && id((first + rest)[i]) != id((first + rest)[|first| + k]);
      }
    }
    FilterAllOrNone(keep, first);
    FilterAllOrNone(keep, rest);
    FilterAppend(keep, first, rest);
  }

  /** Taking the first `n` of the sorted list out of a list leaves, when sorted, the rest of it. */
  lemma WithoutFirstSorted<T(!new)>(less: (T, T) -> bool, id: T -> string, xs: seq<T>, n: nat)
    requires IsWeakOrder(less) && DistinctBy(id, xs) && n <= |xs|
    ensures |Sort(less, xs)| == |xs|
    ensures Sort(less, Filter((x: T) => x !in Sort(less, xs)[..n], xs)) == Sort(less, xs)[n..]
  {
    var sorted := Sort(less, xs);
    SortSorts(less, xs);
    PermutationKeepsDistinct(id, xs, sorted);
    assert sorted == sorted[..n] + sorted[n..];
    FilterOutFirst(id, sorted[..n], sorted[n..]);
    FilterThenSort(less, (x: T) => x !in sorted[..n], xs);
  }
}
