/** Sorting and maximum by a comparison, and what they guarantee for any total preorder. */
module Sorting {
  import opened Bytes

  /** `a`, `b`, `c` are in order, step by step. */
  ghost predicate Chain<T>(compare: (T, T) -> Ordering, a: T, b: T, c: T) {
    compare(a, b) != Greater && compare(b, c) != Greater
  }

  ghost predicate TotalPreorder<T(!new)>(compare: (T, T) -> Ordering) {
    && (forall a, b :: compare(b, a) == compare(a, b).Reversed())
    && (forall a, b, c :: Chain(compare, a, b, c) ==> compare(a, c) != Greater)
  }

  ghost predicate Sorted<T>(compare: (T, T) -> Ordering, xs: seq<T>) {
    forall i, j :: 0 <= i < j < |xs| ==> compare(xs[i], xs[j]) != Greater
  }

  /** Where a stable sort puts `x` when the rest is sorted: after everything not larger. */
  ghost function Insert<T>(compare: (T, T) -> Ordering, xs: seq<T>, x: T): seq<T> {
    if xs == [] then [x]
    else
      var last := xs[|xs| - 1];
      if compare(x, last) == Less then Insert(compare, xs[..|xs| - 1], x) + [last] else xs + [x]
  }

  /** A stable sort. */
  ghost function Sort<T>(compare: (T, T) -> Ordering, xs: seq<T>): seq<T> {
    if xs == [] then [] else Insert(compare, Sort(compare, xs[..|xs| - 1]), xs[|xs| - 1])
  }

  lemma {:induction false} InsertIsPermutation<T(!new)>(compare: (T, T) -> Ordering, xs: seq<T>, x: T)
    ensures multiset(Insert(compare, xs, x)) == multiset(xs) + multiset{x}
    ensures |Insert(compare, xs, x)| == |xs| + 1
  {
    if xs != [] {
      InsertIsPermutation(compare, xs[..|xs| - 1], x);
      assert xs == xs[..|xs| - 1] + [xs[|xs| - 1]];
    }
  }

  lemma SortedExtended<T(!new)>(compare: (T, T) -> Ordering, xs: seq<T>, last: T)
    requires Sorted(compare, xs) && forall x :: x in xs ==> compare(x, last) != Greater
    ensures Sorted(compare, xs + [last])
  {
  }

  lemma {:induction false} InsertIsSorted<T(!new)>(compare: (T, T) -> Ordering, xs: seq<T>, x: T)
    requires TotalPreorder(compare) && Sorted(compare, xs)
    ensures Sorted(compare, Insert(compare, xs, x))
  {
    hide TotalPreorder;
    if xs != [] {
      var front, last := xs[..|xs| - 1], xs[|xs| - 1];
      if compare(x, last) == Less {
        InsertIsSorted(compare, front, x);
        InsertIsPermutation(compare, front, x);
        var r := Insert(compare, front, x);
        forall y | y in r
          ensures compare(y, last) != Greater
        {
          assert y in multiset(r);
          assert y == x || y in front;
        }
        SortedExtended(compare, r, last);
      } else {
        forall y | y in xs
          ensures compare(y, x) != Greater
        {
          InOrderAfter(compare, xs, y, x);
        }
        SortedExtended(compare, xs, x);
      }
    }
  }

  lemma InOrderAfter<T(!new)>(compare: (T, T) -> Ordering, xs: seq<T>, y: T, x: T)
    requires TotalPreorder(compare) && Sorted(compare, xs) && y in xs && compare(x, xs[|xs| - 1]) != Less
    ensures compare(y, x) != Greater
  {
    var last := xs[|xs| - 1];
    assert compare(last, x) != Greater;
    assert y != last ==> Chain(compare, y, last, x);
  }

  lemma {:induction false} SortIsSortedPermutation<T(!new)>(compare: (T, T) -> Ordering, xs: seq<T>)
    requires TotalPreorder(compare)
    ensures Sorted(compare, Sort(compare, xs))
    ensures multiset(Sort(compare, xs)) == multiset(xs)
    ensures |Sort(compare, xs)| == |xs|
  {
    if xs != [] {
      var front, last := xs[..|xs| - 1], xs[|xs| - 1];
      assert xs == front + [last];
      SortIsSortedPermutation(compare, front);
      InsertIsSorted(compare, Sort(compare, front), last);
      InsertIsPermutation(compare, Sort(compare, front), last);
    }
  }

  lemma FirstOfSortedIsLeast<T(!new)>(compare: (T, T) -> Ordering, xs: seq<T>, x: T)
    requires TotalPreorder(compare) && Sorted(compare, xs) && x in xs
    ensures compare(xs[0], x) != Greater
  {
    var i :| 0 <= i < |xs| && xs[i] == x;
    if i == 0 {
      assert compare(x, x) == compare(x, x).Reversed();
    }
  }

  ghost predicate Separates<T(!new)>(compare: (T, T) -> Ordering, elements: multiset<T>) {
    forall x, y :: x in elements && y in elements && compare(x, y) == Equal ==> x == y
  }

  lemma FirstsAgree<T(!new)>(compare: (T, T) -> Ordering, xs: seq<T>, ys: seq<T>)
    requires TotalPreorder(compare) && Sorted(compare, xs) && Sorted(compare, ys)
    requires xs != [] && ys != [] && multiset(xs) == multiset(ys)
    requires Separates(compare, multiset(xs))
    ensures xs[0] == ys[0]
  {
    var x, y := xs[0], ys[0];
    assert x in multiset(ys) && y in multiset(xs);
    FirstOfSortedIsLeast(compare, xs, y);
    FirstOfSortedIsLeast(compare, ys, x);
    assert compare(y, x) == compare(x, y).Reversed();
  }

  /** A multiset has one sorted listing when the order separates its elements. */
  lemma {:induction false} SortedListIsUnique<T(!new)>(compare: (T, T) -> Ordering, xs: seq<T>, ys: seq<T>)
    requires TotalPreorder(compare) && Sorted(compare, xs) && Sorted(compare, ys)
    requires multiset(xs) == multiset(ys)
    requires Separates(compare, multiset(xs))
    ensures xs == ys
  {
    assert |multiset(xs)| == |multiset(ys)|;
    if xs != [] {
      FirstsAgree(compare, xs, ys);
      DropFirst(xs);
      DropFirst(ys);
      SortedListIsUnique(compare, xs[1..], ys[1..]);
    }
  }

  lemma DropFirst<T>(xs: seq<T>)
    requires xs != []
    ensures xs == [xs[0]] + xs[1..]
    ensures multiset(xs[1..]) == multiset(xs) - multiset{xs[0]}
  {
    assert xs == [xs[0]] + xs[1..];
  }

  /** The element a left-to-right scan keeps when it replaces the current best only by a
      strictly greater one. */
  ghost function Best<T>(compare: (T, T) -> Ordering, xs: seq<T>): (w: T)
    requires xs != []
    ensures w in xs
  {
    if |xs| == 1 then xs[0]
    else
      var best := Best(compare, xs[..|xs| - 1]);
      if compare(xs[|xs| - 1], best) == Greater then xs[|xs| - 1] else best
  }

  lemma {:induction false} BestIsMaximal<T(!new)>(compare: (T, T) -> Ordering, xs: seq<T>)
    requires TotalPreorder(compare) && xs != []
    ensures forall x :: x in xs ==> compare(x, Best(compare, xs)) != Greater
  {
    if |xs| == 1 {
      assert compare(xs[0], xs[0]) != Greater;
    } else {
      var front, last := xs[..|xs| - 1], xs[|xs| - 1];
      BestIsMaximal(compare, front);
      assert xs == front + [last];
      assert compare(last, last) != Greater;
      var best := Best(compare, front);
      if compare(last, best) == Greater {
        forall x | x in front
          ensures compare(x, last) != Greater
        {
          assert Chain(compare, x, best, last);
        }
      }
    }
  }
}
