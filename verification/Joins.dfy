/** `absorb` is the join of a semilattice: folding it over versions keeps exactly the causally
    maximal ones, in canonical order, whatever the delivery order or repetition. */
module Joins {
  import opened Bytes
  import opened Clocks
  import opened Versions
  import opened Entries
  import Sorting

  ghost function Elems(hs: seq<Head>): set<Head> {
    set x | x in hs
  }

  /** A clock is minted once, so it names one state: mtime included. */
  ghost predicate Determined(s: set<Head>) {
    forall x, y :: x in s && y in s && x.version == y.version ==> x == y
  }

  ghost predicate AllFit(hs: seq<Head>) {
    forall x :: x in hs ==> FitsU64(x.version)
  }

  /** The causally maximal versions of a set. */
  ghost function Maximal(s: set<Head>): set<Head> {
    set x | x in s && forall y :: y in s && Leq(x.version, y.version) ==> y == x
  }

  ghost predicate CoversAll(hs: seq<Head>, s: set<Head>) {
    forall x :: x in s ==> Covers(hs, x.version)
  }

  /** Absorbing versions one after the other; from nothing, the first one opens the entry. */
  ghost function AbsorbAll(hs: seq<Head>, versions: seq<Head>): seq<Head> {
    if versions == [] then hs
    else AbsorbHeads(AbsorbAll(hs, versions[..|versions| - 1]), versions[|versions| - 1])
  }

  // ---- One absorb ----

  lemma CoversBy(hs: seq<Head>, x: Head, version: Clock)
    requires x in hs && Leq(version, x.version)
    ensures Covers(hs, version)
  {
    var i :| 0 <= i < |hs| && hs[i] == x;
    assert Leq(version, hs[i].version);
  }

  lemma {:induction false} RetainedMembers(hs: seq<Head>, version: Clock)
    ensures multiset(Retained(hs, version)) <= multiset(hs)
    ensures forall x :: x in Retained(hs, version) <==> x in hs && CompareSpec(x.version, version) != Before
  {
    if hs != [] {
      RetainedMembers(hs[..|hs| - 1], version);
      assert hs == hs[..|hs| - 1] + [hs[|hs| - 1]];
    }
  }

  /** What a version that is not yet covered does to the heads. */
  lemma AbsorbMembers(hs: seq<Head>, h: Head)
    requires !Covers(hs, h.version)
    ensures multiset(AbsorbHeads(hs, h)) == multiset(Retained(hs, h.version)) + multiset{h}
    ensures KeySorted(AbsorbHeads(hs, h))
    ensures forall x :: x in AbsorbHeads(hs, h) <==> x == h || (x in hs && !Leq(x.version, h.version))
  {
    var kept := Retained(hs, h.version);
    KeyOrderIsTotal();
    Sorting.SortIsSortedPermutation(KeyOrder(), kept + [h]);
    RetainedMembers(hs, h.version);
    forall x
      ensures x in AbsorbHeads(hs, h) <==> x == h || (x in hs && !Leq(x.version, h.version))
    {
      assert x in AbsorbHeads(hs, h) <==> x in multiset(kept + [h]);
      if x in hs {
        if Leq(h.version, x.version) {
          CoversBy(hs, x, h.version);
        }
      }
    }
  }

  lemma AddingConcurrentKeepsAntichain(hs: seq<Head>, kept: seq<Head>, h: Head, after: seq<Head>)
    requires Antichain(hs) && multiset(kept) <= multiset(hs)
    requires forall x :: x in kept ==> !Leq(x.version, h.version)
    requires forall x :: x in hs ==> !Leq(h.version, x.version)
    requires multiset(after) == multiset(kept) + multiset{h}
    ensures Antichain(after)
  {
    assert h !in kept by {
      assert Leq(h.version, h.version);
    }
    assert forall x :: x in after <==> x in multiset(after);
    assert forall x :: x in kept <==> x in multiset(kept);
    assert forall x :: x in kept ==> x in multiset(hs);
    forall x | x in after
      ensures multiset(after)[x] == 1
    {
      assert multiset(kept)[x] <= multiset(hs)[x];
    }
  }

  lemma CoversMeans(hs: seq<Head>, version: Clock)
    ensures Covers(hs, version) <==> exists x :: x in hs && Leq(version, x.version)
  {
    if x :| x in hs && Leq(version, x.version) {
      CoversBy(hs, x, version);
    }
  }

  /** `absorb` keeps an entry a sorted antichain: the invariant stated on the source's `Entry`. */
  lemma AbsorbKeepsValid(hs: seq<Head>, h: Head)
    requires Antichain(hs) && KeySorted(hs)
    ensures AbsorbHeads(hs, h) != []
    ensures Antichain(AbsorbHeads(hs, h)) && KeySorted(AbsorbHeads(hs, h))
  {
    if !Covers(hs, h.version) {
      AbsorbMembers(hs, h);
      RetainedMembers(hs, h.version);
      CoversMeans(hs, h.version);
      AddingConcurrentKeepsAntichain(hs, Retained(hs, h.version), h, AbsorbHeads(hs, h));
    }
  }

  /** The heads afterwards are old heads or the new version, and cover all of them. */
  lemma AbsorbCovers(hs: seq<Head>, h: Head)
    ensures Elems(AbsorbHeads(hs, h)) <= Elems(hs) + {h}
    ensures CoversAll(AbsorbHeads(hs, h), Elems(hs) + {h})
  {
    var after := AbsorbHeads(hs, h);
    if Covers(hs, h.version) {
      forall x | x in Elems(hs)
        ensures Covers(after, x.version)
      {
        CoversBy(hs, x, x.version);
      }
    } else {
      AbsorbMembers(hs, h);
      forall x | x in Elems(hs) + {h}
        ensures Covers(after, x.version)
      {
        CoversBy(after, if Leq(x.version, h.version) then h else x, x.version);
      }
    }
  }

  // ---- Folding absorb ----

  lemma CoversTransitive(hs: seq<Head>, s: set<Head>, mid: seq<Head>, version: Clock)
    requires CoversAll(hs, s) && Elems(mid) <= s && Covers(mid, version)
    ensures Covers(hs, version)
  {
    var i :| 0 <= i < |mid| && Leq(version, mid[i].version);
    assert mid[i] in Elems(mid);
    var j :| 0 <= j < |hs| && Leq(mid[i].version, hs[j].version);
    LeqTransitive(version, mid[i].version, hs[j].version);
  }

  lemma ElemsOfSnoc(versions: seq<Head>)
    requires versions != []
    ensures Elems(versions) == Elems(versions[..|versions| - 1]) + {versions[|versions| - 1]}
  {
    assert versions == versions[..|versions| - 1] + [versions[|versions| - 1]];
  }

  lemma {:induction false} FoldCovers(hs: seq<Head>, versions: seq<Head>)
    ensures Elems(AbsorbAll(hs, versions)) <= Elems(hs) + Elems(versions)
    ensures CoversAll(AbsorbAll(hs, versions), Elems(hs) + Elems(versions))
  {
    if versions == [] {
      forall x | x in Elems(hs)
        ensures Covers(hs, x.version)
      {
        CoversBy(hs, x, x.version);
      }
    } else {
      var front, last := versions[..|versions| - 1], versions[|versions| - 1];
      var mid := AbsorbAll(hs, front);
      FoldCovers(hs, front);
      AbsorbCovers(mid, last);
      ElemsOfSnoc(versions);
      forall x | x in Elems(hs) + Elems(versions)
        ensures Covers(AbsorbHeads(mid, last), x.version)
      {
        if x != last {
          CoversTransitive(AbsorbHeads(mid, last), Elems(mid) + {last}, mid, x.version);
        }
      }
    }
  }

  lemma {:induction false} FoldKeepsValid(hs: seq<Head>, versions: seq<Head>)
    requires Antichain(hs) && KeySorted(hs)
    ensures Antichain(AbsorbAll(hs, versions)) && KeySorted(AbsorbAll(hs, versions))
    ensures hs != [] || versions != [] ==> AbsorbAll(hs, versions) != []
  {
    if versions != [] {
      var front := versions[..|versions| - 1];
      FoldKeepsValid(hs, front);
      AbsorbKeepsValid(AbsorbAll(hs, front), versions[|versions| - 1]);
    }
  }

  /** An antichain inside `s` that covers `s` is exactly its maximal part. */
  lemma CoveringAntichainIsMaximal(hs: seq<Head>, s: set<Head>)
    requires Antichain(hs) && Elems(hs) <= s && CoversAll(hs, s) && Determined(s)
    ensures Elems(hs) == Maximal(s)
  {
    forall x | x in s
      ensures x in Elems(hs) <==> x in Maximal(s)
    {
      var i :| 0 <= i < |hs| && Leq(x.version, hs[i].version);
      assert hs[i] in Elems(hs);
      if x in Elems(hs) {
        forall y | y in s && Leq(x.version, y.version)
          ensures y == x
        {
          var j :| 0 <= j < |hs| && Leq(y.version, hs[j].version);
          assert hs[j] in Elems(hs);
          LeqTransitive(x.version, y.version, hs[j].version);
          assert hs[j] == x;
          LeqAntisymmetric(x.version, y.version);
        }
      }
    }
  }

  /** Main result: absorbing versions in any order computes the maximal elements of everything
      known and delivered, as a sorted antichain. */
  lemma AbsorbComputesTheJoin(hs: seq<Head>, versions: seq<Head>)
    requires Antichain(hs) && KeySorted(hs) && Determined(Elems(hs) + Elems(versions))
    ensures Elems(AbsorbAll(hs, versions)) == Maximal(Elems(hs) + Elems(versions))
    ensures Antichain(AbsorbAll(hs, versions)) && KeySorted(AbsorbAll(hs, versions))
  {
    FoldCovers(hs, versions);
    FoldKeepsValid(hs, versions);
    CoveringAntichainIsMaximal(AbsorbAll(hs, versions), Elems(hs) + Elems(versions));
  }

  // ---- Equality of entries ----

  lemma AntichainMultiset(a: seq<Head>, b: seq<Head>)
    requires Antichain(a) && Antichain(b) && Elems(a) == Elems(b)
    ensures multiset(a) == multiset(b)
  {
    forall x
      ensures multiset(a)[x] == multiset(b)[x]
    {
      assert x in a <==> x in Elems(a);
      assert x in b <==> x in Elems(b);
    }
  }

  lemma KeySeparates(x: Head, y: Head)
    requires FitsU64(x.version) && FitsU64(y.version)
    requires KeyOrder()(x, y) == Ordering.Equal
    ensures x.version == y.version
  {
    CompareEqual(HeadBytes(x), HeadBytes(y));
    assert HeadBytes(x) + [] == HeadBytes(x) && HeadBytes(y) + [] == HeadBytes(y);
    HeadCancel(x, [], y, []);
  }

  /** Valid entries with the same heads are the same list. */
  lemma SameHeadsSameEntry(a: seq<Head>, b: seq<Head>)
    requires Antichain(a) && KeySorted(a) && Antichain(b) && KeySorted(b)
    requires Elems(a) == Elems(b) && AllFit(a)
    ensures a == b
  {
    AntichainMultiset(a, b);
    KeyOrderIsTotal();
    forall x, y | x in multiset(a) && y in multiset(a) && KeyOrder()(x, y) == Ordering.Equal
      ensures x == y
    {
      KeySeparates(x, y);
    }
    Sorting.SortedListIsUnique(KeyOrder(), a, b);
  }

  /** Delivery order and repetition do not matter. */
  lemma AbsorbIgnoresOrderAndRepetition(versions: seq<Head>, others: seq<Head>)
    requires Elems(versions) == Elems(others)
    requires Determined(Elems(versions)) && AllFit(versions)
    ensures AbsorbAll([], versions) == AbsorbAll([], others)
  {
    assert Elems([]) + Elems(versions) == Elems(versions);
    assert Elems([]) + Elems(others) == Elems(others);
    AbsorbComputesTheJoin([], versions);
    AbsorbComputesTheJoin([], others);
    var a := AbsorbAll([], versions);
    forall x | x in a
      ensures FitsU64(x.version)
    {
      assert x in Elems(a) && x in Elems(versions);
    }
    SameHeadsSameEntry(a, AbsorbAll([], others));
  }

  /** Two antichains that cover each other have the same heads. */
  lemma MutualCoverSameHeads(a: seq<Head>, b: seq<Head>)
    requires Antichain(a) && Antichain(b) && Determined(Elems(a) + Elems(b))
    requires CoversAll(a, Elems(b)) && CoversAll(b, Elems(a))
    ensures Elems(a) == Elems(b)
  {
    hide Leq, Covers, Antichain, Determined;
    forall x | x in Elems(a)
      ensures Covers(a, x.version) && Covers(b, x.version)
    {
      CoversBy(a, x, x.version);
    }
    forall x | x in Elems(b)
      ensures Covers(a, x.version) && Covers(b, x.version)
    {
      CoversBy(b, x, x.version);
    }
    assert Elems(a) + Elems(b) == Elems(b) + Elems(a);
    MutualCoverOneWay(a, b);
    MutualCoverOneWay(b, a);
  }

  lemma MutualCoverOneWay(a: seq<Head>, b: seq<Head>)
    requires Antichain(a) && Determined(Elems(a) + Elems(b))
    requires CoversAll(a, Elems(b)) && CoversAll(b, Elems(a))
    ensures Elems(a) <= Elems(b)
  {
    hide Leq;
    forall x | x in Elems(a)
      ensures x in Elems(b)
    {
      var i :| 0 <= i < |b| && Leq(x.version, b[i].version);
      assert b[i] in Elems(b);
      var j :| 0 <= j < |a| && Leq(b[i].version, a[j].version);
      LeqTransitive(x.version, b[i].version, a[j].version);
      assert a[j] in a;
      LeqAntisymmetric(x.version, b[i].version);
    }
  }

  // ---- The merged clock ----

  lemma {:induction false} MergedBounds(hs: seq<Head>)
    ensures forall x :: x in hs ==> Leq(x.version, Merged(hs))
  {
    if hs != [] {
      var front, last := hs[..|hs| - 1], hs[|hs| - 1];
      MergedBounds(front);
      assert hs == front + [last];
      JoinIsLeastUpperBound(Merged(front), last.version, Merged(hs));
      forall x | x in hs
        ensures Leq(x.version, Merged(hs))
      {
        if x != last {
          LeqTransitive(x.version, Merged(front), Merged(hs));
        }
      }
    }
  }

  /** Every positive reading of the merged clock is some head's. */
  lemma {:induction false} MergedAttained(hs: seq<Head>, r: ReplicaId) returns (x: Head)
    requires Get(Merged(hs), r) > 0
    ensures x in hs && Get(x.version, r) == Get(Merged(hs), r)
  {
    var front, last := hs[..|hs| - 1], hs[|hs| - 1];
    JoinReads(Merged(front), last.version, r);
    if Get(Merged(hs), r) == Get(last.version, r) {
      x := last;
    } else {
      x := MergedAttained(front, r);
    }
  }
}
