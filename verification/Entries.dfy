/** An index entry as a multi-value register: the antichain of concurrent heads of one path,
    `absorb` (the lattice join), and the deterministic winner. */
module Entries {
  import opened Bytes
  import opened Clocks
  import opened Versions
  import Sorting

  /** The stored heads of an entry. The source never builds an empty one. */
  type Heads = hs: seq<Head> | hs != [] witness [Head(map[], Tombstone)]

  datatype AbsorbOutcome = AlreadyKnown
                         | Absorbed(winnerChanged: bool, newConflict: bool, novelContent: bool)

  // ---- Invariants of an entry ----

  /** Pairwise concurrent, hence without repetition. */
  ghost predicate Antichain(hs: seq<Head>) {
    && (forall x :: x in hs ==> multiset(hs)[x] == 1)
    && (forall x, y :: x in hs && y in hs && x != y ==> !Leq(x.version, y.version))
  }

  /** The order of the canonical encodings: `sort_by_key(Head::sort_key)` sorts by it. */
  ghost function KeyOrder(): (Head, Head) -> Ordering {
    (a: Head, b: Head) => CompareBytes(HeadBytes(a), HeadBytes(b))
  }

  ghost predicate KeySorted(hs: seq<Head>) {
    Sorting.Sorted(KeyOrder(), hs)
  }

  ghost predicate ValidEntry(hs: seq<Head>) {
    hs != [] && Antichain(hs) && KeySorted(hs)
  }

  lemma KeyOrderIsTotal()
    ensures Sorting.TotalPreorder(KeyOrder())
  {
    forall a: Head, b: Head
      ensures KeyOrder()(b, a) == KeyOrder()(a, b).Reversed()
    {
      CompareReversed(HeadBytes(a), HeadBytes(b));
    }
    forall a: Head, b: Head, c: Head | Sorting.Chain(KeyOrder(), a, b, c)
      ensures KeyOrder()(a, c) != Greater
    {
      CompareTransitive(HeadBytes(a), HeadBytes(b), HeadBytes(c));
    }
  }

  // ---- Absorb ----

  /** Some head has seen `version`. */
  ghost predicate Covers(hs: seq<Head>, version: Clock) {
    exists i :: 0 <= i < |hs| && Leq(version, hs[i].version)
  }

  /** The heads not strictly dominated by `version`. */
  ghost function Retained(hs: seq<Head>, version: Clock): seq<Head> {
    if hs == [] then []
    else
      var rest := Retained(hs[..|hs| - 1], version);
      if CompareSpec(hs[|hs| - 1].version, version) == Before then rest else rest + [hs[|hs| - 1]]
  }

  ghost function AbsorbHeads(hs: seq<Head>, h: Head): (r: seq<Head>)
    ensures hs != [] ==> r != []
  {
    if Covers(hs, h.version) then hs
    else
      KeyOrderIsTotal();
      Sorting.SortIsSortedPermutation(KeyOrder(), Retained(hs, h.version) + [h]);
      Sorting.Sort(KeyOrder(), Retained(hs, h.version) + [h])
  }

  ghost predicate HeadsConflict(hs: seq<Head>) {
    hs != [] && exists i :: 0 <= i < |hs| && !SameContent(hs[i].state, hs[0].state)
  }

  ghost function Outcome(hs: Heads, h: Head): AbsorbOutcome {
    if Covers(hs, h.version) then AlreadyKnown
    else
      var after: Heads := AbsorbHeads(hs, h);
      Absorbed(
        !SameState(Winner(hs).state, Winner(after).state),
        |hs| == 1 && |after| >= 2 && HeadsConflict(after),
        !exists i :: 0 <= i < |hs| && SameContent(hs[i].state, h.state))
  }

  ghost function Merged(hs: seq<Head>): Clock {
    if hs == [] then map[] else Join(Merged(hs[..|hs| - 1]), hs[|hs| - 1].version)
  }

  // ---- The winner ----

  ghost predicate DisjointSupport(a: Clock, b: Clock) {
    forall r: ReplicaId :: Get(a, r) == 0 || Get(b, r) == 0
  }

  ghost predicate AdoptionMode(hs: seq<Head>) {
    |hs| >= 2 &&
    forall i, j :: 0 <= i < j < |hs| ==> DisjointSupport(hs[i].version, hs[j].version)
  }

  /** Winner order between two heads: `Greater` is the better winner. */
  ghost function WinnerCompare(a: Head, b: Head, adoption: bool): Ordering {
    match (a.state, b.state)
    case (Present(sa), Present(sb)) =>
      var standard :=
        CompareBytes(sa.hash.bytes, sb.hash.bytes)
        .Then(CompareNat(ExecByte(sa.exec), ExecByte(sb.exec)))
        .Then(CompareBytes(ClockBytes(a.version), ClockBytes(b.version)));
      if adoption then CompareNat(sa.mtime, sb.mtime).Then(standard) else standard
    case (Present(_), Tombstone) => Greater
    case (Tombstone, Present(_)) => Less
    case (Tombstone, Tombstone) => CompareBytes(ClockBytes(a.version), ClockBytes(b.version))
  }

  ghost function WinnerOrder(adoption: bool): (Head, Head) -> Ordering {
    (a: Head, b: Head) => WinnerCompare(a, b, adoption)
  }

  ghost function Winner(hs: Heads): (w: Head)
    ensures w in hs
  {
    Sorting.Best(WinnerOrder(AdoptionMode(hs)), hs)
  }

  // ---- The code ----

  method KeyCmp(a: Head, b: Head) returns (verdict: Ordering)
    ensures verdict == KeyOrder()(a, b)
  {
    var ka := EncodeHead(a, []);
    var kb := EncodeHead(b, []);
    assert ka == HeadBytes(a) && kb == HeadBytes(b);
    verdict := CompareBytes(ka, kb);
  }

  method SortByKey(heads: seq<Head>) returns (sorted: seq<Head>)
    ensures sorted == Sorting.Sort(KeyOrder(), heads)
    ensures heads != [] ==> sorted != []
  {
    sorted := [];
    for n := 0 to |heads|
      invariant sorted == Sorting.Sort(KeyOrder(), heads[..n])
      invariant n > 0 ==> sorted != []
    {
      assert heads[..n + 1][..n] == heads[..n];
      sorted := InsertByKey(sorted, heads[n]);
    }
    assert heads[..|heads|] == heads;
  }

  method InsertByKey(sorted: seq<Head>, head: Head) returns (result: seq<Head>)
    ensures result == Sorting.Insert(KeyOrder(), sorted, head)
    ensures result != []
  {
    if sorted == [] {
      return [head];
    }
    var last := sorted[|sorted| - 1];
    var verdict := KeyCmp(head, last);
    if verdict != Less {
      return sorted + [head];
    }
    result := InsertByKey(sorted[..|sorted| - 1], head);
    result := result + [last];
  }

  method WinnerCmp(a: Head, b: Head, adoption: bool) returns (verdict: Ordering)
    ensures verdict == WinnerCompare(a, b, adoption)
  {
    var ka := EncodeClock(a.version, []);
    var kb := EncodeClock(b.version, []);
    assert ka == ClockBytes(a.version) && kb == ClockBytes(b.version);
    match (a.state, b.state)
    case (Present(sa), Present(sb)) =>
      var standard :=
        CompareBytes(sa.hash.bytes, sb.hash.bytes)
        .Then(CompareNat(ExecByte(sa.exec), ExecByte(sb.exec)))
        .Then(CompareBytes(ka, kb));
      verdict := if adoption then CompareNat(sa.mtime, sb.mtime).Then(standard) else standard;
    case (Present(_), Tombstone) =>
      verdict := Greater;
    case (Tombstone, Present(_)) =>
      verdict := Less;
    case (Tombstone, Tombstone) =>
      verdict := CompareBytes(ka, kb);
  }

  method SupportsDisjoint(a: Clock, b: Clock) returns (disjoint: bool)
    ensures disjoint == DisjointSupport(a, b)
  {
    disjoint := true;
    var todo := a.Keys;
    while todo != {}
      invariant todo <= a.Keys
      invariant disjoint <==> forall r :: r in a.Keys - todo ==> Get(b, r) == 0
      decreases todo
    {
      var r :| r in todo;
      if Get(b, r) > 0 {
        disjoint := false;
      }
      todo := todo - {r};
    }
    if disjoint {
      forall r: ReplicaId
        ensures Get(a, r) == 0 || Get(b, r) == 0
      {
        assert r in a.Keys ==> r in a.Keys - todo;
      }
    } else {
      var r :| r in a.Keys && Get(b, r) > 0;
      assert Get(a, r) > 0;
    }
  }

  class Entry {
    var heads: Heads

    constructor Single(version: Clock, state: EntryState)
      ensures heads == [Head(version, state)]
    {
      heads := [Head(version, state)];
    }

    /** A clone of stored heads. */
    constructor Clone(heads: Heads)
      ensures this.heads == heads
    {
      this.heads := heads;
    }

    method InAdoptionMode() returns (adoption: bool)
      ensures adoption == AdoptionMode(heads)
    {
      if |heads| < 2 {
        return false;
      }
      for i := 0 to |heads|
        invariant forall p, q :: 0 <= p < i && p < q < |heads| ==> DisjointSupport(heads[p].version, heads[q].version)
      {
        for j := i + 1 to |heads|
          invariant forall q :: i < q < j ==> DisjointSupport(heads[i].version, heads[q].version)
        {
          var disjoint := SupportsDisjoint(heads[i].version, heads[j].version);
          if !disjoint {
            return false;
          }
        }
      }
      return true;
    }

    method GetWinner() returns (best: Head)
      ensures best == Winner(heads)
    {
      hide WinnerCompare, AdoptionMode;
      var adoption := InAdoptionMode();
      best := heads[0];
      for n := 1 to |heads|
        invariant best == Sorting.Best(WinnerOrder(adoption), heads[..n])
      {
        assert heads[..n + 1][..n] == heads[..n];
        var verdict := WinnerCmp(heads[n], best, adoption);
        if verdict == Greater {
          best := heads[n];
        }
      }
      assert heads[..|heads|] == heads;
    }

    method MergedClock() returns (clock: VectorClock)
      ensures fresh(clock) && clock.counters == Merged(heads)
    {
      clock := new VectorClock();
      for n := 0 to |heads|
        invariant fresh(clock) && clock.counters == Merged(heads[..n])
      {
        assert heads[..n + 1][..n] == heads[..n];
        clock.Merge(heads[n].version);
      }
      assert heads[..|heads|] == heads;
    }

    method Conflicting() returns (conflict: bool)
      ensures conflict == HeadsConflict(heads)
    {
      for n := 0 to |heads|
        invariant forall i :: 0 <= i < n ==> SameContent(heads[i].state, heads[0].state)
      {
        if !SameContent(heads[n].state, heads[0].state) {
          return true;
        }
      }
      return false;
    }

    method Knows(version: Clock) returns (known: bool)
      ensures known == Covers(heads, version)
    {
      for n := 0 to |heads|
        invariant forall i :: 0 <= i < n ==> !Leq(version, heads[i].version)
      {
        var verdict := VectorClock.Compare(heads[n].version, version);
        if verdict == After || verdict == Causality.Equal {
          return true;
        }
      }
      return false;
    }

    method HasContent(state: EntryState) returns (found: bool)
      ensures found <==> exists i :: 0 <= i < |heads| && SameContent(heads[i].state, state)
    {
      for n := 0 to |heads|
        invariant forall i :: 0 <= i < n ==> !SameContent(heads[i].state, state)
      {
        if SameContent(heads[n].state, state) {
          return true;
        }
      }
      return false;
    }

    /** `retain`: the heads `version` does not strictly dominate. */
    method Retain(version: Clock) returns (kept: seq<Head>)
      ensures kept == Retained(heads, version)
    {
      kept := [];
      for n := 0 to |heads|
        invariant kept == Retained(heads[..n], version)
      {
        assert heads[..n + 1][..n] == heads[..n];
        var verdict := VectorClock.Compare(heads[n].version, version);
        if verdict != Before {
          kept := kept + [heads[n]];
        }
      }
      assert heads[..|heads|] == heads;
    }

    method Absorb(version: Clock, state: EntryState) returns (outcome: AbsorbOutcome)
      modifies this
      ensures outcome == Outcome(old(heads), Head(version, state))
      ensures heads == AbsorbHeads(old(heads), Head(version, state))
    {
      var known := Knows(version);
      if known {
        return AlreadyKnown;
      }

      var winnerBefore := GetWinner();
      var beforeLen := |heads|;
      var stored := HasContent(state);

      Integrate(Head(version, state));

      var winnerAfter := GetWinner();
      var conflict := Conflicting();
      outcome := Absorbed(
        !SameState(winnerBefore.state, winnerAfter.state),
        beforeLen == 1 && |heads| >= 2 && conflict,
        !stored);
    }

    /** The state change of an absorb, for a version that is not covered. */
    method Integrate(head: Head)
      requires !Covers(heads, head.version)
      modifies this
      ensures heads == AbsorbHeads(old(heads), head)
    {
      var kept := Retain(head.version);
      heads := SortByKey(kept + [head]);
    }
  }
}
