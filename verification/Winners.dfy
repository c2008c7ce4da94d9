/** The materialized winner: a strict total order on any antichain in both modes, and when the
    mtime tiebreak of adoption mode applies. */
module Winners {
  import opened Bytes
  import opened Clocks
  import opened Paths
  import opened Versions
  import opened Entries
  import opened Joins
  import opened EngineSpec
  import Disk
  import EngineFacts
  import opened Network
  import opened Convergence
  import Sorting

  // ---- The order ----

  lemma StandardReversed(a: Head, b: Head, adoption: bool)
    ensures WinnerCompare(b, a, adoption) == WinnerCompare(a, b, adoption).Reversed()
  {
    hide CompareBytes, ClockBytes;
    CompareReversed(ClockBytes(a.version), ClockBytes(b.version));
    if a.state.Present? && b.state.Present? {
      CompareReversed(a.state.sig.hash.bytes, b.state.sig.hash.bytes);
    }
  }

  lemma StandardTransitive(a: Head, b: Head, c: Head, adoption: bool)
    requires WinnerCompare(a, b, adoption) != Greater && WinnerCompare(b, c, adoption) != Greater
    ensures WinnerCompare(a, c, adoption) != Greater
  {
    hide CompareBytes, ClockBytes;
    TransitiveAt(ClockBytes(a.version), ClockBytes(b.version), ClockBytes(c.version));
    if a.state.Present? && b.state.Present? && c.state.Present? {
      TransitiveAt(a.state.sig.hash.bytes, b.state.sig.hash.bytes, c.state.sig.hash.bytes);
    }
  }

  lemma TransitiveAt(a: Bytes, b: Bytes, c: Bytes)
    ensures CompareBytes(a, b) != Greater && CompareBytes(b, c) != Greater ==>
              CompareBytes(a, c) != Greater &&
              (CompareBytes(a, c) == Ordering.Equal ==>
                 CompareBytes(a, b) == Ordering.Equal && CompareBytes(b, c) == Ordering.Equal)
  {
    if CompareBytes(a, b) != Greater && CompareBytes(b, c) != Greater {
      CompareTransitive(a, b, c);
    }
  }

  lemma WinnerOrderIsTotal(adoption: bool)
    ensures Sorting.TotalPreorder(WinnerOrder(adoption))
  {
    hide WinnerCompare;
    forall a: Head, b: Head
      ensures WinnerOrder(adoption)(b, a) == WinnerOrder(adoption)(a, b).Reversed()
    {
      StandardReversed(a, b, adoption);
    }
    forall a: Head, b: Head, c: Head | Sorting.Chain(WinnerOrder(adoption), a, b, c)
      ensures WinnerOrder(adoption)(a, c) != Greater
    {
      StandardTransitive(a, b, c, adoption);
    }
  }

  /** Ties occur only between versions with the same clock. */
  lemma WinnerTieMeansSameClock(a: Head, b: Head, adoption: bool)
    requires FitsU64(a.version) && FitsU64(b.version)
    requires WinnerCompare(a, b, adoption) == Ordering.Equal
    ensures a.version == b.version
  {
    hide CompareBytes, ClockBytes;
    CompareEqual(ClockBytes(a.version), ClockBytes(b.version));
    ClockBytesInjective(a.version, b.version);
  }

  /** The scan returns the one head that beats every other, in both modes. */
  lemma WinnerBeatsAll(hs: Heads, x: Head)
    requires Antichain(hs) && AllFit(hs) && x in hs && x != Winner(hs)
    ensures WinnerCompare(x, Winner(hs), AdoptionMode(hs)) == Less
  {
    hide WinnerCompare, AdoptionMode, FitsU64;
    var adoption, w := AdoptionMode(hs), Winner(hs);
    WinnerOrderIsTotal(adoption);
    Sorting.BestIsMaximal(WinnerOrder(adoption), hs);
    assert WinnerOrder(adoption)(x, w) != Greater;
    assert Leq(w.version, w.version);
    if WinnerCompare(x, w, adoption) == Ordering.Equal {
      WinnerTieMeansSameClock(x, w, adoption);
    }
  }

  lemma DisjointIsSymmetric(a: Clock, b: Clock)
    ensures DisjointSupport(a, b) <==> DisjointSupport(b, a)
  {
  }

  lemma AdoptionIgnoresOrder(a: seq<Head>, b: seq<Head>)
    requires Antichain(a) && multiset(a) == multiset(b) && AdoptionMode(a)
    ensures AdoptionMode(b)
  {
    hide Leq, DisjointSupport;
    assert |b| == |multiset(b)| == |multiset(a)| == |a|;
    forall i, j | 0 <= i < j < |b|
      ensures DisjointSupport(b[i].version, b[j].version)
    {
      assert b[i] in multiset(b) && b[j] in multiset(b);
      var x, y := b[i], b[j];
      if x == y {
        TwoPositions(b, i, j);
      }
      var k :| 0 <= k < |a| && a[k] == x;
      var l :| 0 <= l < |a| && a[l] == y;
      assert DisjointSupport(a[k].version, a[l].version) || DisjointSupport(a[l].version, a[k].version);
      DisjointIsSymmetric(a[k].version, a[l].version);
    }
  }

  /** The winner does not depend on the order of the heads. */
  lemma WinnerIgnoresOrder(a: Heads, b: Heads)
    requires Antichain(a) && AllFit(a) && multiset(a) == multiset(b)
    ensures Winner(a) == Winner(b)
  {
    hide WinnerCompare, AdoptionMode, FitsU64;
    forall x
      ensures x in a <==> x in b
    {
      assert x in multiset(a) <==> x in multiset(b);
    }
    assert Antichain(b);
    if AdoptionMode(a) {
      AdoptionIgnoresOrder(a, b);
    } else if AdoptionMode(b) {
      AdoptionIgnoresOrder(b, a);
    }
    var v, w := Winner(a), Winner(b);
    if v != w {
      WinnerBeatsAll(a, w);
      WinnerBeatsAll(b, v);
      StandardReversed(v, w, AdoptionMode(a));
    }
  }

  /** What the documented policy says of the winner. A present head beats any tombstone. Among present
      heads, adoption mode takes the newest mtime; then, and in every other state from the start, the
      largest content hash wins, then the executable one, then the largest clock key. Among tombstones
      the largest clock key wins. */
  lemma WinnerFollowsPolicy(hs: Heads, x: Head)
    requires x in hs
    ensures x.state.Present? ==> Winner(hs).state.Present?
    ensures x.state.Present? && AdoptionMode(hs) ==> x.state.sig.mtime <= Winner(hs).state.sig.mtime
    ensures x.state.Present? && (AdoptionMode(hs) ==> x.state.sig.mtime == Winner(hs).state.sig.mtime) ==>
              var a, w := x.state.sig, Winner(hs).state.sig;
              && CompareBytes(a.hash.bytes, w.hash.bytes) != Greater
              && (a.hash == w.hash ==> (a.exec ==> w.exec))
              && (a.hash == w.hash && a.exec == w.exec
                  ==> CompareBytes(ClockBytes(x.version), ClockBytes(Winner(hs).version)) != Greater)
    ensures Winner(hs).state == Tombstone ==> CompareBytes(ClockBytes(x.version), ClockBytes(Winner(hs).version)) != Greater
  {
    hide CompareBytes, ClockBytes, AdoptionMode;
    WinnerOrderIsTotal(AdoptionMode(hs));
    Sorting.BestIsMaximal(WinnerOrder(AdoptionMode(hs)), hs);
    assert WinnerOrder(AdoptionMode(hs))(x, Winner(hs)) != Greater;
    if x.state.Present? && Winner(hs).state.Present? {
      CompareEqual(x.state.sig.hash.bytes, Winner(hs).state.sig.hash.bytes);
    }
  }

  // ---- Adoption mode ----

  lemma SharedReading(x: Clock, y: Clock, r: ReplicaId)
    requires Get(x, r) > 0 && Get(y, r) > 0
    ensures !DisjointSupport(x, y) && !DisjointSupport(y, x)
  {
  }

  ghost predicate NamesAll(c: Clock, ids: set<ReplicaId>) {
    forall r :: r in ids ==> Get(c, r) > 0
  }

  /** The clocks of an entry name some of the replicas `ids`, and no others. */
  ghost predicate NamedWithin(hs: seq<Head>, ids: set<ReplicaId>) {
    forall h :: h in hs ==> h.version.Keys <= ids && h.version != map[]
  }

  /** An entry with a head that names every replica is not in adoption mode. */
  lemma SharedSupportEndsAdoption(hs: seq<Head>, ids: set<ReplicaId>, i: nat)
    requires NamedWithin(hs, ids) && i < |hs| && NamesAll(hs[i].version, ids)
    ensures !AdoptionMode(hs)
  {
    hide DisjointSupport;
    if |hs| >= 2 {
      var j := if i == 0 then 1 else 0;
      assert hs[j] in hs;
      var r :| r in hs[j].version;
      SharedReading(hs[i].version, hs[j].version, r);
    }
  }

  lemma HeadsNameReplicas(ids: set<ReplicaId>, steps: seq<Step>, r: ReplicaId, p: RelPath, h: Head)
    requires r in ids && h in HeadsAt(Reached(ids, steps).engines[r].index, p)
    ensures h.version.Keys <= ids && h.version != map[]
  {
    hide Reached, ClocksAreCausal, ClocksIdentify, EnginesInv, RecordsInv, SnapshotsInv, SeenInv;
    HeadsWereShipped(ids, steps, r, p, h);
    ReachedInv(ids, steps);
    var sys := Reached(ids, steps);
    var m := ChangeOf(p, h);
    assert Get(m.version, sys.author[m]) > 0;
  }

  lemma RunsCompose(sys: System, first: seq<Step>, second: seq<Step>)
    ensures Run(Run(sys, first), second) == Run(sys, first + second)
    decreases |second|
  {
    hide Next;
    if second == [] {
      assert first + second == first;
    } else {
      var front := second[..|second| - 1];
      assert (first + second)[..|first + second| - 1] == first + front;
      RunsCompose(sys, first, front);
    }
  }

  lemma ReachedHeadsNamed(ids: set<ReplicaId>, steps: seq<Step>, r: ReplicaId, p: RelPath)
    requires r in ids
    ensures NamedWithin(HeadsAt(Reached(ids, steps).engines[r].index, p), ids)
  {
    hide Reached;
    forall h | h in HeadsAt(Reached(ids, steps).engines[r].index, p)
      ensures h.version.Keys <= ids && h.version != map[]
    {
      HeadsNameReplicas(ids, steps, r, p, h);
    }
  }

  /** Adoption is over for good: in any run, once an entry covers a version whose clock names every
      replica, no later state of that entry consults mtime. */
  lemma AdoptionNeverReturns(ids: set<ReplicaId>, steps: seq<Step>, later: seq<Step>,
                             r: ReplicaId, p: RelPath, version: Clock)
    requires r in ids && NamesAll(version, ids)
    requires Covers(HeadsAt(Reached(ids, steps).engines[r].index, p), version)
    ensures !AdoptionMode(HeadsAt(Reached(ids, steps + later).engines[r].index, p))
  {
    hide Reached, Inv, AdoptionMode, Run, NamedWithin;
    var sys := Reached(ids, steps);
    ReachedInv(ids, steps);
    CoverIsForever(sys, later, r, p, version);
    ReachedLater(ids, steps, later);
    var hs := HeadsAt(Reached(ids, steps + later).engines[r].index, p);
    ReachedHeadsNamed(ids, steps + later, r, p);
    var i :| 0 <= i < |hs| && Leq(version, hs[i].version);
    SharedSupportEndsAdoption(hs, ids, i);
  }

  /** With two replicas the exact condition: in every reachable state, an entry is in adoption mode if and
      only if it has several heads and no head's clock names both. */
  lemma AdoptionIffUnshared(a: ReplicaId, b: ReplicaId, steps: seq<Step>, r: ReplicaId, p: RelPath)
    requires r in {a, b}
    ensures AdoptionMode(HeadsAt(Reached({a, b}, steps).engines[r].index, p)) <==>
              |HeadsAt(Reached({a, b}, steps).engines[r].index, p)| >= 2
              && forall h :: h in HeadsAt(Reached({a, b}, steps).engines[r].index, p) ==> !NamesAll(h.version, {a, b})
  {
    hide Reached, NamedWithin, NamesAll, EnginesInv, NetInv, RecordsInv, SnapshotsInv, SeenInv, Antichain, KeySorted,
      DisjointSupport;
    var sys := Reached({a, b}, steps);
    var hs := HeadsAt(sys.engines[r].index, p);
    ReachedHeadsNamed({a, b}, steps, r, p);
    if h :| h in hs && NamesAll(h.version, {a, b}) {
      var i :| 0 <= i < |hs| && hs[i] == h;
      SharedSupportEndsAdoption(hs, {a, b}, i);
    } else if |hs| >= 2 {
      ReachedAntichain({a, b}, steps, r, p);
      UnsharedIsAdoption(hs, a, b);
    }
  }

  lemma ReachedAntichain(ids: set<ReplicaId>, steps: seq<Step>, r: ReplicaId, p: RelPath)
    requires r in ids
    ensures Antichain(HeadsAt(Reached(ids, steps).engines[r].index, p))
  {
    hide Reached, NetInv, RecordsInv, SnapshotsInv, SeenInv, Antichain, KeySorted, Shipped, OwnCounterLeads;
    ReachedInv(ids, steps);
    assert EngineInv(Reached(ids, steps).engines[r], r, Reached(ids, steps).net);
    ValidHeadsAt(Reached(ids, steps).engines[r].index, p);
  }

  /** Concurrent clocks of two replicas, each naming one of them only, name different ones. */
  lemma UnsharedIsAdoption(hs: seq<Head>, a: ReplicaId, b: ReplicaId)
    requires |hs| >= 2 && Antichain(hs) && NamedWithin(hs, {a, b})
    requires forall h :: h in hs ==> !NamesAll(h.version, {a, b})
    ensures AdoptionMode(hs)
  {
    hide Antichain, DisjointSupport;
    forall i, j | 0 <= i < j < |hs|
      ensures DisjointSupport(hs[i].version, hs[j].version)
    {
      assert hs[i] in hs && hs[j] in hs;
      AntichainPositions(hs, i, j);
      CompareIsThePartialOrder(hs[i].version, hs[j].version);
      OneReplicaEach(hs[i].version, hs[j].version, a, b);
    }
  }

  lemma OneReplicaEach(x: Clock, y: Clock, a: ReplicaId, b: ReplicaId)
    requires x.Keys <= {a, b} && y.Keys <= {a, b} && !NamesAll(x, {a, b}) && !NamesAll(y, {a, b})
    requires !Leq(x, y) && !Leq(y, x)
    ensures DisjointSupport(x, y)
  {
    var r: ReplicaId :| Get(x, r) > Get(y, r);
    var q: ReplicaId :| Get(y, q) > Get(x, q);
    assert r in {a, b} && q in {a, b};
  }

  lemma ReachedLater(ids: set<ReplicaId>, steps: seq<Step>, later: seq<Step>)
    ensures Reached(ids, steps + later) == Run(Reached(ids, steps), later)
  {
    hide Run;
    RunsCompose(Init(ids), steps, later);
  }

  /** Genesis is per path, not per pair of replicas: whatever two replicas have exchanged before,
      a path neither held and both create is in adoption mode. Here `e` creates it and then
      receives the other's first version. */
  lemma EveryNewPathIsGenesis(e: EngineState, p: RelPath, mine: EntryState, other: ReplicaId, theirs: EntryState)
    requires p !in e.index && other != e.replica
    ensures AdoptionMode(HeadsAt(
              AbsorbRemote(LocalCollapse(e, p, mine).state, p, Head(map[other := 1], theirs)).state.index, p))
  {
    hide Winner, Outcome;
    var x, y := Head(Ticked(map[], e.replica), mine), Head(map[other := 1], theirs);
    var e' := LocalCollapse(e, p, mine).state;
    assert HeadsAt(e'.index, p) == [x];
    EngineFacts.AbsorbRemoteEffect(e', p, y);
    TwoNewHeads(x, y, e.replica, other);
  }

  lemma TwoNewHeads(x: Head, y: Head, r: ReplicaId, q: ReplicaId)
    requires r != q && x.version == Ticked(map[], r) && y.version == map[q := 1]
    ensures AdoptionMode(AbsorbHeads([x], y))
  {
    hide AbsorbHeads, Retained, CompareSpec;
    assert x.version == map[r := 1];
    assert Get(x.version, r) == 1 && Get(y.version, r) == 0 && Get(y.version, q) == 1 && Get(x.version, q) == 0;
    assert !Covers([x], y.version);
    var after := AbsorbHeads([x], y);
    AbsorbMembers([x], y);
    assert x in after && y in after;
    RetainedMembers([x], y.version);
    CompareIsThePartialOrder(x.version, y.version);
    assert x in Retained([x], y.version);
    assert multiset(Retained([x], y.version)) == multiset{x};
    PairInAdoptionMode(after, x, y);
  }

  lemma PairInAdoptionMode(hs: seq<Head>, x: Head, y: Head)
    requires multiset(hs) == multiset{x} + multiset{y} && x != y
    requires DisjointSupport(x.version, y.version) && DisjointSupport(y.version, x.version)
    ensures AdoptionMode(hs)
  {
    hide DisjointSupport;
    assert |hs| == |multiset(hs)| == 2;
    assert hs[0] in multiset(hs) && hs[1] in multiset(hs);
    if hs[0] == hs[1] {
      TwoPositions(hs, 0, 1);
    }
  }

  // ---- What an absorb reports ----

  /** A version is novel exactly when no head before it had its content: deleted like it, or present with
      its hash and executable bit. */
  lemma NovelIff(hs: Heads, h: Head)
    requires !Covers(hs, h.version)
    ensures !Outcome(hs, h).novelContent <==>
              exists x :: x in hs && x.state.Present? == h.state.Present?
                          && (x.state.Present? ==> x.state.sig.hash == h.state.sig.hash && x.state.sig.exec == h.state.sig.exec)
  {
    hide Winner, Covers, AbsorbHeads, HeadsConflict;
    if x :| x in hs && x.state.Present? == h.state.Present?
            && (x.state.Present? ==> x.state.sig.hash == h.state.sig.hash && x.state.sig.exec == h.state.sig.exec) {
      var i :| 0 <= i < |hs| && hs[i] == x;
      assert SameContent(hs[i].state, h.state);
    }
    if i :| 0 <= i < |hs| && SameContent(hs[i].state, h.state) {
      assert hs[i] in hs;
    }
  }

  /** Heads conflict exactly when two of them differ in presence, hash or executable bit. */
  lemma ConflictMeans(hs: seq<Head>)
    ensures HeadsConflict(hs) <==>
              exists x, y :: x in hs && y in hs
                             && (x.state.Present? != y.state.Present?
                                 || (x.state.Present? && (x.state.sig.hash != y.state.sig.hash || x.state.sig.exec != y.state.sig.exec)))
  {
    if HeadsConflict(hs) {
      var i :| 0 <= i < |hs| && !SameContent(hs[i].state, hs[0].state);
      assert hs[i] in hs && hs[0] in hs;
    }
    if x, y :| x in hs && y in hs
               && (x.state.Present? != y.state.Present?
                   || (x.state.Present? && (x.state.sig.hash != y.state.sig.hash || x.state.sig.exec != y.state.sig.exec))) {
      DifferentHeadsConflict(hs, x, y);
    }
  }

  /** A conflict is new exactly when there was one head and differing heads appeared. */
  lemma NewConflictIff(hs: Heads, h: Head)
    requires !Covers(hs, h.version)
    ensures Outcome(hs, h).newConflict <==>
              |hs| == 1
              && exists x, y :: x in AbsorbHeads(hs, h) && y in AbsorbHeads(hs, h)
                                && (x.state.Present? != y.state.Present?
                                    || (x.state.Present? && (x.state.sig.hash != y.state.sig.hash || x.state.sig.exec != y.state.sig.exec)))
  {
    hide Winner, Covers, AbsorbHeads, HeadsConflict, SameContent;
    ConflictMeans(AbsorbHeads(hs, h));
    if HeadsConflict(AbsorbHeads(hs, h)) {
      ConflictSurfacedIff(hs, h);
    }
  }

  /** The winner moved exactly when its presence, hash, size or executable bit changed. */
  lemma WinnerChangedIff(hs: Heads, h: Head)
    requires !Covers(hs, h.version)
    ensures !Outcome(hs, h).winnerChanged <==>
              var before, after := Winner(hs).state, Winner(AbsorbHeads(hs, h)).state;
              before.Present? == after.Present?
              && (before.Present? ==> before.sig.hash == after.sig.hash && before.sig.size == after.sig.size
                                      && before.sig.exec == after.sig.exec)
  {
    hide Winner, Covers, AbsorbHeads, HeadsConflict, SameContent;
  }

  // ---- Surfaced conflicts ----

  /** A divergence is reported exactly when it arises in an entry that had one head. */
  lemma ConflictSurfacedIff(hs: Heads, h: Head)
    requires !Covers(hs, h.version) && HeadsConflict(AbsorbHeads(hs, h))
    ensures Outcome(hs, h).newConflict <==> |hs| == 1
  {
    hide Winner, Covers, AbsorbHeads;
    var after := AbsorbHeads(hs, h);
    var i :| 0 <= i < |after| && !SameContent(after[i].state, after[0].state);
    assert SameContent(after[0].state, after[0].state);
  }

  function NewReplica(r: ReplicaId): EngineState {
    EngineState(r, map[], map[])
  }

  /** A new replica creates a file. */
  ghost function Created(r: ReplicaId, p: RelPath, sig: ContentSig): Transition {
    Handle(NewReplica(r), Local(LocalChange(p, Modified(sig))))
  }

  /** `a` and `b` both create it, and `a` receives `b`'s version. */
  ghost function Met(a: ReplicaId, b: ReplicaId, p: RelPath, sig: ContentSig): Transition {
    Handle(Created(a, p, sig).state, Remote(ChangeOf(p, Head(map[b := 1], Present(sig)))))
  }

  /** `b` then changes it, and `a` receives that too. */
  ghost function Parted(a: ReplicaId, b: ReplicaId, p: RelPath, sig: ContentSig, other: ChangeKind): Transition {
    Handle(Met(a, b, p, sig).state, Remote(ChangeOf(p, Head(map[b := 2], StateFromKind(other)))))
  }

  /** So a divergence can arise unreported: after these events `a` holds differing heads and was never
      told of a conflict. The changes it received are the ones `b` shipped. */
  lemma UnreportedConflict(a: ReplicaId, b: ReplicaId, p: RelPath, sig: ContentSig, other: ChangeKind)
    requires a != b && !SameContent(Present(sig), StateFromKind(other))
    ensures Send(ChangeOf(p, Head(map[b := 1], Present(sig)))) in Created(b, p, sig).actions
    ensures Send(ChangeOf(p, Head(map[b := 2], StateFromKind(other)))) in
            Handle(Created(b, p, sig).state, Local(LocalChange(p, other))).actions
    ensures HeadsConflict(HeadsAt(Parted(a, b, p, sig, other).state.index, p))
    ensures forall x :: x in Met(a, b, p, sig).actions || x in Parted(a, b, p, sig, other).actions ==> !x.ConflictResolved?
  {
    hide Handle, AbsorbHeads, Covers, HeadsConflict, SameContent;
    var x, y, h := Head(map[a := 1], Present(sig)), Head(map[b := 1], Present(sig)), Head(map[b := 2], StateFromKind(other));
    var mine := Creates(a, p, sig);
    var theirs := Creates(b, p, sig);
    Changes(b, p, sig, other);
    TwinsThenChange(x, y, h, a, b);
    Receives(mine, p, [x], y);
    Receives(Met(a, b, p, sig).state, p, AbsorbHeads([x], y), h);
  }

  /** A new replica's first version of a path. */
  lemma Creates(r: ReplicaId, p: RelPath, sig: ContentSig) returns (after: EngineState)
    ensures var h := Head(map[r := 1], Present(sig));
            && after == EngineState(r, map[p := [h]], map[])
            && Handle(NewReplica(r), Local(LocalChange(p, Modified(sig))))
               == Transition(after, [Send(ChangeOf(p, h)), RecordVersion(p, h.state, h.version)])
  {
    after := Handle(NewReplica(r), Local(LocalChange(p, Modified(sig)))).state;
    assert Ticked(map[], r) == map[r := 1];
  }

  lemma Changes(r: ReplicaId, p: RelPath, sig: ContentSig, other: ChangeKind)
    requires !SameContent(Present(sig), StateFromKind(other))
    ensures Send(ChangeOf(p, Head(map[r := 2], StateFromKind(other)))) in
            Handle(EngineState(r, map[p := [Head(map[r := 1], Present(sig))]], map[]), Local(LocalChange(p, other))).actions
  {
    hide Winner, Join;
    var h := Head(map[r := 1], Present(sig));
    Disk.SingletonWinner(h);
    EngineFacts.MergedSingle(h);
    assert Ticked(h.version, r) == map[r := 2];
  }

  lemma Receives(e: EngineState, p: RelPath, before: Heads, h: Head)
    requires p in e.index && e.index[p] == before && (|before| != 1 || !HeadsConflict(AbsorbHeads(before, h)))
    ensures HeadsAt(Handle(e, Remote(ChangeOf(p, h))).state.index, p) == AbsorbHeads(before, h)
    ensures forall x :: x in Handle(e, Remote(ChangeOf(p, h))).actions ==> !x.ConflictResolved?
  {
    hide AbsorbRemote, AbsorbHeads, Covers, HeadsConflict, Winner, AdoptionMode, SameState, SameContent;
    ChangeRoundTrip(p, h, ChangeOf(p, h));
    EngineFacts.AbsorbRemoteEffect(e, p, h);
    forall x | x in AbsorbRemote(e, p, h).actions
      ensures !x.ConflictResolved?
    {
      EngineFacts.RemoteActionsAre(e, p, h, x);
    }
  }

  lemma TwinsThenChange(x: Head, y: Head, h: Head, a: ReplicaId, b: ReplicaId)
    requires a != b && x.state == y.state && !SameContent(x.state, h.state)
    requires x.version == map[a := 1] && y.version == map[b := 1] && h.version == map[b := 2]
    ensures var hs := AbsorbHeads([x], y);
            |hs| == 2 && !HeadsConflict(hs) && HeadsConflict(AbsorbHeads(hs, h))
  {
    hide SameContent, AbsorbHeads, HeadsConflict, Retained, Leq, CompareSpec, KeySorted;
    var hs := AbsorbHeads([x], y);
    TwinClocks(x.version, y.version, h.version, a, b);
    assert [x][0] == x;
    AbsorbMembers([x], y);
    CompareIsThePartialOrder(x.version, y.version);
    OneRetained(x, y.version);
    TwoElements(hs, x, y);
    TwinsDoNotConflict(hs, x, y);
    AbsorbMembers(hs, h);
    DifferentHeadsConflict(AbsorbHeads(hs, h), x, h);
  }

  lemma OneRetained(x: Head, version: Clock)
    requires CompareSpec(x.version, version) != Before
    ensures Retained([x], version) == [x]
  {
    assert [x][..0] == [];
  }

  lemma TwoElements(hs: seq<Head>, x: Head, y: Head)
    requires multiset(hs) == multiset([x]) + multiset{y}
    ensures |hs| == 2 && forall h :: h in hs <==> h == x || h == y
  {
    assert |hs| == |multiset(hs)|;
    assert forall h :: h in hs <==> h in multiset(hs);
  }

  lemma TwinClocks(x: Clock, y: Clock, h: Clock, a: ReplicaId, b: ReplicaId)
    requires a != b && x == map[a := 1] && y == map[b := 1] && h == map[b := 2]
    ensures !Leq(x, y) && !Leq(y, x) && !Leq(x, h) && !Leq(h, x) && !Leq(h, y)
  {
    assert Get(x, a) == 1 && Get(y, a) == 0 && Get(h, a) == 0;
    assert Get(x, b) == 0 && Get(y, b) == 1 && Get(h, b) == 2;
  }

  lemma TwinsDoNotConflict(hs: seq<Head>, x: Head, y: Head)
    requires x.state == y.state && forall h :: h in hs ==> h == x || h == y
    ensures !HeadsConflict(hs)
  {
    hide SameContent;
    SameContentReflexive(x.state);
    assert forall i :: 0 <= i < |hs| ==> hs[i] in hs;
  }

  lemma SameContentReflexive(state: EntryState)
    ensures SameContent(state, state)
  {
  }

  lemma DifferentHeadsConflict(hs: seq<Head>, x: Head, y: Head)
    requires x in hs && y in hs && !SameContent(x.state, y.state)
    ensures HeadsConflict(hs)
  {
    var i :| 0 <= i < |hs| && hs[i] == x;
    var j :| 0 <= j < |hs| && hs[j] == y;
    if SameContent(hs[i].state, hs[0].state) && SameContent(hs[j].state, hs[0].state) {
      SameContentTransitive(x.state, hs[0].state, y.state);
    }
  }
}
