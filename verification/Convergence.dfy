/** What every run of the network guarantees: identical indices once every change has arrived,
    reconciliation after any loss, bounded heads, and complete histories. */
module Convergence {
  import opened Clocks
  import opened Paths
  import opened Versions
  import opened Entries
  import opened Joins
  import opened EngineSpec
  import opened EngineFacts
  import opened Network

  /** The state a run from empty indices reaches. */
  ghost function Reached(ids: set<ReplicaId>, steps: seq<Step>): (sys: System)
    ensures sys.engines.Keys == ids
  {
    assert Init(ids).engines.Keys == ids;
    Run(Init(ids), steps)
  }

  lemma ReachedInv(ids: set<ReplicaId>, steps: seq<Step>)
    ensures Inv(Reached(ids, steps))
  {
    hide Inv, Run;
    InitInv(ids);
    RunInv(Init(ids), steps);
  }

  /** No clock of a shipped change has outgrown the `u64` the source stores it in. */
  ghost predicate NetFits(net: set<RemoteChange>) {
    forall m :: m in net ==> FitsU64(m.version)
  }

  /** Every change ever shipped has reached every replica at least once. */
  ghost predicate AllDelivered(sys: System) {
    forall r, m :: r in sys.engines && m in sys.net ==> (r, m) in sys.seen
  }

  // ---- Equality of indices ----

  lemma SameHeadsEverywhere(a: Index, b: Index)
    requires forall p :: HeadsAt(a, p) == HeadsAt(b, p)
    ensures a == b
  {
    forall p
      ensures p in a <==> p in b
    {
      assert HeadsAt(a, p) == HeadsAt(b, p);
    }
    forall p | p in a
      ensures a[p] == b[p]
    {
      assert HeadsAt(a, p) == HeadsAt(b, p);
    }
  }

  lemma ShippedHeadsDetermined(p: RelPath, a: seq<Head>, b: seq<Head>, net: set<RemoteChange>)
    requires ClocksIdentify(net) && NetFits(net)
    requires forall h :: h in a || h in b ==> ChangeOf(p, h) in net
    ensures Determined(Elems(a) + Elems(b)) && AllFit(a)
  {
    forall x, y | x in Elems(a) + Elems(b) && y in Elems(a) + Elems(b) && x.version == y.version
      ensures x == y
    {
      assert ChangeOf(p, x) == ChangeOf(p, y);
      ChangeRoundTrip(p, x, ChangeOf(p, x));
      ChangeRoundTrip(p, y, ChangeOf(p, y));
    }
    forall x | x in a
      ensures FitsU64(x.version)
    {
      assert ChangeOf(p, x) in net;
    }
  }

  /** Two replicas whose heads cover each other hold the same index. */
  lemma MutualCoverSameIndex(a: Index, b: Index, net: set<RemoteChange>)
    requires ValidIndex(a) && ValidIndex(b) && Shipped(a, net) && Shipped(b, net)
    requires ClocksIdentify(net) && NetFits(net)
    requires forall p :: CoversAll(HeadsAt(a, p), Elems(HeadsAt(b, p)))
    requires forall p :: CoversAll(HeadsAt(b, p), Elems(HeadsAt(a, p)))
    ensures a == b
  {
    hide Antichain, KeySorted, Determined, AllFit, ClocksIdentify, NetFits;
    forall p
      ensures HeadsAt(a, p) == HeadsAt(b, p)
    {
      var x, y := HeadsAt(a, p), HeadsAt(b, p);
      ValidHeadsAt(a, p);
      ValidHeadsAt(b, p);
      assert CoversAll(x, Elems(y)) && CoversAll(y, Elems(x));
      ShippedHeadsDetermined(p, x, y, net);
      MutualCoverSameHeads(x, y);
      SameHeadsSameEntry(x, y);
    }
    SameHeadsEverywhere(a, b);
  }

  // ---- Convergence ----

  lemma DeliveredCovers(sys: System, r: ReplicaId, q: ReplicaId, p: RelPath)
    requires Inv(sys) && AllDelivered(sys) && r in sys.engines && q in sys.engines
    ensures CoversAll(HeadsAt(sys.engines[r].index, p), Elems(HeadsAt(sys.engines[q].index, p)))
  {
    hide NetInv, RecordsInv, SnapshotsInv, Covers, ValidIndex, OwnCounterLeads;
    assert EngineInv(sys.engines[q], q, sys.net);
    forall h | h in Elems(HeadsAt(sys.engines[q].index, p))
      ensures Covers(HeadsAt(sys.engines[r].index, p), h.version)
    {
      var m := ChangeOf(p, h);
      assert m in sys.net && (r, m) in sys.seen;
    }
  }

  /** Convergence: in every run of any number of replicas, under any reordering, duplication,
      restarts and interleaved index exchanges, once every shipped change has reached every
      replica all indices are equal: the same heads in the same order, hence the same canonical
      bytes and the same winner, mtime included. */
  lemma Convergence(ids: set<ReplicaId>, steps: seq<Step>, r: ReplicaId, q: ReplicaId)
    requires r in ids && q in ids
    requires AllDelivered(Reached(ids, steps)) && NetFits(Reached(ids, steps).net)
    ensures Reached(ids, steps).engines[r].index == Reached(ids, steps).engines[q].index
  {
    hide Reached, RecordsInv, SnapshotsInv, SeenInv, Shipped, ValidIndex, OwnCounterLeads, ClocksAreCausal,
      ClocksIdentify, NetFits, CoversAll, AllDelivered;
    var sys := Reached(ids, steps);
    ReachedInv(ids, steps);
    assert EngineInv(sys.engines[r], r, sys.net) && EngineInv(sys.engines[q], q, sys.net);
    forall p
      ensures CoversAll(HeadsAt(sys.engines[r].index, p), Elems(HeadsAt(sys.engines[q].index, p)))
      ensures CoversAll(HeadsAt(sys.engines[q].index, p), Elems(HeadsAt(sys.engines[r].index, p)))
    {
      DeliveredCovers(sys, r, q, p);
      DeliveredCovers(sys, q, r, p);
    }
    MutualCoverSameIndex(sys.engines[r].index, sys.engines[q].index, sys.net);
  }

  // ---- Clock identity and causality ----

  /** A clock names one version of a path across the whole system, mtime included, wherever the
      two copies are held or in flight. */
  lemma ClockIdentity(ids: set<ReplicaId>, steps: seq<Step>, p: RelPath, x: Head, y: Head)
    requires ChangeOf(p, x) in Reached(ids, steps).net && ChangeOf(p, y) in Reached(ids, steps).net
    requires x.version == y.version
    ensures x == y
  {
    hide Reached, EnginesInv, RecordsInv, SnapshotsInv, SeenInv, ClocksAreCausal;
    ReachedInv(ids, steps);
    ChangeRoundTrip(p, x, ChangeOf(p, x));
    ChangeRoundTrip(p, y, ChangeOf(p, y));
  }

  /** Every head a replica holds was shipped as a change. */
  lemma HeadsWereShipped(ids: set<ReplicaId>, steps: seq<Step>, r: ReplicaId, p: RelPath, h: Head)
    requires r in ids
    requires h in HeadsAt(Reached(ids, steps).engines[r].index, p)
    ensures ChangeOf(p, h) in Reached(ids, steps).net
  {
    hide Reached, NetInv, RecordsInv, SnapshotsInv, SeenInv, ValidIndex, OwnCounterLeads;
    ReachedInv(ids, steps);
    assert EngineInv(Reached(ids, steps).engines[r], r, Reached(ids, steps).net);
  }

  /** Comparing two versions of a path is the same as looking up one counter: the later one has
      seen the earlier one exactly when it has seen its author's tick. */
  lemma CausalityIsOneCounter(ids: set<ReplicaId>, steps: seq<Step>, m: RemoteChange, x: RemoteChange)
    requires m in Reached(ids, steps).net && x in Reached(ids, steps).net && m.path == x.path
    ensures m in Reached(ids, steps).author
    ensures Leq(m.version, x.version) <==>
              Get(m.version, Reached(ids, steps).author[m]) <= Get(x.version, Reached(ids, steps).author[m])
  {
    hide Reached, EnginesInv, RecordsInv, SnapshotsInv, SeenInv, ClocksIdentify;
    ReachedInv(ids, steps);
  }

  /** One replica's versions of a path are totally ordered. */
  lemma AuthorsVersionsAreOrdered(ids: set<ReplicaId>, steps: seq<Step>, m: RemoteChange, x: RemoteChange)
    requires m in Reached(ids, steps).net && x in Reached(ids, steps).net && m.path == x.path
    requires m in Reached(ids, steps).author && x in Reached(ids, steps).author
    requires Reached(ids, steps).author[m] == Reached(ids, steps).author[x]
    ensures CompareSpec(m.version, x.version) != Concurrent
  {
    hide Reached;
    CausalityIsOneCounter(ids, steps, m, x);
    CausalityIsOneCounter(ids, steps, x, m);
  }

  lemma {:induction false} InjectionBounds(hs: seq<Head>, owner: map<Head, ReplicaId>, ids: set<ReplicaId>)
    requires forall h :: h in hs ==> h in owner && owner[h] in ids
    requires forall i, j :: 0 <= i < j < |hs| ==> owner[hs[i]] != owner[hs[j]]
    ensures |hs| <= |ids|
  {
    if hs != [] {
      var front, last := hs[..|hs| - 1], hs[|hs| - 1];
      assert last in hs;
      forall h | h in front
        ensures h in owner && owner[h] in ids - {owner[last]}
      {
        var i :| 0 <= i < |front| && front[i] == h;
        assert hs[i] == h && h in hs;
      }
      InjectionBounds(front, owner, ids - {owner[last]});
    }
  }

  lemma TwoPositions(hs: seq<Head>, i: nat, j: nat)
    requires i < j < |hs| && hs[i] == hs[j]
    ensures multiset(hs)[hs[i]] >= 2
  {
    assert hs == hs[..j] + hs[j..];
    assert hs[..j][i] == hs[i] && hs[j..][0] == hs[i];
    assert hs[i] in multiset(hs[..j]) && hs[i] in multiset(hs[j..]);
  }

  lemma AntichainPositions(hs: seq<Head>, i: nat, j: nat)
    requires Antichain(hs) && i < j < |hs|
    ensures CompareSpec(hs[i].version, hs[j].version) == Concurrent
  {
    assert hs[i] in hs && hs[j] in hs;
    if hs[i] == hs[j] {
      TwoPositions(hs, i, j);
    }
  }

  /** No entry of an N-replica run ever holds more than N heads. */
  lemma HeadBound(ids: set<ReplicaId>, steps: seq<Step>, r: ReplicaId, p: RelPath)
    requires r in ids
    ensures |HeadsAt(Reached(ids, steps).engines[r].index, p)| <= |ids|
  {
    hide Reached, ClocksAreCausal, ClocksIdentify, RecordsInv, SnapshotsInv, SeenInv, OwnCounterLeads, KeySorted,
      Antichain, CompareSpec;
    var sys := Reached(ids, steps);
    ReachedInv(ids, steps);
    assert EngineInv(sys.engines[r], r, sys.net);
    var hs := HeadsAt(sys.engines[r].index, p);
    ValidHeadsAt(sys.engines[r].index, p);
    var owner := map h | h in hs :: sys.author[ChangeOf(p, h)];
    forall i, j | 0 <= i < j < |hs|
      ensures owner[hs[i]] != owner[hs[j]]
    {
      AntichainPositions(hs, i, j);
      var m, x := ChangeOf(p, hs[i]), ChangeOf(p, hs[j]);
      assert m in sys.net && x in sys.net;
      if sys.author[m] == sys.author[x] {
        AuthorsVersionsAreOrdered(ids, steps, m, x);
      }
    }
    InjectionBounds(hs, owner, ids);
  }

  /** History completeness: for every head a replica holds it has recorded a version of the same
      path with the same content, although absorbing known content records nothing. */
  lemma HistoryIsComplete(ids: set<ReplicaId>, steps: seq<Step>, r: ReplicaId, p: RelPath, h: Head)
    requires r in ids
    requires h in HeadsAt(Reached(ids, steps).engines[r].index, p)
    ensures exists state :: (r, p, state) in Reached(ids, steps).recorded
                            && state.Present? == h.state.Present?
                            && (state.Present? ==> state.sig.hash == h.state.sig.hash && state.sig.exec == h.state.sig.exec)
  {
    hide Reached, NetInv, EnginesInv, SnapshotsInv, SeenInv;
    var sys := Reached(ids, steps);
    ReachedInv(ids, steps);
    assert RecordInv(sys.engines[r], r, sys.recorded);
    assert HasRecord(sys.recorded, r, p, h.state);
    var state :| (r, p, state) in sys.recorded && SameContent(state, h.state);
  }

  // ---- Entries only grow ----

  lemma StepOnlyGrows(sys: System, step: Step, r: ReplicaId, p: RelPath)
    requires Inv(sys) && r in sys.engines
    ensures CoversAll(HeadsAt(Next(sys, step).engines[r].index, p), Elems(HeadsAt(sys.engines[r].index, p)))
  {
    hide NetInv, RecordsInv, SeenInv, HandleLocal, AbsorbRemote, Reconcile, LocalCollapse, Covers, OwnCounterLeads,
      Sends, Records, Grown, ValidIndex;
    NothingGrows(HeadsAt(sys.engines[r].index, p), p, sys.net);
    GrownCovers(HeadsAt(sys.engines[r].index, p), HeadsAt(sys.engines[r].index, p), p, sys.net);
    if step.at == r {
      var e := sys.engines[r];
      assert EngineInv(e, r, sys.net);
      match step
      case LocalEvent(_, change) =>
        LocalOnlyGrows(e, change, p);
      case Deliver(_, m) =>
        if m in sys.net {
          DeliverGrows(e, m, sys.net);
          GrownCovers(HeadsAt(e.index, p), HeadsAt(Handle(e, Remote(m)).state.index, p), p, sys.net);
        }
      case TakeSnapshot(_) =>
      case Exchange(_, index) =>
        if index in sys.snapshots {
          ExchangeGrows(e, index, sys.net);
          GrownCovers(HeadsAt(e.index, p), HeadsAt(Handle(e, PeerIndex(index)).state.index, p), p, sys.net);
        }
      case Restart(_) =>
    }
  }

  lemma GrownCovers(earlier: seq<Head>, later: seq<Head>, p: RelPath, net: set<RemoteChange>)
    requires Grown(earlier, later, p, net)
    ensures CoversAll(later, Elems(earlier))
  {
  }

  lemma LocalOnlyGrows(e: EngineState, change: LocalChange, p: RelPath)
    ensures CoversAll(HeadsAt(HandleLocal(e, change).state.index, p), Elems(HeadsAt(e.index, p)))
  {
    hide HandleLocal, LocalCollapse, Mints;
    var state := StateFromKind(change.kind);
    LocalCases(e, change);
    assert e == e.(echo := e.echo);
    var h := CollapseMints(e, e.echo, change.path, state);
    forall x | x in Elems(HeadsAt(e.index, p))
      ensures Covers(HeadsAt(HandleLocal(e, change).state.index, p), x.version)
    {
      if p == change.path && HandleLocal(e, change) == LocalCollapse(e, change.path, state) {
        MintDominatesHeads(e, p, h, x);
        CoversBy([h], h, x.version);
      } else {
        CoversBy(HeadsAt(e.index, p), x, x.version);
      }
    }
  }

  /** In every later state a replica still covers every version it ever covered. */
  lemma {:induction false} CoverIsForever(sys: System, steps: seq<Step>, r: ReplicaId, p: RelPath, version: Clock)
    requires Inv(sys) && r in sys.engines && Covers(HeadsAt(sys.engines[r].index, p), version)
    ensures Covers(HeadsAt(Run(sys, steps).engines[r].index, p), version)
  {
    hide Inv, Next, Covers;
    if steps != [] {
      var mid := Run(sys, steps[..|steps| - 1]);
      CoverIsForever(sys, steps[..|steps| - 1], r, p, version);
      RunInv(sys, steps[..|steps| - 1]);
      StepKeepsInv(mid, steps[|steps| - 1]);
      StepOnlyGrows(mid, steps[|steps| - 1], r, p);
      CoverSurvives(HeadsAt(mid.engines[r].index, p),
                    HeadsAt(Next(mid, steps[|steps| - 1]).engines[r].index, p), version);
    }
  }
}
