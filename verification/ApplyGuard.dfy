/** The guard in front of a peer's change: what disk holds and the engine has not been told is
    made a head before the change is absorbed, so it cannot be lost. */
module ApplyGuard {
  import opened Clocks
  import opened Paths
  import opened Versions
  import opened Entries
  import opened Joins
  import opened EngineSpec
  import opened Network
  import opened Convergence
  import opened Disk
  import EngineFacts

  predicate NeedsLocalReconcile(disk: Expectation, prior: Expectation, diskIsEcho: bool) {
    !SameExpectation(disk, prior) && !diskIsEcho
  }

  function ObservedKind(disk: Expectation): ChangeKind {
    match disk
    case FilePresent(sig) => Modified(sig)
    case FileAbsent => Removed
  }

  ghost predicate Guarded(e: EngineState, p: RelPath, disk: Expectation) {
    NeedsLocalReconcile(disk, Believed(e.index, p), Expected(e.echo, p, disk))
  }

  /** The engine after the guard, before the peer's change. */
  ghost function Reconciled(e: EngineState, p: RelPath, disk: Expectation): Transition {
    if Guarded(e, p, disk) then Handle(e, Local(LocalChange(p, ObservedKind(disk)))) else Transition(e, [])
  }

  ghost function GuardedApply(e: EngineState, disk: Expectation, m: RemoteChange): EngineState {
    Handle(Reconciled(e, m.path, disk).state, Remote(m)).state
  }

  /** When the guard fires, the observed state becomes the single head of the path and is both
      shipped and recorded. */
  lemma GuardMintsObservedState(e: EngineState, p: RelPath, disk: Expectation) returns (h: Head)
    requires !SameExpectation(disk, Believed(e.index, p)) && !Expected(e.echo, p, disk)
    ensures Mints(e, p, h) && h.state == StateFromKind(ObservedKind(disk))
    ensures Reconciled(e, p, disk) ==
              Transition(EngineState(e.replica, e.index[p := [h]], e.echo),
                         [Send(ChangeOf(p, h)), RecordVersion(p, h.state, h.version)])
  {
    hide Winner, Merged, LocalCollapse, Mints;
    assert e == e.(echo := e.echo);
    h := CollapseMints(e, e.echo, p, StateFromKind(ObservedKind(disk)));
  }

  /** When disk shows what is believed, or an outstanding echo, the guard does nothing. */
  lemma GuardLeavesKnownDiskAlone(e: EngineState, p: RelPath, disk: Expectation)
    requires SameExpectation(disk, Believed(e.index, p)) || Expected(e.echo, p, disk)
    ensures Reconciled(e, p, disk) == Transition(e, [])
  {
    hide Believed, Expected, Handle;
  }

  /** A peer's change was stamped before the fresh tick, so it cannot dominate it. */
  lemma PeerCannotDominateFreshTick(e: EngineState, r: ReplicaId, p: RelPath, h: Head, net: set<RemoteChange>, m: RemoteChange)
    requires EngineInv(e, r, net) && Mints(e, p, h) && m in net && m.path == p
    ensures !Leq(h.version, m.version)
  {
    MintIsFresh(e, p, h, net, m);
  }

  /** Nothing is lost: in every reachable state, whatever change of the network arrives, if disk
      differs from the believed winner and is not an outstanding echo, the guarded apply leaves
      the observed state among the heads of the path. */
  lemma GuardedApplyLosesNothing(ids: set<ReplicaId>, steps: seq<Step>, r: ReplicaId, m: RemoteChange, disk: Expectation)
      returns (h: Head)
    requires r in ids && m in Reached(ids, steps).net
    requires !SameExpectation(disk, Believed(Reached(ids, steps).engines[r].index, m.path))
    requires !Expected(Reached(ids, steps).engines[r].echo, m.path, disk)
    ensures h in HeadsAt(GuardedApply(Reached(ids, steps).engines[r], disk, m).index, m.path)
    ensures h.state == StateFromKind(ObservedKind(disk))
    ensures RecordVersion(m.path, h.state, h.version) in Reconciled(Reached(ids, steps).engines[r], m.path, disk).actions
  {
    hide Reached, Reconciled, Believed, Expected, Mints, AbsorbRemote, AbsorbHeads, Covers, NetInv, RecordsInv, SnapshotsInv,
      SeenInv, ValidIndex, Shipped, OwnCounterLeads;
    var sys := Reached(ids, steps);
    var e := sys.engines[r];
    ReachedInv(ids, steps);
    assert EngineInv(e, r, sys.net);
    h := GuardMintsObservedState(e, m.path, disk);
    var t := Reconciled(e, m.path, disk);
    assert t.actions[1] in t.actions;
    PeerCannotDominateFreshTick(e, r, m.path, h, sys.net, m);
    EngineFacts.AbsorbRemoteEffect(t.state, m.path, HeadOf(m));
    FreshHeadSurvives(h, HeadOf(m));
  }

  lemma FreshHeadSurvives(h: Head, x: Head)
    requires !Leq(h.version, x.version)
    ensures h in AbsorbHeads([h], x)
  {
    hide Retained;
    assert [h][0] == h;
    if !Covers([h], x.version) {
      AbsorbMembers([h], x);
    }
  }

  /** Without the guard the observed state can vanish: a change that fast-forwards the path
      leaves itself as the only head. */
  lemma BlindApplyKeepsOnlyTheChange(e: EngineState, p: RelPath, known: Head, m: RemoteChange)
    requires HeadsAt(e.index, p) == [known] && m.path == p
    requires Leq(known.version, m.version) && !Leq(m.version, known.version)
    ensures HeadsAt(Handle(e, Remote(m)).state.index, p) == [HeadOf(m)]
  {
    hide AbsorbRemote, AbsorbHeads;
    EngineFacts.AbsorbRemoteEffect(e, p, HeadOf(m));
    var after := AbsorbHeads([known], HeadOf(m));
    assert !Covers([known], m.version);
    AbsorbMembers([known], HeadOf(m));
    CompareIsThePartialOrder(known.version, m.version);
    assert [known][..0] == [];
    assert Retained([known], m.version) == [];
    assert multiset(after) == multiset{HeadOf(m)};
    assert |after| == |multiset(after)| == 1;
    assert after[0] in multiset(after);
  }
}
