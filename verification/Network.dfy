/** N replicas over an unreliable network, as a transition system.

    The network is the set of every change ever shipped: a change may be delivered to any replica
    at any time and any number of times, so reordering, duplication and loss are all runs of it.
    Index snapshots taken at any moment may be handed to any replica later. `author`, `seen` and
    `recorded` are history variables. */
module Network {
  import opened Clocks
  import opened Paths
  import opened Versions
  import opened Entries
  import opened Joins
  import opened EngineSpec
  import opened EngineFacts

  /** A change that reached a replica, and a history row a replica recorded. */
  type Sighting = (ReplicaId, RemoteChange)
  type Row = (ReplicaId, RelPath, EntryState)

  datatype System = System(
    engines: map<ReplicaId, EngineState>,
    net: set<RemoteChange>,
    author: map<RemoteChange, ReplicaId>,
    snapshots: set<Index>,
    seen: set<Sighting>,
    recorded: set<Row>)

  datatype Step =
    | LocalEvent(at: ReplicaId, change: LocalChange)
    | Deliver(at: ReplicaId, message: RemoteChange)
    | TakeSnapshot(at: ReplicaId)
    | Exchange(at: ReplicaId, snapshot: Index)
    | Restart(at: ReplicaId)

  ghost function Init(ids: set<ReplicaId>): System {
    System(map r | r in ids :: EngineState(r, map[], map[]), {}, map[], {}, {}, {})
  }

  ghost function Records(r: ReplicaId, actions: seq<Action>): set<Row> {
    set a | a in actions && a.RecordVersion? :: (r, a.path, a.state)
  }

  /** The changes of the network whose version is a head of `index`. */
  ghost function Conveyed(net: set<RemoteChange>, index: Index): set<RemoteChange> {
    set m | m in net && HeadOf(m) in HeadsAt(index, m.path)
  }

  ghost function Tagged(r: ReplicaId, messages: set<RemoteChange>): set<Sighting> {
    set m | m in messages :: (r, m)
  }

  ghost function Signed(sent: set<RemoteChange>, r: ReplicaId): map<RemoteChange, ReplicaId> {
    map m | m in sent :: r
  }

  /** Replica `r` made transition `t`, which conveyed `received` to it. */
  ghost function Commit(sys: System, r: ReplicaId, t: Transition, received: set<RemoteChange>): System {
    var sent := Sends(t.actions);
    sys.(engines := sys.engines[r := t.state],
         net := sys.net + sent,
         author := Signed(sent, r) + sys.author,
         seen := sys.seen + Tagged(r, sent + received),
         recorded := sys.recorded + Records(r, t.actions))
  }

  /** A step that is not enabled changes nothing. */
  ghost function Next(sys: System, step: Step): (after: System)
    ensures after.engines.Keys == sys.engines.Keys
  {
    if step.at !in sys.engines then sys
    else
      var r, e := step.at, sys.engines[step.at];
      match step
      case LocalEvent(_, change) => Commit(sys, r, Handle(e, Local(change)), {})
      case Deliver(_, m) => if m in sys.net then Commit(sys, r, Handle(e, Remote(m)), {m}) else sys
      case TakeSnapshot(_) => sys.(snapshots := sys.snapshots + {e.index})
      case Exchange(_, index) =>
        if index in sys.snapshots then Commit(sys, r, Handle(e, PeerIndex(index)), Conveyed(sys.net, index)) else sys
      case Restart(_) => sys.(engines := sys.engines[r := EngineState(r, e.index, map[])])
  }

  ghost function Run(sys: System, steps: seq<Step>): (after: System)
    ensures after.engines.Keys == sys.engines.Keys
  {
    if steps == [] then sys else Next(Run(sys, steps[..|steps| - 1]), steps[|steps| - 1])
  }

  // ---- The invariant ----

  ghost predicate ValidIndex(index: Index) {
    forall p :: p in index ==> ValidEntry(index[p])
  }

  /** Every head was shipped as a change. */
  ghost predicate Shipped(index: Index, net: set<RemoteChange>) {
    forall p, h :: h in HeadsAt(index, p) ==> ChangeOf(p, h) in net
  }

  /** A replica's own counter at a path is at least its counter in any clock of that path. */
  ghost predicate OwnCounterLeads(e: EngineState, net: set<RemoteChange>) {
    forall m :: m in net ==> Get(m.version, e.replica) <= Get(Merged(HeadsAt(e.index, m.path)), e.replica)
  }

  ghost predicate EngineInv(e: EngineState, r: ReplicaId, net: set<RemoteChange>) {
    e.replica == r && ValidIndex(e.index) && Shipped(e.index, net) && OwnCounterLeads(e, net)
  }

  /** Clocks characterise causality: `x` has seen `m` as soon as it has seen its author's tick. */
  ghost predicate ClocksAreCausal(net: set<RemoteChange>, author: map<RemoteChange, ReplicaId>)
    requires net <= author.Keys
  {
    forall m, x :: m in net && x in net && m.path == x.path && Get(m.version, author[m]) <= Get(x.version, author[m])
                   ==> Leq(m.version, x.version)
  }

  ghost predicate ClocksIdentify(net: set<RemoteChange>) {
    forall m, x :: m in net && x in net && m.path == x.path && m.version == x.version ==> m == x
  }

  ghost predicate NetInv(net: set<RemoteChange>, author: map<RemoteChange, ReplicaId>, ids: set<ReplicaId>) {
    && net == author.Keys
    && (forall m :: m in net ==> author[m] in ids && Get(m.version, author[m]) > 0 && m.version.Keys <= ids)
    && ClocksIdentify(net)
    && ClocksAreCausal(net, author)
  }

  ghost predicate EnginesInv(engines: map<ReplicaId, EngineState>, net: set<RemoteChange>) {
    forall r :: r in engines ==> EngineInv(engines[r], r, net)
  }

  ghost predicate SnapshotsInv(snapshots: set<Index>, net: set<RemoteChange>) {
    forall index :: index in snapshots ==> Shipped(index, net)
  }

  /** What reached a replica is covered by its heads for good. */
  ghost predicate SeenInv(engines: map<ReplicaId, EngineState>, net: set<RemoteChange>, seen: set<Sighting>) {
    forall r, m :: (r, m) in seen ==>
      r in engines && m in net && Covers(HeadsAt(engines[r].index, m.path), m.version)
  }

  ghost predicate HasRecord(recorded: set<Row>, r: ReplicaId, p: RelPath, state: EntryState) {
    exists kept :: (r, p, kept) in recorded && SameContent(kept, state)
  }

  /** History completeness: every head's content was recorded at its replica. */
  ghost predicate RecordInv(e: EngineState, r: ReplicaId, recorded: set<Row>) {
    forall p, h :: h in HeadsAt(e.index, p) ==> HasRecord(recorded, r, p, h.state)
  }

  ghost predicate RecordsInv(engines: map<ReplicaId, EngineState>, recorded: set<Row>) {
    forall r :: r in engines ==> RecordInv(engines[r], r, recorded)
  }

  ghost predicate Inv(sys: System) {
    && NetInv(sys.net, sys.author, sys.engines.Keys)
    && EnginesInv(sys.engines, sys.net)
    && SnapshotsInv(sys.snapshots, sys.net)
    && SeenInv(sys.engines, sys.net, sys.seen)
    && RecordsInv(sys.engines, sys.recorded)
  }

  lemma InitInv(ids: set<ReplicaId>)
    ensures Inv(Init(ids))
  {
  }

  // ---- Growth ----

  /** `later` has absorbed shipped versions on top of `earlier` and nothing else. */
  ghost predicate Grown(earlier: seq<Head>, later: seq<Head>, p: RelPath, net: set<RemoteChange>) {
    && CoversAll(later, Elems(earlier))
    && (forall h :: h in later ==> h in earlier || ChangeOf(p, h) in net)
  }

  lemma MergedGrows(earlier: seq<Head>, later: seq<Head>)
    requires CoversAll(later, Elems(earlier))
    ensures Leq(Merged(earlier), Merged(later))
  {
    forall r: ReplicaId
      ensures Get(Merged(earlier), r) <= Get(Merged(later), r)
    {
      if Get(Merged(earlier), r) > 0 {
        var x := MergedAttained(earlier, r);
        assert x in Elems(earlier);
        var i :| 0 <= i < |later| && Leq(x.version, later[i].version);
        MergedBounds(later);
        LeqTransitive(x.version, later[i].version, Merged(later));
      }
    }
  }

  lemma CoverSurvives(earlier: seq<Head>, later: seq<Head>, version: Clock)
    requires CoversAll(later, Elems(earlier)) && Covers(earlier, version)
    ensures Covers(later, version)
  {
    CoversTransitive(later, Elems(earlier), earlier, version);
  }

  /** Absorbing shipped versions keeps a replica's invariant. */
  lemma AbsorbingKeepsEngineInv(e: EngineState, e': EngineState, r: ReplicaId, net: set<RemoteChange>)
    requires EngineInv(e, r, net) && e'.replica == r && ValidIndex(e'.index)
    requires forall p :: Grown(HeadsAt(e.index, p), HeadsAt(e'.index, p), p, net)
    ensures EngineInv(e', r, net)
  {
    forall p, h | h in HeadsAt(e'.index, p)
      ensures ChangeOf(p, h) in net
    {
      assert Grown(HeadsAt(e.index, p), HeadsAt(e'.index, p), p, net);
    }
    forall m | m in net
      ensures Get(m.version, r) <= Get(Merged(HeadsAt(e'.index, m.path)), r)
    {
      var earlier, later := HeadsAt(e.index, m.path), HeadsAt(e'.index, m.path);
      assert Grown(earlier, later, m.path, net);
      MergedGrows(earlier, later);
      assert Get(m.version, r) <= Get(Merged(earlier), r) <= Get(Merged(later), r);
    }
  }

  lemma ValidHeadsAt(index: Index, p: RelPath)
    requires ValidIndex(index)
    ensures Antichain(HeadsAt(index, p)) && KeySorted(HeadsAt(index, p))
  {
  }

  lemma FoldGrows(hs: seq<Head>, versions: seq<Head>, p: RelPath, net: set<RemoteChange>)
    requires forall h :: h in versions ==> ChangeOf(p, h) in net
    ensures Grown(hs, AbsorbAll(hs, versions), p, net)
  {
    FoldCovers(hs, versions);
    forall h | h in AbsorbAll(hs, versions)
      ensures h in hs || ChangeOf(p, h) in net
    {
      assert h in Elems(AbsorbAll(hs, versions));
    }
  }

  lemma NothingGrows(hs: seq<Head>, p: RelPath, net: set<RemoteChange>)
    ensures Grown(hs, hs, p, net)
  {
    forall x | x in Elems(hs)
      ensures Covers(hs, x.version)
    {
      CoversBy(hs, x, x.version);
    }
  }

  lemma AbsorbOneGrows(hs: seq<Head>, h: Head, p: RelPath, net: set<RemoteChange>)
    requires Antichain(hs) && KeySorted(hs) && ChangeOf(p, h) in net
    ensures Grown(hs, AbsorbHeads(hs, h), p, net)
    ensures ValidEntry(AbsorbHeads(hs, h)) && Covers(AbsorbHeads(hs, h), h.version)
  {
    hide AbsorbHeads, Antichain, KeySorted;
    AbsorbKeepsValid(hs, h);
    AbsorbCovers(hs, h);
    forall x | x in AbsorbHeads(hs, h)
      ensures x in hs || ChangeOf(p, x) in net
    {
      assert x in Elems(AbsorbHeads(hs, h));
    }
  }

  /** What a peer's change does to one engine. */
  lemma DeliverGrows(e: EngineState, m: RemoteChange, net: set<RemoteChange>)
    requires ValidIndex(e.index) && m in net
    ensures Handle(e, Remote(m)).state.replica == e.replica
    ensures ValidIndex(Handle(e, Remote(m)).state.index)
    ensures forall p :: Grown(HeadsAt(e.index, p), HeadsAt(Handle(e, Remote(m)).state.index, p), p, net)
    ensures Covers(HeadsAt(Handle(e, Remote(m)).state.index, m.path), m.version)
    ensures Sends(Handle(e, Remote(m)).actions) == {}
  {
    hide Grown, AbsorbHeads, AbsorbRemote;
    AbsorbRemoteEffect(e, m.path, HeadOf(m));
    ValidHeadsAt(e.index, m.path);
    ChangeRoundTrip(m.path, HeadOf(m), m);
    AbsorbOneGrows(HeadsAt(e.index, m.path), HeadOf(m), m.path, net);
    forall p | p != m.path
      ensures Grown(HeadsAt(e.index, p), HeadsAt(e.index, p), p, net)
    {
      NothingGrows(HeadsAt(e.index, p), p, net);
    }
  }

  /** What a peer's index snapshot does to one engine. */
  lemma ExchangeGrows(e: EngineState, index: Index, net: set<RemoteChange>)
    requires ValidIndex(e.index) && Shipped(index, net) && Shipped(e.index, net)
    ensures Handle(e, PeerIndex(index)).state.replica == e.replica
    ensures ValidIndex(Handle(e, PeerIndex(index)).state.index)
    ensures forall p :: Grown(HeadsAt(e.index, p), HeadsAt(Handle(e, PeerIndex(index)).state.index, p), p, net)
    ensures forall p :: CoversAll(HeadsAt(Handle(e, PeerIndex(index)).state.index, p), Elems(HeadsAt(index, p)))
    ensures Sends(Handle(e, PeerIndex(index)).actions) <= net
  {
    var t := Handle(e, PeerIndex(index));
    PeerIndexEffect(e, index);
    forall p
      ensures Grown(HeadsAt(e.index, p), HeadsAt(t.state.index, p), p, net)
      ensures Antichain(HeadsAt(t.state.index, p)) && KeySorted(HeadsAt(t.state.index, p))
      ensures CoversAll(HeadsAt(t.state.index, p), Elems(HeadsAt(index, p)))
    {
      ValidHeadsAt(e.index, p);
      FoldKeepsValid(HeadsAt(e.index, p), HeadsAt(index, p));
      FoldGrows(HeadsAt(e.index, p), HeadsAt(index, p), p, net);
      FoldCovers(HeadsAt(e.index, p), HeadsAt(index, p));
    }
    forall p | p in t.state.index
      ensures ValidEntry(t.state.index[p])
    {
      assert t.state.index[p] == HeadsAt(t.state.index, p);
    }
    forall m | m in Sends(t.actions)
      ensures m in net
    {
      assert HeadOf(m) in HeadsAt(t.state.index, m.path);
      assert Grown(HeadsAt(e.index, m.path), HeadsAt(t.state.index, m.path), m.path, net);
      ChangeRoundTrip(m.path, HeadOf(m), m);
    }
  }

  // ---- Recording ----

  lemma RecordsConcat(r: ReplicaId, a: seq<Action>, b: seq<Action>)
    ensures Records(r, a + b) == Records(r, a) + Records(r, b)
  {
  }

  lemma SameContentTransitive(a: EntryState, b: EntryState, c: EntryState)
    requires SameContent(a, b) && SameContent(b, c)
    ensures SameContent(a, c)
  {
  }

  /** A version absorbed silently is one whose content was recorded before. */
  lemma AbsorbRecords(e: EngineState, r: ReplicaId, p: RelPath, h: Head,
                      recorded: set<Row>)
    requires RecordInv(e, r, recorded)
    ensures RecordInv(AbsorbRemote(e, p, h).state, r, recorded + Records(r, AbsorbRemote(e, p, h).actions))
  {
    hide AbsorbRemote, AbsorbHeads, Covers, Records, SameContent;
    var t := AbsorbRemote(e, p, h);
    var now := recorded + Records(r, t.actions);
    AbsorbRemoteEffect(e, p, h);
    AbsorbCovers(HeadsAt(e.index, p), h);
    CoveredStays(HeadsAt(e.index, p), h);
    forall q, x | x in HeadsAt(t.state.index, q)
      ensures HasRecord(now, r, q, x.state)
    {
      if x in HeadsAt(e.index, q) {
        assert HasRecord(recorded, r, q, x.state);
        var kept :| (r, q, kept) in recorded && SameContent(kept, x.state);
        assert (r, q, kept) in now;
      } else {
        assert q == p && x in Elems(AbsorbHeads(HeadsAt(e.index, p), h));
        NewHeadRecorded(e, r, p, h, recorded);
      }
    }
  }

  lemma CoveredStays(hs: seq<Head>, h: Head)
    ensures Covers(hs, h.version) ==> AbsorbHeads(hs, h) == hs
  {
    hide Covers;
  }

  lemma NewHeadRecorded(e: EngineState, r: ReplicaId, p: RelPath, h: Head,
                        recorded: set<Row>)
    requires RecordInv(e, r, recorded)
    requires !Covers(HeadsAt(e.index, p), h.version)
    ensures HasRecord(recorded + Records(r, AbsorbRemote(e, p, h).actions), r, p, h.state)
  {
    var t := AbsorbRemote(e, p, h);
    var before := HeadsAt(e.index, p);
    if i :| 0 <= i < |before| && SameContent(before[i].state, h.state) {
      assert before[i] in HeadsAt(e.index, p);
      var kept :| (r, p, kept) in recorded && SameContent(kept, before[i].state);
      SameContentTransitive(kept, before[i].state, h.state);
      assert (r, p, kept) in recorded + Records(r, t.actions);
    } else {
      assert t.actions[|t.actions| - 1] == RecordVersion(p, h.state, h.version);
      assert (r, p, h.state) in Records(r, t.actions);
    }
  }

  lemma {:induction false} AbsorbEachRecords(e: EngineState, r: ReplicaId, p: RelPath, heads: seq<Head>,
                                             recorded: set<Row>)
    requires RecordInv(e, r, recorded)
    ensures RecordInv(AbsorbEach(e, p, heads).state, r, recorded + Records(r, AbsorbEach(e, p, heads).actions))
  {
    if heads != [] {
      var a := AbsorbEach(e, p, heads[..|heads| - 1]);
      var last := heads[|heads| - 1];
      AbsorbEachRecords(e, r, p, heads[..|heads| - 1], recorded);
      AbsorbRecords(a.state, r, p, last, recorded + Records(r, a.actions));
      var b := AbsorbRemote(a.state, p, last);
      RecordsConcat(r, a.actions, b.actions);
      assert recorded + Records(r, a.actions) + Records(r, b.actions) == recorded + Records(r, a.actions + b.actions);
    }
  }

  lemma MoreRecords(e: EngineState, r: ReplicaId, few: set<Row>,
                    many: set<Row>)
    requires RecordInv(e, r, few) && few <= many
    ensures RecordInv(e, r, many)
  {
    forall p, h | h in HeadsAt(e.index, p)
      ensures HasRecord(many, r, p, h.state)
    {
      assert HasRecord(few, r, p, h.state);
      var kept :| (r, p, kept) in few && SameContent(kept, h.state);
      assert (r, p, kept) in many;
    }
  }

  lemma {:induction false} ReconcileRecords(e: EngineState, r: ReplicaId, remote: Index, todo: set<RelPath>,
                                            recorded: set<Row>)
    requires RecordInv(e, r, recorded)
    ensures RecordInv(Reconcile(e, remote, todo).state, r, recorded + Records(r, Reconcile(e, remote, todo).actions))
    decreases |todo|
  {
    hide RecordInv, Records, AbsorbEach, UncoveredSends, FirstPath;
    if todo == {} {
      MoreRecords(e, r, recorded, recorded + Records(r, []));
    } else {
      var p := FirstPath(todo);
      var each := AbsorbEach(e, p, HeadsAt(remote, p));
      var a := ReconcilePath(e, remote, p);
      var b := Reconcile(a.state, remote, todo - {p});
      AbsorbEachRecords(e, r, p, HeadsAt(remote, p), recorded);
      RecordsConcat(r, each.actions, UncoveredSends(p, HeadsAt(a.state.index, p), HeadsAt(remote, p)));
      MoreRecords(a.state, r, recorded + Records(r, each.actions), recorded + Records(r, a.actions));
      ReconcileRecords(a.state, r, remote, todo - {p}, recorded + Records(r, a.actions));
      RecordsConcat(r, a.actions, b.actions);
      assert recorded + Records(r, a.actions) + Records(r, b.actions) == recorded + Records(r, a.actions + b.actions);
    }
  }

  lemma MoreRecordsForAll(engines: map<ReplicaId, EngineState>, r: ReplicaId, e: EngineState, few: set<Row>, many: set<Row>)
    requires RecordsInv(engines, few) && few <= many && RecordInv(e, r, many)
    ensures RecordsInv(engines[r := e], many)
  {
    forall q | q in engines
      ensures RecordInv(engines[q], q, many)
    {
      MoreRecords(engines[q], q, few, many);
    }
  }

  // ---- Absorbing steps keep the invariant ----

  /** `later` is what absorbing shipped versions makes of `earlier`. */
  ghost predicate GrownEngine(earlier: EngineState, later: EngineState, net: set<RemoteChange>) {
    && later.replica == earlier.replica && ValidIndex(later.index)
    && forall p :: Grown(HeadsAt(earlier.index, p), HeadsAt(later.index, p), p, net)
  }

  ghost predicate CoveredBy(e: EngineState, messages: set<RemoteChange>) {
    forall m :: m in messages ==> Covers(HeadsAt(e.index, m.path), m.version)
  }

  lemma AbsorbedEngines(engines: map<ReplicaId, EngineState>, r: ReplicaId, e: EngineState, net: set<RemoteChange>)
    requires EnginesInv(engines, net) && r in engines && GrownEngine(engines[r], e, net)
    ensures EnginesInv(engines[r := e], net)
  {
    AbsorbingKeepsEngineInv(engines[r], e, r, net);
  }

  lemma AbsorbedSeen(engines: map<ReplicaId, EngineState>, r: ReplicaId, e: EngineState, net: set<RemoteChange>,
                     seen: set<Sighting>, received: set<RemoteChange>)
    requires SeenInv(engines, net, seen) && r in engines && GrownEngine(engines[r], e, net)
    requires received <= net && CoveredBy(e, received)
    ensures SeenInv(engines[r := e], net, seen + Tagged(r, received))
  {
    forall q, m | (q, m) in seen + Tagged(r, received)
      ensures q in engines && m in net && Covers(HeadsAt(engines[r := e][q].index, m.path), m.version)
    {
      if (q, m) in seen && q == r {
        assert Grown(HeadsAt(engines[r].index, m.path), HeadsAt(e.index, m.path), m.path, net);
        CoverSurvives(HeadsAt(engines[r].index, m.path), HeadsAt(e.index, m.path), m.version);
      }
    }
  }

  /** Shipping only what was shipped before adds nothing to the network. */
  lemma AuthorsAreSenders(sys: System)
    requires Inv(sys)
    ensures sys.author.Keys == sys.net
  {
  }

  lemma QuietNet(sys: System, r: ReplicaId, t: Transition, received: set<RemoteChange>)
    requires Sends(t.actions) <= sys.net == sys.author.Keys
    ensures Commit(sys, r, t, received).net == sys.net
    ensures Commit(sys, r, t, received).author == sys.author
  {
  }

  lemma AbsorbingKeepsInv(sys: System, r: ReplicaId, t: Transition, received: set<RemoteChange>)
    requires Inv(sys) && r in sys.engines && GrownEngine(sys.engines[r], t.state, sys.net)
    requires Sends(t.actions) + received <= sys.net && CoveredBy(t.state, Sends(t.actions) + received)
    requires RecordInv(t.state, r, sys.recorded + Records(r, t.actions))
    ensures Inv(Commit(sys, r, t, received))
  {
    hide EnginesInv, SeenInv, RecordsInv, SnapshotsInv, NetInv, GrownEngine, CoveredBy, RecordInv, Sends, Records;
    AuthorsAreSenders(sys);
    QuietNet(sys, r, t, received);
    assert sys.engines[r := t.state].Keys == sys.engines.Keys;
    AbsorbedEngines(sys.engines, r, t.state, sys.net);
    AbsorbedSeen(sys.engines, r, t.state, sys.net, sys.seen, Sends(t.actions) + received);
    MoreRecordsForAll(sys.engines, r, t.state, sys.recorded, sys.recorded + Records(r, t.actions));
  }

  lemma DeliverKeepsInv(sys: System, r: ReplicaId, m: RemoteChange)
    requires Inv(sys) && r in sys.engines && m in sys.net
    ensures Inv(Next(sys, Deliver(r, m)))
  {
    hide AbsorbRemote, Commit, Grown, Covers, Shipped, OwnCounterLeads, NetInv, RecordInv, ValidIndex;
    var e := sys.engines[r];
    var t := Handle(e, Remote(m));
    assert EngineInv(e, r, sys.net);
    DeliverGrows(e, m, sys.net);
    AbsorbRecords(e, r, m.path, HeadOf(m), sys.recorded);
    assert {} + {m} == {m};
    AbsorbingKeepsInv(sys, r, t, {m});
  }

  lemma ExchangeKeepsInv(sys: System, r: ReplicaId, index: Index)
    requires Inv(sys) && r in sys.engines && index in sys.snapshots
    ensures Inv(Next(sys, Exchange(r, index)))
  {
    hide Reconcile, Commit, Grown, Covers, OwnCounterLeads, NetInv, RecordInv, ValidIndex;
    var e := sys.engines[r];
    var t := Handle(e, PeerIndex(index));
    assert EngineInv(e, r, sys.net);
    ExchangeGrows(e, index, sys.net);
    ReconcileRecords(e, r, index, e.index.Keys + index.Keys, sys.recorded);
    PeerIndexEffect(e, index);
    forall m | m in Sends(t.actions) + Conveyed(sys.net, index)
      ensures Covers(HeadsAt(t.state.index, m.path), m.version)
    {
      if m in Sends(t.actions) {
        CoversBy(HeadsAt(t.state.index, m.path), HeadOf(m), m.version);
      } else {
        assert CoversAll(HeadsAt(t.state.index, m.path), Elems(HeadsAt(index, m.path)));
        assert HeadOf(m) in Elems(HeadsAt(index, m.path));
      }
    }
    AbsorbingKeepsInv(sys, r, t, Conveyed(sys.net, index));
  }

  // ---- Minting a version ----

  /** `h` is the version a local event at `e` stamps: the path's merged clock, ticked. */
  ghost predicate Mints(e: EngineState, p: RelPath, h: Head) {
    h.version == Ticked(Merged(HeadsAt(e.index, p)), e.replica)
  }

  lemma MintDominatesHeads(e: EngineState, p: RelPath, h: Head, x: Head)
    requires Mints(e, p, h) && x in HeadsAt(e.index, p)
    ensures Leq(x.version, h.version)
  {
    var context := Merged(HeadsAt(e.index, p));
    MergedBounds(HeadsAt(e.index, p));
    TickStrictlyAdvances(context, e.replica);
    CompareIsThePartialOrder(context, h.version);
    LeqTransitive(x.version, context, h.version);
  }

  /** Any positive reading of the merged clock was read off a shipped version. */
  lemma MintReadsShipped(e: EngineState, p: RelPath, h: Head, q: ReplicaId, net: set<RemoteChange>)
      returns (c: RemoteChange)
    requires Shipped(e.index, net) && Mints(e, p, h) && Get(Merged(HeadsAt(e.index, p)), q) > 0
    ensures c in net && c.path == p && Leq(c.version, h.version)
    ensures Get(c.version, q) == Get(Merged(HeadsAt(e.index, p)), q)
  {
    var x := MergedAttained(HeadsAt(e.index, p), q);
    MintDominatesHeads(e, p, h, x);
    c := ChangeOf(p, x);
  }

  lemma MintKeepsOthers(e: EngineState, p: RelPath, h: Head, other: EngineState, q: ReplicaId, net: set<RemoteChange>)
    requires Shipped(e.index, net) && Mints(e, p, h) && e.replica != q
    requires EngineInv(other, q, net)
    ensures EngineInv(other, q, net + {ChangeOf(p, h)})
  {
    if Get(Merged(HeadsAt(e.index, p)), q) > 0 {
      var c := MintReadsShipped(e, p, h, q, net);
    }
    assert Get(h.version, q) <= Get(Merged(HeadsAt(other.index, p)), q);
  }

  lemma SingletonIsValid(h: Head)
    ensures ValidEntry([h])
  {
    assert multiset([h])[h] == 1;
  }

  lemma MintKeepsOwnCounter(e: EngineState, p: RelPath, h: Head, echo: Journal, net: set<RemoteChange>)
    requires OwnCounterLeads(e, net) && Mints(e, p, h)
    ensures OwnCounterLeads(EngineState(e.replica, e.index[p := [h]], echo), net + {ChangeOf(p, h)})
  {
    hide Merged;
    var r, index := e.replica, e.index[p := [h]];
    MergedSingle(h);
    assert HeadsAt(index, p) == [h];
    forall m | m in net + {ChangeOf(p, h)}
      ensures Get(m.version, r) <= Get(Merged(HeadsAt(index, m.path)), r)
    {
      if m.path != p {
        assert HeadsAt(index, m.path) == HeadsAt(e.index, m.path);
      }
    }
  }

  lemma MintKeepsShipped(index: Index, p: RelPath, h: Head, net: set<RemoteChange>)
    requires Shipped(index, net)
    ensures Shipped(index[p := [h]], net + {ChangeOf(p, h)})
  {
    forall q, x | x in HeadsAt(index[p := [h]], q)
      ensures ChangeOf(q, x) in net + {ChangeOf(p, h)}
    {
      assert q != p ==> x in HeadsAt(index, q);
    }
  }

  lemma MintKeepsOwner(e: EngineState, r: ReplicaId, p: RelPath, h: Head, echo: Journal, net: set<RemoteChange>)
    requires EngineInv(e, r, net) && Mints(e, p, h)
    ensures EngineInv(EngineState(r, e.index[p := [h]], echo), r, net + {ChangeOf(p, h)})
  {
    hide OwnCounterLeads, Shipped, ValidEntry;
    SingletonIsValid(h);
    MintKeepsOwnCounter(e, p, h, echo, net);
    MintKeepsShipped(e.index, p, h, net);
  }

  lemma MintedEngines(engines: map<ReplicaId, EngineState>, r: ReplicaId, p: RelPath, h: Head, echo: Journal,
                      net: set<RemoteChange>)
    requires EnginesInv(engines, net) && r in engines && Mints(engines[r], p, h)
    ensures EnginesInv(engines[r := EngineState(r, engines[r].index[p := [h]], echo)], net + {ChangeOf(p, h)})
  {
    hide Mints, Shipped, OwnCounterLeads, ValidIndex;
    var e := engines[r];
    assert EngineInv(e, r, net);
    MintKeepsOwner(e, r, p, h, echo, net);
    forall q | q in engines && q != r
      ensures EngineInv(engines[q], q, net + {ChangeOf(p, h)})
    {
      MintKeepsOthers(e, p, h, engines[q], q, net);
    }
  }

  /** The new version's own counter is larger than any the path has seen. */
  lemma MintIsFresh(e: EngineState, p: RelPath, h: Head, net: set<RemoteChange>, m: RemoteChange)
    requires OwnCounterLeads(e, net) && Mints(e, p, h) && m in net && m.path == p
    ensures Get(m.version, e.replica) < Get(h.version, e.replica)
  {
  }

  /** The new version dominates every shipped one whose author's tick it has seen. */
  lemma MintDominates(e: EngineState, r: ReplicaId, p: RelPath, h: Head, net: set<RemoteChange>,
                      author: map<RemoteChange, ReplicaId>, m: RemoteChange)
    requires EngineInv(e, r, net) && Mints(e, p, h) && net <= author.Keys && ClocksAreCausal(net, author)
    requires m in net && m.path == p && 0 < Get(m.version, author[m]) <= Get(h.version, author[m])
    ensures Leq(m.version, h.version)
  {
    var q := author[m];
    assert Get(m.version, q) <= Get(Merged(HeadsAt(e.index, p)), q);
    var c := MintReadsShipped(e, p, h, q, net);
    LeqTransitive(m.version, c.version, h.version);
  }

  lemma MintKeepsCausality(e: EngineState, r: ReplicaId, p: RelPath, h: Head, net: set<RemoteChange>,
                           author: map<RemoteChange, ReplicaId>, c: RemoteChange)
    requires EngineInv(e, r, net) && Mints(e, p, h) && c == ChangeOf(p, h)
    requires net <= author.Keys && ClocksAreCausal(net, author)
    requires forall m :: m in net ==> Get(m.version, author[m]) > 0
    requires c !in net
    ensures ClocksAreCausal(net + {c}, author[c := r])
  {
    hide Mints, Shipped, ValidIndex, OwnCounterLeads;
    var author' := author[c := r];
    forall m, x | m in net + {c} && x in net + {c} && m.path == x.path
                  && Get(m.version, author'[m]) <= Get(x.version, author'[m])
      ensures Leq(m.version, x.version)
    {
      if m != c && x == c {
        MintDominates(e, r, p, h, net, author, m);
      } else if m == c && x != c {
        MintIsFresh(e, p, h, net, x);
      }
    }
  }

  lemma MintSupport(e: EngineState, r: ReplicaId, p: RelPath, h: Head, net: set<RemoteChange>, ids: set<ReplicaId>)
    requires EngineInv(e, r, net) && Mints(e, p, h) && r in ids
    requires forall m :: m in net ==> m.version.Keys <= ids
    ensures h.version.Keys <= ids
  {
    forall q | q in h.version
      ensures q in ids
    {
      if q != r {
        assert Get(h.version, q) > 0;
        var c := MintReadsShipped(e, p, h, q, net);
        assert q in c.version;
      }
    }
  }

  lemma MintKeepsIdentity(e: EngineState, p: RelPath, h: Head, net: set<RemoteChange>)
    requires OwnCounterLeads(e, net) && Mints(e, p, h) && ClocksIdentify(net)
    ensures ChangeOf(p, h) !in net && ClocksIdentify(net + {ChangeOf(p, h)})
  {
    hide Mints, OwnCounterLeads;
    forall m | m in net && m.path == p
      ensures m.version != h.version
    {
      MintIsFresh(e, p, h, net, m);
    }
  }

  lemma MintKeepsNetInv(e: EngineState, r: ReplicaId, p: RelPath, h: Head, net: set<RemoteChange>,
                        author: map<RemoteChange, ReplicaId>, ids: set<ReplicaId>)
    requires NetInv(net, author, ids) && EngineInv(e, r, net) && Mints(e, p, h) && r in ids
    ensures ChangeOf(p, h) !in net
    ensures NetInv(net + {ChangeOf(p, h)}, author[ChangeOf(p, h) := r], ids)
  {
    hide Shipped, ValidIndex, ClocksAreCausal, ClocksIdentify, OwnCounterLeads, Merged;
    var c := ChangeOf(p, h);
    MintKeepsIdentity(e, p, h, net);
    MintSupport(e, r, p, h, net, ids);
    MintKeepsCausality(e, r, p, h, net, author, c);
    assert net + {c} == author[c := r].Keys;
    assert Get(c.version, r) > 0;
  }

  lemma MintedSeen(engines: map<ReplicaId, EngineState>, r: ReplicaId, p: RelPath, h: Head, echo: Journal,
                   net: set<RemoteChange>, seen: set<Sighting>)
    requires SeenInv(engines, net, seen) && r in engines && Mints(engines[r], p, h)
    ensures SeenInv(engines[r := EngineState(r, engines[r].index[p := [h]], echo)],
                    net + {ChangeOf(p, h)}, seen + {(r, ChangeOf(p, h))})
  {
    hide Mints;
    var engines' := engines[r := EngineState(r, engines[r].index[p := [h]], echo)];
    var heads := HeadsAt(engines[r].index, p);
    forall q, m | (q, m) in seen + {(r, ChangeOf(p, h))}
      ensures q in engines' && m in net + {ChangeOf(p, h)} && Covers(HeadsAt(engines'[q].index, m.path), m.version)
    {
      if q == r && m.path == p {
        if (q, m) in seen {
          var i :| 0 <= i < |heads| && Leq(m.version, heads[i].version);
          MintDominatesHeads(engines[r], p, h, heads[i]);
          LeqTransitive(m.version, heads[i].version, h.version);
        }
        CoversBy([h], h, m.version);
      }
    }
  }

  lemma ShippedInMore(snapshots: set<Index>, net: set<RemoteChange>, c: RemoteChange)
    requires SnapshotsInv(snapshots, net)
    ensures SnapshotsInv(snapshots, net + {c})
  {
    forall index | index in snapshots
      ensures Shipped(index, net + {c})
    {
      assert Shipped(index, net);
    }
  }

  lemma MintedRecord(e: EngineState, r: ReplicaId, p: RelPath, h: Head, echo: Journal, recorded: set<Row>)
    requires RecordInv(e, r, recorded)
    ensures RecordInv(EngineState(r, e.index[p := [h]], echo), r, recorded + {(r, p, h.state)})
  {
    MoreRecords(e, r, recorded, recorded + {(r, p, h.state)});
    assert (r, p, h.state) in recorded + {(r, p, h.state)} && SameContent(h.state, h.state);
    forall q, x | x in HeadsAt(e.index[p := [h]], q)
      ensures HasRecord(recorded + {(r, p, h.state)}, r, q, x.state)
    {
      assert q != p ==> x in HeadsAt(e.index, q);
    }
  }

  // ---- Local steps keep the invariant ----

  /** The system after replica `r` minted `h` at `p`. */
  ghost function AfterMint(sys: System, r: ReplicaId, echo: Journal, p: RelPath, h: Head): System
    requires r in sys.engines
  {
    var c := ChangeOf(p, h);
    sys.(engines := sys.engines[r := EngineState(r, sys.engines[r].index[p := [h]], echo)],
         net := sys.net + {c},
         author := sys.author[c := r],
         seen := sys.seen + {(r, c)},
         recorded := sys.recorded + {(r, p, h.state)})
  }

  lemma MintKeepsInv(sys: System, r: ReplicaId, echo: Journal, p: RelPath, h: Head)
    requires Inv(sys) && r in sys.engines && Mints(sys.engines[r], p, h)
    ensures ChangeOf(p, h) !in sys.net
    ensures Inv(AfterMint(sys, r, echo, p, h))
  {
    hide NetInv, SeenInv, RecordsInv, RecordInv, SnapshotsInv, Mints, EngineInv;
    var e := sys.engines[r];
    assert EngineInv(e, r, sys.net);
    var e' := EngineState(r, e.index[p := [h]], echo);
    assert sys.engines[r := e'].Keys == sys.engines.Keys;
    MintKeepsNetInv(e, r, p, h, sys.net, sys.author, sys.engines.Keys);
    MintedEngines(sys.engines, r, p, h, echo, sys.net);
    ShippedInMore(sys.snapshots, sys.net, ChangeOf(p, h));
    MintedSeen(sys.engines, r, p, h, echo, sys.net, sys.seen);
    RecordOf(sys.engines, r, sys.recorded);
    MintedRecord(e, r, p, h, echo, sys.recorded);
    MoreRecordsForAll(sys.engines, r, e', sys.recorded, sys.recorded + {(r, p, h.state)});
  }

  lemma RecordOf(engines: map<ReplicaId, EngineState>, r: ReplicaId, recorded: set<Row>)
    requires RecordsInv(engines, recorded) && r in engines
    ensures RecordInv(engines[r], r, recorded)
  {
  }

  lemma CollapseMints(e: EngineState, echo: Journal, p: RelPath, state: EntryState) returns (h: Head)
    ensures Mints(e, p, h) && h.state == state
    ensures LocalCollapse(e.(echo := echo), p, state) ==
              Transition(EngineState(e.replica, e.index[p := [h]], echo),
                         [Send(ChangeOf(p, h)), RecordVersion(p, state, h.version)])
  {
    hide Ticked, Join;
    h := Head(Ticked(Merged(HeadsAt(e.index, p)), e.replica), state);
  }

  lemma MintActions(r: ReplicaId, p: RelPath, h: Head)
    ensures Sends([Send(ChangeOf(p, h)), RecordVersion(p, h.state, h.version)]) == {ChangeOf(p, h)}
    ensures Records(r, [Send(ChangeOf(p, h)), RecordVersion(p, h.state, h.version)]) == {(r, p, h.state)}
  {
    var actions := [Send(ChangeOf(p, h)), RecordVersion(p, h.state, h.version)];
    assert actions[0] in actions && actions[1] in actions;
  }

  lemma CommitMint(sys: System, r: ReplicaId, t: Transition, echo: Journal, p: RelPath, h: Head)
    requires r in sys.engines && ChangeOf(p, h) !in sys.net && sys.net == sys.author.Keys
    requires t.state == EngineState(r, sys.engines[r].index[p := [h]], echo)
    requires Sends(t.actions) == {ChangeOf(p, h)} && Records(r, t.actions) == {(r, p, h.state)}
    ensures Commit(sys, r, t, {}) == AfterMint(sys, r, echo, p, h)
  {
    hide Sends, Records;
    var c := ChangeOf(p, h);
    assert {c} + {} == {c};
    assert Signed({c}, r) + sys.author == sys.author[c := r];
    assert Tagged(r, {c}) == {(r, c)};
  }

  lemma CollapseKeepsInv(sys: System, r: ReplicaId, echo: Journal, p: RelPath, state: EntryState)
    requires Inv(sys) && r in sys.engines
    ensures Inv(Commit(sys, r, LocalCollapse(sys.engines[r].(echo := echo), p, state), {}))
  {
    hide SeenInv, RecordsInv, SnapshotsInv, Mints, Commit, LocalCollapse, Shipped, ValidIndex, OwnCounterLeads,
      ClocksAreCausal, ClocksIdentify, Sends, Records;
    assert EngineInv(sys.engines[r], r, sys.net);
    var t := LocalCollapse(sys.engines[r].(echo := echo), p, state);
    var h := CollapseMints(sys.engines[r], echo, p, state);
    MintActions(r, p, h);
    MintKeepsInv(sys, r, echo, p, h);
    CommitMint(sys, r, t, echo, p, h);
  }

  /** Neither a swallowed echo nor a restart touches the index. */
  lemma ReplacingEchoKeepsInv(sys: System, r: ReplicaId, echo: Journal)
    requires Inv(sys) && r in sys.engines
    ensures Inv(sys.(engines := sys.engines[r := sys.engines[r].(echo := echo)]))
  {
    hide NetInv, SnapshotsInv, Shipped, ValidIndex, Merged, HasRecord, Covers;
    var sys' := sys.(engines := sys.engines[r := sys.engines[r].(echo := echo)]);
    assert sys'.engines.Keys == sys.engines.Keys;
    assert EngineInv(sys.engines[r], r, sys.net) && RecordInv(sys.engines[r], r, sys.recorded);
  }

  lemma QuietCommit(sys: System, r: ReplicaId, state: EngineState)
    ensures Commit(sys, r, Transition(state, []), {}) == sys.(engines := sys.engines[r := state])
  {
    assert Sends([]) == {} && Records(r, []) == {};
    assert Tagged(r, {} + {}) == {};
    assert Signed({}, r) + sys.author == sys.author;
  }

  /** A local event is swallowed or spurious, or it collapses the path to one new head. */
  lemma LocalCases(e: EngineState, change: LocalChange)
    ensures HandleLocal(e, change) == Transition(e.(echo := HandleLocal(e, change).state.echo), [])
            || HandleLocal(e, change) == LocalCollapse(e, change.path, StateFromKind(change.kind))
  {
    assert e == e.(echo := e.echo);
  }

  lemma LocalKeepsInv(sys: System, r: ReplicaId, change: LocalChange)
    requires Inv(sys) && r in sys.engines
    ensures Inv(Next(sys, LocalEvent(r, change)))
  {
    hide Inv, Commit, LocalCollapse, HandleLocal;
    var e := sys.engines[r];
    var t := HandleLocal(e, change);
    LocalCases(e, change);
    if t == Transition(e.(echo := t.state.echo), []) {
      QuietCommit(sys, r, t.state);
      ReplacingEchoKeepsInv(sys, r, t.state.echo);
    } else {
      assert e == e.(echo := e.echo);
      CollapseKeepsInv(sys, r, e.echo, change.path, StateFromKind(change.kind));
    }
  }

  lemma SnapshotKeepsInv(sys: System, r: ReplicaId)
    requires Inv(sys) && r in sys.engines
    ensures Inv(sys.(snapshots := sys.snapshots + {sys.engines[r].index}))
  {
    hide NetInv, SeenInv, RecordsInv, Shipped, ValidIndex, OwnCounterLeads;
    assert EngineInv(sys.engines[r], r, sys.net);
  }

  lemma RestartIsEchoLoss(sys: System, r: ReplicaId)
    requires Inv(sys) && r in sys.engines
    ensures EngineState(r, sys.engines[r].index, map[]) == sys.engines[r].(echo := map[])
  {
    hide NetInv, SeenInv, RecordsInv, SnapshotsInv, Shipped, ValidIndex, OwnCounterLeads;
    assert EngineInv(sys.engines[r], r, sys.net);
  }

  lemma StepKeepsInv(sys: System, step: Step)
    requires Inv(sys)
    ensures Inv(Next(sys, step))
  {
    hide Inv, Handle;
    if step.at in sys.engines {
      match step
      case LocalEvent(r, change) => LocalKeepsInv(sys, r, change);
      case Deliver(r, m) =>
        if m in sys.net {
          DeliverKeepsInv(sys, r, m);
        }
      case TakeSnapshot(r) => SnapshotKeepsInv(sys, r);
      case Exchange(r, index) =>
        if index in sys.snapshots {
          ExchangeKeepsInv(sys, r, index);
        }
      case Restart(r) =>
        RestartIsEchoLoss(sys, r);
        ReplacingEchoKeepsInv(sys, r, map[]);
    }
  }

  /** The invariant holds in every state of every run. */
  lemma {:induction false} RunInv(sys: System, steps: seq<Step>)
    requires Inv(sys)
    ensures Inv(Run(sys, steps))
  {
    hide Inv, Next;
    if steps != [] {
      RunInv(sys, steps[..|steps| - 1]);
      StepKeepsInv(Run(sys, steps[..|steps| - 1]), steps[|steps| - 1]);
    }
  }
}
