/** Anti-entropy: one index exchange and the changes it ships reconcile two replicas, whatever was
    lost before, and after that the link stays quiet. */
module Reconnect {
  import opened Clocks
  import opened Paths
  import opened Versions
  import opened Entries
  import opened Joins
  import opened EngineSpec
  import opened EngineFacts
  import opened Network
  import opened Convergence

  /** Handling a list of peer changes one after the other. */
  ghost function DeliverAll(e: EngineState, messages: seq<RemoteChange>): EngineState {
    if messages == [] then e
    else Handle(DeliverAll(e, messages[..|messages| - 1]), Remote(messages[|messages| - 1])).state
  }

  ghost predicate CoversMessages(e: EngineState, messages: seq<RemoteChange>) {
    forall i :: 0 <= i < |messages| ==> Covers(HeadsAt(e.index, messages[i].path), messages[i].version)
  }

  lemma AbsorbedAgain(a: EngineState, b: EngineState, c: EngineState, net: set<RemoteChange>)
    requires GrownEngine(a, b, net) && GrownEngine(b, c, net)
    ensures GrownEngine(a, c, net)
  {
    hide Covers, ValidIndex;
    forall p
      ensures Grown(HeadsAt(a.index, p), HeadsAt(c.index, p), p, net)
    {
      var x, y, z := HeadsAt(a.index, p), HeadsAt(b.index, p), HeadsAt(c.index, p);
      assert Grown(x, y, p, net) && Grown(y, z, p, net);
      forall h | h in Elems(x)
        ensures Covers(z, h.version)
      {
        CoverSurvives(y, z, h.version);
      }
    }
  }

  lemma NothingAbsorbed(e: EngineState, net: set<RemoteChange>)
    requires ValidIndex(e.index)
    ensures GrownEngine(e, e, net)
  {
    hide Grown, ValidIndex;
    forall p
      ensures Grown(HeadsAt(e.index, p), HeadsAt(e.index, p), p, net)
    {
      NothingGrows(HeadsAt(e.index, p), p, net);
    }
  }

  lemma {:induction false} DeliverAllEffect(e: EngineState, messages: seq<RemoteChange>, net: set<RemoteChange>)
    requires ValidIndex(e.index) && forall m :: m in messages ==> m in net
    ensures GrownEngine(e, DeliverAll(e, messages), net)
    ensures CoversMessages(DeliverAll(e, messages), messages)
  {
    hide ValidIndex, Covers, AbsorbRemote, Grown;
    if messages == [] {
      NothingAbsorbed(e, net);
    } else {
      var front, last := messages[..|messages| - 1], messages[|messages| - 1];
      var mid, after := DeliverAll(e, front), DeliverAll(e, messages);
      DeliverAllEffect(e, front, net);
      assert last in messages;
      DeliverGrows(mid, last, net);
      AbsorbedAgain(e, mid, after, net);
      forall i | 0 <= i < |messages|
        ensures Covers(HeadsAt(after.index, messages[i].path), messages[i].version)
      {
        if i < |front| {
          var p := messages[i].path;
          assert front[i] == messages[i];
          assert Grown(HeadsAt(mid.index, p), HeadsAt(after.index, p), p, net);
          GrownCovers(HeadsAt(mid.index, p), HeadsAt(after.index, p), p, net);
          CoverSurvives(HeadsAt(mid.index, p), HeadsAt(after.index, p), messages[i].version);
        }
      }
    }
  }

  // ---- A quiet exchange ----

  lemma {:induction false} KnownHeadsDoNothing(e: EngineState, p: RelPath, heads: seq<Head>)
    requires forall h :: h in heads ==> h in HeadsAt(e.index, p)
    ensures AbsorbEach(e, p, heads) == Transition(e, [])
  {
    if heads != [] {
      var front, last := heads[..|heads| - 1], heads[|heads| - 1];
      assert forall h :: h in front ==> h in heads;
      KnownHeadsDoNothing(e, p, front);
      assert last in heads;
      CoversBy(HeadsAt(e.index, p), last, last.version);
      KnownVersionDoesNothing(e, p, last);
    }
  }

  /** A covered version changes nothing and asks for nothing. */
  lemma KnownVersionDoesNothing(e: EngineState, p: RelPath, h: Head)
    requires Covers(HeadsAt(e.index, p), h.version)
    ensures AbsorbRemote(e, p, h) == Transition(e, [])
  {
  }

  lemma {:induction false} CoveredHeadsShipNothing(p: RelPath, ours: seq<Head>, theirs: seq<Head>)
    requires forall h :: h in ours ==> Covers(theirs, h.version)
    ensures UncoveredSends(p, ours, theirs) == []
  {
    if ours != [] {
      var front, last := ours[..|ours| - 1], ours[|ours| - 1];
      assert forall h :: h in front ==> h in ours;
      assert last in ours;
      CoveredHeadsShipNothing(p, front, theirs);
    }
  }

  lemma {:induction false} EqualIndexDoesNothing(e: EngineState, todo: set<RelPath>)
    ensures Reconcile(e, e.index, todo) == Transition(e, [])
    decreases |todo|
  {
    hide AbsorbRemote, Covers;
    if todo != {} {
      var p := FirstPath(todo);
      var heads := HeadsAt(e.index, p);
      KnownHeadsDoNothing(e, p, heads);
      forall h | h in heads
        ensures Covers(heads, h.version)
      {
        CoversBy(heads, h, h.version);
      }
      CoveredHeadsShipNothing(p, heads, heads);
      EqualIndexDoesNothing(e, todo - {p});
    }
  }

  /** Exchanging equal indices causes no action and changes nothing. */
  lemma QuietExchange(e: EngineState, index: Index)
    requires e.index == index
    ensures Handle(e, PeerIndex(index)) == Transition(e, [])
  {
    EqualIndexDoesNothing(e, e.index.Keys + index.Keys);
  }

  // ---- Reconciliation ----

  /** The exchange and its shipments in a network state: `a` handled `b`'s index, and `b` then
      received what `a` shipped. */
  ghost predicate Reconciles(a: EngineState, b: EngineState, a': EngineState, b': EngineState, sent: set<RemoteChange>) {
    && (forall p :: CoversAll(HeadsAt(a'.index, p), Elems(HeadsAt(b.index, p))))
    && (forall m :: m in sent ==> HeadOf(m) in HeadsAt(a'.index, m.path))
    && (forall p, h :: h in HeadsAt(a'.index, p) && !Covers(HeadsAt(b.index, p), h.version) ==> ChangeOf(p, h) in sent)
    && GrownEngine(b, b', sent)
    && (forall m :: m in sent ==> Covers(HeadsAt(b'.index, m.path), m.version))
  }

  lemma ReconciledCoverEachOther(a: EngineState, b: EngineState, a': EngineState, b': EngineState, sent: set<RemoteChange>,
                                 p: RelPath)
    requires Reconciles(a, b, a', b', sent)
    ensures CoversAll(HeadsAt(a'.index, p), Elems(HeadsAt(b'.index, p)))
    ensures CoversAll(HeadsAt(b'.index, p), Elems(HeadsAt(a'.index, p)))
  {
    hide Covers, ValidIndex;
    var x, y := HeadsAt(a'.index, p), HeadsAt(b'.index, p);
    assert Grown(HeadsAt(b.index, p), y, p, sent);
    forall h | h in Elems(y)
      ensures Covers(x, h.version)
    {
      if h in HeadsAt(b.index, p) {
        assert CoversAll(x, Elems(HeadsAt(b.index, p)));
        assert h in Elems(HeadsAt(b.index, p));
      } else {
        assert ChangeOf(p, h) in sent;
        ChangeRoundTrip(p, h, ChangeOf(p, h));
        CoversBy(x, h, h.version);
      }
    }
    forall h | h in Elems(x)
      ensures Covers(y, h.version)
    {
      if Covers(HeadsAt(b.index, p), h.version) {
        CoverSurvives(HeadsAt(b.index, p), y, h.version);
      } else {
        assert ChangeOf(p, h) in sent;
      }
    }
  }

  ghost function Elements(messages: seq<RemoteChange>): set<RemoteChange> {
    set m | m in messages
  }

  lemma ExchangeReconciles(a: EngineState, b: EngineState, messages: seq<RemoteChange>, net: set<RemoteChange>)
    requires ValidIndex(a.index) && ValidIndex(b.index) && Shipped(a.index, net) && Shipped(b.index, net)
    requires Elements(messages) == Sends(Handle(a, PeerIndex(b.index)).actions)
    ensures Reconciles(a, b, Handle(a, PeerIndex(b.index)).state, DeliverAll(b, messages), Elements(messages))
  {
    hide Reconcile, ValidIndex, Covers, Shipped, Grown, DeliverAll;
    var t, sent := Handle(a, PeerIndex(b.index)), Elements(messages);
    ExchangeGrows(a, b.index, net);
    PeerIndexEffect(a, b.index);
    DeliverAllEffect(b, messages, sent);
    forall p, h | h in HeadsAt(t.state.index, p) && !Covers(HeadsAt(b.index, p), h.version)
      ensures ChangeOf(p, h) in sent
    {
      ChangeRoundTrip(p, h, ChangeOf(p, h));
    }
    forall m | m in sent
      ensures Covers(HeadsAt(DeliverAll(b, messages).index, m.path), m.version)
    {
      var i :| 0 <= i < |messages| && messages[i] == m;
    }
  }

  lemma ShippedAfterwards(e: EngineState, e': EngineState, sent: set<RemoteChange>, net: set<RemoteChange>)
    requires Shipped(e.index, net) && GrownEngine(e, e', sent) && sent <= net
    ensures Shipped(e'.index, net)
  {
    forall p, h | h in HeadsAt(e'.index, p)
      ensures ChangeOf(p, h) in net
    {
      assert Grown(HeadsAt(e.index, p), HeadsAt(e'.index, p), p, sent);
    }
  }

  /** Reconnect: in every reachable state, however much was lost, if `r` handles `q`'s index and
      `q` then receives exactly what `r` shipped, in any order and with any repetition, both hold
      the same index. A further exchange in either direction causes no action at all. */
  lemma ReconnectConverges(ids: set<ReplicaId>, steps: seq<Step>, r: ReplicaId, q: ReplicaId, messages: seq<RemoteChange>)
    requires r in ids && q in ids && NetFits(Reached(ids, steps).net)
    requires Elements(messages) ==
      Sends(Handle(Reached(ids, steps).engines[r], PeerIndex(Reached(ids, steps).engines[q].index)).actions)
    ensures var a := Handle(Reached(ids, steps).engines[r], PeerIndex(Reached(ids, steps).engines[q].index)).state;
            var b := DeliverAll(Reached(ids, steps).engines[q], messages);
            && a.index == b.index
            && Handle(a, PeerIndex(b.index)) == Transition(a, [])
            && Handle(b, PeerIndex(a.index)) == Transition(b, [])
  {
    hide Reached, Handle, DeliverAll, Shipped, ValidIndex, OwnCounterLeads, Reconciles, GrownEngine, NetFits,
      ClocksIdentify, ClocksAreCausal, SnapshotsInv, SeenInv, RecordsInv, Elements, Sends;
    var sys := Reached(ids, steps);
    ReachedInv(ids, steps);
    var e, f := sys.engines[r], sys.engines[q];
    assert EngineInv(e, r, sys.net) && EngineInv(f, q, sys.net);
    ReconciledIndices(e, f, messages, sys.net);
    var a, b := Handle(e, PeerIndex(f.index)).state, DeliverAll(f, messages);
    QuietExchange(a, b.index);
    QuietExchange(b, a.index);
  }

  lemma ReconciledIndices(e: EngineState, f: EngineState, messages: seq<RemoteChange>, net: set<RemoteChange>)
    requires ValidIndex(e.index) && ValidIndex(f.index) && Shipped(e.index, net) && Shipped(f.index, net)
    requires ClocksIdentify(net) && NetFits(net)
    requires Elements(messages) == Sends(Handle(e, PeerIndex(f.index)).actions)
    ensures Handle(e, PeerIndex(f.index)).state.index == DeliverAll(f, messages).index
  {
    hide Reconcile, DeliverAll, Shipped, ValidIndex, Reconciles, NetFits, ClocksIdentify, Elements, Sends, Grown, CoversAll;
    var t, b := Handle(e, PeerIndex(f.index)), DeliverAll(f, messages);
    var sent := Elements(messages);
    ExchangeGrows(e, f.index, net);
    ExchangeReconciles(e, f, messages, net);
    assert GrownEngine(e, t.state, net);
    ShippedAfterwards(e, t.state, net, net);
    assert GrownEngine(f, b, sent) by {
      ReconcilesMeans(e, f, t.state, b, sent);
    }
    ShippedAfterwards(f, b, sent, net);
    forall p
      ensures CoversAll(HeadsAt(t.state.index, p), Elems(HeadsAt(b.index, p)))
      ensures CoversAll(HeadsAt(b.index, p), Elems(HeadsAt(t.state.index, p)))
    {
      ReconciledCoverEachOther(e, f, t.state, b, sent, p);
    }
    MutualCoverSameIndex(t.state.index, b.index, net);
  }

  lemma ReconcilesMeans(a: EngineState, b: EngineState, a': EngineState, b': EngineState, sent: set<RemoteChange>)
    requires Reconciles(a, b, a', b', sent)
    ensures GrownEngine(b, b', sent)
  {
  }

  /** The reconciled entry at every path is the join of the two entries: exactly the causally
      maximal versions either replica held. */
  lemma ReconnectIsTheJoin(ids: set<ReplicaId>, steps: seq<Step>, r: ReplicaId, q: ReplicaId, p: RelPath)
    requires r in ids && q in ids && NetFits(Reached(ids, steps).net)
    ensures var a, b := Reached(ids, steps).engines[r], Reached(ids, steps).engines[q];
            Elems(HeadsAt(Handle(a, PeerIndex(b.index)).state.index, p))
            == Maximal(Elems(HeadsAt(a.index, p)) + Elems(HeadsAt(b.index, p)))
  {
    hide Reached, Reconcile, OwnCounterLeads, NetFits, ClocksIdentify, ClocksAreCausal, SnapshotsInv, SeenInv,
      RecordsInv, Antichain, KeySorted, Determined, AllFit;
    var sys := Reached(ids, steps);
    ReachedInv(ids, steps);
    var a, b := sys.engines[r], sys.engines[q];
    assert EngineInv(a, r, sys.net) && EngineInv(b, q, sys.net);
    PeerIndexEffect(a, b.index);
    ValidHeadsAt(a.index, p);
    ShippedHeadsDetermined(p, HeadsAt(a.index, p), HeadsAt(b.index, p), sys.net);
    AbsorbComputesTheJoin(HeadsAt(a.index, p), HeadsAt(b.index, p));
  }
}
