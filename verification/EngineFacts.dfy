/** What each event does to the index, which changes it ships, and which actions it asks for. */
module EngineFacts {
  import opened Clocks
  import opened Paths
  import opened Versions
  import opened Entries
  import opened Joins
  import opened EngineSpec
  import Sorting

  /** The changes shipped by a list of actions. */
  ghost function Sends(actions: seq<Action>): set<RemoteChange> {
    set a | a in actions && a.Send? :: a.change
  }

  lemma SendsConcat(a: seq<Action>, b: seq<Action>)
    ensures Sends(a + b) == Sends(a) + Sends(b)
  {
  }

  lemma MergedSingle(h: Head)
    ensures Merged([h]) == h.version
  {
    assert [h][..0] == [];
    forall r: ReplicaId
      ensures Get(Join(map[], h.version), r) == Get(h.version, r)
    {
      JoinReads(map[], h.version, r);
    }
    SameReadings(Join(map[], h.version), h.version);
  }

  lemma AbsorbIntoNothing(h: Head)
    ensures AbsorbHeads([], h) == [h]
  {
    assert Retained([], h.version) == [];
    assert [] + [h] == [h];
    assert [h][..0] == [];
    assert Sorting.Sort(KeyOrder(), [h]) == Sorting.Insert(KeyOrder(), [], h);
  }

  // ---- Absorbing ----

  lemma {:induction false} ConflictsShipNothing(path: RelPath, heads: seq<Head>, winner: Head, adopted: bool)
    ensures Sends(ConflictActions(path, heads, winner, adopted)) == {}
  {
    if heads != [] {
      ConflictsShipNothing(path, heads[..|heads| - 1], winner, adopted);
    }
  }

  /** A remote version only joins its own path's heads, and is never shipped on. */
  lemma AbsorbRemoteEffect(s: EngineState, path: RelPath, h: Head)
    ensures AbsorbRemote(s, path, h).state.replica == s.replica
    ensures AbsorbRemote(s, path, h).state.index == s.index[path := AbsorbHeads(HeadsAt(s.index, path), h)]
    ensures Sends(AbsorbRemote(s, path, h).actions) == {}
  {
    if path !in s.index {
      AbsorbIntoNothing(h);
    } else {
      var outcome := Outcome(s.index[path], h);
      if outcome == AlreadyKnown {
        assert s.index == s.index[path := s.index[path]];
      } else {
        AnnounceShipsNothing(s, path, h, AbsorbHeads(s.index[path], h), outcome);
      }
    }
  }

  lemma AnnounceShipsNothing(s: EngineState, path: RelPath, h: Head, after: Heads, outcome: AbsorbOutcome)
    requires outcome.Absorbed?
    ensures Sends(Announce(s, path, h, after, outcome).actions) == {}
  {
    ConflictsShipNothing(path, after, Winner(after), AdoptionMode(after));
  }

  lemma {:induction false} AbsorbEachEffect(s: EngineState, path: RelPath, heads: seq<Head>)
    ensures AbsorbEach(s, path, heads).state.replica == s.replica
    ensures HeadsAt(AbsorbEach(s, path, heads).state.index, path) == AbsorbAll(HeadsAt(s.index, path), heads)
    ensures forall q :: q != path ==> HeadsAt(AbsorbEach(s, path, heads).state.index, q) == HeadsAt(s.index, q)
    ensures Sends(AbsorbEach(s, path, heads).actions) == {}
  {
    if heads != [] {
      var front, last := heads[..|heads| - 1], heads[|heads| - 1];
      var a := AbsorbEach(s, path, front);
      AbsorbEachEffect(s, path, front);
      AbsorbRemoteEffect(a.state, path, last);
      SendsConcat(a.actions, AbsorbRemote(a.state, path, last).actions);
    }
  }

  // ---- The actions of one remote version ----

  ghost predicate IsLoser(heads: seq<Head>, winner: Head, loser: Head) {
    loser in heads && !SameHead(loser, winner)
  }

  lemma {:induction false} ConflictActionsAre(path: RelPath, heads: seq<Head>, winner: Head, adopted: bool, a: Action)
    ensures a in ConflictActions(path, heads, winner, adopted) <==>
              a.ConflictResolved? && IsLoser(heads, winner, a.loser) && a == ConflictResolved(path, winner, a.loser, adopted)
  {
    hide SameHead;
    if heads != [] {
      var front, last := heads[..|heads| - 1], heads[|heads| - 1];
      ConflictActionsAre(path, front, winner, adopted, a);
      assert heads == front + [last];
    }
  }

  /** Each head that is not the winner is reported as often as it is listed. */
  lemma {:induction false} LosersOnce(path: RelPath, heads: seq<Head>, winner: Head, adopted: bool, x: Head)
    ensures multiset(ConflictActions(path, heads, winner, adopted))[ConflictResolved(path, winner, x, adopted)]
         == if SameHead(x, winner) then 0 else multiset(heads)[x]
  {
    hide SameHead;
    if heads != [] {
      var front, last := heads[..|heads| - 1], heads[|heads| - 1];
      LosersOnce(path, front, winner, adopted, x);
      assert heads == front + [last];
    }
  }

  /** What a version that was not known calls for, in terms of the heads before and after: an apply
      when the winner's state changed; one conflict per loser when differing heads appear next to a
      single one; a record when no head had its content; never a send. */
  ghost predicate CalledFor(before: Heads, after: Heads, path: RelPath, h: Head, a: Action) {
    match a
    case Send(_) => false
    case Apply(p, target) =>
      p == path && target == ExpectationFromState(Winner(after).state) && !SameState(Winner(before).state, Winner(after).state)
    case ConflictResolved(p, winner, loser, adopted) =>
      p == path && winner == Winner(after) && IsLoser(after, winner, loser) && adopted == AdoptionMode(after)
      && |before| == 1 && |after| >= 2 && HeadsConflict(after)
    case RecordVersion(p, state, version) =>
      p == path && state == h.state && version == h.version
      && !exists i :: 0 <= i < |before| && SameContent(before[i].state, h.state)
  }

  lemma AnnounceActionsAre(s: EngineState, path: RelPath, h: Head, before: Heads, a: Action)
    requires !Covers(before, h.version)
    ensures a in Announce(s, path, h, AbsorbHeads(before, h), Outcome(before, h)).actions
            <==> CalledFor(before, AbsorbHeads(before, h), path, h, a)
  {
    hide Covers, AbsorbHeads, Winner, AdoptionMode, SameState, SameContent, IsLoser, HeadsConflict, ConflictActions, JournalAdd;
    var after: Heads := AbsorbHeads(before, h);
    ConflictActionsAre(path, after, Winner(after), AdoptionMode(after), a);
  }

  /** The actions of a remote version, exactly: on a known path, nothing when it is covered and
      otherwise what it calls for; on a new path, a record, and an apply if a file is present. */
  lemma RemoteActionsAre(s: EngineState, path: RelPath, h: Head, a: Action)
    ensures a in AbsorbRemote(s, path, h).actions <==>
              if path in s.index then
                !Covers(s.index[path], h.version) && CalledFor(s.index[path], AbsorbHeads(s.index[path], h), path, h, a)
              else
                a == RecordVersion(path, h.state, h.version) || (h.state.Present? && a == Apply(path, FilePresent(h.state.sig)))
  {
    hide Covers, AbsorbHeads, Winner, AdoptionMode, CalledFor, Announce, HeadsConflict, JournalAdd, SameState, SameContent;
    if path in s.index && !Covers(s.index[path], h.version) {
      AnnounceActionsAre(s, path, h, s.index[path], a);
    }
  }

  lemma OnlyConflicts(path: RelPath, heads: seq<Head>, winner: Head, adopted: bool, i: nat)
    requires i < |ConflictActions(path, heads, winner, adopted)|
    ensures ConflictActions(path, heads, winner, adopted)[i].ConflictResolved?
  {
    hide ConflictActions;
    var a := ConflictActions(path, heads, winner, adopted)[i];
    ConflictActionsAre(path, heads, winner, adopted, a);
  }

  lemma AnnounceOrder(s: EngineState, path: RelPath, h: Head, after: Heads, outcome: AbsorbOutcome, i: nat)
    requires outcome.Absorbed? && i < |Announce(s, path, h, after, outcome).actions|
    ensures Announce(s, path, h, after, outcome).actions[i].Apply? ==> i == 0
    ensures Announce(s, path, h, after, outcome).actions[i].RecordVersion? ==> i == |Announce(s, path, h, after, outcome).actions| - 1
  {
    hide Winner, AdoptionMode, ConflictActions, JournalAdd;
    var winner := Winner(after);
    var applies: seq<Action> := if outcome.winnerChanged then [Apply(path, ExpectationFromState(winner.state))] else [];
    var conflicts := if outcome.newConflict then ConflictActions(path, after, winner, AdoptionMode(after)) else [];
    if |applies| <= i < |applies| + |conflicts| {
      OnlyConflicts(path, after, winner, AdoptionMode(after), i - |applies|);
    }
  }

  /** An apply comes first and a record last, so there is at most one of each. */
  lemma RemoteActionOrder(s: EngineState, path: RelPath, h: Head, i: nat)
    requires i < |AbsorbRemote(s, path, h).actions|
    ensures AbsorbRemote(s, path, h).actions[i].Apply? ==> i == 0
    ensures AbsorbRemote(s, path, h).actions[i].RecordVersion? ==> i == |AbsorbRemote(s, path, h).actions| - 1
  {
    hide Covers, AbsorbHeads, Winner, AdoptionMode, Announce, HeadsConflict, JournalAdd, SameState, SameContent;
    if path in s.index && Outcome(s.index[path], h) != AlreadyKnown {
      AnnounceOrder(s, path, h, AbsorbHeads(s.index[path], h), Outcome(s.index[path], h), i);
    }
  }

  // ---- Reconciliation ----

  lemma {:induction false} UncoveredSendsAre(path: RelPath, ours: seq<Head>, theirs: seq<Head>)
    ensures forall m :: m in Sends(UncoveredSends(path, ours, theirs)) <==>
                        m.path == path && HeadOf(m) in ours && !Covers(theirs, m.version)
  {
    if ours != [] {
      var front, last := ours[..|ours| - 1], ours[|ours| - 1];
      UncoveredSendsAre(path, front, theirs);
      SendsConcat(UncoveredSends(path, front, theirs), [Send(ChangeOf(path, last))]);
      assert ours == front + [last];
      assert Sends([Send(ChangeOf(path, last))]) == {ChangeOf(path, last)};
      forall m: RemoteChange
        ensures m == ChangeOf(path, last) <==> m.path == path && HeadOf(m) == last
      {
        ChangeRoundTrip(path, last, m);
      }
    }
  }

  /** Each uncovered head is shipped as often as it is listed. */
  lemma {:induction false} UncoveredOnce(path: RelPath, ours: seq<Head>, theirs: seq<Head>, x: Head)
    ensures multiset(UncoveredSends(path, ours, theirs))[Send(ChangeOf(path, x))]
         == if Covers(theirs, x.version) then 0 else multiset(ours)[x]
  {
    hide Covers;
    if ours != [] {
      var front, last := ours[..|ours| - 1], ours[|ours| - 1];
      UncoveredOnce(path, front, theirs, x);
      assert ChangeOf(path, last) == ChangeOf(path, x) <==> last == x by {
        ChangeRoundTrip(path, last, ChangeOf(path, x));
      }
      hide ChangeOf;
      assert multiset(ours) == multiset(front + [last]) by {
        assert ours == front + [last];
      }
    }
  }

  /** What a pass over `todo` leaves at a path. */
  ghost function Reconciled(s: EngineState, remote: Index, todo: set<RelPath>, p: RelPath): seq<Head> {
    if p in todo then AbsorbAll(HeadsAt(s.index, p), HeadsAt(remote, p)) else HeadsAt(s.index, p)
  }

  lemma ReconcilePathEffect(s: EngineState, remote: Index, p: RelPath)
    ensures ReconcilePath(s, remote, p).state.replica == s.replica
    ensures forall q :: HeadsAt(ReconcilePath(s, remote, p).state.index, q) == Reconciled(s, remote, {p}, q)
    ensures forall m :: m in Sends(ReconcilePath(s, remote, p).actions) <==>
                        m.path == p && HeadOf(m) in Reconciled(s, remote, {p}, p) && !Covers(HeadsAt(remote, p), m.version)
  {
    var theirs := HeadsAt(remote, p);
    var a := AbsorbEach(s, p, theirs);
    var ours := HeadsAt(a.state.index, p);
    AbsorbEachEffect(s, p, theirs);
    SendsConcat(a.actions, UncoveredSends(p, ours, theirs));
    UncoveredSendsAre(p, ours, theirs);
  }

  lemma {:induction false} ReconcileEffect(s: EngineState, remote: Index, todo: set<RelPath>)
    ensures Reconcile(s, remote, todo).state.replica == s.replica
    ensures forall q :: HeadsAt(Reconcile(s, remote, todo).state.index, q) == Reconciled(s, remote, todo, q)
    ensures forall m :: m in Sends(Reconcile(s, remote, todo).actions) <==>
                        m.path in todo && HeadOf(m) in Reconciled(s, remote, todo, m.path)
                        && !Covers(HeadsAt(remote, m.path), m.version)
    decreases |todo|
  {
    hide ReconcilePath, AbsorbAll, Covers, FirstPath;
    if todo != {} {
      var p := FirstPath(todo);
      var rest := todo - {p};
      var a := ReconcilePath(s, remote, p);
      var b := Reconcile(a.state, remote, rest);
      ReconcilePathEffect(s, remote, p);
      ReconcileEffect(a.state, remote, rest);
      SendsConcat(a.actions, b.actions);
      forall q
        ensures HeadsAt(b.state.index, q) == Reconciled(s, remote, todo, q)
      {
        assert HeadsAt(a.state.index, q) == Reconciled(s, remote, {p}, q);
        assert HeadsAt(b.state.index, q) == Reconciled(a.state, remote, rest, q);
      }
      forall m: RemoteChange
        ensures m in Sends(a.actions + b.actions) <==>
                m.path in todo && HeadOf(m) in Reconciled(s, remote, todo, m.path)
                && !Covers(HeadsAt(remote, m.path), m.version)
      {
        assert HeadsAt(a.state.index, m.path) == Reconciled(s, remote, {p}, m.path);
      }
    }
  }

  /** Absorbing a whole peer index joins it path by path, and ships exactly the resulting heads
      the peer's entries do not cover. */
  lemma PeerIndexEffect(s: EngineState, remote: Index)
    ensures Handle(s, PeerIndex(remote)).state.replica == s.replica
    ensures forall q :: HeadsAt(Handle(s, PeerIndex(remote)).state.index, q)
                        == AbsorbAll(HeadsAt(s.index, q), HeadsAt(remote, q))
    ensures forall m :: m in Sends(Handle(s, PeerIndex(remote)).actions) <==>
                        HeadOf(m) in HeadsAt(Handle(s, PeerIndex(remote)).state.index, m.path)
                        && !Covers(HeadsAt(remote, m.path), m.version)
  {
    var todo := s.index.Keys + remote.Keys;
    ReconcileEffect(s, remote, todo);
    forall q
      ensures Reconciled(s, remote, todo, q) == AbsorbAll(HeadsAt(s.index, q), HeadsAt(remote, q))
      ensures q !in todo ==> Reconciled(s, remote, todo, q) == []
    {
    }
  }
}
