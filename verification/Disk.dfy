/** One replica with its disk: user edits, peer events, the writes they cause and their echoes.
    Disk is a map from path to what is there; performing an apply writes it. */
module Disk {
  import opened Clocks
  import opened Paths
  import opened Versions
  import opened Entries
  import opened EngineSpec
  import opened Echoes
  import opened Network

  type Tree = map<RelPath, ContentSig>

  function DiskAt(disk: Tree, p: RelPath): Expectation {
    if p in disk then FilePresent(disk[p]) else FileAbsent
  }

  function Write(disk: Tree, p: RelPath, target: Expectation): Tree {
    match target
    case FilePresent(sig) => disk[p := sig]
    case FileAbsent => disk - {p}
  }

  /** What the engine believes is on disk: the winner, or nothing at a path it has never seen. */
  ghost function Believed(index: Index, p: RelPath): Expectation {
    if p in index then ExpectationFromState(Winner(index[p]).state) else FileAbsent
  }

  ghost predicate InSync(index: Index, disk: Tree) {
    forall p :: SameExpectation(DiskAt(disk, p), Believed(index, p))
  }

  ghost predicate NothingOutstanding(journal: Journal) {
    forall p :: Bag(journal, p) == multiset{}
  }

  /** Perform the applies among the actions, in order. */
  ghost function Perform(disk: Tree, actions: seq<Action>): Tree {
    if actions == [] then disk
    else
      var d := Perform(disk, actions[..|actions| - 1]);
      match actions[|actions| - 1]
      case Apply(path, target) => Write(d, path, target)
      case _ => d
  }

  lemma {:induction false} PerformConcat(disk: Tree, a: seq<Action>, b: seq<Action>)
    ensures Perform(disk, a + b) == Perform(Perform(disk, a), b)
    decreases |b|
  {
    if b == [] {
      assert a + b == a;
    } else {
      assert (a + b)[..|a + b| - 1] == a + b[..|b| - 1];
      PerformConcat(disk, a, b[..|b| - 1]);
    }
  }

  lemma {:induction false} PerformNothing(disk: Tree, actions: seq<Action>)
    requires forall a :: a in actions ==> !a.Apply?
    ensures Perform(disk, actions) == disk
  {
    if actions != [] {
      assert actions[|actions| - 1] in actions;
      assert forall a :: a in actions[..|actions| - 1] ==> a in actions;
      PerformNothing(disk, actions[..|actions| - 1]);
    }
  }

  lemma PerformOne(disk: Tree, path: RelPath, target: Expectation, rest: seq<Action>)
    requires forall a :: a in rest ==> !a.Apply?
    ensures Perform(disk, [Apply(path, target)] + rest) == Write(disk, path, target)
  {
    PerformConcat(disk, [Apply(path, target)], rest);
    assert [Apply(path, target)][..0] == [];
    PerformNothing(Write(disk, path, target), rest);
  }

  // ---- Peer events ----

  lemma WriteKeepsSync(index: Index, disk: Tree, index': Index, disk': Tree, path: RelPath)
    requires InSync(index, disk)
    requires forall p :: p != path ==> HeadsAt(index', p) == HeadsAt(index, p) && DiskAt(disk', p) == DiskAt(disk, p)
    requires SameExpectation(DiskAt(disk', path), Believed(index', path))
    ensures InSync(index', disk')
  {
    hide Winner;
    forall p
      ensures SameExpectation(DiskAt(disk', p), Believed(index', p))
    {
      if p != path {
        assert HeadsAt(index', p) == HeadsAt(index, p);
        assert p in index <==> p in index';
      }
    }
  }

  lemma AnnounceKeepsSync(s: EngineState, path: RelPath, h: Head, after: Heads, outcome: AbsorbOutcome, disk: Tree)
    requires InSync(s.index, disk) && path in s.index && outcome.Absorbed?
    requires outcome.winnerChanged <==> !SameState(Winner(s.index[path]).state, Winner(after).state)
    ensures InSync(Announce(s, path, h, after, outcome).state.index,
                   Perform(disk, Announce(s, path, h, after, outcome).actions))
  {
    hide Winner, ConflictActions, AdoptionMode, JournalAdd, Perform;
    var t := Announce(s, path, h, after, outcome);
    var winner := Winner(after);
    var conflicts := if outcome.newConflict then ConflictActions(path, after, winner, AdoptionMode(after)) else [];
    var records := if outcome.novelContent then [RecordVersion(path, h.state, h.version)] else [];
    ConflictsApplyNothing(path, after, winner, AdoptionMode(after));
    assert SameExpectation(DiskAt(disk, path), Believed(s.index, path));
    if outcome.winnerChanged {
      var target := ExpectationFromState(winner.state);
      assert t.actions == [Apply(path, target)] + (conflicts + records);
      PerformOne(disk, path, target, conflicts + records);
      WriteKeepsSync(s.index, disk, t.state.index, Write(disk, path, target), path);
    } else {
      assert t.actions == conflicts + records;
      PerformNothing(disk, t.actions);
      WriteKeepsSync(s.index, disk, t.state.index, disk, path);
    }
  }

  lemma SingletonWinner(h: Head)
    ensures Winner([h]) == h
  {
  }

  lemma UnseenKeepsSync(s: EngineState, path: RelPath, h: Head, disk: Tree)
    requires InSync(s.index, disk) && path !in s.index
    ensures InSync(RemoteUnseen(s, path, h).state.index, Perform(disk, RemoteUnseen(s, path, h).actions))
  {
    hide Winner, JournalAdd, Perform;
    var t := RemoteUnseen(s, path, h);
    var record := RecordVersion(path, h.state, h.version);
    SingletonWinner(h);
    assert SameExpectation(DiskAt(disk, path), Believed(s.index, path));
    if h.state.Present? {
      var target := FilePresent(h.state.sig);
      assert t.actions == [Apply(path, target)] + [record];
      PerformOne(disk, path, target, [record]);
      WriteKeepsSync(s.index, disk, t.state.index, Write(disk, path, target), path);
    } else {
      PerformNothing(disk, t.actions);
      WriteKeepsSync(s.index, disk, t.state.index, disk, path);
    }
  }

  lemma AbsorbKeepsSync(s: EngineState, path: RelPath, h: Head, disk: Tree)
    requires InSync(s.index, disk)
    ensures InSync(AbsorbRemote(s, path, h).state.index, Perform(disk, AbsorbRemote(s, path, h).actions))
  {
    hide InSync, Announce, RemoteUnseen, Winner, AbsorbHeads, Covers;
    if path !in s.index {
      UnseenKeepsSync(s, path, h, disk);
    } else {
      var outcome := Outcome(s.index[path], h);
      if outcome != AlreadyKnown {
        AnnounceKeepsSync(s, path, h, AbsorbHeads(s.index[path], h), outcome, disk);
      }
    }
  }

  lemma {:induction false} AbsorbEachKeepsSync(s: EngineState, path: RelPath, heads: seq<Head>, disk: Tree)
    requires InSync(s.index, disk)
    ensures InSync(AbsorbEach(s, path, heads).state.index, Perform(disk, AbsorbEach(s, path, heads).actions))
  {
    hide InSync, AbsorbRemote;
    if heads != [] {
      var a := AbsorbEach(s, path, heads[..|heads| - 1]);
      var last := heads[|heads| - 1];
      AbsorbEachKeepsSync(s, path, heads[..|heads| - 1], disk);
      AbsorbKeepsSync(a.state, path, last, Perform(disk, a.actions));
      PerformConcat(disk, a.actions, AbsorbRemote(a.state, path, last).actions);
    }
  }

  lemma {:induction false} ReconcileKeepsSync(s: EngineState, remote: Index, todo: set<RelPath>, disk: Tree)
    requires InSync(s.index, disk)
    ensures InSync(Reconcile(s, remote, todo).state.index, Perform(disk, Reconcile(s, remote, todo).actions))
    decreases |todo|
  {
    hide InSync, AbsorbEach;
    if todo != {} {
      var p := FirstPath(todo);
      var theirs := HeadsAt(remote, p);
      var each, a := AbsorbEach(s, p, theirs), ReconcilePath(s, remote, p);
      var sends := UncoveredSends(p, HeadsAt(a.state.index, p), theirs);
      AbsorbEachKeepsSync(s, p, theirs, disk);
      SendsApplyNothing(p, HeadsAt(a.state.index, p), theirs);
      PerformConcat(disk, each.actions, sends);
      PerformNothing(Perform(disk, each.actions), sends);
      ReconcileKeepsSync(a.state, remote, todo - {p}, Perform(disk, a.actions));
      PerformConcat(disk, a.actions, Reconcile(a.state, remote, todo - {p}).actions);
    }
  }

  /** Performing a peer event's applies brings disk to the winners, however many heads the event
      absorbed. */
  lemma PeerEventKeepsSync(s: EngineState, event: Event, disk: Tree)
    requires InSync(s.index, disk) && !event.Local?
    ensures InSync(Handle(s, event).state.index, Perform(disk, Handle(s, event).actions))
  {
    hide InSync, AbsorbRemote, Reconcile, Perform;
    match event
    case Remote(change) => AbsorbKeepsSync(s, change.path, HeadOf(change), disk);
    case PeerIndex(remote) => ReconcileKeepsSync(s, remote, s.index.Keys + remote.Keys, disk);
  }

  // ---- Local events ----

  /** A local event that is not swallowed makes the engine believe what it reports. */
  lemma ProcessedLocalIsBelieved(s: EngineState, change: LocalChange)
    requires !Expected(s.echo, change.path, Observation(change.kind))
    ensures HandleLocal(s, change).state.echo == s.echo
    ensures SameExpectation(Observation(change.kind), Believed(HandleLocal(s, change).state.index, change.path))
    ensures forall p :: p != change.path ==> HeadsAt(HandleLocal(s, change).state.index, p) == HeadsAt(s.index, p)
  {
    hide Winner, Merged, Expected;
    var context: Clock := if change.path in s.index then Merged(s.index[change.path]) else map[];
    SingletonWinner(Head(Ticked(context, s.replica), StateFromKind(change.kind)));
  }

  /** The exact condition: after a local event the engine believes what was observed if and only
      if the event was not swallowed as an echo, or it already believed that. */
  lemma LocalBelievedIff(s: EngineState, change: LocalChange)
    ensures SameExpectation(Observation(change.kind), Believed(HandleLocal(s, change).state.index, change.path)) <==>
              !Expected(s.echo, change.path, Observation(change.kind))
              || SameExpectation(Observation(change.kind), Believed(s.index, change.path))
  {
    hide Winner, Merged, Expected, Believed;
    if !Expected(s.echo, change.path, Observation(change.kind)) {
      ProcessedLocalIsBelieved(s, change);
    }
  }

  /** What a local event does, exactly. An expected echo is retired and nothing else happens; an event
      that reports what is believed changes nothing at all; any other event leaves one minted head at
      its path, shipped and recorded. */
  lemma LocalEventOutcome(s: EngineState, change: LocalChange) returns (h: Head)
    ensures var t, observed := Handle(s, Local(change)), Observation(change.kind);
            if Expected(s.echo, change.path, observed) then
              t == Transition(s.(echo := JournalRetire(s.echo, change.path, observed)), [])
            else if SameExpectation(observed, Believed(s.index, change.path)) then
              t == Transition(s, [])
            else
              && Mints(s, change.path, h) && h.state == StateFromKind(change.kind)
              && t == Transition(s.(index := s.index[change.path := [h]]),
                                 [Send(ChangeOf(change.path, h)), RecordVersion(change.path, h.state, h.version)])
  {
    hide Winner, Merged, Expected, JournalRetire, Mints, LocalCollapse, Ticked;
    assert s == s.(echo := s.echo);
    h := CollapseMints(s, s.echo, change.path, StateFromKind(change.kind));
  }

  /** So a local event is silent if and only if it is an expected echo or already believed. */
  lemma LocalSilentIff(s: EngineState, change: LocalChange)
    ensures Handle(s, Local(change)).actions == []
            <==> Expected(s.echo, change.path, Observation(change.kind))
                 || SameExpectation(Observation(change.kind), Believed(s.index, change.path))
  {
    hide Handle, Expected, Believed, Mints;
    var h := LocalEventOutcome(s, change);
  }

  // ---- Quiescent points ----

  /** An engine, its disk, and the watcher events of its own writes that have not arrived yet. */
  datatype Machine = Machine(engine: EngineState, disk: Tree, pending: seq<LocalChange>)

  datatype Turn = PeerEvent(event: Event) | EchoArrives(n: nat) | UserEdit(change: LocalChange)

  /** One turn: a peer event and the writes it causes, whose echoes stay pending; any one pending
      echo; or a user edit and its watcher event, unless that event looks like an outstanding echo.
      A turn that is not possible changes nothing. */
  ghost function Play(m: Machine, turn: Turn): Machine {
    match turn
    case PeerEvent(event) =>
      if event.Local? then m
      else
        var t := Handle(m.engine, event);
        Machine(t.state, Perform(m.disk, t.actions), m.pending + EchoesOf(t.actions))
    case EchoArrives(n) =>
      if n >= |m.pending| then m
      else Machine(Handle(m.engine, Local(m.pending[n])).state, m.disk, m.pending[..n] + m.pending[n + 1..])
    case UserEdit(change) =>
      if Expected(m.engine.echo, change.path, Observation(change.kind)) then m
      else
        m.(engine := Handle(m.engine, Local(change)).state, disk := Write(m.disk, change.path, Observation(change.kind)))
  }

  ghost function PlayAll(m: Machine, turns: seq<Turn>): Machine {
    if turns == [] then m else Play(PlayAll(m, turns[..|turns| - 1]), turns[|turns| - 1])
  }

  /** The journal is exactly what is pending, as a multiset blind to mtime. */
  ghost predicate JournalIsPending(m: Machine) {
    forall p :: Bag(m.engine.echo, p) == EchoBag(m.pending, p)
  }

  /** Disk shows every winner, and the journal is what is pending. */
  ghost predicate Steady(m: Machine) {
    InSync(m.engine.index, m.disk) && JournalIsPending(m)
  }

  lemma PeerEventKeepsSteady(m: Machine, event: Event)
    requires Steady(m) && !event.Local?
    ensures Steady(Play(m, PeerEvent(event)))
  {
    hide InSync, Bag, Handle, Perform, EchoesOf, EchoBag;
    var t := Handle(m.engine, event);
    PeerEventKeepsSync(m.engine, event, m.disk);
    PeerEventJournals(m.engine, event);
    forall p
      ensures Bag(t.state.echo, p) == EchoBag(m.pending + EchoesOf(t.actions), p)
    {
      EchoBagConcat(m.pending, EchoesOf(t.actions), p);
    }
  }

  lemma SplitAt<T>(xs: seq<T>, n: nat)
    requires n < |xs|
    ensures xs == xs[..n] + [xs[n]] + xs[n + 1..]
  {
  }

  lemma SingleEchoBag(echo: LocalChange, p: RelPath)
    ensures EchoBag([echo], p) == OneEcho(echo, p)
  {
    assert [echo][..0] == [];
  }

  /** Any pending echo may arrive next: it causes no action, leaves the index alone, and is retired. */
  lemma EchoIsSilent(m: Machine, n: nat)
    requires JournalIsPending(m) && n < |m.pending|
    ensures Handle(m.engine, Local(m.pending[n])).actions == []
    ensures Handle(m.engine, Local(m.pending[n])).state.index == m.engine.index
    ensures JournalIsPending(Play(m, EchoArrives(n)))
  {
    hide Bag, Handle, EchoBag, Erase;
    var echo, front, back := m.pending[n], m.pending[..n], m.pending[n + 1..];
    SplitAt(m.pending, n);
    forall p
      ensures Bag(m.engine.echo, p) == EchoBag(front + back, p) + OneEcho(echo, p)
    {
      EchoBagAround(front, echo, back, p);
      SingleEchoBag(echo, p);
    }
    OneEchoAtItsPath(echo);
    EchoIsSwallowed(m.engine, echo);
  }

  lemma UserEditKeepsSteady(m: Machine, change: LocalChange)
    requires Steady(m)
    ensures Steady(Play(m, UserEdit(change)))
  {
    hide Expected, HandleLocal, Bag, Believed, EchoBag;
    var s, observed := m.engine, Observation(change.kind);
    if !Expected(s.echo, change.path, observed) {
      ProcessedLocalIsBelieved(s, change);
      WriteKeepsSync(s.index, m.disk, HandleLocal(s, change).state.index, Write(m.disk, change.path, observed), change.path);
    }
  }

  lemma TurnKeepsSteady(m: Machine, turn: Turn)
    requires Steady(m)
    ensures Steady(Play(m, turn))
  {
    hide JournalIsPending, InSync, Handle, Perform, Expected;
    match turn
    case PeerEvent(event) =>
      if !event.Local? {
        PeerEventKeepsSteady(m, event);
      }
    case EchoArrives(n) =>
      if n < |m.pending| {
        EchoIsSilent(m, n);
      }
    case UserEdit(change) => UserEditKeepsSteady(m, change);
  }

  /** In any interleaving of peer events, user edits and single echoes, where echoes may be delayed,
      clustered and reordered across events and paths, disk shows every winner at every moment and
      the journal is what is pending; whenever nothing is pending the journal is empty. */
  lemma {:induction false} DiskFollowsWinners(m: Machine, turns: seq<Turn>)
    requires Steady(m)
    ensures Steady(PlayAll(m, turns))
    ensures PlayAll(m, turns).pending == [] ==> NothingOutstanding(PlayAll(m, turns).engine.echo)
  {
    hide Play, InSync;
    if turns != [] {
      DiskFollowsWinners(m, turns[..|turns| - 1]);
      TurnKeepsSteady(PlayAll(m, turns[..|turns| - 1]), turns[|turns| - 1]);
    }
  }

  lemma FreshMachineIsSteady(replica: ReplicaId)
    ensures Steady(Machine(EngineState(replica, map[], map[]), map[], []))
  {
  }

  // ---- When echoes do not arrive ----

  /** Watchers may merge events. If the echo of an apply is merged into the user's next edit, its
      expectation stays journalled, and editing back to the applied content is swallowed: the
      engine is left believing the middle edit while disk shows the last. */
  lemma EditBackIsSwallowed(e: EngineState, p: RelPath, other: ReplicaId, applied: ContentSig, edited: ContentSig)
    requires p !in e.index && p !in e.echo && !SameSig(applied, edited)
    ensures var s1 := Handle(e, Remote(RemoteChange(p, Modified(applied), map[other := 1]))).state;
            var s2 := Handle(s1, Local(LocalChange(p, Modified(edited)))).state;
            var s3 := Handle(s2, Local(LocalChange(p, Modified(applied))));
            s3.actions == [] && Believed(s3.state.index, p) == FilePresent(edited)
  {
    hide Winner, Merged, Ticked;
    var h := Head(map[other := 1], Present(applied));
    var s1 := Handle(e, Remote(RemoteChange(p, Modified(applied), map[other := 1]))).state;
    assert s1.index[p] == [h] && Outstanding(s1.echo, p) == [FilePresent(applied)];
    SingletonWinner(h);
    var s2 := Handle(s1, Local(LocalChange(p, Modified(edited)))).state;
    assert !Expected(s1.echo, p, FilePresent(edited));
    var g := Head(Ticked(Merged([h]), e.replica), Present(edited));
    assert s2.index[p] == [g];
    SingletonWinner(g);
    assert Expected(s2.echo, p, FilePresent(applied));
  }
}
