/** The sync engine of one replica, updated in place, proved equal to `EngineSpec.Handle`. */
module Engines {
  import opened Bytes
  import opened Clocks
  import opened Paths
  import opened Versions
  import opened Entries
  import opened EngineSpec

  class EchoJournal {
    var outstanding: Journal

    constructor ()
      ensures outstanding == map[]
    {
      outstanding := map[];
    }

    method Add(path: RelPath, target: Expectation)
      modifies this
      ensures outstanding == JournalAdd(old(outstanding), path, target)
    {
      var list := if path in outstanding then outstanding[path] else [];
      outstanding := outstanding[path := list + [target]];
    }

    /** Read-only: nothing is retired. */
    method Contains(path: RelPath, observed: Expectation) returns (found: bool)
      ensures found == Expected(outstanding, path, observed)
    {
      found := path in outstanding && Position(outstanding[path], observed) < |outstanding[path]|;
    }

    method Retire(path: RelPath, observed: Expectation) returns (retired: bool)
      modifies this
      ensures retired == Expected(old(outstanding), path, observed)
      ensures outstanding == JournalRetire(old(outstanding), path, observed)
    {
      if path !in outstanding {
        return false;
      }
      var list := outstanding[path];
      var i := 0;
      while i < |list| && !SameExpectation(list[i], observed)
        invariant 0 <= i <= |list|
        invariant forall k :: 0 <= k < i ==> !SameExpectation(list[k], observed)
      {
        i := i + 1;
      }
      assert i == Position(list, observed);
      if i == |list| {
        return false;
      }
      list := SwapRemove(list, i);
      outstanding := outstanding[path := list];
      if list == [] {
        outstanding := outstanding - {path};
      }
      return true;
    }
  }

  lemma ReconcileStep(s: EngineState, remote: Index, todo: set<RelPath>)
    requires todo != {}
    ensures var a := ReconcilePath(s, remote, FirstPath(todo));
            var b := Reconcile(a.state, remote, todo - {FirstPath(todo)});
            Reconcile(s, remote, todo) == Transition(b.state, a.actions + b.actions)
  {
    hide ReconcilePath;
  }

  lemma NothingToReconcile(s: EngineState, remote: Index)
    ensures Reconcile(s, remote, {}) == Transition(s, [])
  {
  }

  class Engine {
    const replica: ReplicaId
    var index: Index
    const echo: EchoJournal

    /** Any index to start from; no write is outstanding. */
    constructor (replica: ReplicaId, index: Index)
      ensures fresh(echo)
      ensures View() == EngineState(replica, index, map[])
    {
      this.replica := replica;
      this.index := index;
      this.echo := new EchoJournal();
    }

    ghost function View(): EngineState
      reads this, echo
    {
      EngineState(replica, index, echo.outstanding)
    }

    method IsExpectedEcho(path: RelPath, observed: Expectation) returns (expected: bool)
      ensures expected == Expected(View().echo, path, observed)
    {
      expected := echo.Contains(path, observed);
    }

    method HandleEvent(event: Event) returns (actions: seq<Action>)
      modifies this, echo
      ensures View() == Handle(old(View()), event).state
      ensures actions == Handle(old(View()), event).actions
    {
      match event
      case Local(change) => actions := OnLocal(change);
      case Remote(change) => actions := OnRemote(change.path, HeadOf(change));
      case PeerIndex(remote) => actions := OnPeerIndex(remote);
    }

    // ---- Local events ----

    method OnLocal(change: LocalChange) returns (actions: seq<Action>)
      modifies this, echo
      ensures View() == HandleLocal(old(View()), change).state
      ensures actions == HandleLocal(old(View()), change).actions
    {
      match change.kind
      case Modified(sig) =>
        var echoed := echo.Retire(change.path, FilePresent(sig));
        if echoed {
          return [];
        }
        actions := OnModified(change.path, sig);
      case Removed =>
        var echoed := echo.Retire(change.path, FileAbsent);
        if echoed {
          return [];
        }
        actions := OnRemoved(change.path);
    }

    method OnModified(path: RelPath, sig: ContentSig) returns (actions: seq<Action>)
      modifies this
      ensures View() == LocalModified(old(View()), path, sig).state
      ensures actions == LocalModified(old(View()), path, sig).actions
    {
      var version := new VectorClock();
      if path in index {
        var entry := new Entry.Clone(index[path]);
        var winner := entry.GetWinner();
        if SameState(winner.state, Present(sig)) {
          return [];
        }
        version := entry.MergedClock();
      }
      version.Tick(replica);
      actions := Upsert(path, Present(sig), version.counters);
    }

    method OnRemoved(path: RelPath) returns (actions: seq<Action>)
      modifies this
      ensures View() == LocalRemoved(old(View()), path).state
      ensures actions == LocalRemoved(old(View()), path).actions
    {
      if path !in index {
        return [];
      }
      var entry := new Entry.Clone(index[path]);
      var winner := entry.GetWinner();
      if winner.state == Tombstone {
        return [];
      }
      var version := entry.MergedClock();
      version.Tick(replica);
      actions := Upsert(path, Tombstone, version.counters);
    }

    /** Collapse the entry to one head and announce it. */
    method Upsert(path: RelPath, state: EntryState, version: Clock) returns (actions: seq<Action>)
      modifies this`index
      ensures index == old(index)[path := [Head(version, state)]]
      ensures actions == [Send(ChangeOf(path, Head(version, state))), RecordVersion(path, state, version)]
    {
      var entry := new Entry.Single(version, state);
      index := index[path := entry.heads];
      actions := [Send(RemoteChange(path, KindFromState(state), version)), RecordVersion(path, state, version)];
    }

    // ---- Remote events ----

    method OnRemote(path: RelPath, head: Head) returns (actions: seq<Action>)
      modifies this, echo
      ensures View() == AbsorbRemote(old(View()), path, head).state
      ensures actions == AbsorbRemote(old(View()), path, head).actions
    {
      hide ConflictActions, Winner, AdoptionMode, AbsorbHeads, Outcome, RemoteUnseen, JournalAdd;
      if path !in index {
        actions := OnUnseen(path, head);
        return;
      }
      var entry := new Entry.Clone(index[path]);
      var outcome := entry.Absorb(head.version, head.state);
      if outcome == AlreadyKnown {
        return [];
      }
      var winner := entry.GetWinner();
      var applies: seq<Action> := [];
      if outcome.winnerChanged {
        var apply := EmitApply(path, ExpectationFromState(winner.state));
        applies := [apply];
      }
      var conflicts: seq<Action> := [];
      if outcome.newConflict {
        var adopted := entry.InAdoptionMode();
        conflicts := Losers(path, entry.heads, winner, adopted);
      }
      var records: seq<Action> := [];
      if outcome.novelContent {
        records := [RecordVersion(path, head.state, head.version)];
      }
      index := index[path := entry.heads];
      actions := applies + conflicts + records;
    }

    static method Losers(path: RelPath, heads: seq<Head>, winner: Head, adopted: bool)
      returns (actions: seq<Action>)
      ensures actions == ConflictActions(path, heads, winner, adopted)
    {
      actions := [];
      for n := 0 to |heads|
        invariant actions == ConflictActions(path, heads[..n], winner, adopted)
      {
        assert heads[..n + 1][..n] == heads[..n];
        if !SameHead(heads[n], winner) {
          actions := actions + [ConflictResolved(path, winner, heads[n], adopted)];
        }
      }
      assert heads[..|heads|] == heads;
    }

    method OnUnseen(path: RelPath, head: Head) returns (actions: seq<Action>)
      requires path !in index
      modifies this, echo
      ensures View() == RemoteUnseen(old(View()), path, head).state
      ensures actions == RemoteUnseen(old(View()), path, head).actions
    {
      index := index[path := [head]];
      var record := RecordVersion(path, head.state, head.version);
      actions := [record];
      if head.state.Present? {
        var apply := EmitApply(path, FilePresent(head.state.sig));
        actions := [apply, record];
      }
    }

    /** Journal the target for echo suppression; the caller queues the apply. */
    method EmitApply(path: RelPath, target: Expectation) returns (action: Action)
      modifies echo
      ensures echo.outstanding == JournalAdd(old(echo.outstanding), path, target)
      ensures action == Apply(path, target)
    {
      echo.Add(path, target);
      action := Apply(path, target);
    }

    // ---- Reconciliation ----

    method OnPeerIndex(remote: Index) returns (actions: seq<Action>)
      modifies this, echo
      ensures View() == Handle(old(View()), PeerIndex(remote)).state
      ensures actions == Handle(old(View()), PeerIndex(remote)).actions
    {
      hide Reconcile, ReconcilePath, HandleLocal, AbsorbRemote, FirstPath;
      var todo := index.Keys + remote.Keys;
      ghost var whole := Reconcile(View(), remote, todo);
      actions := [];
      assert [] + whole.actions == whole.actions;
      while todo != {}
        invariant whole.state == Reconcile(View(), remote, todo).state
        invariant whole.actions == actions + Reconcile(View(), remote, todo).actions
        decreases todo
      {
        var p := FirstOf(todo);
        ReconcileStep(View(), remote, todo);
        var more := OnPeerPath(remote, p);
        Associate(actions, more, Reconcile(View(), remote, todo - {p}).actions);
        actions := actions + more;
        todo := todo - {p};
      }
      NothingToReconcile(View(), remote);
    }

    method OnPeerPath(remote: Index, path: RelPath) returns (actions: seq<Action>)
      modifies this, echo
      ensures View() == ReconcilePath(old(View()), remote, path).state
      ensures actions == ReconcilePath(old(View()), remote, path).actions
    {
      actions := [];
      var theirs := if path in remote then remote[path] else [];
      for n := 0 to |theirs|
        invariant View() == AbsorbEach(old(View()), path, theirs[..n]).state
        invariant actions == AbsorbEach(old(View()), path, theirs[..n]).actions
      {
        assert theirs[..n + 1][..n] == theirs[..n];
        var more := OnRemote(path, theirs[n]);
        actions := actions + more;
      }
      assert theirs[..|theirs|] == theirs;
      if path in index {
        var sends := Uncovered(path, index[path], theirs);
        actions := actions + sends;
      }
    }

    static method Uncovered(path: RelPath, ours: seq<Head>, theirs: seq<Head>) returns (actions: seq<Action>)
      ensures actions == UncoveredSends(path, ours, theirs)
    {
      actions := [];
      for n := 0 to |ours|
        invariant actions == UncoveredSends(path, ours[..n], theirs)
      {
        assert ours[..n + 1][..n] == ours[..n];
        var covered := false;
        for k := 0 to |theirs|
          invariant covered <==> exists i :: 0 <= i < k && Leq(ours[n].version, theirs[i].version)
        {
          var verdict := VectorClock.Compare(ours[n].version, theirs[k].version);
          if verdict == Before || verdict == Causality.Equal {
            covered := true;
          }
        }
        if !covered {
          actions := actions + [Send(RemoteChange(path, KindFromState(ours[n].state), ours[n].version))];
        }
      }
      assert ours[..|ours|] == ours;
    }
  }
}
