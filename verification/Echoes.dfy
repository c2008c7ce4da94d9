/** Echo suppression: the writes an engine asks for are swallowed when the watcher reports them,
    and disk follows the winners. */
module Echoes {
  import opened Paths
  import opened Versions
  import opened Entries
  import opened EngineSpec

  /** An expectation as the journal sees it: without its mtime. */
  function Erase(x: Expectation): Expectation {
    match x
    case FilePresent(sig) => FilePresent(sig.(mtime := 0))
    case FileAbsent => FileAbsent
  }

  lemma EraseIsSame(a: Expectation, b: Expectation)
    ensures SameExpectation(a, b) <==> Erase(a) == Erase(b)
  {
  }

  ghost function Erased(list: seq<Expectation>): multiset<Expectation> {
    if list == [] then multiset{} else Erased(list[..|list| - 1]) + multiset{Erase(list[|list| - 1])}
  }

  /** The outstanding expectations at a path, as a multiset blind to mtime. */
  ghost function Bag(journal: Journal, p: RelPath): multiset<Expectation> {
    Erased(Outstanding(journal, p))
  }

  lemma {:induction false} ErasedConcat(a: seq<Expectation>, b: seq<Expectation>)
    ensures Erased(a + b) == Erased(a) + Erased(b)
    decreases |b|
  {
    if b == [] {
      assert a + b == a;
    } else {
      assert (a + b)[..|a + b| - 1] == a + b[..|b| - 1];
      ErasedConcat(a, b[..|b| - 1]);
    }
  }

  lemma ErasedOne(x: Expectation)
    ensures Erased([x]) == multiset{Erase(x)}
  {
    assert [x][..0] == [];
  }

  lemma ErasedAround(front: seq<Expectation>, x: Expectation, back: seq<Expectation>)
    ensures Erased(front + [x] + back) == Erased(front) + multiset{Erase(x)} + Erased(back)
  {
    hide Erased, Erase;
    ErasedConcat(front + [x], back);
    ErasedConcat(front, [x]);
    ErasedOne(x);
  }

  lemma SwapRemoveShape(list: seq<Expectation>, i: nat)
    requires i < |list| - 1
    ensures SwapRemove(list, i) == list[..i] + [list[|list| - 1]] + list[i + 1..|list| - 1]
  {
  }

  lemma ListShape<T>(list: seq<T>, i: nat)
    requires i < |list| - 1
    ensures list == list[..i] + [list[i]] + (list[i + 1..|list| - 1] + [list[|list| - 1]])
  {
  }

  lemma ErasedSwap(front: seq<Expectation>, x: Expectation, mid: seq<Expectation>, last: Expectation)
    ensures Erased(front + [last] + mid) == Erased(front + [x] + (mid + [last])) - multiset{Erase(x)}
  {
    hide Erased, Erase;
    ErasedAround(front, x, mid + [last]);
    ErasedAround(front, last, mid);
    ErasedConcat(mid, [last]);
    ErasedOne(last);
  }

  lemma ErasedSwapRemove(list: seq<Expectation>, i: nat)
    requires i < |list|
    ensures Erased(SwapRemove(list, i)) == Erased(list) - multiset{Erase(list[i])}
  {
    hide Erased, Erase, SwapRemove;
    var n := |list| - 1;
    if i == n {
      RemoveLastShape(list);
      ErasedAround(list[..n], list[n], []);
      ErasedNothing();
    } else {
      SwapRemoveShape(list, i);
      ListShape(list, i);
      ErasedSwap(list[..i], list[i], list[i + 1..n], list[n]);
    }
  }

  lemma RemoveLastShape(list: seq<Expectation>)
    requires list != []
    ensures SwapRemove(list, |list| - 1) == list[..|list| - 1]
    ensures list == list[..|list| - 1] + [list[|list| - 1]] + []
  {
  }

  lemma ErasedNothing()
    ensures Erased([]) == multiset{}
  {
  }

  lemma {:induction false} ErasedMembers(list: seq<Expectation>, x: Expectation)
    ensures Erase(x) in Erased(list) <==> Position(list, x) < |list|
  {
    if list != [] {
      var front, last := list[..|list| - 1], list[|list| - 1];
      ErasedMembers(front, x);
      EraseIsSame(last, x);
      var k := Position(front, x);
      assert forall j :: 0 <= j < |front| ==> list[j] == front[j];
      if k < |front| {
        assert SameExpectation(list[k], x);
      }
    }
  }

  /** Emitting journals one expectation; retiring takes one matching expectation away. */
  lemma JournalAddBag(journal: Journal, path: RelPath, target: Expectation, p: RelPath)
    ensures Bag(JournalAdd(journal, path, target), p) ==
              if p == path then Bag(journal, p) + multiset{Erase(target)} else Bag(journal, p)
  {
    var list := Outstanding(journal, path);
    assert (list + [target])[..|list + [target]| - 1] == list;
  }

  lemma JournalRetireBag(journal: Journal, path: RelPath, observed: Expectation, p: RelPath)
    ensures Expected(journal, path, observed) <==> Erase(observed) in Bag(journal, path)
    ensures Bag(JournalRetire(journal, path, observed), p) ==
              if p == path then Bag(journal, p) - multiset{Erase(observed)} else Bag(journal, p)
  {
    hide Erased, Erase, SwapRemove, SameExpectation, Position;
    var list := Outstanding(journal, path);
    ErasedNothing();
    ErasedMembers(list, observed);
    if Expected(journal, path, observed) {
      var i := Position(list, observed);
      ErasedSwapRemove(list, i);
      EraseIsSame(list[i], observed);
    }
  }

  // ---- Echoes ----

  function KindOfTarget(target: Expectation): ChangeKind {
    match target
    case FilePresent(sig) => Modified(sig)
    case FileAbsent => Removed
  }

  /** The local events that performing the actions' applies will cause. */
  ghost function EchoesOf(actions: seq<Action>): seq<LocalChange> {
    if actions == [] then []
    else
      var rest := EchoesOf(actions[..|actions| - 1]);
      match actions[|actions| - 1]
      case Apply(path, target) => rest + [LocalChange(path, KindOfTarget(target))]
      case _ => rest
  }

  ghost function OneEcho(echo: LocalChange, p: RelPath): multiset<Expectation> {
    if echo.path == p then multiset{Erase(Observation(echo.kind))} else multiset{}
  }

  ghost function EchoBag(echoes: seq<LocalChange>, p: RelPath): multiset<Expectation> {
    if echoes == [] then multiset{}
    else EchoBag(echoes[..|echoes| - 1], p) + OneEcho(echoes[|echoes| - 1], p)
  }

  ghost function Feed(s: EngineState, echoes: seq<LocalChange>): EngineState {
    if echoes == [] then s
    else Handle(Feed(s, echoes[..|echoes| - 1]), Local(echoes[|echoes| - 1])).state
  }

  /** Feeding the events causes no action at all. */
  ghost predicate Silent(s: EngineState, echoes: seq<LocalChange>) {
    echoes == [] ||
    (Silent(s, echoes[..|echoes| - 1]) &&
     Handle(Feed(s, echoes[..|echoes| - 1]), Local(echoes[|echoes| - 1])).actions == [])
  }

  lemma {:induction false} EchoesConcat(a: seq<Action>, b: seq<Action>)
    ensures EchoesOf(a + b) == EchoesOf(a) + EchoesOf(b)
    decreases |b|
  {
    if b == [] {
      assert a + b == a;
      assert EchoesOf(a) + [] == EchoesOf(a);
    } else {
      assert (a + b)[..|a + b| - 1] == a + b[..|b| - 1];
      EchoesConcat(a, b[..|b| - 1]);
    }
  }

  lemma {:induction false} EchoBagConcat(a: seq<LocalChange>, b: seq<LocalChange>, p: RelPath)
    ensures EchoBag(a + b, p) == EchoBag(a, p) + EchoBag(b, p)
    decreases |b|
  {
    if b == [] {
      assert a + b == a;
    } else {
      assert (a + b)[..|a + b| - 1] == a + b[..|b| - 1];
      EchoBagConcat(a, b[..|b| - 1], p);
    }
  }

  lemma TakeOut<T>(front: seq<T>, x: T, back: seq<T>)
    ensures multiset(front + [x] + back) == multiset(front + back) + multiset{x}
  {
  }

  lemma CancelOne<T>(x: multiset<T>, y: multiset<T>, e: T)
    requires x + multiset{e} == y + multiset{e}
    ensures x == y
  {
    assert x == (x + multiset{e}) - multiset{e};
    assert y == (y + multiset{e}) - multiset{e};
  }

  lemma EchoBagAround(front: seq<LocalChange>, x: LocalChange, back: seq<LocalChange>, p: RelPath)
    ensures EchoBag(front + [x] + back, p) == EchoBag(front + back, p) + EchoBag([x], p)
  {
    hide EchoBag;
    EchoBagConcat(front + [x], back, p);
    EchoBagConcat(front, [x], p);
    EchoBagConcat(front, back, p);
  }

  lemma {:induction false} EchoBagOfPermutation(a: seq<LocalChange>, b: seq<LocalChange>, p: RelPath)
    requires multiset(a) == multiset(b)
    ensures EchoBag(a, p) == EchoBag(b, p)
    decreases |a|
  {
    hide EchoBag;
    assert |multiset(a)| == |multiset(b)|;
    if a == [] {
      assert b == [];
    } else {
      var front, last := a[..|a| - 1], a[|a| - 1];
      assert a == front + [last] + [];
      assert last in multiset(b);
      var i :| 0 <= i < |b| && b[i] == last;
      var l, r := b[..i], b[i + 1..];
      assert b == l + [last] + r;
      TakeOut(front, last, []);
      TakeOut(l, last, r);
      assert front + [] == front;
      CancelOne(multiset(front), multiset(l + r), last);
      EchoBagOfPermutation(front, l + r, p);
      EchoBagAround(front, last, [], p);
      EchoBagAround(l, last, r, p);
    }
  }

  /** A journalled expectation swallows one matching local event. */
  lemma EchoIsSwallowed(s: EngineState, echo: LocalChange)
    requires Erase(Observation(echo.kind)) in Bag(s.echo, echo.path)
    ensures Handle(s, Local(echo)).actions == []
    ensures Handle(s, Local(echo)).state.replica == s.replica && Handle(s, Local(echo)).state.index == s.index
    ensures forall p :: Bag(Handle(s, Local(echo)).state.echo, p) == Bag(s.echo, p) - OneEcho(echo, p)
  {
    hide JournalRetire, Expected, Bag, Erase;
    var observed := Observation(echo.kind);
    forall p
      ensures Expected(s.echo, echo.path, observed)
      ensures Bag(JournalRetire(s.echo, echo.path, observed), p) ==
                if p == echo.path then Bag(s.echo, p) - multiset{Erase(observed)} else Bag(s.echo, p)
    {
      JournalRetireBag(s.echo, echo.path, observed, p);
    }
  }

  lemma OneEchoAtItsPath(echo: LocalChange)
    ensures Erase(Observation(echo.kind)) in OneEcho(echo, echo.path)
  {
  }

  lemma {:induction false} EchoesRetire(s: EngineState, echoes: seq<LocalChange>)
    requires forall p :: EchoBag(echoes, p) <= Bag(s.echo, p)
    ensures Silent(s, echoes)
    ensures Feed(s, echoes).replica == s.replica && Feed(s, echoes).index == s.index
    ensures forall p :: Bag(Feed(s, echoes).echo, p) == Bag(s.echo, p) - EchoBag(echoes, p)
  {
    hide Handle, Bag, Erase, OneEcho;
    if echoes != [] {
      var front, last := echoes[..|echoes| - 1], echoes[|echoes| - 1];
      forall p
        ensures EchoBag(front, p) <= Bag(s.echo, p)
      {
        assert EchoBag(echoes, p) <= Bag(s.echo, p);
      }
      EchoesRetire(s, front);
      assert EchoBag(echoes, last.path) <= Bag(s.echo, last.path);
      OneEchoAtItsPath(last);
      EchoIsSwallowed(Feed(s, front), last);
    }
  }

  // ---- What an event journals ----

  /** The event journalled exactly the applies it asked for. */
  ghost predicate Journals(before: Journal, t: Transition) {
    forall p :: Bag(t.state.echo, p) == Bag(before, p) + EchoBag(EchoesOf(t.actions), p)
  }

  lemma JournalsCompose(before: Journal, a: Transition, b: Transition)
    requires Journals(before, a) && Journals(a.state.echo, b)
    ensures Journals(before, Transition(b.state, a.actions + b.actions))
  {
    hide Bag, EchoBag, EchoesOf;
    EchoesConcat(a.actions, b.actions);
    forall p
      ensures Bag(b.state.echo, p) == Bag(before, p) + EchoBag(EchoesOf(a.actions + b.actions), p)
    {
      EchoBagConcat(EchoesOf(a.actions), EchoesOf(b.actions), p);
    }
  }

  lemma {:induction false} NoApplyNoEcho(actions: seq<Action>)
    requires forall a :: a in actions ==> !a.Apply?
    ensures EchoesOf(actions) == []
  {
    if actions != [] {
      assert actions[|actions| - 1] in actions;
      assert forall a :: a in actions[..|actions| - 1] ==> a in actions;
      NoApplyNoEcho(actions[..|actions| - 1]);
    }
  }

  lemma {:induction false} ConflictsApplyNothing(path: RelPath, heads: seq<Head>, winner: Head, adopted: bool)
    ensures forall a :: a in ConflictActions(path, heads, winner, adopted) ==> !a.Apply?
  {
    if heads != [] {
      ConflictsApplyNothing(path, heads[..|heads| - 1], winner, adopted);
    }
  }

  lemma QuietJournals(journal: Journal, t: Transition)
    requires t.state.echo == journal && EchoesOf(t.actions) == []
    ensures Journals(journal, t)
  {
  }

  /** One apply, then actions that apply nothing. */
  lemma OneApplyJournals(journal: Journal, t: Transition, path: RelPath, target: Expectation, rest: seq<Action>)
    requires t.state.echo == JournalAdd(journal, path, target)
    requires t.actions == [Apply(path, target)] + rest && EchoesOf(rest) == []
    ensures Journals(journal, t)
  {
    hide Bag, JournalAdd;
    EchoesConcat([Apply(path, target)], rest);
    assert [Apply(path, target)][..0] == [];
    assert EchoesOf([Apply(path, target)]) == [LocalChange(path, KindOfTarget(target))];
    assert EchoesOf(t.actions) == [LocalChange(path, KindOfTarget(target))];
    forall p
      ensures Bag(t.state.echo, p) == Bag(journal, p) + EchoBag(EchoesOf(t.actions), p)
    {
      JournalAddBag(journal, path, target, p);
    }
  }

  lemma AnnounceJournals(s: EngineState, path: RelPath, h: Head, after: Heads, outcome: AbsorbOutcome)
    requires outcome.Absorbed?
    ensures Journals(s.echo, Announce(s, path, h, after, outcome))
  {
    hide Journals, JournalAdd, ConflictActions;
    var t := Announce(s, path, h, after, outcome);
    var winner := Winner(after);
    var conflicts := if outcome.newConflict then ConflictActions(path, after, winner, AdoptionMode(after)) else [];
    var records := if outcome.novelContent then [RecordVersion(path, h.state, h.version)] else [];
    ConflictsApplyNothing(path, after, winner, AdoptionMode(after));
    NoApplyNoEcho(conflicts + records);
    if outcome.winnerChanged {
      var target := ExpectationFromState(winner.state);
      assert t.actions == [Apply(path, target)] + (conflicts + records);
      OneApplyJournals(s.echo, t, path, target, conflicts + records);
    } else {
      assert t.actions == conflicts + records;
      QuietJournals(s.echo, t);
    }
  }

  lemma AbsorbJournals(s: EngineState, path: RelPath, h: Head)
    ensures Journals(s.echo, AbsorbRemote(s, path, h))
  {
    hide Journals, JournalAdd, Announce, Outcome;
    var t := AbsorbRemote(s, path, h);
    if path !in s.index {
      var record := RecordVersion(path, h.state, h.version);
      NoApplyNoEcho([record]);
      if h.state.Present? {
        var target := FilePresent(h.state.sig);
        assert t.actions == [Apply(path, target)] + [record];
        OneApplyJournals(s.echo, t, path, target, [record]);
      } else {
        QuietJournals(s.echo, t);
      }
    } else {
      var outcome := Outcome(s.index[path], h);
      if outcome == AlreadyKnown {
        QuietJournals(s.echo, t);
      } else {
        AnnounceJournals(s, path, h, AbsorbHeads(s.index[path], h), outcome);
      }
    }
  }

  lemma {:induction false} AbsorbEachJournals(s: EngineState, path: RelPath, heads: seq<Head>)
    ensures Journals(s.echo, AbsorbEach(s, path, heads))
  {
    hide Journals, AbsorbRemote;
    if heads == [] {
      QuietJournals(s.echo, Transition(s, []));
    } else {
      var a := AbsorbEach(s, path, heads[..|heads| - 1]);
      AbsorbEachJournals(s, path, heads[..|heads| - 1]);
      AbsorbJournals(a.state, path, heads[|heads| - 1]);
      JournalsCompose(s.echo, a, AbsorbRemote(a.state, path, heads[|heads| - 1]));
    }
  }

  lemma {:induction false} SendsApplyNothing(path: RelPath, ours: seq<Head>, theirs: seq<Head>)
    ensures forall a :: a in UncoveredSends(path, ours, theirs) ==> !a.Apply?
  {
    if ours != [] {
      SendsApplyNothing(path, ours[..|ours| - 1], theirs);
    }
  }

  lemma {:induction false} ReconcileJournals(s: EngineState, remote: Index, todo: set<RelPath>)
    ensures Journals(s.echo, Reconcile(s, remote, todo))
    decreases |todo|
  {
    hide Journals, AbsorbRemote, AbsorbEach;
    if todo == {} {
      QuietJournals(s.echo, Transition(s, []));
    } else {
      var p := FirstPath(todo);
      var theirs := HeadsAt(remote, p);
      var each, a := AbsorbEach(s, p, theirs), ReconcilePath(s, remote, p);
      var sends := UncoveredSends(p, HeadsAt(a.state.index, p), theirs);
      AbsorbEachJournals(s, p, theirs);
      SendsApplyNothing(p, HeadsAt(a.state.index, p), theirs);
      NoApplyNoEcho(sends);
      QuietJournals(a.state.echo, Transition(a.state, sends));
      JournalsCompose(s.echo, each, Transition(a.state, sends));
      ReconcileJournals(a.state, remote, todo - {p});
      JournalsCompose(s.echo, a, Reconcile(a.state, remote, todo - {p}));
    }
  }

  lemma PeerEventJournals(s: EngineState, event: Event)
    requires !event.Local?
    ensures Journals(s.echo, Handle(s, event))
  {
    hide Journals, AbsorbRemote, Reconcile;
    match event
    case Remote(change) => AbsorbJournals(s, change.path, HeadOf(change));
    case PeerIndex(remote) => ReconcileJournals(s, remote, s.index.Keys + remote.Keys);
  }

  /** Echo closure: after any peer event, feeding back every apply's echo, in any order, causes no
      action, leaves the index alone, and restores the journal as a multiset blind to mtime. */
  lemma EchoClosure(s: EngineState, event: Event, echoes: seq<LocalChange>)
    requires !event.Local? && multiset(echoes) == multiset(EchoesOf(Handle(s, event).actions))
    ensures Silent(Handle(s, event).state, echoes)
    ensures Feed(Handle(s, event).state, echoes).replica == Handle(s, event).state.replica
    ensures Feed(Handle(s, event).state, echoes).index == Handle(s, event).state.index
    ensures forall p :: Bag(Feed(Handle(s, event).state, echoes).echo, p) == Bag(s.echo, p)
  {
    hide Handle, Bag, EchoBag, Silent, Feed, EchoesOf;
    var t := Handle(s, event);
    PeerEventJournals(s, event);
    forall p
      ensures EchoBag(echoes, p) == EchoBag(EchoesOf(t.actions), p)
    {
      EchoBagOfPermutation(echoes, EchoesOf(t.actions), p);
    }
    EchoesRetire(t.state, echoes);
  }
}
