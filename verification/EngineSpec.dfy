/** The engine's transition function on values: what each event does to one replica's index and
    echo journal, and which actions it asks for. The class in `Engines` is proved equal to it. */
module EngineSpec {
  import opened Clocks
  import opened Paths
  import opened Versions
  import opened Entries

  type Index = map<RelPath, Heads>

  /** The content of a path on disk, wanted or observed. */
  datatype Expectation = FilePresent(sig: ContentSig) | FileAbsent

  /** The source's `==` on expectations: blind to mtime. */
  predicate SameExpectation(a: Expectation, b: Expectation) {
    match (a, b)
    case (FilePresent(x), FilePresent(y)) => SameSig(x, y)
    case (FileAbsent, FileAbsent) => true
    case _ => false
  }

  function ExpectationFromState(state: EntryState): Expectation {
    match state
    case Present(sig) => FilePresent(sig)
    case Tombstone => FileAbsent
  }

  datatype Event = Local(local: LocalChange) | Remote(remote: RemoteChange) | PeerIndex(index: Index)

  datatype Action =
    | Send(change: RemoteChange)
    | Apply(path: RelPath, target: Expectation)
    | RecordVersion(path: RelPath, state: EntryState, version: Clock)
    | ConflictResolved(path: RelPath, winner: Head, loser: Head, adopted: bool)

  /** Per path, the targets of applies whose watcher events are still awaited. */
  type Journal = map<RelPath, seq<Expectation>>

  datatype EngineState = EngineState(replica: ReplicaId, index: Index, echo: Journal)
  datatype Transition = Transition(state: EngineState, actions: seq<Action>)

  function ChangeOf(path: RelPath, h: Head): RemoteChange {
    RemoteChange(path, KindFromState(h.state), h.version)
  }

  function HeadOf(change: RemoteChange): Head {
    Head(change.version, StateFromKind(change.kind))
  }

  lemma ChangeRoundTrip(path: RelPath, h: Head, change: RemoteChange)
    ensures HeadOf(ChangeOf(path, h)) == h
    ensures ChangeOf(change.path, HeadOf(change)) == change
  {
  }

  function HeadsAt(index: Index, path: RelPath): seq<Head> {
    if path in index then index[path] else []
  }

  // ---- The echo journal ----

  function Outstanding(journal: Journal, path: RelPath): seq<Expectation> {
    if path in journal then journal[path] else []
  }

  function JournalAdd(journal: Journal, path: RelPath, target: Expectation): Journal {
    journal[path := Outstanding(journal, path) + [target]]
  }

  /** The first position holding `observed`, or the length of the list. */
  function Position(list: seq<Expectation>, observed: Expectation): (i: nat)
    ensures i <= |list|
    ensures i < |list| ==> SameExpectation(list[i], observed)
    ensures forall k :: 0 <= k < i ==> !SameExpectation(list[k], observed)
  {
    if list == [] then 0
    else if SameExpectation(list[0], observed) then 0
    else
      var i := Position(list[1..], observed);
      assert forall k :: 1 <= k < i + 1 ==> list[k] == list[1..][k - 1];
      i + 1
  }

  /** `Vec::swap_remove`: the last element takes the removed one's place. */
  function SwapRemove(list: seq<Expectation>, i: nat): seq<Expectation>
    requires i < |list|
  {
    list[i := list[|list| - 1]][..|list| - 1]
  }

  predicate Expected(journal: Journal, path: RelPath, observed: Expectation) {
    Position(Outstanding(journal, path), observed) < |Outstanding(journal, path)|
  }

  function JournalRetire(journal: Journal, path: RelPath, observed: Expectation): Journal {
    if !Expected(journal, path, observed) then journal
    else
      var list := SwapRemove(journal[path], Position(journal[path], observed));
      if list == [] then journal - {path} else journal[path := list]
  }

  // ---- Local events ----

  ghost function LocalCollapse(s: EngineState, path: RelPath, state: EntryState): Transition {
    var context: Clock := if path in s.index then Merged(s.index[path]) else map[];
    var h := Head(Ticked(context, s.replica), state);
    Transition(s.(index := s.index[path := [h]]),
               [Send(ChangeOf(path, h)), RecordVersion(path, state, h.version)])
  }

  ghost function LocalModified(s: EngineState, path: RelPath, sig: ContentSig): Transition {
    if path in s.index && SameState(Winner(s.index[path]).state, Present(sig))
    then Transition(s, [])
    else LocalCollapse(s, path, Present(sig))
  }

  ghost function LocalRemoved(s: EngineState, path: RelPath): Transition {
    if path !in s.index || Winner(s.index[path]).state == Tombstone
    then Transition(s, [])
    else LocalCollapse(s, path, Tombstone)
  }

  function Observation(kind: ChangeKind): Expectation {
    match kind
    case Modified(sig) => FilePresent(sig)
    case Removed => FileAbsent
  }

  ghost function HandleLocal(s: EngineState, change: LocalChange): Transition {
    if Expected(s.echo, change.path, Observation(change.kind))
    then Transition(s.(echo := JournalRetire(s.echo, change.path, Observation(change.kind))), [])
    else
      match change.kind
      case Modified(sig) => LocalModified(s, change.path, sig)
      case Removed => LocalRemoved(s, change.path)
  }

  // ---- Remote events ----

  ghost function ConflictActions(path: RelPath, heads: seq<Head>, winner: Head, adopted: bool): seq<Action> {
    if heads == [] then []
    else
      var rest := ConflictActions(path, heads[..|heads| - 1], winner, adopted);
      var last := heads[|heads| - 1];
      if SameHead(last, winner) then rest else rest + [ConflictResolved(path, winner, last, adopted)]
  }

  ghost function RemoteUnseen(s: EngineState, path: RelPath, h: Head): Transition {
    var s' := s.(index := s.index[path := [h]]);
    var record := RecordVersion(path, h.state, h.version);
    if h.state.Present? then
      var target := FilePresent(h.state.sig);
      Transition(s'.(echo := JournalAdd(s.echo, path, target)), [Apply(path, target), record])
    else Transition(s', [record])
  }

  /** Store the absorbed heads and report what changed. */
  ghost function Announce(s: EngineState, path: RelPath, h: Head, after: Heads, outcome: AbsorbOutcome): Transition
    requires outcome.Absorbed?
  {
    var winner := Winner(after);
    var target := ExpectationFromState(winner.state);
    Transition(
      s.(index := s.index[path := after],
         echo := if outcome.winnerChanged then JournalAdd(s.echo, path, target) else s.echo),
      (if outcome.winnerChanged then [Apply(path, target)] else [])
      + (if outcome.newConflict then ConflictActions(path, after, winner, AdoptionMode(after)) else [])
      + (if outcome.novelContent then [RecordVersion(path, h.state, h.version)] else []))
  }

  ghost function RemoteSeen(s: EngineState, path: RelPath, h: Head): Transition
    requires path in s.index
  {
    var outcome := Outcome(s.index[path], h);
    if outcome == AlreadyKnown then Transition(s, [])
    else Announce(s, path, h, AbsorbHeads(s.index[path], h), outcome)
  }

  ghost function AbsorbRemote(s: EngineState, path: RelPath, h: Head): Transition {
    if path in s.index then RemoteSeen(s, path, h) else RemoteUnseen(s, path, h)
  }

  // ---- Reconciliation ----

  ghost function AbsorbEach(s: EngineState, path: RelPath, heads: seq<Head>): Transition {
    if heads == [] then Transition(s, [])
    else
      var a := AbsorbEach(s, path, heads[..|heads| - 1]);
      var b := AbsorbRemote(a.state, path, heads[|heads| - 1]);
      Transition(b.state, a.actions + b.actions)
  }

  /** One send for each of our heads that theirs do not cover, in order. */
  ghost function UncoveredSends(path: RelPath, ours: seq<Head>, theirs: seq<Head>): seq<Action> {
    if ours == [] then []
    else
      var rest := UncoveredSends(path, ours[..|ours| - 1], theirs);
      var last := ours[|ours| - 1];
      if Covers(theirs, last.version) then rest else rest + [Send(ChangeOf(path, last))]
  }

  ghost function ReconcilePath(s: EngineState, remote: Index, path: RelPath): Transition {
    var theirs := HeadsAt(remote, path);
    var a := AbsorbEach(s, path, theirs);
    Transition(a.state, a.actions + UncoveredSends(path, HeadsAt(a.state.index, path), theirs))
  }

  /** One pass over `todo` in ascending path order. */
  ghost function Reconcile(s: EngineState, remote: Index, todo: set<RelPath>): Transition
    decreases |todo|
  {
    if todo == {} then Transition(s, [])
    else
      var p := FirstPath(todo);
      var a := ReconcilePath(s, remote, p);
      var b := Reconcile(a.state, remote, todo - {p});
      Transition(b.state, a.actions + b.actions)
  }

  ghost function Handle(s: EngineState, event: Event): Transition {
    match event
    case Local(change) => HandleLocal(s, change)
    case Remote(change) => AbsorbRemote(s, change.path, HeadOf(change))
    case PeerIndex(remote) => Reconcile(s, remote, s.index.Keys + remote.Keys)
  }
}
