# Verified model of the Tomo sync core

Tomo keeps directory trees on several machines in step. Each replica runs a pure sync engine:
every path is a multi-value register holding an antichain of vector-clocked heads, remote versions
are joined in, a deterministic winner is what disk shows, and an echo journal swallows the
engine's own writes. Around it sit a history pressure controller (which captures to record now and
which to coalesce), a content-addressed history store, a length-prefixed wire format, a startup
scan with an mtime cache, and a small glob matcher for `ssh_config`.

This project models these components in Dafny and proves what the repository promises of them:
statements over every input, every call sequence, or every run of a network of replicas.

## How it is organised

Code that updates things in place is modelled by classes and methods with loops; each is proved
equal to a function on values, and the theorems are about those functions and about runs of them.

| files | contents |
|---|---|
| `Bytes`, `Options`, `Paths`, `Sorting` | byte order, little-endian integers, ascending paths, sort and maximum by a comparison |
| `Clocks`, `Versions`, `Entries` | vector clocks, signatures and heads with their canonical bytes, and the entry class with absorb and winner |
| `Joins`, `Winners`, `Digest` | absorb is the lattice join; the winner is a strict maximum; the digest is injective |
| `EngineSpec`, `Engines`, `EngineFacts` | the engine on values, the engine class, what each event does to index and network |
| `Network`, `Convergence`, `Reconnect` | N replicas over an unreliable network, its inductive invariant, convergence, reconnection |
| `Echoes`, `Disk`, `ApplyGuard` | the echo journal, disk against winners, the guarded apply step |
| `PressureSpec`, `Pressure`, `PressureRuns`, `Pacing` | the pressure controller and its guarantees over every call sequence |
| `Frames` | frame encoder and push-based decoder |
| `Globs` | the last-star backtracking loop and the language of a pattern |
| `HistorySpec`, `History`, `HistoryRuns`, `HistoryReads` | the history store with tables as maps, its guarantees over every call sequence, and what it reads and reports over any tables |
| `ScanSpec`, `Scans`, `ScanFacts`, `ScanTrees` | the startup scan over an abstract tree, its cache, and which files it finds |

## What the model assumes

- **Network.** The network is the set of every change ever shipped. A change may be delivered to any
  replica at any time and any number of times, so reordering, duplication and loss are all runs.
  Any index snapshot may be handed to any replica later. A restart keeps the index and empties the
  echo journal.
- **Counters** are naturals. Where bytes are compared, a theorem asks that every clock fits the
  `u64` that stores it (`FitsU64`, `NetFits`, `HeadsFit`).
- **Hashing, compression, chunking, serialization** are parameters. The store's theorems ask that no
  two of the byte strings that occur share a hash, that compression is lossless on the pieces, and
  that the pieces of a content tile it (`Trustworthy`; `HistoryRuns.PlainCodecIsTrustworthy` shows that
  this can be met). The frame theorems ask that decoding undoes encoding (`RoundTrips`).
- **Time** is an argument of every controller call; only the theorems about rate and decay ask that it
  does not go back. The arrival-rate threshold is a real number, so a threshold that is not a
  number is outside the model.
- **An echo reports what its apply wrote.** Echoes may be late and in any order; watchers that merge
  several events into one are the subject of `Disk.EditBackIsSwallowed`.
- **The tree does not change during a scan.** Path naming, Unicode normalisation and ignore rules are
  two functions on names and paths.

## Where the code and its documentation part ways

The model follows the code. Each difference is a lemma with the exact condition, and an example where
the promise fails.

- Adoption mode is documented as happening only at the first contact of two trees. It is a property
  of one path: two replicas that create the same new path concurrently are in it at any time
  (`Winners.EveryNewPathIsGenesis`). With two replicas, an entry of several heads is in it exactly
  when no head's clock names both (`Winners.AdoptionIffUnshared`), and with any number it never
  returns for a path once a version naming all replicas is covered (`Winners.AdoptionNeverReturns`).
- Canonical bytes leave out the modification time that adoption mode reads, so they do not always
  determine the winner (`Digest.BytesDoNotDetermineWinner`). They do exactly outside adoption mode,
  or with at most one head present (`Digest.BytesFixWinnerIff`). Between the replicas of a run they
  determine the whole index, because a clock names one version with its modification time
  (`Digest.BytesIdentifyReachableIndices`, `Convergence.ClockIdentity`).
- Not every conflict is reported: one that appears while the entry already holds several heads is
  silent (`Winners.UnreportedConflict`), and exactly those are (`Winners.ConflictSurfacedIff`).
- An echo that never arrives on its own stays journalled, and a later edit back to the applied content
  is swallowed (`Disk.EditBackIsSwallowed`). A local event is lost exactly when it is taken for an
  echo and was not believed already (`Disk.LocalBelievedIff`, and for a whole scan
  `ScanFacts.SecondScanEmptyIff`).
- The store's identity of a version is path, present-or-deleted, and clock; a second record with other
  content under that identity is accepted and its content dropped
  (`HistoryRuns.OtherContentIsDropped`). A record reads back what it brought exactly when its id is
  new or the row already had that content (`HistoryRuns.RecordReadsBackIff`).
- The glob loop tests a literal match before the star branch, so a star in the text defeats some
  pattern (`Globs.StarDefeats`), and only a star does (`Globs.ExactIffStarless`).
- A reused hash needs no read, so a cached scan can succeed on a tree whose cache-free scan fails
  (`ScanFacts.CachedScanCanSucceedAlone`), exactly when some file is unreadable and the cache supplies
  the hash of every such file (`ScanFacts.CachedScanRefines`).

## Model

| member | source | states |
|---|---|---|
| Clocks.VectorClock.Tick | crates/tomo-engine/src/clock.rs:53-55 | the replica's own counter advances by one, every other reading stays |
| Clocks.VectorClock.Merge | crates/tomo-engine/src/clock.rs:74-81 | the clock becomes the join of both |
| Clocks.VectorClock.Compare | crates/tomo-engine/src/clock.rs:84-102 | the verdict of the two-flag loop is the one the pointwise order gives |
| Clocks.CompareIsThePartialOrder | crates/tomo-engine/src/clock.rs:84-102 | each of the four verdicts, exactly when the pointwise order relates the clocks that way; equal verdict means equal clocks |
| Clocks.JoinIsLeastUpperBound | crates/tomo-engine/src/clock.rs:74-81 | merge bounds both clocks and lies below every common bound |
| Clocks.JoinIsAssociative | crates/tomo-engine/src/clock.rs:74-81 | the order in which three clocks are merged does not matter |
| Clocks.JoinCommutesAndIsIdempotent | crates/tomo-engine/src/clock.rs:74-81 | merging either way round gives one clock, and merging a clock with itself changes nothing |
| Clocks.TickStrictlyAdvances | crates/tomo-engine/src/clock.rs:53-55 | a ticked clock strictly dominates the clock before |
| Versions.EncodeHead | crates/tomo-engine/src/index.rs:157-173 | appends exactly the canonical record of the head |
| Versions.EncodeClock | crates/tomo-engine/src/index.rs:413-420 | appends the pairs of the clock in ascending replica order |
| Versions.HeadCancel | crates/tomo-engine/src/index.rs:157-173 | a head record is self-delimiting and determines clock, hash, size and exec bit |
| Versions.ClockBytesInjective | crates/tomo-engine/src/index.rs:413-420 | different clocks in range have different tiebreak keys |
| Bytes.CompareIsLexicographic | crates/tomo-engine/src/index.rs:367-390 | the order of hashes, keys and paths is the lexicographic order of bytes |
| Entries.Entry.Absorb | crates/tomo-engine/src/index.rs:318-346 | new head list, and the three flags of the outcome, from the old heads and the version |
| Entries.Entry.GetWinner | crates/tomo-engine/src/index.rs:254-267 | the loop keeps the head that no later head strictly beats, in the mode of the entry |
| Entries.Entry.InAdoptionMode | crates/tomo-engine/src/index.rs:284-296 | true exactly for two or more heads whose clocks pairwise name no common replica |
| Entries.Entry.MergedClock | crates/tomo-engine/src/index.rs:302-308 | the merge of all head clocks |
| Entries.Entry.Conflicting | crates/tomo-engine/src/index.rs:351-359 | true exactly when two heads differ in content or exec bit |
| Entries.Entry.Knows | crates/tomo-engine/src/index.rs:319-325 | true exactly when some head's clock dominates or equals the version |
| Entries.Entry.Retain | crates/tomo-engine/src/index.rs:332-333 | keeps, in order, the heads that the version does not strictly dominate |
| Entries.WinnerCmp | crates/tomo-engine/src/index.rs:367-390 | the comparison of two heads in the given mode |
| Entries.SupportsDisjoint | crates/tomo-engine/src/index.rs:395-397 | true exactly when no replica has a positive counter in both clocks |
| Entries.SortByKey | crates/tomo-engine/src/index.rs:335 | the stable sort of the heads by canonical bytes |
| Joins.AbsorbMembers | crates/tomo-engine/src/index.rs:318-346 | after a version that was not known, the heads are that version and the old heads it does not strictly dominate, each once |
| Joins.AbsorbKeepsValid | crates/tomo-engine/src/index.rs:318-346 | absorb keeps a non-empty, pairwise concurrent, canonically sorted head list |
| Joins.AbsorbCovers | crates/tomo-engine/src/index.rs:318-346 | after absorbing, the version and every earlier head are covered |
| Joins.AbsorbComputesTheJoin | crates/tomo-engine/src/index.rs:318-346 | folding absorb over any versions leaves exactly the causally maximal ones |
| Joins.AbsorbIgnoresOrderAndRepetition | crates/tomo-engine/src/index.rs:318-346 | any two listings of the same versions, permuted or repeated, fold to the same head list |
| Joins.SameHeadsSameEntry | crates/tomo-engine/src/index.rs:332-335 | a set of heads has one canonical listing |
| Joins.MutualCoverSameHeads | crates/tomo-engine/src/index.rs:318-346 | two antichains that cover each other hold the same heads |
| Joins.MergedAttained | crates/tomo-engine/src/index.rs:302-308 | every positive reading of the merged clock is the reading of some head |
| Winners.WinnerOrderIsTotal | crates/tomo-engine/src/index.rs:367-390 | in both modes the comparison is a total preorder |
| Winners.WinnerTieMeansSameClock | crates/tomo-engine/src/index.rs:367-390 | two heads tie only if their clocks are equal |
| Winners.WinnerBeatsAll | crates/tomo-engine/src/index.rs:254-267 | on an antichain the winner strictly beats every other head |
| Winners.WinnerIgnoresOrder | crates/tomo-engine/src/index.rs:254-267 | the winner does not depend on the order of the heads |
| Winners.WinnerFollowsPolicy | crates/tomo-engine/src/index.rs:367-390 | present beats deleted; adoption mode takes the newest mtime; then, and otherwise from the start, the largest hash, then executable, then the largest clock key |
| Winners.NovelIff | crates/tomo-engine/src/index.rs:328-329 | an absorbed version is novel exactly when no earlier head is deleted like it, or has its hash and exec bit |
| Winners.ConflictMeans | crates/tomo-engine/src/index.rs:351-359 | heads conflict exactly when two differ in presence, hash or exec bit |
| Winners.NewConflictIff | crates/tomo-engine/src/index.rs:337-339 | a conflict is new exactly when there was one head and heads differing in presence, hash or exec bit appeared |
| Winners.WinnerChangedIff | crates/tomo-engine/src/index.rs:338 | the winner moved exactly when its presence, hash, size or exec bit changed |
| Winners.AdoptionNeverReturns | crates/tomo-engine/src/index.rs:270-283 | in any run of any replicas, once a path covers a version naming all of them, it is out of adoption mode in every later state |
| Winners.AdoptionIffUnshared | crates/tomo-engine/src/index.rs:284-296 | with two replicas, in every reachable state an entry is in adoption mode if and only if it has several heads and no head's clock names both |
| Winners.EveryNewPathIsGenesis | crates/tomo-engine/src/index.rs:270-283 | two concurrent creations of a new path are in adoption mode, whatever was synced before |
| Winners.ConflictSurfacedIff | crates/tomo-engine/src/index.rs:337-339 | when an absorbed version leaves differing heads, the conflict is reported exactly if there was one head before |
| Winners.UnreportedConflict | crates/tomo-engine/src/index.rs:337-339 | two new replicas whose events leave one with differing heads and no conflict reported |
| Digest.Encode | crates/tomo-engine/src/index.rs:480-493 | the loop emits the canonical stream of the index |
| Digest.CanonicalBytesIffEqual | crates/tomo-engine/src/index.rs:463-493 | equal bytes if and only if the indices are equal up to mtime |
| Digest.BytesDoNotDetermineWinner | crates/tomo-engine/src/index.rs:367-380 | two entries with equal bytes and different winners, both in adoption mode |
| Digest.BytesFixWinnerIff | crates/tomo-engine/src/index.rs:367-390 | the bytes of an entry fix its winner, up to mtime, if and only if it is not in adoption mode or has at most one head present |
| Digest.BytesIdentifyReachableIndices | crates/tomo-engine/src/index.rs:463-493 | in every run, two replicas have equal canonical bytes if and only if their indices are equal, mtimes included |
| Engines.EchoJournal.Add | crates/tomo-engine/src/engine.rs:129-131 | one more expectation at the path |
| Engines.EchoJournal.Contains | crates/tomo-engine/src/engine.rs:135-139 | whether a matching expectation is outstanding; nothing is retired |
| Engines.EchoJournal.Retire | crates/tomo-engine/src/engine.rs:145-157 | removes the first matching expectation by swapping in the last, and says whether there was one |
| Engines.Engine.constructor | crates/tomo-engine/src/engine.rs:195-201 | starts from the given index with an empty journal |
| Engines.Engine.HandleEvent | crates/tomo-engine/src/engine.rs:229-235 | new index, new journal and the action list are those of the transition function |
| Engines.Engine.OnLocal | crates/tomo-engine/src/engine.rs:239-257 | an echo is swallowed and retired, anything else is processed |
| Engines.Engine.OnModified | crates/tomo-engine/src/engine.rs:262-289 | a spurious event does nothing; an edit collapses the entry to one ticked head, shipped and recorded |
| Engines.Engine.OnRemoved | crates/tomo-engine/src/engine.rs:291-319 | an unknown or already deleted path does nothing; a delete collapses to one ticked tombstone |
| Engines.Engine.OnRemote | crates/tomo-engine/src/engine.rs:335-390 | the applies, conflicts and records of an absorbed version, in that order, and the new index and journal |
| Engines.Engine.OnUnseen | crates/tomo-engine/src/engine.rs:392-413 | a new path takes the version as it is, applies a present file, and records it |
| Engines.Engine.OnPeerIndex | crates/tomo-engine/src/engine.rs:417-469 | one ascending pass over the union of the paths |
| Engines.Engine.OnPeerPath | crates/tomo-engine/src/engine.rs:430-466 | absorbs each peer head, then ships each local head that the peer's heads do not cover |
| Engines.Engine.IsExpectedEcho | crates/tomo-engine/src/engine.rs:222-224 | whether the observation matches an outstanding expectation |
| EngineSpec.ChangeRoundTrip | crates/tomo-engine/src/engine.rs:481-495 | a head and the change that ships it determine each other |
| EngineFacts.AbsorbRemoteEffect | crates/tomo-engine/src/engine.rs:335-413 | a remote change joins its version into its path, touches no other path, and ships nothing |
| EngineFacts.RemoteActionsAre | crates/tomo-engine/src/engine.rs:335-413 | each action of a remote version, exactly when it is called for: an apply of the new winner when its state changed, one conflict per loser, a record of content no head had, never a send |
| EngineFacts.RemoteActionOrder | crates/tomo-engine/src/engine.rs:350-390 | an apply comes first and a record last, so there is at most one of each |
| EngineFacts.LosersOnce | crates/tomo-engine/src/engine.rs:362-374 | each losing head is reported as often as it is listed |
| EngineFacts.UncoveredOnce | crates/tomo-engine/src/engine.rs:438-453 | each uncovered local head is shipped as often as it is listed |
| EngineFacts.PeerIndexEffect | crates/tomo-engine/src/engine.rs:417-469 | a peer index joins path by path, and exactly the resulting heads the peer does not cover are shipped |
| Network.CollapseMints | crates/tomo-engine/src/engine.rs:262-319 | a local edit mints a version that strictly dominates every head it replaces |
| Network.MintIsFresh | crates/tomo-engine/src/engine.rs:262-319 | no change on the network dominates a freshly minted version |
| Network.StepKeepsInv | crates/tomo-engine/src/engine.rs:229-469 | every step keeps the invariant of replicas, network, snapshots, deliveries and records |
| Network.RunInv | crates/tomo-engine/src/engine.rs:229-469 | so does every run |
| Convergence.Convergence | crates/tomo-engine/src/engine.rs:229-469 | in every run of any replicas, once every shipped change has reached everyone, all indices are equal, mtimes included |
| Convergence.ClockIdentity | crates/tomo-engine/src/engine.rs:262-319 | two shipped versions of a path with equal clocks are equal, mtime included |
| Convergence.HeadsWereShipped | crates/tomo-engine/src/engine.rs:229-469 | every head anywhere was shipped as a change |
| Convergence.CausalityIsOneCounter | crates/tomo-engine/src/engine.rs:259-287 | a version has seen another exactly if it has seen that one's author's counter |
| Convergence.AuthorsVersionsAreOrdered | crates/tomo-engine/src/engine.rs:259-287 | one replica's versions of a path are totally ordered |
| Convergence.HeadBound | crates/tomo-engine/src/engine.rs:259-287 | no entry ever holds more heads than there are replicas |
| Convergence.HistoryIsComplete | crates/tomo-engine/src/engine.rs:335-413 | for every head it holds, a replica has emitted a record of the same path, presence, hash and exec bit |
| Convergence.StepOnlyGrows | crates/tomo-engine/src/engine.rs:229-469 | after any step, everything a replica held is still covered |
| Convergence.CoverIsForever | crates/tomo-engine/src/engine.rs:229-469 | a version once covered stays covered in every later state |
| Reconnect.ReconnectConverges | crates/tomo-engine/src/engine.rs:417-469 | after any loss, one index exchange and the changes it ships make both indices equal, and a further exchange either way does nothing |
| Reconnect.ReconnectIsTheJoin | crates/tomo-engine/src/engine.rs:417-469 | the common index holds exactly the causally maximal versions of both |
| Reconnect.QuietExchange | crates/tomo-engine/src/engine.rs:417-469 | exchanging equal indices changes nothing and emits nothing |
| Echoes.JournalRetireBag | crates/tomo-engine/src/engine.rs:145-157 | retiring takes one matching expectation from the journal as a multiset, at its path only |
| Echoes.EchoesRetire | crates/tomo-engine/src/engine.rs:239-257 | echoes that are outstanding cause no action and leave the index alone, and exactly they are retired |
| Echoes.EchoClosure | crates/tomo-engine/src/engine.rs:474-477 | feeding back every emitted apply, in any order, emits nothing, keeps the index and restores the journal |
| Disk.PeerEventKeepsSync | crates/tomo-engine/src/engine.rs:335-390 | performing the applies of a peer event keeps disk equal to every winner |
| Disk.LocalEventOutcome | crates/tomo-engine/src/engine.rs:239-319 | a local event, exactly: an expected echo is only retired, an event that reports what is believed changes nothing, any other leaves one minted head, shipped and recorded |
| Disk.LocalSilentIff | crates/tomo-engine/src/engine.rs:239-319 | a local event emits nothing if and only if it is an expected echo or already believed |
| Disk.EchoIsSilent | crates/tomo-engine/src/engine.rs:239-257 | any pending echo may arrive next: it emits nothing, leaves the index alone and is retired |
| Disk.DiskFollowsWinners | crates/tomo-engine/src/engine.rs:229-257 | in any interleaving of peer events, user edits and single delayed echoes, disk shows every winner at every moment and the journal is exactly what is pending, so it is empty when nothing is |
| Disk.LocalBelievedIff | crates/tomo-engine/src/engine.rs:239-257 | after a local event the engine believes what was observed exactly if it was not taken for an echo, or it believed that already |
| Disk.EditBackIsSwallowed | crates/tomo-engine/src/engine.rs:239-257 | an edit back to applied content, after the echo was merged into another edit, is swallowed |
| ApplyGuard.GuardMintsObservedState | crates/tomo/src/applyguard.rs:33-35 | when disk differs from the believed winner and is no outstanding echo, the observed state becomes the only head, shipped and recorded |
| ApplyGuard.GuardLeavesKnownDiskAlone | crates/tomo/src/applyguard.rs:33-35 | when disk shows what is believed, or an outstanding echo, the guard does nothing |
| ApplyGuard.PeerCannotDominateFreshTick | crates/tomo/src/applyguard.rs:1-16 | no change of the network dominates the freshly ticked version |
| ApplyGuard.GuardedApplyLosesNothing | crates/tomo/src/applyguard.rs:33-35 | in every reachable state, if disk differs from the believed winner and is no outstanding echo, what disk shows is a head after the guarded apply, and was recorded |
| ApplyGuard.BlindApplyKeepsOnlyTheChange | crates/tomo/src/applyguard.rs:1-16 | without the guard a dominating change leaves itself as the only head |
| Pressure.PressureController.constructor | crates/tomo-engine/src/pressure.rs:233-246 | starts empty on rung 0; an empty ladder becomes `[0]` |
| Pressure.PressureController.NoteCapture | crates/tomo-engine/src/pressure.rs:256-278 | the decision and the whole new state, by mode |
| Pressure.PressureController.Stage | crates/tomo-engine/src/pressure.rs:286-317 | immediate only for interval 0 with nothing staged; otherwise the slot is replaced and keeps the earlier deadline |
| Pressure.PressureController.FeedSignals | crates/tomo-engine/src/pressure.rs:325-330 | decay, then at most one rung up |
| Pressure.PressureController.Poll | crates/tomo-engine/src/pressure.rs:335-358 | the flushed slots sorted by deadline and path, and the state without them |
| Pressure.PressureController.NextDue | crates/tomo-engine/src/pressure.rs:362-364 | the least staged deadline, and none exactly when nothing is staged |
| Pressure.PressureController.ApplyDecay | crates/tomo-engine/src/pressure.rs:381-395 | rung and anchor after the whole idle periods |
| Pressure.PressureController.ApplyEscalation | crates/tomo-engine/src/pressure.rs:401-412 | rung and window after the pressure test |
| Pressure.PressureController.ObservedRate | crates/tomo-engine/src/pressure.rs:417-431 | the window without its leading old timestamps, and its length |
| PressureRuns.PollIsExact | crates/tomo-engine/src/pressure.rs:335-358 | a poll returns exactly the due slots in strictly ascending deadline and path order and keeps the others |
| PressureRuns.NoLostFinalWrite | crates/tomo-engine/src/pressure.rs:28-36 | in every run of a mode other than off, each path's newest capture is recorded or is exactly the staged one |
| PressureRuns.FlushedIsNewest | crates/tomo-engine/src/pressure.rs:335-358 | every flushed capture is the newest noted for its path |
| PressureRuns.OffRecordsNothing | crates/tomo-engine/src/pressure.rs:123-126 | mode off records nothing and never changes state |
| PressureRuns.ImmediateModesRecordAll | crates/tomo-engine/src/pressure.rs:127-129 | every-change, an interval of 0, and an adaptive ladder that is empty or all zero without a minimum window, record every capture in order and stage nothing |
| PressureRuns.EveryCaptureIsAccountedFor | crates/tomo-engine/src/pressure.rs:256-358 | noted = recorded + superseded + staged, each capture counted once |
| PressureRuns.BoundedStaleness | crates/tomo-engine/src/pressure.rs:38-48 | after a poll no path has had an unrecorded capture for as long as the longest interval |
| PressureRuns.DeadlineNeverIncreases | crates/tomo-engine/src/pressure.rs:296-300 | a live slot's deadline never moves later |
| PressureRuns.NoteDecides | crates/tomo-engine/src/pressure.rs:256-317 | immediate exactly with nothing to wait for and nothing staged; otherwise due after the interval of mode and new rung, or when the slot was due already if that is earlier |
| PressureRuns.OnlyAdaptivePaces | crates/tomo-engine/src/pressure.rs:256-338 | in the other modes no call touches rung, window or anchor |
| PressureRuns.OnePollDrains | crates/tomo-engine/src/pressure.rs:335-358 | one poll after the longest interval records the newest capture of every path and stages nothing |
| PressureRuns.StagedBytesStep | crates/tomo-engine/src/pressure.rs:301-304 | one call keeps an exact running total exact if and only if the new sum fits in 64 bits |
| PressureRuns.StagedBytesNeverOvercount | crates/tomo-engine/src/pressure.rs:301-304 | the running total never exceeds the sum of the staged sizes |
| PressureRuns.StagedBytesAreExact | crates/tomo-engine/src/pressure.rs:346-350 | while the sums fit, the running total is the sum of the staged sizes |
| Pacing.DecayComposes | crates/tomo-engine/src/pressure.rs:381-395 | decaying early and then late is decaying late |
| Pacing.DecayDropsRungs | crates/tomo-engine/src/pressure.rs:381-395 | decay drops one rung for each whole idle period since the anchor, down to rung 0, and moves the anchor by those periods |
| Pacing.PollDropsRungs | crates/tomo-engine/src/pressure.rs:335-338 | in every adaptive run a poll drops exactly those rungs |
| Pacing.IdleStretchDropsRungs | crates/tomo-engine/src/pressure.rs:375-395 | an idle stretch, however polled, ends that many rungs lower, a long one on rung 0 |
| Pacing.IdleStretchDecaysOnce | crates/tomo-engine/src/pressure.rs:375-395 | however often an idle stretch is polled, rung and anchor are those of one decay at its end |
| Pacing.RateCountsEveryNote | crates/tomo-engine/src/pressure.rs:417-431 | the observed rate is the number of all notes in the trailing second, although the top rung does not prune |
| Pacing.NoteClimbsIff | crates/tomo-engine/src/pressure.rs:401-412 | a note climbs exactly below the top rung with too many notes in the trailing second or too many staged bytes |
| Pacing.SignalsClimbIff | crates/tomo-engine/src/pressure.rs:325-330 | fed signals climb exactly below the top rung with too many notes, too many staged bytes, or more than 64 queued writes |
| Pacing.RungHoldsWhileBusy | crates/tomo-engine/src/pressure.rs:381-395 | the rung never falls while calls come within the idle limit of the last note, nor at all when decay is disabled |
| Pacing.RungClimbsByOne | crates/tomo-engine/src/pressure.rs:401-412 | no call climbs more than one rung |
| Frames.Encode | crates/tomo-proto/src/frame.rs:55-70 | a frame exactly for a payload within the limit, and the matching error otherwise |
| Frames.FrameDecoder.Push | crates/tomo-proto/src/frame.rs:97-103 | appends to the unconsumed bytes and compacts the consumed ones away |
| Frames.FrameDecoder.Next | crates/tomo-proto/src/frame.rs:121-141 | the verdict on the unconsumed bytes; only a message advances |
| Frames.FrameRoundTrip | crates/tomo-proto/src/frame.rs:55-141 | a frame followed by anything decodes to its message and leaves what follows |
| Frames.PartialFrameWaits | crates/tomo-proto/src/frame.rs:122-133 | a strict prefix of a frame is neither a message nor an error |
| Frames.VerdictIsFinal | crates/tomo-proto/src/frame.rs:17-22 | more bytes change neither a message nor an error |
| Frames.PeekAnswers | crates/tomo-proto/src/frame.rs:121-141 | the answer to any declared length and any bytes after it: too long is an error at once, incomplete waits, undecodable is an error, anything else is its message |
| Frames.SessionDecodesStream | crates/tomo-proto/src/frame.rs:12-15 | for any bytes, what was received and what is still buffered decode to what the stream decodes to |
| Frames.ChunkingInvariance | crates/tomo-proto/src/frame.rs:12-15 | two drained sessions fed the same bytes received the same messages and hold the same rest |
| Frames.SessionIsFaithful | crates/tomo-proto/src/frame.rs:72-141 | fed any part of the frames, a session has received the first messages, buffers exactly the rest, and met no error |
| Frames.SessionRoundTrip | crates/tomo-proto/src/frame.rs:72-141 | fed all frames and drained, it has received exactly the messages and nothing is left |
| Frames.ErrorIsSticky | crates/tomo-proto/src/frame.rs:17-22 | after an error every later call reports the same error and consumes nothing |
| Globs.GlobMatch | crates/tomo-transport/src/sshconfig.rs:719-744 | the two loops terminate and answer as the scan relation does |
| Globs.LowerFoldsCapitals | crates/tomo-transport/src/sshconfig.rs:720-721 | exactly the 26 ASCII capitals change, each to its small letter |
| Globs.CaseDoesNotMatter | crates/tomo-transport/src/sshconfig.rs:716-721 | patterns and texts equal up to case are accepted alike |
| Globs.HostMatches | crates/tomo-transport/src/sshconfig.rs:701-714 | some positive pattern matches and no negated one does |
| Globs.AcceptedIsInLanguage | crates/tomo-transport/src/sshconfig.rs:719-744 | for every text, what is accepted is in the language of the pattern |
| Globs.ScanIsComplete | crates/tomo-transport/src/sshconfig.rs:719-744 | on star-free texts, committing to the newest star loses no match |
| Globs.GlobIsExact | crates/tomo-transport/src/sshconfig.rs:719-744 | on a text without a star the loop accepts exactly the language |
| Globs.StarDefeats | crates/tomo-transport/src/sshconfig.rs:719-744 | for a text with a star, a pattern whose language holds it and which rejects it |
| Globs.ExactIffStarless | crates/tomo-transport/src/sshconfig.rs:719-744 | the loop is right for every pattern if and only if the text has no star |
| History.HistoryStore.RecordVersion | crates/tomo-history/src/store.rs:451-466 | one insert, or the error and no change at all |
| History.HistoryStore.RecordVersions | crates/tomo-history/src/store.rs:488-501 | all inserts with ids in order, or the error and no change at all |
| History.HistoryStore.InsertVersion | crates/tomo-history/src/store.rs:1112-1170 | stores the chunks, checks the signature, adds the row or finds the existing one |
| History.HistoryStore.AddRow | crates/tomo-history/src/store.rs:1144-1170 | insert or ignore, and the id either way |
| History.HistoryStore.StoreChunks | crates/tomo-history/src/store.rs:1179-1206 | each piece under its hash unless present, the manifest, the whole hash and the new bytes |
| History.HistoryStore.StoreContent | crates/tomo-history/src/store.rs:424-429 | the whole hash and the new bytes, or the error and no change |
| History.HistoryStore.RecordConflict | crates/tomo-history/src/store.rs:537-550 | a new row when both versions exist, an error otherwise |
| History.HistoryStore.Content | crates/tomo-history/src/store.rs:741-798 | the bytes, or the error of the first check that fails |
| History.HistoryStore.Check | crates/tomo-history/src/store.rs:885-975 | no issue exactly when every manifest is complete with the right size and every chunk verifies |
| History.HistoryStore.DecompressAndVerify | crates/tomo-history/src/store.rs:1210-1227 | the plain bytes if size and hash match |
| History.HistoryStore.DedupVersions | crates/tomo-history/src/store.rs:368-386 | the three statements of the migration |
| HistoryRuns.AlwaysClean | crates/tomo-history/src/store.rs:885-975 | after any calls the report is clean |
| HistoryReads.ReadsIff | crates/tomo-history/src/store.rs:741-798 | over any tables, a version reads exactly the bytes that its chunks' verified pieces join to, if they have the recorded hash |
| HistoryReads.NeverWrongBytes | crates/tomo-history/src/store.rs:729-740 | over any tables, corrupt or not, what is read is the recorded content |
| HistoryReads.CleanIff | crates/tomo-history/src/store.rs:885-975 | the report is clean exactly when every chunk row holds its piece and every present version's chunks join to its size |
| HistoryReads.CleanReadsUnlessMishashed | crates/tomo-history/src/store.rs:885-975 | after a clean report a present version reads unless its recorded content hash is missing or wrong, which the report does not check |
| HistoryReads.AcceptedIff | crates/tomo-history/src/store.rs:1112-1142 | which records are accepted, and the error of each other one |
| HistoryReads.NewRowIs | crates/tomo-history/src/store.rs:1144-1162 | the row of a new version, column by column, under an id above all earlier ones |
| HistoryReads.NewBytesAreTheGain | crates/tomo-history/src/store.rs:1172-1206 | the reported new bytes are what the chunk table gained |
| HistoryRuns.FirstBytesReadBack | crates/tomo-history/src/store.rs:741-798 | a version reads back the bytes first recorded for it, after any further calls |
| HistoryRuns.ContentIsForever | crates/tomo-history/src/store.rs:741-798 | every present version is readable and always reads the same |
| HistoryRuns.IdentityKeepsItsId | crates/tomo-history/src/store.rs:1100-1110 | a later record with the same identity gives the same id and no new row |
| HistoryRuns.RecordReadsBackIff | crates/tomo-history/src/store.rs:1144-1170 | an accepted present record reads back its own bytes if and only if its id is new or the row had their hash already |
| HistoryRuns.OtherContentIsDropped | crates/tomo-history/src/store.rs:1144-1170 | two accepted records of one identity with different bytes: one id, which reads back the first bytes |
| HistoryRuns.ReplayIsNoOp | crates/tomo-history/src/store.rs:1100-1110 | replaying a record is accepted, gives the same id and changes no table |
| HistoryRuns.StoringAgainWritesNothing | crates/tomo-history/src/store.rs:412-429 | storing a content again reports zero new bytes and changes nothing |
| HistoryRuns.BatchIsSingles | crates/tomo-history/src/store.rs:468-501 | a batch is accepted exactly when its records would be one by one, with the same tables and ids |
| HistoryRuns.DedupKeepsLeast | crates/tomo-history/src/store.rs:363-386 | exactly the least id of each identity survives, unchanged, so identities become unique |
| HistoryRuns.DedupRepointsConflicts | crates/tomo-history/src/store.rs:363-386 | every conflict stays and points to surviving rows of the identities it pointed to |
| HistoryRuns.DedupIsIdempotent | crates/tomo-history/src/store.rs:363-386 | nothing changes without duplicates, so a second migration is a no-op |
| HistoryRuns.DedupKeepsStoreSound | crates/tomo-history/src/store.rs:363-386 | the migrated store satisfies the schema, is as clean as before, and reads the same |
| Scans.ScanDiffCached | crates/tomo-watch/src/scan.rs:60-122 | the changes in ascending order and the rebuilt cache, or a failure |
| Scans.Walker.Walk | crates/tomo-watch/src/scan.rs:136-226 | both maps after visiting a directory, or a failure |
| Scans.Walker.Visit | crates/tomo-watch/src/scan.rs:156-222 | what one directory entry adds: nothing, a file, or a subtree |
| Scans.Walker.RecordFile | crates/tomo-watch/src/scan.rs:183-220 | hash reused or read, everything else from fresh metadata, into both maps |
| Scans.Diff | crates/tomo-watch/src/scan.rs:84-119 | the differences between tree and winners, listed in ascending order |
| ScanTrees.WalkFindsIff | crates/tomo-watch/src/scan.rs:136-226 | the walk finds a file under a path if and only if a chain of names leads to it, gives that path, and passes nothing ignored or unrepresentable |
| ScanTrees.WalkFailsIff | crates/tomo-watch/src/scan.rs:146-154 | the walk fails if and only if the root cannot be listed or such a chain leads to a directory that cannot |
| ScanTrees.IgnoredIsInvisible | crates/tomo-watch/src/scan.rs:174-176 | an ignored path is never reported as changed or gone, nor remembered in the cache |
| ScanFacts.ScanChangesAscend | crates/tomo-watch/src/scan.rs:20-26 | the changes come in strictly ascending path order |
| ScanFacts.DifferenceIsExact | crates/tomo-watch/src/scan.rs:84-117 | a path is reported exactly when disk differs from the believed winner, unless it is gone and ignored |
| ScanFacts.CoherentSig | crates/tomo-watch/src/scancache.rs:92-101 | a cache that is right about the files that are not recent gives the signature that reading gives |
| ScanFacts.UnprovenFilesAreRead | crates/tomo-watch/src/scancache.rs:92-101 | a file modified in the last two seconds, or with another mtime or size than the cache has, is always read |
| ScanFacts.ScanSucceedsIff | crates/tomo-watch/src/scan.rs:136-226 | a scan succeeds if and only if the tree can be listed and each file is readable or has a reusable hash |
| ScanFacts.CachedScanRefines | crates/tomo-watch/src/scan.rs:60-122 | with a coherent cache the cached scan equals the cache-free one whenever that succeeds, and the two differ exactly when some file is unreadable and every such file's hash is reused |
| ScanFacts.CachedScanCanSucceedAlone | crates/tomo-watch/src/scan.rs:191-208 | a tree of one unreadable cached file, which the cached scan passes and the cache-free scan fails |
| ScanFacts.RebuiltCacheIsCoherent | crates/tomo-watch/src/scan.rs:45-52 | the rebuilt cache covers exactly the scanned files and is coherent with them |
| ScanFacts.SecondScanSeesTheSame | crates/tomo-watch/src/scan.rs:60-122 | a second scan of the same tree with the rebuilt cache, at no earlier time, succeeds and rebuilds the same cache |
| ScanFacts.SecondDiffEmptyIff | crates/tomo-watch/src/scan.rs:84-119 | after feeding a difference, the difference from the same files is empty if and only if no change was taken for an echo |
| ScanFacts.SecondScanEmptyIff | crates/tomo-watch/src/scan.rs:60-122 | after feeding a scan's changes, a second scan of the tree is empty if and only if none was taken for an echo |
| ScanFacts.ScanReachesFixpoint | crates/tomo-watch/src/scan.rs:60-122 | with an empty journal the second scan of the tree is empty and keeps the cache |

## Left out

- The session loop, the watcher and the real filesystem: disk is a map from path to expectation, and the guarded apply is one step.
- SSH, SFTP, authentication, host keys and remote start-up: network input and output over libraries.
- The internals of SQLite, postcard, BLAKE3, FastCDC and zstd, and `quick_check`: tables are maps, the rest are parameters.
- Manifests and hashes of the wrong length in the store: a manifest is a list of hashes, so the checks for a length that is no multiple of 32 have no counterpart.
- The query methods of the store (log, recent, paths, identities, content by hash) and marking conflicts resolved: plain reads and one-column updates.
- Schema creation and the exec-column migration: only the deduplicating step changes rows.
- Overflow of a clock counter: counters are naturals, and theorems about bytes ask that they fit.
- Path validation, Unicode normalisation, configuration parsing and ignore globs: parameters of the scan.
- The on-disk form of the scan cache: a version byte around serialization.
- Files that vanish or change during a scan: the tree is constant.
- The rest of the `ssh_config` parser: directive tables and string handling around the matcher.
- Command line, terminal interface, rendering and bootstrap naming: nothing beyond their bodies to state.
