/** The cached scan refines the cache-free one, rebuilds a coherent cache, and reaches a fixpoint
    with the engine. */
module ScanFacts {
  import opened Bytes
  import opened Options
  import opened Paths
  import opened Versions
  import opened Entries
  import opened EngineSpec
  import opened Disk
  import opened ScanSpec

  // ---- The cache ----

  /** Modified within two seconds of `now`, or later: its bytes may still be changing. */
  predicate Recent(f: Found, now: U64) {
    f.stat.mtimeNs + 2_000_000_000 >= now
  }

  /** Where the cache has an entry with a file's modification time and size, it has the file's hash.
      Nothing is asked of the entries of recent files. */
  ghost predicate Coherent(cache: Cache, now: U64, files: seq<Found>) {
    forall i :: 0 <= i < |files| && files[i].path in cache && !Recent(files[i], now) ==> EntryTells(cache[files[i].path], files[i])
  }

  ghost predicate EntryTells(e: CacheEntry, f: Found) {
    e.mtimeNs == f.stat.mtimeNs && e.size == f.stat.size ==> e.sig.hash == f.hash
  }

  lemma CoherentFront(cache: Cache, now: U64, files: seq<Found>)
    requires files != [] && Coherent(cache, now, files)
    ensures Coherent(cache, now, files[..|files| - 1])
  {
  }

  /** A coherent entry gives the signature that reading the file gives. */
  lemma CoherentSig(cache: Cache, now: U64, f: Found)
    requires f.path in cache && !Recent(f, now) ==> EntryTells(cache[f.path], f)
    ensures SigFor(cache, now, f) == Done(Snapshot(f)) || (SigFor(cache, now, f) == Failed && !f.readable)
    ensures SigFor(map[], 0, f) == if f.readable then Done(Snapshot(f)) else Failed
  {
  }

  /** The file seen last at each path. */
  ghost function LastAt(files: seq<Found>, p: RelPath): Option<Found> {
    if files == [] then None
    else if files[|files| - 1].path == p then Some(files[|files| - 1])
    else LastAt(files[..|files| - 1], p)
  }

  ghost function EntryOf(f: Found): CacheEntry {
    CacheEntry(f.stat.mtimeNs, f.stat.size, Snapshot(f))
  }

  /** Both maps hold exactly what reading the last file at each path gives. */
  ghost predicate Faithful(m: Maps, files: seq<Found>) {
    forall p ::
      match LastAt(files, p)
      case None => p !in m.onDisk && p !in m.rebuilt
      case Some(f) => p in m.onDisk && m.onDisk[p] == Snapshot(f) && p in m.rebuilt && m.rebuilt[p] == EntryOf(f)
  }

  lemma {:induction false} RecordedFaithfully(cache: Cache, now: U64, files: seq<Found>)
    requires Coherent(cache, now, files) && RecordAll(cache, now, files, Maps(map[], map[])).Done?
    ensures Faithful(RecordAll(cache, now, files, Maps(map[], map[])).value, files)
  {
    hide SigFor, Snapshot;
    if files != [] {
      var front, last := files[..|files| - 1], files[|files| - 1];
      CoherentFront(cache, now, files);
      RecordedFaithfully(cache, now, front);
      CoherentSig(cache, now, last);
      var before := RecordAll(cache, now, front, Maps(map[], map[])).value;
      FaithfulExtended(before, front, last);
      assert files == front + [last];
    }
  }

  lemma FaithfulExtended(m: Maps, files: seq<Found>, f: Found)
    requires Faithful(m, files)
    ensures Faithful(Noting(m, f, Snapshot(f)), files + [f])
  {
    hide Snapshot;
    assert (files + [f])[..|files|] == files;
  }

  lemma FaithfulIsUnique(a: Maps, b: Maps, files: seq<Found>)
    requires Faithful(a, files) && Faithful(b, files)
    ensures a == b
  {
    hide Snapshot;
    assert forall p :: p in a.onDisk <==> p in b.onDisk;
    assert forall p :: p in a.rebuilt <==> p in b.rebuilt;
  }

  ghost predicate AllReadable(files: seq<Found>) {
    forall i :: 0 <= i < |files| ==> files[i].readable
  }

  /** A hash can be had for every file: by reading it, or from the cache. */
  ghost predicate AllHashed(cache: Cache, now: U64, files: seq<Found>) {
    forall i :: 0 <= i < |files| ==> Hashable(cache, now, files[i])
  }

  ghost predicate Hashable(cache: Cache, now: U64, f: Found) {
    f.readable || Reusable(Cached(cache, f.path), f.stat, now).Some?
  }

  /** Recording succeeds exactly when every file has a hash. */
  lemma {:induction false} RecordingSucceedsIff(cache: Cache, now: U64, files: seq<Found>, m: Maps)
    ensures RecordAll(cache, now, files, m).Done? <==> AllHashed(cache, now, files)
  {
    hide Snapshot, Reusable, Cached, Noting;
    if files != [] {
      var front, last := files[..|files| - 1], files[|files| - 1];
      RecordingSucceedsIff(cache, now, front, m);
      assert AllHashed(cache, now, files) <==> AllHashed(cache, now, front) && Hashable(cache, now, last) by {
        assert files == front + [last];
        assert forall i :: 0 <= i < |front| ==> files[i] == front[i];
      }
    }
  }

  /** Without a cache only reading gives a hash. */
  lemma HashedByReading(files: seq<Found>)
    ensures AllHashed(map[], 0, files) <==> AllReadable(files)
  {
    assert forall i :: 0 <= i < |files| ==> (Hashable(map[], 0, files[i]) <==> files[i].readable);
  }

  lemma ReadableIsHashed(cache: Cache, now: U64, files: seq<Found>)
    requires AllReadable(files)
    ensures AllHashed(cache, now, files)
  {
  }

  /** The tracked files of a tree, if every directory on the way can be listed. */
  ghost function FilesOf(rules: Rules, root: Node): Attempt<seq<Found>> {
    if root.Dir? then FilesBelow(rules, [], root.children) else Failed
  }

  ghost predicate CoherentWith(cache: Cache, now: U64, rules: Rules, root: Node) {
    FilesOf(rules, root).Done? ==> Coherent(cache, now, FilesOf(rules, root).value)
  }

  /** When a scan succeeds: the tree can be listed and every file has a hash. */
  lemma ScanSucceedsIff(rules: Rules, root: Node, index: Index, cache: Cache, now: U64)
    ensures Scan(rules, root, index, cache, now).Done?
            <==> FilesOf(rules, root).Done? && AllHashed(cache, now, FilesOf(rules, root).value)
  {
    hide FilesBelow, RecordAll, ScanDiff, AllHashed;
    if FilesOf(rules, root).Done? {
      RecordingSucceedsIff(cache, now, FilesOf(rules, root).value, Maps(map[], map[]));
    }
  }

  /** Two scans that both succeed record the same, each with its own coherent cache and clock. */
  lemma SameRecords(files: seq<Found>, cache: Cache, now: U64, cache': Cache, now': U64)
    requires Coherent(cache, now, files) && AllHashed(cache, now, files)
    requires Coherent(cache', now', files) && AllHashed(cache', now', files)
    ensures RecordAll(cache, now, files, Maps(map[], map[])) == RecordAll(cache', now', files, Maps(map[], map[]))
  {
    hide RecordAll, Coherent, AllHashed, Faithful;
    var nothing := Maps(map[], map[]);
    RecordingSucceedsIff(cache, now, files, nothing);
    RecordingSucceedsIff(cache', now', files, nothing);
    RecordedFaithfully(cache, now, files);
    RecordedFaithfully(cache', now', files);
    FaithfulIsUnique(RecordAll(cache, now, files, nothing).value, RecordAll(cache', now', files, nothing).value, files);
  }

  /** A recent file is always read, whatever the cache says, and so is one whose modification time or
      size the cache does not have. */
  lemma UnprovenFilesAreRead(cache: Cache, now: U64, f: Found)
    requires Recent(f, now) || f.path !in cache || cache[f.path].mtimeNs != f.stat.mtimeNs || cache[f.path].size != f.stat.size
    ensures SigFor(cache, now, f) == if f.readable then Done(Snapshot(f)) else Failed
  {
  }

  /** The fast scan refines the slow one. With a coherent cache, at any time: whenever the cache-free
      scan succeeds the cached one gives the same changes and the same rebuilt cache; and the two agree
      unless some file cannot be read and the cache supplies the hash of every such file. */
  lemma CachedScanRefines(rules: Rules, root: Node, index: Index, cache: Cache, now: U64)
    requires CoherentWith(cache, now, rules, root)
    ensures Scan(rules, root, index, map[], 0).Done? ==>
              Scan(rules, root, index, cache, now) == Scan(rules, root, index, map[], 0)
    ensures Scan(rules, root, index, cache, now) == Scan(rules, root, index, map[], 0) <==>
              (FilesOf(rules, root).Done? && AllHashed(cache, now, FilesOf(rules, root).value)
               ==> AllReadable(FilesOf(rules, root).value))
  {
    hide FilesBelow, RecordAll, ScanDiff, Coherent, AllHashed, AllReadable;
    ScanSucceedsIff(rules, root, index, cache, now);
    ScanSucceedsIff(rules, root, index, map[], 0);
    if FilesOf(rules, root).Done? {
      var files := FilesOf(rules, root).value;
      HashedByReading(files);
      if AllReadable(files) {
        EmptyIsCoherent(0, files);
        ReadableIsHashed(cache, now, files);
        SameRecords(files, cache, now, map[], 0);
      }
    }
  }

  /** And they can differ: a directory holding one file that cannot be read but is in the cache. */
  lemma CachedScanCanSucceedAlone(rules: Rules, name: Bytes, path: RelPath, stat: Stat, hash: ContentHash, index: Index, now: U64)
      returns (root: Node, cache: Cache)
    requires rules.relativize([name]) == Some(path) && !rules.ignored(path)
    requires stat.mtimeNs + RECENT_WINDOW_NS < now
    ensures CoherentWith(cache, now, rules, root)
    ensures Scan(rules, root, index, cache, now).Done? && Scan(rules, root, index, map[], 0) == Failed
  {
    var child := Child(name, File(stat, hash, false));
    var f := Found(path, stat, hash, false);
    root := Dir([child]);
    cache := map[path := EntryOf(f)];
    assert [] + [name] == [name];
    assert FilesAt(rules, [], child) == Done([f]);
    assert [child][..0] == [] && FilesBelow(rules, [], [child][..0]) == Done([]);
    assert FilesOf(rules, root) == Done([] + [f]) && [] + [f] == [f];
    assert Hashable(cache, now, [f][0]) && !Hashable(map[], 0, [f][0]);
    ScanSucceedsIff(rules, root, index, cache, now);
    ScanSucceedsIff(rules, root, index, map[], 0);
  }

  lemma EmptyIsCoherent(now: U64, files: seq<Found>)
    ensures Coherent(map[], now, files)
  {
  }

  ghost predicate OnePathEach(files: seq<Found>) {
    forall i, j :: 0 <= i < |files| && 0 <= j < |files| && files[i].path == files[j].path ==> files[i] == files[j]
  }

  lemma {:induction false} LastAtFinds(files: seq<Found>, p: RelPath)
    ensures LastAt(files, p).Some? ==> LastAt(files, p).value in files && LastAt(files, p).value.path == p
    ensures LastAt(files, p).None? ==> forall i :: 0 <= i < |files| ==> files[i].path != p
  {
    if files != [] {
      LastAtFinds(files[..|files| - 1], p);
    }
  }

  lemma EntryOfFile(m: Maps, files: seq<Found>, i: nat)
    requires Faithful(m, files) && OnePathEach(files) && i < |files|
    ensures files[i].path in m.rebuilt && m.rebuilt[files[i].path] == EntryOf(files[i])
    ensures EntryTells(m.rebuilt[files[i].path], files[i])
  {
    LastAtFinds(files, files[i].path);
    var f := LastAt(files, files[i].path).value;
    var j :| 0 <= j < |files| && files[j] == f;
    assert files[i] == files[j];
  }

  ghost predicate Listed(files: seq<Found>, p: RelPath) {
    exists i :: 0 <= i < |files| && files[i].path == p
  }

  lemma RebuiltIffListed(m: Maps, files: seq<Found>, p: RelPath)
    requires Faithful(m, files)
    ensures p in m.rebuilt <==> Listed(files, p)
  {
    LastAtFinds(files, p);
    if LastAt(files, p).Some? {
      var i :| 0 <= i < |files| && files[i] == LastAt(files, p).value;
      assert files[i].path == p;
    }
  }

  lemma RebuiltFromFiles(m: Maps, files: seq<Found>)
    requires Faithful(m, files)
    ensures forall p :: p in m.rebuilt <==> Listed(files, p)
    ensures OnePathEach(files) ==> forall later: U64 :: Coherent(m.rebuilt, later, files)
  {
    hide Faithful, OnePathEach, Listed, EntryTells;
    forall p
      ensures p in m.rebuilt <==> Listed(files, p)
    {
      RebuiltIffListed(m, files, p);
    }
    if OnePathEach(files) {
      forall i | 0 <= i < |files|
        ensures files[i].path in m.rebuilt && EntryTells(m.rebuilt[files[i].path], files[i])
      {
        EntryOfFile(m, files, i);
      }
    }
  }

  /** The rebuilt cache covers exactly the scanned files, and is coherent with them when no two files
      share a path. */
  lemma RebuiltCacheIsCoherent(rules: Rules, root: Node, index: Index, cache: Cache, now: U64)
    requires CoherentWith(cache, now, rules, root) && Scan(rules, root, index, cache, now).Done?
    ensures FilesOf(rules, root).Done?
    ensures var files := FilesOf(rules, root).value;
            var rebuilt := Scan(rules, root, index, cache, now).value.rebuilt;
            && (forall p :: p in rebuilt <==> Listed(files, p))
            && (OnePathEach(files) ==> forall later: U64 :: CoherentWith(rebuilt, later, rules, root))
  {
    hide FilesBelow, RecordAll, ScanDiff, Faithful, OnePathEach, Listed, Coherent;
    var files := FilesOf(rules, root).value;
    RecordedFaithfully(cache, now, files);
    RebuiltFromFiles(RecordAll(cache, now, files, Maps(map[], map[])).value, files);
  }

  // ---- The difference is exact ----

  /** A path is reported exactly when the disk differs there from what the engine believes, unless
      it is gone from disk and ignored. */
  lemma DifferenceIsExact(index: Index, onDisk: Tree, ignored: RelPath -> bool, p: RelPath)
    ensures DiffAt(index, onDisk, ignored, p).None? <==>
              SameExpectation(DiskAt(onDisk, p), Believed(index, p)) || (p !in onDisk && ignored(p))
    ensures DiffAt(index, onDisk, ignored, p).Some? ==>
              DiffAt(index, onDisk, ignored, p).value.path == p
              && Observation(DiffAt(index, onDisk, ignored, p).value.kind) == DiskAt(onDisk, p)
  {
    hide Winner;
  }

  // ---- The fixpoint with the engine ----

  /** The engine after the scan's changes have been fed to it as local events. */
  ghost function FeedChanges(s: EngineState, changes: seq<LocalChange>): EngineState
    decreases |changes|
  {
    if changes == [] then s else FeedChanges(HandleLocal(s, changes[0]).state, changes[1..])
  }

  ghost predicate KeysAreOwn(changes: Changes) {
    forall p :: p in changes ==> changes[p].path == p
  }

  ghost predicate Swallowed(s: EngineState, change: LocalChange) {
    Expected(s.echo, change.path, Observation(change.kind))
  }

  /** Feeding the changes of `todo` touches no other path, in the index or in the journal; and at
      its own path each change is believed afterwards exactly when it was not an expected echo or
      was believed before. */
  lemma {:induction false} FeedEffect(s: EngineState, changes: Changes, todo: set<RelPath>, p: RelPath)
    requires todo <= changes.Keys && KeysAreOwn(changes)
    ensures var s' := FeedChanges(s, Values(changes, todo));
            if p in todo then
              SameExpectation(Observation(changes[p].kind), Believed(s'.index, p))
              <==> !Swallowed(s, changes[p]) || SameExpectation(Observation(changes[p].kind), Believed(s.index, p))
            else Believed(s'.index, p) == Believed(s.index, p)
    decreases |todo|
  {
    hide HandleLocal, Believed, Expected, SameExpectation, FirstPath;
    if todo != {} {
      var first := FirstPath(todo);
      var mid := HandleLocal(s, changes[first]).state;
      assert Values(changes, todo)[1..] == Values(changes, todo - {first});
      FeedEffect(mid, changes, todo - {first}, p);
      LocalBelievedIff(s, changes[first]);
      if p != first {
        LocalIsLocal(s, changes[first], p);
      }
    }
  }

  lemma LocalIsLocal(s: EngineState, change: LocalChange, p: RelPath)
    requires p != change.path
    ensures Believed(HandleLocal(s, change).state.index, p) == Believed(s.index, p)
    ensures forall observed :: Expected(HandleLocal(s, change).state.echo, p, observed) <==> Expected(s.echo, p, observed)
  {
    hide Winner, Merged;
  }

  /** Over any journal: after feeding a difference, the difference from the same files is empty if and
      only if the engine took none of the changes for an echo of its own writes. */
  lemma SecondDiffEmptyIff(s: EngineState, onDisk: Tree, ignored: RelPath -> bool)
    ensures ScanDiff(FeedChanges(s, ScanDiff(s.index, onDisk, ignored)).index, onDisk, ignored) == []
            <==> forall c :: c in ScanDiff(s.index, onDisk, ignored) ==> !Swallowed(s, c)
  {
    hide FeedChanges, DiffAt, Swallowed, Believed, Values, Differences;
    var changes := Differences(s.index, onDisk, ignored);
    var s' := FeedChanges(s, ScanDiff(s.index, onDisk, ignored));
    forall p
      ensures p in changes ==> changes[p].path == p
      ensures DiffAt(s'.index, onDisk, ignored, p).Some? <==> p in changes && Swallowed(s, changes[p])
    {
      SecondLook(s, onDisk, ignored, p);
    }
    EmptyIffNone(s'.index, onDisk, ignored);
    NoneSwallowedIff(s, changes);
  }

  lemma NoneSwallowedIff(s: EngineState, changes: Changes)
    ensures (forall c :: c in Values(changes, changes.Keys) ==> !Swallowed(s, c))
            <==> forall p :: p in changes ==> !Swallowed(s, changes[p])
  {
    hide Swallowed, Values;
    ValuesMembers(changes, changes.Keys);
  }

  lemma {:induction false} ValuesMembers(changes: Changes, todo: set<RelPath>)
    requires todo <= changes.Keys
    ensures forall p :: p in todo ==> changes[p] in Values(changes, todo)
    ensures forall c :: c in Values(changes, todo) ==> exists p :: p in todo && changes[p] == c
    decreases |todo|
  {
    hide FirstPath;
    if todo != {} {
      ValuesMembers(changes, todo - {FirstPath(todo)});
    }
  }

  lemma KeysOfDifferences(index: Index, onDisk: Tree, ignored: RelPath -> bool)
    ensures KeysAreOwn(Differences(index, onDisk, ignored))
    ensures forall p :: p in Differences(index, onDisk, ignored) <==> DiffAt(index, onDisk, ignored, p).Some?
    ensures forall p :: p in Differences(index, onDisk, ignored) ==>
              Differences(index, onDisk, ignored)[p] == DiffAt(index, onDisk, ignored, p).value
  {
    hide Winner;
  }

  lemma SecondLook(s: EngineState, onDisk: Tree, ignored: RelPath -> bool, p: RelPath)
    ensures var changes := Differences(s.index, onDisk, ignored);
            var s' := FeedChanges(s, ScanDiff(s.index, onDisk, ignored));
            && (p in changes ==> changes[p].path == p)
            && (DiffAt(s'.index, onDisk, ignored, p).Some? <==> p in changes && Swallowed(s, changes[p]))
  {
    hide FeedChanges, DiffAt, Swallowed, Believed, Values, Differences;
    var changes := Differences(s.index, onDisk, ignored);
    var s' := FeedChanges(s, ScanDiff(s.index, onDisk, ignored));
    KeysOfDifferences(s.index, onDisk, ignored);
    FeedEffect(s, changes, changes.Keys, p);
    DifferenceIsExact(s.index, onDisk, ignored, p);
    DifferenceIsExact(s'.index, onDisk, ignored, p);
  }

  lemma EmptyIffNone(index: Index, onDisk: Tree, ignored: RelPath -> bool)
    ensures ScanDiff(index, onDisk, ignored) == [] <==> forall p :: DiffAt(index, onDisk, ignored, p).None?
  {
    hide DiffAt, Values;
    var changes := Differences(index, onDisk, ignored);
    KeysOfDifferences(index, onDisk, ignored);
    ValuesEmptyIff(changes, changes.Keys);
    assert changes.Keys == {} <==> forall p :: p !in changes;
  }

  lemma ValuesEmptyIff(changes: Changes, todo: set<RelPath>)
    requires todo <= changes.Keys
    ensures Values(changes, todo) == [] <==> todo == {}
  {
  }

  lemma {:induction false} ValuesAscend(changes: Changes, todo: set<RelPath>)
    requires todo <= changes.Keys && KeysAreOwn(changes)
    ensures |Values(changes, todo)| == |todo|
    ensures forall c :: c in Values(changes, todo) ==> c.path in todo
    ensures forall i, j :: 0 <= i < j < |Values(changes, todo)| ==>
              CompareBytes(Values(changes, todo)[i].path.text, Values(changes, todo)[j].path.text) == Less
    decreases |todo|
  {
    hide CompareBytes;
    if todo != {} {
      var first := FirstPath(todo);
      var rest := Values(changes, todo - {first});
      ValuesAscend(changes, todo - {first});
      forall j | 0 <= j < |rest|
        ensures CompareBytes(first.text, rest[j].path.text) == Less
      {
        assert rest[j] in rest;
        CompareEqual(first.text, rest[j].path.text);
      }
    }
  }

  /** The changes of a scan come in strictly ascending path order, so at most one for each path. */
  lemma ScanChangesAscend(index: Index, onDisk: Tree, ignored: RelPath -> bool, i: nat, j: nat)
    requires i < j < |ScanDiff(index, onDisk, ignored)|
    ensures CompareBytes(ScanDiff(index, onDisk, ignored)[i].path.text, ScanDiff(index, onDisk, ignored)[j].path.text) == Less
  {
    hide DiffAt, CompareBytes, Values;
    var changes := Differences(index, onDisk, ignored);
    KeysOfDifferences(index, onDisk, ignored);
    ValuesAscend(changes, changes.Keys);
  }

  // ---- Scanning twice ----

  /** A hash that was had once can be had later from the rebuilt cache. */
  lemma HashedAgain(cache: Cache, now: U64, m: Maps, later: U64, files: seq<Found>)
    requires AllHashed(cache, now, files) && Faithful(m, files) && OnePathEach(files) && now <= later
    ensures AllHashed(m.rebuilt, later, files)
  {
    hide Faithful, OnePathEach;
    forall i | 0 <= i < |files|
      ensures Hashable(m.rebuilt, later, files[i])
    {
      assert Hashable(cache, now, files[i]);
      EntryOfFile(m, files, i);
    }
  }

  /** A second scan of the same tree, with the cache the first one rebuilt and no earlier clock,
      succeeds, sees the same files, and rebuilds the same cache, whatever index it compares with. */
  lemma SecondScanSeesTheSame(rules: Rules, root: Node, index: Index, index': Index, cache: Cache, now: U64, later: U64)
      returns (m: Maps)
    requires CoherentWith(cache, now, rules, root) && Scan(rules, root, index, cache, now).Done?
    requires OnePathEach(FilesOf(rules, root).value) && now <= later
    ensures Scan(rules, root, index, cache, now).value == Outcome(ScanDiff(index, m.onDisk, rules.ignored), m.rebuilt)
    ensures Scan(rules, root, index', m.rebuilt, later) == Done(Outcome(ScanDiff(index', m.onDisk, rules.ignored), m.rebuilt))
  {
    hide FilesBelow, RecordAll, ScanDiff, Coherent, AllHashed, Faithful, OnePathEach;
    var files, nothing := FilesOf(rules, root).value, Maps(map[], map[]);
    m := RecordAll(cache, now, files, nothing).value;
    RecordedFaithfully(cache, now, files);
    RecordingSucceedsIff(cache, now, files, nothing);
    RebuiltFromFiles(m, files);
    HashedAgain(cache, now, m, later, files);
    SameRecords(files, cache, now, m.rebuilt, later);
  }

  /** The exact condition for the fixpoint, over any journal: after a scan's changes have been fed to
      the engine, a second scan of the tree succeeds and rebuilds the same cache, and it is empty if
      and only if the engine took none of the changes for an echo of its own writes. */
  lemma SecondScanEmptyIff(rules: Rules, root: Node, s: EngineState, cache: Cache, now: U64, later: U64)
    requires CoherentWith(cache, now, rules, root) && Scan(rules, root, s.index, cache, now).Done?
    requires OnePathEach(FilesOf(rules, root).value) && now <= later
    ensures var first := Scan(rules, root, s.index, cache, now).value;
            var second := Scan(rules, root, FeedChanges(s, first.changes).index, first.rebuilt, later);
            && second.Done? && second.value.rebuilt == first.rebuilt
            && (second.value.changes == [] <==> forall c :: c in first.changes ==> !Swallowed(s, c))
  {
    hide Scan, FeedChanges, ScanDiff, Swallowed, CoherentWith, FilesOf, OnePathEach;
    var changes := Scan(rules, root, s.index, cache, now).value.changes;
    var m := SecondScanSeesTheSame(rules, root, s.index, FeedChanges(s, changes).index, cache, now, later);
    SecondDiffEmptyIff(s, m.onDisk, rules.ignored);
  }

  /** With an empty journal, feeding a scan's changes makes a second scan of the same tree empty. */
  lemma ScanReachesFixpoint(rules: Rules, root: Node, s: EngineState, cache: Cache, now: U64, later: U64)
    requires CoherentWith(cache, now, rules, root) && Scan(rules, root, s.index, cache, now).Done?
    requires OnePathEach(FilesOf(rules, root).value) && now <= later && s.echo == map[]
    ensures var first := Scan(rules, root, s.index, cache, now).value;
            Scan(rules, root, FeedChanges(s, first.changes).index, first.rebuilt, later) == Done(Outcome([], first.rebuilt))
  {
    hide Scan, FeedChanges, CoherentWith, FilesOf, OnePathEach;
    SecondScanEmptyIff(rules, root, s, cache, now, later);
  }
}
