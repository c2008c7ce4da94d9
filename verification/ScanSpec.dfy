/** The startup scan on values: which files of a tree it finds, what it records for each, and how
    the outcome differs from the index. The methods in `Scans` are proved equal to it. */
module ScanSpec {
  import opened Bytes
  import opened Options
  import opened Paths
  import opened Versions
  import opened Entries
  import opened EngineSpec
  import opened Disk

  const RECENT_WINDOW_NS: nat := 2_000_000_000

  // ---- Trees ----

  datatype Stat = Stat(mtimeNs: U64, size: U64, exec: bool, mtimeMs: U64)

  /** A file whose content hashes to `hash`, a directory in listing order, a directory that cannot be
      listed, or anything else (a symlink, a socket). */
  datatype Node = File(stat: Stat, hash: ContentHash, readable: bool)
                | Dir(children: seq<Child>)
                | Unlistable
                | Special
  datatype Child = Child(name: Bytes, node: Node)

  /** How the names from the root become a repo-relative path, if they do, and which paths the
      configuration ignores. */
  datatype Rules = Rules(relativize: seq<Bytes> -> Option<RelPath>, ignored: RelPath -> bool)

  datatype Attempt<+T> = Done(value: T) | Failed

  datatype Found = Found(path: RelPath, stat: Stat, hash: ContentHash, readable: bool)

  /** The tracked regular files below a directory, in the order they are met. */
  function FilesBelow(rules: Rules, above: seq<Bytes>, children: seq<Child>): Attempt<seq<Found>>
    decreases children
  {
    if children == [] then Done([])
    else
      match FilesBelow(rules, above, children[..|children| - 1])
      case Failed => Failed
      case Done(front) =>
        match FilesAt(rules, above, children[|children| - 1])
        case Failed => Failed
        case Done(last) => Done(front + last)
  }

  function FilesAt(rules: Rules, above: seq<Bytes>, child: Child): Attempt<seq<Found>>
    decreases child
  {
    match rules.relativize(above + [child.name])
    case None => Done([])
    case Some(path) =>
      if rules.ignored(path) then Done([])
      else
        match child.node
        case File(stat, hash, readable) => Done([Found(path, stat, hash, readable)])
        case Dir(children) => FilesBelow(rules, above + [child.name], children)
        case Unlistable => Failed
        case Special => Done([])
  }

  // ---- What is recorded for a file ----

  datatype CacheEntry = CacheEntry(mtimeNs: U64, size: U64, sig: ContentSig)
  type Cache = map<RelPath, CacheEntry>

  datatype Maps = Maps(onDisk: Tree, rebuilt: Cache)

  function Cached(cache: Cache, p: RelPath): Option<CacheEntry> {
    if p in cache then Some(cache[p]) else None
  }

  /** The hash to reuse, when the quick check passes and the file was not written recently. */
  function Reusable(cached: Option<CacheEntry>, stat: Stat, now: U64): Option<ContentHash> {
    var until := if stat.mtimeNs + RECENT_WINDOW_NS > U64_MAX then U64_MAX else stat.mtimeNs + RECENT_WINDOW_NS;
    if until >= now then None
    else
      match cached
      case Some(e) => if e.mtimeNs == stat.mtimeNs && e.size == stat.size then Some(e.sig.hash) else None
      case None => None
  }

  /** What reading the file gives. */
  function Snapshot(f: Found): ContentSig {
    ContentSig(f.hash, f.stat.size, f.stat.exec, f.stat.mtimeMs)
  }

  /** The signature: hash reused or read, the rest always from the metadata just read. */
  function SigFor(cache: Cache, now: U64, f: Found): Attempt<ContentSig> {
    match Reusable(Cached(cache, f.path), f.stat, now)
    case Some(hash) => Done(ContentSig(hash, f.stat.size, f.stat.exec, f.stat.mtimeMs))
    case None => if f.readable then Done(Snapshot(f)) else Failed
  }

  function Noting(m: Maps, f: Found, sig: ContentSig): Maps {
    Maps(m.onDisk[f.path := sig], m.rebuilt[f.path := CacheEntry(f.stat.mtimeNs, f.stat.size, sig)])
  }

  function RecordAll(cache: Cache, now: U64, files: seq<Found>, m: Maps): Attempt<Maps> {
    if files == [] then Done(m)
    else
      var last := files[|files| - 1];
      match RecordAll(cache, now, files[..|files| - 1], m)
      case Failed => Failed
      case Done(front) =>
        match SigFor(cache, now, last)
        case Failed => Failed
        case Done(sig) => Done(Noting(front, last, sig))
  }

  // ---- The difference from the index ----

  ghost function DiffAt(index: Index, onDisk: Tree, ignored: RelPath -> bool, p: RelPath): Option<LocalChange> {
    if p in onDisk then
      if p in index && SameState(Winner(index[p]).state, Present(onDisk[p])) then None
      else Some(LocalChange(p, Modified(onDisk[p])))
    else if p in index && Winner(index[p]).state.Present? && !ignored(p) then Some(LocalChange(p, Removed))
    else None
  }

  type Changes = map<RelPath, LocalChange>

  ghost function Differences(index: Index, onDisk: Tree, ignored: RelPath -> bool): Changes {
    map p | p in index.Keys + onDisk.Keys && DiffAt(index, onDisk, ignored, p).Some? :: DiffAt(index, onDisk, ignored, p).value
  }

  /** The values of a map in ascending path order. */
  ghost function Values(changes: Changes, todo: set<RelPath>): seq<LocalChange>
    requires todo <= changes.Keys
    decreases |todo|
  {
    if todo == {} then []
    else
      var p := FirstPath(todo);
      [changes[p]] + Values(changes, todo - {p})
  }

  ghost function ScanDiff(index: Index, onDisk: Tree, ignored: RelPath -> bool): seq<LocalChange> {
    var changes := Differences(index, onDisk, ignored);
    Values(changes, changes.Keys)
  }

  datatype Outcome = Outcome(changes: seq<LocalChange>, rebuilt: Cache)

  ghost function Scan(rules: Rules, root: Node, index: Index, cache: Cache, now: U64): Attempt<Outcome> {
    if !root.Dir? then Failed
    else
      match FilesBelow(rules, [], root.children)
      case Failed => Failed
      case Done(files) =>
        match RecordAll(cache, now, files, Maps(map[], map[]))
        case Failed => Failed
        case Done(m) => Done(Outcome(ScanDiff(index, m.onDisk, rules.ignored), m.rebuilt))
  }
}
