/** The startup scan: a recursive walk that fills two maps, and two passes over them. */
module Scans {
  import opened Bytes
  import opened Paths
  import opened Versions
  import opened Entries
  import opened EngineSpec
  import opened Disk
  import opened ScanSpec

  /** Path to last-observed metadata and signature. */
  class ScanCache {
    var entries: Cache

    constructor ()
      ensures entries == map[]
    {
      entries := map[];
    }

    method Insert(path: RelPath, entry: CacheEntry)
      modifies this
      ensures entries == old(entries)[path := entry]
    {
      entries := entries[path := entry];
    }
  }

  class Walker {
    const rules: Rules
    const cache: Cache
    const now: U64
    const rebuilt: ScanCache
    var onDisk: Tree

    constructor (rules: Rules, cache: Cache, now: U64)
      ensures this.rules == rules && this.cache == cache && this.now == now
      ensures fresh(rebuilt) && Recorded() == Maps(map[], map[])
    {
      this.rules, this.cache, this.now := rules, cache, now;
      rebuilt := new ScanCache();
      onDisk := map[];
    }

    ghost function Recorded(): Maps
      reads this, rebuilt
    {
      Maps(onDisk, rebuilt.entries)
    }

    /** The effect of recording `files`, or a failure. */
    ghost predicate Records(before: Maps, files: Attempt<seq<Found>>, ok: bool)
      reads this, rebuilt
    {
      match files
      case Failed => !ok
      case Done(fs) =>
        match RecordAll(cache, now, fs, before)
        case Failed => !ok
        case Done(m) => ok && Recorded() == m
    }

    /** Visit a directory's entries; a failure stops the walk. */
    method Walk(above: seq<Bytes>, children: seq<Child>) returns (ok: bool)
      modifies this, rebuilt
      ensures Records(old(Recorded()), FilesBelow(rules, above, children), ok)
      decreases children
    {
      hide FilesAt, RecordAll;
      RecordNone(cache, now, Recorded());
      for n := 0 to |children|
        invariant Records(old(Recorded()), FilesBelow(rules, above, children[..n]), true)
      {
        assert children[..n + 1][..n] == children[..n];
        ghost var before := Recorded();
        var visited := Visit(above, children[n]);
        VisitOneMore(rules, cache, now, above, children, n, old(Recorded()), before);
        if !visited {
          FilesBelowStop(rules, cache, now, above, children, n + 1, old(Recorded()));
          return false;
        }
      }
      assert children[..|children|] == children;
      ok := true;
    }

    method Visit(above: seq<Bytes>, child: Child) returns (ok: bool)
      modifies this, rebuilt
      ensures Records(old(Recorded()), FilesAt(rules, above, child), ok)
      decreases child
    {
      hide FilesBelow;
      RecordNone(cache, now, Recorded());
      match rules.relativize(above + [child.name]) {
        case None =>
          return true;
        case Some(path) =>
          if rules.ignored(path) {
            return true;
          }
          match child.node {
            case Dir(children) => ok := Walk(above + [child.name], children);
            case File(stat, hash, readable) => ok := RecordFile(Found(path, stat, hash, readable));
            case Unlistable => return false;
            case Special => return true;
          }
      }
    }

    method RecordFile(f: Found) returns (ok: bool)
      modifies this, rebuilt
      ensures Records(old(Recorded()), Done([f]), ok)
    {
      RecordOneFile(cache, now, f, Recorded());
      var sig := SigFor(cache, now, f);
      if sig.Failed? {
        return false;
      }
      rebuilt.Insert(f.path, CacheEntry(f.stat.mtimeNs, f.stat.size, sig.value));
      onDisk := onDisk[f.path := sig.value];
      ok := true;
    }
  }

  lemma RecordNone(cache: Cache, now: U64, m: Maps)
    ensures RecordAll(cache, now, [], m) == Done(m)
  {
  }

  lemma RecordOneFile(cache: Cache, now: U64, f: Found, m: Maps)
    ensures RecordAll(cache, now, [f], m) ==
            match SigFor(cache, now, f)
            case Failed => Failed
            case Done(sig) => Done(Noting(m, f, sig))
  {
    assert [f][..0] == [];
    assert RecordAll(cache, now, [f][..0], m) == Done(m);
  }

  lemma {:induction false} RecordAllConcat(cache: Cache, now: U64, a: seq<Found>, b: seq<Found>, m: Maps)
    ensures RecordAll(cache, now, a + b, m) ==
            match RecordAll(cache, now, a, m)
            case Failed => Failed
            case Done(mid) => RecordAll(cache, now, b, mid)
    decreases |b|
  {
    hide SigFor, Noting;
    if b == [] {
      assert a + b == a;
    } else {
      assert (a + b)[..|a + b| - 1] == a + b[..|b| - 1];
      RecordAllConcat(cache, now, a, b[..|b| - 1], m);
    }
  }

  /** Recording a directory's entries, failures included. */
  ghost function RecordBelow(rules: Rules, cache: Cache, now: U64, above: seq<Bytes>, children: seq<Child>, m: Maps): Attempt<Maps> {
    match FilesBelow(rules, above, children)
    case Failed => Failed
    case Done(files) => RecordAll(cache, now, files, m)
  }

  ghost function RecordAt(rules: Rules, cache: Cache, now: U64, above: seq<Bytes>, child: Child, m: Maps): Attempt<Maps> {
    match FilesAt(rules, above, child)
    case Failed => Failed
    case Done(files) => RecordAll(cache, now, files, m)
  }

  lemma VisitOneMore(rules: Rules, cache: Cache, now: U64, above: seq<Bytes>, children: seq<Child>, n: nat, m: Maps, mid: Maps)
    requires n < |children| && RecordBelow(rules, cache, now, above, children[..n], m) == Done(mid)
    ensures RecordBelow(rules, cache, now, above, children[..n + 1], m) == RecordAt(rules, cache, now, above, children[n], mid)
  {
    hide FilesAt, RecordAll;
    assert children[..n + 1][..n] == children[..n];
    var front, last := FilesBelow(rules, above, children[..n]), FilesAt(rules, above, children[n]);
    if last.Done? {
      RecordAllConcat(cache, now, front.value, last.value, m);
    }
  }

  lemma {:induction false} FilesBelowStop(rules: Rules, cache: Cache, now: U64, above: seq<Bytes>, children: seq<Child>, n: nat, m: Maps)
    requires n <= |children| && RecordBelow(rules, cache, now, above, children[..n], m) == Failed
    ensures RecordBelow(rules, cache, now, above, children, m) == Failed
    decreases |children|
  {
    hide FilesAt, RecordAll;
    if n == |children| {
      assert children[..n] == children;
    } else {
      var front, last := children[..|children| - 1], children[|children| - 1];
      assert front[..n] == children[..n];
      FilesBelowStop(rules, cache, now, above, front, n, m);
      var a, b := FilesBelow(rules, above, front), FilesAt(rules, above, last);
      if a.Done? && b.Done? {
        RecordAllConcat(cache, now, a.value, b.value, m);
      }
    }
  }

  /** `changes` holds the differences at the paths of `seen`. */
  ghost predicate Collected(changes: Changes, index: Index, onDisk: Tree, ignored: RelPath -> bool, seen: set<RelPath>) {
    && (forall p :: p in changes <==> p in seen && DiffAt(index, onDisk, ignored, p).Some?)
    && (forall p :: p in changes ==> changes[p] == DiffAt(index, onDisk, ignored, p).value)
  }

  lemma CollectOne(changes: Changes, index: Index, onDisk: Tree, ignored: RelPath -> bool, seen: set<RelPath>, p: RelPath)
    requires Collected(changes, index, onDisk, ignored, seen)
    ensures match DiffAt(index, onDisk, ignored, p)
            case None => p !in seen ==> Collected(changes, index, onDisk, ignored, seen + {p})
            case Some(change) => Collected(changes[p := change], index, onDisk, ignored, seen + {p})
    ensures p in seen ==> Collected(changes, index, onDisk, ignored, seen + {p})
  {
    hide DiffAt;
    assert p in seen ==> seen + {p} == seen;
  }

  /** Additions and modifications. */
  method CollectModified(index: Index, onDisk: Tree, ghost ignored: RelPath -> bool) returns (changes: Changes)
    ensures Collected(changes, index, onDisk, ignored, onDisk.Keys)
  {
    hide Winner, Collected;
    changes := map[];
    NothingCollected(index, onDisk, ignored);
    var todo := onDisk.Keys;
    assert onDisk.Keys - todo == {};
    while todo != {}
      invariant todo <= onDisk.Keys
      invariant Collected(changes, index, onDisk, ignored, onDisk.Keys - todo)
      decreases todo
    {
      var p :| p in todo;
      CollectOne(changes, index, onDisk, ignored, onDisk.Keys - todo, p);
      var differs := true;
      if p in index {
        var entry := new Entry.Clone(index[p]);
        var winner := entry.GetWinner();
        differs := !SameState(winner.state, Present(onDisk[p]));
      }
      if differs {
        changes := changes[p := LocalChange(p, Modified(onDisk[p]))];
      }
      assert onDisk.Keys - todo + {p} == onDisk.Keys - (todo - {p});
      todo := todo - {p};
    }
    assert onDisk.Keys - todo == onDisk.Keys;
  }

  /** Deletions, except of paths that are ignored. */
  method CollectRemoved(index: Index, onDisk: Tree, ignored: RelPath -> bool, modified: Changes) returns (changes: Changes)
    requires Collected(modified, index, onDisk, ignored, onDisk.Keys)
    ensures Collected(changes, index, onDisk, ignored, onDisk.Keys + index.Keys)
  {
    hide Winner, Collected;
    changes := modified;
    var todo := index.Keys;
    ghost var seen := onDisk.Keys;
    while todo != {}
      invariant todo <= index.Keys && seen == onDisk.Keys + (index.Keys - todo)
      invariant Collected(changes, index, onDisk, ignored, seen)
      decreases todo
    {
      var p :| p in todo;
      CollectOne(changes, index, onDisk, ignored, seen, p);
      var entry := new Entry.Clone(index[p]);
      var winner := entry.GetWinner();
      if winner.state.Present? && p !in onDisk && !ignored(p) {
        changes := changes[p := LocalChange(p, Removed)];
      }
      seen := seen + {p};
      todo := todo - {p};
    }
    assert seen == onDisk.Keys + index.Keys;
  }

  lemma NothingCollected(index: Index, onDisk: Tree, ignored: RelPath -> bool)
    ensures Collected(map[], index, onDisk, ignored, {})
  {
  }

  lemma AllCollected(changes: Changes, index: Index, onDisk: Tree, ignored: RelPath -> bool)
    requires Collected(changes, index, onDisk, ignored, onDisk.Keys + index.Keys)
    ensures changes == Differences(index, onDisk, ignored)
  {
    hide DiffAt;
  }

  /** Additions and modifications, then deletions, collected by path and listed in order. */
  method Diff(index: Index, onDisk: Tree, ignored: RelPath -> bool) returns (list: seq<LocalChange>)
    ensures list == ScanDiff(index, onDisk, ignored)
  {
    hide Collected, Differences;
    var modified := CollectModified(index, onDisk, ignored);
    var changes := CollectRemoved(index, onDisk, ignored, modified);
    AllCollected(changes, index, onDisk, ignored);
    list := InOrder(changes);
  }

  method InOrder(changes: Changes) returns (list: seq<LocalChange>)
    ensures list == Values(changes, changes.Keys)
  {
    list := [];
    var todo := changes.Keys;
    while todo != {}
      invariant todo <= changes.Keys
      invariant list + Values(changes, todo) == Values(changes, changes.Keys)
      decreases todo
    {
      var p := FirstOf(todo);
      assert list + [changes[p]] + Values(changes, todo - {p}) == list + ([changes[p]] + Values(changes, todo - {p}));
      list := list + [changes[p]];
      todo := todo - {p};
    }
  }

  method ScanDiffCached(rules: Rules, root: Node, index: Index, cache: Cache, now: U64) returns (result: Attempt<Outcome>)
    ensures result == Scan(rules, root, index, cache, now)
  {
    hide FilesBelow, RecordAll, ScanDiff;
    if !root.Dir? {
      return Failed;
    }
    var walker := new Walker(rules, cache, now);
    var ok := walker.Walk([], root.children);
    if !ok {
      return Failed;
    }
    var changes := Diff(index, walker.onDisk, rules.ignored);
    result := Done(Outcome(changes, walker.rebuilt.entries));
  }
}
