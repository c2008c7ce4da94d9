/** Which files of a tree a scan finds: those that a chain of names reaches without passing an ignored
    or unrepresentable path. */
module ScanTrees {
  import opened Bytes
  import opened Options
  import opened Paths
  import opened Versions
  import opened EngineSpec
  import opened Disk
  import opened ScanSpec
  import opened ScanFacts

  // ---- Chains of names ----

  /** The entry itself, or what the rest of the names lead to inside it. */
  ghost predicate LeadsTo(child: Child, names: seq<Bytes>, node: Node)
    decreases |names|, 0
  {
    && names != [] && child.name == names[0]
    && if |names| == 1 then child.node == node else child.node.Dir? && Reaches(child.node.children, names[1..], node)
  }

  /** Some entry of a directory, followed down by the names, is `node`. */
  ghost predicate Reaches(children: seq<Child>, names: seq<Bytes>, node: Node)
    decreases |names|, 1
  {
    exists i :: 0 <= i < |children| && LeadsTo(children[i], names, node)
  }

  /** The path of a chain of names is representable and not ignored. */
  ghost predicate Passes(rules: Rules, names: seq<Bytes>) {
    rules.relativize(names).Some? && !rules.ignored(rules.relativize(names).value)
  }

  /** So is every directory on the way, below `above`. */
  ghost predicate Open(rules: Rules, above: seq<Bytes>, names: seq<Bytes>) {
    forall n :: 1 <= n <= |names| ==> Passes(rules, above + names[..n])
  }

  lemma OpenOne(rules: Rules, above: seq<Bytes>, name: Bytes)
    ensures Open(rules, above, [name]) <==> Passes(rules, above + [name])
  {
    assert [name][..1] == [name];
  }

  lemma OpenStep(rules: Rules, above: seq<Bytes>, names: seq<Bytes>)
    requires names != []
    ensures Open(rules, above, names) <==> Passes(rules, above + [names[0]]) && Open(rules, above + [names[0]], names[1..])
  {
    var name, rest := names[0], names[1..];
    forall n | 1 <= n <= |names|
      ensures above + names[..n] == above + [name] + rest[..n - 1]
    {
      assert names[..n] == [name] + rest[..n - 1];
    }
    assert above + [name] + rest[..0] == above + [name];
    if Open(rules, above, names) {
      assert Passes(rules, above + names[..1]);
      forall n | 1 <= n <= |rest|
        ensures Passes(rules, above + [name] + rest[..n])
      {
        assert Passes(rules, above + names[..n + 1]);
      }
    }
  }

  lemma ReachesLonger(children: seq<Child>, last: Child, names: seq<Bytes>, node: Node)
    ensures Reaches(children + [last], names, node) <==> Reaches(children, names, node) || LeadsTo(last, names, node)
  {
    hide LeadsTo;
    var all := children + [last];
    assert forall i :: 0 <= i < |children| ==> all[i] == children[i];
    assert all[|children|] == last;
  }

  /** Below a directory, the chain goes on inside it. */
  lemma LeadsBelow(child: Child, names: seq<Bytes>, node: Node)
    requires names != [] && child.node.Dir?
    ensures LeadsTo(child, [child.name] + names, node) <==> Reaches(child.node.children, names, node)
  {
    hide Reaches;
    assert ([child.name] + names)[1..] == names;
  }

  // ---- What the walk finds ----

  ghost function FileOf(f: Found): Node {
    File(f.stat, f.hash, f.readable)
  }

  /** A chain of names that finds the file. */
  ghost predicate Finds(rules: Rules, above: seq<Bytes>, children: seq<Child>, names: seq<Bytes>, f: Found) {
    Reaches(children, names, FileOf(f)) && Open(rules, above, names) && rules.relativize(above + names) == Some(f.path)
  }

  ghost predicate FindsAt(rules: Rules, above: seq<Bytes>, child: Child, names: seq<Bytes>, f: Found) {
    LeadsTo(child, names, FileOf(f)) && Open(rules, above, names) && rules.relativize(above + names) == Some(f.path)
  }

  lemma FindsBelow(rules: Rules, above: seq<Bytes>, child: Child, names: seq<Bytes>, f: Found)
    requires child.node.Dir? && names != [] && Passes(rules, above + [child.name])
    ensures FindsAt(rules, above, child, [child.name] + names, f)
            <==> Finds(rules, above + [child.name], child.node.children, names, f)
  {
    hide LeadsTo, Reaches, Open, Passes;
    LeadsBelow(child, names, FileOf(f));
    OpenStep(rules, above, [child.name] + names);
    assert ([child.name] + names)[1..] == names;
    assert above + ([child.name] + names) == above + [child.name] + names;
  }

  lemma {:induction false} FilesReached(rules: Rules, above: seq<Bytes>, children: seq<Child>, f: Found) returns (names: seq<Bytes>)
    requires FilesBelow(rules, above, children).Done? && f in FilesBelow(rules, above, children).value
    ensures Finds(rules, above, children, names, f)
    decreases children
  {
    hide Open, Reaches, LeadsTo, FilesAt;
    var front, last := children[..|children| - 1], children[|children| - 1];
    assert children == front + [last];
    if f in FilesBelow(rules, above, front).value {
      names := FilesReached(rules, above, front, f);
    } else {
      names := FilesReachedAt(rules, above, last, f);
    }
    ReachesLonger(front, last, names, FileOf(f));
  }

  lemma {:induction false} FilesReachedAt(rules: Rules, above: seq<Bytes>, child: Child, f: Found) returns (names: seq<Bytes>)
    requires FilesAt(rules, above, child).Done? && f in FilesAt(rules, above, child).value
    ensures FindsAt(rules, above, child, names, f)
    decreases child
  {
    hide FilesBelow, Open, Reaches;
    if child.node.Dir? {
      var below := FilesReached(rules, above + [child.name], child.node.children, f);
      NotEmpty(child.node.children, below, FileOf(f));
      FindsBelow(rules, above, child, below, f);
      names := [child.name] + below;
    } else {
      names := [child.name];
      OpenOne(rules, above, child.name);
    }
  }

  lemma NotEmpty(children: seq<Child>, names: seq<Bytes>, node: Node)
    requires Reaches(children, names, node)
    ensures names != []
  {
  }

  lemma {:induction false} ReachedFound(rules: Rules, above: seq<Bytes>, children: seq<Child>, names: seq<Bytes>, f: Found)
    requires FilesBelow(rules, above, children).Done? && Finds(rules, above, children, names, f)
    ensures f in FilesBelow(rules, above, children).value
    decreases children
  {
    hide Open, Reaches, LeadsTo, FilesAt;
    NotNone(children, names, FileOf(f));
    var front, last := children[..|children| - 1], children[|children| - 1];
    assert children == front + [last];
    ReachesLonger(front, last, names, FileOf(f));
    if Reaches(front, names, FileOf(f)) {
      ReachedFound(rules, above, front, names, f);
    } else {
      ReachedFoundAt(rules, above, last, names, f);
    }
  }

  lemma NotNone(children: seq<Child>, names: seq<Bytes>, node: Node)
    requires Reaches(children, names, node)
    ensures children != []
  {
  }

  lemma {:induction false} ReachedFoundAt(rules: Rules, above: seq<Bytes>, child: Child, names: seq<Bytes>, f: Found)
    requires FilesAt(rules, above, child).Done? && FindsAt(rules, above, child, names, f)
    ensures f in FilesAt(rules, above, child).value
    decreases child
  {
    hide FilesBelow, Open, Reaches;
    OpenStep(rules, above, names);
    assert names == [child.name] + names[1..];
    if |names| > 1 {
      FindsBelow(rules, above, child, names[1..], f);
      ReachedFound(rules, above + [child.name], child.node.children, names[1..], f);
    } else {
      assert names == [child.name];
      assert FilesAt(rules, above, child).value == [f];
    }
  }

  // ---- When the walk fails ----

  lemma {:induction false} FailureReached(rules: Rules, above: seq<Bytes>, children: seq<Child>) returns (names: seq<Bytes>)
    requires FilesBelow(rules, above, children).Failed?
    ensures Reaches(children, names, Unlistable) && Open(rules, above, names)
    decreases children
  {
    hide Open, Reaches, LeadsTo, FilesAt;
    var front, last := children[..|children| - 1], children[|children| - 1];
    assert children == front + [last];
    if FilesBelow(rules, above, front).Failed? {
      names := FailureReached(rules, above, front);
    } else {
      names := FailureReachedAt(rules, above, last);
    }
    ReachesLonger(front, last, names, Unlistable);
  }

  lemma {:induction false} FailureReachedAt(rules: Rules, above: seq<Bytes>, child: Child) returns (names: seq<Bytes>)
    requires FilesAt(rules, above, child).Failed?
    ensures LeadsTo(child, names, Unlistable) && Open(rules, above, names)
    decreases child
  {
    hide FilesBelow, Open, Reaches;
    if child.node.Dir? {
      var below := FailureReached(rules, above + [child.name], child.node.children);
      NotEmpty(child.node.children, below, Unlistable);
      LeadsBelow(child, below, Unlistable);
      names := [child.name] + below;
      OpenStep(rules, above, names);
      assert names[1..] == below;
    } else {
      names := [child.name];
      OpenOne(rules, above, child.name);
    }
  }

  lemma {:induction false} UnlistableFails(rules: Rules, above: seq<Bytes>, children: seq<Child>, names: seq<Bytes>)
    requires Reaches(children, names, Unlistable) && Open(rules, above, names)
    ensures FilesBelow(rules, above, children).Failed?
    decreases children
  {
    hide Open, Reaches, LeadsTo, FilesAt;
    NotNone(children, names, Unlistable);
    var front, last := children[..|children| - 1], children[|children| - 1];
    assert children == front + [last];
    ReachesLonger(front, last, names, Unlistable);
    if Reaches(front, names, Unlistable) {
      UnlistableFails(rules, above, front, names);
    } else {
      UnlistableFailsAt(rules, above, last, names);
    }
  }

  lemma {:induction false} UnlistableFailsAt(rules: Rules, above: seq<Bytes>, child: Child, names: seq<Bytes>)
    requires LeadsTo(child, names, Unlistable) && Open(rules, above, names)
    ensures FilesAt(rules, above, child).Failed?
    decreases child
  {
    hide FilesBelow, Open, Reaches;
    OpenStep(rules, above, names);
    assert names == [child.name] + names[1..];
    if |names| > 1 {
      UnlistableFails(rules, above + [child.name], child.node.children, names[1..]);
    }
  }

  // ---- The walk from the root ----

  /** The walk finds a file under a path if and only if a chain of names leads to that file, its path is
      that of the chain, and no step of the chain is ignored or unrepresentable. */
  lemma WalkFindsIff(rules: Rules, root: Node, f: Found)
    requires FilesOf(rules, root).Done?
    ensures f in FilesOf(rules, root).value
            <==> exists names :: Reaches(root.children, names, File(f.stat, f.hash, f.readable))
                                 && Open(rules, [], names) && rules.relativize(names) == Some(f.path)
  {
    hide Reaches, Open, FilesBelow;
    if f in FilesOf(rules, root).value {
      var names := FilesReached(rules, [], root.children, f);
      assert [] + names == names;
    }
    if names :| Reaches(root.children, names, File(f.stat, f.hash, f.readable))
                && Open(rules, [], names) && rules.relativize(names) == Some(f.path) {
      assert [] + names == names;
      ReachedFound(rules, [], root.children, names, f);
    }
  }

  /** The walk fails if and only if the root is no directory that can be listed, or such a chain of names
      leads to a directory that cannot. */
  lemma WalkFailsIff(rules: Rules, root: Node)
    ensures FilesOf(rules, root).Failed?
            <==> !root.Dir? || exists names :: Reaches(root.children, names, Unlistable) && Open(rules, [], names)
  {
    hide Reaches, Open, FilesBelow;
    if root.Dir? {
      if FilesOf(rules, root).Failed? {
        var names := FailureReached(rules, [], root.children);
      }
      if names :| Reaches(root.children, names, Unlistable) && Open(rules, [], names) {
        UnlistableFails(rules, [], root.children, names);
      }
    }
  }

  lemma FoundIsNotIgnored(rules: Rules, root: Node, f: Found)
    requires FilesOf(rules, root).Done? && f in FilesOf(rules, root).value
    ensures !rules.ignored(f.path)
  {
    hide Reaches, FilesBelow;
    WalkFindsIff(rules, root, f);
    var names :| Reaches(root.children, names, File(f.stat, f.hash, f.readable))
                 && Open(rules, [], names) && rules.relativize(names) == Some(f.path);
    NotEmpty(root.children, names, File(f.stat, f.hash, f.readable));
    assert [] + names[..|names|] == names;
  }

  /** Nothing ignored is ever reported, neither as changed nor as gone, nor remembered. */
  lemma IgnoredIsInvisible(rules: Rules, root: Node, index: Index, cache: Cache, now: U64, p: RelPath)
    requires Scan(rules, root, index, cache, now).Done? && rules.ignored(p)
    ensures p !in Scan(rules, root, index, cache, now).value.rebuilt
    ensures forall c :: c in Scan(rules, root, index, cache, now).value.changes ==> c.path != p
  {
    hide FilesBelow, RecordAll, ScanDiff, Listed;
    var files := FilesOf(rules, root).value;
    var m := RecordAll(cache, now, files, Maps(map[], map[])).value;
    RecordedKeys(cache, now, files, p);
    if Listed(files, p) {
      IgnoredIsNotListed(rules, root, p);
    }
    IgnoredIsNotADifference(index, m.onDisk, rules.ignored, p);
  }

  lemma IgnoredIsNotListed(rules: Rules, root: Node, p: RelPath)
    requires FilesOf(rules, root).Done? && rules.ignored(p)
    ensures !Listed(FilesOf(rules, root).value, p)
  {
    hide FilesBelow;
    var files := FilesOf(rules, root).value;
    forall i | 0 <= i < |files|
      ensures files[i].path != p
    {
      FoundIsNotIgnored(rules, root, files[i]);
    }
  }

  lemma {:induction false} RecordedKeys(cache: Cache, now: U64, files: seq<Found>, p: RelPath)
    requires RecordAll(cache, now, files, Maps(map[], map[])).Done?
    ensures var m := RecordAll(cache, now, files, Maps(map[], map[])).value;
            (p in m.onDisk <==> Listed(files, p)) && (p in m.rebuilt <==> Listed(files, p))
  {
    hide SigFor;
    if files != [] {
      var front, last := files[..|files| - 1], files[|files| - 1];
      RecordedKeys(cache, now, front, p);
      assert forall i :: 0 <= i < |front| ==> files[i] == front[i];
      assert Listed(files, p) <==> Listed(front, p) || last.path == p by {
        if Listed(front, p) {
          var i :| 0 <= i < |front| && front[i].path == p;
          assert files[i].path == p;
        }
        if last.path == p {
          assert files[|files| - 1].path == p;
        }
      }
    }
  }

  lemma IgnoredIsNotADifference(index: Index, onDisk: Tree, ignored: RelPath -> bool, p: RelPath)
    requires ignored(p) && p !in onDisk
    ensures forall c :: c in ScanDiff(index, onDisk, ignored) ==> c.path != p
  {
    hide Values, DiffAt;
    var changes := Differences(index, onDisk, ignored);
    KeysOfDifferences(index, onDisk, ignored);
    DifferenceIsExact(index, onDisk, ignored, p);
    ValuesMembers(changes, changes.Keys);
  }
}
