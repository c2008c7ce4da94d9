/** What the history store guarantees over every sequence of calls: a clean report, stable ids,
    contents that never change, and a migration that keeps one row of each identity. */
module HistoryRuns {
  import opened Bytes
  import opened Clocks
  import opened Options
  import opened Paths
  import opened Versions
  import opened HistorySpec
  import opened History

  // ---- Assumptions on hashing, compression and chunking ----

  function Concat(pieces: seq<Bytes>): Bytes {
    if pieces == [] then [] else Concat(pieces[..|pieces| - 1]) + pieces[|pieces| - 1]
  }

  /** The file contents that occur, and their pieces. */
  datatype World = World(contents: set<Bytes>, pieces: set<Bytes>)

  ghost predicate Distinguishes(codec: Codec, texts: set<Bytes>) {
    forall a, b :: a in texts && b in texts && codec.hash(a) == codec.hash(b) ==> a == b
  }

  ghost predicate Lossless(codec: Codec, texts: set<Bytes>) {
    forall p :: p in texts && codec.compress(p).Some? ==> codec.decompress(codec.compress(p).value) == Some(p)
  }

  ghost predicate Tiles(codec: Codec, world: World) {
    forall b :: b in world.contents ==>
      |b| <= U64_MAX && Concat(codec.cut(b)) == b && AllIn(codec.cut(b), world.pieces)
  }

  ghost predicate AllIn(pieces: seq<Bytes>, texts: set<Bytes>) {
    forall i :: 0 <= i < |pieces| ==> pieces[i] in texts
  }

  /** No two of the byte strings that occur share a hash, compression is lossless on the pieces,
      and the pieces of a content tile it. */
  ghost predicate Trustworthy(codec: Codec, world: World) {
    Distinguishes(codec, world.contents) && Distinguishes(codec, world.pieces) && Lossless(codec, world.pieces) && Tiles(codec, world)
  }

  // ---- The invariant ----

  ghost predicate ChunkFor(codec: Codec, key: ContentHash, row: ChunkRow, p: Bytes) {
    codec.hash(p) == key && row.size == Len(p) && codec.decompress(row.zdata) == Some(p)
  }

  ghost predicate ChunksSound(codec: Codec, world: World, chunks: Chunks) {
    forall key :: key in chunks ==> exists p :: p in world.pieces && ChunkFor(codec, key, chunks[key], p)
  }

  ghost predicate AllStored(chunks: Chunks, manifest: Manifest) {
    forall i :: 0 <= i < |manifest| ==> manifest[i] in chunks
  }

  /** The row describes the content `b`, whose chunks are all stored. */
  ghost predicate RowFor(codec: Codec, chunks: Chunks, row: VersionRow, b: Bytes) {
    && row.contentHash == Some(codec.hash(b)) && row.size == Some(Len(b))
    && row.manifest == Some(Hashes(codec, codec.cut(b)))
    && AllStored(chunks, Hashes(codec, codec.cut(b)))
  }

  ghost predicate RowsSound(codec: Codec, world: World, chunks: Chunks, versions: Rows) {
    forall id :: id in versions && versions[id].present ==> exists b :: b in world.contents && RowFor(codec, chunks, versions[id], b)
  }

  ghost predicate Inv(codec: Codec, world: World, t: Tables) {
    Consistent(t) && ChunksSound(codec, world, t.chunks) && RowsSound(codec, world, t.chunks, t.versions)
  }

  // ---- Reading what was stored ----

  lemma StoredPieceVerifies(codec: Codec, world: World, chunks: Chunks, p: Bytes)
    requires Distinguishes(codec, world.pieces) && ChunksSound(codec, world, chunks)
    requires p in world.pieces && codec.hash(p) in chunks
    ensures Verified(codec, codec.hash(p), chunks[codec.hash(p)]) == Ok(p)
    ensures chunks[codec.hash(p)].size == Len(p)
  {
    var key := codec.hash(p);
    var q :| q in world.pieces && ChunkFor(codec, key, chunks[key], q);
    assert q == p;
  }

  lemma {:induction false} ManifestReadsBack(codec: Codec, world: World, chunks: Chunks, id: VersionId, pieces: seq<Bytes>)
    requires Distinguishes(codec, world.pieces) && ChunksSound(codec, world, chunks)
    requires AllIn(pieces, world.pieces) && AllStored(chunks, Hashes(codec, pieces)) && |Concat(pieces)| <= U64_MAX
    ensures Assemble(codec, chunks, id, Hashes(codec, pieces)) == Ok(Concat(pieces))
    ensures SummedSize(chunks, Hashes(codec, pieces)) == |Concat(pieces)|
  {
    hide Distinguishes, ChunksSound, Verified;
    if pieces != [] {
      var front, last := pieces[..|pieces| - 1], pieces[|pieces| - 1];
      var manifest := Hashes(codec, pieces);
      assert manifest[..|manifest| - 1] == Hashes(codec, front);
      assert manifest[|manifest| - 1] == codec.hash(last);
      assert AllStored(chunks, Hashes(codec, front)) by {
        assert forall i :: 0 <= i < |front| ==> manifest[i] == Hashes(codec, front)[i];
      }
      ManifestReadsBack(codec, world, chunks, id, front);
      StoredPieceVerifies(codec, world, chunks, last);
    }
  }

  lemma RowReadsBack(codec: Codec, world: World, t: Tables, id: VersionId, b: Bytes)
    requires Trustworthy(codec, world) && ChunksSound(codec, world, t.chunks)
    requires id in t.versions && t.versions[id].present && b in world.contents && RowFor(codec, t.chunks, t.versions[id], b)
    ensures GetContent(codec, t, id) == Ok(b)
    ensures RowIsSound(t.chunks, t.versions[id])
  {
    hide Distinguishes, ChunksSound, Assemble, SummedSize, Concat;
    var pieces := codec.cut(b);
    ManifestReadsBack(codec, world, t.chunks, id, pieces);
    forall key | key in t.versions[id].manifest.value
      ensures key in t.chunks
    {
      var i :| 0 <= i < |pieces| && Hashes(codec, pieces)[i] == key;
    }
  }

  // ---- One insert ----

  /** Nothing stored is changed or removed. */
  ghost predicate Extends(t: Tables, t': Tables) {
    && (forall key :: key in t.chunks ==> key in t'.chunks && t'.chunks[key] == t.chunks[key])
    && (forall id :: id in t.versions ==> id in t'.versions && t'.versions[id] == t.versions[id])
  }

  lemma PieceStored(codec: Codec, world: World, chunks: Chunks, p: Bytes, zdata: Bytes)
    requires ChunksSound(codec, world, chunks) && p in world.pieces && codec.decompress(zdata) == Some(p)
    ensures ChunksSound(codec, world, Ignoring(chunks, codec.hash(p), ChunkRow(Len(p), zdata)))
  {
    hide Len;
    assert ChunkFor(codec, codec.hash(p), ChunkRow(Len(p), zdata), p);
  }

  lemma HashesExtended(codec: Codec, pieces: seq<Bytes>)
    requires pieces != []
    ensures Hashes(codec, pieces) == Hashes(codec, pieces[..|pieces| - 1]) + [codec.hash(pieces[|pieces| - 1])]
  {
  }

  lemma StoredExtended(chunks: Chunks, front: Manifest, last: ContentHash)
    ensures AllStored(chunks, front + [last]) <==> AllStored(chunks, front) && last in chunks
  {
    assert forall i :: 0 <= i < |front| ==> (front + [last])[i] == front[i];
    assert (front + [last])[|front|] == last;
  }

  lemma {:induction false} StorePiecesEffect(codec: Codec, world: World, chunks: Chunks, pieces: seq<Bytes>)
    requires ChunksSound(codec, world, chunks) && Lossless(codec, world.pieces) && AllIn(pieces, world.pieces)
    requires StorePieces(codec, chunks, pieces).Ok?
    ensures var stored := StorePieces(codec, chunks, pieces).value;
            && ChunksSound(codec, world, stored)
            && AllStored(stored, Hashes(codec, pieces))
            && (forall key :: key in chunks ==> key in stored && stored[key] == chunks[key])
            && (AllStored(chunks, Hashes(codec, pieces)) ==> stored == chunks && NewBytes(codec, chunks, pieces) == 0)
  {
    hide ChunksSound, Hashes, Len;
    if pieces == [] {
      assert |Hashes(codec, pieces)| == 0;
    } else {
      var front, last := pieces[..|pieces| - 1], pieces[|pieces| - 1];
      StorePiecesEffect(codec, world, chunks, front);
      var before, zdata := StorePieces(codec, chunks, front).value, codec.compress(last).value;
      PieceStored(codec, world, before, last, zdata);
      HashesExtended(codec, pieces);
      StoredExtended(Ignoring(before, codec.hash(last), ChunkRow(Len(last), zdata)), Hashes(codec, front), codec.hash(last));
      StoredExtended(chunks, Hashes(codec, front), codec.hash(last));
    }
  }

  ghost predicate Known(world: World, r: Record) {
    r.bytes.Some? ==> r.bytes.value in world.contents
  }

  lemma PrepareEffect(codec: Codec, world: World, chunks: Chunks, r: Record)
    requires Trustworthy(codec, world) && ChunksSound(codec, world, chunks) && Known(world, r)
    requires Prepare(codec, chunks, r).Ok?
    ensures var p := Prepare(codec, chunks, r).value;
            && ChunksSound(codec, world, p.chunks)
            && (forall key :: key in chunks ==> key in p.chunks && p.chunks[key] == chunks[key])
            && p.row.path == r.path && p.row.present == r.state.Present? && p.row.clock == r.clock
            && (p.row.present ==> r.bytes.Some? && RowFor(codec, p.chunks, p.row, r.bytes.value))
  {
    hide ChunksSound, Lossless, StorePieces, Hashes, Concat, Distinguishes;
    if r.state.Present? {
      StorePiecesEffect(codec, world, chunks, codec.cut(r.bytes.value));
    }
  }

  ghost function IdentityOfRecord(r: Record): Identity {
    Identity(r.path, r.state.Present?, r.clock)
  }

  lemma RowForExtends(codec: Codec, chunks: Chunks, chunks': Chunks, row: VersionRow, b: Bytes)
    requires RowFor(codec, chunks, row, b) && forall key :: key in chunks ==> key in chunks'
    ensures RowFor(codec, chunks', row, b)
  {
  }

  lemma RowsStaySound(codec: Codec, world: World, chunks: Chunks, chunks': Chunks, versions: Rows)
    requires RowsSound(codec, world, chunks, versions) && forall key :: key in chunks ==> key in chunks'
    ensures RowsSound(codec, world, chunks', versions)
  {
    hide RowFor;
    forall id | id in versions && versions[id].present
      ensures exists b :: b in world.contents && RowFor(codec, chunks', versions[id], b)
    {
      var b :| b in world.contents && RowFor(codec, chunks, versions[id], b);
      RowForExtends(codec, chunks, chunks', versions[id], b);
    }
  }

  /** What a successful insert does to a store in a good state. */
  lemma InsertEffect(codec: Codec, world: World, t: Tables, r: Record)
    requires Trustworthy(codec, world) && Inv(codec, world, t) && Known(world, r)
    requires Insert(codec, t, r).Ok?
    ensures var s := Insert(codec, t, r).value;
            && Inv(codec, world, s.tables) && Extends(t, s.tables)
            && Holds(s.tables.versions, IdentityOfRecord(r), s.id)
            && s.tables.conflicts == t.conflicts && s.tables.nextConflict == t.nextConflict
            && (s.id in t.versions ==> s.tables.versions == t.versions && s.tables.nextVersion == t.nextVersion)
            && (s.id !in t.versions ==> forall k :: !Holds(t.versions, IdentityOfRecord(r), k))
            && (s.id !in t.versions && r.state.Present? ==>
                  r.bytes.Some? && RowFor(codec, s.tables.chunks, s.tables.versions[s.id], r.bytes.value))
  {
    hide Trustworthy, ChunksSound, RowFor, RowsSound, Consistent, Prepare;
    InsertKeepsConsistent(codec, t, r);
    PrepareEffect(codec, world, t.chunks, r);
    var p := Prepare(codec, t.chunks, r).value;
    var s := Insert(codec, t, r).value;
    RowsStaySound(codec, world, t.chunks, p.chunks, t.versions);
    IdsBelowNext(t);
    if s.id !in t.versions {
      NewRowSound(codec, world, p.chunks, t.versions, s.id, p.row, r);
    }
  }

  lemma IdsBelowNext(t: Tables)
    requires Consistent(t)
    ensures VersionId(t.nextVersion) !in t.versions
  {
  }

  lemma NewRowSound(codec: Codec, world: World, chunks: Chunks, versions: Rows, id: VersionId, row: VersionRow, r: Record)
    requires RowsSound(codec, world, chunks, versions) && id !in versions && Known(world, r)
    requires row.present ==> r.bytes.Some? && RowFor(codec, chunks, row, r.bytes.value)
    ensures RowsSound(codec, world, chunks, versions[id := row])
  {
    hide RowFor;
  }

  // ---- Runs ----

  datatype Op = RecordOne(record: Record) | RecordBatch(records: seq<Record>) | AddContent(bytes: Bytes)
              | NoteConflict(row: ConflictRow)

  ghost predicate KnownOp(world: World, op: Op) {
    match op
    case RecordOne(r) => Known(world, r)
    case RecordBatch(rs) => forall i :: 0 <= i < |rs| ==> Known(world, rs[i])
    case AddContent(b) => b in world.contents
    case NoteConflict(_) => true
  }

  /** A failing call changes nothing. */
  ghost function Next(codec: Codec, t: Tables, op: Op): Tables {
    match op
    case RecordOne(r) => (match Insert(codec, t, r) case Err(_) => t case Ok(s) => s.tables)
    case RecordBatch(rs) => (match InsertEach(codec, t, rs) case Err(_) => t case Ok(b) => b.tables)
    case AddContent(bytes) => (match StorePieces(codec, t.chunks, codec.cut(bytes)) case Err(_) => t case Ok(c) => t.(chunks := c))
    case NoteConflict(row) => if Points(t.versions, row) then AddConflict(t, row) else t
  }

  ghost function Run(codec: Codec, t: Tables, ops: seq<Op>): Tables {
    if ops == [] then t else Next(codec, Run(codec, t, ops[..|ops| - 1]), ops[|ops| - 1])
  }

  ghost predicate KnownOps(world: World, ops: seq<Op>) {
    forall i :: 0 <= i < |ops| ==> KnownOp(world, ops[i])
  }

  lemma ExtendsTransitive(a: Tables, b: Tables, c: Tables)
    requires Extends(a, b) && Extends(b, c)
    ensures Extends(a, c)
  {
  }

  lemma {:induction false} InsertEachEffect(codec: Codec, world: World, t: Tables, records: seq<Record>)
    requires Trustworthy(codec, world) && Inv(codec, world, t) && forall i :: 0 <= i < |records| ==> Known(world, records[i])
    requires InsertEach(codec, t, records).Ok?
    ensures var b := InsertEach(codec, t, records).value;
            && Inv(codec, world, b.tables) && Extends(t, b.tables) && |b.ids| == |records|
            && forall i :: 0 <= i < |records| ==> Holds(b.tables.versions, IdentityOfRecord(records[i]), b.ids[i])
  {
    hide Trustworthy, Inv, Insert, Known, IdentityOfRecord, Holds, Extends;
    if records == [] {
      ExtendsItself(t);
    } else {
      var front, last := records[..|records| - 1], records[|records| - 1];
      InsertEachEffect(codec, world, t, front);
      var before := InsertEach(codec, t, front).value;
      InsertEffect(codec, world, before.tables, last);
      var after := Insert(codec, before.tables, last).value.tables;
      ExtendsTransitive(t, before.tables, after);
      forall i | 0 <= i < |front|
        ensures Holds(after.versions, IdentityOfRecord(records[i]), before.ids[i])
      {
        HeldStays(before.tables, after, IdentityOfRecord(front[i]), before.ids[i]);
      }
    }
  }

  lemma StepKeepsInv(codec: Codec, world: World, t: Tables, op: Op)
    requires Trustworthy(codec, world) && Inv(codec, world, t) && KnownOp(world, op)
    ensures Inv(codec, world, Next(codec, t, op)) && Extends(t, Next(codec, t, op))
  {
    hide Insert, InsertEach, StorePieces, ChunksSound, RowsSound, Consistent, Known, Concat, Distinguishes, Lossless;
    match op
    case RecordOne(r) =>
      if Insert(codec, t, r).Ok? {
        InsertEffect(codec, world, t, r);
      }
    case RecordBatch(rs) =>
      if InsertEach(codec, t, rs).Ok? {
        InsertEachEffect(codec, world, t, rs);
      }
    case AddContent(bytes) =>
      if StorePieces(codec, t.chunks, codec.cut(bytes)).Ok? {
        StorePiecesEffect(codec, world, t.chunks, codec.cut(bytes));
        RowsStaySound(codec, world, t.chunks, StorePieces(codec, t.chunks, codec.cut(bytes)).value, t.versions);
        ChunksDoNotMatter(t, StorePieces(codec, t.chunks, codec.cut(bytes)).value);
      }
    case NoteConflict(row) =>
      if Points(t.versions, row) {
        AddingConflictKeepsConsistent(t, row);
      }
  }

  lemma ChunksDoNotMatter(t: Tables, chunks: Chunks)
    requires Consistent(t)
    ensures Consistent(t.(chunks := chunks))
  {
  }

  lemma {:induction false} RunKeepsInv(codec: Codec, world: World, t: Tables, ops: seq<Op>)
    requires Trustworthy(codec, world) && Inv(codec, world, t) && KnownOps(world, ops)
    ensures Inv(codec, world, Run(codec, t, ops)) && Extends(t, Run(codec, t, ops))
  {
    hide Trustworthy, Inv, Next, KnownOp, Extends;
    if ops == [] {
      ExtendsItself(t);
    } else {
      var front := ops[..|ops| - 1];
      RunKeepsInv(codec, world, t, front);
      StepKeepsInv(codec, world, Run(codec, t, front), ops[|ops| - 1]);
      ExtendsTransitive(t, Run(codec, t, front), Run(codec, t, ops));
    }
  }

  lemma ExtendsItself(t: Tables)
    ensures Extends(t, t)
  {
  }

  lemma EmptyInv(codec: Codec, world: World)
    ensures Inv(codec, world, EMPTY)
  {
  }

  ghost predicate Reachable(codec: Codec, world: World, ops: seq<Op>) {
    Trustworthy(codec, world) && KnownOps(world, ops)
  }

  // ---- The report is clean ----

  /** After any calls the integrity report is clean. */
  lemma AlwaysClean(codec: Codec, world: World, ops: seq<Op>)
    requires Reachable(codec, world, ops)
    ensures Clean(codec, Run(codec, EMPTY, ops))
  {
    hide Run, Trustworthy, Consistent, RowFor, KnownOps, RowIsSound, GetContent, Verified;
    EmptyInv(codec, world);
    RunKeepsInv(codec, world, EMPTY, ops);
    var t := Run(codec, EMPTY, ops);
    forall id | id in t.versions
      ensures RowIsSound(t.chunks, t.versions[id])
    {
      if t.versions[id].present {
        var b :| b in world.contents && RowFor(codec, t.chunks, t.versions[id], b);
        RowReadsBack(codec, world, t, id, b);
      } else {
        AbsentRowIsSound(t.chunks, t.versions[id]);
      }
    }
    forall key | key in t.chunks
      ensures Verified(codec, key, t.chunks[key]).Ok?
    {
      var p :| p in world.pieces && ChunkFor(codec, key, t.chunks[key], p);
      ChunkVerifies(codec, key, t.chunks[key], p);
    }
  }

  lemma AbsentRowIsSound(chunks: Chunks, row: VersionRow)
    requires !row.present
    ensures RowIsSound(chunks, row)
  {
  }

  lemma ChunkVerifies(codec: Codec, key: ContentHash, row: ChunkRow, p: Bytes)
    requires ChunkFor(codec, key, row, p)
    ensures Verified(codec, key, row) == Ok(p)
  {
  }

  // ---- Contents never change ----

  lemma ReadsForever(codec: Codec, world: World, t: Tables, t': Tables, id: VersionId, b: Bytes)
    requires Trustworthy(codec, world) && ChunksSound(codec, world, t'.chunks) && Extends(t, t')
    requires id in t.versions && t.versions[id].present && b in world.contents && RowFor(codec, t.chunks, t.versions[id], b)
    ensures GetContent(codec, t', id) == Ok(b)
  {
    hide ChunksSound, Trustworthy, GetContent;
    assert RowFor(codec, t'.chunks, t'.versions[id], b);
    RowReadsBack(codec, world, t', id, b);
  }

  lemma {:induction false} RunSplits(codec: Codec, t: Tables, a: seq<Op>, b: seq<Op>)
    ensures Run(codec, t, a + b) == Run(codec, Run(codec, t, a), b)
    decreases |b|
  {
    hide Next;
    if b == [] {
      assert a + b == a;
    } else {
      assert (a + b)[..|a + b| - 1] == a + b[..|b| - 1];
      RunSplits(codec, t, a, b[..|b| - 1]);
    }
  }

  /** Every present version is readable, and reads the same after any further calls. */
  lemma ContentIsForever(codec: Codec, world: World, ops: seq<Op>, more: seq<Op>, id: VersionId)
    requires Reachable(codec, world, ops) && KnownOps(world, more)
    requires id in Run(codec, EMPTY, ops).versions && Run(codec, EMPTY, ops).versions[id].present
    ensures GetContent(codec, Run(codec, EMPTY, ops), id).Ok?
    ensures GetContent(codec, Run(codec, EMPTY, ops + more), id) == GetContent(codec, Run(codec, EMPTY, ops), id)
  {
    hide Run, Trustworthy, Consistent, ChunksSound, RowFor, KnownOps, GetContent, Extends;
    EmptyInv(codec, world);
    RunKeepsInv(codec, world, EMPTY, ops);
    var t := Run(codec, EMPTY, ops);
    RunKeepsInv(codec, world, t, more);
    RunSplits(codec, EMPTY, ops, more);
    var b :| b in world.contents && RowFor(codec, t.chunks, t.versions[id], b);
    ExtendsItself(t);
    ReadsForever(codec, world, t, t, id, b);
    ReadsForever(codec, world, t, Run(codec, t, more), id, b);
  }

  /** The bytes first recorded for a version are what it reads back, after any further calls. */
  lemma FirstBytesReadBack(codec: Codec, world: World, ops: seq<Op>, r: Record, more: seq<Op>)
    requires Reachable(codec, world, ops) && Known(world, r) && KnownOps(world, more)
    requires var s := Insert(codec, Run(codec, EMPTY, ops), r);
             s.Ok? && s.value.id !in Run(codec, EMPTY, ops).versions && r.state.Present?
    ensures r.bytes.Some?
    ensures GetContent(codec, Run(codec, Insert(codec, Run(codec, EMPTY, ops), r).value.tables, more),
                       Insert(codec, Run(codec, EMPTY, ops), r).value.id) == Ok(r.bytes.value)
  {
    hide Run, Trustworthy, Consistent, ChunksSound, RowsSound, KnownOps, GetContent, Extends, Insert;
    EmptyInv(codec, world);
    RunKeepsInv(codec, world, EMPTY, ops);
    var t := Run(codec, EMPTY, ops);
    InsertEffect(codec, world, t, r);
    var s := Insert(codec, t, r).value;
    RunKeepsInv(codec, world, s.tables, more);
    PresentRow(s.tables, r, s.id);
    ReadsForever(codec, world, s.tables, Run(codec, s.tables, more), s.id, r.bytes.value);
  }

  lemma PresentRow(t: Tables, r: Record, id: VersionId)
    requires Holds(t.versions, IdentityOfRecord(r), id)
    ensures t.versions[id].present == r.state.Present?
  {
  }

  // ---- Recording again ----

  lemma RowOfHeld(t: Tables, identity: Identity, id: VersionId)
    requires Consistent(t) && Holds(t.versions, identity, id)
    ensures forall k :: Holds(t.versions, identity, k) ==> k == id
  {
  }

  /** An identity keeps its id: any later record with it gives the same id and leaves the rows as
      they are, whatever content it brings. */
  lemma IdentityKeepsItsId(codec: Codec, world: World, ops: seq<Op>, r: Record, more: seq<Op>, again: Record)
    requires Reachable(codec, world, ops) && Known(world, r) && KnownOps(world, more) && Known(world, again)
    requires IdentityOfRecord(again) == IdentityOfRecord(r)
    requires Insert(codec, Run(codec, EMPTY, ops), r).Ok?
    requires Insert(codec, Run(codec, Insert(codec, Run(codec, EMPTY, ops), r).value.tables, more), again).Ok?
    ensures var s := Insert(codec, Run(codec, EMPTY, ops), r).value;
            var later := Run(codec, s.tables, more);
            && Insert(codec, later, again).value.id == s.id
            && Insert(codec, later, again).value.tables.versions == later.versions
            && Insert(codec, later, again).value.tables.nextVersion == later.nextVersion
  {
    hide Run, Trustworthy, Consistent, ChunksSound, RowsSound, KnownOps, Insert, RowFor;
    EmptyInv(codec, world);
    RunKeepsInv(codec, world, EMPTY, ops);
    var t := Run(codec, EMPTY, ops);
    InsertEffect(codec, world, t, r);
    var s := Insert(codec, t, r).value;
    RunKeepsInv(codec, world, s.tables, more);
    var later := Run(codec, s.tables, more);
    InsertEffect(codec, world, later, again);
    assert Holds(later.versions, IdentityOfRecord(r), s.id);
    RowOfHeld(later, IdentityOfRecord(r), s.id);
    RowOfHeld(Insert(codec, later, again).value.tables, IdentityOfRecord(r), Insert(codec, later, again).value.id);
  }

  lemma HashIdentifies(codec: Codec, world: World, a: Bytes, b: Bytes)
    requires Trustworthy(codec, world) && a in world.contents && b in world.contents
    ensures codec.hash(a) == codec.hash(b) <==> a == b
  {
  }

  lemma RowHash(codec: Codec, chunks: Chunks, row: VersionRow, b: Bytes)
    requires RowFor(codec, chunks, row, b)
    ensures row.contentHash == Some(codec.hash(b))
  {
  }

  /** The exact condition: after a present record has been accepted, reading its id gives the bytes it
      brought if and only if the id is new, or its row already had the hash of those bytes. */
  lemma RecordReadsBackIff(codec: Codec, world: World, ops: seq<Op>, r: Record)
    requires Reachable(codec, world, ops) && Known(world, r) && r.state.Present?
    requires Insert(codec, Run(codec, EMPTY, ops), r).Ok?
    ensures r.bytes.Some?
    ensures var t := Run(codec, EMPTY, ops);
            var s := Insert(codec, t, r).value;
            GetContent(codec, s.tables, s.id) == Ok(r.bytes.value)
            <==> (s.id in t.versions ==> t.versions[s.id].contentHash == Some(codec.hash(r.bytes.value)))
  {
    hide Run, Trustworthy, Consistent, ChunksSound, KnownOps, GetContent, Insert, RowFor, Prepare;
    EmptyInv(codec, world);
    RunKeepsInv(codec, world, EMPTY, ops);
    var t := Run(codec, EMPTY, ops);
    AcceptedHasBytes(codec, t, r);
    InsertEffect(codec, world, t, r);
    var s := Insert(codec, t, r).value;
    PresentRow(s.tables, r, s.id);
    var b :| b in world.contents && RowFor(codec, s.tables.chunks, s.tables.versions[s.id], b);
    RowReadsBack(codec, world, s.tables, s.id, b);
    RowHash(codec, s.tables.chunks, s.tables.versions[s.id], b);
    HashIdentifies(codec, world, b, r.bytes.value);
    if s.id !in t.versions {
      RowHash(codec, s.tables.chunks, s.tables.versions[s.id], r.bytes.value);
    }
  }

  lemma AcceptedHasBytes(codec: Codec, t: Tables, r: Record)
    requires Insert(codec, t, r).Ok? && r.state.Present?
    ensures r.bytes.Some?
  {
    hide StorePieces;
  }

  /** A record of a content, correctly signed. */
  function Signed(codec: Codec, path: RelPath, clock: Clock, replica: ReplicaId, b: Bytes): Record {
    Record(path, Present(ContentSig(codec.hash(b), Len(b), false, 0)), clock, replica, true, 0, Some(b))
  }

  lemma SignedIsAccepted(codec: Codec, t: Tables, path: RelPath, clock: Clock, replica: ReplicaId, b: Bytes)
    requires StorePieces(codec, t.chunks, codec.cut(b)).Ok?
    ensures Insert(codec, t, Signed(codec, path, clock, replica, b)).Ok?
  {
    hide StorePieces, Hashes, InsertRow, Len;
  }

  /** Other content under a known identity is accepted and dropped: two correctly signed records of one
      path and clock with different bytes are both accepted and give one id, which reads back the first
      bytes and not the second. */
  lemma OtherContentIsDropped(codec: Codec, world: World, path: RelPath, clock: Clock, replica: ReplicaId, a: Bytes, b: Bytes)
    requires Trustworthy(codec, world) && a in world.contents && b in world.contents && a != b
    requires StorePieces(codec, map[], codec.cut(a)).Ok? && StorePieces(codec, map[], codec.cut(b)).Ok?
    ensures var first, second := Signed(codec, path, clock, replica, a), Signed(codec, path, clock, replica, b);
            && IdentityOfRecord(first) == IdentityOfRecord(second)
            && Insert(codec, EMPTY, first).Ok?
            && var s := Insert(codec, EMPTY, first).value;
            && Insert(codec, s.tables, second).Ok?
            && var s' := Insert(codec, s.tables, second).value;
            && s'.id == s.id
            && GetContent(codec, s'.tables, s'.id) == Ok(a) && Ok(a) != Ok(b)
  {
    hide Trustworthy, Consistent, ChunksSound, RowsSound, GetContent, Insert, RowFor, StorePieces, Extends;
    var first, second := Signed(codec, path, clock, replica, a), Signed(codec, path, clock, replica, b);
    EmptyInv(codec, world);
    SignedIsAccepted(codec, EMPTY, path, clock, replica, a);
    InsertEffect(codec, world, EMPTY, first);
    var s := Insert(codec, EMPTY, first).value;
    AcceptanceIsStateless(codec, map[], s.tables.chunks, codec.cut(b));
    SignedIsAccepted(codec, s.tables, path, clock, replica, b);
    InsertEffect(codec, world, s.tables, second);
    var s' := Insert(codec, s.tables, second).value;
    HeldStays(s.tables, s'.tables, IdentityOfRecord(first), s.id);
    RowOfHeld(s'.tables, IdentityOfRecord(first), s.id);
    PresentRow(s.tables, first, s.id);
    ReadsForever(codec, world, s.tables, s'.tables, s.id, a);
  }

  function LengthHash(x: Bytes): ContentHash {
    ContentHash(seq(32, i requires 0 <= i => if i < |x| then 1 else 0))
  }

  /** No compression, one piece, and a hash that tells the lengths below 32 apart. */
  function PlainCodec(): Codec {
    Codec((x: Bytes) => LengthHash(x), (x: Bytes) => Some(x), (z: Bytes) => Some(z), (x: Bytes) => [x])
  }

  lemma LengthHashSeparates(x: Bytes, y: Bytes)
    requires |x| < |y| <= 32
    ensures LengthHash(x) != LengthHash(y)
  {
    assert LengthHash(x).bytes[|x|] != LengthHash(y).bytes[|x|];
  }

  lemma OnePiece(x: Bytes)
    ensures Concat([x]) == x
    ensures StorePieces(PlainCodec(), map[], [x]).Ok?
  {
    var pieces: seq<Bytes> := [x];
    assert Concat(pieces[..0]) == [] && [] + x == x;
    assert StorePieces(PlainCodec(), map[], pieces[..0]) == Ok(map[]);
  }

  lemma PlainDistinguishes(a: Bytes, b: Bytes)
    requires |a| < |b| <= 32
    ensures Distinguishes(PlainCodec(), {a, b})
  {
    hide LengthHash;
    LengthHashSeparates(a, b);
  }

  lemma PlainIsLossless(texts: set<Bytes>)
    ensures Lossless(PlainCodec(), texts)
  {
  }

  lemma PlainTiles(texts: set<Bytes>)
    requires forall x :: x in texts ==> |x| <= 32
    ensures Tiles(PlainCodec(), World(texts, texts))
  {
    hide AllIn, Concat;
    forall x | x in texts
      ensures Concat([x]) == x && AllIn([x], texts)
    {
      OnePiece(x);
      SingleIn(x, texts);
    }
  }

  /** The assumptions can be met: by any two contents of different lengths up to 32, for example. */
  lemma PlainCodecIsTrustworthy(a: Bytes, b: Bytes)
    requires |a| < |b| <= 32
    ensures Trustworthy(PlainCodec(), World({a, b}, {a, b}))
    ensures StorePieces(PlainCodec(), map[], PlainCodec().cut(a)).Ok?
    ensures StorePieces(PlainCodec(), map[], PlainCodec().cut(b)).Ok?
  {
    hide StorePieces, Distinguishes, Lossless, Tiles;
    PlainDistinguishes(a, b);
    PlainIsLossless({a, b});
    PlainTiles({a, b});
    OnePiece(a);
    OnePiece(b);
  }

  lemma SingleIn(x: Bytes, texts: set<Bytes>)
    requires x in texts
    ensures AllIn([x], texts)
  {
  }

  /** Whether a record is accepted depends on the record alone. */
  lemma {:induction false} AcceptanceIsStateless(codec: Codec, a: Chunks, b: Chunks, pieces: seq<Bytes>)
    ensures StorePieces(codec, a, pieces).Ok? <==> StorePieces(codec, b, pieces).Ok?
    ensures StorePieces(codec, a, pieces).Err? ==> StorePieces(codec, a, pieces) == StorePieces(codec, b, pieces)
  {
    if pieces != [] {
      AcceptanceIsStateless(codec, a, b, pieces[..|pieces| - 1]);
    }
  }

  lemma PrepareIsStateless(codec: Codec, a: Chunks, b: Chunks, r: Record)
    ensures Prepare(codec, a, r).Ok? <==> Prepare(codec, b, r).Ok?
    ensures Prepare(codec, a, r).Ok? ==> Prepare(codec, a, r).value.row == Prepare(codec, b, r).value.row
  {
    hide StorePieces, Hashes;
    if r.bytes.Some? {
      AcceptanceIsStateless(codec, a, b, codec.cut(r.bytes.value));
    }
  }

  lemma PrepareAgain(codec: Codec, world: World, chunks: Chunks, r: Record)
    requires Trustworthy(codec, world) && ChunksSound(codec, world, chunks) && Known(world, r)
    requires Prepare(codec, chunks, r).Ok?
    requires r.state.Present? ==> AllStored(chunks, Hashes(codec, codec.cut(r.bytes.value)))
    ensures Prepare(codec, chunks, r).value.chunks == chunks
  {
    hide ChunksSound, Lossless, StorePieces, Hashes, Concat, Distinguishes;
    if r.state.Present? {
      StorePiecesEffect(codec, world, chunks, codec.cut(r.bytes.value));
    }
  }

  lemma ManifestStored(codec: Codec, world: World, chunks: Chunks, r: Record)
    requires Trustworthy(codec, world) && ChunksSound(codec, world, chunks) && Known(world, r)
    requires Prepare(codec, chunks, r).Ok? && r.state.Present?
    ensures r.bytes.Some? && AllStored(Prepare(codec, chunks, r).value.chunks, Hashes(codec, codec.cut(r.bytes.value)))
  {
    hide ChunksSound, Lossless, StorePieces, Hashes, Concat, Distinguishes;
    StorePiecesEffect(codec, world, chunks, codec.cut(r.bytes.value));
  }

  lemma StoredStays(a: Tables, b: Tables, manifest: Manifest)
    requires Extends(a, b) && AllStored(a.chunks, manifest)
    ensures AllStored(b.chunks, manifest)
  {
  }

  /** Replaying a record is a no-op: after any further calls it is accepted again, gives the same
      id, and changes no table at all. */
  lemma ReplayIsNoOp(codec: Codec, world: World, ops: seq<Op>, r: Record, more: seq<Op>)
    requires Reachable(codec, world, ops) && Known(world, r) && KnownOps(world, more)
    requires Insert(codec, Run(codec, EMPTY, ops), r).Ok?
    ensures var s := Insert(codec, Run(codec, EMPTY, ops), r).value;
            var later := Run(codec, s.tables, more);
            Insert(codec, later, r) == Ok(Stored(later, s.id))
  {
    hide Run, Trustworthy, ChunksSound, RowsSound, KnownOps, RowFor, Prepare, InsertRow, AllStored, Extends, Consistent;
    EmptyInv(codec, world);
    RunKeepsInv(codec, world, EMPTY, ops);
    var t := Run(codec, EMPTY, ops);
    InsertEffect(codec, world, t, r);
    var s := Insert(codec, t, r).value;
    RunKeepsInv(codec, world, s.tables, more);
    var later := Run(codec, s.tables, more);
    PrepareIsStateless(codec, t.chunks, later.chunks, r);
    if r.state.Present? {
      ManifestStored(codec, world, t.chunks, r);
      InsertChunks(codec, t, r);
      StoredStays(s.tables, later, Hashes(codec, codec.cut(r.bytes.value)));
    }
    PrepareAgain(codec, world, later.chunks, r);
    InsertEffect(codec, world, later, r);
    HeldStays(s.tables, later, IdentityOfRecord(r), s.id);
    RowOfHeld(later, IdentityOfRecord(r), s.id);
    PreparedIdentity(codec, later.chunks, r);
    HeldRowWins(later, Prepare(codec, later.chunks, r).value.row, s.id);
  }

  lemma InsertChunks(codec: Codec, t: Tables, r: Record)
    requires Insert(codec, t, r).Ok?
    ensures Insert(codec, t, r).value.tables.chunks == Prepare(codec, t.chunks, r).value.chunks
  {
  }

  lemma HeldStays(a: Tables, b: Tables, identity: Identity, id: VersionId)
    requires Extends(a, b) && Holds(a.versions, identity, id)
    ensures Holds(b.versions, identity, id)
  {
  }

  lemma PreparedIdentity(codec: Codec, chunks: Chunks, r: Record)
    requires Prepare(codec, chunks, r).Ok?
    ensures IdentityOf(Prepare(codec, chunks, r).value.row) == IdentityOfRecord(r)
  {
    hide StorePieces, Hashes;
  }

  lemma HeldRowWins(t: Tables, row: VersionRow, id: VersionId)
    requires Holds(t.versions, IdentityOf(row), id) && forall k :: Holds(t.versions, IdentityOf(row), k) ==> k == id
    ensures InsertRow(t, row) == Stored(t, id)
  {
  }

  /** Storing a content again writes nothing new, whatever happened in between. */
  lemma StoringAgainWritesNothing(codec: Codec, world: World, ops: seq<Op>, bytes: Bytes, more: seq<Op>)
    requires Reachable(codec, world, ops) && bytes in world.contents && KnownOps(world, more)
    requires StorePieces(codec, Run(codec, EMPTY, ops).chunks, codec.cut(bytes)).Ok?
    ensures var later := Run(codec, Next(codec, Run(codec, EMPTY, ops), AddContent(bytes)), more);
            && StorePieces(codec, later.chunks, codec.cut(bytes)) == Ok(later.chunks)
            && NewBytes(codec, later.chunks, codec.cut(bytes)) == 0
  {
    hide Run, ChunksSound, RowsSound, KnownOps, Consistent, StorePieces, NewBytes, Hashes, Concat, Distinguishes, Lossless;
    EmptyInv(codec, world);
    RunKeepsInv(codec, world, EMPTY, ops);
    var t := Run(codec, EMPTY, ops);
    StepKeepsInv(codec, world, t, AddContent(bytes));
    var t' := Next(codec, t, AddContent(bytes));
    StorePiecesEffect(codec, world, t.chunks, codec.cut(bytes));
    RunKeepsInv(codec, world, t', more);
    var later := Run(codec, t', more);
    AcceptanceIsStateless(codec, t.chunks, later.chunks, codec.cut(bytes));
    StoredStays(t', later, Hashes(codec, codec.cut(bytes)));
    StorePiecesEffect(codec, world, later.chunks, codec.cut(bytes));
  }

  // ---- A batch is its records one by one ----

  function Singles(records: seq<Record>): (ops: seq<Op>)
    ensures |ops| == |records|
  {
    seq(|records|, i requires 0 <= i < |records| => RecordOne(records[i]))
  }

  /** Every record is accepted when recorded on its own, in turn. */
  ghost predicate EachAccepted(codec: Codec, t: Tables, records: seq<Record>) {
    forall n :: 0 <= n < |records| ==> Insert(codec, Run(codec, t, Singles(records[..n])), records[n]).Ok?
  }

  /** A batch is accepted exactly when each record would be, and then it leaves the tables that the
      single records leave and gives the ids that they give. */
  lemma {:induction false} BatchIsSingles(codec: Codec, t: Tables, records: seq<Record>)
    ensures InsertEach(codec, t, records).Ok? <==> EachAccepted(codec, t, records)
    ensures InsertEach(codec, t, records).Ok? ==>
              var b := InsertEach(codec, t, records).value;
              && b.tables == Run(codec, t, Singles(records)) && |b.ids| == |records|
              && forall n :: 0 <= n < |records| ==>
                   b.ids[n] == Insert(codec, Run(codec, t, Singles(records[..n])), records[n]).value.id
  {
    hide Insert, Singles;
    if records == [] {
      assert Singles(records) == [];
    } else {
      var front, last := records[..|records| - 1], records[|records| - 1];
      BatchIsSingles(codec, t, front);
      assert forall n :: 0 <= n < |front| ==> front[..n] == records[..n];
      SinglesExtended(codec, t, records);
      assert EachAccepted(codec, t, records) <==> EachAccepted(codec, t, front) && Insert(codec, Run(codec, t, Singles(front)), last).Ok?;
    }
  }

  lemma SinglesExtended(codec: Codec, t: Tables, records: seq<Record>)
    requires records != []
    ensures Run(codec, t, Singles(records))
         == Next(codec, Run(codec, t, Singles(records[..|records| - 1])), RecordOne(records[|records| - 1]))
  {
    hide Next;
    assert Singles(records)[..|records| - 1] == Singles(records[..|records| - 1]);
  }

  // ---- The deduplication migration ----

  /** It keeps exactly the row of least id of each identity, unchanged, so that identities
      are unique afterwards. */
  lemma DedupKeepsLeast(t: Tables)
    requires References(t)
    ensures UniqueIdentities(Deduplicated(t).versions)
    ensures forall id :: id in Deduplicated(t).versions <==>
              id in t.versions && forall k :: k in t.versions && IdentityOf(t.versions[k]) == IdentityOf(t.versions[id]) ==> id.n <= k.n
    ensures forall id :: id in Deduplicated(t).versions ==> Deduplicated(t).versions[id] == t.versions[id]
    ensures forall id :: id in t.versions ==> exists k :: Holds(Deduplicated(t).versions, IdentityOf(t.versions[id]), k)
  {
    hide RepointedAll, LeastTwin;
    var kept := Deduplicated(t).versions;
    forall id | id in t.versions
      ensures id in kept <==> forall k :: k in t.versions && IdentityOf(t.versions[k]) == IdentityOf(t.versions[id]) ==> id.n <= k.n
      ensures exists k :: Holds(kept, IdentityOf(t.versions[id]), k)
    {
      var least := LeastTwin(t.versions, id);
      LeastIsItsOwnTwin(t.versions, id);
      assert Holds(kept, IdentityOf(t.versions[id]), least);
      if forall k :: k in t.versions && IdentityOf(t.versions[k]) == IdentityOf(t.versions[id]) ==> id.n <= k.n {
        LeastTwinIsUnique(t.versions, id, id);
      }
    }
    forall a, b | a in kept && b in kept && IdentityOf(kept[a]) == IdentityOf(kept[b])
      ensures a == b
    {
      assert IsLeastTwin(t.versions, a, a) && IsLeastTwin(t.versions, b, b);
    }
  }

  lemma LeastIsItsOwnTwin(versions: Rows, id: VersionId)
    requires id in versions
    ensures Survives(versions, LeastTwin(versions, id))
  {
    var least := LeastTwin(versions, id);
    LeastTwinIsUnique(versions, least, least);
  }

  lemma RepointedRow(versions: Rows, row: ConflictRow)
    requires Points(versions, row)
    ensures var kept, after := Survivors(versions), Repointed(versions, row);
            && Points(kept, after)
            && IdentityOf(kept[after.winner]) == IdentityOf(versions[row.winner])
            && IdentityOf(kept[after.loser]) == IdentityOf(versions[row.loser])
            && after == row.(winner := after.winner, loser := after.loser)
  {
    hide LeastTwin;
    LeastIsItsOwnTwin(versions, row.winner);
    LeastIsItsOwnTwin(versions, row.loser);
  }

  /** Every conflict stays, and points to surviving rows of the identities it pointed to. */
  lemma DedupRepointsConflicts(t: Tables, c: ConflictId)
    requires References(t) && c in t.conflicts
    ensures c in Deduplicated(t).conflicts
    ensures var before, after, kept := t.conflicts[c], Deduplicated(t).conflicts[c], Deduplicated(t).versions;
            && Points(kept, after)
            && IdentityOf(kept[after.winner]) == IdentityOf(t.versions[before.winner])
            && IdentityOf(kept[after.loser]) == IdentityOf(t.versions[before.loser])
            && after == before.(winner := after.winner, loser := after.loser)
  {
    hide Survivors, Repointed, Points;
    assert Points(t.versions, t.conflicts[c]);
    RepointedRow(t.versions, t.conflicts[c]);
    PointsTo(t.versions, t.conflicts[c]);
    PointsTo(Survivors(t.versions), Repointed(t.versions, t.conflicts[c]));
  }

  lemma PointsTo(versions: Rows, row: ConflictRow)
    requires Points(versions, row)
    ensures row.winner in versions && row.loser in versions
  {
  }

  lemma DedupKeepsReferences(t: Tables)
    requires References(t)
    ensures References(Deduplicated(t))
    ensures Deduplicated(t).conflicts.Keys == t.conflicts.Keys
  {
    hide Deduplicated;
    forall c | c in t.conflicts
      ensures c in Deduplicated(t).conflicts && Points(Deduplicated(t).versions, Deduplicated(t).conflicts[c])
    {
      DedupRepointsConflicts(t, c);
    }
    DedupKeysSame(t);
  }

  lemma DedupKeysSame(t: Tables)
    requires References(t)
    ensures Deduplicated(t).conflicts.Keys == t.conflicts.Keys
  {
  }

  /** On a store without duplicates it changes nothing: a second migration is a no-op. */
  lemma DedupIsIdempotent(t: Tables)
    requires References(t)
    ensures UniqueIdentities(t.versions) ==> Deduplicated(t) == t
    ensures References(Deduplicated(t)) && Deduplicated(Deduplicated(t)) == Deduplicated(t)
  {
    hide Deduplicated;
    if UniqueIdentities(t.versions) {
      NothingToDedup(t);
    }
    DedupKeepsLeast(t);
    DedupKeepsReferences(t);
    NothingToDedup(Deduplicated(t));
  }

  lemma OnlyTwin(versions: Rows, id: VersionId)
    requires UniqueIdentities(versions) && id in versions
    ensures LeastTwin(versions, id) == id
  {
    assert IsLeastTwin(versions, id, LeastTwin(versions, id));
  }

  lemma RepointedInPlace(versions: Rows, row: ConflictRow)
    requires UniqueIdentities(versions) && Points(versions, row)
    ensures Repointed(versions, row) == row
  {
    hide LeastTwin, UniqueIdentities;
    OnlyTwin(versions, row.winner);
    OnlyTwin(versions, row.loser);
  }

  lemma NothingToDedup(t: Tables)
    requires References(t) && UniqueIdentities(t.versions)
    ensures Deduplicated(t) == t
  {
    hide LeastTwin, UniqueIdentities, Repointed, Points;
    forall id | id in t.versions
      ensures LeastTwin(t.versions, id) == id
    {
      OnlyTwin(t.versions, id);
    }
    assert Survivors(t.versions) == t.versions;
    forall c | c in t.conflicts
      ensures Points(t.versions, t.conflicts[c]) && Repointed(t.versions, t.conflicts[c]) == t.conflicts[c]
    {
      RepointedInPlace(t.versions, t.conflicts[c]);
    }
    assert RepointedAll(t.versions, t.conflicts) == t.conflicts;
  }

  lemma SubsetOfRows(t: Tables, d: Tables)
    requires d.chunks == t.chunks && forall id :: id in d.versions ==> id in t.versions && d.versions[id] == t.versions[id]
    ensures forall codec :: Clean(codec, t) ==> Clean(codec, d)
    ensures forall codec, id :: id in d.versions ==> GetContent(codec, d, id) == GetContent(codec, t, id)
  {
    hide RowIsSound, Verified, Assemble;
  }

  /** The migrated store is consistent and as clean as it was, and every surviving version reads
      back as before. */
  lemma DedupKeepsStoreSound(codec: Codec, t: Tables, id: VersionId)
    requires References(t)
    requires (forall k :: k in t.versions ==> k.n < t.nextVersion) && forall c :: c in t.conflicts ==> c.n < t.nextConflict
    ensures Consistent(Deduplicated(t))
    ensures Clean(codec, t) ==> Clean(codec, Deduplicated(t))
    ensures id in Deduplicated(t).versions ==> GetContent(codec, Deduplicated(t), id) == GetContent(codec, t, id)
  {
    hide Clean, GetContent, Deduplicated, UniqueIdentities, References, Holds;
    DedupKeepsLeast(t);
    DedupKeepsReferences(t);
    DedupKeepsOther(t);
    SubsetOfRows(t, Deduplicated(t));
  }

  lemma DedupKeepsOther(t: Tables)
    requires References(t)
    ensures var d := Deduplicated(t); d.chunks == t.chunks && d.nextVersion == t.nextVersion && d.nextConflict == t.nextConflict
  {
  }
}
