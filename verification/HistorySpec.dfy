/** The history store on values: its tables as maps, and what each call does to them. The class in
    `History` is proved equal to it. */
module HistorySpec {
  import opened Bytes
  import opened Clocks
  import opened Options
  import opened Paths
  import opened Versions

  /** Hashing, compression and content-defined chunking, as far as the store sees them. */
  datatype Codec = Codec(hash: Bytes -> ContentHash, compress: Bytes -> Option<Bytes>,
                         decompress: Bytes -> Option<Bytes>, cut: Bytes -> seq<Bytes>)

  // ---- Tables ----

  datatype VersionId = VersionId(n: nat)
  datatype ConflictId = ConflictId(n: nat)

  datatype ChunkRow = ChunkRow(size: U64, zdata: Bytes)
  type Chunks = map<ContentHash, ChunkRow>
  type Manifest = seq<ContentHash>

  datatype VersionRow = VersionRow(path: RelPath, present: bool, contentHash: Option<ContentHash>, size: Option<U64>,
                                   manifest: Option<Manifest>, clock: Clock, replica: ReplicaId, wallMs: U64,
                                   isLocal: bool, exec: bool)
  type Rows = map<VersionId, VersionRow>

  datatype ConflictRow = ConflictRow(path: RelPath, winner: VersionId, loser: VersionId, wallMs: U64, resolved: bool)
  type Conflicts = map<ConflictId, ConflictRow>

  datatype Tables = Tables(chunks: Chunks, versions: Rows, conflicts: Conflicts, nextVersion: nat, nextConflict: nat)

  const EMPTY: Tables := Tables(map[], map[], map[], 1, 1)

  /** The unique index `(path, state, clock)`: the state column only tells present from deleted. */
  datatype Identity = Identity(path: RelPath, present: bool, clock: Clock)

  function IdentityOf(row: VersionRow): Identity {
    Identity(row.path, row.present, row.clock)
  }

  ghost predicate Holds(versions: Rows, identity: Identity, id: VersionId) {
    id in versions && IdentityOf(versions[id]) == identity
  }

  ghost predicate UniqueIdentities(versions: Rows) {
    forall a, b :: a in versions && b in versions && IdentityOf(versions[a]) == IdentityOf(versions[b]) ==> a == b
  }

  /** What the schema enforces: the unique index, ids below the next one, and foreign keys. */
  ghost predicate Consistent(t: Tables) {
    && UniqueIdentities(t.versions)
    && (forall id :: id in t.versions ==> id.n < t.nextVersion)
    && (forall c :: c in t.conflicts ==> c.n < t.nextConflict)
    && References(t)
  }

  predicate Points(versions: Rows, row: ConflictRow) {
    row.winner in versions && row.loser in versions
  }

  ghost predicate AllPoint(versions: Rows, conflicts: Conflicts) {
    forall c :: c in conflicts ==> Points(versions, conflicts[c])
  }

  ghost predicate References(t: Tables) {
    AllPoint(t.versions, t.conflicts)
  }

  /** A conflict row between two existing versions. */
  function AddConflict(t: Tables, row: ConflictRow): Tables {
    t.(conflicts := t.conflicts[ConflictId(t.nextConflict) := row], nextConflict := t.nextConflict + 1)
  }

  // ---- Recording ----

  datatype Record = Record(path: RelPath, state: EntryState, clock: Clock, replica: ReplicaId, isLocal: bool,
                           wallMs: U64, bytes: Option<Bytes>)

  datatype HistoryError = MissingContent(missing: RelPath) | SigMismatch(mismatched: RelPath) | Malformed
                        | NoSuchVersion(id: VersionId) | NotPresent(id: VersionId) | MissingChunk(id: VersionId)
                        | CorruptChunk | ContentMismatch(id: VersionId) | ForeignKey
  datatype Result<+T> = Ok(value: T) | Err(error: HistoryError)

  /** A length as the store's integers hold it. */
  function Len(s: Bytes): U64 {
    if |s| > U64_MAX then U64_MAX else |s|
  }

  function Hashes(codec: Codec, pieces: seq<Bytes>): (r: Manifest)
    ensures |r| == |pieces|
  {
    seq(|pieces|, i requires 0 <= i < |pieces| => codec.hash(pieces[i]))
  }

  /** `INSERT OR IGNORE` of each piece, compressed, under its hash. */
  ghost function StorePieces(codec: Codec, chunks: Chunks, pieces: seq<Bytes>): Result<Chunks> {
    if pieces == [] then Ok(chunks)
    else
      var piece := pieces[|pieces| - 1];
      match StorePieces(codec, chunks, pieces[..|pieces| - 1])
      case Err(e) => Err(e)
      case Ok(stored) =>
        match codec.compress(piece)
        case None => Err(Malformed)
        case Some(zdata) => Ok(Ignoring(stored, codec.hash(piece), ChunkRow(Len(piece), zdata)))
  }

  /** The uncompressed bytes of the pieces that are not stored yet. */
  ghost function NewBytes(codec: Codec, chunks: Chunks, pieces: seq<Bytes>): U64
    requires StorePieces(codec, chunks, pieces).Ok?
  {
    if pieces == [] then 0
    else
      var front, last := pieces[..|pieces| - 1], pieces[|pieces| - 1];
      var sum := NewBytes(codec, chunks, front);
      if codec.hash(last) in StorePieces(codec, chunks, front).value then sum else SatAdd(sum, Len(last))
  }

  function Ignoring(chunks: Chunks, key: ContentHash, row: ChunkRow): Chunks {
    if key in chunks then chunks else chunks[key := row]
  }

  /** The chunk table and the row to insert for a record. */
  datatype Prepared = Prepared(chunks: Chunks, row: VersionRow)

  ghost function Prepare(codec: Codec, chunks: Chunks, r: Record): Result<Prepared> {
    match r.state
    case Tombstone =>
      Ok(Prepared(chunks, VersionRow(r.path, false, None, None, None, r.clock, r.replica, r.wallMs, r.isLocal, false)))
    case Present(sig) =>
      if r.bytes.None? then Err(MissingContent(r.path))
      else
        match StorePieces(codec, chunks, codec.cut(r.bytes.value))
        case Err(e) => Err(e)
        case Ok(stored) =>
          var hash := codec.hash(r.bytes.value);
          if hash != sig.hash || Len(r.bytes.value) != sig.size then Err(SigMismatch(r.path))
          else
            var manifest := Hashes(codec, codec.cut(r.bytes.value));
            Ok(Prepared(stored, VersionRow(r.path, true, Some(hash), Some(sig.size), Some(manifest), r.clock,
                                           r.replica, r.wallMs, r.isLocal, sig.exec)))
  }

  datatype Stored = Stored(tables: Tables, id: VersionId)

  /** The row with an identity, which the unique index makes the only one. */
  ghost function RowOf(versions: Rows, identity: Identity): (id: VersionId)
    requires exists id :: Holds(versions, identity, id)
    ensures Holds(versions, identity, id)
  {
    var id :| Holds(versions, identity, id);
    id
  }

  /** `INSERT OR IGNORE` of the row; an existing identity keeps its row and gives its id. */
  ghost function InsertRow(t: Tables, row: VersionRow): Stored {
    if exists id :: Holds(t.versions, IdentityOf(row), id) then Stored(t, RowOf(t.versions, IdentityOf(row)))
    else Stored(t.(versions := t.versions[VersionId(t.nextVersion) := row], nextVersion := t.nextVersion + 1),
                VersionId(t.nextVersion))
  }

  /** One insert inside a transaction. */
  ghost function Insert(codec: Codec, t: Tables, r: Record): Result<Stored> {
    match Prepare(codec, t.chunks, r)
    case Err(e) => Err(e)
    case Ok(p) => Ok(InsertRow(t.(chunks := p.chunks), p.row))
  }

  datatype Batch = Batch(tables: Tables, ids: seq<VersionId>)

  /** The inserts of a batch, one after another inside one transaction. */
  ghost function InsertEach(codec: Codec, t: Tables, records: seq<Record>): Result<Batch> {
    if records == [] then Ok(Batch(t, []))
    else
      match InsertEach(codec, t, records[..|records| - 1])
      case Err(e) => Err(e)
      case Ok(b) =>
        match Insert(codec, b.tables, records[|records| - 1])
        case Err(e) => Err(e)
        case Ok(s) => Ok(Batch(s.tables, b.ids + [s.id]))
  }

  // ---- Reading back ----

  /** The plain bytes of a chunk row, if size and hash agree with it. */
  ghost function Verified(codec: Codec, key: ContentHash, row: ChunkRow): Result<Bytes> {
    match codec.decompress(row.zdata)
    case None => Err(CorruptChunk)
    case Some(plain) => if Len(plain) != row.size || codec.hash(plain) != key then Err(CorruptChunk) else Ok(plain)
  }

  ghost function Assemble(codec: Codec, chunks: Chunks, id: VersionId, manifest: Manifest): Result<Bytes> {
    if manifest == [] then Ok([])
    else
      var key := manifest[|manifest| - 1];
      match Assemble(codec, chunks, id, manifest[..|manifest| - 1])
      case Err(e) => Err(e)
      case Ok(front) =>
        if key !in chunks then Err(MissingChunk(id))
        else
          match Verified(codec, key, chunks[key])
          case Err(e) => Err(e)
          case Ok(plain) => Ok(front + plain)
  }

  ghost function GetContent(codec: Codec, t: Tables, id: VersionId): Result<Bytes> {
    if id !in t.versions then Err(NoSuchVersion(id))
    else
      var row := t.versions[id];
      if !row.present then Err(NotPresent(id))
      else if row.contentHash.None? || row.manifest.None? then Err(Malformed)
      else
        match Assemble(codec, t.chunks, id, row.manifest.value)
        case Err(e) => Err(e)
        case Ok(content) => if codec.hash(content) != row.contentHash.value then Err(ContentMismatch(id)) else Ok(content)
  }

  /** The chunk sizes of a manifest, summed with saturation; missing chunks count nothing. */
  ghost function SummedSize(chunks: Chunks, manifest: Manifest): U64 {
    if manifest == [] then 0
    else
      var key := manifest[|manifest| - 1];
      var front := SummedSize(chunks, manifest[..|manifest| - 1]);
      if key !in chunks then front else SatAdd(front, chunks[key].size)
  }

  ghost predicate RowIsSound(chunks: Chunks, row: VersionRow) {
    row.present ==>
      && row.manifest.Some?
      && (forall key :: key in row.manifest.value ==> key in chunks)
      && (row.size.Some? ==> row.size.value == SummedSize(chunks, row.manifest.value))
  }

  /** What a clean integrity report means. */
  ghost predicate Clean(codec: Codec, t: Tables) {
    && (forall id :: id in t.versions ==> RowIsSound(t.chunks, t.versions[id]))
    && (forall key :: key in t.chunks ==> Verified(codec, key, t.chunks[key]).Ok?)
  }

  // ---- Deduplication ----

  /** The row of least id with the same identity. */
  ghost predicate IsLeastTwin(versions: Rows, id: VersionId, least: VersionId) {
    && id in versions && least in versions
    && IdentityOf(versions[least]) == IdentityOf(versions[id])
    && forall k :: k in versions && IdentityOf(versions[k]) == IdentityOf(versions[id]) ==> least.n <= k.n
  }

  lemma {:induction false} LeastTwinExists(versions: Rows, id: VersionId, bound: VersionId) returns (least: VersionId)
    requires id in versions && Holds(versions, IdentityOf(versions[id]), bound)
    ensures IsLeastTwin(versions, id, least)
    decreases bound.n
  {
    least := bound;
    if k :| k in versions && IdentityOf(versions[k]) == IdentityOf(versions[id]) && k.n < bound.n {
      least := LeastTwinExists(versions, id, k);
    }
  }

  ghost function LeastTwin(versions: Rows, id: VersionId): (least: VersionId)
    requires id in versions
    ensures IsLeastTwin(versions, id, least)
  {
    assert exists least :: IsLeastTwin(versions, id, least) by {
      var least := LeastTwinExists(versions, id, id);
    }
    var least :| IsLeastTwin(versions, id, least);
    least
  }

  lemma LeastTwinIsUnique(versions: Rows, id: VersionId, least: VersionId)
    requires IsLeastTwin(versions, id, least)
    ensures LeastTwin(versions, id) == least
  {
  }

  ghost function Repointed(versions: Rows, c: ConflictRow): ConflictRow
    requires Points(versions, c)
  {
    c.(winner := LeastTwin(versions, c.winner), loser := LeastTwin(versions, c.loser))
  }

  ghost function RepointedAll(versions: Rows, conflicts: Conflicts): Conflicts
    requires AllPoint(versions, conflicts)
  {
    map c | c in conflicts :: Repointed(versions, conflicts[c])
  }

  ghost predicate Survives(versions: Rows, id: VersionId) {
    id in versions && LeastTwin(versions, id) == id
  }

  ghost function Survivors(versions: Rows): Rows {
    map id | id in versions && Survives(versions, id) :: versions[id]
  }

  /** Repoint every conflict to the least row of each identity, then delete the other rows. */
  ghost function Deduplicated(t: Tables): Tables
    requires References(t)
  {
    t.(conflicts := RepointedAll(t.versions, t.conflicts), versions := Survivors(t.versions))
  }
}
