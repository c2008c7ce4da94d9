/** The content-addressed history store, updated in place, proved equal to `HistorySpec`. */
module History {
  import opened Bytes
  import opened Options
  import opened Paths
  import opened Versions
  import opened HistorySpec

  datatype StoredContent = StoredContent(hash: ContentHash, manifest: Manifest, newBytes: U64)

  class HistoryStore {
    const codec: Codec
    var chunks: Chunks
    var versions: Rows
    var conflicts: Conflicts
    var nextVersion: nat
    var nextConflict: nat

    constructor (codec: Codec)
      ensures this.codec == codec && View() == EMPTY
    {
      this.codec := codec;
      chunks, versions, conflicts, nextVersion, nextConflict := map[], map[], map[], 1, 1;
    }

    ghost function View(): Tables
      reads this
    {
      Tables(chunks, versions, conflicts, nextVersion, nextConflict)
    }

    ghost predicate Valid()
      reads this
    {
      Consistent(View())
    }

    // ---- Recording ----

    /** One transaction: a failure rolls everything back, chunks included. */
    method RecordVersion(r: Record) returns (result: Result<VersionId>)
      requires Valid()
      modifies this
      ensures match Insert(codec, old(View()), r)
              case Err(e) => result == Err(e) && View() == old(View())
              case Ok(s) => result == Ok(s.id) && View() == s.tables
    {
      hide Insert;
      var saved := chunks;
      result := InsertVersion(r);
      if result.Err? {
        chunks := saved;
      }
    }

    /** One transaction for the whole batch. */
    method RecordVersions(records: seq<Record>) returns (result: Result<seq<VersionId>>)
      requires Valid()
      modifies this
      ensures match InsertEach(codec, old(View()), records)
              case Err(e) => result == Err(e) && View() == old(View())
              case Ok(b) => result == Ok(b.ids) && View() == b.tables
    {
      hide Insert, Consistent;
      var savedChunks, savedVersions, savedNext := chunks, versions, nextVersion;
      var ids: seq<VersionId> := [];
      for n := 0 to |records|
        invariant Valid()
        invariant InsertEach(codec, old(View()), records[..n]) == Ok(Batch(View(), ids))
        invariant conflicts == old(conflicts) && nextConflict == old(nextConflict)
      {
        assert records[..n + 1][..n] == records[..n];
        InsertKeepsConsistent(codec, View(), records[n]);
        IdentitiesAreUnique(View());
        var recorded := InsertVersion(records[n]);
        match recorded {
          case Err(e) =>
            InsertEachStops(codec, old(View()), records, n + 1);
            chunks, versions, nextVersion := savedChunks, savedVersions, savedNext;
            return Err(e);
          case Ok(id) =>
            ids := ids + [id];
        }
      }
      assert records[..|records|] == records;
      result := Ok(ids);
    }

    /** Inside a transaction: on a failure, chunks may already have been written. */
    method InsertVersion(r: Record) returns (result: Result<VersionId>)
      requires UniqueIdentities(versions)
      modifies this`chunks, this`versions, this`nextVersion
      ensures match Insert(codec, old(View()), r)
              case Err(e) => result == Err(e) && View() == old(View()).(chunks := chunks)
              case Ok(s) => result == Ok(s.id) && View() == s.tables
    {
      hide StorePieces, NewBytes, Hashes, InsertRow;
      var row := VersionRow(r.path, false, None, None, None, r.clock, r.replica, r.wallMs, r.isLocal, false);
      match r.state {
        case Present(sig) =>
          if r.bytes.None? {
            return Err(MissingContent(r.path));
          }
          var stored := StoreChunks(r.bytes.value);
          if stored.Err? {
            return Err(stored.error);
          }
          if stored.value.hash != sig.hash || Len(r.bytes.value) != sig.size {
            return Err(SigMismatch(r.path));
          }
          row := row.(present := true, contentHash := Some(stored.value.hash), size := Some(sig.size),
                      manifest := Some(stored.value.manifest), exec := sig.exec);
        case Tombstone =>
      }
      assert Prepare(codec, old(chunks), r) == Ok(Prepared(chunks, row));
      var id := AddRow(row);
      result := Ok(id);
    }

    method AddRow(row: VersionRow) returns (id: VersionId)
      requires UniqueIdentities(versions)
      modifies this`versions, this`nextVersion
      ensures Stored(View(), id) == InsertRow(old(View()), row)
    {
      var existing := FindRow(IdentityOf(row));
      if existing.Some? {
        assert Holds(versions, IdentityOf(row), existing.value);
        return existing.value;
      }
      assert !exists k :: Holds(versions, IdentityOf(row), k);
      id := VersionId(nextVersion);
      versions := versions[id := row];
      nextVersion := nextVersion + 1;
    }

    /** The row the unique index gives for an identity. */
    method FindRow(identity: Identity) returns (found: Option<VersionId>)
      ensures found.Some? ==> Holds(versions, identity, found.value)
      ensures found.None? ==> forall id :: !Holds(versions, identity, id)
    {
      var todo := versions.Keys;
      while todo != {}
        invariant todo <= versions.Keys
        invariant forall id :: id in versions.Keys - todo ==> IdentityOf(versions[id]) != identity
        decreases todo
      {
        var id :| id in todo;
        if IdentityOf(versions[id]) == identity {
          return Some(id);
        }
        todo := todo - {id};
      }
      found := None;
    }

    method StoreChunks(bytes: Bytes) returns (result: Result<StoredContent>)
      modifies this`chunks
      ensures match StorePieces(codec, old(chunks), codec.cut(bytes))
              case Err(e) => result == Err(e)
              case Ok(stored) =>
                && result == Ok(StoredContent(codec.hash(bytes), Hashes(codec, codec.cut(bytes)),
                                              NewBytes(codec, old(chunks), codec.cut(bytes))))
                && chunks == stored
    {
      var whole := codec.hash(bytes);
      var pieces := codec.cut(bytes);
      var manifest: Manifest := [];
      var newBytes: U64 := 0;
      for n := 0 to |pieces|
        invariant StorePieces(codec, old(chunks), pieces[..n]) == Ok(chunks)
        invariant newBytes == NewBytes(codec, old(chunks), pieces[..n])
        invariant manifest == Hashes(codec, pieces[..n])
      {
        assert pieces[..n + 1][..n] == pieces[..n];
        var key := codec.hash(pieces[n]);
        manifest := manifest + [key];
        match codec.compress(pieces[n]) {
          case None =>
            StorePiecesStops(codec, old(chunks), pieces, n + 1);
            return Err(Malformed);
          case Some(zdata) =>
            newBytes := if key in chunks then newBytes else SatAdd(newBytes, Len(pieces[n]));
            chunks := Ignoring(chunks, key, ChunkRow(Len(pieces[n]), zdata));
        }
      }
      assert pieces[..|pieces|] == pieces;
      result := Ok(StoredContent(whole, manifest, newBytes));
    }

    /** One transaction around the content alone; reports the bytes not stored before. */
    method StoreContent(bytes: Bytes) returns (result: Result<StoredContent>)
      modifies this`chunks
      ensures match StorePieces(codec, old(chunks), codec.cut(bytes))
              case Err(e) => result == Err(e) && chunks == old(chunks)
              case Ok(stored) =>
                && result.Ok? && result.value.hash == codec.hash(bytes)
                && result.value.newBytes == NewBytes(codec, old(chunks), codec.cut(bytes))
                && chunks == stored
    {
      hide StorePieces, NewBytes, Hashes;
      var saved := chunks;
      result := StoreChunks(bytes);
      if result.Err? {
        chunks := saved;
      }
    }

    /** Foreign keys are enforced: both versions must exist. */
    method RecordConflict(path: RelPath, winner: VersionId, loser: VersionId, wallMs: U64)
      returns (result: Result<ConflictId>)
      requires Valid()
      modifies this`conflicts, this`nextConflict
      ensures var row := ConflictRow(path, winner, loser, wallMs, false);
              if Points(versions, row) then
                && result.Ok? && result.value !in old(conflicts) && View() == AddConflict(old(View()), row) && Valid()
                && conflicts == old(conflicts)[result.value := ConflictRow(path, winner, loser, wallMs, false)]
              else result == Err(ForeignKey) && View() == old(View())
    {
      hide Consistent;
      var row := ConflictRow(path, winner, loser, wallMs, false);
      if winner !in versions || loser !in versions {
        return Err(ForeignKey);
      }
      AddingConflictKeepsConsistent(View(), row);
      var id := ConflictId(nextConflict);
      conflicts := conflicts[id := row];
      nextConflict := nextConflict + 1;
      result := Ok(id);
    }

    // ---- Reading back ----

    method DecompressAndVerify(key: ContentHash, row: ChunkRow) returns (result: Result<Bytes>)
      ensures result == Verified(codec, key, row)
    {
      match codec.decompress(row.zdata)
      case None =>
        result := Err(CorruptChunk);
      case Some(plain) =>
        if Len(plain) != row.size || codec.hash(plain) != key {
          return Err(CorruptChunk);
        }
        result := Ok(plain);
    }

    method Content(id: VersionId) returns (result: Result<Bytes>)
      ensures result == GetContent(codec, View(), id)
    {
      hide Verified;
      if id !in versions {
        return Err(NoSuchVersion(id));
      }
      var row := versions[id];
      if !row.present {
        return Err(NotPresent(id));
      }
      if row.contentHash.None? || row.manifest.None? {
        return Err(Malformed);
      }
      var manifest := row.manifest.value;
      var out: Bytes := [];
      for n := 0 to |manifest|
        invariant Assemble(codec, chunks, id, manifest[..n]) == Ok(out)
      {
        assert manifest[..n + 1][..n] == manifest[..n];
        var key := manifest[n];
        if key !in chunks {
          AssembleStops(codec, chunks, id, manifest, n + 1);
          return Err(MissingChunk(id));
        }
        var plain := DecompressAndVerify(key, chunks[key]);
        if plain.Err? {
          AssembleStops(codec, chunks, id, manifest, n + 1);
          return Err(plain.error);
        }
        out := out + plain.value;
      }
      assert manifest[..|manifest|] == manifest;
      if codec.hash(out) != row.contentHash.value {
        return Err(ContentMismatch(id));
      }
      result := Ok(out);
    }

    /** Count the problems instead of stopping at the first. */
    method Check() returns (issues: nat)
      ensures issues == 0 <==> Clean(codec, View())
    {
      hide Verified, SummedSize;
      issues := 0;
      var todo := versions.Keys;
      while todo != {}
        invariant todo <= versions.Keys
        invariant issues == 0 <==> forall id :: id in versions.Keys - todo ==> RowIsSound(chunks, versions[id])
        decreases todo
      {
        var id :| id in todo;
        var found := CheckRow(versions[id]);
        issues := issues + found;
        todo := todo - {id};
      }
      var keys := chunks.Keys;
      ghost var rows := issues;
      while keys != {}
        invariant keys <= chunks.Keys && rows <= issues
        invariant issues == rows <==> forall key :: key in chunks.Keys - keys ==> Verified(codec, key, chunks[key]).Ok?
        decreases keys
      {
        var key :| key in keys;
        var plain := DecompressAndVerify(key, chunks[key]);
        if plain.Err? {
          issues := issues + 1;
        }
        keys := keys - {key};
      }
    }

    method CheckRow(row: VersionRow) returns (issues: nat)
      ensures issues == 0 <==> RowIsSound(chunks, row)
    {
      issues := 0;
      if !row.present {
        return;
      }
      if row.manifest.None? {
        return 1;
      }
      var manifest := row.manifest.value;
      var summed: U64 := 0;
      for n := 0 to |manifest|
        invariant summed == SummedSize(chunks, manifest[..n])
        invariant issues == 0 <==> forall i :: 0 <= i < n ==> manifest[i] in chunks
      {
        assert manifest[..n + 1][..n] == manifest[..n];
        if manifest[n] !in chunks {
          issues := issues + 1;
        } else {
          var size := chunks[manifest[n]].size;
          summed := SatAdd(summed, size);
        }
      }
      assert manifest[..|manifest|] == manifest;
      if row.size.Some? && row.size.value != summed {
        issues := issues + 1;
      }
    }

    // ---- Deduplication ----

    method DedupVersions()
      requires References(View())
      modifies this`versions, this`conflicts
      ensures View() == Deduplicated(old(View()))
    {
      hide RepointedAll, Survivors;
      conflicts := RepointConflicts(versions, conflicts);
      versions := DeleteTwins(versions);
    }
  }

  /** `SELECT MIN(id)` over the rows with the identity of `id`. */
  method LeastId(versions: Rows, id: VersionId) returns (least: VersionId)
    requires id in versions
    ensures least == LeastTwin(versions, id)
  {
    least := id;
    var todo := versions.Keys;
    while todo != {}
      invariant todo <= versions.Keys && least in versions
      invariant IdentityOf(versions[least]) == IdentityOf(versions[id])
      invariant forall k :: k in versions.Keys - todo && IdentityOf(versions[k]) == IdentityOf(versions[id]) ==> least.n <= k.n
      decreases todo
    {
      var k :| k in todo;
      if IdentityOf(versions[k]) == IdentityOf(versions[id]) && k.n < least.n {
        least := k;
      }
      todo := todo - {k};
    }
    LeastTwinIsUnique(versions, id, least);
  }

  method RepointConflicts(versions: Rows, conflicts: Conflicts) returns (result: Conflicts)
    requires AllPoint(versions, conflicts)
    ensures result == RepointedAll(versions, conflicts)
  {
    hide LeastTwin, Repointed, Points;
    result := conflicts;
    var todo := conflicts.Keys;
    while todo != {}
      invariant todo <= conflicts.Keys && result.Keys == conflicts.Keys
      invariant forall c :: c in todo ==> result[c] == conflicts[c]
      invariant forall c :: c in conflicts.Keys - todo ==> result[c] == Repointed(versions, conflicts[c])
      decreases todo
    {
      var c :| c in todo;
      var row := RepointRow(versions, result[c]);
      result := result[c := row];
      todo := todo - {c};
    }
  }

  method RepointRow(versions: Rows, row: ConflictRow) returns (result: ConflictRow)
    requires Points(versions, row)
    ensures result == Repointed(versions, row)
  {
    hide LeastTwin;
    var winner := LeastId(versions, row.winner);
    var loser := LeastId(versions, row.loser);
    result := row.(winner := winner, loser := loser);
  }

  method DeleteTwins(versions: Rows) returns (kept: Rows)
    ensures kept == Survivors(versions)
  {
    hide LeastTwin;
    kept := map[];
    var ids := versions.Keys;
    while ids != {}
      invariant ids <= versions.Keys
      invariant forall id :: id in kept <==> id in versions.Keys - ids && Survives(versions, id)
      invariant forall id :: id in kept ==> kept[id] == versions[id]
      decreases ids
    {
      var id :| id in ids;
      var least := LeastId(versions, id);
      if least == id {
        kept := kept[id := versions[id]];
      }
      ids := ids - {id};
    }
  }

  // ---- What a failure does to the rest of a loop ----

  lemma {:induction false} StorePiecesStops(codec: Codec, chunks: Chunks, pieces: seq<Bytes>, n: nat)
    requires n <= |pieces| && StorePieces(codec, chunks, pieces[..n]).Err?
    ensures StorePieces(codec, chunks, pieces) == StorePieces(codec, chunks, pieces[..n])
    decreases |pieces|
  {
    if n == |pieces| {
      assert pieces[..n] == pieces;
    } else {
      assert pieces[..|pieces| - 1][..n] == pieces[..n];
      StorePiecesStops(codec, chunks, pieces[..|pieces| - 1], n);
    }
  }

  lemma {:induction false} AssembleStops(codec: Codec, chunks: Chunks, id: VersionId, manifest: Manifest, n: nat)
    requires n <= |manifest| && Assemble(codec, chunks, id, manifest[..n]).Err?
    ensures Assemble(codec, chunks, id, manifest) == Assemble(codec, chunks, id, manifest[..n])
    decreases |manifest|
  {
    hide Verified;
    if n == |manifest| {
      assert manifest[..n] == manifest;
    } else {
      assert manifest[..|manifest| - 1][..n] == manifest[..n];
      AssembleStops(codec, chunks, id, manifest[..|manifest| - 1], n);
    }
  }

  lemma {:induction false} InsertEachStops(codec: Codec, t: Tables, records: seq<Record>, n: nat)
    requires n <= |records| && InsertEach(codec, t, records[..n]).Err?
    ensures InsertEach(codec, t, records) == InsertEach(codec, t, records[..n])
    decreases |records|
  {
    hide Insert;
    if n == |records| {
      assert records[..n] == records;
    } else {
      assert records[..|records| - 1][..n] == records[..n];
      InsertEachStops(codec, t, records[..|records| - 1], n);
    }
  }

  lemma NewIdentityIsUnique(versions: Rows, id: VersionId, row: VersionRow)
    requires UniqueIdentities(versions) && forall k :: !Holds(versions, IdentityOf(row), k)
    ensures UniqueIdentities(versions[id := row])
  {
    assert forall k :: k in versions ==> Holds(versions, IdentityOf(versions[k]), k);
  }

  lemma InsertRowKeepsConsistent(t: Tables, row: VersionRow)
    requires Consistent(t)
    ensures Consistent(InsertRow(t, row).tables)
  {
    hide UniqueIdentities, IdentityOf;
    if !exists id :: Holds(t.versions, IdentityOf(row), id) {
      NewIdentityIsUnique(t.versions, VersionId(t.nextVersion), row);
    }
  }

  lemma IdentitiesAreUnique(t: Tables)
    requires Consistent(t)
    ensures UniqueIdentities(t.versions)
  {
  }

  lemma AddingConflictKeepsConsistent(t: Tables, row: ConflictRow)
    requires Consistent(t) && Points(t.versions, row)
    ensures ConflictId(t.nextConflict) !in t.conflicts
    ensures Consistent(AddConflict(t, row))
  {
    hide UniqueIdentities;
  }

  lemma InsertKeepsConsistent(codec: Codec, t: Tables, r: Record)
    requires Consistent(t)
    ensures Insert(codec, t, r).Ok? ==> Consistent(Insert(codec, t, r).value.tables)
  {
    hide Prepare, InsertRow, UniqueIdentities;
    var p := Prepare(codec, t.chunks, r);
    if p.Ok? {
      InsertRowKeepsConsistent(t.(chunks := p.value.chunks), p.value.row);
    }
  }
}
