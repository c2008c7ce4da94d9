/** What the store reads and reports over any tables at all, corrupt ones included, and which records it
    accepts. */
module HistoryReads {
  import opened Bytes
  import opened Options
  import opened Versions
  import opened HistorySpec
  import opened History
  import opened HistoryRuns

  // ---- Chunks and manifests ----

  /** The row of `key` holds `p`: it decompresses to it, with its size and under its hash. */
  ghost predicate HoldsPiece(codec: Codec, chunks: Chunks, key: ContentHash, p: Bytes) {
    && key in chunks && codec.decompress(chunks[key].zdata) == Some(p)
    && chunks[key].size == Len(p) && codec.hash(p) == key
  }

  /** The chunks of a manifest hold these pieces. */
  ghost predicate HoldsPieces(codec: Codec, chunks: Chunks, manifest: Manifest, pieces: seq<Bytes>) {
    |pieces| == |manifest| && forall i :: 0 <= i < |manifest| ==> HoldsPiece(codec, chunks, manifest[i], pieces[i])
  }

  lemma VerifiedIff(codec: Codec, chunks: Chunks, key: ContentHash, p: Bytes)
    ensures key in chunks ==> (Verified(codec, key, chunks[key]) == Ok(p) <==> HoldsPiece(codec, chunks, key, p))
  {
  }

  lemma HoldsPiecesExtended(codec: Codec, chunks: Chunks, front: Manifest, key: ContentHash, pieces: seq<Bytes>, p: Bytes)
    requires |pieces| == |front|
    ensures HoldsPieces(codec, chunks, front + [key], pieces + [p])
            <==> HoldsPieces(codec, chunks, front, pieces) && HoldsPiece(codec, chunks, key, p)
  {
    hide HoldsPiece;
    var manifest, all := front + [key], pieces + [p];
    assert forall i :: 0 <= i < |front| ==> manifest[i] == front[i] && all[i] == pieces[i];
    assert manifest[|front|] == key && all[|front|] == p;
  }

  lemma ConcatExtended(pieces: seq<Bytes>, p: Bytes)
    ensures Concat(pieces + [p]) == Concat(pieces) + p
  {
    assert (pieces + [p])[..|pieces|] == pieces;
  }

  lemma {:induction false} AssembledPieces(codec: Codec, chunks: Chunks, id: VersionId, manifest: Manifest) returns (pieces: seq<Bytes>)
    requires Assemble(codec, chunks, id, manifest).Ok?
    ensures HoldsPieces(codec, chunks, manifest, pieces) && Assemble(codec, chunks, id, manifest) == Ok(Concat(pieces))
  {
    hide Verified, HoldsPiece;
    if manifest == [] {
      pieces := [];
    } else {
      var front, key := manifest[..|manifest| - 1], manifest[|manifest| - 1];
      var before := AssembledPieces(codec, chunks, id, front);
      var p := Verified(codec, key, chunks[key]).value;
      VerifiedIff(codec, chunks, key, p);
      HoldsPiecesExtended(codec, chunks, front, key, before, p);
      ConcatExtended(before, p);
      assert manifest == front + [key];
      pieces := before + [p];
    }
  }

  lemma {:induction false} PiecesAssemble(codec: Codec, chunks: Chunks, id: VersionId, manifest: Manifest, pieces: seq<Bytes>)
    requires HoldsPieces(codec, chunks, manifest, pieces)
    ensures Assemble(codec, chunks, id, manifest) == Ok(Concat(pieces))
    ensures SummedSize(chunks, manifest) == Len(Concat(pieces))
    ensures forall key :: key in manifest ==> key in chunks
  {
    hide Verified, HoldsPiece;
    if manifest != [] {
      var front, key := manifest[..|manifest| - 1], manifest[|manifest| - 1];
      var before, p := pieces[..|pieces| - 1], pieces[|pieces| - 1];
      assert manifest == front + [key] && pieces == before + [p];
      HoldsPiecesExtended(codec, chunks, front, key, before, p);
      PiecesAssemble(codec, chunks, id, front, before);
      VerifiedIff(codec, chunks, key, p);
      PieceSize(codec, chunks, key, p);
    }
  }

  lemma PieceSize(codec: Codec, chunks: Chunks, key: ContentHash, p: Bytes)
    requires HoldsPiece(codec, chunks, key, p)
    ensures key in chunks && chunks[key].size == Len(p)
  {
  }

  // ---- Reading ----

  /** When a version reads, over any tables: it is present, its chunks hold pieces that join to the bytes,
      and the bytes have the recorded hash. */
  lemma ReadsIff(codec: Codec, t: Tables, id: VersionId, b: Bytes)
    ensures GetContent(codec, t, id) == Ok(b) <==>
              && id in t.versions && t.versions[id].present && t.versions[id].manifest.Some?
              && t.versions[id].contentHash == Some(codec.hash(b))
              && exists pieces :: HoldsPieces(codec, t.chunks, t.versions[id].manifest.value, pieces) && Concat(pieces) == b
    ensures id !in t.versions ==> GetContent(codec, t, id) == Err(NoSuchVersion(id))
    ensures id in t.versions && !t.versions[id].present ==> GetContent(codec, t, id) == Err(NotPresent(id))
  {
    hide Assemble, HoldsPieces, Concat;
    if id in t.versions && t.versions[id].manifest.Some? {
      var manifest := t.versions[id].manifest.value;
      if Assemble(codec, t.chunks, id, manifest).Ok? {
        var pieces := AssembledPieces(codec, t.chunks, id, manifest);
      }
      if pieces :| HoldsPieces(codec, t.chunks, manifest, pieces) && Concat(pieces) == b {
        PiecesAssemble(codec, t.chunks, id, manifest, pieces);
      }
    }
  }

  /** Never silently wrong bytes: whatever has happened to the tables, what a version reads back has the
      hash recorded for it, so among contents that hashes tell apart it is the recorded one. */
  lemma NeverWrongBytes(codec: Codec, t: Tables, id: VersionId, recorded: Bytes, b: Bytes, texts: set<Bytes>)
    requires GetContent(codec, t, id) == Ok(b)
    requires id in t.versions && t.versions[id].contentHash == Some(codec.hash(recorded))
    requires Distinguishes(codec, texts) && recorded in texts && b in texts
    ensures b == recorded
  {
    hide GetContent, HoldsPieces, Concat;
    ReadsIff(codec, t, id, b);
  }

  // ---- The report ----

  /** What a clean report means, over any tables: every chunk row holds its piece, and the chunks of every
      present version hold pieces that join to the recorded size. */
  lemma CleanIff(codec: Codec, t: Tables)
    ensures Clean(codec, t) <==>
              && (forall key :: key in t.chunks ==> exists p :: HoldsPiece(codec, t.chunks, key, p))
              && (forall id :: id in t.versions && t.versions[id].present ==> Complete(codec, t.chunks, t.versions[id]))
  {
    hide HoldsPiece, Verified, RowIsSound, Complete;
    forall key | key in t.chunks
      ensures Verified(codec, key, t.chunks[key]).Ok? <==> exists p :: HoldsPiece(codec, t.chunks, key, p)
    {
      ChunkHolds(codec, t.chunks, key);
    }
    if forall key :: key in t.chunks ==> exists p :: HoldsPiece(codec, t.chunks, key, p) {
      forall id | id in t.versions
        ensures RowIsSound(t.chunks, t.versions[id]) <==> !t.versions[id].present || Complete(codec, t.chunks, t.versions[id])
      {
        SoundIffComplete(codec, t.chunks, id, t.versions[id]);
      }
    }
  }

  ghost predicate Complete(codec: Codec, chunks: Chunks, row: VersionRow) {
    row.manifest.Some?
    && exists pieces :: HoldsPieces(codec, chunks, row.manifest.value, pieces)
                        && (row.size.Some? ==> row.size.value == Len(Concat(pieces)))
  }

  lemma ChunkHolds(codec: Codec, chunks: Chunks, key: ContentHash)
    requires key in chunks
    ensures Verified(codec, key, chunks[key]).Ok? <==> exists p :: HoldsPiece(codec, chunks, key, p)
  {
    hide HoldsPiece;
    if Verified(codec, key, chunks[key]).Ok? {
      VerifiedIff(codec, chunks, key, Verified(codec, key, chunks[key]).value);
    }
    if p :| HoldsPiece(codec, chunks, key, p) {
      VerifiedIff(codec, chunks, key, p);
    }
  }

  lemma {:induction false} PiecesExist(codec: Codec, chunks: Chunks, manifest: Manifest) returns (pieces: seq<Bytes>)
    requires forall key :: key in manifest ==> exists p :: HoldsPiece(codec, chunks, key, p)
    ensures HoldsPieces(codec, chunks, manifest, pieces)
  {
    hide HoldsPiece;
    if manifest == [] {
      pieces := [];
    } else {
      var front, key := manifest[..|manifest| - 1], manifest[|manifest| - 1];
      assert manifest == front + [key];
      assert key in manifest && forall k :: k in front ==> k in manifest;
      var before := PiecesExist(codec, chunks, front);
      var p :| HoldsPiece(codec, chunks, key, p);
      HoldsPiecesExtended(codec, chunks, front, key, before, p);
      pieces := before + [p];
    }
  }

  lemma SoundIffComplete(codec: Codec, chunks: Chunks, id: VersionId, row: VersionRow)
    requires forall key :: key in chunks ==> exists p :: HoldsPiece(codec, chunks, key, p)
    ensures RowIsSound(chunks, row) <==> !row.present || Complete(codec, chunks, row)
  {
    hide HoldsPiece, HoldsPieces, SummedSize, Concat;
    if row.present && row.manifest.Some? {
      var manifest := row.manifest.value;
      if forall key :: key in manifest ==> key in chunks {
        var pieces := PiecesExist(codec, chunks, manifest);
        PiecesAssemble(codec, chunks, id, manifest, pieces);
      }
      if pieces :| HoldsPieces(codec, chunks, manifest, pieces) && (row.size.Some? ==> row.size.value == Len(Concat(pieces))) {
        PiecesAssemble(codec, chunks, id, manifest, pieces);
      }
    }
  }

  /** So after a clean report a present version reads, unless its row's content hash is missing or is not
      that of its assembled bytes: the one thing the report does not check. */
  lemma CleanReadsUnlessMishashed(codec: Codec, t: Tables, id: VersionId) returns (b: Bytes)
    requires Clean(codec, t) && id in t.versions && t.versions[id].present
    ensures GetContent(codec, t, id).Ok? <==> t.versions[id].contentHash == Some(codec.hash(b))
    ensures GetContent(codec, t, id).Ok? ==> GetContent(codec, t, id) == Ok(b)
    ensures t.versions[id].size.Some? ==> t.versions[id].size.value == Len(b)
  {
    hide Clean, HoldsPiece, HoldsPieces, Assemble, Concat;
    CleanIff(codec, t);
    assert Complete(codec, t.chunks, t.versions[id]);
    var manifest := t.versions[id].manifest.value;
    var pieces :| HoldsPieces(codec, t.chunks, manifest, pieces)
                  && (t.versions[id].size.Some? ==> t.versions[id].size.value == Len(Concat(pieces)));
    PiecesAssemble(codec, t.chunks, id, manifest, pieces);
    b := Concat(pieces);
  }

  // ---- Accepting ----

  ghost predicate AllCompress(codec: Codec, pieces: seq<Bytes>) {
    forall i :: 0 <= i < |pieces| ==> codec.compress(pieces[i]).Some?
  }

  lemma {:induction false} StoresIff(codec: Codec, chunks: Chunks, pieces: seq<Bytes>)
    ensures StorePieces(codec, chunks, pieces) == Err(Malformed) <==> !AllCompress(codec, pieces)
    ensures StorePieces(codec, chunks, pieces).Ok? <==> AllCompress(codec, pieces)
  {
    if pieces != [] {
      var front, last := pieces[..|pieces| - 1], pieces[|pieces| - 1];
      StoresIff(codec, chunks, front);
      assert pieces == front + [last];
      assert forall i :: 0 <= i < |front| ==> pieces[i] == front[i];
      assert AllCompress(codec, pieces) <==> AllCompress(codec, front) && codec.compress(last).Some? by {
        assert AllCompress(codec, pieces) ==> codec.compress(pieces[|pieces| - 1]).Some?;
      }
    }
  }

  /** Which records are accepted, and why others are not: a tombstone always is; a present version needs
      its bytes, each piece must compress, and hash and size must be the declared ones. */
  lemma AcceptedIff(codec: Codec, t: Tables, r: Record)
    ensures match r.state
            case Tombstone => Insert(codec, t, r).Ok?
            case Present(sig) =>
              if r.bytes.None? then Insert(codec, t, r) == Err(MissingContent(r.path))
              else if !AllCompress(codec, codec.cut(r.bytes.value)) then Insert(codec, t, r) == Err(Malformed)
              else if codec.hash(r.bytes.value) != sig.hash || Len(r.bytes.value) != sig.size then
                Insert(codec, t, r) == Err(SigMismatch(r.path))
              else Insert(codec, t, r).Ok?
  {
    hide StorePieces, AllCompress, Hashes, InsertRow;
    if r.bytes.Some? {
      StoresIff(codec, t.chunks, codec.cut(r.bytes.value));
    }
  }

  /** The row of a new version, column by column, under an id above every earlier one. */
  lemma NewRowIs(codec: Codec, t: Tables, r: Record)
    requires Consistent(t) && Insert(codec, t, r).Ok? && Insert(codec, t, r).value.id !in t.versions
    ensures var s := Insert(codec, t, r).value;
            && s.id in s.tables.versions && s.tables.versions == t.versions[s.id := s.tables.versions[s.id]]
            && (forall k :: k in t.versions ==> k.n < s.id.n)
            && var row := s.tables.versions[s.id];
            && row.path == r.path && row.clock == r.clock && row.replica == r.replica && row.wallMs == r.wallMs
            && row.isLocal == r.isLocal && row.present == r.state.Present?
            && match r.state
               case Present(sig) => row.contentHash == Some(sig.hash) && row.size == Some(sig.size) && row.exec == sig.exec
               case Tombstone => row.contentHash == None && row.size == None && row.manifest == None && !row.exec
  {
    hide StorePieces, Hashes, UniqueIdentities, References;
  }

  // ---- The bytes written ----

  /** The sizes of the chunk rows of `todo`. */
  ghost function Weight(chunks: Chunks, todo: set<ContentHash>): nat
    requires todo <= chunks.Keys
    decreases |todo|
  {
    if todo == {} then 0
    else
      var key :| key in todo;
      chunks[key].size + Weight(chunks, todo - {key})
  }

  lemma {:induction false} WeightWithout(chunks: Chunks, todo: set<ContentHash>, key: ContentHash)
    requires todo <= chunks.Keys && key in todo
    ensures Weight(chunks, todo) == chunks[key].size + Weight(chunks, todo - {key})
    decreases |todo|
  {
    var first :| first in todo && Weight(chunks, todo) == chunks[first].size + Weight(chunks, todo - {first});
    if first != key {
      WeightWithout(chunks, todo - {first}, key);
      WeightWithout(chunks, todo - {key}, first);
      assert todo - {first} - {key} == todo - {key} - {first};
    }
  }

  lemma {:induction false} WeightAgrees(a: Chunks, b: Chunks, todo: set<ContentHash>)
    requires todo <= a.Keys && todo <= b.Keys && forall key :: key in todo ==> a[key] == b[key]
    ensures Weight(a, todo) == Weight(b, todo)
    decreases |todo|
  {
    if todo != {} {
      var key :| key in todo && Weight(a, todo) == a[key].size + Weight(a, todo - {key});
      WeightWithout(b, todo, key);
      WeightAgrees(a, b, todo - {key});
    }
  }

  lemma WeightAdded(chunks: Chunks, key: ContentHash, row: ChunkRow)
    requires key !in chunks
    ensures Weight(chunks[key := row], chunks[key := row].Keys) == Weight(chunks, chunks.Keys) + row.size
  {
    var after := chunks[key := row];
    WeightWithout(after, after.Keys, key);
    assert after.Keys - {key} == chunks.Keys;
    WeightAgrees(chunks, after, chunks.Keys);
  }

  /** The new bytes that a store reports are what the chunk table has gained, while that fits in 64 bits. */
  lemma {:induction false} NewBytesAreTheGain(codec: Codec, chunks: Chunks, pieces: seq<Bytes>)
    requires StorePieces(codec, chunks, pieces).Ok?
    ensures var stored := StorePieces(codec, chunks, pieces).value;
            var gain := Weight(stored, stored.Keys) - Weight(chunks, chunks.Keys);
            gain >= 0 && NewBytes(codec, chunks, pieces) == if gain > U64_MAX then U64_MAX else gain
  {
    hide Weight, Len;
    if pieces != [] {
      var front, last := pieces[..|pieces| - 1], pieces[|pieces| - 1];
      NewBytesAreTheGain(codec, chunks, front);
      var before := StorePieces(codec, chunks, front).value;
      var key, row := codec.hash(last), ChunkRow(Len(last), codec.compress(last).value);
      if key !in before {
        WeightAdded(before, key, row);
      }
    }
  }
}
