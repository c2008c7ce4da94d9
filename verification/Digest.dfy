/** The canonical byte stream of an index: equal bytes mean equal indices, up to mtime. */
module Digest {
  import opened Bytes
  import opened Clocks
  import opened Paths
  import opened Versions
  import opened Entries
  import opened EngineSpec
  import opened Network
  import opened Convergence
  import Sorting
  import Winners

  ghost function HeadsBytes(hs: seq<Head>): Bytes {
    if hs == [] then [] else HeadBytes(hs[0]) + HeadsBytes(hs[1..])
  }

  /** One record: length-prefixed path, head count, heads. */
  ghost function EntryBytes(p: RelPath, hs: seq<Head>): Bytes {
    U64Bytes(|p.text|) + p.text + U64Bytes(|hs|) + HeadsBytes(hs)
  }

  /** The records of `todo`, in ascending path order. */
  ghost function RecordsBytes(index: Index, todo: set<RelPath>): Bytes
    decreases |todo|
  {
    if todo == {} then []
    else
      var p := FirstPath(todo);
      EntryBytes(p, HeadsAt(index, p)) + RecordsBytes(index, todo - {p})
  }

  ghost function CanonicalBytes(index: Index): Bytes {
    RecordsBytes(index, index.Keys)
  }

  /** Every number of the index is in the range of the `u64` that encodes it. */
  ghost predicate HeadsFit(hs: seq<Head>) {
    |hs| <= U64_MAX && forall i :: 0 <= i < |hs| ==> FitsU64(hs[i].version)
  }

  ghost predicate IndexFits(index: Index) {
    forall p :: p in index ==> |p.text| <= U64_MAX && HeadsFit(index[p])
  }

  /** The source's `==` on entries and indices: blind to mtime. */
  ghost predicate SameHeads(a: seq<Head>, b: seq<Head>) {
    |a| == |b| && forall i :: 0 <= i < |a| ==> SameHead(a[i], b[i])
  }

  ghost predicate SameIndex(a: Index, b: Index) {
    a.Keys == b.Keys && forall p :: p in a ==> SameHeads(HeadsAt(a, p), HeadsAt(b, p))
  }

  // ---- Unique decodability ----

  lemma {:induction false} HeadsCancel(a: seq<Head>, x: Bytes, b: seq<Head>, y: Bytes)
    requires |a| == |b| && HeadsFit(a) && HeadsFit(b)
    requires HeadsBytes(a) + x == HeadsBytes(b) + y
    ensures SameHeads(a, b) && x == y
  {
    hide HeadBytes, FitsU64, SameHead;
    if a == [] {
      CancelFront([], x, [], y);
    } else {
      Associate(HeadBytes(a[0]), HeadsBytes(a[1..]), x);
      Associate(HeadBytes(b[0]), HeadsBytes(b[1..]), y);
      HeadCancel(a[0], HeadsBytes(a[1..]) + x, b[0], HeadsBytes(b[1..]) + y);
      HeadsCancel(a[1..], x, b[1..], y);
      forall i | 0 <= i < |a|
        ensures SameHead(a[i], b[i])
      {
        assert i > 0 ==> a[i] == a[1..][i - 1] && b[i] == b[1..][i - 1];
      }
    }
  }

  lemma PathCancel(p: RelPath, x: Bytes, q: RelPath, y: Bytes)
    requires |p.text| <= U64_MAX && |q.text| <= U64_MAX
    requires U64Bytes(|p.text|) + p.text + x == U64Bytes(|q.text|) + q.text + y
    ensures p == q && x == y
  {
    Associate(U64Bytes(|p.text|), p.text, x);
    Associate(U64Bytes(|q.text|), q.text, y);
    U64Cancel(|p.text|, p.text + x, |q.text|, q.text + y);
    CancelFront(p.text, x, q.text, y);
  }

  /** A record is self-delimiting. */
  lemma EntryCancel(p: RelPath, a: seq<Head>, x: Bytes, q: RelPath, b: seq<Head>, y: Bytes)
    requires |p.text| <= U64_MAX && |q.text| <= U64_MAX && HeadsFit(a) && HeadsFit(b)
    requires EntryBytes(p, a) + x == EntryBytes(q, b) + y
    ensures p == q && SameHeads(a, b) && x == y
  {
    hide HeadsBytes, U64Bytes, SameHeads;
    var fp, fq := U64Bytes(|p.text|) + p.text, U64Bytes(|q.text|) + q.text;
    Regroup(fp, U64Bytes(|a|), HeadsBytes(a), x);
    Regroup(fq, U64Bytes(|b|), HeadsBytes(b), y);
    PathCancel(p, U64Bytes(|a|) + (HeadsBytes(a) + x), q, U64Bytes(|b|) + (HeadsBytes(b) + y));
    U64Cancel(|a|, HeadsBytes(a) + x, |b|, HeadsBytes(b) + y);
    HeadsCancel(a, x, b, y);
  }

  lemma Regroup(a: Bytes, b: Bytes, c: Bytes, d: Bytes)
    ensures a + b + c + d == a + (b + (c + d))
  {
  }

  lemma EntryIsNotEmpty(p: RelPath, hs: seq<Head>)
    ensures EntryBytes(p, hs) != []
  {
    assert |U64Bytes(|p.text|)| == 8;
  }

  lemma {:induction false} RecordsCancel(a: Index, s: set<RelPath>, b: Index, t: set<RelPath>)
    requires IndexFits(a) && IndexFits(b) && s <= a.Keys && t <= b.Keys
    requires RecordsBytes(a, s) == RecordsBytes(b, t)
    ensures s == t && forall p :: p in s ==> SameHeads(HeadsAt(a, p), HeadsAt(b, p))
    decreases |s|
  {
    hide EntryBytes, SameHeads, HeadsFit;
    if s == {} || t == {} {
      if s != {} {
        EntryIsNotEmpty(FirstPath(s), HeadsAt(a, FirstPath(s)));
      }
      if t != {} {
        EntryIsNotEmpty(FirstPath(t), HeadsAt(b, FirstPath(t)));
      }
    } else {
      var p, q := FirstPath(s), FirstPath(t);
      EntryCancel(p, HeadsAt(a, p), RecordsBytes(a, s - {p}), q, HeadsAt(b, q), RecordsBytes(b, t - {q}));
      RecordsCancel(a, s - {p}, b, t - {q});
      assert s == s - {p} + {p} && t == t - {q} + {q};
    }
  }

  lemma {:induction false} SameHeadsSameBytes(a: seq<Head>, b: seq<Head>)
    requires SameHeads(a, b)
    ensures HeadsBytes(a) == HeadsBytes(b)
  {
    hide HeadBytes;
    if a != [] {
      SameHeadSameBytes(a[0], b[0]);
      SameHeadsSameBytes(a[1..], b[1..]);
    }
  }

  lemma {:induction false} SameIndexSameRecords(a: Index, b: Index, todo: set<RelPath>)
    requires SameIndex(a, b) && todo <= a.Keys
    ensures RecordsBytes(a, todo) == RecordsBytes(b, todo)
    decreases |todo|
  {
    hide SameHeads, HeadsBytes;
    if todo != {} {
      var p := FirstPath(todo);
      assert SameHeads(HeadsAt(a, p), HeadsAt(b, p));
      SameHeadsSameBytes(HeadsAt(a, p), HeadsAt(b, p));
      SameLength(HeadsAt(a, p), HeadsAt(b, p));
      SameIndexSameRecords(a, b, todo - {p});
    }
  }

  lemma SameLength(a: seq<Head>, b: seq<Head>)
    requires SameHeads(a, b)
    ensures |a| == |b|
  {
  }

  /** The digest is injective: two indices have the same canonical bytes exactly when they are
      equal up to mtime. */
  lemma CanonicalBytesIffEqual(a: Index, b: Index)
    requires IndexFits(a) && IndexFits(b)
    ensures CanonicalBytes(a) == CanonicalBytes(b) <==> SameIndex(a, b)
  {
    hide SameHeads, HeadsFit, RecordsBytes;
    if CanonicalBytes(a) == CanonicalBytes(b) {
      RecordsCancel(a, a.Keys, b, b.Keys);
    }
    if SameIndex(a, b) {
      SameIndexSameRecords(a, b, a.Keys);
    }
  }

  /** The bytes do not determine the winner: two entries of two heads with the same bytes, in
      adoption mode, whose winners differ because the newest mtime does. */
  lemma BytesDoNotDetermineWinner(x: Head, y: Head, older: U64, newer: U64) returns (a: Heads, b: Heads)
    requires x.state.Present? && y.state.Present? && older < newer
    requires DisjointSupport(x.version, y.version)
    ensures HeadsBytes(a) == HeadsBytes(b) && AdoptionMode(a) && AdoptionMode(b)
    ensures Winner(a) == a[0] && Winner(b) == b[1]
  {
    hide HeadBytes, CompareBytes, ClockBytes, HeadsBytes;
    var x0, x1 := Head(x.version, Present(x.state.sig.(mtime := newer))), Head(x.version, Present(x.state.sig.(mtime := older)));
    var y0, y1 := Head(y.version, Present(y.state.sig.(mtime := older))), Head(y.version, Present(y.state.sig.(mtime := newer)));
    a, b := [x0, y0], [x1, y1];
    SameHeadsSameBytes(a, b);
    assert a[..1] == [x0] && b[..1] == [x1];
  }

  // ---- When the bytes fix the winner ----

  /** Two head lists in range with the same encoding. */
  ghost predicate SameBytes(a: seq<Head>, b: seq<Head>) {
    |a| == |b| && HeadsFit(b) && HeadsBytes(a) == HeadsBytes(b)
  }

  lemma SameBytesIffSameHeads(a: seq<Head>, b: seq<Head>)
    requires HeadsFit(a)
    ensures SameBytes(a, b) <==> SameHeads(a, b)
  {
    hide HeadsBytes, FitsU64;
    if SameBytes(a, b) {
      assert HeadsBytes(a) + [] == HeadsBytes(b) + [];
      HeadsCancel(a, [], b, []);
    }
    if SameHeads(a, b) {
      SameHeadsSameBytes(a, b);
      forall i | 0 <= i < |b|
        ensures FitsU64(b[i].version)
      {
        assert SameHead(a[i], b[i]) && FitsU64(a[i].version);
      }
    }
  }

  /** Position by position the comparison gives the same verdicts. */
  ghost predicate SameVerdicts(compare: (Head, Head) -> Ordering, a: seq<Head>, b: seq<Head>) {
    |a| == |b| && forall i, j :: 0 <= i < |a| && 0 <= j < |a| ==> compare(a[i], a[j]) == compare(b[i], b[j])
  }

  lemma {:induction false} SameBest(compare: (Head, Head) -> Ordering, a: seq<Head>, b: seq<Head>) returns (i: nat)
    requires a != [] && SameVerdicts(compare, a, b)
    ensures i < |a| && Sorting.Best(compare, a) == a[i] && Sorting.Best(compare, b) == b[i]
  {
    var n := |a| - 1;
    i := n;
    if n > 0 {
      var k := SameBest(compare, a[..n], b[..n]);
      assert a[..n][k] == a[k] && b[..n][k] == b[k];
      assert compare(a[n], a[k]) == compare(b[n], b[k]);
      if compare(a[n], a[k]) != Greater {
        i := k;
      }
    }
  }

  ghost predicate OnePresent(hs: seq<Head>) {
    forall i, j :: 0 <= i < |hs| && 0 <= j < |hs| && hs[i].state.Present? && hs[j].state.Present? ==> i == j
  }

  lemma VerdictIgnoresMtime(x: Head, y: Head, x': Head, y': Head, adoption: bool)
    requires SameHead(x, x') && SameHead(y, y')
    requires adoption && x.state.Present? && y.state.Present? ==> x == y && x' == y'
    ensures WinnerCompare(x, y, adoption) == WinnerCompare(x', y', adoption)
  {
    hide CompareBytes, ClockBytes;
  }

  /** The comparison reads the mtime only in adoption mode, between two heads that are present. */
  lemma VerdictsIgnoreMtime(a: seq<Head>, b: seq<Head>, adoption: bool)
    requires SameHeads(a, b) && (!adoption || OnePresent(a))
    ensures SameVerdicts(WinnerOrder(adoption), a, b)
  {
    hide WinnerCompare, SameHead;
    forall i, j | 0 <= i < |a| && 0 <= j < |a|
      ensures WinnerOrder(adoption)(a[i], a[j]) == WinnerOrder(adoption)(b[i], b[j])
    {
      VerdictIgnoresMtime(a[i], a[j], b[i], b[j], adoption);
    }
  }

  lemma SameHeadsSameMode(a: seq<Head>, b: seq<Head>)
    requires SameHeads(a, b)
    ensures AdoptionMode(a) <==> AdoptionMode(b)
  {
    hide DisjointSupport, SameState;
    assert forall i :: 0 <= i < |a| ==> SameHead(a[i], b[i]) && a[i].version == b[i].version;
  }

  lemma WinnerIgnoresMtime(a: Heads, b: Heads)
    requires SameHeads(a, b) && (!AdoptionMode(a) || OnePresent(a))
    ensures SameHead(Winner(a), Winner(b))
  {
    hide WinnerCompare, AdoptionMode, SameHead, Sorting.Best, SameVerdicts;
    SameHeadsSameMode(a, b);
    VerdictsIgnoreMtime(a, b, AdoptionMode(a));
    var i := SameBest(WinnerOrder(AdoptionMode(a)), a, b);
  }

  function Dated(h: Head, mtime: U64): Head {
    match h.state
    case Present(sig) => h.(state := Present(sig.(mtime := mtime)))
    case Tombstone => h
  }

  /** The same heads, with head `k` the only recent one. */
  function Favouring(hs: seq<Head>, k: nat): (r: seq<Head>)
    ensures |r| == |hs|
  {
    seq(|hs|, i requires 0 <= i < |hs| => Dated(hs[i], if i == k then 1 else 0))
  }

  /** In adoption mode any head that is present can be made the winner by mtimes alone. */
  lemma FavouredWins(hs: Heads, k: nat)
    requires AdoptionMode(hs) && k < |hs| && hs[k].state.Present?
    ensures SameHeads(hs, Favouring(hs, k)) && Winner(Favouring(hs, k)) == Favouring(hs, k)[k]
  {
    hide AdoptionMode, Winner;
    var other: Heads := Favouring(hs, k);
    SameHeadsSameMode(hs, other);
    Winners.WinnerFollowsPolicy(other, other[k]);
    var i :| 0 <= i < |other| && other[i] == Winner(other);
    assert other[i].state.sig.mtime >= 1;
  }

  lemma DistinctVersions(hs: seq<Head>, i: nat, j: nat)
    requires Antichain(hs) && i < j < |hs|
    ensures hs[i].version != hs[j].version
  {
    AntichainPositions(hs, i, j);
    CompareIsThePartialOrder(hs[i].version, hs[j].version);
  }

  /** Adoption mode with two heads present leaves the winner open. */
  lemma MtimesDecide(hs: Heads) returns (other: Heads)
    requires Antichain(hs) && AdoptionMode(hs) && !OnePresent(hs)
    ensures SameHeads(hs, other) && !SameHead(Winner(hs), Winner(other))
  {
    hide Antichain, AdoptionMode, Winner, SameHeads;
    var i, j :| 0 <= i < |hs| && 0 <= j < |hs| && hs[i].state.Present? && hs[j].state.Present? && i != j;
    if i < j {
      DistinctVersions(hs, i, j);
    } else {
      DistinctVersions(hs, j, i);
    }
    var k := if Winner(hs).version == hs[i].version then j else i;
    FavouredWins(hs, k);
    other := Favouring(hs, k);
  }

  /** The exact condition: the bytes of an entry fix its winner, up to mtime, if and only if the entry
      is not in adoption mode or has at most one head that is present. */
  lemma BytesFixWinnerIff(hs: Heads)
    requires Antichain(hs) && HeadsFit(hs)
    ensures (forall other: Heads :: SameBytes(hs, other) ==> SameHead(Winner(hs), Winner(other)))
            <==> !AdoptionMode(hs) || OnePresent(hs)
  {
    hide Antichain, HeadsFit, AdoptionMode, OnePresent, Winner, SameHeads, SameBytes, SameHead;
    if !AdoptionMode(hs) || OnePresent(hs) {
      forall other: Heads | SameBytes(hs, other)
        ensures SameHead(Winner(hs), Winner(other))
      {
        SameBytesIffSameHeads(hs, other);
        WinnerIgnoresMtime(hs, other);
      }
    } else {
      var other := MtimesDecide(hs);
      SameBytesIffSameHeads(hs, other);
    }
  }

  /** In runs the digest says everything: two replicas whose indices have the same canonical bytes
      hold the same index, mtimes and winners included, whatever has been delivered. */
  lemma BytesIdentifyReachableIndices(ids: set<ReplicaId>, steps: seq<Step>, r: ReplicaId, q: ReplicaId)
    requires r in ids && q in ids
    requires IndexFits(Reached(ids, steps).engines[r].index) && IndexFits(Reached(ids, steps).engines[q].index)
    ensures CanonicalBytes(Reached(ids, steps).engines[r].index) == CanonicalBytes(Reached(ids, steps).engines[q].index)
            <==> Reached(ids, steps).engines[r].index == Reached(ids, steps).engines[q].index
  {
    hide Reached, CanonicalBytes, IndexFits, SameHeads;
    var a, b := Reached(ids, steps).engines[r].index, Reached(ids, steps).engines[q].index;
    CanonicalBytesIffEqual(a, b);
    if SameIndex(a, b) {
      forall p
        ensures HeadsAt(a, p) == HeadsAt(b, p)
      {
        if p in a {
          SameReachableHeads(ids, steps, r, q, p);
        }
      }
      SameHeadsEverywhere(a, b);
    }
  }

  lemma SameReachableHeads(ids: set<ReplicaId>, steps: seq<Step>, r: ReplicaId, q: ReplicaId, p: RelPath)
    requires r in ids && q in ids
    requires SameHeads(HeadsAt(Reached(ids, steps).engines[r].index, p), HeadsAt(Reached(ids, steps).engines[q].index, p))
    ensures HeadsAt(Reached(ids, steps).engines[r].index, p) == HeadsAt(Reached(ids, steps).engines[q].index, p)
  {
    hide Reached, SameState;
    var x, y := HeadsAt(Reached(ids, steps).engines[r].index, p), HeadsAt(Reached(ids, steps).engines[q].index, p);
    forall i | 0 <= i < |x|
      ensures x[i] == y[i]
    {
      assert SameHead(x[i], y[i]) && x[i] in x && y[i] in y;
      HeadsWereShipped(ids, steps, r, p, x[i]);
      HeadsWereShipped(ids, steps, q, p, y[i]);
      ClockIdentity(ids, steps, p, x[i], y[i]);
    }
  }

  // ---- The encoder ----

  method Encode(index: Index) returns (out: Bytes)
    ensures out == CanonicalBytes(index)
  {
    hide EntryBytes, FirstPath;
    out := [];
    var todo := index.Keys;
    while todo != {}
      invariant todo <= index.Keys
      invariant out + RecordsBytes(index, todo) == CanonicalBytes(index)
      decreases todo
    {
      var p := FirstOf(todo);
      Associate(out, EntryBytes(p, index[p]), RecordsBytes(index, todo - {p}));
      out := EncodeEntry(p, index[p], out);
      todo := todo - {p};
    }
  }

  method EncodeEntry(p: RelPath, heads: seq<Head>, out: Bytes) returns (result: Bytes)
    ensures result == out + EntryBytes(p, heads)
  {
    hide HeadBytes, U64Bytes;
    result := out + U64Bytes(|p.text|);
    result := result + p.text;
    result := result + U64Bytes(|heads|);
    ghost var before := result;
    assert heads[0..] == heads;
    for n := 0 to |heads|
      invariant result + HeadsBytes(heads[n..]) == before + HeadsBytes(heads)
    {
      assert heads[n..][1..] == heads[n + 1..];
      Associate(result, HeadBytes(heads[n]), HeadsBytes(heads[n + 1..]));
      result := EncodeHead(heads[n], result);
    }
    Prepend(out, U64Bytes(|p.text|), p.text, U64Bytes(|heads|), HeadsBytes(heads));
  }

  lemma Prepend(a: Bytes, b: Bytes, c: Bytes, d: Bytes, e: Bytes)
    ensures a + b + c + d + e == a + (b + c + d + e)
  {
  }
}
