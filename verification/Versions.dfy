/** Versions of a path: content signatures, states, heads, and their canonical byte encoding. */
module Versions {
  import opened Bytes
  import opened Clocks
  import opened Paths

  type HashBytes = s: Bytes | |s| == 32 witness seq(32, _ => 0)
  datatype ContentHash = ContentHash(bytes: HashBytes)

  /** `mtime` is carried metadata: the source's `==` and its encoding both ignore it, while Dafny's
      `==` on this datatype compares it too. */
  datatype ContentSig = ContentSig(hash: ContentHash, size: U64, exec: bool, mtime: U64)

  datatype EntryState = Present(sig: ContentSig) | Tombstone
  datatype Head = Head(version: Clock, state: EntryState)

  datatype ChangeKind = Modified(sig: ContentSig) | Removed
  datatype LocalChange = LocalChange(path: RelPath, kind: ChangeKind)
  datatype RemoteChange = RemoteChange(path: RelPath, kind: ChangeKind, version: Clock)

  function StateFromKind(kind: ChangeKind): EntryState {
    match kind
    case Modified(sig) => Present(sig)
    case Removed => Tombstone
  }

  function KindFromState(state: EntryState): ChangeKind {
    match state
    case Present(sig) => Modified(sig)
    case Tombstone => Removed
  }

  /** The source's `==` on signatures. */
  predicate SameSig(a: ContentSig, b: ContentSig) {
    a.hash == b.hash && a.size == b.size && a.exec == b.exec
  }

  /** The source's `==` on states. */
  predicate SameState(a: EntryState, b: EntryState) {
    match (a, b)
    case (Present(x), Present(y)) => SameSig(x, y)
    case (Tombstone, Tombstone) => true
    case _ => false
  }

  /** The source's `==` on heads. */
  predicate SameHead(a: Head, b: Head) {
    a.version == b.version && SameState(a.state, b.state)
  }

  predicate SameContent(a: EntryState, b: EntryState) {
    match (a, b)
    case (Present(x), Present(y)) => x.hash == y.hash && x.exec == y.exec
    case (Tombstone, Tombstone) => true
    case _ => false
  }

  // ---- Canonical encoding ----

  ghost predicate IsFirst(r: ReplicaId, s: set<ReplicaId>) {
    r in s && forall q :: q in s ==> r.id <= q.id
  }

  lemma {:induction false} FirstExists(s: set<ReplicaId>) returns (r: ReplicaId)
    requires s != {}
    ensures IsFirst(r, s)
    decreases |s|
  {
    r :| r in s;
    if s != {r} {
      assert s - {r} != {};
      var q := FirstExists(s - {r});
      if q.id < r.id {
        r := q;
      }
    }
  }

  ghost function First(s: set<ReplicaId>): (r: ReplicaId)
    requires s != {}
    ensures IsFirst(r, s)
  {
    assert exists r :: IsFirst(r, s) by {
      var r := FirstExists(s);
    }
    var r :| IsFirst(r, s);
    r
  }

  lemma FirstIsUnique(r: ReplicaId, s: set<ReplicaId>)
    requires IsFirst(r, s)
    ensures First(s) == r
  {
  }

  /** The `(replica, counter)` pairs of `todo`, in ascending replica order. */
  ghost function PairBytes(c: Clock, todo: set<ReplicaId>): (s: Bytes)
    ensures |s| == 16 * |todo|
    decreases |todo|
  {
    if todo == {} then []
    else
      var r := First(todo);
      U64Bytes(r.id) + U64Bytes(Get(c, r)) + PairBytes(c, todo - {r})
  }

  /** All pairs of a clock: the winner's last tiebreak key. */
  ghost function ClockBytes(c: Clock): (s: Bytes)
    ensures |s| == 16 * |c|
  {
    PairBytes(c, c.Keys)
  }

  function ExecByte(exec: bool): Byte {
    if exec then 1 else 0
  }

  function StateBytes(state: EntryState): Bytes {
    match state
    case Tombstone => [0]
    case Present(sig) => [1] + sig.hash.bytes + U64Bytes(sig.size) + [ExecByte(sig.exec)]
  }

  ghost function HeadBytes(h: Head): Bytes {
    U64Bytes(|h.version|) + ClockBytes(h.version) + StateBytes(h.state)
  }

  // ---- Unique decodability, one record at a time ----

  lemma U64Cancel(a: U64, x: Bytes, b: U64, y: Bytes)
    requires U64Bytes(a) + x == U64Bytes(b) + y
    ensures a == b && x == y
  {
    CancelFront(U64Bytes(a), x, U64Bytes(b), y);
    U64BytesInjective(a, b);
  }

  /** One `(replica, counter)` pair in front of the remaining ones. */
  lemma PairCancel(r: ReplicaId, m: U64, x: Bytes, q: ReplicaId, n: U64, y: Bytes)
    requires U64Bytes(r.id) + U64Bytes(m) + x == U64Bytes(q.id) + U64Bytes(n) + y
    ensures r == q && m == n && x == y
  {
    Associate(U64Bytes(r.id), U64Bytes(m), x);
    Associate(U64Bytes(q.id), U64Bytes(n), y);
    U64Cancel(r.id, U64Bytes(m) + x, q.id, U64Bytes(n) + y);
    U64Cancel(m, x, n, y);
  }

  lemma PairsUnfold(c: Clock, todo: set<ReplicaId>, x: Bytes)
    requires todo != {}
    ensures PairBytes(c, todo) + x ==
            U64Bytes(First(todo).id) + U64Bytes(Get(c, First(todo))) + (PairBytes(c, todo - {First(todo)}) + x)
  {
    var r := First(todo);
    Associate(U64Bytes(r.id) + U64Bytes(Get(c, r)), PairBytes(c, todo - {r}), x);
  }

  lemma {:induction false} PairsCancel(a: Clock, s: set<ReplicaId>, x: Bytes,
                                       b: Clock, t: set<ReplicaId>, y: Bytes)
    requires |s| == |t| && FitsU64(a) && FitsU64(b)
    requires PairBytes(a, s) + x == PairBytes(b, t) + y
    ensures s == t && x == y && forall r :: r in s ==> Get(a, r) == Get(b, r)
    decreases |s|
  {
    if s == {} {
      assert t == {};
      CancelFront([], x, [], y);
    } else {
      var r, q := First(s), First(t);
      var s', t' := s - {r}, t - {q};
      PairsUnfold(a, s, x);
      PairsUnfold(b, t, y);
      PairCancel(r, Get(a, r), PairBytes(a, s') + x, q, Get(b, q), PairBytes(b, t') + y);
      PairsCancel(a, s', x, b, t', y);
      assert s == s' + {r} && t == t' + {q};
    }
  }

  lemma ClockCancel(a: Clock, x: Bytes, b: Clock, y: Bytes)
    requires |a| == |b| && FitsU64(a) && FitsU64(b)
    requires ClockBytes(a) + x == ClockBytes(b) + y
    ensures a == b && x == y
  {
    PairsCancel(a, a.Keys, x, b, b.Keys, y);
    forall r: ReplicaId
      ensures Get(a, r) == Get(b, r)
    {
      assert r in a.Keys <==> r in b.Keys;
    }
    SameReadings(a, b);
  }

  lemma ClockBytesInjective(a: Clock, b: Clock)
    requires FitsU64(a) && FitsU64(b) && ClockBytes(a) == ClockBytes(b)
    ensures a == b
  {
    ClockCancel(a, [], b, []);
  }

  lemma StateCancel(a: EntryState, x: Bytes, b: EntryState, y: Bytes)
    requires StateBytes(a) + x == StateBytes(b) + y
    ensures SameState(a, b) && x == y
  {
    assert (StateBytes(a) + x)[0] == (StateBytes(b) + y)[0];
    if a.Present? && b.Present? {
      PresentCancel(a.sig, x, b.sig, y);
    } else {
      CancelFront(StateBytes(a), x, StateBytes(b), y);
    }
  }

  lemma PresentCancel(a: ContentSig, x: Bytes, b: ContentSig, y: Bytes)
    requires StateBytes(Present(a)) + x == StateBytes(Present(b)) + y
    ensures SameSig(a, b) && x == y
  {
    Associate([1] + a.hash.bytes + U64Bytes(a.size), [ExecByte(a.exec)], x);
    Associate([1] + b.hash.bytes + U64Bytes(b.size), [ExecByte(b.exec)], y);
    CancelThree([1], a.hash.bytes, U64Bytes(a.size), [ExecByte(a.exec)] + x,
                [1], b.hash.bytes, U64Bytes(b.size), [ExecByte(b.exec)] + y);
    CancelFront([ExecByte(a.exec)], x, [ExecByte(b.exec)], y);
    U64BytesInjective(a.size, b.size);
    assert [ExecByte(a.exec)][0] == [ExecByte(b.exec)][0];
  }

  /** A head record is self-delimiting and determines the head up to mtime. */
  lemma HeadCancel(a: Head, x: Bytes, b: Head, y: Bytes)
    requires FitsU64(a.version) && FitsU64(b.version)
    requires HeadBytes(a) + x == HeadBytes(b) + y
    ensures SameHead(a, b) && x == y
  {
    Associate(U64Bytes(|a.version|) + ClockBytes(a.version), StateBytes(a.state), x);
    Associate(U64Bytes(|b.version|) + ClockBytes(b.version), StateBytes(b.state), y);
    ClockRecordCancel(a.version, StateBytes(a.state) + x, b.version, StateBytes(b.state) + y);
    StateCancel(a.state, x, b.state, y);
  }

  lemma ClockRecordCancel(a: Clock, x: Bytes, b: Clock, y: Bytes)
    requires FitsU64(a) && FitsU64(b)
    requires U64Bytes(|a|) + ClockBytes(a) + x == U64Bytes(|b|) + ClockBytes(b) + y
    ensures a == b && x == y
  {
    Associate(U64Bytes(|a|), ClockBytes(a), x);
    Associate(U64Bytes(|b|), ClockBytes(b), y);
    U64Cancel(|a|, ClockBytes(a) + x, |b|, ClockBytes(b) + y);
    ClockCancel(a, x, b, y);
  }

  lemma SameHeadSameBytes(a: Head, b: Head)
    requires SameHead(a, b)
    ensures HeadBytes(a) == HeadBytes(b)
  {
  }

  // ---- The encoders ----

  method FirstReplica(s: set<ReplicaId>) returns (r: ReplicaId)
    requires s != {}
    ensures IsFirst(r, s)
  {
    r :| r in s;
    var todo := s - {r};
    while todo != {}
      invariant todo <= s && r in s
      invariant forall q :: q in s - todo ==> r.id <= q.id
      decreases todo
    {
      var q :| q in todo;
      if q.id < r.id {
        r := q;
      }
      todo := todo - {q};
    }
  }

  /** `clock_key`, appended to `out`. */
  method EncodeClock(version: Clock, out: Bytes) returns (result: Bytes)
    ensures result == out + ClockBytes(version)
  {
    result := out;
    var todo := version.Keys;
    while todo != {}
      invariant todo <= version.Keys
      invariant result + PairBytes(version, todo) == out + ClockBytes(version)
      decreases todo
    {
      var r := FirstReplica(todo);
      FirstIsUnique(r, todo);
      AppendPair(result, U64Bytes(r.id), U64Bytes(version[r]), PairBytes(version, todo - {r}));
      result := result + U64Bytes(r.id);
      result := result + U64Bytes(version[r]);
      todo := todo - {r};
    }
  }

  lemma AppendPair(a: Bytes, b: Bytes, c: Bytes, d: Bytes)
    ensures a + (b + c + d) == a + b + c + d
  {
  }

  method EncodeState(state: EntryState, out: Bytes) returns (result: Bytes)
    ensures result == out + StateBytes(state)
  {
    match state
    case Tombstone =>
      result := out + [0];
    case Present(sig) =>
      result := out + [1];
      result := result + sig.hash.bytes;
      result := result + U64Bytes(sig.size);
      result := result + [ExecByte(sig.exec)];
      AppendFour(out, [1], sig.hash.bytes, U64Bytes(sig.size), [ExecByte(sig.exec)]);
  }

  lemma AppendFour(a: Bytes, b: Bytes, c: Bytes, d: Bytes, e: Bytes)
    ensures a + (b + c + d + e) == a + b + c + d + e
  {
  }

  method EncodeHead(h: Head, out: Bytes) returns (result: Bytes)
    ensures result == out + HeadBytes(h)
  {
    result := out + U64Bytes(|h.version|);
    result := EncodeClock(h.version, result);
    result := EncodeState(h.state, result);
    AppendPair(out, U64Bytes(|h.version|), ClockBytes(h.version), StateBytes(h.state));
  }
}
