/** Byte strings: lexicographic order (Rust's `Ord` on `[u8]`, `Vec<u8>` and `str`) and the
    little-endian `u64` records the canonical encodings are made of. */
module Bytes {
  type Byte = b: nat | b < 256
  type Bytes = seq<Byte>

  const U64_MAX: nat := 0xFFFF_FFFF_FFFF_FFFF
  type U64 = n: nat | n <= U64_MAX

  /** `u64::saturating_add`. */
  function SatAdd(a: U64, b: U64): U64 {
    if a + b > U64_MAX then U64_MAX else a + b
  }

  datatype Ordering = Less | Equal | Greater {
    function Reversed(): Ordering {
      match this
      case Less => Greater
      case Equal => Equal
      case Greater => Less
    }
    function Then(next: Ordering): Ordering {
      if this == Equal then next else this
    }
  }

  function CompareNat(a: nat, b: nat): Ordering {
    if a < b then Less else if a == b then Equal else Greater
  }

  function CompareBytes(a: Bytes, b: Bytes): Ordering {
    if a == [] then (if b == [] then Equal else Less)
    else if b == [] then Greater
    else if a[0] != b[0] then CompareNat(a[0], b[0])
    else CompareBytes(a[1..], b[1..])
  }

  /** `a` and `b` agree up to `i`, where `a` ends or has the smaller byte. */
  ghost predicate FirstDifference(a: Bytes, b: Bytes, i: nat) {
    && i <= |a| && i < |b| && (forall k :: 0 <= k < i ==> a[k] == b[k])
    && (i < |a| ==> a[i] < b[i])
  }

  lemma DifferenceInTail(a: Bytes, b: Bytes, i: nat)
    requires a != [] && b != [] && a[0] == b[0]
    ensures FirstDifference(a, b, i + 1) <==> FirstDifference(a[1..], b[1..], i)
    ensures !FirstDifference(a, b, 0)
  {
    if FirstDifference(a[1..], b[1..], i) {
      forall k | 0 <= k < i + 1
        ensures a[k] == b[k]
      {
        assert k > 0 ==> a[k] == a[1..][k - 1] && b[k] == b[1..][k - 1];
      }
    }
  }

  /** The order is the lexicographic one. */
  lemma {:induction false} CompareIsLexicographic(a: Bytes, b: Bytes)
    ensures CompareBytes(a, b) == Less <==> exists i: nat :: FirstDifference(a, b, i)
  {
    if a != [] && b != [] && a[0] == b[0] {
      CompareIsLexicographic(a[1..], b[1..]);
      if i: nat :| FirstDifference(a[1..], b[1..], i) {
        DifferenceInTail(a, b, i);
      }
      if i: nat :| FirstDifference(a, b, i) {
        DifferenceInTail(a, b, if i == 0 then 0 else i - 1);
      }
    } else if b != [] && (a == [] || a[0] < b[0]) {
      assert FirstDifference(a, b, 0);
    }
  }

  lemma {:induction false} CompareEqual(a: Bytes, b: Bytes)
    ensures CompareBytes(a, b) == Equal <==> a == b
  {
    if a != [] && b != [] && a[0] == b[0] {
      CompareEqual(a[1..], b[1..]);
      assert a == [a[0]] + a[1..] && b == [b[0]] + b[1..];
    }
  }

  lemma {:induction false} CompareReversed(a: Bytes, b: Bytes)
    ensures CompareBytes(b, a) == CompareBytes(a, b).Reversed()
  {
    if a != [] && b != [] && a[0] == b[0] {
      CompareReversed(a[1..], b[1..]);
    }
  }

  lemma {:induction false} CompareTransitive(a: Bytes, b: Bytes, c: Bytes)
    requires CompareBytes(a, b) != Greater && CompareBytes(b, c) != Greater
    ensures CompareBytes(a, c) != Greater
    ensures CompareBytes(a, c) == Equal ==> CompareBytes(a, b) == Equal && CompareBytes(b, c) == Equal
  {
    if a != [] && b != [] && c != [] && a[0] == b[0] && b[0] == c[0] {
      CompareTransitive(a[1..], b[1..], c[1..]);
    }
  }

  // ---- Little-endian integers ----

  /** Byte `i` of a number, counting from the least significant. */
  function ByteAt(n: nat, i: nat): Byte {
    if i == 0 then n % 256 else ByteAt(n / 256, i - 1)
  }

  function LittleEndian(n: nat, width: nat): (s: Bytes)
    ensures |s| == width
  {
    seq(width, i requires 0 <= i => ByteAt(n, i))
  }

  /** `u64::to_le_bytes`: the low eight bytes, which is all of them for a value in range. */
  function U64Bytes(n: nat): (s: Bytes)
    ensures |s| == 8
  {
    LittleEndian(n, 8)
  }

  function FromLittleEndian(s: Bytes): nat {
    if s == [] then 0 else s[0] + 256 * FromLittleEndian(s[1..])
  }

  /** The largest value `width` bytes can hold, plus one. */
  function Capacity(width: nat): (c: nat)
    ensures c > 0
  {
    if width == 0 then 1 else 256 * Capacity(width - 1)
  }

  lemma {:induction false} LittleEndianRoundTrip(n: nat, width: nat)
    requires n < Capacity(width)
    ensures FromLittleEndian(LittleEndian(n, width)) == n
  {
    if width > 0 {
      LittleEndianRoundTrip(n / 256, width - 1);
      assert LittleEndian(n, width)[1..] == LittleEndian(n / 256, width - 1);
    }
  }

  lemma CapacityIsU64()
    ensures Capacity(4) == 0x1_0000_0000
    ensures Capacity(8) == U64_MAX + 1
  {
    assert Capacity(2) == 0x1_0000;
    assert Capacity(4) == 0x1_0000_0000;
    assert Capacity(6) == 0x1_0000_0000_0000;
  }

  lemma U64BytesInjective(a: U64, b: U64)
    requires U64Bytes(a) == U64Bytes(b)
    ensures a == b
  {
    CapacityIsU64();
    LittleEndianRoundTrip(a, 8);
    LittleEndianRoundTrip(b, 8);
  }

  /** Equal concatenations with equally long first parts agree part by part. */
  lemma CancelFront(a: Bytes, x: Bytes, b: Bytes, y: Bytes)
    requires |a| == |b| && a + x == b + y
    ensures a == b && x == y
  {
    assert a == (a + x)[..|a|] == (b + y)[..|b|] == b;
    assert x == (a + x)[|a|..] == (b + y)[|b|..] == y;
  }

  lemma Associate<T>(a: seq<T>, b: seq<T>, c: seq<T>)
    ensures a + b + c == a + (b + c)
  {
  }

  /** `CancelFront` for records of three parts. */
  lemma CancelThree(a: Bytes, b: Bytes, c: Bytes, x: Bytes, a': Bytes, b': Bytes, c': Bytes, y: Bytes)
    requires |a| == |a'| && |b| == |b'| && |c| == |c'|
    requires a + b + c + x == a' + b' + c' + y
    ensures a == a' && b == b' && c == c' && x == y
  {
    CancelFront(a + b + c, x, a' + b' + c', y);
    CancelFront(a + b, c, a' + b', c');
    CancelFront(a, b, a', b');
  }
}
