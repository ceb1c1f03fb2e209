/** Bytes, fixed-width little-endian integers and the shared wrapper type. */
module Bytes {

  type byte = x: int | 0 <= x < 256
  type bytes = seq<byte>

  const TWO_16 := 0x1_0000
  const TWO_32 := 0x1_0000_0000
  const TWO_63 := 0x8000_0000_0000_0000
  const TWO_64 := 0x1_0000_0000_0000_0000

  type u32 = x: int | 0 <= x < TWO_32
  type u64 = x: int | 0 <= x < TWO_64
  type i64 = x: int | -TWO_63 <= x < TWO_63

  type Pos = x: nat | x > 0 witness 1

  datatype Option<+T> = None | Some(value: T)

  /** What a decoding step returns: a value and the bytes after it, or a refusal. */
  datatype Read<+T> = Got(value: T, rest: bytes) | Bad

  function Min(a: int, b: int): (m: int)
    ensures m <= a && m <= b && (m == a || m == b)
  {
    if a <= b then a else b
  }

  function Max(a: int, b: int): (m: int)
    ensures m >= a && m >= b && (m == a || m == b)
  {
    if a >= b then a else b
  }

  /** How many values `n` bytes can hold. */
  function Pow256(n: nat): (p: nat)
    ensures p >= 1
  {
    if n == 0 then 1 else 256 * Pow256(n - 1)
  }

  lemma Pow256Values()
    ensures Pow256(2) == TWO_16 && Pow256(4) == TWO_32 && Pow256(8) == TWO_64
  {
    assert Pow256(3) == 256 * Pow256(2);
    assert Pow256(4) == 256 * Pow256(3);
    assert Pow256(5) == 256 * Pow256(4);
    assert Pow256(6) == 256 * Pow256(5);
    assert Pow256(7) == 256 * Pow256(6);
  }

  /** The `n`-byte little-endian encoding of `v`. */
  function LE(v: nat, n: nat): (b: bytes)
    ensures |b| == n
  {
    if n == 0 then [] else [v % 256] + LE(v / 256, n - 1)
  }

  function FromLE(b: bytes): (v: nat)
    ensures v < Pow256(|b|)
  {
    if b == [] then 0 else b[0] + 256 * FromLE(b[1..])
  }

  lemma Split256(q: nat, r: byte)
    ensures (r + 256 * q) / 256 == q && (r + 256 * q) % 256 == r
  {
  }

  lemma {:induction false} FromLEOfLE(v: nat, n: nat)
    requires v < Pow256(n)
    ensures FromLE(LE(v, n)) == v
  {
    if n == 0 {
    } else {
      FromLEOfLE(v / 256, n - 1);
      assert LE(v, n)[1..] == LE(v / 256, n - 1);
    }
  }

  lemma {:induction false} LEOfFromLE(b: bytes)
    ensures LE(FromLE(b), |b|) == b
  {
    if b == [] {
    } else {
      var q := FromLE(b[1..]);
      LEOfFromLE(b[1..]);
      Split256(q, b[0]);
      assert LE(FromLE(b), |b|) == [b[0]] + LE(q, |b| - 1);
      assert b == [b[0]] + b[1..];
    }
  }

  function LE32(v: u32): (b: bytes) ensures |b| == 4 { LE(v, 4) }
  function LE64(v: u64): (b: bytes) ensures |b| == 8 { LE(v, 8) }

  function FromLE32(b: bytes): u32 requires |b| == 4 { Pow256Values(); FromLE(b) }
  function FromLE64(b: bytes): u64 requires |b| == 8 { Pow256Values(); FromLE(b) }

  lemma RoundTrip32(v: u32)
    ensures FromLE32(LE32(v)) == v
  {
    Pow256Values();
    FromLEOfLE(v, 4);
  }

  lemma RoundTrip64(v: u64)
    ensures FromLE64(LE64(v)) == v
  {
    Pow256Values();
    FromLEOfLE(v, 8);
  }

  /** uint64 to int64 conversion, and back: two's complement. */
  function ToSigned(u: u64): i64 { if u < TWO_63 then u else u - TWO_64 }
  function ToUnsigned(x: i64): u64 { if x >= 0 then x else x + TWO_64 }

  function WrapAdd(a: u64, b: u64): u64 { (a + b) % TWO_64 }
  function WrapSub(a: u64, b: u64): u64 { (a - b) % TWO_64 }

  /** Reads `n` bytes. */
  function ReadBytes(b: bytes, n: nat): (r: Read<bytes>)
    ensures r.Got? <==> n <= |b|
    ensures r.Got? ==> |r.value| == n && b == r.value + r.rest
  {
    if n > |b| then Bad else Got(b[..n], b[n..])
  }

  lemma ReadBytesAppend(x: bytes, rest: bytes)
    ensures ReadBytes(x + rest, |x|) == Got(x, rest)
  {
  }

  /** Reads an `n`-byte little-endian integer. */
  function ReadLE(b: bytes, n: nat): (r: Read<nat>)
    ensures r.Got? <==> n <= |b|
    ensures r.Got? ==> r.value < Pow256(n) && |r.rest| == |b| - n
  {
    match ReadBytes(b, n)
    case Bad => Bad
    case Got(x, rest) => Got(FromLE(x), rest)
  }

  lemma ReadLEAppend(v: nat, n: nat, rest: bytes)
    requires v < Pow256(n)
    ensures ReadLE(LE(v, n) + rest, n) == Got(v, rest)
  {
    FromLEOfLE(v, n);
    ReadBytesAppend(LE(v, n), rest);
  }

  lemma ReadLECanonical(b: bytes, n: nat)
    requires ReadLE(b, n).Got?
    ensures b == LE(ReadLE(b, n).value, n) + ReadLE(b, n).rest
  {
    LEOfFromLE(b[..n]);
  }

  function Zeros(n: nat): (z: bytes)
    ensures |z| == n && forall i :: 0 <= i < n ==> z[i] == 0
  {
    seq(n, i => 0)
  }

  /** The concatenation of a list of byte strings. */
  function Flatten(parts: seq<bytes>): bytes
  {
    if parts == [] then [] else parts[0] + Flatten(parts[1..])
  }

  lemma {:induction false} FlattenAppend(a: seq<bytes>, b: seq<bytes>)
    ensures Flatten(a + b) == Flatten(a) + Flatten(b)
  {
    if a == [] {
      assert a + b == b;
    } else {
      calc {
        Flatten(a + b);
        { assert (a + b)[0] == a[0] && (a + b)[1..] == a[1..] + b; }
        a[0] + Flatten(a[1..] + b);
        { FlattenAppend(a[1..], b); }
        a[0] + (Flatten(a[1..]) + Flatten(b));
        (a[0] + Flatten(a[1..])) + Flatten(b);
        Flatten(a) + Flatten(b);
      }
    }
  }

  lemma FlattenSnoc(a: seq<bytes>, x: bytes)
    ensures Flatten(a + [x]) == Flatten(a) + x
  {
    FlattenAppend(a, [x]);
    assert Flatten([x]) == x + Flatten([]);
  }

  lemma CancelOne<T>(a: multiset<T>, b: multiset<T>, x: T)
    requires a + multiset{x} == b + multiset{x}
    ensures a == b
  {
    forall y ensures a[y] == b[y] {
      assert (a + multiset{x})[y] == (b + multiset{x})[y];
    }
  }
}
