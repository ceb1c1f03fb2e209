/** Go's unsigned and zig-zag signed varints (encoding/binary), as the session index and
    the directory use them. */
module Varint {
  import opened Bytes

  /** Values that may still follow after `i` bytes of a varint: 2^(64 - 7i). */
  function Limit(i: nat): (l: nat)
    requires i <= 9
    ensures l >= 2
    decreases 9 - i
  {
    if i == 9 then 2 else 128 * Limit(i + 1)
  }

  lemma LimitZero()
    ensures Limit(0) == TWO_64
  {
    assert Limit(8) == 0x100;
    assert Limit(7) == 0x8000;
    assert Limit(6) == 0x40_0000;
    assert Limit(5) == 0x2000_0000;
    assert Limit(4) == 0x10_0000_0000;
    assert Limit(3) == 0x800_0000_0000;
    assert Limit(2) == 0x4_0000_0000_0000;
    assert Limit(1) == 0x200_0000_0000_0000;
  }

  /** binary.AppendUvarint: seven bits a byte, least significant first. */
  function Uvarint(v: nat): (b: bytes)
    ensures |b| >= 1
  {
    if v < 128 then [v] else [v % 128 + 128] + Uvarint(v / 128)
  }

  /** binary.Uvarint, having already read `i` bytes: an unterminated varint, an eleventh
      byte and a tenth byte above 1 are all refused. */
  function ReadUvarintFrom(b: bytes, i: nat): (r: Read<nat>)
    requires i <= 10
    ensures r.Got? ==> i <= 9 && r.value < Limit(i) && |r.rest| < |b| && r.rest == b[|b| - |r.rest|..]
    decreases 10 - i
  {
    if b == [] || i == 10 then Bad
    else if b[0] < 128 then
      if i == 9 && b[0] > 1 then Bad else Got(b[0], b[1..])
    else match ReadUvarintFrom(b[1..], i + 1)
      case Bad => Bad
      case Got(v, rest) => Got(b[0] - 128 + 128 * v, rest)
  }

  function ReadUvarint(b: bytes): (r: Read<u64>)
    ensures r.Got? ==> |r.rest| < |b| && r.rest == b[|b| - |r.rest|..]
  {
    LimitZero();
    match ReadUvarintFrom(b, 0)
    case Bad => Bad
    case Got(v, rest) => Got(v, rest)
  }

  lemma Split128(v: nat, i: nat)
    requires i <= 9 && 128 <= v < Limit(i)
    ensures i < 9 && v / 128 < Limit(i + 1) && v == v % 128 + 128 * (v / 128)
  {
  }

  lemma {:induction false} UvarintFromRoundTrip(v: nat, i: nat, rest: bytes)
    requires i <= 9 && v < Limit(i)
    ensures ReadUvarintFrom(Uvarint(v) + rest, i) == Got(v, rest)
    decreases v
  {
    hide ReadUvarintFrom, Limit, Uvarint;
    if v < 128 {
      LastByte(v, i, rest);
    } else {
      var q, low: byte := v / 128, v % 128;
      Split128(v, i);
      UvarintFromRoundTrip(q, i + 1, rest);
      HighBits(v, rest);
      ReadLow(low, Uvarint(q) + rest, i);
    }
  }

  lemma HighBits(v: nat, rest: bytes)
    requires v >= 128
    ensures Uvarint(v) + rest == [v % 128 + 128] + (Uvarint(v / 128) + rest)
  {
  }

  lemma LastByte(v: byte, i: nat, rest: bytes)
    requires i <= 9 && v < 128 && v < Limit(i)
    ensures Uvarint(v) == [v] && ReadUvarintFrom([v] + rest, i) == Got(v, rest)
  {
    assert ([v] + rest)[1..] == rest;
    assert Limit(9) == 2;
  }

  lemma ReadLow(low: byte, tail: bytes, i: nat)
    requires i <= 8 && low < 128 && ReadUvarintFrom(tail, i + 1).Got?
    ensures ReadUvarintFrom([low + 128] + tail, i) ==
            Got(low + 128 * ReadUvarintFrom(tail, i + 1).value, ReadUvarintFrom(tail, i + 1).rest)
  {
    assert ([low + 128] + tail)[1..] == tail;
  }

  lemma UvarintRoundTrip(v: u64, rest: bytes)
    ensures ReadUvarint(Uvarint(v) + rest) == Got(v, rest)
  {
    LimitZero();
    UvarintFromRoundTrip(v, 0, rest);
  }

  /** Zig-zag: 0, -1, 1, -2, ... become 0, 1, 2, 3, ... */
  function ZigZag(x: i64): u64 { if x >= 0 then 2 * x else -2 * x - 1 }
  function UnZigZag(u: u64): i64 { if u % 2 == 0 then u / 2 else -(u + 1) / 2 }

  function SignedVarint(x: i64): (b: bytes) ensures |b| >= 1 { Uvarint(ZigZag(x)) }

  function ReadVarint(b: bytes): (r: Read<i64>)
    ensures r.Got? ==> |r.rest| < |b| && r.rest == b[|b| - |r.rest|..]
  {
    match ReadUvarint(b)
    case Bad => Bad
    case Got(u, rest) => Got(UnZigZag(u), rest)
  }

  lemma VarintRoundTrip(x: i64, rest: bytes)
    ensures ReadVarint(SignedVarint(x) + rest) == Got(x, rest)
  {
    UvarintRoundTrip(ZigZag(x), rest);
    assert UnZigZag(ZigZag(x)) == x;
  }

  /** The delta code survives wrap-around in both directions. */
  lemma DeltaRoundTrip(n: u64, prev: u64)
    ensures WrapAdd(prev, ToUnsigned(ToSigned(WrapSub(n, prev)))) == n
  {
    assert ToUnsigned(ToSigned(WrapSub(n, prev))) == WrapSub(n, prev);
    if n >= prev {
      assert WrapSub(n, prev) == n - prev;
    } else {
      assert WrapSub(n, prev) == n - prev + TWO_64;
    }
  }

  // ---- Lengths ----

  lemma {:induction false} ShortNumber(v: nat, n: nat)
    requires n > 0 && v < Pow128(n)
    ensures |Uvarint(v)| <= n
    decreases n
  {
    if v >= 128 {
      assert Pow128(1) == 128 * Pow128(0);
      ShortNumber(v / 128, n - 1);
    }
  }

  function Pow128(n: nat): nat { if n == 0 then 1 else 128 * Pow128(n - 1) }

  lemma ShortU64(v: u64)
    ensures |Uvarint(v)| <= 10
  {
    assert Pow128(5) == 0x8_0000_0000;
    assert Pow128(10) >= TWO_64;
    ShortNumber(v, 10);
  }
}
