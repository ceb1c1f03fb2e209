/** Filesystem attributes and their canonical encoding (archive/attributes.go). */
module Attributes {
  import opened Bytes
  import opened Names

  const KIND_REGULAR: byte := 0
  const KIND_DIRECTORY: byte := 1
  const KIND_SYMLINK: byte := 2
  const KIND_HARDLINK: byte := 3

  const MODE_LIMIT := 0x1000 // one more than 0o7777
  const MAX_LINK_TARGET_LEN := 4096
  const MAX_XATTRS := 1024
  const MAX_XATTR_NAME_LEN := 255
  const MAX_XATTRS_SIZE := 0x10_0000
  const MAX_ATTRIBUTES_SIZE := MAX_XATTRS_SIZE + MAX_LINK_TARGET_LEN + 64

  datatype Owner = Owner(uid: u32, gid: u32)
  datatype Xattr = Xattr(name: bytes, value: bytes)
  datatype Attributes = Attributes(kind: byte, mode: u32, modTime: i64, linkTarget: bytes,
                                   owner: Option<Owner>, xattrs: seq<Xattr>)

  function XattrsSize(xs: seq<Xattr>): nat
  {
    if xs == [] then 0 else 1 + |xs[0].name| + 4 + |xs[0].value| + XattrsSize(xs[1..])
  }

  predicate Valid(a: Attributes)
  {
    && a.kind <= KIND_HARDLINK
    && a.mode < MODE_LIMIT
    && |a.linkTarget| <= MAX_LINK_TARGET_LEN
    && (a.kind == KIND_SYMLINK || a.kind == KIND_HARDLINK <==> a.linkTarget != [])
    && (a.kind == KIND_HARDLINK ==> ValidEntryName(a.linkTarget))
    && |a.xattrs| <= MAX_XATTRS && XattrsSize(a.xattrs) <= MAX_XATTRS_SIZE
    && forall x :: x in a.xattrs ==> 1 <= |x.name| <= MAX_XATTR_NAME_LEN
  }

  // ---- Encoding ----

  function EncodeXattr(x: Xattr): bytes
  {
    [|x.name| % 256] + x.name + LE(|x.value|, 4) + x.value
  }

  function EncodeXattrs(xs: seq<Xattr>): bytes
  {
    if xs == [] then [] else EncodeXattr(xs[0]) + EncodeXattrs(xs[1..])
  }

  function EncodeOwner(o: Option<Owner>): bytes
  {
    match o
    case None => [0]
    case Some(Owner(uid, gid)) => [1] + (LE32(uid) + LE32(gid))
  }

  function EncodeFixed(a: Attributes): bytes
  {
    [a.kind] + (LE32(a.mode) + LE64(ToUnsigned(a.modTime)))
  }

  /** The encoding, grouped from the right so that each field reads as a prefix. */
  function Encode(a: Attributes): bytes
  {
    EncodeFixed(a) + (EncodeOwner(a.owner) +
    (LE(|a.linkTarget|, 2) + (a.linkTarget +
    (LE(|a.xattrs|, 2) + EncodeXattrs(a.xattrs)))))
  }

  // ---- Decoding ----

  function ReadXattr(b: bytes): (r: Read<Xattr>)
    ensures r.Got? ==> |r.rest| < |b|
  {
    match ReadLE(b, 1) case Bad => Bad case Got(nameLen, b1) =>
    match ReadBytes(b1, nameLen) case Bad => Bad case Got(name, b2) =>
    match ReadLE(b2, 4) case Bad => Bad case Got(size, b3) =>
    if size > MAX_XATTRS_SIZE then Bad else
    match ReadBytes(b3, size) case Bad => Bad case Got(value, b4) =>
    Got(Xattr(name, value), b4)
  }

  function ReadXattrs(b: bytes, count: nat): (r: Read<seq<Xattr>>)
    ensures r.Got? ==> |r.value| == count
  {
    if count == 0 then Got([], b)
    else match ReadXattr(b) case Bad => Bad case Got(x, b1) =>
    match ReadXattrs(b1, count - 1) case Bad => Bad case Got(xs, b2) =>
    Got([x] + xs, b2)
  }

  function ReadOwner(b: bytes): Read<Option<Owner>>
  {
    match ReadBytes(b, 1) case Bad => Bad case Got(flags, b1) =>
    if flags[0] > 1 then Bad
    else if flags[0] == 0 then Got(None, b1)
    else
      match ReadLE(b1, 4) case Bad => Bad case Got(uid, b2) =>
      match ReadLE(b2, 4) case Bad => Bad case Got(gid, b3) =>
      Pow256Values();
      Got(Some(Owner(uid, gid)), b3)
  }

  datatype Fixed = Fixed(kind: byte, mode: u32, modTime: i64)

  function ReadFixed(b: bytes): Read<Fixed>
  {
    match ReadBytes(b, 1) case Bad => Bad case Got(kind, b1) =>
    match ReadLE(b1, 4) case Bad => Bad case Got(mode, b2) =>
    match ReadLE(b2, 8) case Bad => Bad case Got(time, b3) =>
    Pow256Values();
    Got(Fixed(kind[0], mode, ToSigned(time)), b3)
  }

  /** ParseAttributes: None stands for any malformed-attributes error. */
  function Parse(b: bytes): Option<Attributes>
  {
    match ReadFixed(b) case Bad => None case Got(f, b1) =>
    match ReadOwner(b1) case Bad => None case Got(owner, b2) =>
    match ReadLE(b2, 2) case Bad => None case Got(targetLen, b3) =>
    match ReadBytes(b3, targetLen) case Bad => None case Got(target, b4) =>
    match ReadLE(b4, 2) case Bad => None case Got(count, b5) =>
    if count > MAX_XATTRS then None else
    match ReadXattrs(b5, count) case Bad => None case Got(xattrs, rest) =>
    var a := Attributes(f.kind, f.mode, f.modTime, target, owner, xattrs);
    if rest == [] && Valid(a) then Some(a) else None
  }

  // ---- Parse undoes Encode ----

  lemma Assoc(a: bytes, b: bytes, c: bytes)
    ensures (a + b) + c == a + (b + c)
  {
  }

  lemma XattrRoundTrip(x: Xattr, rest: bytes)
    requires 1 <= |x.name| <= MAX_XATTR_NAME_LEN && |x.value| <= MAX_XATTRS_SIZE
    ensures ReadXattr(EncodeXattr(x) + rest) == Got(x, rest)
  {
    Pow256Values();
    var b3 := x.value + rest;
    var b2 := LE(|x.value|, 4) + b3;
    var b1 := x.name + b2;
    assert LE(|x.name|, 1) == [|x.name| % 256];
    assert EncodeXattr(x) + rest == LE(|x.name|, 1) + b1;
    assert Pow256(1) == 256;
    ReadLEAppend(|x.name|, 1, b1);
    ReadBytesAppend(x.name, b2);
    ReadLEAppend(|x.value|, 4, b3);
    ReadBytesAppend(x.value, rest);
  }

  lemma {:induction false} XattrsRoundTrip(xs: seq<Xattr>, rest: bytes)
    requires forall x :: x in xs ==> 1 <= |x.name| <= MAX_XATTR_NAME_LEN
    requires XattrsSize(xs) <= MAX_XATTRS_SIZE
    ensures ReadXattrs(EncodeXattrs(xs) + rest, |xs|) == Got(xs, rest)
  {
    if xs == [] {
      assert EncodeXattrs(xs) + rest == rest;
    } else {
      Assoc(EncodeXattr(xs[0]), EncodeXattrs(xs[1..]), rest);
      XattrRoundTrip(xs[0], EncodeXattrs(xs[1..]) + rest);
      XattrsRoundTrip(xs[1..], rest);
      assert [xs[0]] + xs[1..] == xs;
    }
  }

  lemma OwnerRoundTrip(o: Option<Owner>, rest: bytes)
    ensures ReadOwner(EncodeOwner(o) + rest) == Got(o, rest)
  {
    Pow256Values();
    match o
    case None => ReadBytesAppend([0], rest);
    case Some(Owner(uid, gid)) =>
      var b2 := LE32(gid) + rest;
      assert EncodeOwner(o) + rest == [1] + (LE32(uid) + b2);
      ReadBytesAppend([1], LE32(uid) + b2);
      ReadLEAppend(uid, 4, b2);
      ReadLEAppend(gid, 4, rest);
  }

  lemma FixedRoundTrip(a: Attributes, rest: bytes)
    ensures ReadFixed(EncodeFixed(a) + rest) == Got(Fixed(a.kind, a.mode, a.modTime), rest)
  {
    Pow256Values();
    var t := ToUnsigned(a.modTime);
    var b2 := LE64(t) + rest;
    assert EncodeFixed(a) + rest == [a.kind] + (LE32(a.mode) + b2);
    ReadBytesAppend([a.kind], LE32(a.mode) + b2);
    ReadLEAppend(a.mode, 4, b2);
    ReadLEAppend(t, 8, rest);
  }

  lemma ParseOfEncode(a: Attributes)
    requires Valid(a)
    ensures Parse(Encode(a)) == Some(a)
  {
    Pow256Values();
    var b5 := EncodeXattrs(a.xattrs);
    var b4 := LE(|a.xattrs|, 2) + b5;
    var b3 := a.linkTarget + b4;
    var b2 := LE(|a.linkTarget|, 2) + b3;
    var b1 := EncodeOwner(a.owner) + b2;
    FixedRoundTrip(a, b1);
    OwnerRoundTrip(a.owner, b2);
    ReadLEAppend(|a.linkTarget|, 2, b3);
    ReadBytesAppend(a.linkTarget, b4);
    ReadLEAppend(|a.xattrs|, 2, b5);
    XattrsRoundTrip(a.xattrs, []);
    assert b5 + [] == b5;
  }

  // ---- Accepted bytes are exactly the encoding of what they parse to ----

  lemma XattrCanonical(b: bytes)
    requires ReadXattr(b).Got?
    ensures b == EncodeXattr(ReadXattr(b).value) + ReadXattr(b).rest
  {
    var Got(nameLen, b1) := ReadLE(b, 1);
    var Got(name, b2) := ReadBytes(b1, nameLen);
    var Got(size, b3) := ReadLE(b2, 4);
    var Got(value, b4) := ReadBytes(b3, size);
    ReadLECanonical(b, 1);
    ReadLECanonical(b2, 4);
    assert LE(nameLen, 1) == [nameLen % 256];
    calc {
      b;
      [nameLen % 256] + (name + (LE(size, 4) + (value + b4)));
      EncodeXattr(Xattr(name, value)) + b4;
    }
  }

  lemma {:induction false} XattrsCanonical(b: bytes, count: nat)
    requires ReadXattrs(b, count).Got?
    ensures b == EncodeXattrs(ReadXattrs(b, count).value) + ReadXattrs(b, count).rest
  {
    if count == 0 {
    } else {
      XattrCanonical(b);
      XattrsCanonical(ReadXattr(b).rest, count - 1);
      var xs := ReadXattrs(b, count).value;
      assert xs[1..] == ReadXattrs(ReadXattr(b).rest, count - 1).value;
      Assoc(EncodeXattr(xs[0]), EncodeXattrs(xs[1..]), ReadXattrs(b, count).rest);
    }
  }

  lemma OwnerCanonical(b: bytes)
    requires ReadOwner(b).Got?
    ensures b == EncodeOwner(ReadOwner(b).value) + ReadOwner(b).rest
  {
    var Got(flags, b1) := ReadBytes(b, 1);
    if flags[0] == 0 {
      assert flags == [0];
    } else {
      assert flags == [1];
      ReadLECanonical(b1, 4);
      var Got(uid, b2) := ReadLE(b1, 4);
      ReadLECanonical(b2, 4);
    }
  }

  lemma FixedCanonical(b: bytes, a: Attributes)
    requires ReadFixed(b).Got?
    requires ReadFixed(b).value == Fixed(a.kind, a.mode, a.modTime)
    ensures b == EncodeFixed(a) + ReadFixed(b).rest
  {
    var Got(kind, b1) := ReadBytes(b, 1);
    assert kind == [kind[0]];
    ReadLECanonical(b1, 4);
    var Got(mode, b2) := ReadLE(b1, 4);
    ReadLECanonical(b2, 8);
    Pow256Values();
  }

  lemma EncodeOfParse(b: bytes)
    requires Parse(b).Some?
    ensures Valid(Parse(b).value) && Encode(Parse(b).value) == b
  {
    var a := Parse(b).value;
    FixedCanonical(b, a);
    var b1 := ReadFixed(b).rest;
    OwnerCanonical(b1);
    var b2 := ReadOwner(b1).rest;
    ReadLECanonical(b2, 2);
    var b3 := ReadLE(b2, 2).rest;
    var b4 := ReadBytes(b3, |a.linkTarget|).rest;
    ReadLECanonical(b4, 2);
    var b5 := ReadLE(b4, 2).rest;
    XattrsCanonical(b5, |a.xattrs|);
    assert b5 == EncodeXattrs(a.xattrs);
  }

  /** Attributes and their encodings correspond one to one, and the reader accepts exactly
      what the writer validates. */
  lemma ParseIffEncode(b: bytes, a: Attributes)
    ensures Parse(b) == Some(a) <==> Valid(a) && Encode(a) == b
  {
    if Valid(a) {
      ParseOfEncode(a);
    }
    if Parse(b).Some? {
      EncodeOfParse(b);
    }
  }

  lemma {:induction false} EncodeXattrsLength(xs: seq<Xattr>)
    ensures |EncodeXattrs(xs)| == XattrsSize(xs)
  {
    if xs == [] {
    } else {
      EncodeXattrsLength(xs[1..]);
    }
  }

  /** Every valid value fits the size bound that readers enforce on encoded attributes. */
  lemma EncodeLength(a: Attributes)
    requires Valid(a)
    ensures 18 <= |Encode(a)| <= MAX_ATTRIBUTES_SIZE
  {
    EncodeXattrsLength(a.xattrs);
  }

  // ---- The source's own form: a growing buffer and a decoder with a sticky error ----

  /** AppendAttributes: refuses exactly the invalid values and leaves `dst` as a prefix. */
  method AppendAttributes(dst: bytes, a: Attributes) returns (r: Option<bytes>)
    ensures r == if Valid(a) then Some(dst + Encode(a)) else None
  {
    if !Valid(a) {
      return None;
    }
    var out := dst + EncodeFixed(a) + EncodeOwner(a.owner) + LE(|a.linkTarget|, 2) + a.linkTarget + LE(|a.xattrs|, 2);
    ghost var start := out;
    assert start + EncodeXattrs(a.xattrs) == dst + Encode(a);
    for i := 0 to |a.xattrs|
      invariant out + EncodeXattrs(a.xattrs[i..]) == start + EncodeXattrs(a.xattrs)
    {
      assert a.xattrs[i..][1..] == a.xattrs[i + 1..];
      Assoc(out, EncodeXattr(a.xattrs[i]), EncodeXattrs(a.xattrs[i + 1..]));
      out := out + EncodeXattr(a.xattrs[i]);
    }
    assert a.xattrs[|a.xattrs|..] == [];
    assert out + [] == out;
    return Some(out);
  }

  /** attrDecoder: reads fixed-size fields, recording the first truncation. */
  class Decoder {
    var b: bytes
    var err: bool

    constructor (b: bytes)
      ensures this.b == b && !err
    {
      this.b, this.err := b, false;
    }

    method Take(n: nat) returns (out: bytes)
      modifies this
      ensures old(err) ==> err && out == []
      ensures !old(err) ==> match ReadBytes(old(b), n)
                            case Got(x, rest) => !err && out == x && b == rest
                            case Bad => err && out == []
    {
      if err || n > |b| {
        err := true;
        return [];
      }
      out := b[..n];
      b := b[n..];
    }

    method Uint(n: nat) returns (v: nat)
      modifies this
      ensures v < Pow256(n)
      ensures old(err) ==> err && v == 0
      ensures !old(err) ==> match ReadLE(old(b), n)
                            case Got(x, rest) => !err && v == x && b == rest
                            case Bad => err && v == 0
    {
      var x := Take(n);
      v := if err then 0 else FromLE(x);
    }
  }

  function Prepend(xs: seq<Xattr>, r: Read<seq<Xattr>>): Read<seq<Xattr>>
  {
    match r
    case Bad => Bad
    case Got(ys, rest) => Got(xs + ys, rest)
  }

  /** One extended attribute; `fits` is false when its size alone is out of range. */
  method DecodeXattr(d: Decoder) returns (fits: bool, x: Xattr)
    requires !d.err
    modifies d
    ensures match ReadXattr(old(d.b))
            case Got(y, rest) => fits && !d.err && x == y && d.b == rest
            case Bad => !fits || d.err
  {
    var nameLen := d.Uint(1);
    var name := d.Take(nameLen);
    var size := d.Uint(4);
    if size > MAX_XATTRS_SIZE {
      return false, Xattr(name, []);
    }
    var value := d.Take(size);
    return true, Xattr(name, value);
  }

  method DecodeXattrs(d: Decoder, count: nat) returns (ok: bool, xs: seq<Xattr>)
    requires !d.err
    modifies d
    ensures match ReadXattrs(old(d.b), count)
            case Got(ys, rest) => ok && !d.err && xs == ys && d.b == rest
            case Bad => !ok || d.err
  {
    ok, xs := true, [];
    var i := 0;
    ghost var all := ReadXattrs(d.b, count);
    assert all.Got? ==> xs + all.value == all.value;
    while i < count && !d.err
      invariant 0 <= i <= count
      invariant d.err ==> ReadXattrs(old(d.b), count).Bad?
      invariant !d.err ==> ReadXattrs(old(d.b), count) == Prepend(xs, ReadXattrs(d.b, count - i))
    {
      ghost var prefix := xs;
      var x;
      ok, x := DecodeXattr(d);
      if !ok {
        return;
      }
      xs := xs + [x];
      i := i + 1;
      if !d.err {
        PrependStep(prefix, x, ReadXattrs(d.b, count - i));
      }
    }
  }

  lemma PrependStep(xs: seq<Xattr>, x: Xattr, r: Read<seq<Xattr>>)
    ensures r.Got? ==> Prepend(xs, Got([x] + r.value, r.rest)) == Prepend(xs + [x], r)
  {
    assert r.Got? ==> xs + ([x] + r.value) == xs + [x] + r.value;
  }

  method DecodeOwner(d: Decoder) returns (known: bool, owner: Option<Owner>)
    requires !d.err
    modifies d
    ensures match ReadOwner(old(d.b))
            case Got(o, rest) => known && !d.err && owner == o && d.b == rest
            case Bad => !known || d.err
  {
    Pow256Values();
    var flags := d.Take(1);
    if d.err || flags[0] > 1 {
      return false, None;
    }
    if flags[0] == 0 {
      return true, None;
    }
    var uid := d.Uint(4);
    var gid := d.Uint(4);
    return true, Some(Owner(uid, gid));
  }

  method DecodeFixed(d: Decoder) returns (f: Fixed)
    requires !d.err
    modifies d
    ensures match ReadFixed(old(d.b))
            case Got(g, rest) => !d.err && f == g && d.b == rest
            case Bad => d.err
  {
    Pow256Values();
    var kind := d.Take(1);
    var mode := d.Uint(4);
    var time := d.Uint(8);
    f := Fixed(if d.err then 0 else kind[0], mode, ToSigned(time));
  }

  method ParseAttributes(b: bytes) returns (r: Option<Attributes>)
    ensures r == Parse(b)
  {
    var d := new Decoder(b);
    var f := DecodeFixed(d);
    if d.err {
      return None;
    }
    var known, owner := DecodeOwner(d);
    if !known || d.err {
      return None;
    }
    var targetLen := d.Uint(2);
    var target := d.Take(targetLen);
    var count := d.Uint(2);
    if d.err || count > MAX_XATTRS {
      return None;
    }
    var ok, xattrs := DecodeXattrs(d, count);
    if !ok || d.err || d.b != [] {
      return None;
    }
    var a := Attributes(f.kind, f.mode, f.modTime, target, owner, xattrs);
    r := if Valid(a) then Some(a) else None;
  }
}
