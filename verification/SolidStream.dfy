/** The record stream of a solid group (archive/solid.go). */
module SolidStream {
  import opened Bytes
  import opened Names
  import A = Attributes

  /** The stream's in-memory bound: lengths are Go ints, so they stay below 2^63. */
  const MAX_SOLID_STREAM_SIZE := 8 * 0x10_0000

  datatype Member = Member(name: bytes, attributes: A.Attributes, data: bytes)

  /** What AppendSolidRecord accepts; a slice length always fits in 63 bits. */
  predicate ValidMember(m: Member)
  {
    && ValidEntryName(m.name)
    && m.attributes.kind == A.KIND_REGULAR && A.Valid(m.attributes)
    && |m.data| < TWO_63
  }

  function EncodeRecord(m: Member): bytes
  {
    var attrs := A.Encode(m.attributes);
    LE(|m.name|, 2) + (m.name + (LE(|attrs|, 4) + (attrs + (LE(|m.data|, 8) + m.data))))
  }

  function EncodeStream(ms: seq<Member>): bytes
  {
    if ms == [] then [] else EncodeRecord(ms[0]) + EncodeStream(ms[1..])
  }

  /** One turn of ParseSolidStream's loop. */
  function ReadRecord(b: bytes): (r: Read<Member>)
    ensures r.Got? ==> |r.rest| < |b|
  {
    match ReadLE(b, 2) case Bad => Bad case Got(nameLen, b1) =>
    if |b1| < nameLen + 4 + 8 then Bad else
    var name, b2 := b1[..nameLen], b1[nameLen..];
    if !ValidEntryName(name) then Bad else
    var Got(attrsLen, b3) := ReadLE(b2, 4);
    if attrsLen > A.MAX_ATTRIBUTES_SIZE || attrsLen > |b3| - 8 then Bad else
    match A.Parse(b3[..attrsLen]) case None => Bad case Some(attrs) =>
    if attrs.kind != A.KIND_REGULAR then Bad else
    var Got(dataLen, b4) := ReadLE(b3[attrsLen..], 8);
    if dataLen > |b4| || dataLen >= TWO_63 then Bad
    else Got(Member(name, attrs, b4[..dataLen]), b4[dataLen..])
  }

  function ReadRecords(b: bytes): Option<seq<Member>>
  {
    if b == [] then Some([])
    else match ReadRecord(b) case Bad => None case Got(m, rest) =>
    match ReadRecords(rest) case None => None case Some(ms) => Some([m] + ms)
  }

  function Parse(stream: bytes): Option<seq<Member>>
  {
    if stream == [] then None else ReadRecords(stream)
  }

  lemma RecordRoundTrip(m: Member, rest: bytes)
    requires ValidMember(m)
    ensures ReadRecord(EncodeRecord(m) + rest) == Got(m, rest)
  {
    hide A.Encode, A.Parse, A.Valid;
    Pow256Values();
    var attrs := A.Encode(m.attributes);
    A.EncodeLength(m.attributes);
    A.ParseOfEncode(m.attributes);
    var b4 := m.data + rest;
    var tail := LE(|m.data|, 8) + b4;
    var b3 := attrs + tail;
    var b2 := LE(|attrs|, 4) + b3;
    var b1 := m.name + b2;
    assert EncodeRecord(m) + rest == LE(|m.name|, 2) + b1;
    ReadLEAppend(|m.name|, 2, b1);
    assert b1[..|m.name|] == m.name && b1[|m.name|..] == b2;
    ReadLEAppend(|attrs|, 4, b3);
    assert b3[..|attrs|] == attrs && b3[|attrs|..] == tail;
    ReadLEAppend(|m.data|, 8, b4);
    assert b4[..|m.data|] == m.data && b4[|m.data|..] == rest;
  }

  lemma RecordCanonical(b: bytes)
    requires ReadRecord(b).Got?
    ensures ValidMember(ReadRecord(b).value)
    ensures b == EncodeRecord(ReadRecord(b).value) + ReadRecord(b).rest
  {
    hide A.Encode, A.Parse, A.Valid, ValidEntryName, LE, FromLE, Pow256;
    var m, rest := ReadRecord(b).value, ReadRecord(b).rest;
    ReadLECanonical(b, 2);
    var Got(nameLen, b1) := ReadLE(b, 2);
    var b2 := b1[nameLen..];
    ReadLECanonical(b2, 4);
    var Got(attrsLen, b3) := ReadLE(b2, 4);
    var attrs := b3[..attrsLen];
    A.EncodeOfParse(attrs);
    ReadLECanonical(b3[attrsLen..], 8);
    var b4 := ReadLE(b3[attrsLen..], 8).rest;
    var d := LE(|m.data|, 8) + m.data;
    assert b3[attrsLen..] == d + rest by { A.Assoc(LE(|m.data|, 8), m.data, rest); }
    assert b3 == (attrs + d) + rest by { A.Assoc(attrs, d, rest); }
    var c := LE(attrsLen, 4) + (attrs + d);
    assert b2 == c + rest by { A.Assoc(LE(attrsLen, 4), attrs + d, rest); }
    assert b1 == (m.name + c) + rest by { A.Assoc(m.name, c, rest); }
    assert b == (LE(nameLen, 2) + (m.name + c)) + rest by { A.Assoc(LE(nameLen, 2), m.name + c, rest); }
  }

  lemma {:induction false} ParseOfEncode(ms: seq<Member>)
    requires forall m :: m in ms ==> ValidMember(m)
    ensures ReadRecords(EncodeStream(ms)) == Some(ms)
  {
    hide ReadRecord, EncodeRecord, ValidMember;
    if ms == [] {
    } else {
      RecordRoundTrip(ms[0], EncodeStream(ms[1..]));
      ParseOfEncode(ms[1..]);
      assert [ms[0]] + ms[1..] == ms;
    }
  }

  lemma {:induction false} EncodeOfParse(b: bytes)
    requires ReadRecords(b).Some?
    ensures EncodeStream(ReadRecords(b).value) == b
    ensures forall m :: m in ReadRecords(b).value ==> ValidMember(m)
    decreases |b|
  {
    if b == [] {
    } else {
      RecordCanonical(b);
      EncodeOfParse(ReadRecord(b).rest);
      var ms := ReadRecords(b).value;
      assert ms[1..] == ReadRecords(ReadRecord(b).rest).value;
    }
  }

  /** Non-empty lists of valid members and accepted streams correspond one to one. */
  lemma ParseIffEncode(b: bytes, ms: seq<Member>)
    ensures Parse(b) == Some(ms) <==>
            ms != [] && (forall m :: m in ms ==> ValidMember(m)) && EncodeStream(ms) == b
  {
    if ms != [] && forall m :: m in ms ==> ValidMember(m) {
      ParseOfEncode(ms);
      assert EncodeStream(ms) == EncodeRecord(ms[0]) + EncodeStream(ms[1..]);
    }
    if Parse(b).Some? {
      EncodeOfParse(b);
    }
  }

  // ---- The source's own form ----

  method AppendSolidRecord(dst: bytes, m: Member) returns (r: Option<bytes>)
    requires |m.data| < TWO_63
    ensures r == if ValidMember(m) then Some(dst + EncodeRecord(m)) else None
  {
    if !ValidEntryName(m.name) || m.attributes.kind != A.KIND_REGULAR {
      return None;
    }
    var attrs := A.AppendAttributes([], m.attributes);
    if attrs.None? {
      return None;
    }
    assert [] + A.Encode(m.attributes) == A.Encode(m.attributes);
    var out := dst + LE(|m.name|, 2) + m.name + LE(|attrs.value|, 4) + attrs.value + LE(|m.data|, 8) + m.data;
    assert out == dst + EncodeRecord(m);
    return Some(out);
  }

  lemma ReadRecordsStep(done: seq<Member>, b: bytes)
    requires b != []
    ensures ReadRecord(b).Bad? ==> ReadRecords(b).None?
    ensures ReadRecord(b).Got? ==>
              var m, rest := ReadRecord(b).value, ReadRecord(b).rest;
              && (ReadRecords(rest).None? ==> ReadRecords(b).None?)
              && (ReadRecords(rest).Some? ==>
                    && ReadRecords(b).Some?
                    && done + ReadRecords(b).value == done + [m] + ReadRecords(rest).value)
  {
    hide ReadRecord;
    if ReadRecord(b).Got? {
      var m, rest := ReadRecord(b).value, ReadRecord(b).rest;
      if ReadRecords(rest).Some? {
        assert ReadRecords(b).value == [m] + ReadRecords(rest).value;
      }
    }
  }

  /** ParseSolidStream: an offset advances over the stream, one record a turn. */
  method ParseSolidStream(stream: bytes) returns (r: Option<seq<Member>>)
    ensures r == Parse(stream)
  {
    hide ReadRecord, EncodeRecord, ValidMember;
    var members: seq<Member> := [];
    var off := 0;
    assert stream[off..] == stream;
    ghost var all := ReadRecords(stream);
    assert all.Some? ==> members + all.value == all.value;
    while off < |stream|
      invariant 0 <= off <= |stream|
      invariant members == [] ==> off == 0
      invariant ReadRecords(stream[off..]).None? ==> ReadRecords(stream).None?
      invariant ReadRecords(stream[off..]).Some? ==>
                  ReadRecords(stream) == Some(members + ReadRecords(stream[off..]).value)
      decreases |stream| - off
    {
      ghost var here := stream[off..];
      ReadRecordsStep(members, here);
      match ReadRecord(stream[off..])
      case Bad => return None;
      case Got(m, rest) =>
        members := members + [m];
        off := |stream| - |rest|;
        RecordCanonical(here);
        assert stream[off..] == rest;
    }
    assert stream[off..] == [];
    assert members + [] == members;
    return if |members| == 0 then None else Some(members);
  }
}
