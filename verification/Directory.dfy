/** The directory of a one-pass archive: its record codec (archive/directory.go) and the
    builder that collects it (io/directory.go). */
module Directory {
  import opened Bytes
  import opened Format
  import opened Varint
  import opened Names
  import A = Attributes
  import SI = SessionIndex

  const DIRECTORY_MAGIC: bytes := [0x53, 0x41, 0x52, 0x43, 0x44, 0x49, 0x52, 0x31] // "SARCDIR1"
  const MAX_DIRECTORY_SIZE := 16 * 0x10_0000
  const BUCKET_HUGE: byte := 4

  datatype Record = Record(offset: u64, name: bytes, attributes: A.Attributes, bucket: byte, codec: byte, solid: bool,
                           original: u64, stored: u64)

  /** What AppendDirectoryRecord accepts. */
  predicate Encodable(r: Record)
  {
    && ValidEntryName(r.name) && A.Valid(r.attributes)
    && (r.attributes.kind != A.KIND_REGULAR ==> r.original == 0 && r.stored == 0)
  }

  /** What ParseDirectory additionally checks. */
  predicate Known(r: Record)
  {
    r.bucket <= BUCKET_HUGE && (r.codec == CODEC_NONE || r.codec == CODEC_ZSTD)
  }

  function EncodeTail(r: Record): bytes
  {
    Uvarint(|A.Encode(r.attributes)|) + (A.Encode(r.attributes) + (Uvarint(r.original) + Uvarint(r.stored)))
  }

  function EncodeRecord(r: Record): bytes
  {
    Uvarint(r.offset) + (SI.EncodeName(r.name) + ([if r.solid then 1 else 0, r.bucket, r.codec] + EncodeTail(r)))
  }

  function EncodeRecords(rs: seq<Record>): bytes
  {
    if rs == [] then [] else EncodeRecord(rs[0]) + EncodeRecords(rs[1..])
  }

  datatype Tail = Tail(attributes: A.Attributes, original: u64, stored: u64)

  function ParseTail(b: bytes): (r: SI.Step<Tail>)
    ensures r.Ok? ==> |r.rest| <= |b| && A.Valid(r.value.attributes)
  {
    hide SI.Number, SI.Attrs, A.Valid;
    match SI.Attrs(b) case Panic => SI.Panic case Malformed => SI.Malformed case Ok(attrs, b1) =>
    match SI.Number(b1) case Panic => SI.Panic case Malformed => SI.Malformed case Ok(original, b2) =>
    match SI.Number(b2) case Panic => SI.Panic case Malformed => SI.Malformed case Ok(stored, b3) =>
    SI.Ok(Tail(attrs, original, stored), b3)
  }

  /** The checks at the end of directoryRecord. */
  function Checked(f: Front, t: Tail): (r: Option<Record>)
    ensures r.Some? && ValidEntryName(f.name) && A.Valid(t.attributes) ==> Encodable(r.value) && Known(r.value)
  {
    hide ValidEntryName, A.Valid;
    var r := Record(f.offset, f.name, t.attributes, f.bucket, f.codec, f.flags == 1, t.original, t.stored);
    if f.flags > 1 || !Known(r) || (t.attributes.kind != A.KIND_REGULAR && (t.original != 0 || t.stored != 0)) then None else Some(r)
  }

  datatype Front = Front(offset: u64, name: bytes, flags: byte, bucket: byte, codec: byte)

  function ParseFront(b: bytes): (r: SI.Step<Front>)
    ensures r.Ok? ==> |r.rest| < |b| && ValidEntryName(r.value.name)
  {
    hide SI.Number, SI.Name, SI.Slice, ValidEntryName;
    match SI.Number(b) case Panic => SI.Panic case Malformed => SI.Malformed case Ok(offset, b1) =>
    match SI.Name(b1) case Panic => SI.Panic case Malformed => SI.Malformed case Ok(name, b2) =>
    match SI.Slice(b2, 3) case Panic => SI.Panic case Malformed => SI.Malformed case Ok(f, b3) =>
    SI.Ok(Front(offset, name, f[0], f[1], f[2]), b3)
  }

  /** directoryRecord. */
  function ParseRecord(b: bytes): (r: SI.Step<Record>)
    ensures r.Ok? ==> |r.rest| < |b| && Encodable(r.value) && Known(r.value)
  {
    hide ParseFront, ParseTail, ValidEntryName, A.Valid, Encodable, Known, Checked;
    match ParseFront(b) case Panic => SI.Panic case Malformed => SI.Malformed case Ok(f, b1) =>
    match ParseTail(b1) case Panic => SI.Panic case Malformed => SI.Malformed case Ok(t, b2) =>
    match Checked(f, t) case None => SI.Malformed case Some(r) => SI.Ok(r, b2)
  }

  datatype Parsed = Parsed(records: seq<Record>) | Refused | Crashed

  function ParseRecords(b: bytes): Parsed
    decreases |b|
  {
    if b == [] then Parsed([])
    else match ParseRecord(b)
      case Panic => Crashed
      case Malformed => Refused
      case Ok(r, rest) =>
        match ParseRecords(rest) case Parsed(rs) => Parsed([r] + rs) case Refused => Refused case Crashed => Crashed
  }

  function ParseDirectory(b: bytes): Parsed
  {
    if |b| > MAX_DIRECTORY_SIZE || !(DIRECTORY_MAGIC <= b) then Refused else ParseRecords(b[|DIRECTORY_MAGIC|..])
  }

  /** What the records still to come add to those already read. */
  function Lead(rs: seq<Record>, p: Parsed): Parsed
  {
    match p case Parsed(more) => Parsed(rs + more) case Refused => Refused case Crashed => Crashed
  }

  /** ParseDirectory's loop. */
  method ReadAll(b: bytes) returns (r: Parsed)
    ensures r == ParseDirectory(b)
  {
    hide ParseRecord;
    if |b| > MAX_DIRECTORY_SIZE || !(DIRECTORY_MAGIC <= b) {
      return Refused;
    }
    var rest, rs: seq<Record> := b[|DIRECTORY_MAGIC|..], [];
    LeadNone(ParseRecords(rest));
    while rest != []
      invariant ParseDirectory(b) == Lead(rs, ParseRecords(rest))
      decreases |rest|
    {
      match ParseRecord(rest)
      case Panic => return Crashed;
      case Malformed => return Refused;
      case Ok(x, after) =>
        LeadStep(rs, x, ParseRecords(after));
        rs, rest := rs + [x], after;
    }
    assert rs + [] == rs;
    return Parsed(rs);
  }

  lemma LeadNone(p: Parsed)
    ensures Lead([], p) == p
  {
    assert p.Parsed? ==> [] + p.records == p.records;
  }

  lemma LeadStep(rs: seq<Record>, r: Record, p: Parsed)
    ensures Lead(rs + [r], p) == Lead(rs, Lead([r], p))
  {
    assert p.Parsed? ==> (rs + [r]) + p.records == rs + ([r] + p.records);
  }

  lemma RecordRoundTrip(r: Record, rest: bytes)
    requires Encodable(r) && Known(r)
    ensures ParseRecord(EncodeRecord(r) + rest) == SI.Ok(r, rest)
  {
    hide SI.Number, SI.Name, SI.Slice, SI.Attrs, SI.EncodeName, Uvarint, A.Encode, ValidEntryName, A.Valid, EncodeTail, ParseTail;
    var flags := [if r.solid then 1 else 0, r.bucket, r.codec];
    var tail := EncodeTail(r) + rest;
    assert EncodeRecord(r) + rest == Uvarint(r.offset) + (SI.EncodeName(r.name) + (flags + tail));
    SI.NumberRoundTrip(r.offset, SI.EncodeName(r.name) + (flags + tail));
    SI.NameRoundTrip(r.name, flags + tail);
    SliceRoundTrip(flags, tail);
    TailRoundTrip(r, rest);
  }

  lemma SliceRoundTrip(x: bytes, rest: bytes)
    ensures SI.Slice(x + rest, |x|) == SI.Ok(x, rest)
  {
    ReadBytesAppend(x, rest);
  }

  lemma TailRoundTrip(r: Record, rest: bytes)
    requires A.Valid(r.attributes)
    ensures ParseTail(EncodeTail(r) + rest) == SI.Ok(Tail(r.attributes, r.original, r.stored), rest)
  {
    hide SI.Number, SI.Attrs, Uvarint, A.Encode, A.Valid;
    var sizes := Uvarint(r.original) + (Uvarint(r.stored) + rest);
    var attrs := A.Encode(r.attributes);
    assert EncodeTail(r) + rest == Uvarint(|attrs|) + (attrs + sizes);
    SI.AttrsRoundTrip(r.attributes, sizes);
    SI.NumberRoundTrip(r.original, Uvarint(r.stored) + rest);
    SI.NumberRoundTrip(r.stored, rest);
  }

  lemma {:induction false} RecordsRoundTrip(rs: seq<Record>)
    requires forall i :: 0 <= i < |rs| ==> Encodable(rs[i]) && Known(rs[i])
    ensures ParseRecords(EncodeRecords(rs)) == Parsed(rs)
  {
    hide ParseRecord, EncodeRecord, Encodable;
    if rs != [] {
      RecordRoundTrip(rs[0], EncodeRecords(rs[1..]));
      RecordsRoundTrip(rs[1..]);
      assert EncodeRecords(rs) != [] by { NotEmpty(rs[0], EncodeRecords(rs[1..])); }
      assert rs == [rs[0]] + rs[1..];
    }
  }

  lemma NotEmpty(r: Record, rest: bytes)
    requires ParseRecord(EncodeRecord(r) + rest) == SI.Ok(r, rest)
    ensures EncodeRecord(r) + rest != []
  {
    hide EncodeRecord;
  }

  /** Reading a directory gives back the records appended to it. */
  lemma DirectoryRoundTrip(rs: seq<Record>)
    requires forall i :: 0 <= i < |rs| ==> Encodable(rs[i]) && Known(rs[i])
    requires |DIRECTORY_MAGIC + EncodeRecords(rs)| <= MAX_DIRECTORY_SIZE
    ensures ParseDirectory(DIRECTORY_MAGIC + EncodeRecords(rs)) == Parsed(rs)
  {
    hide ParseRecords, EncodeRecords, Encodable;
    RecordsRoundTrip(rs);
    assert (DIRECTORY_MAGIC + EncodeRecords(rs))[8..] == EncodeRecords(rs);
  }

  /** An accepted directory holds only valid records. */
  lemma {:induction false} ParsedRecordsAreValid(b: bytes)
    requires ParseRecords(b).Parsed?
    ensures forall i :: 0 <= i < |ParseRecords(b).records| ==> Encodable(ParseRecords(b).records[i]) && Known(ParseRecords(b).records[i])
    decreases |b|
  {
    hide ParseRecord, Encodable, Known;
    if b != [] {
      ParsedRecordsAreValid(ParseRecord(b).rest);
    }
  }

  // ---- directoryBuilder ----

  lemma {:induction false} EncodeRecordsSnoc(rs: seq<Record>, r: Record)
    ensures EncodeRecords(rs + [r]) == EncodeRecords(rs) + EncodeRecord(r)
  {
    hide EncodeRecord;
    if rs == [] {
      assert (rs + [r])[1..] == [];
    } else {
      EncodeRecordsSnoc(rs[1..], r);
      assert (rs + [r])[1..] == rs[1..] + [r];
    }
  }

  /** The records can all be encoded, and fit into one directory. */
  predicate Fits(rs: seq<Record>)
  {
    (forall i :: 0 <= i < |rs| ==> Encodable(rs[i])) && |DIRECTORY_MAGIC| + |EncodeRecords(rs)| <= MAX_DIRECTORY_SIZE
  }

  lemma {:induction false} FitsPrefix(rs: seq<Record>, more: seq<Record>)
    requires Fits(rs + more)
    ensures Fits(rs)
    decreases |more|
  {
    hide Encodable, EncodeRecord;
    if more == [] {
      assert rs + more == rs;
    } else {
      assert (rs + [more[0]]) + more[1..] == rs + more;
      FitsPrefix(rs + [more[0]], more[1..]);
      EncodeRecordsSnoc(rs, more[0]);
      forall i | 0 <= i < |rs| ensures Encodable(rs[i]) {
        assert rs[i] == (rs + [more[0]])[i];
      }
    }
  }

  class DirectoryBuilder {
    var plaintext: bytes
    var full: bool
    ghost var records: seq<Record>

    /** Until it outgrows its limit, the builder holds exactly the records added. */
    ghost predicate Valid()
      reads this
    {
      && (forall i :: 0 <= i < |records| ==> Encodable(records[i]))
      && (!full ==> plaintext == DIRECTORY_MAGIC + EncodeRecords(records) && |plaintext| <= MAX_DIRECTORY_SIZE)
      && (full ==> plaintext == [])
    }

    constructor ()
      ensures Valid() && !full && records == []
    {
      plaintext, full, records := DIRECTORY_MAGIC, false, [];
    }

    /** add: false is a fatal error, for a record that cannot be encoded. */
    method Add(r: Record) returns (ok: bool)
      requires Valid()
      modifies this
      ensures Valid() && (old(full) ==> full)
      ensures ok == (old(full) || Encodable(r))
      ensures ok && !full ==> records == old(records) + [r]
      ensures !ok ==> records == old(records) && full == old(full)
      ensures !old(full) ==> (ok && !full <==> Fits(old(records) + [r]))
    {
      hide Encodable, EncodeRecord;
      if full {
        return true;
      }
      assert (records + [r])[|records|] == r;
      if !Encodable(r) {
        return false;
      }
      EncodeRecordsSnoc(records, r);
      var out := plaintext + EncodeRecord(r);
      assert out == DIRECTORY_MAGIC + (EncodeRecords(records) + EncodeRecord(r));
      records := records + [r];
      if |out| > MAX_DIRECTORY_SIZE {
        plaintext, full := [], true;
      } else {
        plaintext := out;
      }
      return true;
    }
  }
}
