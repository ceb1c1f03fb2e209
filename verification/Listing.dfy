/** Listing a one-pass archive by scanning its entries (io/extractor.go, io/solid.go) and
    through its directory (io/directory.go), and the archiver that writes both
    (archive/writer.go, io/directory.go). */
module Listing {
  import opened Bytes
  import opened Format
  import opened Container
  import A = Attributes
  import D = Decryption
  import SS = SolidStream
  import SI = SessionIndex
  import Dir = Directory
  import Sig = Signature

  // ---- Listings ----

  datatype Listed = Listed(name: bytes, bucket: byte, codec: byte, solid: bool, original: int, stored: int,
                           kind: byte, mode: u32, linkTarget: bytes, modTime: i64)

  datatype Row = Row(listed: Listed) | Unreadable(code: Code)

  /** archive.BucketizeSize. */
  function Bucketize(n: int): (b: byte)
    ensures b <= Dir.BUCKET_HUGE
  {
    if n <= 1024 then 0 else if n <= 10240 then 1 else if n <= 102400 then 2 else if n <= 1048576 then 3 else 4
  }

  /** bucketName: unknown buckets show as the largest. */
  function BucketName(b: byte): byte { if b < 4 then b else 4 }

  /** withAttributes. */
  function WithAttributes(name: bytes, bucket: byte, codec: byte, solid: bool, original: int, stored: int,
                          attrs: Option<A.Attributes>, permissions: u32): Listed
  {
    match attrs
    case None => Listed(name, bucket, codec, solid, original, stored, A.KIND_REGULAR, permissions % 512, [], 0)
    case Some(a) => Listed(name, bucket, codec, solid, original, stored, a.kind, a.mode, a.linkTarget, a.modTime)
  }

  /** listFileBody: data blocks are skipped, only the trailer is opened. */
  function ListFile(keys: Keys, h: Head, b: bytes): (r: Step<seq<Row>>)
    ensures |r.rest| <= |b|
  {
    match keys.name(h.salt, h.meta.nameBlob)
    case None => Skipped(SkipBody(b), AuthFailed)
    case Some(name) =>
      match SkipPadding(b)
      case None => Err(false, Truncated, [])
      case Some(b1) =>
        match SkipDataBlocks(b1)
        case Err(f, c, rest) => Err(f, c, rest)
        case Ok(stored, b2) =>
          match ReadTrailer(b2)
          case Err(f, c, rest) => Err(f, c, rest)
          case Ok(s, rest) =>
            match FileRow(keys, h.salt, h.meta, name, s, stored)
            case Row(listed) => Ok([Row(listed)], rest)
            case Unreadable(code) => Err(false, code, rest)
  }

  function FileRow(keys: Keys, salt: bytes, meta: Meta, name: bytes, trailer: Sealed, stored: int): Row
  {
    match keys.trailer(salt, trailer)
    case None => Unreadable(AuthFailed)
    case Some(p) =>
      if |p| != TRAILER_PAYLOAD_SIZE then Unreadable(IntegrityFail)
      else Row(WithAttributes(name, BucketName(meta.bucket), meta.codec, false, ToSigned(FromLE64(p[HMAC_SIZE..])), stored,
                              meta.attributes, meta.permissions))
  }

  /** A file whose metadata has no attributes lists as a regular file with its permission bits. */
  lemma PlainFileListed(keys: Keys, salt: bytes, meta: Meta, name: bytes, trailer: Sealed, stored: int)
    requires meta.attributes.None? && keys.trailer(salt, trailer).Some? && |keys.trailer(salt, trailer).value| == 40
    ensures var row := FileRow(keys, salt, meta, name, trailer, stored);
            && row.Row? && row.listed.name == name && row.listed.kind == A.KIND_REGULAR && row.listed.linkTarget == [] && row.listed.modTime == 0
            && row.listed.mode < 512 && (meta.permissions - row.listed.mode) % 512 == 0
            && row.listed.codec == meta.codec && !row.listed.solid && row.listed.stored == stored
            && (FromLE(keys.trailer(salt, trailer).value[32..]) < TWO_63 ==> row.listed.original == FromLE(keys.trailer(salt, trailer).value[32..]))
  {
    hide FromLE;
  }

  /** A member's share of its group's stored size. */
  function Share(size: nat, stored: nat, stream: nat): nat { if stream == 0 then 0 else size * stored / stream }

  function MemberRow(m: SS.Member, codec: byte, stored: nat, stream: nat): Row
  {
    Row(WithAttributes(m.name, BucketName(Bucketize(|m.data|)), codec, true, |m.data|, Share(|m.data|, stored, stream), Some(m.attributes), 0))
  }

  function MemberRows(g: Solid, codec: byte): (rows: seq<Row>)
    ensures |rows| == |g.members|
    ensures forall i :: 0 <= i < |rows| ==> rows[i] == MemberRow(g.members[i], codec, g.stored, |g.stream|)
  {
    seq(|g.members|, i requires 0 <= i < |g.members| => MemberRow(g.members[i], codec, g.stored, |g.stream|))
  }

  /** listEntry, after the type byte. */
  function ListEntry(keys: Keys, kind: byte, b: bytes): (r: Step<seq<Row>>)
    ensures |r.rest| <= |b|
  {
    match ReadHead(keys, b)
    case Err(f, c, rest) => Err(f, c, rest)
    case Ok(h, b1) =>
      if kind == ENTRY_SOLID then
        match ReadSolid(keys, h, b1)
        case Err(f, c, rest) => Err(f, c, rest)
        case Ok(g, rest) => Ok(MemberRows(g, h.meta.codec), rest)
      else ListFile(keys, h, b1)
  }

  datatype Scan = Scan(rows: seq<Row>, end: RunEnd)

  /** scanList. */
  function ScanFrom(keys: Keys, b: bytes): Scan
    decreases |b|
  {
    match NextEntryType(keys, b)
    case Broken(code) => Scan([], Stopped(code))
    case AtEnd(rest) => Scan([], Complete(rest))
    case Found(kind, body) =>
      match ListEntry(keys, kind, body)
      case Ok(rows, rest) =>
        var more := ScanFrom(keys, rest);
        more.(rows := rows + more.rows)
      case Err(fatal, code, rest) =>
        if fatal then Scan([], Stopped(code))
        else
          var more := ScanFrom(keys, rest);
          more.(rows := [Unreadable(code)] + more.rows)
  }

  method ScanList(se: SafeExtractor) returns (rows: seq<Row>, end: RunEnd)
    modifies se
    ensures Scan(rows, end) == ScanFrom(se.keys, old(se.r))
  {
    hide NextEntryType, ListEntry;
    rows := [];
    ghost var whole := ScanFrom(se.keys, se.r);
    while true
      invariant var rest := ScanFrom(se.keys, se.r); whole == rest.(rows := rows + rest.rows)
      decreases |se.r|
    {
      var next := se.NextType();
      match next
      case Broken(code) => return rows, Stopped(code);
      case AtEnd(rest) => return rows, Complete(rest);
      case Found(kind, body) =>
        var step := ListEntry(se.keys, kind, body);
        se.r := step.rest;
        if step.Err? && step.fatal {
          return rows, Stopped(step.code);
        }
        var found := if step.Ok? then step.value else [Unreadable(step.code)];
        ghost var more := ScanFrom(se.keys, se.r).rows;
        assert rows + (found + more) == (rows + found) + more;
        rows := rows + found;
    }
  }

  // ---- What an entry lists, by its contents alone ----

  function EntryRows(keys: Keys, e: Entry): seq<Row>
  {
    match keys.meta(e.salt, e.meta)
    case None => [Unreadable(AuthFailed)]
    case Some(meta) =>
      if e.kind == ENTRY_SOLID then
        match OpenSolid(keys, meta, e)
        case BadGroup(code) => [Unreadable(code)]
        case Group(g) => MemberRows(g, meta.codec)
      else
        match keys.name(e.salt, meta.nameBlob)
        case None => [Unreadable(AuthFailed)]
        case Some(name) => [FileRow(keys, e.salt, meta, name, e.trailer, Stored(e.blocks))]
  }

  lemma FileLists(keys: Keys, meta: Meta, e: Entry, more: bytes)
    requires WellFramed(e)
    ensures ListFile(keys, Head(e.salt, meta), EncodeRest(e) + more) ==
              match keys.name(e.salt, meta.nameBlob)
              case None => Err(false, AuthFailed, more)
              case Some(name) =>
                match FileRow(keys, e.salt, meta, name, e.trailer, Stored(e.blocks))
                case Row(listed) => Ok([Row(listed)], more)
                case Unreadable(code) => Err(false, code, more)
  {
    hide EncodeRest, EncodeBlocks, EncodeTrailer, SkipPadding, SkipBody, SkipDataBlocks, ReadTrailer, FileRow;
    BodySkips(e, more);
    RestLayout(e, more);
    BlocksSkip(e.blocks, EncodeTrailer(e) + more);
    TrailerReads(e, more);
  }

  /** Listing an entry gives its own rows, and leaves the reader behind it. */
  lemma EntryLists(keys: Keys, e: Entry, more: bytes)
    requires WellFramed(e)
    ensures var step := ListEntry(keys, e.kind, EncodeBody(e) + more);
            && step.rest == more && (step.Err? ==> !step.fatal)
            && EntryRows(keys, e) == (if step.Ok? then step.value else [Unreadable(step.code)])
  {
    hide EncodeBody, EncodeRest, ReadHead, ReadSolid, ListFile, OpenSolid, FileRow, WellFramed;
    HeadReads(keys, e, more);
    var meta := keys.meta(e.salt, e.meta);
    if meta.Some? {
      SolidReads(keys, meta.value, e, more);
      FileLists(keys, meta.value, e, more);
    }
  }

  function AllRows(keys: Keys, es: seq<Entry>): seq<Row>
  {
    if es == [] then [] else EntryRows(keys, es[0]) + AllRows(keys, es[1..])
  }

  lemma {:induction false} ScansEveryEntry(keys: Keys, es: seq<Entry>, trail: bytes)
    requires DataEntries(es) && NextEntryType(keys, trail).AtEnd?
    ensures ScanFrom(keys, EncodeEntries(es) + trail) == Scan(AllRows(keys, es), Complete(NextEntryType(keys, trail).rest))
    decreases |es|
  {
    hide EncodeEntry, EntryRows, DataEntry, NextEntryType, ScanFrom;
    if es == [] {
      assert EncodeEntries(es) + trail == trail;
      ScansNothing(keys, trail);
    } else {
      var e, more := es[0], EncodeEntries(es[1..]) + trail;
      assert EncodeEntries(es) + trail == EncodeEntry(e) + more;
      ScansOne(keys, e, more);
      ScansEveryEntry(keys, es[1..], trail);
    }
  }

  lemma ScansNothing(keys: Keys, trail: bytes)
    requires NextEntryType(keys, trail).AtEnd?
    ensures ScanFrom(keys, trail) == Scan([], Complete(NextEntryType(keys, trail).rest))
  {
    hide NextEntryType;
  }

  lemma ScansOne(keys: Keys, e: Entry, more: bytes)
    requires DataEntry(e)
    ensures ScanFrom(keys, EncodeEntry(e) + more) == ScanFrom(keys, more).(rows := EntryRows(keys, e) + ScanFrom(keys, more).rows)
  {
    hide EncodeBody, EncodeEntry, ListEntry, EntryRows, WellFramed, NextEntryType;
    NextIsEntry(keys, e, more);
    EntryLists(keys, e, more);
  }

  // ---- ArchiveWriter ----

  class ArchiveWriter {
    var out: bytes
    var entryOffset: nat
    var entryStored: int

    constructor (header: bytes)
      ensures out == header
    {
      out, entryOffset, entryStored := header, 0, 0;
    }

    /** BeginFileEntry: everything up to the data blocks. */
    method BeginFileEntry(e: Entry)
      modifies this
      ensures entryOffset == |old(out)| && entryStored == 0
      ensures out == old(out) + [e.kind] + e.salt + e.frame + EncodeSealed(e.meta) + EncodePad(e.pad)
    {
      entryOffset, entryStored := |out|, 0;
      out := out + [e.kind];
      out := out + e.salt;
      out := out + e.frame;
      out := out + EncodeSealed(e.meta);
      out := out + EncodePad(e.pad);
    }

    method AppendDataBlock(s: Sealed)
      modifies this`out, this`entryStored
      ensures out == old(out) + EncodeSealed(s) && entryStored == old(entryStored) + |s.ct| - TAG_SIZE
    {
      entryStored := entryStored + |s.ct| - TAG_SIZE;
      out := out + EncodeSealed(s);
    }

    method EndFileEntry(e: Entry)
      modifies this`out
      ensures out == old(out) + SENTINEL + EncodeTrailer(e)
    {
      out := out + SENTINEL;
      out := out + EncodeTrailer(e);
    }

    /** WriteFileEntry, and the same entry streamed block by block. LastEntry then gives the
        offset of its type byte and its stored payload size. */
    method WriteFileEntry(e: Entry)
      modifies this
      ensures out == old(out) + EncodeEntry(e) && entryOffset == |old(out)| && entryStored == Stored(e.blocks)
    {
      hide EncodeSealed, EncodePad, EncodeTrailer;
      BeginFileEntry(e);
      ghost var head := out;
      ghost var all := EncodeBlocks(e.blocks);
      assert e.blocks[0..] == e.blocks;
      for i := 0 to |e.blocks|
        invariant out + EncodeBlocks(e.blocks[i..]) == head + all && entryOffset == |old(out)|
        invariant entryStored + Stored(e.blocks[i..]) == Stored(e.blocks)
      {
        assert e.blocks[i..][1..] == e.blocks[i + 1..];
        ghost var before := out;
        AppendDataBlock(e.blocks[i]);
        assert before + (EncodeSealed(e.blocks[i]) + EncodeBlocks(e.blocks[i + 1..])) == out + EncodeBlocks(e.blocks[i + 1..]);
      }
      assert e.blocks[|e.blocks|..] == [];
      EndFileEntry(e);
      assert out == head + all + EncodeTrailer(e);
      EntryPieces(old(out), e);
    }

    method Put(b: bytes)
      modifies this`out
      ensures out == old(out) + b
    {
      out := out + b;
    }
  }

  lemma EntryPieces(out: bytes, e: Entry)
    ensures out + [e.kind] + e.salt + e.frame + EncodeSealed(e.meta) + EncodePad(e.pad) + EncodeBlocks(e.blocks) + EncodeTrailer(e)
         == out + EncodeEntry(e)
  {
    hide EncodeSealed, EncodePad, EncodeTrailer, EncodeBlocks;
  }

  // ---- What the archiver puts into an entry ----

  datatype Item =
    | File(name: bytes, attributes: A.Attributes, bucket: byte, codec: byte, original: u64)
    | Group(members: seq<SS.Member>, codec: byte)

  /** Entry `e` opens to item `x`: sealed values open to what was sealed. Directories and
      links carry no data. */
  ghost predicate Holds(keys: Keys, x: Item, e: Entry)
  {
    && DataEntry(e) && keys.meta(e.salt, e.meta).Some?
    && var m := keys.meta(e.salt, e.meta).value;
       match x
       case File(name, attributes, bucket, codec, original) =>
         && e.kind == ENTRY_FILE && m.bucket == bucket <= Dir.BUCKET_HUGE && m.codec == codec <= CODEC_ZSTD && m.attributes == Some(attributes)
         && keys.name(e.salt, m.nameBlob) == Some(name)
         && keys.trailer(e.salt, e.trailer).Some? && |keys.trailer(e.salt, e.trailer).value| == TRAILER_PAYLOAD_SIZE
         && FromLE64(keys.trailer(e.salt, e.trailer).value[HMAC_SIZE..]) == original < TWO_63
         && (attributes.kind != A.KIND_REGULAR ==> e.blocks == [] && original == 0)
       case Group(members, codec) =>
         && e.kind == ENTRY_SOLID && m.codec == codec <= CODEC_ZSTD
         && members != [] && (forall i :: 0 <= i < |members| ==> SS.ValidMember(members[i]))
         && OpenSolid(keys, m, e).Group? && OpenSolid(keys, m, e).solid.stream == SS.EncodeStream(members)
  }

  /** Sealing adds exactly a tag. */
  ghost predicate TagOnly(keys: Keys)
  {
    forall salt, s :: keys.block(salt, CODEC_NONE, s).Plain? ==> |keys.block(salt, CODEC_NONE, s).plaintext| + TAG_SIZE == |s.ct|
  }

  lemma {:induction false} PlainLengths(keys: Keys, salt: bytes, blocks: seq<Sealed>, n: nat)
    requires TagOnly(keys) && n <= |blocks|
    ensures var x := D.Stream(Opens(keys, salt, CODEC_NONE, blocks), D.Sentinel);
            var (sunk, err) := D.Prefix(x, i => false, n);
            err.None? ==> |Flatten(sunk)| == Stored(blocks[..n])
  {
    var x := D.Stream(Opens(keys, salt, CODEC_NONE, blocks), D.Sentinel);
    if n == 0 {
      assert blocks[..n] == [];
    } else {
      PlainLengths(keys, salt, blocks, n - 1);
      var (before, err) := D.Prefix(x, i => false, n - 1);
      if err.None? && x.blocks[n - 1].Plain? {
        FlattenSnoc(before, x.blocks[n - 1].plaintext);
        assert blocks[..n] == blocks[..n - 1] + [blocks[n - 1]];
        StoredSnoc(blocks[..n - 1], blocks[n - 1]);
      }
    }
  }

  lemma {:induction false} StoredSnoc(blocks: seq<Sealed>, s: Sealed)
    ensures Stored(blocks + [s]) == Stored(blocks) + |s.ct| - TAG_SIZE
    decreases |blocks|
  {
    if blocks == [] {
      assert (blocks + [s])[1..] == [];
    } else {
      StoredSnoc(blocks[1..], s);
      assert (blocks + [s])[1..] == blocks[1..] + [s];
    }
  }

  /** A group's decrypted payload is as long as its stored size. */
  lemma StoredIsPayload(keys: Keys, m: Meta, e: Entry)
    requires TagOnly(keys) && OpenSolid(keys, m, e).Group?
    ensures OpenSolid(keys, m, e).solid.stored == Stored(e.blocks)
  {
    hide UnpackSolid, TrailerProblem, SS.Parse, TagOnly, Opens, D.Prefix, Flatten;
    PlainLengths(keys, e.salt, e.blocks, |e.blocks|);
    assert e.blocks[..|e.blocks|] == e.blocks;
  }

  /** Members of a group that opens are what its records say, and have passed the parser. */
  lemma GroupMembers(keys: Keys, x: Item, e: Entry)
    requires TagOnly(keys) && Holds(keys, x, e) && x.Group? && 0 <= Stored(e.blocks)
    ensures OpenSolid(keys, keys.meta(e.salt, e.meta).value, e).solid == Solid(SS.EncodeStream(x.members), x.members, Stored(e.blocks))
  {
    hide SS.EncodeStream, UnpackSolid, OpenBlocks, TrailerProblem, SS.Parse, WellFramed, SS.ValidMember, TagOnly;
    StoredIsPayload(keys, keys.meta(e.salt, e.meta).value, e);
    SolidParsed(keys, keys.meta(e.salt, e.meta).value, e);
    SS.ParseIffEncode(SS.EncodeStream(x.members), x.members);
  }

  lemma SolidParsed(keys: Keys, m: Meta, e: Entry)
    requires OpenSolid(keys, m, e).Group?
    ensures SS.Parse(OpenSolid(keys, m, e).solid.stream) == Some(OpenSolid(keys, m, e).solid.members)
  {
    hide UnpackSolid, OpenBlocks, TrailerProblem, SS.Parse;
  }

  /** The directory records of an item whose entry starts at `offset`. */
  function RecordsOf(x: Item, offset: u64, stored: u64): (rs: seq<Dir.Record>)
  {
    match x
    case File(name, attributes, bucket, codec, original) => [Dir.Record(offset, name, attributes, bucket, codec, false, original, stored)]
    case Group(members, codec) =>
      seq(|members|, i requires 0 <= i < |members| => MemberRecord(members[i], codec, offset, stored, |SS.EncodeStream(members)|))
  }

  function MemberRecord(m: SS.Member, codec: byte, offset: u64, stored: u64, stream: nat): Dir.Record
  {
    var size := |m.data| % TWO_64;
    Dir.Record(offset, m.name, m.attributes, Bucketize(|m.data|), codec, true, size, Share(|m.data|, stored, stream) % TWO_64)
  }

  /** directoryListing of one record. */
  function RecordRow(r: Dir.Record): Row
  {
    Row(WithAttributes(r.name, BucketName(r.bucket), r.codec, r.solid, ToSigned(r.original), ToSigned(r.stored), Some(r.attributes), 0))
  }

  function RecordRows(rs: seq<Dir.Record>): (rows: seq<Row>)
    ensures |rows| == |rs| && forall i :: 0 <= i < |rs| ==> rows[i] == RecordRow(rs[i])
  {
    seq(|rs|, i requires 0 <= i < |rs| => RecordRow(rs[i]))
  }

  /** directoryListing. */
  method DirectoryListing(records: seq<Dir.Record>) returns (rows: seq<Row>)
    ensures rows == RecordRows(records)
  {
    rows := [];
    for i := 0 to |records|
      invariant rows == RecordRows(records)[..i]
    {
      rows := rows + [RecordRow(records[i])];
    }
  }

  // ---- Record by record, the directory lists what the scan lists ----

  lemma {:induction false} StoredBounds(blocks: seq<Sealed>)
    requires FramedBlocks(blocks)
    ensures 0 <= Stored(blocks) <= |EncodeBlocks(blocks)|
    decreases |blocks|
  {
    if blocks != [] {
      StoredBounds(blocks[1..]);
    }
  }

  lemma ShareBound(size: nat, stored: nat, stream: nat)
    requires size <= stream && stream > 0
    ensures Share(size, stored, stream) <= stored
  {
    assert size * stored <= stream * stored;
    DivBound(size * stored, stream, stored);
  }

  lemma DivBound(a: nat, k: nat, q: nat)
    requires k > 0 && a <= k * q
    ensures a / k <= q
  {
    SI.QuotientBound(q + 1, k, a);
    assert (q + 1) * k == k * q + k;
  }

  lemma {:induction false} MemberInStream(ms: seq<SS.Member>, i: nat)
    requires i < |ms|
    ensures |ms[i].data| <= |SS.EncodeStream(ms)| && |SS.EncodeStream(ms)| > 0
    decreases |ms|
  {
    if i > 0 {
      MemberInStream(ms[1..], i - 1);
    }
  }

  lemma MemberAgrees(ms: seq<SS.Member>, i: nat, codec: byte, offset: u64, stored: u64)
    requires i < |ms| && stored < TWO_63 && |ms[i].data| < TWO_63
    ensures var n := |SS.EncodeStream(ms)|;
            RecordRow(MemberRecord(ms[i], codec, offset, stored, n)) == MemberRow(ms[i], codec, stored, n)
  {
    hide SS.EncodeStream, Share, WithAttributes, Bucketize;
    MemberInStream(ms, i);
    ShareBound(|ms[i].data|, stored, |SS.EncodeStream(ms)|);
  }

  lemma ItemAgrees(keys: Keys, x: Item, e: Entry, offset: u64)
    requires TagOnly(keys) && Holds(keys, x, e) && Stored(e.blocks) < TWO_63
    ensures 0 <= Stored(e.blocks) && RecordRows(RecordsOf(x, offset, Stored(e.blocks))) == EntryRows(keys, e)
  {
    hide OpenSolid, SS.EncodeStream, MemberRecord, MemberRow, WellFramed;
    BlocksFramed(e);
    StoredBounds(e.blocks);
    var rows := RecordRows(RecordsOf(x, offset, Stored(e.blocks)));
    if x.Group? {
      GroupAgrees(keys, x, e, offset);
    } else {
      assert rows == [RecordRow(RecordsOf(x, offset, Stored(e.blocks))[0])];
    }
  }

  lemma BlocksFramed(e: Entry)
    requires WellFramed(e)
    ensures FramedBlocks(e.blocks)
  {
  }

  lemma GroupAgrees(keys: Keys, x: Item, e: Entry, offset: u64)
    requires TagOnly(keys) && Holds(keys, x, e) && x.Group? && 0 <= Stored(e.blocks) < TWO_63
    ensures RecordRows(RecordsOf(x, offset, Stored(e.blocks))) == EntryRows(keys, e)
  {
    hide SS.EncodeStream, MemberRecord, MemberRow, WellFramed, OpenSolid, TagOnly;
    var ms, stored := x.members, Stored(e.blocks);
    var rows := RecordRows(RecordsOf(x, offset, stored));
    GroupMembers(keys, x, e);
    forall i | 0 <= i < |ms| ensures rows[i] == MemberRow(ms[i], x.codec, stored, |SS.EncodeStream(ms)|) {
      MemberAgrees(ms, i, x.codec, offset, stored);
    }
  }

  // ---- Reading the directory by random access ----

  /** readPayloadBody, after the type byte: every failure ends the read. */
  function ReadPayload(keys: Keys, b: bytes, limit: nat): Option<bytes>
  {
    match ReadHead(keys, b) case Err(_, _, _) => None case Ok(h, b1) =>
    match SkipPadding(b1) case None => None case Some(b2) =>
    var bs := ReadBlocks(b2);
    var (data, problem) := StreamBlocks(keys, h.salt, CODEC_NONE, bs, i => false);
    if problem.Some? || |data| > limit then None else
    match ReadTrailer(bs.rest) case Err(_, _, _) => None case Ok(s, _) =>
    if TrailerProblem(keys, h.salt, s, data).Some? then None else Some(data)
  }

  const DIRECTORY_TAIL := LOCATOR_SIZE + 1 + FOOTER_SIZE

  datatype DirectoryRead = NoDirectory | Damaged | Panicked | Directory(records: seq<Dir.Record>)

  predicate Inside(rs: seq<Dir.Record>, lo: nat, hi: nat) { forall i :: 0 <= i < |rs| ==> lo <= rs[i].offset < hi }

  /** readDirectory of a file whose header ends at `h`. */
  function ReadDirectory(keys: Keys, file: bytes, h: nat): DirectoryRead
  {
    var proper := Sig.SplitFile(file).0;
    var tail := proper - DIRECTORY_TAIL;
    if tail < h || proper > |file| then NoDirectory
    else match ParseLocator(file[tail..tail + LOCATOR_SIZE])
      case None => NoDirectory
      case Some(offset) =>
        if file[tail + LOCATOR_SIZE] != ENTRY_END || offset < h || offset >= tail || file[offset] != ENTRY_DIRECTORY then Damaged
        else match ReadPayload(keys, file[offset + 1..tail], Dir.MAX_DIRECTORY_SIZE)
          case None => Damaged
          case Some(plaintext) =>
            match Dir.ParseDirectory(plaintext)
            case Parsed(rs) => if Inside(rs, h, offset) then Directory(rs) else Damaged
            case Refused => Damaged
            case Crashed => Panicked
  }

  /** A directory that is read, from whatever bytes, points only at entries between the header
      and the last 82 bytes of the archive proper, and its records could have been written. */
  lemma DirectoryIsConfined(keys: Keys, file: bytes, h: nat)
    requires ReadDirectory(keys, file, h).Directory?
    ensures var rs := ReadDirectory(keys, file, h).records;
            forall i :: 0 <= i < |rs| ==>
              && h <= rs[i].offset < Sig.SplitFile(file).0 - 82 && Sig.SplitFile(file).0 <= |file|
              && Dir.Encodable(rs[i]) && Dir.Known(rs[i])
  {
    hide ReadPayload, Dir.ParseRecords, Dir.Encodable, Dir.Known, Sig.SplitFile, ParseLocator;
    var tail := Sig.SplitFile(file).0 - DIRECTORY_TAIL;
    var offset := ParseLocator(file[tail..tail + LOCATOR_SIZE]).value;
    var plaintext := ReadPayload(keys, file[offset + 1..tail], Dir.MAX_DIRECTORY_SIZE).value;
    Dir.ParsedRecordsAreValid(plaintext[|Dir.DIRECTORY_MAGIC|..]);
  }

  /** Entry `e` seals payload `p` whole. */
  ghost predicate Seals(keys: Keys, p: bytes, e: Entry)
  {
    && WellFramed(e) && e.kind == ENTRY_DIRECTORY && keys.meta(e.salt, e.meta).Some?
    && OpenBlocks(keys, e.salt, CODEC_NONE, e.blocks, i => false) == (p, None)
    && TrailerProblem(keys, e.salt, e.trailer, p).None?
  }

  lemma PayloadReads(keys: Keys, p: bytes, e: Entry, limit: nat)
    requires Seals(keys, p, e) && |p| <= limit
    ensures ReadPayload(keys, EncodeBody(e), limit) == Some(p)
  {
    hide EncodeBody, EncodeRest, EncodeBlocks, EncodeTrailer, SkipPadding, ReadHead, ReadBlocks, ReadTrailer, StreamBlocks, OpenBlocks, TrailerProblem, WellFramed;
    assert EncodeBody(e) + [] == EncodeBody(e);
    HeadReads(keys, e, []);
    RestLayout(e, []);
    BlocksFramed(e);
    BlocksRead(e.blocks, EncodeTrailer(e) + []);
    NoReadError(keys, e.salt, CODEC_NONE, Blocks(e.blocks, D.Sentinel, EncodeTrailer(e) + []), i => false);
    TrailerReads(e, []);
  }

  /** Directory, locator, end marker and footer. */
  function Trail(e: Entry, offset: u64, footer: bytes): bytes { EncodeEntry(e) + (EncodeLocator(offset) + ([ENTRY_END] + footer)) }

  /** A scan passes over the directory and its locator. */
  lemma TrailEnds(keys: Keys, p: bytes, e: Entry, offset: u64, footer: bytes)
    requires Seals(keys, p, e)
    ensures NextEntryType(keys, Trail(e, offset, footer)) == AtEnd(footer)
  {
    hide EncodeBody, EncodeRest, ReadHead, SkipBody, ParseLocator, EncodeLocator, WellFramed, OpenBlocks, TrailerProblem;
    var end := [ENTRY_END] + footer;
    var b1 := EncodeLocator(offset) + end;
    var b := Trail(e, offset, footer);
    assert b[0] == ENTRY_DIRECTORY && b[1..] == EncodeBody(e) + b1;
    HeadReads(keys, e, b1);
    BodySkips(e, b1);
    assert SkipDirectory(keys, b[1..]) == Some(b1);
    assert NextEntryType(keys, b) == NextEntryType(keys, b1);
    LocatorRoundTrip(offset);
    LocatorStart(offset);
    assert b1[..LOCATOR_SIZE] == EncodeLocator(offset) && b1[LOCATOR_SIZE..] == end && b1[0] == ENTRY_LOCATOR;
    assert NextEntryType(keys, b1) == NextEntryType(keys, end);
    assert end[1..] == footer;
  }

  lemma LocatorStart(offset: u64)
    ensures EncodeLocator(offset)[0] == ENTRY_LOCATOR
  {
  }

  lemma DirectoryReads(keys: Keys, body: bytes, e: Entry, rs: seq<Dir.Record>, h: nat, footer: bytes, file: bytes)
    requires h <= |body| < TWO_63 && |footer| == FOOTER_SIZE
    requires Seals(keys, Dir.DIRECTORY_MAGIC + Dir.EncodeRecords(rs), e)
    requires |Dir.DIRECTORY_MAGIC + Dir.EncodeRecords(rs)| <= Dir.MAX_DIRECTORY_SIZE
    requires (forall i :: 0 <= i < |rs| ==> Dir.Encodable(rs[i]) && Dir.Known(rs[i])) && Inside(rs, h, |body|)
    requires var proper := body + Trail(e, |body|, footer); proper <= file && Sig.SplitFile(file).0 == |proper|
    ensures ReadDirectory(keys, file, h) == Directory(rs)
  {
    hide EncodeBody, EncodeLocator, ParseLocator, ReadPayload, Seals, Dir.ParseDirectory, Dir.EncodeRecords, Dir.Encodable, Dir.Known, Sig.SplitFile, Inside;
    var proper := body + Trail(e, |body|, footer);
    var tail := |proper| - DIRECTORY_TAIL;
    var offset := |body|;
    assert EncodeEntry(e) == [e.kind] + EncodeBody(e);
    TailSlices(body, EncodeEntry(e), EncodeLocator(offset), footer, file);
    assert tail == |body| + |EncodeEntry(e)|;
    LocatorRoundTrip(offset);
    SealsKind(keys, Dir.DIRECTORY_MAGIC + Dir.EncodeRecords(rs), e);
    assert file[offset] == file[offset..tail][0] == e.kind;
    assert file[offset + 1..tail] == file[offset..tail][1..] == EncodeBody(e);
    PayloadReads(keys, Dir.DIRECTORY_MAGIC + Dir.EncodeRecords(rs), e, Dir.MAX_DIRECTORY_SIZE);
    Dir.DirectoryRoundTrip(rs);
  }

  lemma SealsKind(keys: Keys, p: bytes, e: Entry)
    requires Seals(keys, p, e)
    ensures e.kind == ENTRY_DIRECTORY
  {
  }

  lemma TailSlices(body: bytes, entry: bytes, locator: bytes, footer: bytes, file: bytes)
    requires |locator| == LOCATOR_SIZE && |footer| == FOOTER_SIZE && body + (entry + (locator + ([ENTRY_END] + footer))) <= file
    ensures var tail := |body| + |entry|;
            && tail + LOCATOR_SIZE < |file| && file[|body|..tail] == entry && file[tail..tail + LOCATOR_SIZE] == locator
            && file[tail + LOCATOR_SIZE] == ENTRY_END
  {
    var tail := |body| + |entry|;
    var proper := body + (entry + (locator + ([ENTRY_END] + footer)));
    assert proper[|body|..tail] == entry && proper[tail..tail + LOCATOR_SIZE] == locator && proper[tail + LOCATOR_SIZE] == ENTRY_END;
    assert file[..|proper|] == proper;
  }

  // ---- Whole archives ----

  ghost predicate AllHold(keys: Keys, items: seq<Item>, entries: seq<Entry>)
  {
    |items| == |entries| && forall i :: 0 <= i < |items| ==> Holds(keys, items[i], entries[i])
  }

  /** Where the i-th entry starts. */
  function StartOf(h: nat, entries: seq<Entry>, i: nat): nat
    requires i <= |entries|
  {
    h + |EncodeEntries(entries[..i])|
  }

  function AllRecords(h: nat, items: seq<Item>, entries: seq<Entry>, n: nat): seq<Dir.Record>
    requires n <= |items| == |entries|
  {
    if n == 0 then []
    else AllRecords(h, items, entries, n - 1)
         + RecordsOf(items[n - 1], StartOf(h, entries, n - 1) % TWO_64, Stored(entries[n - 1].blocks) % TWO_64)
  }

  lemma {:induction false} EncodeEntriesSnoc(es: seq<Entry>, e: Entry)
    ensures EncodeEntries(es + [e]) == EncodeEntries(es) + EncodeEntry(e)
    decreases |es|
  {
    hide EncodeEntry;
    if es == [] {
      assert (es + [e])[1..] == [];
    } else {
      EncodeEntriesSnoc(es[1..], e);
      assert (es + [e])[1..] == es[1..] + [e];
    }
  }

  lemma StartStep(h: nat, entries: seq<Entry>, i: nat)
    requires i < |entries|
    ensures StartOf(h, entries, i + 1) == StartOf(h, entries, i) + |EncodeEntry(entries[i])| > StartOf(h, entries, i)
  {
    hide EncodeEntry;
    EncodeEntriesSnoc(entries[..i], entries[i]);
    assert entries[..i + 1] == entries[..i] + [entries[i]];
  }

  lemma {:induction false} RecordsInside(h: nat, items: seq<Item>, entries: seq<Entry>, n: nat)
    requires n <= |items| == |entries| && StartOf(h, entries, n) < TWO_63
    ensures Inside(AllRecords(h, items, entries, n), h, StartOf(h, entries, n))
  {
    hide StartOf, RecordsOf, Stored;
    if n > 0 {
      StartStep(h, entries, n - 1);
      RecordsInside(h, items, entries, n - 1);
      HeaderFirst(h, entries, n - 1);
      RecordOffsets(items[n - 1], StartOf(h, entries, n - 1) % TWO_64, Stored(entries[n - 1].blocks) % TWO_64);
    }
  }

  lemma RecordOffsets(x: Item, offset: u64, stored: u64)
    ensures forall i :: 0 <= i < |RecordsOf(x, offset, stored)| ==> RecordsOf(x, offset, stored)[i].offset == offset
  {
    hide SS.EncodeStream, Share;
  }

  lemma HeaderFirst(h: nat, entries: seq<Entry>, i: nat)
    requires i <= |entries|
    ensures StartOf(h, entries, i) >= h
  {
  }

  lemma {:induction false} RecordsKnown(keys: Keys, h: nat, items: seq<Item>, entries: seq<Entry>, n: nat)
    requires AllHold(keys, items, entries) && n <= |items|
    ensures forall i :: 0 <= i < |AllRecords(h, items, entries, n)| ==> Dir.Known(AllRecords(h, items, entries, n)[i])
  {
    hide StartOf, Holds, RecordsOf, Stored, Dir.Known;
    if n > 0 {
      RecordsKnown(keys, h, items, entries, n - 1);
      ItemKnown(keys, items[n - 1], entries[n - 1], StartOf(h, entries, n - 1) % TWO_64, Stored(entries[n - 1].blocks) % TWO_64);
    }
  }

  lemma ItemKnown(keys: Keys, x: Item, e: Entry, offset: u64, stored: u64)
    requires Holds(keys, x, e)
    ensures forall i :: 0 <= i < |RecordsOf(x, offset, stored)| ==> Dir.Known(RecordsOf(x, offset, stored)[i])
  {
    hide DataEntry, OpenSolid, SS.ValidMember, SS.EncodeStream, Share;
  }

  lemma {:induction false} AllRowsSnoc(keys: Keys, es: seq<Entry>, e: Entry)
    ensures AllRows(keys, es + [e]) == AllRows(keys, es) + EntryRows(keys, e)
    decreases |es|
  {
    hide EntryRows;
    if es == [] {
      assert (es + [e])[1..] == [];
    } else {
      AllRowsSnoc(keys, es[1..], e);
      assert (es + [e])[1..] == es[1..] + [e];
    }
  }

  /** The directory's rows are the entries' rows. */
  lemma {:induction false} AllAgree(keys: Keys, h: nat, items: seq<Item>, entries: seq<Entry>, n: nat)
    requires TagOnly(keys) && AllHold(keys, items, entries) && n <= |items| && StartOf(h, entries, n) < TWO_63
    ensures RecordRows(AllRecords(h, items, entries, n)) == AllRows(keys, entries[..n])
  {
    hide StartOf, TagOnly, EntryRows, Holds, RecordsOf, RecordRow, Stored, EncodeEntry, RecordRows, AllRows;
    if n == 0 {
      NoRows(keys);
      assert entries[..0] == [];
    } else {
      var x, e := items[n - 1], entries[n - 1];
      StartStep(h, entries, n - 1);
      AllAgree(keys, h, items, entries, n - 1);
      SmallStored(keys, x, e, StartOf(h, entries, n));
      assert |EncodeEntry(e)| <= StartOf(h, entries, n);
      ItemAgrees(keys, x, e, StartOf(h, entries, n - 1) % TWO_64);
      AllRowsSnoc(keys, entries[..n - 1], e);
      assert entries[..n] == entries[..n - 1] + [e];
      var before, more := AllRecords(h, items, entries, n - 1), RecordsOf(x, StartOf(h, entries, n - 1) % TWO_64, Stored(e.blocks) % TWO_64);
      RecordRowsAppend(before, more);
    }
  }

  lemma NoRows(keys: Keys)
    ensures RecordRows([]) == [] && AllRows(keys, []) == []
  {
  }

  lemma RecordRowsAppend(a: seq<Dir.Record>, b: seq<Dir.Record>)
    ensures RecordRows(a + b) == RecordRows(a) + RecordRows(b)
  {
    hide RecordRow;
  }

  lemma SmallStored(keys: Keys, x: Item, e: Entry, limit: nat)
    requires Holds(keys, x, e) && limit < TWO_63
    ensures |EncodeEntry(e)| <= limit ==> 0 <= Stored(e.blocks) < TWO_63
  {
    hide OpenSolid, EncodeSealed, EncodePad, EncodeTrailer, EncodeBlocks;
    BlocksFramed(e);
    StoredBounds(e.blocks);
    assert |EncodeEntry(e)| >= |EncodeBlocks(e.blocks)|;
  }

  // ---- What the rows say, field by field ----

  function TotalCiphertext(blocks: seq<Sealed>): nat
  {
    if blocks == [] then 0 else TotalCiphertext(blocks[..|blocks| - 1]) + |blocks[|blocks| - 1].ct|
  }

  /** The bytes an entry's blocks seal, without their 16-byte tags. */
  function SealedSize(e: Entry): int { TotalCiphertext(e.blocks) - 16 * |e.blocks| }

  predicate HasAttributes(l: Listed, name: bytes, a: A.Attributes)
  {
    l.name == name && l.kind == a.kind && l.mode == a.mode && l.linkTarget == a.linkTarget && l.modTime == a.modTime
  }

  predicate InBucket(size: nat, b: byte)
  {
    && (b == 0 <==> size <= 1_024) && (b == 1 <==> 1_024 < size <= 10_240) && (b == 2 <==> 10_240 < size <= 102_400)
    && (b == 3 <==> 102_400 < size <= 1_048_576) && (b == 4 <==> size > 1_048_576)
  }

  /** A file's row: its own attributes, codec and bucket, the size its trailer records and the
      size its blocks seal. */
  predicate ListsFile(row: Row, x: Item, e: Entry)
    requires x.File?
  {
    && row.Row? && HasAttributes(row.listed, x.name, x.attributes) && !row.listed.solid
    && row.listed.codec == x.codec && row.listed.bucket == x.bucket
    && row.listed.original == x.original && row.listed.stored == SealedSize(e)
  }

  /** A member's row: its own attributes and size, and its share of what the group's blocks
      seal, in proportion to its part of the record stream, rounded down. */
  predicate ListsMember(row: Row, m: SS.Member, codec: byte, e: Entry, stream: nat)
  {
    && row.Row? && HasAttributes(row.listed, m.name, m.attributes) && row.listed.solid
    && row.listed.codec == codec && InBucket(|m.data|, row.listed.bucket)
    && row.listed.original == |m.data|
    && row.listed.stored * stream <= |m.data| * SealedSize(e) < (row.listed.stored + 1) * stream
  }

  predicate ListsItem(rows: seq<Row>, x: Item, e: Entry)
  {
    match x
    case File(_, _, _, _, _) => |rows| == 1 && ListsFile(rows[0], x, e)
    case Group(ms, codec) =>
      |rows| == |ms| && forall i :: 0 <= i < |ms| ==> ListsMember(rows[i], ms[i], codec, e, |SS.EncodeStream(ms)|)
  }

  function RowCount(x: Item): nat { if x.File? then 1 else |x.members| }

  /** One row per file and per group member, in the order they were archived. */
  predicate Lists(rows: seq<Row>, items: seq<Item>, entries: seq<Entry>)
    requires |items| == |entries|
    decreases |items|
  {
    if items == [] then rows == []
    else
      var n := RowCount(items[0]);
      && n <= |rows| && ListsItem(rows[..n], items[0], entries[0]) && Lists(rows[n..], items[1..], entries[1..])
  }

  lemma {:induction false} StoredIsSealed(blocks: seq<Sealed>)
    ensures Stored(blocks) == TotalCiphertext(blocks) - 16 * |blocks|
  {
    if blocks != [] {
      var n := |blocks| - 1;
      StoredIsSealed(blocks[..n]);
      StoredSnoc(blocks[..n], blocks[n]);
      assert blocks == blocks[..n] + [blocks[n]];
    }
  }

  lemma FileListed(keys: Keys, x: Item, e: Entry)
    requires Holds(keys, x, e) && x.File?
    ensures ListsItem(EntryRows(keys, e), x, e)
  {
    hide WellFramed, OpenSolid, Stored, TotalCiphertext;
    StoredIsSealed(e.blocks);
  }

  lemma MemberListed(m: SS.Member, codec: byte, e: Entry, stream: nat)
    requires stream > 0 && 0 <= Stored(e.blocks)
    ensures ListsMember(MemberRow(m, codec, Stored(e.blocks), stream), m, codec, e, stream)
  {
    hide Stored, TotalCiphertext;
    StoredIsSealed(e.blocks);
    RoundsDown(|m.data| * Stored(e.blocks), stream);
  }

  lemma RoundsDown(x: nat, n: nat)
    requires n > 0
    ensures (x / n) * n <= x < (x / n + 1) * n
  {
    assert x == (x / n) * n + x % n;
  }

  lemma GroupListed(keys: Keys, x: Item, e: Entry)
    requires TagOnly(keys) && Holds(keys, x, e) && x.Group? && 0 <= Stored(e.blocks)
    ensures ListsItem(EntryRows(keys, e), x, e)
  {
    hide TagOnly, Stored, MemberRow, ListsMember, OpenSolid, SS.EncodeStream, WellFramed, SS.ValidMember;
    GroupMembers(keys, x, e);
    var stream := |SS.EncodeStream(x.members)|;
    StreamNotEmpty(x.members);
    forall i | 0 <= i < |x.members| ensures ListsMember(EntryRows(keys, e)[i], x.members[i], x.codec, e, stream) {
      MemberListed(x.members[i], x.codec, e, stream);
    }
  }

  lemma StreamNotEmpty(ms: seq<SS.Member>)
    requires ms != []
    ensures |SS.EncodeStream(ms)| > 0
  {
    hide A.Encode;
  }

  lemma ItemListed(keys: Keys, x: Item, e: Entry)
    requires TagOnly(keys) && Holds(keys, x, e)
    ensures ListsItem(EntryRows(keys, e), x, e) && |EntryRows(keys, e)| == RowCount(x)
  {
    hide TagOnly, Stored, EntryRows, ListsFile, ListsMember, OpenSolid, SS.EncodeStream;
    BlocksFramed(e);
    StoredBounds(e.blocks);
    if x.Group? {
      GroupListed(keys, x, e);
    } else {
      FileListed(keys, x, e);
    }
  }

  lemma {:induction false} RowsListed(keys: Keys, items: seq<Item>, entries: seq<Entry>)
    requires TagOnly(keys) && AllHold(keys, items, entries)
    ensures Lists(AllRows(keys, entries), items, entries)
    decreases |items|
  {
    hide TagOnly, Holds, EntryRows, ListsItem;
    if items != [] {
      ItemListed(keys, items[0], entries[0]);
      RowsListed(keys, items[1..], entries[1..]);
      var first, more := EntryRows(keys, entries[0]), AllRows(keys, entries[1..]);
      assert AllRows(keys, entries) == first + more;
      assert (first + more)[..|first|] == first && (first + more)[|first|..] == more;
    }
  }

  /** addEntry and addSolid: records the entry the writer wrote last. */
  method AddRecords(dir: Dir.DirectoryBuilder, x: Item, offset: u64, stored: u64) returns (ok: bool)
    requires dir.Valid()
    modifies dir
    ensures dir.Valid() && (old(dir.full) ==> dir.full)
    ensures ok && !dir.full ==> dir.records == old(dir.records) + RecordsOf(x, offset, stored)
    ensures !old(dir.full) && Dir.Fits(old(dir.records) + RecordsOf(x, offset, stored)) ==> ok && !dir.full
  {
    hide Dir.Encodable, Dir.EncodeRecords, RecordsOf, Dir.Fits;
    var rs := RecordsOf(x, offset, stored);
    for i := 0 to |rs|
      invariant dir.Valid() && (old(dir.full) ==> dir.full)
      invariant !dir.full ==> dir.records == old(dir.records) + rs[..i]
      invariant !old(dir.full) && Dir.Fits(old(dir.records) + rs) ==> !dir.full
    {
      ghost var upTo := old(dir.records) + rs[..i + 1];
      assert upTo + rs[i + 1..] == old(dir.records) + rs;
      if Dir.Fits(old(dir.records) + rs) { Dir.FitsPrefix(upTo, rs[i + 1..]); }
      assert upTo == old(dir.records) + rs[..i] + [rs[i]];
      ok := dir.Add(rs[i]);
      if !ok {
        return;
      }
      assert rs[..i + 1] == rs[..i] + [rs[i]];
    }
    assert rs[..|rs|] == rs;
    ok := true;
  }

  /** Writes every entry and collects the directory; None when a record cannot be encoded. */
  method WriteEntries(keys: Keys, header: bytes, items: seq<Item>, entries: seq<Entry>) returns (r: Option<ArchiveWriter>, dir: Dir.DirectoryBuilder)
    requires AllHold(keys, items, entries)
    ensures fresh(dir) && dir.Valid()
    ensures r.Some? ==> fresh(r.value) && r.value.out == header + EncodeEntries(entries) && |r.value.out| < TWO_63
    ensures r.Some? && !dir.full ==> dir.records == AllRecords(|header|, items, entries, |items|)
    ensures Writable(header, items, entries) <==> r.Some? && !dir.full
  {
    hide Holds, EncodeEntry, EncodeEntries, RecordsOf, Stored, Dir.Encodable, Dir.EncodeRecords, Dir.Fits;
    var aw := new ArchiveWriter(header);
    dir := new Dir.DirectoryBuilder();
    var h := |header|;
    assert entries[..0] == [];
    NothingEncoded();
    for i := 0 to |items|
      invariant fresh(aw) && fresh(dir) && dir.Valid() && aw.out == header + EncodeEntries(entries[..i])
      invariant !dir.full ==> dir.records == AllRecords(h, items, entries, i)
      invariant Dir.Fits(AllRecords(h, items, entries, |items|)) ==> !dir.full
    {
      if Dir.Fits(AllRecords(h, items, entries, |items|)) { RecordsFit(h, items, entries, i + 1); }
      EncodeEntriesSnoc(entries[..i], entries[i]);
      assert entries[..i + 1] == entries[..i] + [entries[i]];
      aw.WriteFileEntry(entries[i]);
      var ok := AddRecords(dir, items[i], aw.entryOffset % TWO_64, aw.entryStored % TWO_64);
      if !ok {
        return None, dir;
      }
    }
    assert entries[..|items|] == entries;
    if !dir.full { BuiltFits(dir); }
    if |aw.out| >= TWO_63 {
      return None, dir;
    }
    return Some(aw), dir;
  }

  /** A file results: the archive stays below 2^63 bytes, and its records can all be encoded
      and fit into one directory. */
  predicate Writable(header: bytes, items: seq<Item>, entries: seq<Entry>)
    requires |items| == |entries|
  {
    |header| + |EncodeEntries(entries)| < TWO_63 && Dir.Fits(AllRecords(|header|, items, entries, |items|))
  }

  lemma {:induction false} RecordsFit(h: nat, items: seq<Item>, entries: seq<Entry>, n: nat)
    requires n <= |items| == |entries| && Dir.Fits(AllRecords(h, items, entries, |items|))
    ensures Dir.Fits(AllRecords(h, items, entries, n))
    decreases |items| - n
  {
    hide Dir.Fits, RecordsOf, Stored, StartOf;
    if n < |items| {
      RecordsFit(h, items, entries, n + 1);
      Dir.FitsPrefix(AllRecords(h, items, entries, n), RecordsOf(items[n], StartOf(h, entries, n) % TWO_64, Stored(entries[n].blocks) % TWO_64));
    }
  }

  lemma BuiltFits(dir: Dir.DirectoryBuilder)
    requires dir.Valid() && !dir.full
    ensures Dir.Fits(dir.records)
  {
    hide Dir.Encodable, Dir.EncodeRecords;
  }

  lemma NothingEncoded()
    ensures EncodeEntries([]) == []
  {
  }

  /** The footer, with its zero reserved bytes, and the signature block if there is one. */
  function Ending(checksum: bytes, signature: Option<bytes>): bytes
  {
    checksum + Zeros(RESERVED_SIZE) + SignatureBytes(signature)
  }

  function SignatureBytes(signature: Option<bytes>): bytes
  {
    match signature
    case None => []
    case Some(s) => (match Sig.AppendSignatureBlock([], s) case Some(b) => b case None => [])
  }

  /** For every archive written with a directory, signed or not, random access through the
      directory lists exactly what scanning all its entries lists. */
  method ListBothWays(keys: Keys, header: bytes, items: seq<Item>, entries: seq<Entry>, seal: bytes -> Entry,
                      checksum: bytes, signature: Option<bytes>)
    returns (file: Option<bytes>, byDirectory: seq<Row>, byScan: seq<Row>)
    requires TagOnly(keys) && AllHold(keys, items, entries) && (forall p :: |p| <= Dir.MAX_DIRECTORY_SIZE ==> Seals(keys, p, seal(p)))
    requires |checksum| == HMAC_SIZE && (signature.Some? ==> 0 < |signature.value| <= MAX_SIGNATURE_SIZE)
    ensures file.Some? <==> Writable(header, items, entries)
    ensures file.Some? ==>
              && ReadDirectory(keys, file.value, |header|) == Directory(AllRecords(|header|, items, entries, |items|))
              && byDirectory == RecordRows(AllRecords(|header|, items, entries, |items|))
              && |header| <= |file.value| && ScanFrom(keys, file.value[|header|..]).end.Complete?
              && byScan == ScanFrom(keys, file.value[|header|..]).rows == byDirectory == AllRows(keys, entries)
              && Lists(byScan, items, entries)
  {
    hide Holds, TagOnly, Seals, EncodeEntry, RecordsOf, AllRecords, ReadDirectory, ScanFrom, RecordRow, Ending, Trail, EncodeEntries, Writable, Lists, AllRows;
    RowsListed(keys, items, entries);
    var aw, dir := WriteEntries(keys, header, items, entries);
    if aw.None? || dir.full {
      return None, [], [];
    }
    var w := aw.value;
    var offset := |w.out|;
    ghost var body := w.out;
    var e := seal(dir.plaintext);
    w.WriteFileEntry(e);
    w.Put(EncodeLocator(offset));
    w.Put([ENTRY_END]);
    w.Put(Ending(checksum, signature));
    var data := w.out;
    ghost var rs := AllRecords(|header|, items, entries, |items|);
    assert Seals(keys, dir.plaintext, seal(dir.plaintext));
    Agreement(keys, header, items, entries, body, e, checksum, signature, data);
    var got := ReadDirectory(keys, data, |header|);
    byDirectory := DirectoryListing(got.records);
    var se := new SafeExtractor(keys, Disk(x => None, (x, i) => false, x => false, x => None, x => None), data[|header|..]);
    var rows, _ := ScanList(se);
    return Some(data), byDirectory, rows;
  }

  lemma Agreement(keys: Keys, header: bytes, items: seq<Item>, entries: seq<Entry>, body: bytes, e: Entry,
                  checksum: bytes, signature: Option<bytes>, file: bytes)
    requires TagOnly(keys) && AllHold(keys, items, entries)
    requires |checksum| == HMAC_SIZE && (signature.Some? ==> 0 < |signature.value| <= MAX_SIGNATURE_SIZE)
    requires body == header + EncodeEntries(entries) && |body| < TWO_63
    requires file == body + EncodeEntry(e) + EncodeLocator(|body|) + [ENTRY_END] + Ending(checksum, signature)
    requires var rs := AllRecords(|header|, items, entries, |items|);
             var plaintext := Dir.DIRECTORY_MAGIC + Dir.EncodeRecords(rs);
             && Seals(keys, plaintext, e) && |plaintext| <= Dir.MAX_DIRECTORY_SIZE
             && (forall i :: 0 <= i < |rs| ==> Dir.Encodable(rs[i]))
    ensures var rs := AllRecords(|header|, items, entries, |items|);
            && ReadDirectory(keys, file, |header|) == Directory(rs)
            && ScanFrom(keys, file[|header|..]) == Scan(RecordRows(rs), Complete(Ending(checksum, signature)))
            && RecordRows(rs) == AllRows(keys, entries)
  {
    hide Holds, TagOnly, Seals, EncodeEntry, EncodeEntries, AllRecords, ReadDirectory, ScanFrom, RecordRow, EncodeLocator, Dir.EncodeRecords, Dir.Encodable, Dir.Known,
         Sig.SplitFile, Sig.AppendSignatureBlock, NextEntryType, AllRows, Inside, DataEntry;
    var h := |header|;
    var rs := AllRecords(h, items, entries, |items|);
    var ending := Ending(checksum, signature);
    var footer := checksum + Zeros(RESERVED_SIZE);
    var proper := body + Trail(e, |body|, footer);
    assert entries[..|items|] == entries;
    assert StartOf(h, entries, |items|) == |body|;
    RecordsInside(h, items, entries, |items|);
    RecordsKnown(keys, h, items, entries, |items|);
    AllAgree(keys, h, items, entries, |items|);
    EndingSplits(body, e, checksum, signature, file);
    DirectoryReads(keys, body, e, rs, h, footer, file);
    var plaintext := Dir.DIRECTORY_MAGIC + Dir.EncodeRecords(rs);
    TrailEnds(keys, plaintext, e, |body|, ending);
    assert file[h..] == EncodeEntries(entries) + Trail(e, |body|, ending);
    AreDataEntries(keys, items, entries);
    ScansEveryEntry(keys, entries, Trail(e, |body|, ending));
  }

  lemma AreDataEntries(keys: Keys, items: seq<Item>, entries: seq<Entry>)
    requires AllHold(keys, items, entries)
    ensures DataEntries(entries)
  {
    hide DataEntry, OpenSolid, SS.ValidMember;
    forall i | 0 <= i < |entries| ensures DataEntry(entries[i]) {
      assert Holds(keys, items[i], entries[i]);
    }
  }

  /** With or without a signature, the archive proper ends with its footer. */
  lemma EndingSplits(body: bytes, e: Entry, checksum: bytes, signature: Option<bytes>, file: bytes)
    requires |checksum| == HMAC_SIZE && |body| < TWO_63 && (signature.Some? ==> 0 < |signature.value| <= MAX_SIGNATURE_SIZE)
    requires file == body + EncodeEntry(e) + EncodeLocator(|body|) + [ENTRY_END] + Ending(checksum, signature)
    ensures var proper := body + Trail(e, |body|, checksum + Zeros(RESERVED_SIZE)); proper <= file && Sig.SplitFile(file).0 == |proper|
  {
    hide EncodeEntry, EncodeLocator, Sig.SplitFile, SignatureBytes;
    var footer := checksum + Zeros(RESERVED_SIZE);
    var proper := body + Trail(e, |body|, footer);
    EndsInZeros(body, e, checksum);
    assert file == proper + SignatureBytes(signature);
    if signature.Some? {
      SignedBytes(proper, signature.value);
      Sig.SignThenSplit(proper, signature.value);
    } else {
      NoSignature();
      assert signature == None && file == proper;
      Sig.UnsignedDoesNotSplit(proper);
    }
  }

  lemma NoSignature()
    ensures SignatureBytes(None) == []
  {
  }

  lemma SignedBytes(proper: bytes, signature: bytes)
    requires 0 < |signature| <= MAX_SIGNATURE_SIZE
    ensures Sig.AppendSignatureBlock(proper, signature).value == proper + SignatureBytes(Some(signature))
  {
    hide LE;
    assert [] + signature == signature;
  }

  lemma EndsInZeros(body: bytes, e: Entry, checksum: bytes)
    requires |checksum| == HMAC_SIZE && |body| < TWO_63
    ensures var proper := body + Trail(e, |body|, checksum + Zeros(RESERVED_SIZE));
            |proper| >= FOOTER_SIZE && proper[|proper| - RESERVED_SIZE..] == Zeros(RESERVED_SIZE)
  {
    hide EncodeEntry, EncodeLocator;
    var z := Zeros(RESERVED_SIZE);
    var a := body + (EncodeEntry(e) + (EncodeLocator(|body|) + ([ENTRY_END] + checksum)));
    assert body + Trail(e, |body|, checksum + z) == a + z;
  }
}
