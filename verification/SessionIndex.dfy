/** The session index of an incremental archive and its encoding (archive/incremental.go). */
module SessionIndex {
  import opened Bytes
  import opened Format
  import opened Names
  import opened Varint
  import A = Attributes

  const MAX_PACK_SIZE := 64 * 0x10_0000
  const MAX_INDEX_SIZE := 256 * 0x10_0000
  const MAX_CDC_CHUNK_SIZE := 4 * 0x10_0000
  const MAX_STORED_CHUNK_SIZE := MAX_CDC_CHUNK_SIZE + 256

  /** "SARCIDX1" */
  const INDEX_MAGIC: bytes := [0x53, 0x41, 0x52, 0x43, 0x49, 0x44, 0x58, 0x31]

  type ChunkID = b: bytes | |b| == HMAC_SIZE witness Zeros(HMAC_SIZE)

  datatype ChunkRecord = ChunkRecord(id: ChunkID, pack: u32, offset: u64, storedLen: u32, rawLen: u32, codec: byte)
  datatype FileVersion = FileVersion(name: bytes, attributes: A.Attributes, size: u64, chunks: seq<u64>)
  datatype Index = Index(session: u64, time: i64, prevIndex: u64, firstChunk: u64,
                         packs: seq<u64>, chunks: seq<ChunkRecord>, files: seq<FileVersion>, deleted: seq<bytes>)

  // ---- What Marshal accepts, and what ParseSessionIndex additionally checks ----

  predicate FileEncodable(f: FileVersion)
  {
    && ValidEntryName(f.name) && A.Valid(f.attributes)
    && (f.attributes.kind != A.KIND_REGULAR ==> f.size == 0 && f.chunks == [])
    && |f.chunks| < TWO_63
  }

  /** Marshal's own checks; slice lengths fit a Go int. */
  predicate Encodable(x: Index)
  {
    && |x.packs| < TWO_63 && |x.chunks| < TWO_63 && |x.files| < TWO_63 && |x.deleted| < TWO_63
    && (forall f :: f in x.files ==> FileEncodable(f))
    && (forall n :: n in x.deleted ==> ValidEntryName(n))
  }

  predicate ValidChunk(c: ChunkRecord, packs: nat)
  {
    && c.pack < packs
    && 0 < c.storedLen <= MAX_STORED_CHUNK_SIZE && 0 < c.rawLen <= MAX_CDC_CHUNK_SIZE
    && c.offset + c.storedLen <= MAX_PACK_SIZE
    && (c.codec == CODEC_NONE || c.codec == CODEC_ZSTD)
    && (c.codec == CODEC_NONE ==> c.storedLen == c.rawLen)
  }

  function ChunkLimit(x: Index): u64 { (x.firstChunk + |x.chunks|) % TWO_64 }

  predicate ChunksBelow(ns: seq<u64>, limit: u64) { forall i :: 0 <= i < |ns| ==> ns[i] < limit }

  predicate WellFormed(x: Index)
  {
    && x.session != 0
    && (forall c :: c in x.chunks ==> ValidChunk(c, |x.packs|))
    && (forall f :: f in x.files ==> ChunksBelow(f.chunks, ChunkLimit(x)))
  }

  // ---- Encoding ----

  function Many<T>(e: T -> bytes, xs: seq<T>): bytes
  {
    if xs == [] then [] else e(xs[0]) + Many(e, xs[1..])
  }

  function Counted<T>(e: T -> bytes, xs: seq<T>): bytes { Uvarint(|xs|) + Many(e, xs) }

  function EncodeNumber(n: u64): bytes { Uvarint(n) }

  function EncodeName(n: bytes): bytes { Uvarint(|n|) + n }

  function EncodeChunk(c: ChunkRecord): bytes
  {
    c.id + (Uvarint(c.pack) + (Uvarint(c.offset) + (Uvarint(c.storedLen) + (Uvarint(c.rawLen) + [c.codec]))))
  }

  /** Chunk numbers as wrapping differences from the one before. */
  function EncodeDeltas(prev: u64, ns: seq<u64>): bytes
    decreases |ns|
  {
    if ns == [] then [] else SignedVarint(ToSigned(WrapSub(ns[0], prev))) + EncodeDeltas(ns[0], ns[1..])
  }

  function EncodeFile(f: FileVersion): bytes
  {
    var attrs := A.Encode(f.attributes);
    EncodeName(f.name) + (Uvarint(|attrs|) + (attrs +
    (Uvarint(f.size) + (Uvarint(|f.chunks|) + EncodeDeltas(0, f.chunks)))))
  }

  function EncodeLists(x: Index): bytes
  {
    Counted(EncodeNumber, x.packs) + (Counted(EncodeChunk, x.chunks) +
    (Counted(EncodeFile, x.files) + Counted(EncodeName, x.deleted)))
  }

  function EncodeHead(x: Index): bytes
  {
    Uvarint(x.session) + (SignedVarint(x.time) + (Uvarint(x.prevIndex) + Uvarint(x.firstChunk)))
  }

  function Encode(x: Index): bytes { INDEX_MAGIC + (EncodeHead(x) + EncodeLists(x)) }

  /** Marshal: None stands for its errors. */
  function Marshal(x: Index): Option<bytes>
  {
    if Encodable(x) && |Encode(x)| <= MAX_INDEX_SIZE then Some(Encode(x)) else None
  }

  // ---- Decoding ----

  /** A decoding step. A malformed field sets the sticky error; Panic is the slice
      expression with a negative bound. */
  datatype Step<+T> = Ok(value: T, rest: bytes) | Malformed | Panic

  function Number(b: bytes): (r: Step<u64>)
    ensures r.Ok? ==> |r.rest| < |b|
  {
    match ReadUvarint(b) case Bad => Malformed case Got(v, rest) => Ok(v, rest)
  }

  function Signed(b: bytes): Step<i64>
  {
    match ReadVarint(b) case Bad => Malformed case Got(v, rest) => Ok(v, rest)
  }

  lemma QuotientBound(n: nat, k: nat, m: nat)
    requires k > 0
    ensures n <= m / k <==> n * k <= m
  {
    assert m == k * (m / k) + m % k;
    if n <= m / k {
      assert n * k <= (m / k) * k;
    } else {
      assert n * k >= (m / k + 1) * k;
    }
  }

  /** An element count, refused when the remaining bytes cannot hold that many. */
  function Count(b: bytes, minSize: nat): (r: Step<u64>)
    requires minSize > 0
    ensures r.Ok? ==> r.value * minSize <= |r.rest|
  {
    match Number(b) case Malformed => Malformed case Panic => Panic case Ok(n, rest) =>
    QuotientBound(n, minSize, |rest|);
    if n > |rest| / minSize then Malformed else Ok(n, rest)
  }

  function Slice(b: bytes, n: nat): (r: Step<bytes>)
    ensures r.Ok? ==> |r.value| == n && |r.rest| <= |b|
  {
    match ReadBytes(b, n) case Bad => Malformed case Got(x, rest) => Ok(x, rest)
  }

  function Name(b: bytes): (r: Step<bytes>)
    ensures r.Ok? ==> ValidEntryName(r.value) && |r.rest| <= |b|
  {
    match Number(b) case Malformed => Malformed case Panic => Panic case Ok(n, b1) =>
    if n > MAX_ENTRY_NAME_LEN then Malformed else
    match Slice(b1, n) case Malformed => Malformed case Panic => Panic case Ok(name, b2) =>
    if ValidEntryName(name) then Ok(name, b2) else Malformed
  }

  function Chunk(b: bytes, packs: nat): Step<ChunkRecord>
  {
    match Slice(b, HMAC_SIZE) case Malformed => Malformed case Panic => Panic case Ok(id, b1) =>
    match Number(b1) case Malformed => Malformed case Panic => Panic case Ok(pack, b2) =>
    match Number(b2) case Malformed => Malformed case Panic => Panic case Ok(offset, b3) =>
    match Number(b3) case Malformed => Malformed case Panic => Panic case Ok(stored, b4) =>
    match Number(b4) case Malformed => Malformed case Panic => Panic case Ok(raw, b5) =>
    match Slice(b5, 1) case Malformed => Malformed case Panic => Panic case Ok(codec, b6) =>
    if pack >= packs || pack >= TWO_32
       || stored == 0 || stored > MAX_STORED_CHUNK_SIZE || raw == 0 || raw > MAX_CDC_CHUNK_SIZE
       || offset > MAX_PACK_SIZE || stored > MAX_PACK_SIZE - offset
       || (codec[0] != CODEC_NONE && codec[0] != CODEC_ZSTD)
       || (codec[0] == CODEC_NONE && stored != raw)
    then Malformed
    else Ok(ChunkRecord(id, pack, offset, stored, raw, codec[0]), b6)
  }

  function Deltas(b: bytes, prev: u64, count: nat, limit: u64): (r: Step<seq<u64>>)
    ensures r.Ok? ==> |r.value| == count && ChunksBelow(r.value, limit)
    decreases count
  {
    if count == 0 then Ok([], b) else
    match Signed(b) case Malformed => Malformed case Panic => Panic case Ok(d, b1) =>
    var n := WrapAdd(prev, ToUnsigned(d));
    if n >= limit then Malformed else
    match Deltas(b1, n, count - 1, limit) case Malformed => Malformed case Panic => Panic case Ok(ns, rest) =>
    Ok([n] + ns, rest)
  }

  /** The attributes field: a length of 2^63 or more turns into a negative slice bound. */
  function Attrs(b: bytes): (r: Step<A.Attributes>)
    ensures r.Ok? ==> A.Valid(r.value) && |r.rest| <= |b|
  {
    match Number(b) case Malformed => Malformed case Panic => Panic case Ok(n, b1) =>
    if n >= TWO_63 then Panic else if n > A.MAX_ATTRIBUTES_SIZE then Malformed else
    match Slice(b1, n) case Malformed => Malformed case Panic => Panic case Ok(raw, rest) =>
    match A.Parse(raw) case None => Malformed case Some(a) => Ok(a, rest)
  }

  function File(b: bytes, limit: u64): Step<FileVersion>
  {
    match Name(b) case Malformed => Malformed case Panic => Panic case Ok(name, b1) =>
    match Attrs(b1) case Malformed => Malformed case Panic => Panic case Ok(attrs, b2) =>
    match Number(b2) case Malformed => Malformed case Panic => Panic case Ok(size, b3) =>
    match Count(b3, 1) case Malformed => Malformed case Panic => Panic case Ok(count, b4) =>
    match Deltas(b4, 0, count, limit) case Malformed => Malformed case Panic => Panic case Ok(ns, rest) =>
    if attrs.kind != A.KIND_REGULAR && (size != 0 || ns != []) then Malformed
    else Ok(FileVersion(name, attrs, size, ns), rest)
  }

  function Repeat<T>(p: bytes -> Step<T>, b: bytes, count: nat): (r: Step<seq<T>>)
    ensures r.Ok? ==> |r.value| == count
    decreases count
  {
    if count == 0 then Ok([], b) else
    match p(b) case Malformed => Malformed case Panic => Panic case Ok(x, b1) =>
    match Repeat(p, b1, count - 1) case Malformed => Malformed case Panic => Panic case Ok(xs, rest) =>
    Ok([x] + xs, rest)
  }

  function List<T>(p: bytes -> Step<T>, b: bytes, minSize: nat): Step<seq<T>>
    requires minSize > 0
  {
    match Count(b, minSize) case Malformed => Malformed case Panic => Panic case Ok(n, rest) =>
    Repeat(p, rest, n)
  }

  datatype Head = Head(session: u64, time: i64, prevIndex: u64, firstChunk: u64)

  function ParseHead(b: bytes): Step<Head>
  {
    match Number(b) case Malformed => Malformed case Panic => Panic case Ok(session, b1) =>
    match Signed(b1) case Malformed => Malformed case Panic => Panic case Ok(time, b2) =>
    match Number(b2) case Malformed => Malformed case Panic => Panic case Ok(prev, b3) =>
    match Number(b3) case Malformed => Malformed case Panic => Panic case Ok(first, b4) =>
    Ok(Head(session, time, prev, first), b4)
  }

  function ParseLists(h: Head, b: bytes): Step<Index>
  {
    match List(Number, b, 1) case Malformed => Malformed case Panic => Panic case Ok(packs, b1) =>
    match List(b' => Chunk(b', |packs|), b1, HMAC_SIZE + 5) case Malformed => Malformed case Panic => Panic case Ok(chunks, b2) =>
    var limit: u64 := (h.firstChunk + |chunks|) % TWO_64;
    match List(b' => File(b', limit), b2, 5) case Malformed => Malformed case Panic => Panic case Ok(files, b3) =>
    match List(Name, b3, 2) case Malformed => Malformed case Panic => Panic case Ok(deleted, rest) =>
    Ok(Index(h.session, h.time, h.prevIndex, h.firstChunk, packs, chunks, files, deleted), rest)
  }

  datatype Parsed = Parsed(index: Index) | Refused | Crashed

  /** ParseSessionIndex. */
  function Parse(b: bytes): Parsed
  {
    if |b| > MAX_INDEX_SIZE || |b| < 8 || b[..8] != INDEX_MAGIC then Refused else
    match ParseHead(b[8..]) case Malformed => Refused case Panic => Crashed case Ok(h, b1) =>
    match ParseLists(h, b1) case Malformed => Refused case Panic => Crashed case Ok(x, rest) =>
    if rest != [] || x.session == 0 then Refused else Parsed(x)
  }

  // ---- Parse undoes Marshal ----

  lemma NumberRoundTrip(v: u64, rest: bytes)
    ensures Number(Uvarint(v) + rest) == Ok(v, rest)
  {
    UvarintRoundTrip(v, rest);
  }

  lemma NameRoundTrip(n: bytes, rest: bytes)
    requires ValidEntryName(n)
    ensures Name(EncodeName(n) + rest) == Ok(n, rest)
  {
    hide Uvarint, ReadUvarint;
    assert EncodeName(n) + rest == Uvarint(|n|) + (n + rest);
    NumberRoundTrip(|n|, n + rest);
    ReadBytesAppend(n, rest);
  }

  lemma ChunkRoundTrip(c: ChunkRecord, packs: nat, rest: bytes)
    requires ValidChunk(c, packs)
    ensures Chunk(EncodeChunk(c) + rest, packs) == Ok(c, rest)
  {
    hide Uvarint, Number;
    var b6 := [c.codec] + rest;
    var b5 := Uvarint(c.rawLen) + b6;
    var b4 := Uvarint(c.storedLen) + b5;
    var b3 := Uvarint(c.offset) + b4;
    var b2 := Uvarint(c.pack) + b3;
    assert EncodeChunk(c) + rest == c.id + b2;
    ReadBytesAppend(c.id, b2);
    NumberRoundTrip(c.pack, b3);
    NumberRoundTrip(c.offset, b4);
    NumberRoundTrip(c.storedLen, b5);
    NumberRoundTrip(c.rawLen, b6);
    ReadBytesAppend([c.codec], rest);
  }

  lemma {:induction false} DeltasRoundTrip(prev: u64, ns: seq<u64>, limit: u64, rest: bytes)
    requires ChunksBelow(ns, limit)
    ensures Deltas(EncodeDeltas(prev, ns) + rest, prev, |ns|, limit) == Ok(ns, rest)
    decreases |ns|
  {
    hide SignedVarint, ReadVarint;
    if ns == [] {
      assert EncodeDeltas(prev, ns) + rest == rest;
    } else {
      var d := ToSigned(WrapSub(ns[0], prev));
      var tail := EncodeDeltas(ns[0], ns[1..]);
      A.Assoc(SignedVarint(d), tail, rest);
      VarintRoundTrip(d, tail + rest);
      DeltaRoundTrip(ns[0], prev);
      DeltasRoundTrip(ns[0], ns[1..], limit, rest);
      assert [ns[0]] + ns[1..] == ns;
    }
  }

  lemma {:induction false} DeltasLength(prev: u64, ns: seq<u64>)
    ensures |EncodeDeltas(prev, ns)| >= |ns|
    decreases |ns|
  {
    hide SignedVarint;
    if ns == [] {
    } else {
      DeltasLength(ns[0], ns[1..]);
    }
  }

  lemma AttrsRoundTrip(a: A.Attributes, rest: bytes)
    requires A.Valid(a)
    ensures Attrs(Uvarint(|A.Encode(a)|) + (A.Encode(a) + rest)) == Ok(a, rest)
  {
    hide A.Encode, A.Parse, A.Valid, Uvarint, Number;
    A.EncodeLength(a);
    A.ParseOfEncode(a);
    var e := A.Encode(a);
    NumberRoundTrip(|e|, e + rest);
    ReadBytesAppend(e, rest);
  }

  lemma CountRoundTrip(n: u64, minSize: nat, rest: bytes)
    requires minSize > 0 && n * minSize <= |rest|
    ensures Count(Uvarint(n) + rest, minSize) == Ok(n, rest)
  {
    hide Uvarint, Number;
    NumberRoundTrip(n, rest);
    QuotientBound(n, minSize, |rest|);
  }

  lemma FileRoundTrip(f: FileVersion, limit: u64, rest: bytes)
    requires FileEncodable(f) && ChunksBelow(f.chunks, limit)
    ensures File(EncodeFile(f) + rest, limit) == Ok(f, rest)
  {
    hide A.Encode, A.Valid, Attrs, Uvarint, Number, Name, EncodeName, ValidEntryName, EncodeDeltas, Deltas, Count, ChunksBelow;
    var attrs, ds := A.Encode(f.attributes), EncodeDeltas(0, f.chunks);
    var b4 := ds + rest;
    var b3 := Uvarint(|f.chunks|) + b4;
    var b2 := Uvarint(f.size) + b3;
    var b1 := Uvarint(|attrs|) + (attrs + b2);
    assert EncodeFile(f) + rest == EncodeName(f.name) + b1 by { FileLayout(f, rest); }
    NameRoundTrip(f.name, b1);
    AttrsRoundTrip(f.attributes, b2);
    NumberRoundTrip(f.size, b3);
    DeltasLength(0, f.chunks);
    CountRoundTrip(|f.chunks|, 1, b4);
    DeltasRoundTrip(0, f.chunks, limit, rest);
  }

  lemma FileLayout(f: FileVersion, rest: bytes)
    ensures EncodeFile(f) + rest ==
            EncodeName(f.name) + (Uvarint(|A.Encode(f.attributes)|) + (A.Encode(f.attributes) +
            (Uvarint(f.size) + (Uvarint(|f.chunks|) + (EncodeDeltas(0, f.chunks) + rest)))))
  {
    hide A.Encode, Uvarint, EncodeName, EncodeDeltas;
    var attrs, ds := A.Encode(f.attributes), EncodeDeltas(0, f.chunks);
    var c := Uvarint(|f.chunks|) + ds;
    var s := Uvarint(f.size) + c;
    A.Assoc(Uvarint(|f.chunks|), ds, rest);
    A.Assoc(Uvarint(f.size), c, rest);
    A.Assoc(attrs, s, rest);
    A.Assoc(Uvarint(|attrs|), attrs + s, rest);
    A.Assoc(EncodeName(f.name), Uvarint(|attrs|) + (attrs + s), rest);
  }

  lemma {:induction false} RepeatRoundTrip<T(!new)>(p: bytes -> Step<T>, e: T -> bytes, xs: seq<T>, rest: bytes)
    requires forall x, r :: x in xs ==> p(e(x) + r) == Ok(x, r)
    ensures Repeat(p, Many(e, xs) + rest, |xs|) == Ok(xs, rest)
  {
    if xs == [] {
      assert Many(e, xs) + rest == rest;
    } else {
      A.Assoc(e(xs[0]), Many(e, xs[1..]), rest);
      RepeatRoundTrip(p, e, xs[1..], rest);
      assert [xs[0]] + xs[1..] == xs;
    }
  }

  lemma {:induction false} ManyLength<T(!new)>(e: T -> bytes, xs: seq<T>, minSize: nat)
    requires forall x :: x in xs ==> |e(x)| >= minSize
    ensures |Many(e, xs)| >= |xs| * minSize
  {
    if xs == [] {
    } else {
      ManyLength(e, xs[1..], minSize);
      assert |xs| * minSize == minSize + |xs[1..]| * minSize;
    }
  }

  lemma ListRoundTrip<T(!new)>(p: bytes -> Step<T>, e: T -> bytes, xs: seq<T>, minSize: nat, rest: bytes)
    requires minSize > 0 && |xs| < TWO_64
    requires forall x :: x in xs ==> |e(x)| >= minSize
    requires forall x, r :: x in xs ==> p(e(x) + r) == Ok(x, r)
    ensures List(p, Counted(e, xs) + rest, minSize) == Ok(xs, rest)
  {
    hide Uvarint, Count, Many, Repeat;
    A.Assoc(Uvarint(|xs|), Many(e, xs), rest);
    ManyLength(e, xs, minSize);
    CountRoundTrip(|xs|, minSize, Many(e, xs) + rest);
    RepeatRoundTrip(p, e, xs, rest);
  }

  lemma PacksRoundTrip(xs: seq<u64>, rest: bytes)
    requires |xs| < TWO_63
    ensures List(Number, Counted(EncodeNumber, xs) + rest, 1) == Ok(xs, rest)
  {
    hide Uvarint, Number, List, Counted;
    forall x, r | x in xs ensures Number(EncodeNumber(x) + r) == Ok(x, r) {
      NumberRoundTrip(x, r);
    }
    ListRoundTrip(Number, EncodeNumber, xs, 1, rest);
  }

  lemma ChunksRoundTrip(xs: seq<ChunkRecord>, packs: nat, rest: bytes)
    requires |xs| < TWO_63
    requires forall c :: c in xs ==> ValidChunk(c, packs)
    ensures List(b => Chunk(b, packs), Counted(EncodeChunk, xs) + rest, HMAC_SIZE + 5) == Ok(xs, rest)
  {
    hide Uvarint, Chunk, ValidChunk, List, Counted;
    var p := b => Chunk(b, packs);
    forall x, r | x in xs ensures p(EncodeChunk(x) + r) == Ok(x, r) {
      ChunkRoundTrip(x, packs, r);
    }
    ListRoundTrip(p, EncodeChunk, xs, HMAC_SIZE + 5, rest);
  }

  lemma FilesRoundTrip(xs: seq<FileVersion>, limit: u64, rest: bytes)
    requires |xs| < TWO_63
    requires forall f :: f in xs ==> FileEncodable(f) && ChunksBelow(f.chunks, limit)
    ensures List(b => File(b, limit), Counted(EncodeFile, xs) + rest, 5) == Ok(xs, rest)
  {
    var p := b => File(b, limit);
    forall x, r | x in xs ensures p(EncodeFile(x) + r) == Ok(x, r) {
      hide File, EncodeFile, FileEncodable, ChunksBelow;
      FileRoundTrip(x, limit, r);
    }
    forall x | x in xs ensures |EncodeFile(x)| >= 5 {
      A.EncodeLength(x.attributes);
    }
    hide File, EncodeFile, FileEncodable, List, Counted;
    ListRoundTrip(p, EncodeFile, xs, 5, rest);
  }

  lemma DeletedRoundTrip(xs: seq<bytes>, rest: bytes)
    requires |xs| < TWO_63
    requires forall n :: n in xs ==> ValidEntryName(n)
    ensures List(Name, Counted(EncodeName, xs) + rest, 2) == Ok(xs, rest)
  {
    forall x, r | x in xs ensures Name(EncodeName(x) + r) == Ok(x, r) {
      NameRoundTrip(x, r);
    }
    hide Uvarint, Name, List, Counted, ValidEntryName;
    ListRoundTrip(Name, EncodeName, xs, 2, rest);
  }

  lemma HeadRoundTrip(x: Index, rest: bytes)
    ensures ParseHead(EncodeHead(x) + rest) == Ok(Head(x.session, x.time, x.prevIndex, x.firstChunk), rest)
  {
    hide Uvarint, SignedVarint, ReadVarint, ReadUvarint, Number;
    var b3 := Uvarint(x.firstChunk) + rest;
    var b2 := Uvarint(x.prevIndex) + b3;
    var b1 := SignedVarint(x.time) + b2;
    assert EncodeHead(x) + rest == Uvarint(x.session) + b1;
    NumberRoundTrip(x.session, b1);
    VarintRoundTrip(x.time, b2);
    NumberRoundTrip(x.prevIndex, b3);
    NumberRoundTrip(x.firstChunk, rest);
  }

  lemma ListsRoundTrip(x: Index)
    requires Encodable(x) && WellFormed(x)
    ensures ParseLists(Head(x.session, x.time, x.prevIndex, x.firstChunk), EncodeLists(x)) == Ok(x, [])
  {
    hide List, Counted, FileEncodable, ValidChunk, ValidEntryName, ChunksBelow;
    var b3 := Counted(EncodeName, x.deleted);
    var b2 := Counted(EncodeFile, x.files) + b3;
    var b1 := Counted(EncodeChunk, x.chunks) + b2;
    PacksRoundTrip(x.packs, b1);
    ChunksRoundTrip(x.chunks, |x.packs|, b2);
    FilesRoundTrip(x.files, ChunkLimit(x), b3);
    DeletedRoundTrip(x.deleted, []);
    assert b3 + [] == b3;
  }

  // ---- Whatever parses is well formed ----

  lemma {:induction false} RepeatAll<T(!new)>(p: bytes -> Step<T>, b: bytes, count: nat, ok: T -> bool)
    requires forall b' :: p(b').Ok? ==> ok(p(b').value)
    requires Repeat(p, b, count).Ok?
    ensures forall x :: x in Repeat(p, b, count).value ==> ok(x)
    decreases count
  {
    if count == 0 {
    } else {
      RepeatAll(p, p(b).rest, count - 1, ok);
    }
  }

  lemma ListAll<T(!new)>(p: bytes -> Step<T>, b: bytes, minSize: nat, ok: T -> bool)
    requires minSize > 0
    requires forall b' :: p(b').Ok? ==> ok(p(b').value)
    requires List(p, b, minSize).Ok?
    ensures forall x :: x in List(p, b, minSize).value ==> ok(x)
  {
    hide Count, Repeat;
    var n := Count(b, minSize);
    RepeatAll(p, n.rest, n.value, ok);
  }

  lemma ChunkChecked(b: bytes, packs: nat)
    requires Chunk(b, packs).Ok?
    ensures ValidChunk(Chunk(b, packs).value, packs)
  {
    hide Number, Slice;
  }

  lemma ChunksChecked(b: bytes, packs: nat)
    ensures var r := List(b' => Chunk(b', packs), b, HMAC_SIZE + 5);
            r.Ok? ==> forall c :: c in r.value ==> ValidChunk(c, packs)
  {
    var p := b' => Chunk(b', packs);
    var ok := (c: ChunkRecord) => ValidChunk(c, packs);
    forall b' | p(b').Ok? ensures ok(p(b').value) { ChunkChecked(b', packs); }
    hide Chunk, ValidChunk, List;
    if List(p, b, HMAC_SIZE + 5).Ok? {
      ListAll(p, b, HMAC_SIZE + 5, ok);
    }
  }

  lemma FileChecked(b: bytes, limit: u64)
    requires File(b, limit).Ok?
    ensures ChunksBelow(File(b, limit).value.chunks, limit)
  {
    hide Number, Name, Attrs, Count, ChunksBelow, Deltas;
  }

  lemma FilesChecked(b: bytes, limit: u64)
    ensures var r := List(b' => File(b', limit), b, 5);
            r.Ok? ==> forall f :: f in r.value ==> ChunksBelow(f.chunks, limit)
  {
    var p := b' => File(b', limit);
    var ok := (f: FileVersion) => ChunksBelow(f.chunks, limit);
    forall b' | p(b').Ok? ensures ok(p(b').value) { FileChecked(b', limit); }
    hide File, List, ChunksBelow;
    if List(p, b, 5).Ok? {
      ListAll(p, b, 5, ok);
    }
  }

  lemma ParsedIsWellFormed(b: bytes)
    requires Parse(b).Parsed?
    ensures WellFormed(Parse(b).index)
  {
    hide List, ValidChunk, ChunksBelow, ParseHead;
    var h, b1 := ParseHead(b[8..]).value, ParseHead(b[8..]).rest;
    var x := Parse(b).index;
    var packs := List(Number, b1, 1);
    var b2 := packs.rest;
    ChunksChecked(b2, |packs.value|);
    var chunks := List(b' => Chunk(b', |packs.value|), b2, HMAC_SIZE + 5);
    FilesChecked(chunks.rest, ChunkLimit(x));
  }

  lemma ParseOfEncode(x: Index)
    requires Encodable(x) && WellFormed(x) && |Encode(x)| <= MAX_INDEX_SIZE
    ensures Parse(Encode(x)) == Parsed(x)
  {
    hide Encodable, EncodeHead, EncodeLists, ParseHead, ParseLists;
    var b := Encode(x);
    assert b[..8] == INDEX_MAGIC && b[8..] == EncodeHead(x) + EncodeLists(x);
    HeadRoundTrip(x, EncodeLists(x));
    ListsRoundTrip(x);
    assert x.session != 0;
  }

  /** An index that marshals comes back unchanged exactly when it passes the reader's
      checks; those checks never reject the writer's counts, sizes or wrapping deltas. */
  lemma RoundTrip(x: Index)
    requires Marshal(x).Some?
    ensures Parse(Marshal(x).value) == Parsed(x) <==> WellFormed(x)
  {
    if WellFormed(x) {
      hide Encodable, Encode, Parse, WellFormed;
      ParseOfEncode(x);
    }
    if Parse(Marshal(x).value) == Parsed(x) {
      hide Encodable, Encode, Parse, WellFormed;
      ParsedIsWellFormed(Marshal(x).value);
    }
  }
}
