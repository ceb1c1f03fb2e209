/** Marshal, ParseSessionIndex and indexDecoder (archive/incremental.go) in the source's own
    form: a growing buffer, and a decoder whose first error sticks. */
module IndexCodec {
  import opened Bytes
  import opened Format
  import opened Names
  import opened Varint
  import opened SessionIndex
  import A = Attributes

  // ---- Decoding ----

  /** What reading the remaining elements adds to those already read. */
  function Lead<T>(xs: seq<T>, r: Step<seq<T>>): Step<seq<T>>
  {
    match r case Ok(ys, rest) => Ok(xs + ys, rest) case Malformed => Malformed case Panic => Panic
  }

  lemma LeadStep<T>(p: bytes -> Step<T>, xs: seq<T>, b: bytes, k: nat)
    requires k > 0
    ensures match p(b)
            case Ok(x, rest) => Lead(xs, Repeat(p, b, k)) == Lead(xs + [x], Repeat(p, rest, k - 1))
            case Malformed => Lead(xs, Repeat(p, b, k)).Malformed?
            case Panic => Lead(xs, Repeat(p, b, k)).Panic?
  {
    if p(b).Ok? && Repeat(p, p(b).rest, k - 1).Ok? {
      var x, ys := p(b).value, Repeat(p, p(b).rest, k - 1).value;
      assert xs + ([x] + ys) == (xs + [x]) + ys;
    }
  }

  lemma LeadNone<T>(p: bytes -> Step<T>, xs: seq<T>, b: bytes, k: nat)
    ensures Lead([], Repeat(p, b, k)) == Repeat(p, b, k)
    ensures Lead(xs, Repeat(p, b, 0)) == Ok(xs, b)
  {
    assert xs + [] == xs;
    if Repeat(p, b, k).Ok? {
      assert [] + Repeat(p, b, k).value == Repeat(p, b, k).value;
    }
  }

  class IndexDecoder {
    var b: bytes
    var err: bool
    var crashed: bool // a slice expression got a negative bound

    constructor (b: bytes)
      ensures this.b == b && !err && !crashed
    {
      this.b, err, crashed := b, false, false;
    }

    /** The decoder after a step that gave `r`. */
    ghost predicate After<T>(r: Step<T>, v: T)
      reads this
    {
      match r
      case Ok(x, rest) => !err && !crashed && v == x && b == rest
      case Malformed => err && b == [] && !crashed
      case Panic => crashed
    }

    ghost predicate Ready()
      reads this
    {
      !crashed && (err ==> b == [])
    }

    method Fail()
      modifies this
      ensures err && b == [] && crashed == old(crashed)
    {
      err, b := true, [];
    }

    method ReadNumber() returns (v: u64)
      requires Ready()
      modifies this
      ensures Ready() && After(if old(err) then Malformed else Number(old(b)), v) && (err ==> v == 0)
    {
      match ReadUvarint(b)
      case Bad =>
        Fail();
        v := 0;
      case Got(x, rest) =>
        v, b := x, rest;
    }

    method ReadSigned() returns (v: i64)
      requires Ready()
      modifies this
      ensures Ready() && After(if old(err) then Malformed else Signed(old(b)), v)
    {
      match ReadVarint(b)
      case Bad =>
        Fail();
        v := 0;
      case Got(x, rest) =>
        v, b := x, rest;
    }

    /** count: bounded by what the remaining bytes can hold. */
    method ReadCount(minSize: nat) returns (n: nat)
      requires Ready() && minSize > 0
      modifies this
      ensures Ready() && n < TWO_64 && After(if old(err) then Malformed else Count(old(b), minSize), n) && (err ==> n == 0)
    {
      hide Number;
      n := ReadNumber();
      if n > |b| / minSize {
        Fail();
        return 0;
      }
    }

    method ReadSlice(n: nat) returns (out: bytes)
      requires Ready()
      modifies this
      ensures Ready() && After(if old(err) then Malformed else Slice(old(b), n), out) && (err ==> out == [])
    {
      if n > |b| {
        Fail();
        return [];
      }
      out := b[..n];
      b := b[n..];
    }

    method ReadName() returns (name: bytes)
      requires Ready()
      modifies this
      ensures Ready() && After(if old(err) then Malformed else Name(old(b)), name)
    {
      hide Number, Slice;
      var n := ReadNumber();
      if n > MAX_ENTRY_NAME_LEN {
        Fail();
        return [];
      }
      name := ReadSlice(n);
      if !err && !ValidEntryName(name) {
        Fail();
      }
    }

    method ReadChunk(packs: nat) returns (c: ChunkRecord)
      requires Ready()
      modifies this
      ensures Ready() && After(if old(err) then Malformed else Chunk(old(b), packs), c)
    {
      hide Number, Slice;
      var id := ReadSlice(HMAC_SIZE);
      var pack := ReadNumber();
      var offset := ReadNumber();
      var stored := ReadNumber();
      var raw := ReadNumber();
      var codec := ReadSlice(1);
      c := ChunkRecord(Zeros(HMAC_SIZE), 0, 0, 0, 0, 0);
      if err {
        return;
      }
      if pack >= packs || pack >= TWO_32
         || stored == 0 || stored > MAX_STORED_CHUNK_SIZE || raw == 0 || raw > MAX_CDC_CHUNK_SIZE
         || offset > MAX_PACK_SIZE || stored > MAX_PACK_SIZE - offset
         || (codec[0] != CODEC_NONE && codec[0] != CODEC_ZSTD)
         || (codec[0] == CODEC_NONE && stored != raw) {
        Fail();
        return;
      }
      c := ChunkRecord(id, pack, offset, stored, raw, codec[0]);
    }

    /** The attributes of a file: after "attributes too large" the length is still used. */
    method ReadAttributes() returns (a: A.Attributes)
      requires Ready()
      modifies this
      ensures After(if old(err) then Malformed else Attrs(old(b)), a) && (!crashed ==> Ready())
    {
      hide Number, Slice, A.Parse, A.Valid;
      a := A.Attributes(0, 0, 0, [], None, []);
      var n := ReadNumber();
      if n > A.MAX_ATTRIBUTES_SIZE {
        Fail();
      }
      if n >= TWO_63 {
        crashed := true;
        return;
      }
      var raw := ReadSlice(n);
      if !err {
        var parsed := A.ParseAttributes(raw);
        if parsed.None? {
          Fail();
        } else {
          a := parsed.value;
        }
      }
    }

    /** Chunk numbers from their wrapping differences. */
    method ReadDeltas(count: nat, limit: u64) returns (ns: seq<u64>)
      requires Ready()
      modifies this
      ensures !old(err) ==> After(Deltas(old(b), 0, count, limit), ns)
      ensures Ready() && (old(err) ==> err)
    {
      hide Signed, ChunksBelow;
      ns := [];
      var prev: u64 := 0;
      ghost var all := Deltas(b, 0, count, limit);
      assert all.Ok? ==> [] + all.value == all.value;
      for i := 0 to count
        invariant Ready() && (old(err) ==> err) && |ns| == i
        invariant !old(err) && !err ==> all == Lead(ns, Deltas(b, prev, count - i, limit))
        invariant !old(err) && err ==> all.Malformed?
      {
        DeltaStep(ns, b, prev, count - i, limit);
        var d := ReadSigned();
        var n := if err then prev else WrapAdd(prev, ToUnsigned(d));
        if !err && n >= limit {
          Fail();
        }
        ns := ns + [n];
        prev := n;
      }
      assert ns + [] == ns;
    }

    method ReadFile(limit: u64) returns (f: FileVersion)
      requires Ready()
      modifies this
      ensures After(if old(err) then Malformed else File(old(b), limit), f) && (!crashed ==> Ready())
    {
      hide Number, Name, Attrs, Count, Deltas;
      f := FileVersion([], A.Attributes(0, 0, 0, [], None, []), 0, []);
      var name := ReadName();
      var attrs := ReadAttributes();
      if crashed {
        return;
      }
      var size := ReadNumber();
      var count := ReadCount(1);
      var ns := ReadDeltas(count, limit);
      if err {
        return;
      }
      if attrs.kind != A.KIND_REGULAR && (size != 0 || ns != []) {
        Fail();
        return;
      }
      f := FileVersion(name, attrs, size, ns);
    }

    method ReadPacks() returns (xs: seq<u64>)
      requires Ready()
      modifies this
      ensures Ready() && After(if old(err) then Malformed else List(Number, old(b), 1), xs)
    {
      hide Number, Signed, Name, Chunk, File, Count, Repeat;
      ghost var p := Number;
      var n := ReadCount(1);
      xs := [];
      ghost var start, bad := b, err;
      LeadNone(p, [], b, n);
      for i := 0 to n
        invariant Ready() && (bad ==> err)
        invariant !err ==> Repeat(p, start, n) == Lead(xs, Repeat(p, b, n - i))
        invariant err ==> bad || Repeat(p, start, n).Malformed?
      {
        LeadStep(p, xs, b, n - i);
        var x := ReadNumber();
        xs := xs + [x];
      }
      LeadNone(p, xs, b, 0);
    }

    method ReadChunks(packs: nat) returns (xs: seq<ChunkRecord>)
      requires Ready()
      modifies this
      ensures Ready() && After(if old(err) then Malformed else List(b' => Chunk(b', packs), old(b), HMAC_SIZE + 5), xs)
    {
      hide Number, Signed, Name, Chunk, File, Count, Repeat;
      ghost var p := b' => Chunk(b', packs);
      var n := ReadCount(HMAC_SIZE + 5);
      xs := [];
      ghost var start, bad := b, err;
      LeadNone(p, [], b, n);
      for i := 0 to n
        invariant Ready() && (bad ==> err)
        invariant !err ==> Repeat(p, start, n) == Lead(xs, Repeat(p, b, n - i))
        invariant err ==> bad || Repeat(p, start, n).Malformed?
      {
        LeadStep(p, xs, b, n - i);
        var x := ReadChunk(packs);
        xs := xs + [x];
      }
      LeadNone(p, xs, b, 0);
    }

    method ReadFiles(limit: u64) returns (xs: seq<FileVersion>)
      requires Ready()
      modifies this
      ensures (!crashed ==> Ready()) && After(if old(err) then Malformed else List(b' => File(b', limit), old(b), 5), xs)
    {
      hide Number, Signed, Name, Chunk, File, Count, Repeat;
      ghost var p := b' => File(b', limit);
      var n := ReadCount(5);
      xs := [];
      ghost var start, bad := b, err;
      LeadNone(p, [], b, n);
      for i := 0 to n
        invariant Ready() && (bad ==> err)
        invariant !err ==> Repeat(p, start, n) == Lead(xs, Repeat(p, b, n - i))
        invariant err ==> bad || Repeat(p, start, n).Malformed?
      {
        LeadStep(p, xs, b, n - i);
        var x := ReadFile(limit);
        if crashed {
          return;
        }
        xs := xs + [x];
      }
      LeadNone(p, xs, b, 0);
    }

    method ReadNames() returns (xs: seq<bytes>)
      requires Ready()
      modifies this
      ensures Ready() && After(if old(err) then Malformed else List(Name, old(b), 2), xs)
    {
      hide Number, Signed, Name, Chunk, File, Count, Repeat;
      ghost var p := Name;
      var n := ReadCount(2);
      xs := [];
      ghost var start, bad := b, err;
      LeadNone(p, [], b, n);
      for i := 0 to n
        invariant Ready() && (bad ==> err)
        invariant !err ==> Repeat(p, start, n) == Lead(xs, Repeat(p, b, n - i))
        invariant err ==> bad || Repeat(p, start, n).Malformed?
      {
        LeadStep(p, xs, b, n - i);
        var x := ReadName();
        xs := xs + [x];
      }
      LeadNone(p, xs, b, 0);
    }

    method ReadHead() returns (h: Head)
      requires Ready() && !err
      modifies this
      ensures Ready() && After(ParseHead(old(b)), h)
    {
      hide Number, Signed;
      var session := ReadNumber();
      var time := ReadSigned();
      var prev := ReadNumber();
      var first := ReadNumber();
      h := Head(session, time, prev, first);
    }
  }

  /** ParseSessionIndex. */
  method ParseSessionIndex(b: bytes) returns (r: Parsed)
    ensures r == Parse(b)
  {
    hide ParseHead, List, Number, Name, Chunk, File;
    if |b| > MAX_INDEX_SIZE || |b| < 8 || b[..8] != INDEX_MAGIC {
      return Refused;
    }
    var d := new IndexDecoder(b[8..]);
    var h := d.ReadHead();
    var packs := d.ReadPacks();
    var chunks := d.ReadChunks(|packs|);
    var limit: u64 := (h.firstChunk + |chunks|) % TWO_64;
    var files := d.ReadFiles(limit);
    if d.crashed {
      return Crashed;
    }
    var deleted := d.ReadNames();
    if d.err || d.b != [] || h.session == 0 {
      return Refused;
    }
    return Parsed(Index(h.session, h.time, h.prevIndex, h.firstChunk, packs, chunks, files, deleted));
  }

  lemma DeltaStep(ns: seq<u64>, b: bytes, prev: u64, k: nat, limit: u64)
    requires k > 0
    ensures match Signed(b)
            case Ok(d, rest) =>
              var n := WrapAdd(prev, ToUnsigned(d));
              Lead(ns, Deltas(b, prev, k, limit)) == if n >= limit then Malformed else Lead(ns + [n], Deltas(rest, n, k - 1, limit))
            case _ => Lead(ns, Deltas(b, prev, k, limit)).Malformed?
  {
    hide ChunksBelow;
    if Signed(b).Ok? {
      var n := WrapAdd(prev, ToUnsigned(Signed(b).value));
      var tail := Deltas(Signed(b).rest, n, k - 1, limit);
      if n < limit && tail.Ok? {
        assert ns + ([n] + tail.value) == (ns + [n]) + tail.value;
      }
    }
  }

  // ---- Encoding ----

  lemma {:induction false} ManySnoc<T>(e: T -> bytes, xs: seq<T>, x: T)
    ensures Many(e, xs + [x]) == Many(e, xs) + e(x)
    decreases |xs|
  {
    if xs == [] {
      assert (xs + [x])[1..] == [];
    } else {
      ManySnoc(e, xs[1..], x);
      assert (xs + [x])[1..] == xs[1..] + [x];
    }
  }

  lemma ManyStep<T>(e: T -> bytes, xs: seq<T>, i: nat)
    requires i < |xs|
    ensures Many(e, xs[..i + 1]) == Many(e, xs[..i]) + e(xs[i])
  {
    ManySnoc(e, xs[..i], xs[i]);
    assert xs[..i + 1] == xs[..i] + [xs[i]];
  }

  method AppendPacks(dst: bytes, xs: seq<u64>) returns (b: bytes)
    requires |xs| < TWO_63
    ensures b == dst + Counted(EncodeNumber, xs)
  {
    hide Uvarint, Many;
    b := dst + Uvarint(|xs|);
    ghost var start := b;
    NoneYet(EncodeNumber, xs);
    for i := 0 to |xs|
      invariant b == start + Many(EncodeNumber, xs[..i])
    {
      ManyStep(EncodeNumber, xs, i);
      b := b + Uvarint(xs[i]);
    }
    assert xs[..|xs|] == xs;
  }

  lemma NoneYet<T>(e: T -> bytes, xs: seq<T>)
    ensures Many(e, xs[..0]) == []
  {
  }

  method AppendChunks(dst: bytes, xs: seq<ChunkRecord>) returns (b: bytes)
    requires |xs| < TWO_63
    ensures b == dst + Counted(EncodeChunk, xs)
  {
    hide Uvarint, Many;
    b := dst + Uvarint(|xs|);
    ghost var start := b;
    NoneYet(EncodeChunk, xs);
    for i := 0 to |xs|
      invariant b == start + Many(EncodeChunk, xs[..i])
    {
      ManyStep(EncodeChunk, xs, i);
      var c := xs[i];
      ghost var before := b;
      b := b + c.id;
      b := b + Uvarint(c.pack);
      b := b + Uvarint(c.offset);
      b := b + Uvarint(c.storedLen);
      b := b + Uvarint(c.rawLen);
      b := b + [c.codec];
      ChunkPieces(before, c);
    }
    assert xs[..|xs|] == xs;
  }

  lemma ChunkPieces(b: bytes, c: ChunkRecord)
    ensures b + c.id + Uvarint(c.pack) + Uvarint(c.offset) + Uvarint(c.storedLen) + Uvarint(c.rawLen) + [c.codec] == b + EncodeChunk(c)
  {
    hide Uvarint;
  }

  /** One file, or None when it cannot be encoded. */
  method AppendFile(dst: bytes, f: FileVersion) returns (r: Option<bytes>)
    requires |f.chunks| < TWO_63
    ensures r == if FileEncodable(f) then Some(dst + EncodeFile(f)) else None
  {
    hide Uvarint, ValidEntryName, A.Valid, A.Encode, EncodeDeltas;
    if !ValidEntryName(f.name) || (f.attributes.kind != A.KIND_REGULAR && (f.size != 0 || f.chunks != [])) {
      return None;
    }
    var attrs := A.AppendAttributes([], f.attributes);
    if attrs.None? {
      return None;
    }
    assert [] + A.Encode(f.attributes) == A.Encode(f.attributes);
    var b := dst + EncodeName(f.name);
    b := b + Uvarint(|attrs.value|);
    b := b + attrs.value;
    b := b + Uvarint(f.size);
    b := b + Uvarint(|f.chunks|);
    var deltas := Differences(f.chunks);
    FilePieces(dst, f);
    return Some(b + deltas);
  }

  /** Chunk numbers as wrapping differences. */
  method Differences(ns: seq<u64>) returns (b: bytes)
    ensures b == EncodeDeltas(0, ns)
  {
    hide SignedVarint;
    b := [];
    var prev: u64 := 0;
    assert ns[0..] == ns;
    for i := 0 to |ns|
      invariant EncodeDeltas(0, ns) == b + EncodeDeltas(prev, ns[i..])
    {
      assert ns[i..][1..] == ns[i + 1..];
      b := b + SignedVarint(ToSigned(WrapSub(ns[i], prev)));
      prev := ns[i];
    }
    assert ns[|ns|..] == [];
  }

  lemma FilePieces(b: bytes, f: FileVersion)
    ensures var attrs := A.Encode(f.attributes);
            b + EncodeName(f.name) + Uvarint(|attrs|) + attrs + Uvarint(f.size) + Uvarint(|f.chunks|) + EncodeDeltas(0, f.chunks) == b + EncodeFile(f)
  {
    hide Uvarint, EncodeName, A.Encode, EncodeDeltas;
  }

  method AppendFiles(dst: bytes, fs: seq<FileVersion>) returns (r: Option<bytes>)
    requires |fs| < TWO_63 && forall i :: 0 <= i < |fs| ==> |fs[i].chunks| < TWO_63
    ensures r == if forall f :: f in fs ==> FileEncodable(f) then Some(dst + Counted(EncodeFile, fs)) else None
  {
    hide Uvarint, Many, FileEncodable, EncodeFile;
    var b := dst + Uvarint(|fs|);
    ghost var start := b;
    NoneYet(EncodeFile, fs);
    for i := 0 to |fs|
      invariant b == start + Many(EncodeFile, fs[..i])
      invariant forall k :: 0 <= k < i ==> FileEncodable(fs[k])
    {
      ManyStep(EncodeFile, fs, i);
      var next := AppendFile(b, fs[i]);
      if next.None? {
        assert fs[i] in fs;
        return None;
      }
      b := next.value;
    }
    assert fs[..|fs|] == fs;
    assert b == dst + Counted(EncodeFile, fs);
    return Some(b);
  }

  method AppendNames(dst: bytes, names: seq<bytes>) returns (r: Option<bytes>)
    requires |names| < TWO_63
    ensures r == if forall n :: n in names ==> ValidEntryName(n) then Some(dst + Counted(EncodeName, names)) else None
  {
    hide Uvarint, Many, ValidEntryName;
    var b := dst + Uvarint(|names|);
    ghost var start := b;
    NoneYet(EncodeName, names);
    for i := 0 to |names|
      invariant b == start + Many(EncodeName, names[..i])
      invariant forall k :: 0 <= k < i ==> ValidEntryName(names[k])
    {
      ManyStep(EncodeName, names, i);
      if !ValidEntryName(names[i]) {
        assert names[i] in names;
        return None;
      }
      b := b + EncodeName(names[i]);
    }
    assert names[..|names|] == names;
    assert b == dst + Counted(EncodeName, names);
    return Some(b);
  }

  /** SessionIndex.Marshal. */
  method MarshalIndex(x: Index) returns (r: Option<bytes>)
    requires |x.packs| < TWO_63 && |x.chunks| < TWO_63 && |x.files| < TWO_63 && |x.deleted| < TWO_63
    requires forall i :: 0 <= i < |x.files| ==> |x.files[i].chunks| < TWO_63
    ensures r == Marshal(x)
  {
    hide Uvarint, Counted, FileEncodable, ValidEntryName;
    var b := INDEX_MAGIC + Uvarint(x.session);
    b := b + SignedVarint(x.time);
    b := b + Uvarint(x.prevIndex);
    b := b + Uvarint(x.firstChunk);
    b := AppendPacks(b, x.packs);
    b := AppendChunks(b, x.chunks);
    var files := AppendFiles(b, x.files);
    if files.None? {
      return None;
    }
    var all := AppendNames(files.value, x.deleted);
    if all.None? {
      return None;
    }
    IndexPieces(x);
    if |all.value| > MAX_INDEX_SIZE {
      return None;
    }
    return all;
  }

  lemma IndexPieces(x: Index)
    requires |x.packs| < TWO_63
    ensures INDEX_MAGIC + Uvarint(x.session) + SignedVarint(x.time) + Uvarint(x.prevIndex) + Uvarint(x.firstChunk)
            + Counted(EncodeNumber, x.packs) + Counted(EncodeChunk, x.chunks) + Counted(EncodeFile, x.files) + Counted(EncodeName, x.deleted)
         == Encode(x)
  {
    hide Uvarint, SignedVarint, Counted;
  }
}
