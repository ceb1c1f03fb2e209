/** The incremental archive as a file, and how it is loaded (io/incremental.go).

    A file is a sequence of cells. A cell is the k-th byte of one written object, so a
    read succeeds exactly where all bytes of an object are in place: sealed entries cannot
    be forged from torn bytes. The encoded length of a sealed entry depends on random
    padding and is part of the object. */
module ArchiveFile {
  import opened Bytes
  import opened Format
  import SI = SessionIndex

  /** Every sealed entry is at least this long: type, salt, frame header, sealed metadata,
      inter-block padding of at least 256 bytes, sentinel and trailer. */
  const MIN_ENTRY_SIZE := 1 + 32 + 32 + (12 + 4 + 16) + (4 + 256) + (12 + 4) + (4 + 12 + 4 + 40 + 16 + 8)

  type EntrySize = x: nat | x >= MIN_ENTRY_SIZE witness MIN_ENTRY_SIZE

  datatype Obj =
    | Header(length: Pos)
    | Pack(payload: bytes, size: EntrySize)
    | Index(payload: bytes, size: EntrySize)
    | Checkpoint(lastIndex: nat)
    | EndMarker
    | Footer
    | Signature(bytes: Pos)
    | SignatureTrailer(covers: nat)

  datatype Cell = Cell(obj: Obj, k: nat)

  predicate AllPacks(os: seq<Obj>) { forall i :: 0 <= i < |os| ==> os[i].Pack? }

  function Size(o: Obj): Pos
  {
    match o
    case Header(length) => length
    case Pack(_, size) => size
    case Index(_, size) => size
    case Checkpoint(_) => CHECKPOINT_SIZE
    case EndMarker => 1
    case Footer => FOOTER_SIZE
    case Signature(n) => n
    case SignatureTrailer(_) => SIGNATURE_TRAILER_SIZE
  }

  function Encode(o: Obj): (cs: seq<Cell>)
    ensures |cs| == Size(o)
  {
    seq(Size(o), (k: nat) => Cell(o, k))
  }

  function EncodeAll(os: seq<Obj>): seq<Cell>
  {
    if os == [] then [] else Encode(os[0]) + EncodeAll(os[1..])
  }

  lemma {:induction false} EncodeAllAppend(a: seq<Obj>, b: seq<Obj>)
    ensures EncodeAll(a + b) == EncodeAll(a) + EncodeAll(b)
  {
    hide Encode;
    if a == [] {
      assert a + b == b;
    } else {
      EncodeAllAppend(a[1..], b);
      assert (a + b)[1..] == a[1..] + b;
      assert Encode(a[0]) + (EncodeAll(a[1..]) + EncodeAll(b)) == (Encode(a[0]) + EncodeAll(a[1..])) + EncodeAll(b);
    }
  }

  /** The object whose bytes start at `off`, if all of them are there. */
  function ReadAt(cells: seq<Cell>, off: nat): (r: Option<Obj>)
    ensures r.Some? ==> off + Size(r.value) <= |cells| && cells[off] == Cell(r.value, 0)
  {
    if off < |cells| && cells[off].k == 0 && off + Size(cells[off].obj) <= |cells|
       && cells[off..off + Size(cells[off].obj)] == Encode(cells[off].obj)
    then Some(cells[off].obj) else None
  }

  lemma ReadAtEncoded(pre: seq<Cell>, o: Obj, post: seq<Cell>)
    ensures ReadAt(pre + Encode(o) + post, |pre|) == Some(o)
  {
    var cells := pre + Encode(o) + post;
    assert cells[|pre|] == Encode(o)[0];
    assert cells[|pre|..|pre| + Size(o)] == Encode(o);
  }

  lemma ReadAtCells(cells: seq<Cell>, off: nat)
    requires ReadAt(cells, off).Some?
    ensures var o := ReadAt(cells, off).value; forall i :: 0 <= i < Size(o) ==> cells[off + i] == Cell(o, i)
  {
    var o := ReadAt(cells, off).value;
    forall i | 0 <= i < Size(o) ensures cells[off + i] == Cell(o, i) {
      assert cells[off + i] == cells[off..off + Size(o)][i] == Encode(o)[i];
    }
  }

  /** What was readable stays readable in any file that begins with the same cells. */
  lemma ReadAtPrefix(cells: seq<Cell>, longer: seq<Cell>, off: nat)
    requires cells <= longer && ReadAt(cells, off).Some?
    ensures ReadAt(longer, off) == ReadAt(cells, off)
  {
    var o := ReadAt(cells, off).value;
    assert longer[off..off + Size(o)] == longer[..|cells|][off..off + Size(o)];
  }

  // ---- The state a reader reconstructs ----

  datatype ChunkLocation = ChunkLocation(id: SI.ChunkID, packOffset: nat, offset: nat, stored: nat, raw: nat, codec: byte)

  datatype Contents = Contents(chunks: seq<ChunkLocation>, files: map<bytes, SI.FileVersion>)

  const EMPTY := Contents([], map[])

  function Location(c: SI.ChunkRecord, packs: seq<u64>): ChunkLocation
    requires c.pack < |packs|
  {
    ChunkLocation(c.id, packs[c.pack], c.offset, c.storedLen, c.rawLen, c.codec)
  }

  function Locations(x: SI.Index): (ls: seq<ChunkLocation>)
    requires SI.WellFormed(x)
    ensures |ls| == |x.chunks|
  {
    seq(|x.chunks|, i requires 0 <= i < |x.chunks| =>
      assert x.chunks[i] in x.chunks;
      Location(x.chunks[i], x.packs))
  }

  predicate InRange(ns: seq<u64>, chunks: seq<ChunkLocation>)
  {
    forall i :: 0 <= i < |ns| ==> ns[i] < |chunks|
  }

  function RawSum(ns: seq<u64>, chunks: seq<ChunkLocation>): nat
    requires InRange(ns, chunks)
  {
    if ns == [] then 0 else chunks[ns[0]].raw + RawSum(ns[1..], chunks)
  }

  function ApplyFiles(files: map<bytes, SI.FileVersion>, fs: seq<SI.FileVersion>, chunks: seq<ChunkLocation>): Option<map<bytes, SI.FileVersion>>
    requires forall i :: 0 <= i < |fs| ==> InRange(fs[i].chunks, chunks)
    decreases |fs|
  {
    if fs == [] then Some(files)
    else if RawSum(fs[0].chunks, chunks) != fs[0].size then None
    else ApplyFiles(files[fs[0].name := fs[0]], fs[1..], chunks)
  }

  lemma FilesInRange(x: SI.Index, chunks: seq<ChunkLocation>)
    requires SI.WellFormed(x) && |chunks| == x.firstChunk + |x.chunks|
    ensures forall i :: 0 <= i < |x.files| ==> InRange(x.files[i].chunks, chunks)
  {
    forall i | 0 <= i < |x.files| ensures InRange(x.files[i].chunks, chunks) {
      assert x.files[i] in x.files;
      assert SI.ChunksBelow(x.files[i].chunks, SI.ChunkLimit(x));
    }
  }

  function ToSet(names: seq<bytes>): set<bytes> { set n | n in names }

  /** apply: every chunk lookup it makes is in range. */
  function Apply(c: Contents, x: SI.Index, indexOffset: nat, h: nat): Option<Contents>
    requires SI.WellFormed(x)
  {
    if x.firstChunk != |c.chunks| then None
    else if exists i :: 0 <= i < |x.packs| && (x.packs[i] < h || x.packs[i] >= indexOffset) then None
    else
      var chunks := c.chunks + Locations(x);
      FilesInRange(x, chunks);
      match ApplyFiles(c.files, x.files, chunks)
      case None => None
      case Some(files) => Some(Contents(chunks, files - ToSet(x.deleted)))
  }

  // ---- The log of sessions a file holds ----

  /** One session as written: its packs, then its index in an entry of `size` bytes. */
  datatype Session = Session(packs: seq<Obj>, index: SI.Index, size: EntrySize)

  function IndexObj(s: Session): Obj { Index(SI.Encode(s.index), s.size) }
  function Entries(s: Session): seq<Obj> { s.packs + [IndexObj(s)] }

  function Last<T>(s: seq<T>): T requires s != [] { s[|s| - 1] }
  function Front<T>(s: seq<T>): seq<T> requires s != [] { s[..|s| - 1] }

  /** Header and sessions, back to back. */
  function LogCells(h: Pos, log: seq<Session>): (cells: seq<Cell>)
    ensures |cells| >= h
  {
    if log == [] then Encode(Header(h)) else LogCells(h, Front(log)) + EncodeAll(Entries(Last(log)))
  }

  /** Where the newest index entry starts. */
  function IndexOffset(h: Pos, log: seq<Session>): nat
    requires log != []
  {
    |LogCells(h, Front(log))| + |EncodeAll(Last(log).packs)|
  }

  function Replay(h: Pos, log: seq<Session>): Option<Contents>
  {
    if log == [] then Some(EMPTY)
    else if !SI.WellFormed(Last(log).index) then None
    else match Replay(h, Front(log))
      case None => None
      case Some(c) => Apply(c, Last(log).index, IndexOffset(h, log), h)
  }

  predicate ValidSession(h: Pos, log: seq<Session>)
    requires log != []
  {
    var s := Last(log);
    && AllPacks(s.packs)
    && SI.Marshal(s.index).Some? && SI.WellFormed(s.index)
    && s.index.session == |log|
    && s.index.prevIndex == (if |log| == 1 then 0 else IndexOffset(h, Front(log)))
  }

  predicate ValidLog(h: Pos, log: seq<Session>)
  {
    log == [] || (ValidLog(h, Front(log)) && ValidSession(h, log) && Replay(h, log).Some?)
  }

  lemma IndexParses(s: Session)
    requires SI.Marshal(s.index).Some? && SI.WellFormed(s.index)
    ensures SI.Parse(SI.Encode(s.index)) == SI.Parsed(s.index)
  {
    hide SI.Parse, SI.Encode, SI.WellFormed, SI.Encodable;
    SI.RoundTrip(s.index);
  }

  lemma LogCellsStep(h: Pos, log: seq<Session>)
    requires log != []
    ensures LogCells(h, log) == LogCells(h, Front(log)) + EncodeAll(Last(log).packs) + Encode(IndexObj(Last(log)))
    ensures ReadAt(LogCells(h, log), IndexOffset(h, log)) == Some(IndexObj(Last(log)))
    ensures IndexOffset(h, log) + Last(log).size == |LogCells(h, log)|
  {
    hide SI.Encode, ReadAt, Encode, EncodeAll;
    var s := Last(log);
    var pre := LogCells(h, Front(log)) + EncodeAll(s.packs);
    EntriesEncoded(s);
    assert LogCells(h, log) == pre + Encode(IndexObj(s));
    ReadAtEncoded(pre, IndexObj(s), []);
    assert pre + Encode(IndexObj(s)) + [] == LogCells(h, log);
  }

  lemma EntriesEncoded(s: Session)
    ensures EncodeAll(Entries(s)) == EncodeAll(s.packs) + Encode(IndexObj(s))
  {
    hide SI.Encode, Encode;
    EncodeAllAppend(s.packs, [IndexObj(s)]);
    assert EncodeAll([IndexObj(s)]) == Encode(IndexObj(s)) + EncodeAll([]);
  }

  // ---- Reading ----

  function ReadIndexAt(cells: seq<Cell>, off: nat): (r: Option<SI.Index>)
    ensures r.Some? ==> SI.WellFormed(r.value)
  {
    match ReadAt(cells, off)
    case Some(Index(payload, _)) =>
      (match SI.Parse(payload)
       case Parsed(x) => SI.ParsedIsWellFormed(payload); Some(x)
       case _ => None)
    case _ => None
  }

  datatype Link = Link(index: SI.Index, offset: nat)

  predicate AllWellFormed(ls: seq<Link>) { forall i :: 0 <= i < |ls| ==> SI.WellFormed(ls[i].index) }

  /** readIndexChain, oldest first: sessions count down by one to 1, at falling offsets. */
  function ReadChain(cells: seq<Cell>, h: nat, off: nat): (r: Option<seq<Link>>)
    ensures r.Some? ==> r.value != []
    decreases off
  {
    hide ReadIndexAt, SI.WellFormed;
    match ReadIndexAt(cells, off)
    case None => None
    case Some(x) =>
      if x.session == 1 then (if x.prevIndex != 0 then None else Some([Link(x, off)]))
      else if x.prevIndex < h || x.prevIndex >= off then None
      else match ReadChain(cells, h, x.prevIndex)
        case None => None
        case Some(ls) =>
          if Last(ls).index.session != x.session - 1 then None else Some(ls + [Link(x, off)])
  }

  lemma {:induction false} ChainParsed(cells: seq<Cell>, h: nat, off: nat)
    requires ReadChain(cells, h, off).Some?
    ensures AllWellFormed(ReadChain(cells, h, off).value) && Last(ReadChain(cells, h, off).value).offset == off
    decreases off
  {
    hide ReadIndexAt, SI.WellFormed;
    var x := ReadIndexAt(cells, off).value;
    if x.session != 1 {
      ChainParsed(cells, h, x.prevIndex);
    }
  }

  /** A chain that reads is sessions 1..N, in order, at strictly increasing offsets. */
  lemma {:induction false} ChainIsContiguous(cells: seq<Cell>, h: nat, off: nat)
    requires ReadChain(cells, h, off).Some?
    ensures var ls := ReadChain(cells, h, off).value;
            && (forall i :: 0 <= i < |ls| ==> ls[i].index.session == i + 1)
            && (forall i, j :: 0 <= i < j < |ls| ==> ls[i].offset < ls[j].offset)
    decreases off
  {
    hide ReadIndexAt;
    var x := ReadIndexAt(cells, off).value;
    if x.session != 1 {
      ChainIsContiguous(cells, h, x.prevIndex);
      ChainParsed(cells, h, x.prevIndex);
      var prev := ReadChain(cells, h, x.prevIndex).value;
      assert forall i :: 0 <= i < |prev| ==> prev[i].offset <= Last(prev).offset;
    }
  }

  function ApplyChain(ls: seq<Link>, h: nat): Option<Contents>
    requires AllWellFormed(ls)
  {
    if ls == [] then Some(EMPTY)
    else match ApplyChain(Front(ls), h)
      case None => None
      case Some(c) => Apply(c, Last(ls).index, Last(ls).offset, h)
  }

  datatype Found = Found(lastIndex: nat, tail: nat)

  /** readCheckpoint over the first `|cells|` bytes. */
  function ReadCheckpoint(cells: seq<Cell>, h: nat): Option<Found>
  {
    if |cells| < TAIL_SIZE + h then None
    else
      var tail := |cells| - TAIL_SIZE;
      match ReadAt(cells, tail)
      case Some(Checkpoint(last)) =>
        if cells[tail + CHECKPOINT_SIZE] == Cell(EndMarker, 0) && h <= last < tail then Some(Found(last, tail)) else None
      case _ => None
  }

  /** scanForLastIndex from `off`, with the last complete index seen so far. */
  function Scan(cells: seq<Cell>, off: nat, seen: Option<Found>): Option<Found>
    decreases |cells| - off
  {
    match ReadAt(cells, off)
    case Some(Pack(_, size)) => Scan(cells, off + size, seen)
    case Some(Index(payload, size)) =>
      if SI.Parse(payload).Parsed? then Scan(cells, off + size, Some(Found(off, off + size))) else seen
    case _ => seen
  }

  /** splitSignature: how many bytes of the file are the archive proper. */
  function Proper(cells: seq<Cell>): (n: nat)
    ensures n <= |cells|
  {
    if |cells| < SIGNATURE_TRAILER_SIZE + FOOTER_SIZE then |cells|
    else match ReadAt(cells, |cells| - SIGNATURE_TRAILER_SIZE)
      case Some(SignatureTrailer(n)) =>
        if n == 0 || n > MAX_SIGNATURE_SIZE || n + SIGNATURE_TRAILER_SIZE + FOOTER_SIZE > |cells| then |cells|
        else |cells| - SIGNATURE_TRAILER_SIZE - n
      case _ => |cells|
  }

  datatype Disk = Disk(count: nat, cells: seq<Cell>)

  datatype State = State(sessions: nat, found: Found, recovered: bool, contents: Contents)

  /** loadIncremental. */
  function Load(d: Disk, h: nat): Option<State>
  {
    var cells := d.cells[..Proper(d.cells)];
    var checkpoint := ReadCheckpoint(cells, h);
    var found := if checkpoint.Some? then checkpoint else Scan(cells, h, None);
    match found case None => None case Some(f) =>
    match ReadChain(cells, h, f.lastIndex) case None => None case Some(ls) =>
    var newest := Last(ls).index.session;
    if newest < d.count then None else
    ChainParsed(cells, h, f.lastIndex);
    match ApplyChain(ls, h) case None => None case Some(c) =>
    Some(State(newest, f, checkpoint.None?, c))
  }
}
