/** Exactly the inputs on which the index and directory readers panic: an attributes length of
    2^63 or more is reported as too large and then still used as a slice bound
    (archive/incremental.go, archive/directory.go). */
module Panics {
  import opened Bytes
  import opened Format
  import opened Names
  import opened Varint
  import opened SessionIndex
  import Dir = Directory
  import A = Attributes

  /** The next field is a length that turns negative as an int. */
  predicate NegativeLength(b: bytes) { Number(b).Ok? && Number(b).value >= TWO_63 }

  lemma AttrsPanicIff(b: bytes)
    ensures Attrs(b).Panic? <==> NegativeLength(b)
  {
    hide A.Parse;
  }

  // ---- Fields that never panic ----

  lemma {:induction false} DeltasNeverPanic(b: bytes, prev: u64, count: nat, limit: u64)
    ensures !Deltas(b, prev, count, limit).Panic?
    decreases count
  {
    hide ChunksBelow;
    if count > 0 && Signed(b).Ok? {
      var n := WrapAdd(prev, ToUnsigned(Signed(b).value));
      if n < limit {
        DeltasNeverPanic(Signed(b).rest, n, count - 1, limit);
      }
    }
  }

  lemma ChunkNeverPanics(b: bytes, packs: nat)
    ensures !Chunk(b, packs).Panic?
  {
    hide Number, Slice;
    NumbersNeverPanic();
  }

  lemma NumbersNeverPanic()
    ensures forall b :: !Number(b).Panic?
    ensures forall b, n :: !Slice(b, n).Panic?
  {
  }

  lemma {:induction false} RepeatNeverPanics<T(!new)>(p: bytes -> Step<T>, b: bytes, count: nat)
    requires forall x :: !p(x).Panic?
    ensures !Repeat(p, b, count).Panic?
    decreases count
  {
    if count > 0 && p(b).Ok? {
      RepeatNeverPanics(p, p(b).rest, count - 1);
    }
  }

  lemma PacksAndChunksNeverPanic(b: bytes, packs: nat)
    ensures !List(Number, b, 1).Panic? && !List(b' => Chunk(b', packs), b, HMAC_SIZE + 5).Panic? && !List(Name, b, 2).Panic?
  {
    hide Repeat, Chunk;
    var chunk := b' => Chunk(b', packs);
    forall x ensures !chunk(x).Panic? { ChunkNeverPanics(x, packs); }
    if Count(b, 1).Ok? { RepeatNeverPanics(Number, Count(b, 1).rest, Count(b, 1).value); }
    if Count(b, HMAC_SIZE + 5).Ok? { RepeatNeverPanics(chunk, Count(b, HMAC_SIZE + 5).rest, Count(b, HMAC_SIZE + 5).value); }
    if Count(b, 2).Ok? { RepeatNeverPanics(Name, Count(b, 2).rest, Count(b, 2).value); }
  }

  // ---- The index ----

  /** A valid name and then a negative length. */
  predicate BadFile(b: bytes) { Name(b).Ok? && NegativeLength(Name(b).rest) }

  lemma FilePanicIff(b: bytes, limit: u64)
    ensures File(b, limit).Panic? <==> BadFile(b)
  {
    hide Attrs, Deltas, ChunksBelow;
    if Name(b).Ok? {
      AttrsPanicIff(Name(b).rest);
      if Attrs(Name(b).rest).Ok? {
        var b2 := Attrs(Name(b).rest).rest;
        if Number(b2).Ok? && Count(Number(b2).rest, 1).Ok? {
          var c := Count(Number(b2).rest, 1);
          DeltasNeverPanic(c.rest, 0, c.value, limit);
        }
      }
    }
  }

  /** After `k` elements that read, the next panics. */
  predicate PanicsAfter<T>(p: bytes -> Step<T>, b: bytes, k: nat) { Repeat(p, b, k).Ok? && p(Repeat(p, b, k).rest).Panic? }

  lemma PanicsLater<T>(p: bytes -> Step<T>, b: bytes, k: nat)
    requires p(b).Ok?
    ensures PanicsAfter(p, b, k + 1) <==> PanicsAfter(p, p(b).rest, k)
    ensures !PanicsAfter(p, b, 0)
  {
    assert Repeat(p, b, 0) == Ok([], b);
  }

  /** A list panics exactly at an element that does, after elements that read. */
  lemma {:induction false} RepeatPanicIff<T(!new)>(p: bytes -> Step<T>, b: bytes, count: nat)
    ensures Repeat(p, b, count).Panic? <==> exists k: nat :: k < count && PanicsAfter(p, b, k)
    decreases count
  {
    if count > 0 {
      assert Repeat(p, b, 0) == Ok([], b);
      assert PanicsAfter(p, b, 0) <==> p(b).Panic?;
      if p(b).Ok? {
        var b1 := p(b).rest;
        RepeatPanicIff(p, b1, count - 1);
        if Repeat(p, b, count).Panic? {
          var k: nat :| k < count - 1 && PanicsAfter(p, b1, k);
          PanicsLater(p, b, k);
        }
        if k: nat :| k < count && PanicsAfter(p, b, k) {
          PanicsLater(p, b, if k == 0 then 0 else k - 1);
        }
      } else if p(b).Malformed? {
        forall k: nat | 0 < k < count ensures Repeat(p, b, k).Malformed? {
        }
      }
    }
  }

  /** Where the files of an index start, how many it declares and which chunks they may use. */
  datatype FileList = FileList(bytes: bytes, count: nat, limit: u64)

  /** The file list of bytes that read up to there. */
  function FilesIn(b: bytes): Option<FileList>
  {
    if |b| > MAX_INDEX_SIZE || |b| < 8 || b[..8] != INDEX_MAGIC then None else
    match ParseHead(b[8..]) case Malformed => None case Panic => None case Ok(h, b1) =>
    match List(Number, b1, 1) case Malformed => None case Panic => None case Ok(packs, b2) =>
    match List(b' => Chunk(b', |packs|), b2, HMAC_SIZE + 5) case Malformed => None case Panic => None case Ok(chunks, b3) =>
    match Count(b3, 5) case Malformed => None case Panic => None case Ok(n, b4) =>
    Some(FileList(b4, n, (h.firstChunk + |chunks|) % TWO_64))
  }

  /** After `k` files that read, one with a negative attributes length follows. */
  predicate BadFileAfter(fs: FileList, k: nat)
  {
    k < fs.count && Repeat(b' => File(b', fs.limit), fs.bytes, k).Ok? && BadFile(Repeat(b' => File(b', fs.limit), fs.bytes, k).rest)
  }

  /** ParseSessionIndex panics exactly on bytes that read as an index up to some file whose name
      is valid and whose attributes length is 2^63 or more. */
  lemma IndexPanicIff(b: bytes)
    ensures Parse(b).Crashed? <==> FilesIn(b).Some? && exists k: nat :: BadFileAfter(FilesIn(b).value, k)
  {
    hide FilesIn, Parse, BadFileAfter;
    if FilesIn(b).Some? {
      FilesPanicIff(FilesIn(b).value);
      AfterFiles(b);
    } else {
      BeforeFiles(b);
    }
  }

  /** Bytes that do not read up to the files are refused. */
  lemma BeforeFiles(b: bytes)
    requires FilesIn(b).None?
    ensures !Parse(b).Crashed?
  {
    hide Repeat, Chunk, File, Name, ParseHead;
    if |b| >= 8 {
      HeadNeverPanics(b[8..]);
      if ParseHead(b[8..]).Ok? {
        var b1 := ParseHead(b[8..]).rest;
        PacksAndChunksNeverPanic(b1, 0);
        if List(Number, b1, 1).Ok? {
          PacksAndChunksNeverPanic(List(Number, b1, 1).rest, |List(Number, b1, 1).value|);
        }
      }
    }
  }

  lemma HeadNeverPanics(b: bytes)
    ensures !ParseHead(b).Panic?
  {
  }

  lemma FilesPanicIff(fs: FileList)
    ensures Repeat(b' => File(b', fs.limit), fs.bytes, fs.count).Panic? <==> exists k: nat :: BadFileAfter(fs, k)
  {
    hide File, BadFile, Repeat;
    var p := b' => File(b', fs.limit);
    RepeatPanicIff(p, fs.bytes, fs.count);
    forall x ensures p(x).Panic? <==> BadFile(x) { FilePanicIff(x, fs.limit); }
    forall k: nat ensures BadFileAfter(fs, k) <==> k < fs.count && PanicsAfter(p, fs.bytes, k) {
    }
  }

  lemma AfterFiles(b: bytes)
    requires FilesIn(b).Some?
    ensures Parse(b).Crashed? <==> Repeat(b' => File(b', FilesIn(b).value.limit), FilesIn(b).value.bytes, FilesIn(b).value.count).Panic?
  {
    hide Repeat, Number, Chunk, File, Name, ParseHead, Count;
    var fs := FilesIn(b).value;
    var files := Repeat(b' => File(b', fs.limit), fs.bytes, fs.count);
    if files.Ok? {
      PacksAndChunksNeverPanic(files.rest, 0);
    }
  }

  // ---- The directory ----

  predicate BadRecord(b: bytes) { Dir.ParseFront(b).Ok? && NegativeLength(Dir.ParseFront(b).rest) }

  lemma RecordPanicIff(b: bytes)
    ensures Dir.ParseRecord(b).Panic? <==> BadRecord(b)
  {
    hide Number, Attrs, Name;
    FrontNeverPanics(b);
    if Dir.ParseFront(b).Ok? {
      AttrsPanicIff(Dir.ParseFront(b).rest);
      TailPanics(Dir.ParseFront(b).rest);
    }
  }

  lemma FrontNeverPanics(b: bytes)
    ensures !Dir.ParseFront(b).Panic?
  {
  }

  lemma TailPanics(b: bytes)
    ensures Dir.ParseTail(b).Panic? <==> Attrs(b).Panic?
  {
    hide Attrs;
  }

  /** What is left after `k` records that read. */
  function AfterRecords(b: bytes, k: nat): Option<bytes>
    decreases k
  {
    hide Dir.ParseRecord;
    if k == 0 then Some(b)
    else if b == [] then None
    else match Dir.ParseRecord(b) case Ok(_, rest) => AfterRecords(rest, k - 1) case _ => None
  }

  predicate BadRecordAfter(b: bytes, k: nat) { AfterRecords(b, k).Some? && BadRecord(AfterRecords(b, k).value) }

  lemma {:induction false} RecordsPanicIff(b: bytes)
    ensures Dir.ParseRecords(b).Crashed? <==> exists k: nat :: BadRecordAfter(b, k)
    decreases |b|
  {
    hide Dir.ParseRecord, BadRecord;
    RecordPanicIff(b);
    NothingIsBad();
    assert BadRecordAfter(b, 0) <==> BadRecord(b);
    if b != [] && Dir.ParseRecord(b).Ok? {
      var rest := Dir.ParseRecord(b).rest;
      RecordsPanicIff(rest);
      if k: nat :| BadRecordAfter(b, k) {
        assert BadRecordAfter(rest, k - 1);
      }
      if k: nat :| BadRecordAfter(rest, k) {
        assert BadRecordAfter(b, k + 1);
      }
    } else {
      forall k: nat | k > 0 ensures AfterRecords(b, k).None? {
      }
    }
  }

  lemma NothingIsBad()
    ensures !BadRecord([])
  {
  }

  /** ParseDirectory panics exactly on a directory that reads up to some record whose name is
      valid and whose attributes length is 2^63 or more. */
  lemma DirectoryPanicIff(b: bytes)
    ensures Dir.ParseDirectory(b).Crashed? <==>
            && |b| <= Dir.MAX_DIRECTORY_SIZE && Dir.DIRECTORY_MAGIC <= b
            && exists k: nat :: BadRecordAfter(b[|Dir.DIRECTORY_MAGIC|..], k)
  {
    hide Dir.ParseRecords, BadRecordAfter;
    if Dir.DIRECTORY_MAGIC <= b {
      RecordsPanicIff(b[|Dir.DIRECTORY_MAGIC|..]);
    }
  }

  // ---- One input for each ----

  const NAME: bytes := [0x61]

  lemma ValidName()
    ensures ValidEntryName(NAME)
  {
    assert Elements([]) == [[]];
    assert NAME[1..] == [];
    assert Elements(NAME) == [NAME];
  }

  lemma DirectoryPanics()
    ensures Dir.ParseDirectory(Dir.DIRECTORY_MAGIC + (Uvarint(0) + (EncodeName(NAME) + ([0, 0, 0] + Uvarint(TWO_63))))).Crashed?
  {
    hide Number, Name, EncodeName, Uvarint, Dir.ParseDirectory, Dir.ParseFront;
    var length := Uvarint(TWO_63);
    var record := Uvarint(0) + (EncodeName(NAME) + ([0, 0, 0] + length));
    var b := Dir.DIRECTORY_MAGIC + record;
    FrontReads(length);
    assert length + [] == length;
    NumberRoundTrip(TWO_63, []);
    assert b[|Dir.DIRECTORY_MAGIC|..] == record;
    assert BadRecordAfter(record, 0);
    ShortRecord();
    DirectoryPanicIff(b);
  }

  lemma FrontReads(rest: bytes)
    ensures Dir.ParseFront(Uvarint(0) + (EncodeName(NAME) + ([0, 0, 0] + rest))) == Ok(Dir.Front(0, NAME, 0, 0, 0), rest)
  {
    hide Number, Name, EncodeName, Uvarint, Slice;
    NumberRoundTrip(0, EncodeName(NAME) + ([0, 0, 0] + rest));
    ValidName();
    NameRoundTrip(NAME, [0, 0, 0] + rest);
    Dir.SliceRoundTrip([0, 0, 0], rest);
  }

  lemma ShortRecord()
    ensures |Uvarint(0) + (EncodeName(NAME) + ([0, 0, 0] + Uvarint(TWO_63)))| <= 32
    ensures 5 <= |EncodeName(NAME) + Uvarint(TWO_63)| <= 32
  {
    ShortNumber(TWO_63, 10);
  }

  /** An index of one file, cut off after its attributes length. */
  function BadIndex(): bytes
  {
    var x := Index(1, 0, 0, 0, [], [], [], []);
    INDEX_MAGIC + (EncodeHead(x) + (Counted(EncodeNumber, []) + (Counted(EncodeChunk, []) + (Uvarint(1) + (EncodeName(NAME) + Uvarint(TWO_63))))))
  }

  lemma IndexPanics()
    ensures Parse(BadIndex()).Crashed?
  {
    hide Parse, List, Repeat, Count, EncodeHead, Counted, Uvarint, EncodeName, Number, Name, FilesIn;
    var x := Index(1, 0, 0, 0, [], [], [], []);
    var files := EncodeName(NAME) + Uvarint(TWO_63);
    BadIndexReads();
    ValidName();
    NameRoundTrip(NAME, Uvarint(TWO_63));
    assert Uvarint(TWO_63) + [] == Uvarint(TWO_63);
    NumberRoundTrip(TWO_63, []);
    FirstFileBad(FileList(files, 1, 0));
    IndexPanicIff(BadIndex());
  }

  lemma FirstFileBad(fs: FileList)
    requires fs.count > 0 && BadFile(fs.bytes)
    ensures BadFileAfter(fs, 0)
  {
    hide File, BadFile;
  }

  lemma BadIndexReads()
    ensures FilesIn(BadIndex()) == Some(FileList(EncodeName(NAME) + Uvarint(TWO_63), 1, 0))
  {
    hide List, Repeat, Count, EncodeHead, Counted, Uvarint, EncodeName, Number, Name, ParseHead, Chunk;
    var x := Index(1, 0, 0, 0, [], [], [], []);
    var files := EncodeName(NAME) + Uvarint(TWO_63);
    var rest := Uvarint(1) + files;
    var b := BadIndex();
    ShortRecord();
    ShortIndex();
    assert b[..8] == INDEX_MAGIC && b[8..] == EncodeHead(x) + (Counted(EncodeNumber, []) + (Counted(EncodeChunk, []) + rest));
    HeadRoundTrip(x, Counted(EncodeNumber, []) + (Counted(EncodeChunk, []) + rest));
    PacksRoundTrip([], Counted(EncodeChunk, []) + rest);
    ChunksRoundTrip([], 0, rest);
    CountRoundTrip(1, 5, files);
  }

  lemma ShortIndex()
    ensures |BadIndex()| <= 64
  {
    ShortRecord();
    ShortNumber(1, 1);
    ShortNumber(0, 1);
    assert ZigZag(0) == 0;
  }
}
