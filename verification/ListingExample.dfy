/** The archives the listing theorem is about exist: keys whose seal only appends a zero tag,
    and an archive of one file and one solid group written with them. */
module ListingExample {
  import opened Bytes
  import opened Format
  import opened Container
  import opened Listing
  import A = Attributes
  import D = Decryption
  import Names
  import opened Varint
  import SS = SolidStream
  import Dir = Directory
  import U = Unpacking

  const NAME: bytes := [0x61]
  const PLAIN := A.Attributes(A.KIND_REGULAR, 0x1A4, 0, [], None, [])
  const TAG: bytes := Zeros(TAG_SIZE)
  const PIECE := MAX_BLOCK - TAG_SIZE

  function Untagged(ct: bytes): Option<bytes> { if |ct| < TAG_SIZE then None else Some(ct[..|ct| - TAG_SIZE]) }

  function OpenKeys(): Keys
  {
    Keys((salt: bytes, s: Sealed) => Some(Meta([], 0, CODEC_NONE, Some(PLAIN), 0)),
         (salt: bytes, blob: bytes) => Some(NAME),
         (salt: bytes, codec: byte, s: Sealed) => (match Untagged(s.ct) case Some(p) => D.Plain(p) case None => D.BadAuth),
         (salt: bytes, s: Sealed) => Untagged(s.ct),
         (salt: bytes, p: bytes) => Zeros(HMAC_SIZE),
         (p: bytes) => None)
  }

  function Pieces(p: bytes): seq<bytes>
    decreases |p|
  {
    if p == [] then [] else [p[..Min(|p|, PIECE)]] + Pieces(p[Min(|p|, PIECE)..])
  }

  function Tagged(ps: seq<bytes>): (bs: seq<Sealed>)
    ensures |bs| == |ps| && forall i :: 0 <= i < |ps| ==> bs[i] == Sealed(Zeros(NONCE_SIZE), ps[i] + TAG)
  {
    seq(|ps|, i requires 0 <= i < |ps| => Sealed(Zeros(NONCE_SIZE), ps[i] + TAG))
  }

  function SealAs(kind: byte, p: bytes): Entry
  {
    Entry(kind, Zeros(SALT_SIZE), Zeros(FRAME_SIZE), Sealed(Zeros(NONCE_SIZE), []), [], Tagged(Pieces(p)), [],
          Sealed(Zeros(NONCE_SIZE), Zeros(HMAC_SIZE) + LE(|p|, 8) + TAG), Zeros(ENTRY_CHECKSUM_SIZE))
  }

  lemma {:induction false} PiecesRejoin(p: bytes)
    ensures Flatten(Pieces(p)) == p && forall i :: 0 <= i < |Pieces(p)| ==> |Pieces(p)[i]| <= PIECE
    decreases |p|
  {
    if p != [] {
      var n := Min(|p|, PIECE);
      PiecesRejoin(p[n..]);
      assert p == p[..n] + p[n..];
      assert Pieces(p)[1..] == Pieces(p[n..]);
    }
  }

  lemma {:induction false} AllOpen(ps: seq<bytes>, n: nat)
    requires n <= |ps|
    ensures var x := D.Stream(Opens(OpenKeys(), Zeros(SALT_SIZE), CODEC_NONE, Tagged(ps)), D.Sentinel);
            D.Prefix(x, i => false, n) == (ps[..n], None)
  {
    if n > 0 {
      AllOpen(ps, n - 1);
      assert (ps[n - 1] + TAG)[..|ps[n - 1]|] == ps[n - 1];
      assert ps[..n] == ps[..n - 1] + [ps[n - 1]];
    }
  }

  lemma SealedFits(kind: byte, p: bytes)
    ensures WellFramed(SealAs(kind, p))
  {
    hide Flatten, Pieces, LE;
    PiecesRejoin(p);
  }

  lemma BlocksOpen(p: bytes)
    ensures OpenBlocks(OpenKeys(), Zeros(SALT_SIZE), CODEC_NONE, Tagged(Pieces(p)), i => false) == (p, None)
  {
    hide Flatten, Pieces, D.Prefix, Opens, OpenKeys;
    var ps := Pieces(p);
    PiecesRejoin(p);
    AllOpen(ps, |ps|);
    assert ps[..|ps|] == ps;
  }

  lemma TrailerOpens(p: bytes)
    requires |p| < TWO_64
    ensures var keys, s := OpenKeys(), Sealed(Zeros(NONCE_SIZE), Zeros(HMAC_SIZE) + LE(|p|, 8) + TAG);
            && keys.trailer(Zeros(SALT_SIZE), s) == Some(Zeros(HMAC_SIZE) + LE(|p|, 8)) && FromLE(LE(|p|, 8)) == |p|
            && TrailerProblem(keys, Zeros(SALT_SIZE), s, p).None?
  {
    hide LE, FromLE;
    var payload := Zeros(HMAC_SIZE) + LE(|p|, 8);
    assert (payload + TAG)[..TRAILER_PAYLOAD_SIZE] == payload;
    assert payload[..HMAC_SIZE] == Zeros(HMAC_SIZE) && payload[HMAC_SIZE..] == LE(|p|, 8);
    Pow256Values();
    FromLEOfLE(|p|, 8);
  }

  /** What is sealed opens whole. */
  lemma SealedOpens(kind: byte, p: bytes)
    requires |p| < TWO_64
    ensures var e, keys := SealAs(kind, p), OpenKeys();
            && WellFramed(e) && OpenBlocks(keys, e.salt, CODEC_NONE, e.blocks, i => false) == (p, None)
            && keys.trailer(e.salt, e.trailer) == Some(Zeros(HMAC_SIZE) + LE(|p|, 8)) && FromLE(LE(|p|, 8)) == |p|
            && TrailerProblem(keys, e.salt, e.trailer, p).None?
  {
    hide Pieces, LE, FromLE, OpenKeys, WellFramed, OpenBlocks, TrailerProblem;
    SealedFits(kind, p);
    BlocksOpen(p);
    TrailerOpens(p);
  }

  lemma ValidName()
    ensures Names.ValidEntryName(NAME)
  {
    assert Names.Elements([]) == [[]];
    assert NAME[1..] == [];
    assert Names.Elements(NAME) == [NAME];
  }

  function ExampleItems(): seq<Item>
  {
    [File(NAME, PLAIN, 0, CODEC_NONE, 3), Item.Group([SS.Member(NAME, PLAIN, [7])], CODEC_NONE)]
  }

  function ExampleEntries(): seq<Entry>
  {
    [SealAs(ENTRY_FILE, [1, 2, 3]), SealAs(ENTRY_SOLID, SS.EncodeStream([SS.Member(NAME, PLAIN, [7])]))]
  }

  lemma FileHolds()
    ensures Holds(OpenKeys(), ExampleItems()[0], ExampleEntries()[0])
  {
    hide LE, FromLE, OpenBlocks, TrailerProblem, WellFramed, Pieces;
    SealedOpens(ENTRY_FILE, [1, 2, 3]);
    assert (Zeros(HMAC_SIZE) + LE(3, 8))[HMAC_SIZE..] == LE(3, 8);
  }

  lemma GroupHolds()
    ensures Holds(OpenKeys(), ExampleItems()[1], ExampleEntries()[1])
  {
    hide LE, FromLE, OpenBlocks, TrailerProblem, WellFramed, Pieces, SS.Parse, SS.EncodeStream;
    var m := SS.Member(NAME, PLAIN, [7]);
    ShortStream(m);
    ValidName();
    SealedOpens(ENTRY_SOLID, SS.EncodeStream([m]));
    SS.ParseIffEncode(SS.EncodeStream([m]), [m]);
  }

  lemma ShortStream(m: SS.Member)
    requires m == SS.Member(NAME, PLAIN, [7])
    ensures |SS.EncodeStream([m])| <= SS.MAX_SOLID_STREAM_SIZE
  {
    hide A.Encode, LE;
    A.EncodeLength(PLAIN);
    assert [m][1..] == [];
  }

  lemma TaggedOpen(ps: seq<bytes>)
    ensures U.BlocksOpen(OpenKeys(), Zeros(SALT_SIZE), CODEC_NONE, Tagged(ps), ps)
  {
    forall i | 0 <= i < |ps| ensures OpenKeys().block(Zeros(SALT_SIZE), CODEC_NONE, Tagged(ps)[i]) == D.Plain(ps[i]) {
      assert (ps[i] + TAG)[..|ps[i]|] == ps[i];
    }
  }

  /** Entries that open to their items, in the sense of archiving and extracting, exist too. */
  lemma ItemsOpen()
    ensures var m := SS.Member(NAME, PLAIN, [7]);
            && U.OpensTo(OpenKeys(), ExampleEntries()[0], U.File(NAME, Some(PLAIN), Pieces([1, 2, 3])))
            && U.OpensTo(OpenKeys(), ExampleEntries()[1], U.Members([m], Pieces(SS.EncodeStream([m]))))
  {
    hide LE, FromLE, WellFramed, Pieces, SS.EncodeStream, U.BlocksOpen, Flatten, Tagged;
    var m := SS.Member(NAME, PLAIN, [7]);
    ValidName();
    ShortStream(m);
    SealedFits(ENTRY_FILE, [1, 2, 3]);
    SealedFits(ENTRY_SOLID, SS.EncodeStream([m]));
    PiecesRejoin([1, 2, 3]);
    PiecesRejoin(SS.EncodeStream([m]));
    TaggedOpen(Pieces([1, 2, 3]));
    TaggedOpen(Pieces(SS.EncodeStream([m])));
    TrailerOpens([1, 2, 3]);
    TrailerOpens(SS.EncodeStream([m]));
  }

  lemma {:induction false} BlocksLength(p: bytes)
    ensures |EncodeBlocks(Tagged(Pieces(p)))| <= 33 * |p| + |SENTINEL|
    decreases |p|
  {
    hide LE;
    if p != [] {
      var n := Min(|p|, PIECE);
      BlocksLength(p[n..]);
      assert Pieces(p)[1..] == Pieces(p[n..]);
      assert Tagged(Pieces(p))[1..] == Tagged(Pieces(p[n..]));
      assert |EncodeSealed(Tagged(Pieces(p))[0])| == NONCE_SIZE + 4 + n + TAG_SIZE;
    }
  }

  lemma EntryLength(kind: byte, p: bytes)
    ensures |EncodeEntry(SealAs(kind, p))| <= 33 * |p| + 1024
  {
    hide LE, Pieces, EncodeBlocks;
    BlocksLength(p);
  }

  lemma RecordLength(r: Dir.Record)
    requires r.name == NAME && r.attributes == PLAIN
    ensures Dir.Encodable(r) && |Dir.EncodeRecord(r)| <= 128 + A.MAX_ATTRIBUTES_SIZE
  {
    hide A.Encode, Uvarint;
    ValidName();
    A.EncodeLength(PLAIN);
    ShortU64(r.offset);
    ShortU64(r.original);
    ShortU64(r.stored);
    ShortU64(|NAME|);
    ShortU64(|A.Encode(PLAIN)|);
  }

  lemma RecordsLength(a: Dir.Record, b: Dir.Record)
    requires a.name == b.name == NAME && a.attributes == b.attributes == PLAIN
    ensures Dir.Fits([a, b])
  {
    hide Dir.Encodable, Dir.EncodeRecord;
    RecordLength(a);
    RecordLength(b);
    assert [a, b][1..] == [b] && [b][1..] == [];
    assert Dir.EncodeRecords([b]) == Dir.EncodeRecord(b) + Dir.EncodeRecords([]);
    assert Dir.EncodeRecords([a, b]) == Dir.EncodeRecord(a) + Dir.EncodeRecords([b]);
  }

  lemma ExampleWritable()
    ensures Writable([], ExampleItems(), ExampleEntries())
  {
    hide EncodeEntry, SealAs, SS.EncodeStream, Dir.Fits, Stored, StartOf, Share;
    var items, es, m := ExampleItems(), ExampleEntries(), SS.Member(NAME, PLAIN, [7]);
    ShortStream(m);
    EntryLength(ENTRY_FILE, [1, 2, 3]);
    EntryLength(ENTRY_SOLID, SS.EncodeStream([m]));
    assert es[1..] == [es[1]] && es[1..][1..] == [];
    var first, second := AllRecords(0, items, es, 1), AllRecords(0, items, es, 2);
    assert first == RecordsOf(items[0], StartOf(0, es, 0) % TWO_64, Stored(es[0].blocks) % TWO_64);
    assert |second| == 2 && second == [second[0], second[1]];
    RecordsLength(second[0], second[1]);
  }

  /** Every precondition of ListBothWays can be met together, and a file then results. */
  lemma ArchivesExist()
    ensures var keys := OpenKeys();
            && TagOnly(keys) && AllHold(keys, ExampleItems(), ExampleEntries())
            && (forall p :: |p| <= Dir.MAX_DIRECTORY_SIZE ==> Seals(keys, p, SealAs(ENTRY_DIRECTORY, p)))
            && Writable([], ExampleItems(), ExampleEntries())
  {
    hide Holds, TagOnly, Seals, OpenKeys, SealAs, Writable;
    ExampleWritable();
    AddsATag();
    FileHolds();
    GroupHolds();
    forall p | |p| <= Dir.MAX_DIRECTORY_SIZE ensures Seals(OpenKeys(), p, SealAs(ENTRY_DIRECTORY, p)) {
      DirectorySeals(p);
    }
  }

  lemma AddsATag()
    ensures TagOnly(OpenKeys())
  {
  }

  lemma DirectorySeals(p: bytes)
    requires |p| < TWO_64
    ensures Seals(OpenKeys(), p, SealAs(ENTRY_DIRECTORY, p))
  {
    hide OpenBlocks, TrailerProblem, WellFramed, Pieces;
    SealedOpens(ENTRY_DIRECTORY, p);
  }
}
