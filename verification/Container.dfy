/** Entry framing and extraction (archive/writer.go, io/extractor.go, io/solid.go): entries
    as bytes, and readers that stay on entry boundaries whatever fails to open. */
module Container {
  import opened Bytes
  import opened Format
  import A = Attributes
  import D = Decryption
  import SS = SolidStream

  const ENTRY_FILE: byte := 1
  const ENTRY_SOLID: byte := 2
  const ENTRY_DIRECTORY: byte := 6
  const ENTRY_LOCATOR: byte := 7

  const NONCE_SIZE := 12
  const TAG_SIZE := 16
  const SALT_SIZE := 32
  const FRAME_SIZE := 32
  const ENTRY_CHECKSUM_SIZE := 8
  const TRAILER_PAYLOAD_SIZE := HMAC_SIZE + 8
  const MAX_TRAILER := TRAILER_PAYLOAD_SIZE + TAG_SIZE
  const MAX_BLOCK := 256 * 1024 + 32 * 1024 + 256 + TAG_SIZE
  const MAX_METADATA := 2 + 0xFFFF + 1 + 32 + 4 + 1 + 4 + A.MAX_ATTRIBUTES_SIZE + TAG_SIZE

  // ---- Entries ----

  /** A sealed value: a nonce and a ciphertext with its tag. */
  datatype Sealed = Sealed(nonce: bytes, ct: bytes)

  datatype Entry = Entry(kind: byte, salt: bytes, frame: bytes, meta: Sealed, pad: bytes, blocks: seq<Sealed>,
                         trailerPad: bytes, trailer: Sealed, checksum: bytes)

  predicate FramedSealed(s: Sealed, min: nat, max: nat) { |s.nonce| == NONCE_SIZE && min <= |s.ct| <= max }

  /** Every length fits its field; block sizes lie between the tag size and the maximum. */
  predicate WellFramed(e: Entry)
  {
    && |e.salt| == SALT_SIZE && |e.frame| == FRAME_SIZE && FramedSealed(e.meta, 0, MAX_METADATA)
    && |e.pad| < TWO_32 && FramedBlocks(e.blocks)
    && |e.trailerPad| < TWO_32 && FramedSealed(e.trailer, 0, MAX_TRAILER) && |e.checksum| == ENTRY_CHECKSUM_SIZE
  }

  predicate FramedBlocks(blocks: seq<Sealed>)
  {
    forall i :: 0 <= i < |blocks| ==> FramedSealed(blocks[i], TAG_SIZE, MAX_BLOCK)
  }

  function EncodeSealed(s: Sealed): bytes { s.nonce + (LE(|s.ct|, 4) + s.ct) }

  function EncodePad(p: bytes): bytes { LE(|p|, 4) + p }

  const SENTINEL: bytes := Zeros(NONCE_SIZE + 4)

  function EncodeBlocks(blocks: seq<Sealed>): bytes
  {
    if blocks == [] then SENTINEL else EncodeSealed(blocks[0]) + EncodeBlocks(blocks[1..])
  }

  function EncodeTrailer(e: Entry): bytes { EncodePad(e.trailerPad) + (EncodeSealed(e.trailer) + e.checksum) }

  function EncodeRest(e: Entry): bytes { EncodePad(e.pad) + (EncodeBlocks(e.blocks) + EncodeTrailer(e)) }

  /** All but the type byte. */
  function EncodeBody(e: Entry): bytes { e.salt + (e.frame + (EncodeSealed(e.meta) + EncodeRest(e))) }

  function EncodeEntry(e: Entry): (b: bytes) ensures b != [] { [e.kind] + EncodeBody(e) }

  /** The encoded payload size: ciphertext without tags. */
  function Stored(blocks: seq<Sealed>): int
  {
    if blocks == [] then 0 else |blocks[0].ct| - TAG_SIZE + Stored(blocks[1..])
  }

  // ---- Reading: each step consumes a prefix of what is left ----

  datatype Code = Truncated | IntegrityFail | AuthFailed | WriteFailed

  /** A result, or an error that ends the archive (fatal) or only the entry. */
  datatype Step<+T> = Ok(value: T, rest: bytes) | Err(fatal: bool, code: Code, rest: bytes)

  function SkipPadding(b: bytes): (r: Option<bytes>)
    ensures r.Some? ==> |r.value| < |b|
  {
    if |b| < 4 then None
    else
      var n := FromLE(b[..4]);
      if |b| - 4 < n then None else Some(b[4 + n..])
  }

  datatype Sealing = Short | TooBig(rest: bytes) | Read(value: Sealed, rest: bytes)

  /** Nonce, size and ciphertext. */
  function ReadSealed(b: bytes, limit: nat): (r: Sealing)
    ensures !r.Short? ==> |r.rest| < |b|
  {
    if |b| < NONCE_SIZE + 4 then Short
    else
      var n := FromLE(b[NONCE_SIZE..NONCE_SIZE + 4]);
      var after := b[NONCE_SIZE + 4..];
      if n > limit then TooBig(after)
      else if |after| < n then Short
      else Read(Sealed(b[..NONCE_SIZE], after[..n]), after[n..])
  }

  function SkipDataBlocks(b: bytes): (r: Step<int>)
    ensures |r.rest| <= |b|
    decreases |b|
  {
    if |b| < NONCE_SIZE + 4 then Err(false, Truncated, [])
    else
      var n := FromLE(b[NONCE_SIZE..NONCE_SIZE + 4]);
      var after := b[NONCE_SIZE + 4..];
      if n == 0 then Ok(0, after)
      else if n > MAX_BLOCK || n < TAG_SIZE then Err(true, IntegrityFail, after)
      else if |after| < n then Err(false, Truncated, [])
      else match SkipDataBlocks(after[n..])
        case Ok(stored, rest) => Ok(n - TAG_SIZE + stored, rest)
        case Err(f, c, rest) => Err(f, c, rest)
  }

  datatype Blocks = Blocks(blocks: seq<Sealed>, end: D.End, rest: bytes)

  /** The blocks streamDataBlocks pulls; an archive that ends inside a nonce ends the blocks. */
  function ReadBlocks(b: bytes): (r: Blocks)
    ensures |r.rest| <= |b|
    decreases |b|
  {
    if |b| < NONCE_SIZE then Blocks([], D.Sentinel, [])
    else if |b| < NONCE_SIZE + 4 then Blocks([], D.ReadError(false), [])
    else
      var n := FromLE(b[NONCE_SIZE..NONCE_SIZE + 4]);
      var after := b[NONCE_SIZE + 4..];
      if n == 0 then Blocks([], D.Sentinel, after)
      else if n > MAX_BLOCK then Blocks([], D.ReadError(true), after)
      else if |after| < n then Blocks([], D.ReadError(false), [])
      else
        var more := ReadBlocks(after[n..]);
        more.(blocks := [Sealed(b[..NONCE_SIZE], after[..n])] + more.blocks)
  }

  /** skipTrailer: framing errors are fatal. */
  function SkipTrailer(b: bytes): (r: Step<()>)
    ensures |r.rest| <= |b|
  {
    match SkipPadding(b)
    case None => Err(true, Truncated, [])
    case Some(b1) =>
      if |b1| < NONCE_SIZE + 4 then Err(true, Truncated, [])
      else
        var n := FromLE(b1[NONCE_SIZE..NONCE_SIZE + 4]);
        var after := b1[NONCE_SIZE + 4..];
        if n > MAX_TRAILER then Err(true, IntegrityFail, after)
        else if |after| < n + ENTRY_CHECKSUM_SIZE then Err(true, Truncated, [])
        else Ok((), after[n + ENTRY_CHECKSUM_SIZE..])
  }

  /** readTrailer up to opening it. */
  function ReadTrailer(b: bytes): (r: Step<Sealed>)
    ensures |r.rest| <= |b|
  {
    match SkipPadding(b)
    case None => Err(false, Truncated, [])
    case Some(b1) =>
      match ReadSealed(b1, MAX_TRAILER)
      case Short => Err(false, Truncated, [])
      case TooBig(rest) => Err(true, IntegrityFail, rest)
      case Read(s, b2) =>
        if |b2| < ENTRY_CHECKSUM_SIZE then Err(false, Truncated, []) else Ok(s, b2[ENTRY_CHECKSUM_SIZE..])
  }

  /** skipEntryBody. */
  function SkipBody(b: bytes): (r: Step<()>)
    ensures |r.rest| <= |b|
  {
    match SkipPadding(b)
    case None => Err(true, Truncated, [])
    case Some(b1) =>
      match SkipDataBlocks(b1)
      case Err(f, c, rest) => Err(f, c, rest)
      case Ok(_, b2) => SkipTrailer(b2)
  }

  /** The error of an entry whose rest was skipped, or the error that prevented the skip. */
  function Skipped<T>(s: Step<()>, code: Code): (r: Step<T>)
    ensures r.rest == s.rest && r.Err?
  {
    match s case Ok(_, rest) => Err(false, code, rest) case Err(f, c, rest) => Err(f, c, rest)
  }

  // ---- What the archive's keys open ----

  datatype Meta = Meta(nameBlob: bytes, bucket: byte, codec: byte, attributes: Option<A.Attributes>, permissions: u32)

  /** Opening sealed values with the key of an entry's salt; None or a bad block is a failure. */
  datatype Keys = Keys(meta: (bytes, Sealed) -> Option<Meta>, name: (bytes, bytes) -> Option<bytes>,
                       block: (bytes, byte, Sealed) -> D.Opened, trailer: (bytes, Sealed) -> Option<bytes>,
                       mac: (bytes, bytes) -> bytes, unpack: bytes -> Option<bytes>)

  datatype Head = Head(salt: bytes, meta: Meta)

  function ReadHead(keys: Keys, b: bytes): (r: Step<Head>)
    ensures |r.rest| <= |b|
  {
    if |b| < SALT_SIZE then Err(false, Truncated, [])
    else
      var salt, b1 := b[..SALT_SIZE], b[SALT_SIZE..];
      if |b1| < FRAME_SIZE then Err(false, Truncated, [])
      else match ReadSealed(b1[FRAME_SIZE..], MAX_METADATA)
        case Short => Err(false, Truncated, [])
        case TooBig(rest) => Err(true, IntegrityFail, rest)
        case Read(s, b2) =>
          match keys.meta(salt, s)
          case Some(meta) => Ok(Head(salt, meta), b2)
          case None => Skipped(SkipBody(b2), AuthFailed)
  }

  function Opens(keys: Keys, salt: bytes, codec: byte, blocks: seq<Sealed>): (r: seq<D.Opened>)
    ensures |r| == |blocks|
  {
    seq(|blocks|, i requires 0 <= i < |blocks| => keys.block(salt, codec, blocks[i]))
  }

  /** streamDataBlocks on blocks read: the plaintext handed to the sink, and the classified error. */
  function StreamBlocks(keys: Keys, salt: bytes, codec: byte, bs: Blocks, sinkFails: nat -> bool): (bytes, Option<D.Class>)
  {
    var x := D.Stream(Opens(keys, salt, codec, bs.blocks), bs.end);
    var (sunk, err) := D.Prefix(x, sinkFails, |x.blocks|);
    (Flatten(sunk), D.Classify(if D.EndError(x).Some? then D.EndError(x) else err, x))
  }

  function CodeOf(c: D.Class): Code
  {
    match c
    case Truncated => Code.Truncated
    case Fatal => IntegrityFail
    case WriteFailed => Code.WriteFailed
    case IntegrityFailed => IntegrityFail
    case AuthFailed => Code.AuthFailed
  }

  /** The trailer's payload agrees with the plaintext. */
  function TrailerProblem(keys: Keys, salt: bytes, s: Sealed, plaintext: bytes): Option<Code>
  {
    match keys.trailer(salt, s)
    case None => Some(AuthFailed)
    case Some(p) =>
      if |p| != TRAILER_PAYLOAD_SIZE then Some(IntegrityFail)
      else if p[..HMAC_SIZE] != keys.mac(salt, plaintext) || FromLE(p[HMAC_SIZE..]) != |plaintext| then Some(IntegrityFail)
      else None
  }

  // ---- Extraction ----

  /** An unsafe name or a file system failure is recoverable; that the output directory cannot
      be opened or no temporary name be drawn is fatal. */
  datatype Failure = Failure(fatal: bool, code: Code)

  /** How the output tree fails, by name: creating a temporary file, writing block `i`,
      renaming, restoring a special file, storing a group member. */
  datatype Disk = Disk(
    create: bytes -> Option<Failure>,
    write: (bytes, nat) -> bool,
    publish: bytes -> bool,
    special: bytes -> Option<Failure>,
    store: bytes -> Option<Failure>)

  datatype Extracted =
    | Published(name: bytes, data: bytes, attributes: Option<A.Attributes>)
    | Restored(name: bytes, attributes: Option<A.Attributes>)
    | Failed(about: Option<bytes>, code: Code)

  /** What one entry comes to: results, a failure the run survives, or one that ends it. */
  datatype Outcome = Results(files: seq<Extracted>) | Refused(code: Code) | Aborted(code: Code)

  function AsStep(o: Outcome, rest: bytes): Step<seq<Extracted>>
  {
    match o
    case Results(files) => Ok(files, rest)
    case Refused(code) => Err(false, code, rest)
    case Aborted(code) => Err(true, code, rest)
  }

  function RestoreSpecial(disk: Disk, name: bytes, attrs: Option<A.Attributes>): Outcome
  {
    match disk.special(name)
    case None => Results([Restored(name, attrs)])
    case Some(f) => if f.fatal then Aborted(f.code) else Results([Failed(Some(name), f.code)])
  }

  function ExtractFile(keys: Keys, disk: Disk, h: Head, b: bytes): (r: Step<seq<Extracted>>)
    ensures |r.rest| <= |b|
  {
    match keys.name(h.salt, h.meta.nameBlob)
    case None => Skipped(SkipBody(b), AuthFailed)
    case Some(name) =>
      var attrs := h.meta.attributes;
      if attrs.Some? && attrs.value.kind != A.KIND_REGULAR then
        match SkipBody(b)
        case Err(f, c, rest) => Err(f, c, rest)
        case Ok(_, rest) => AsStep(RestoreSpecial(disk, name, attrs), rest)
      else if disk.create(name).Some? then
        if disk.create(name).value.fatal then Err(true, disk.create(name).value.code, b)
        else Skipped(SkipBody(b), disk.create(name).value.code)
      else match SkipPadding(b)
        case None => Err(false, Truncated, [])
        case Some(b1) =>
          var bs := ReadBlocks(b1);
          var (data, problem) := StreamBlocks(keys, h.salt, h.meta.codec, bs, (i: nat) => disk.write(name, i));
          if problem == Some(D.Fatal) then Err(true, IntegrityFail, bs.rest)
          else if problem.Some? then Skipped(SkipTrailer(bs.rest), CodeOf(problem.value))
          else match ReadTrailer(bs.rest)
            case Err(f, c, rest) => Err(f, c, rest)
            case Ok(s, rest) =>
              match TrailerProblem(keys, h.salt, s, data)
              case Some(code) => Err(false, code, rest)
              case None => if disk.publish(name) then Err(false, WriteFailed, rest) else Ok([Published(name, data, attrs)], rest)
  }

  datatype Solid = Solid(stream: bytes, members: seq<SS.Member>, stored: nat)

  /** The record stream of a solid group from its decrypted payload. */
  function UnpackSolid(keys: Keys, codec: byte, payload: bytes): Option<bytes>
  {
    if codec == CODEC_ZSTD then keys.unpack(payload)
    else if |payload| > SS.MAX_SOLID_STREAM_SIZE then None
    else Some(payload)
  }

  /** readSolidMembers. */
  function ReadSolid(keys: Keys, h: Head, b: bytes): (r: Step<Solid>)
    ensures |r.rest| <= |b|
  {
    match SkipPadding(b)
    case None => Err(false, Truncated, [])
    case Some(b1) =>
      var bs := ReadBlocks(b1);
      var (payload, problem) := StreamBlocks(keys, h.salt, CODEC_NONE, bs, i => false);
      if problem == Some(D.Fatal) then Err(true, IntegrityFail, bs.rest)
      else if problem.Some? then Skipped(SkipTrailer(bs.rest), CodeOf(problem.value))
      else match ReadTrailer(bs.rest)
        case Err(f, c, rest) => Err(f, c, rest)
        case Ok(s, rest) =>
          if keys.trailer(h.salt, s).None? then Err(false, AuthFailed, rest)
          else if |keys.trailer(h.salt, s).value| != TRAILER_PAYLOAD_SIZE then Err(false, IntegrityFail, rest)
          else match UnpackSolid(keys, h.meta.codec, payload)
            case None => Err(false, IntegrityFail, rest)
            case Some(stream) =>
              if TrailerProblem(keys, h.salt, s, stream).Some? then Err(false, IntegrityFail, rest)
              else match SS.Parse(stream)
                case None => Err(false, IntegrityFail, rest)
                case Some(ms) => Ok(Solid(stream, ms, |payload|), rest)
  }

  /** The members of a group in order; a fatal failure drops the results before it. */
  function WriteMembers(disk: Disk, ms: seq<SS.Member>): Outcome
  {
    if ms == [] then Results([])
    else
      var failure := disk.store(ms[0].name);
      if failure.Some? && failure.value.fatal then Aborted(failure.value.code)
      else match WriteMembers(disk, ms[1..])
        case Results(more) =>
          Results([if failure.Some? then Failed(Some(ms[0].name), failure.value.code) else Published(ms[0].name, ms[0].data, Some(ms[0].attributes))] + more)
        case o => o
  }

  /** extractEntry, after the type byte. */
  function ExtractEntry(keys: Keys, disk: Disk, kind: byte, b: bytes): (r: Step<seq<Extracted>>)
    ensures |r.rest| <= |b|
  {
    match ReadHead(keys, b)
    case Err(f, c, rest) => Err(f, c, rest)
    case Ok(h, b1) =>
      if kind == ENTRY_SOLID then
        match ReadSolid(keys, h, b1)
        case Err(f, c, rest) => Err(f, c, rest)
        case Ok(s, rest) => AsStep(WriteMembers(disk, s.members), rest)
      else ExtractFile(keys, disk, h, b1)
  }

  // ---- Framing round trips ----

  lemma SizeField(n: nat, more: bytes)
    requires n < TWO_32
    ensures FromLE((LE(n, 4) + more)[..4]) == n && (LE(n, 4) + more)[4..] == more
  {
    Pow256Values();
    FromLEOfLE(n, 4);
    assert (LE(n, 4) + more)[..4] == LE(n, 4);
  }

  lemma PadSkips(p: bytes, more: bytes)
    requires |p| < TWO_32
    ensures SkipPadding(EncodePad(p) + more) == Some(more)
  {
    hide LE, FromLE;
    var b := EncodePad(p) + more;
    assert b == LE(|p|, 4) + (p + more);
    SizeField(|p|, p + more);
    assert b[4 + |p|..] == b[4..][|p|..] == (p + more)[|p|..];
  }

  lemma SealedFields(s: Sealed, more: bytes)
    requires |s.nonce| == NONCE_SIZE && |s.ct| < TWO_32
    ensures var b := EncodeSealed(s) + more;
            && |b| >= NONCE_SIZE + 4 && b[..NONCE_SIZE] == s.nonce
            && FromLE(b[NONCE_SIZE..NONCE_SIZE + 4]) == |s.ct| && b[NONCE_SIZE + 4..] == s.ct + more
  {
    hide LE, FromLE;
    var b := EncodeSealed(s) + more;
    var tail := LE(|s.ct|, 4) + (s.ct + more);
    assert b == s.nonce + tail;
    SizeField(|s.ct|, s.ct + more);
    assert b[NONCE_SIZE..NONCE_SIZE + 4] == tail[..4] && b[NONCE_SIZE + 4..] == tail[4..];
  }

  lemma SealedReads(s: Sealed, limit: nat, more: bytes)
    requires FramedSealed(s, 0, limit) && limit < TWO_32
    ensures ReadSealed(EncodeSealed(s) + more, limit) == Read(s, more)
  {
    hide EncodeSealed, FromLE;
    SealedFields(s, more);
    assert (s.ct + more)[..|s.ct|] == s.ct && (s.ct + more)[|s.ct|..] == more;
  }

  lemma SentinelFields(more: bytes)
    ensures var b := SENTINEL + more;
            |b| >= NONCE_SIZE + 4 && FromLE(b[NONCE_SIZE..NONCE_SIZE + 4]) == 0 && b[NONCE_SIZE + 4..] == more
  {
    var b := SENTINEL + more;
    assert b[NONCE_SIZE..NONCE_SIZE + 4] == Zeros(4);
    FromZeros(4);
  }

  lemma {:induction false} FromZeros(n: nat)
    ensures FromLE(Zeros(n)) == 0
  {
    if n > 0 {
      FromZeros(n - 1);
      assert Zeros(n)[1..] == Zeros(n - 1);
    }
  }

  /** Skipping blocks counts the payload and stops behind the sentinel. */
  lemma {:induction false} BlocksSkip(blocks: seq<Sealed>, more: bytes)
    requires FramedBlocks(blocks)
    ensures SkipDataBlocks(EncodeBlocks(blocks) + more) == Ok(Stored(blocks), more)
    decreases |blocks|
  {
    hide EncodeSealed, FromLE;
    var b := EncodeBlocks(blocks) + more;
    if blocks == [] {
      SentinelFields(more);
    } else {
      var s, rest := blocks[0], EncodeBlocks(blocks[1..]) + more;
      assert b == EncodeSealed(s) + rest;
      BlocksSkip(blocks[1..], more);
      BlockSkips(s, rest);
    }
  }

  lemma BlockSkips(s: Sealed, rest: bytes)
    requires FramedSealed(s, TAG_SIZE, MAX_BLOCK)
    ensures SkipDataBlocks(EncodeSealed(s) + rest) ==
              match SkipDataBlocks(rest)
              case Ok(stored, after) => Ok(|s.ct| - TAG_SIZE + stored, after)
              case Err(f, c, after) => Err(f, c, after)
  {
    hide EncodeSealed, FromLE;
    SealedFields(s, rest);
    assert (s.ct + rest)[|s.ct|..] == rest;
  }

  /** Reading blocks gives exactly the blocks, and stops at the same place. */
  lemma {:induction false} BlocksRead(blocks: seq<Sealed>, more: bytes)
    requires FramedBlocks(blocks)
    ensures ReadBlocks(EncodeBlocks(blocks) + more) == Blocks(blocks, D.Sentinel, more)
    decreases |blocks|
  {
    hide EncodeSealed, FromLE;
    var b := EncodeBlocks(blocks) + more;
    if blocks == [] {
      SentinelFields(more);
    } else {
      var s, rest := blocks[0], EncodeBlocks(blocks[1..]) + more;
      assert b == EncodeSealed(s) + rest;
      BlocksRead(blocks[1..], more);
      BlockReads(s, rest);
      assert blocks == [s] + blocks[1..];
    }
  }

  lemma BlockReads(s: Sealed, rest: bytes)
    requires FramedSealed(s, TAG_SIZE, MAX_BLOCK)
    ensures ReadBlocks(EncodeSealed(s) + rest) == ReadBlocks(rest).(blocks := [s] + ReadBlocks(rest).blocks)
  {
    hide EncodeSealed, FromLE;
    SealedFields(s, rest);
    assert (s.ct + rest)[..|s.ct|] == s.ct && (s.ct + rest)[|s.ct|..] == rest;
  }

  lemma TrailerSkips(e: Entry, more: bytes)
    requires WellFramed(e)
    ensures SkipTrailer(EncodeTrailer(e) + more) == Ok((), more)
  {
    hide EncodeSealed, EncodePad, FromLE, SkipPadding;
    var b1 := EncodeSealed(e.trailer) + (e.checksum + more);
    assert EncodeTrailer(e) + more == EncodePad(e.trailerPad) + b1;
    PadSkips(e.trailerPad, b1);
    SealedFields(e.trailer, e.checksum + more);
    assert (e.trailer.ct + (e.checksum + more))[|e.trailer.ct| + ENTRY_CHECKSUM_SIZE..] == more;
  }

  lemma TrailerReads(e: Entry, more: bytes)
    requires WellFramed(e)
    ensures ReadTrailer(EncodeTrailer(e) + more) == Ok(e.trailer, more)
  {
    hide EncodeSealed, EncodePad, FromLE, SkipPadding, ReadSealed;
    var b1 := EncodeSealed(e.trailer) + (e.checksum + more);
    assert EncodeTrailer(e) + more == EncodePad(e.trailerPad) + b1;
    PadSkips(e.trailerPad, b1);
    SealedReads(e.trailer, MAX_TRAILER, e.checksum + more);
    assert (e.checksum + more)[ENTRY_CHECKSUM_SIZE..] == more;
  }

  lemma RestLayout(e: Entry, more: bytes)
    requires WellFramed(e)
    ensures SkipPadding(EncodeRest(e) + more) == Some(EncodeBlocks(e.blocks) + (EncodeTrailer(e) + more))
  {
    hide EncodePad, EncodeBlocks, EncodeTrailer, SkipPadding;
    var after := EncodeBlocks(e.blocks) + (EncodeTrailer(e) + more);
    assert EncodeRest(e) + more == EncodePad(e.pad) + after;
    PadSkips(e.pad, after);
  }

  /** An entry's body can be skipped without any key. */
  lemma BodySkips(e: Entry, more: bytes)
    requires WellFramed(e)
    ensures SkipBody(EncodeRest(e) + more) == Ok((), more)
  {
    hide EncodeRest, EncodeBlocks, EncodeTrailer, SkipPadding, SkipDataBlocks, SkipTrailer;
    RestLayout(e, more);
    BlocksSkip(e.blocks, EncodeTrailer(e) + more);
    TrailerSkips(e, more);
  }

  lemma HeadReads(keys: Keys, e: Entry, more: bytes)
    requires WellFramed(e)
    ensures ReadHead(keys, EncodeBody(e) + more) ==
              match keys.meta(e.salt, e.meta)
              case Some(meta) => Ok(Head(e.salt, meta), EncodeRest(e) + more)
              case None => Err(false, AuthFailed, more)
  {
    hide EncodeSealed, EncodeRest, SkipBody, ReadSealed;
    var b := EncodeBody(e) + more;
    var b2 := EncodeRest(e) + more;
    assert b == e.salt + (e.frame + (EncodeSealed(e.meta) + b2));
    assert b[..SALT_SIZE] == e.salt && b[SALT_SIZE..] == e.frame + (EncodeSealed(e.meta) + b2);
    assert b[SALT_SIZE..][FRAME_SIZE..] == EncodeSealed(e.meta) + b2;
    SealedReads(e.meta, MAX_METADATA, b2);
    BodySkips(e, more);
  }

  // ---- What one entry yields, by its contents alone ----

  /** The plaintext of an entry's blocks, or the class of the first failure. */
  function OpenBlocks(keys: Keys, salt: bytes, codec: byte, blocks: seq<Sealed>, sinkFails: nat -> bool): (bytes, Option<D.Class>)
  {
    StreamBlocks(keys, salt, codec, Blocks(blocks, D.Sentinel, []), sinkFails)
  }

  function FileOutcome(keys: Keys, disk: Disk, meta: Meta, e: Entry): Outcome
  {
    match keys.name(e.salt, meta.nameBlob)
    case None => Refused(AuthFailed)
    case Some(name) =>
      var attrs := meta.attributes;
      if attrs.Some? && attrs.value.kind != A.KIND_REGULAR then
        RestoreSpecial(disk, name, attrs)
      else if disk.create(name).Some? then
        if disk.create(name).value.fatal then Aborted(disk.create(name).value.code) else Refused(disk.create(name).value.code)
      else
        var (data, problem) := OpenBlocks(keys, e.salt, meta.codec, e.blocks, (i: nat) => disk.write(name, i));
        if problem.Some? then Refused(CodeOf(problem.value))
        else match TrailerProblem(keys, e.salt, e.trailer, data)
          case Some(code) => Refused(code)
          case None => if disk.publish(name) then Refused(WriteFailed) else Results([Published(name, data, attrs)])
  }

  datatype SolidOutcome = Group(solid: Solid) | BadGroup(code: Code)

  function OpenSolid(keys: Keys, meta: Meta, e: Entry): SolidOutcome
  {
    var (payload, problem) := OpenBlocks(keys, e.salt, CODEC_NONE, e.blocks, i => false);
    if problem.Some? then BadGroup(CodeOf(problem.value))
    else if keys.trailer(e.salt, e.trailer).None? then BadGroup(AuthFailed)
    else if |keys.trailer(e.salt, e.trailer).value| != TRAILER_PAYLOAD_SIZE then BadGroup(IntegrityFail)
    else match UnpackSolid(keys, meta.codec, payload)
      case None => BadGroup(IntegrityFail)
      case Some(stream) =>
        if TrailerProblem(keys, e.salt, e.trailer, stream).Some? then BadGroup(IntegrityFail)
        else match SS.Parse(stream)
          case None => BadGroup(IntegrityFail)
          case Some(ms) => Group(Solid(stream, ms, |payload|))
  }

  function EntryOutcome(keys: Keys, disk: Disk, e: Entry): Outcome
  {
    match keys.meta(e.salt, e.meta)
    case None => Refused(AuthFailed)
    case Some(meta) =>
      if e.kind == ENTRY_SOLID then
        match OpenSolid(keys, meta, e)
        case BadGroup(code) => Refused(code)
        case Group(g) => WriteMembers(disk, g.members)
      else FileOutcome(keys, disk, meta, e)
  }

  /** Blocks that end at their sentinel never give a read error. */
  lemma NoReadError(keys: Keys, salt: bytes, codec: byte, bs: Blocks, sinkFails: nat -> bool)
    requires bs.end.Sentinel?
    ensures var (data, problem) := StreamBlocks(keys, salt, codec, bs, sinkFails);
            (data, problem) == OpenBlocks(keys, salt, codec, bs.blocks, sinkFails) && problem != Some(D.Fatal)
  {
    hide Flatten;
    var x := D.Stream(Opens(keys, salt, codec, bs.blocks), bs.end);
    D.BlockErrors(x, sinkFails, |x.blocks|);
  }

  /** The output tree can fail as a whole. */
  ghost predicate Fatal(disk: Disk)
  {
    exists n: bytes, f: Failure :: f.fatal && (disk.create(n) == Some(f) || disk.special(n) == Some(f) || disk.store(n) == Some(f))
  }

  lemma {:induction false} MembersAborted(disk: Disk, ms: seq<SS.Member>)
    requires WriteMembers(disk, ms).Aborted?
    ensures Fatal(disk)
  {
    if disk.store(ms[0].name).None? || !disk.store(ms[0].name).value.fatal {
      MembersAborted(disk, ms[1..]);
    }
  }

  /** A step with this outcome leaves `more`; after a fatal one nothing more is read. */
  predicate Yields(step: Step<seq<Extracted>>, o: Outcome, more: bytes)
  {
    if o.Aborted? then step.Err? && step.fatal && step.code == o.code else step == AsStep(o, more)
  }

  lemma FileExtracts(keys: Keys, disk: Disk, meta: Meta, e: Entry, more: bytes)
    requires WellFramed(e)
    ensures Yields(ExtractFile(keys, disk, Head(e.salt, meta), EncodeRest(e) + more), FileOutcome(keys, disk, meta, e), more)
  {
    hide EncodeRest, EncodeBlocks, EncodeTrailer, SkipPadding, SkipBody, SkipTrailer, ReadBlocks, ReadTrailer, StreamBlocks, OpenBlocks, TrailerProblem;
    BodySkips(e, more);
    RestLayout(e, more);
    var after := EncodeTrailer(e) + more;
    BlocksRead(e.blocks, after);
    var name := keys.name(e.salt, meta.nameBlob);
    if name.Some? {
      NoReadError(keys, e.salt, meta.codec, Blocks(e.blocks, D.Sentinel, after), (i: nat) => disk.write(name.value, i));
    }
    TrailerSkips(e, more);
    TrailerReads(e, more);
  }

  lemma SolidReads(keys: Keys, meta: Meta, e: Entry, more: bytes)
    requires WellFramed(e)
    ensures ReadSolid(keys, Head(e.salt, meta), EncodeRest(e) + more) ==
              match OpenSolid(keys, meta, e) case Group(g) => Ok(g, more) case BadGroup(code) => Err(false, code, more)
  {
    hide EncodeRest, EncodeBlocks, EncodeTrailer, SkipPadding, SkipTrailer, ReadBlocks, ReadTrailer, StreamBlocks, OpenBlocks, TrailerProblem, UnpackSolid, SS.Parse;
    RestLayout(e, more);
    var after := EncodeTrailer(e) + more;
    BlocksRead(e.blocks, after);
    NoReadError(keys, e.salt, CODEC_NONE, Blocks(e.blocks, D.Sentinel, after), i => false);
    TrailerSkips(e, more);
    TrailerReads(e, more);
  }

  /** Whatever the keys open or refuse, extracting a well-framed entry yields what its own
      contents say and leaves the reader right behind it, unless the output tree itself fails. */
  lemma EntryExtracts(keys: Keys, disk: Disk, e: Entry, more: bytes)
    requires WellFramed(e)
    ensures Yields(ExtractEntry(keys, disk, e.kind, EncodeBody(e) + more), EntryOutcome(keys, disk, e), more)
  {
    hide EncodeBody, EncodeRest, ReadHead, ReadSolid, ExtractFile, OpenSolid, FileOutcome, WriteMembers;
    HeadReads(keys, e, more);
    var meta := keys.meta(e.salt, e.meta);
    if meta.Some? {
      SolidReads(keys, meta.value, e, more);
      FileExtracts(keys, disk, meta.value, e, more);
    }
  }

  lemma OnlyTheTreeAborts(keys: Keys, disk: Disk, e: Entry)
    requires EntryOutcome(keys, disk, e).Aborted?
    ensures Fatal(disk)
  {
    hide OpenSolid, OpenBlocks, TrailerProblem;
    var meta := keys.meta(e.salt, e.meta).value;
    if e.kind == ENTRY_SOLID {
      MembersAborted(disk, OpenSolid(keys, meta, e).solid.members);
    } else {
      var name := keys.name(e.salt, meta.nameBlob).value;
      var f := if disk.special(name).Some? && disk.special(name).value.fatal then disk.special(name).value else disk.create(name).value;
      assert f.fatal && (disk.create(name) == Some(f) || disk.special(name) == Some(f));
    }
  }

  // ---- Whole archives ----

  const LOCATOR_MAGIC: bytes := [0x53, 0x41, 0x52, 0x43, 0x44, 0x4C, 0x43, 0x31] // "SARCDLC1"
  const LOCATOR_SIZE := 1 + 8 + 8

  function EncodeLocator(offset: u64): (b: bytes) ensures |b| == LOCATOR_SIZE { [ENTRY_LOCATOR] + LOCATOR_MAGIC + LE64(offset) }

  function ParseLocator(b: bytes): Option<u64>
  {
    if |b| != LOCATOR_SIZE || b[0] != ENTRY_LOCATOR || b[1..9] != LOCATOR_MAGIC then None else Some(FromLE64(b[9..]))
  }

  lemma LocatorRoundTrip(offset: u64)
    ensures ParseLocator(EncodeLocator(offset)) == Some(offset)
  {
    var b := EncodeLocator(offset);
    assert b[1..9] == LOCATOR_MAGIC && b[9..] == LE64(offset);
    RoundTrip64(offset);
  }

  datatype NextEntry = Found(kind: byte, rest: bytes) | AtEnd(rest: bytes) | Broken(code: Code)

  /** A directory entry passed over; it must open. */
  function SkipDirectory(keys: Keys, b: bytes): (r: Option<bytes>)
    ensures r.Some? ==> |r.value| <= |b|
  {
    match ReadHead(keys, b)
    case Err(_, _, _) => None
    case Ok(_, b1) => (match SkipBody(b1) case Ok(_, rest) => Some(rest) case Err(_, _, _) => None)
  }

  /** nextEntryType of a Version2 archive. */
  function NextEntryType(keys: Keys, b: bytes): (r: NextEntry)
    ensures r.Found? ==> |r.rest| < |b|
    decreases |b|
  {
    if b == [] then Broken(Truncated)
    else
      var kind, rest := b[0], b[1..];
      if kind == ENTRY_FILE || kind == ENTRY_SOLID then Found(kind, rest)
      else if kind == ENTRY_END then AtEnd(rest)
      else if kind == ENTRY_DIRECTORY then
        match SkipDirectory(keys, rest)
        case None => Broken(IntegrityFail)
        case Some(after) => NextEntryType(keys, after)
      else if kind == ENTRY_LOCATOR then
        if |b| < LOCATOR_SIZE then Broken(Truncated)
        else if ParseLocator(b[..LOCATOR_SIZE]).None? then Broken(IntegrityFail)
        else NextEntryType(keys, b[LOCATOR_SIZE..])
      else Broken(IntegrityFail)
  }

  datatype RunEnd = Complete(rest: bytes) | Stopped(code: Code)

  /** What extraction yields entry by entry, how many bytes were left at the start of each,
      and how it ended. */
  datatype Run = Run(outcomes: seq<Outcome>, left: seq<nat>, end: RunEnd)

  function Prepend(o: Outcome, left: nat, r: Run): Run { Run([o] + r.outcomes, [left] + r.left, r.end) }

  function ExtractFrom(keys: Keys, disk: Disk, b: bytes): Run
    decreases |b|
  {
    match NextEntryType(keys, b)
    case Broken(code) => Run([], [], Stopped(code))
    case AtEnd(rest) => Run([], [], Complete(rest))
    case Found(kind, body) =>
      match ExtractEntry(keys, disk, kind, body)
      case Ok(files, rest) => Prepend(Results(files), |b|, ExtractFrom(keys, disk, rest))
      case Err(fatal, code, rest) =>
        if fatal then Run([], [|b|], Stopped(code)) else Prepend(Refused(code), |b|, ExtractFrom(keys, disk, rest))
  }

  predicate DataEntry(e: Entry) { WellFramed(e) && (e.kind == ENTRY_FILE || e.kind == ENTRY_SOLID) }

  predicate DataEntries(es: seq<Entry>) { forall i :: 0 <= i < |es| ==> DataEntry(es[i]) }

  function EncodeEntries(es: seq<Entry>): bytes
  {
    if es == [] then [] else EncodeEntry(es[0]) + EncodeEntries(es[1..])
  }

  function Outcomes(keys: Keys, disk: Disk, es: seq<Entry>): (os: seq<Outcome>)
    ensures |os| == |es| && forall i :: 0 <= i < |es| ==> os[i] == EntryOutcome(keys, disk, es[i])
  {
    seq(|es|, i requires 0 <= i < |es| => EntryOutcome(keys, disk, es[i]))
  }

  /** Bytes left at each entry's boundary. */
  function Boundaries(es: seq<Entry>, trail: nat): (ps: seq<nat>)
    ensures |ps| == |es|
  {
    if es == [] then [] else [|EncodeEntries(es)| + trail] + Boundaries(es[1..], trail)
  }

  lemma ExtractsNothing(keys: Keys, disk: Disk, trail: bytes)
    requires NextEntryType(keys, trail).AtEnd?
    ensures ExtractFrom(keys, disk, trail) == Run([], [], Complete(NextEntryType(keys, trail).rest))
  {
    hide NextEntryType;
  }

  lemma NextIsEntry(keys: Keys, e: Entry, more: bytes)
    requires DataEntry(e)
    ensures NextEntryType(keys, EncodeEntry(e) + more) == Found(e.kind, EncodeBody(e) + more)
  {
    hide EncodeBody, WellFramed;
    var b := EncodeEntry(e) + more;
    assert b == [e.kind] + (EncodeBody(e) + more);
  }

  lemma ExtractsOne(keys: Keys, disk: Disk, e: Entry, more: bytes)
    requires DataEntry(e)
    ensures var b := EncodeEntry(e) + more;
            var o := EntryOutcome(keys, disk, e);
            ExtractFrom(keys, disk, b) == if o.Aborted? then Run([], [|b|], Stopped(o.code)) else Prepend(o, |b|, ExtractFrom(keys, disk, more))
  {
    hide EncodeBody, EncodeEntry, ExtractEntry, EntryOutcome, WellFramed, NextEntryType;
    NextIsEntry(keys, e, more);
    EntryExtracts(keys, disk, e, more);
  }

  /** How many outcomes come before the first that ends the run. */
  function Survived(os: seq<Outcome>): (n: nat)
    ensures n <= |os| && (forall i :: 0 <= i < n ==> !os[i].Aborted?) && (n < |os| ==> os[n].Aborted?)
  {
    if os == [] || os[0].Aborted? then 0 else 1 + Survived(os[1..])
  }

  /** A run with these outcomes at these boundaries, cut at the first that ends it. */
  function UpToAbort(os: seq<Outcome>, ps: seq<nat>, end: RunEnd): Run
    requires |os| == |ps|
  {
    var n := Survived(os);
    if n == |os| then Run(os, ps, end) else Run(os[..n], ps[..n + 1], Stopped(os[n].code))
  }

  lemma NothingAborts(end: RunEnd)
    ensures UpToAbort([], [], end) == Run([], [], end)
  {
  }

  lemma OneMore(os: seq<Outcome>, ps: seq<nat>, end: RunEnd)
    requires |os| == |ps| > 0
    ensures UpToAbort(os, ps, end) ==
              if os[0].Aborted? then Run([], [ps[0]], Stopped(os[0].code)) else Prepend(os[0], ps[0], UpToAbort(os[1..], ps[1..], end))
  {
    var n := Survived(os[1..]);
    if !os[0].Aborted? {
      assert os == [os[0]] + os[1..] && ps == [ps[0]] + ps[1..];
      if n < |os| - 1 {
        assert os[..n + 1] == [os[0]] + os[1..][..n] && ps[..n + 2] == [ps[0]] + ps[1..][..n + 1];
      }
    }
  }

  /** Extraction visits every entry at its boundary and yields what each one says by itself, up
      to the first at which the output tree itself fails. */
  lemma {:induction false} ExtractsEveryEntry(keys: Keys, disk: Disk, es: seq<Entry>, trail: bytes)
    requires DataEntries(es) && NextEntryType(keys, trail).AtEnd?
    ensures ExtractFrom(keys, disk, EncodeEntries(es) + trail)
         == UpToAbort(Outcomes(keys, disk, es), Boundaries(es, |trail|), Complete(NextEntryType(keys, trail).rest))
    decreases |es|
  {
    hide EncodeEntry, EntryOutcome, DataEntry, ExtractFrom, NextEntryType, UpToAbort;
    if es == [] {
      assert EncodeEntries(es) + trail == trail;
      ExtractsNothing(keys, disk, trail);
      NothingAborts(Complete(NextEntryType(keys, trail).rest));
    } else {
      var e, more := es[0], EncodeEntries(es[1..]) + trail;
      assert EncodeEntries(es) + trail == EncodeEntry(e) + more;
      ExtractsOne(keys, disk, e, more);
      ExtractsEveryEntry(keys, disk, es[1..], trail);
      assert Outcomes(keys, disk, es)[1..] == Outcomes(keys, disk, es[1..]);
      OneMore(Outcomes(keys, disk, es), Boundaries(es, |trail|), Complete(NextEntryType(keys, trail).rest));
    }
  }

  lemma RunsThrough(keys: Keys, disk: Disk, es: seq<Entry>)
    requires !Fatal(disk)
    ensures Survived(Outcomes(keys, disk, es)) == |es|
  {
    hide EntryOutcome, Fatal;
    var os := Outcomes(keys, disk, es);
    forall i | 0 <= i < |es| ensures !os[i].Aborted? {
      if os[i].Aborted? { OnlyTheTreeAborts(keys, disk, es[i]); }
    }
  }

  /** Damage isolation: with any entries replaced by others of the same length, extraction
      stops at the same boundaries and every entry left as it was yields the same, as far as
      both runs go; both go to the end unless the output tree itself fails. */
  lemma DamageIsolation(keys: Keys, disk: Disk, es: seq<Entry>, damaged: seq<Entry>, trail: bytes)
    requires DataEntries(es) && DataEntries(damaged) && NextEntryType(keys, trail).AtEnd?
    requires |es| == |damaged| && forall i :: 0 <= i < |es| ==> |EncodeEntry(es[i])| == |EncodeEntry(damaged[i])|
    ensures var before := ExtractFrom(keys, disk, EncodeEntries(es) + trail);
            var after := ExtractFrom(keys, disk, EncodeEntries(damaged) + trail);
            && (!Fatal(disk) ==>
                  && before.left == after.left && before.end == after.end && before.end.Complete?
                  && |before.outcomes| == |after.outcomes| == |es|)
            && |before.outcomes| <= |es| && |after.outcomes| <= |es|
            && (before.left <= after.left || after.left <= before.left)
            && forall i :: 0 <= i < |before.outcomes| && i < |after.outcomes| && es[i] == damaged[i] ==> before.outcomes[i] == after.outcomes[i]
  {
    hide ExtractFrom, EncodeEntry, EncodeEntries, EntryOutcome, DataEntry, NextEntryType, Boundaries, Fatal, Survived;
    ExtractsEveryEntry(keys, disk, es, trail);
    ExtractsEveryEntry(keys, disk, damaged, trail);
    SameBoundaries(es, damaged, |trail|);
    if !Fatal(disk) {
      RunsThrough(keys, disk, es);
      RunsThrough(keys, disk, damaged);
    }
  }

  lemma {:induction false} SameBoundaries(es: seq<Entry>, damaged: seq<Entry>, trail: nat)
    requires |es| == |damaged| && forall i :: 0 <= i < |es| ==> |EncodeEntry(es[i])| == |EncodeEntry(damaged[i])|
    ensures |EncodeEntries(es)| == |EncodeEntries(damaged)| && Boundaries(es, trail) == Boundaries(damaged, trail)
    decreases |es|
  {
    hide EncodeEntry;
    if es != [] {
      SameBoundaries(es[1..], damaged[1..], trail);
    }
  }

  lemma Regroup<T>(a: seq<T>, s: T, b: seq<T>)
    ensures a + ([s] + b) == (a + [s]) + b
  {
  }

  // ---- The extractor ----

  class SafeExtractor {
    const keys: Keys
    const disk: Disk
    var r: bytes // what is left to read

    constructor (keys: Keys, disk: Disk, data: bytes)
      ensures this.keys == keys && this.disk == disk && r == data
    {
      this.keys, this.disk, this.r := keys, disk, data;
    }

    /** skipDataBlocks. */
    method SkipBlocks() returns (res: Step<int>)
      modifies this
      ensures res == SkipDataBlocks(old(r)) && r == res.rest
    {
      hide FromLE;
      var stored := 0;
      while true
        invariant SkipDataBlocks(old(r)) == (match SkipDataBlocks(r) case Ok(n, rest) => Ok(stored + n, rest) case Err(f, c, rest) => Err(f, c, rest))
        decreases |r|
      {
        if |r| < NONCE_SIZE + 4 {
          r := [];
          return Err(false, Truncated, []);
        }
        var size := FromLE(r[NONCE_SIZE..NONCE_SIZE + 4]);
        ghost var before := r;
        r := r[NONCE_SIZE + 4..];
        if size == 0 {
          return Ok(stored, r);
        }
        if size > MAX_BLOCK || size < TAG_SIZE {
          return Err(true, IntegrityFail, r);
        }
        if |r| < size {
          r := [];
          return Err(false, Truncated, []);
        }
        r := r[size..];
        stored := stored + size - TAG_SIZE;
      }
    }

    /** The block reader of streamDataBlocks, called until it reports the end. */
    method PullBlocks() returns (res: Blocks)
      modifies this
      ensures res == ReadBlocks(old(r)) && r == res.rest
    {
      hide FromLE;
      var blocks: seq<Sealed> := [];
      while true
        invariant ReadBlocks(old(r)) == ReadBlocks(r).(blocks := blocks + ReadBlocks(r).blocks)
        decreases |r|
      {
        if |r| < NONCE_SIZE {
          r := [];
          return Blocks(blocks, D.Sentinel, []);
        }
        if |r| < NONCE_SIZE + 4 {
          r := [];
          return Blocks(blocks, D.ReadError(false), []);
        }
        var nonce, size := r[..NONCE_SIZE], FromLE(r[NONCE_SIZE..NONCE_SIZE + 4]);
        r := r[NONCE_SIZE + 4..];
        if size == 0 {
          return Blocks(blocks, D.Sentinel, r);
        }
        if size > MAX_BLOCK {
          return Blocks(blocks, D.ReadError(true), r);
        }
        if |r| < size {
          r := [];
          return Blocks(blocks, D.ReadError(false), []);
        }
        var s := Sealed(nonce, r[..size]);
        r := r[size..];
        Regroup(blocks, s, ReadBlocks(r).blocks);
        blocks := blocks + [s];
      }
    }

    /** nextEntryType. */
    method NextType() returns (res: NextEntry)
      modifies this
      ensures res == NextEntryType(keys, old(r))
      ensures !res.Broken? ==> r == res.rest
    {
      hide ReadHead, SkipBody, ParseLocator;
      while true
        invariant NextEntryType(keys, r) == NextEntryType(keys, old(r))
        decreases |r|
      {
        if r == [] {
          return Broken(Truncated);
        }
        var kind := r[0];
        if kind == ENTRY_FILE || kind == ENTRY_SOLID {
          r := r[1..];
          return Found(kind, r);
        }
        if kind == ENTRY_END {
          r := r[1..];
          return AtEnd(r);
        }
        if kind == ENTRY_DIRECTORY {
          var after := SkipDirectory(keys, r[1..]);
          if after.None? {
            return Broken(IntegrityFail);
          }
          r := after.value;
        } else if kind == ENTRY_LOCATOR {
          if |r| < LOCATOR_SIZE {
            return Broken(Truncated);
          }
          if ParseLocator(r[..LOCATOR_SIZE]).None? {
            return Broken(IntegrityFail);
          }
          r := r[LOCATOR_SIZE..];
        } else {
          return Broken(IntegrityFail);
        }
      }
    }

    /** Extract, after the header: a recoverable failure goes on with the next entry. */
    method Extract() returns (outcomes: seq<Outcome>, end: RunEnd)
      modifies this
      ensures outcomes == ExtractFrom(keys, disk, old(r)).outcomes && end == ExtractFrom(keys, disk, old(r)).end
    {
      hide NextEntryType, ExtractEntry;
      outcomes := [];
      ghost var whole := ExtractFrom(keys, disk, r);
      while true
        invariant var rest := ExtractFrom(keys, disk, r); whole.outcomes == outcomes + rest.outcomes && whole.end == rest.end
        decreases |r|
      {
        var next := NextType();
        match next
        case Broken(code) => return outcomes, Stopped(code);
        case AtEnd(rest) => return outcomes, Complete(rest);
        case Found(kind, body) =>
          var step := ExtractEntry(keys, disk, kind, body);
          r := step.rest;
          if step.Err? && step.fatal {
            return outcomes, Stopped(step.code);
          }
          var o := if step.Ok? then Results(step.value) else Refused(step.code);
          Regroup(outcomes, o, ExtractFrom(keys, disk, r).outcomes);
          outcomes := outcomes + [o];
      }
    }
  }
}
