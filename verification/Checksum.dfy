/** The footer checksum (archive/checksum.go) and the writer that carries it from one
    session of an incremental archive to the next (archive/writer.go). */
module Checksum {
  import opened Bytes
  import opened Format

  const MAGIC: bytes := [0x53, 0x41, 0x52, 0x43] // "SARC"
  const VERSION2: nat := 2
  const HEADER_PREFIX := 4 + 2 + 4
  const COUNT_SIZE := 8 + 12 + 16
  const MAX_RECIPIENT_BLOCK := 0x10_0000

  /** A hash state in its marshaled form, which fits a checkpoint. */
  type HashState = b: bytes | |b| <= STATE_SIZE

  /** SHA-256: its first state, hashing more bytes, the digest of a state, and reading a
      marshaled state back. */
  datatype Hash = Hash(start: HashState, absorb: (HashState, bytes) -> HashState, digest: HashState -> bytes,
                       restore: bytes -> Option<HashState>)

  /** Hashing in two steps is hashing the concatenation. */
  ghost predicate Streaming(h: Hash)
  {
    forall s, a, b :: h.absorb(h.absorb(s, a), b) == h.absorb(s, a + b)
  }

  ghost predicate SoundHash(h: Hash)
  {
    Streaming(h) && (forall s :: |h.digest(s)| == HMAC_SIZE) && (forall s: HashState :: h.restore(s) == Some(s))
  }

  /** The digest of a byte string. */
  function DigestOf(h: Hash, b: bytes): bytes { h.digest(h.absorb(h.start, b)) }

  function Total(b: bytes): nat { if b == [] then 0 else b[0] + Total(b[1..]) }

  lemma {:induction false} TotalAppend(a: bytes, b: bytes)
    ensures Total(a + b) == Total(a) + Total(b)
  {
    if a == [] {
      assert a + b == b;
    } else {
      TotalAppend(a[1..], b);
      assert (a + b)[1..] == a[1..] + b;
    }
  }

  /** Such hashes exist: here, the sum of all bytes. */
  function SumHash(): Hash
  {
    Hash([0], (s: HashState, b: bytes) => if |s| == 1 then [(s[0] + Total(b)) % 256] else s,
         (s: HashState) => Zeros(HMAC_SIZE - 1) + [if |s| == 1 then s[0] else 0],
         (b: bytes) => if |b| <= STATE_SIZE then Some(b) else None)
  }

  lemma SoundHashExists()
    ensures SoundHash(SumHash())
  {
    hide Total;
    var h := SumHash();
    forall s: HashState, a: bytes, b: bytes ensures h.absorb(h.absorb(s, a), b) == h.absorb(s, a + b) {
      TotalAppend(a, b);
      var x: bytes := s;
      if |x| == 1 {
        AddBytes(x[0], Total(a), Total(b));
      }
    }
  }

  lemma AddBytes(s: nat, a: nat, b: nat)
    ensures ((s + a) % 256 + b) % 256 == (s + (a + b)) % 256
  {
  }

  // ---- What the checksum covers ----

  /** What the leading bytes tell: nothing yet, a header hashed as it is, or an incremental
      header whose sealed count starts at an offset. */
  datatype Layout = Unknown | Plain | Counted(offset: nat)

  function LayoutOf(b: bytes): (l: Layout)
    ensures l.Counted? ==> HEADER_PREFIX <= l.offset && l.offset + COUNT_SIZE < |b|
  {
    if |b| < HEADER_PREFIX then Unknown
    else if b[..4] == MAGIC && FromLE(b[4..6]) == VERSION2 && FromLE(b[6..10]) <= MAX_RECIPIENT_BLOCK then
      var count := HEADER_PREFIX + FromLE(b[6..10]);
      if |b| <= count + COUNT_SIZE then Unknown
      else if b[count + COUNT_SIZE] % 2 == 1 then Counted(count)
      else Plain
    else Plain
  }

  /** The shortest incremental header, up to its flags. */
  lemma CountedHeaderExists()
    ensures LayoutOf(MAGIC + [2, 0] + Zeros(4) + Zeros(COUNT_SIZE) + [1]) == Counted(HEADER_PREFIX)
  {
    var b := MAGIC + [2, 0] + Zeros(4) + Zeros(COUNT_SIZE) + [1];
    assert b[..4] == MAGIC && b[4..6] == [2, 0] && b[6..10] == [0, 0, 0, 0];
    assert FromLE([2, 0]) == 2 + 256 * FromLE([0]) && FromLE([0]) == 0 + 256 * FromLE([]);
    assert [0, 0, 0, 0][1..] == [0, 0, 0] && [0, 0, 0][1..] == [0, 0] && [0, 0][1..] == [0];
    assert [2, 0][1..] == [0] && [0][1..] == [];
  }

  /** The bytes with an incremental header's sealed count zeroed. */
  function Canonical(b: bytes): (r: bytes)
    ensures |r| == |b|
  {
    match LayoutOf(b)
    case Counted(off) => Mask(b, off)
    case _ => b
  }

  function Mask(b: bytes, off: nat): (r: bytes)
    requires off + COUNT_SIZE <= |b|
    ensures |r| == |b|
  {
    b[..off] + Zeros(COUNT_SIZE) + b[off + COUNT_SIZE..]
  }

  // ---- The same, byte by byte ----

  /** The recipient block's length, as the header says it. */
  function BlockLength(b: bytes): nat
    requires |b| >= 10
  {
    b[6] + 0x100 * (b[7] as int) + 0x1_0000 * (b[8] as int) + 0x100_0000 * (b[9] as int)
  }

  /** A version 2 header with its incremental flag set. */
  predicate Incremental(b: bytes)
  {
    && |b| >= 10 && b[0] == 0x53 && b[1] == 0x41 && b[2] == 0x52 && b[3] == 0x43 && b[4] == 2 && b[5] == 0
    && BlockLength(b) <= 0x10_0000 && |b| > 46 + BlockLength(b) && b[46 + BlockLength(b)] % 2 == 1
  }

  /** The 36 bytes of the sealed count. */
  predicate InCount(b: bytes, i: nat)
  {
    Incremental(b) && 10 + BlockLength(b) <= i < 46 + BlockLength(b)
  }

  /** The bytes with the sealed count of an incremental header zeroed; any other header as it is. */
  function Zeroed(b: bytes): (r: bytes)
    ensures |r| == |b|
  {
    seq(|b|, i requires 0 <= i < |b| => if InCount(b, i) then 0 else b[i])
  }

  lemma FourBytes(b: bytes)
    requires |b| == 4
    ensures FromLE(b) == b[0] + 0x100 * (b[1] as int) + 0x1_0000 * (b[2] as int) + 0x100_0000 * (b[3] as int)
  {
    assert b[1..][1..] == b[2..] && b[2..][1..] == b[3..] && b[3..][1..] == [];
    assert FromLE(b[3..]) == b[3];
    assert FromLE(b[2..]) == b[2] + 0x100 * FromLE(b[3..]);
    assert FromLE(b[1..]) == b[1] + 0x100 * FromLE(b[2..]);
  }

  lemma TwoBytes(b: bytes)
    requires |b| == 2
    ensures FromLE(b) == b[0] + 0x100 * (b[1] as int)
  {
    assert b[1..][1..] == [];
    assert FromLE(b[1..]) == b[1];
  }

  lemma LayoutIs(b: bytes)
    ensures LayoutOf(b).Counted? <==> Incremental(b)
    ensures Incremental(b) ==> LayoutOf(b).offset == 10 + BlockLength(b)
  {
    hide FromLE;
    if |b| >= 10 {
      FourBytes(b[6..10]);
      TwoBytes(b[4..6]);
      assert b[..4] == MAGIC <==> b[0] == 0x53 && b[1] == 0x41 && b[2] == 0x52 && b[3] == 0x43;
    }
  }

  /** What is hashed is exactly that. */
  lemma CanonicalIs(b: bytes)
    ensures Canonical(b) == Zeroed(b)
  {
    hide LayoutOf;
    LayoutIs(b);
  }

  lemma LayoutStable(b: bytes, more: bytes)
    requires LayoutOf(b) != Unknown
    ensures LayoutOf(b + more) == LayoutOf(b)
  {
    assert (b + more)[..4] == b[..4] && (b + more)[4..6] == b[4..6] && (b + more)[6..10] == b[6..10];
  }

  /** Once the header is known, later bytes only append. */
  lemma CanonicalAppend(b: bytes, more: bytes)
    requires LayoutOf(b) != Unknown
    ensures Canonical(b + more) == Canonical(b) + more
  {
    hide LayoutOf, Mask;
    LayoutStable(b, more);
    match LayoutOf(b)
    case Counted(off) => MaskAppend(b, more, off);
    case _ =>
  }

  lemma MaskAppend(b: bytes, more: bytes, off: nat)
    requires off + COUNT_SIZE <= |b|
    ensures Mask(b + more, off) == Mask(b, off) + more
  {
    assert (b + more)[..off] == b[..off];
    assert (b + more)[off + COUNT_SIZE..] == b[off + COUNT_SIZE..] + more;
  }

  /** Rewriting the sealed count in place leaves the checksum's input as it was. */
  lemma RewriteCount(b: bytes, sealed: bytes)
    requires LayoutOf(b).Counted? && |sealed| == COUNT_SIZE
    ensures var off := LayoutOf(b).offset;
            var b' := b[..off] + sealed + b[off + COUNT_SIZE..];
            LayoutOf(b') == LayoutOf(b) && Canonical(b') == Canonical(b)
  {
    var off := LayoutOf(b).offset;
    var b' := b[..off] + sealed + b[off + COUNT_SIZE..];
    assert b'[..4] == b[..4] && b'[4..6] == b[4..6] && b'[6..10] == b[6..10];
    assert b'[off + COUNT_SIZE] == b[off + COUNT_SIZE];
    assert b'[..off] == b[..off] && b'[off + COUNT_SIZE..] == b[off + COUNT_SIZE..];
  }

  lemma CanonicalPrefix(b: bytes)
    requires |b| >= HEADER_PREFIX
    ensures Canonical(b)[..HEADER_PREFIX] == b[..HEADER_PREFIX]
    ensures LayoutOf(b).Counted? ==> Canonical(b)[LayoutOf(b).offset + COUNT_SIZE] == b[LayoutOf(b).offset + COUNT_SIZE]
    ensures !LayoutOf(b).Counted? ==> Canonical(b) == b
  {
    hide LayoutOf;
  }

  /** What is hashed still tells the layout. */
  lemma SameLayout(a: bytes, b: bytes)
    requires Canonical(a) == Canonical(b)
    ensures LayoutOf(a) == LayoutOf(b)
  {
    hide Canonical;
    if |a| >= HEADER_PREFIX {
      CanonicalPrefix(a);
      CanonicalPrefix(b);
      assert a[..4] == a[..HEADER_PREFIX][..4] && a[4..6] == a[..HEADER_PREFIX][4..6] && a[6..10] == a[..HEADER_PREFIX][6..10];
      assert b[..4] == b[..HEADER_PREFIX][..4] && b[4..6] == b[..HEADER_PREFIX][4..6] && b[6..10] == b[..HEADER_PREFIX][6..10];
    }
  }

  /** Any difference elsewhere does change it. */
  lemma CanonicalSeesTheRest(a: bytes, b: bytes)
    requires Canonical(a) == Canonical(b)
    ensures LayoutOf(a) == LayoutOf(b) && |a| == |b|
    ensures forall i :: 0 <= i < |a| && (LayoutOf(a).Counted? ==> i < LayoutOf(a).offset || i >= LayoutOf(a).offset + COUNT_SIZE) ==> a[i] == b[i]
  {
    SameLayout(a, b);
    hide LayoutOf;
    if LayoutOf(a).Counted? {
      var off := LayoutOf(a).offset;
      forall i | 0 <= i < |a| && (i < off || i >= off + COUNT_SIZE) ensures a[i] == b[i] {
        assert Canonical(a)[i] == a[i] && Canonical(b)[i] == b[i];
      }
    }
  }

  lemma ZeroedTells(a: bytes, b: bytes, i: nat)
    requires i < |a| == |b| && a[i] != b[i] && !InCount(a, i)
    ensures Zeroed(a) != Zeroed(b)
  {
    hide Canonical, LayoutOf;
    CanonicalIs(a);
    CanonicalIs(b);
    LayoutIs(a);
    if Zeroed(a) == Zeroed(b) {
      CanonicalSeesTheRest(a, b);
    }
  }

  lemma ZeroedAlike(a: bytes, b: bytes)
    requires |a| == |b| && forall i :: 0 <= i < |a| && !InCount(a, i) ==> a[i] == b[i]
    ensures Zeroed(a) == Zeroed(b)
  {
    SameHeader(a, b);
  }

  lemma SameHeader(a: bytes, b: bytes)
    requires |a| == |b| && forall i :: 0 <= i < |a| && !InCount(a, i) ==> a[i] == b[i]
    ensures forall i: nat :: InCount(a, i) <==> InCount(b, i)
  {
    if |a| >= 10 {
      assert forall i :: 0 <= i < 10 ==> !InCount(a, i);
      assert |a| > 46 + BlockLength(a) ==> !InCount(a, 46 + BlockLength(a));
    }
  }

  // ---- ArchiveChecksum ----

  class ArchiveChecksum {
    const hash: Hash
    var h: HashState
    var head: bytes // leading bytes held until the header's layout is known
    var done: bool
    ghost var fed: bytes

    ghost predicate Valid()
      reads this
    {
      && Streaming(hash) && (done <==> LayoutOf(fed) != Unknown)
      && (if done then head == [] && h == hash.absorb(hash.start, Canonical(fed)) else head == fed && h == hash.start)
    }

    constructor (hash: Hash)
      requires Streaming(hash)
      ensures Valid() && fed == [] && this.hash == hash
    {
      this.hash := hash;
      h, head, done, fed := hash.start, [], false, [];
    }

    /** ResumeArchiveChecksum: continues after `prefix`. */
    constructor Resume(hash: Hash, state: bytes, ghost prefix: bytes)
      requires Streaming(hash) && hash.restore(state) == Some(hash.absorb(hash.start, Canonical(prefix))) && LayoutOf(prefix) != Unknown
      ensures Valid() && fed == prefix && this.hash == hash
    {
      this.hash := hash;
      h, head, done, fed := hash.restore(state).value, [], true, prefix;
    }

    method Write(p: bytes)
      requires Valid()
      modifies this
      ensures Valid() && fed == old(fed) + p
    {
      if done {
        CanonicalAppend(fed, p);
        LayoutStable(fed, p);
        h := hash.absorb(h, p);
        fed := fed + p;
        return;
      }
      head := head + p;
      fed := fed + p;
      FlushHeader(false);
    }

    /** flushHeader: hashes the held bytes once their layout is known, or if `final`. */
    method FlushHeader(final: bool)
      requires Streaming(hash) && !done && head == fed && h == hash.start
      modifies this`h, this`head, this`done
      ensures !final ==> Valid()
      ensures final ==> done && h == hash.absorb(hash.start, Canonical(fed))
    {
      if |head| < HEADER_PREFIX && !final {
        return;
      }
      if |head| >= HEADER_PREFIX && head[..4] == MAGIC && FromLE(head[4..6]) == VERSION2 {
        var blockLen := FromLE(head[6..10]);
        var countOff := HEADER_PREFIX + blockLen;
        var flagOff := countOff + COUNT_SIZE;
        if blockLen <= MAX_RECIPIENT_BLOCK {
          if |head| <= flagOff && !final {
            return;
          }
          if |head| > flagOff && head[flagOff] % 2 == 1 {
            head := head[..countOff] + Zeros(COUNT_SIZE) + head[flagOff..];
          }
        }
      }
      h := hash.absorb(h, head);
      head, done := [], true;
    }

    /** Sum: the digest of everything written, with an incremental count zeroed. */
    method Sum() returns (sum: bytes)
      requires Valid()
      modifies this
      ensures sum == DigestOf(hash, Canonical(fed)) && fed == old(fed)
      ensures old(LayoutOf(fed)) != Unknown ==> Valid()
    {
      if !done {
        FlushHeader(true);
      }
      sum := hash.digest(h);
    }

    /** MarshalBinary: only once the header has been hashed. */
    method MarshalBinary() returns (state: Option<bytes>)
      requires Valid()
      ensures state == if LayoutOf(fed) == Unknown then None else Some(hash.absorb(hash.start, Canonical(fed)))
    {
      return if !done then None else Some(h);
    }
  }

  /** However the bytes are sliced, the checksum is that of their concatenation. */
  method ChecksumOf(hash: Hash, slices: seq<bytes>) returns (sum: bytes)
    requires Streaming(hash)
    ensures sum == DigestOf(hash, Canonical(Flatten(slices)))
  {
    hide Canonical, LayoutOf;
    var c := new ArchiveChecksum(hash);
    assert slices[..0] == [];
    for i := 0 to |slices|
      invariant fresh(c) && c.Valid() && c.hash == hash && c.fed == Flatten(slices[..i])
    {
      c.Write(slices[i]);
      FlattenSnoc(slices[..i], slices[i]);
      assert slices[..i + 1] == slices[..i] + [slices[i]];
    }
    assert slices[..|slices|] == slices;
    sum := c.Sum();
  }

  // ---- Checkpoints ----

  const ENTRY_CHECKPOINT: byte := 5
  const CHECKPOINT_MAGIC: bytes := [0x53, 0x41, 0x52, 0x43, 0x43, 0x4B, 0x50, 0x31] // "SARCCKP1"

  datatype Checkpoint = Checkpoint(lastIndex: u64, state: bytes)

  function CheckpointPrefix(c: Checkpoint): (b: bytes)
    ensures |b| == 19 + |c.state|
  {
    [ENTRY_CHECKPOINT] + CHECKPOINT_MAGIC + LE64(c.lastIndex) + LE(|c.state|, 2) + c.state
  }

  function MarshalCheckpoint(c: Checkpoint): (r: Option<bytes>)
    ensures r.Some? <==> |c.state| <= STATE_SIZE
    ensures r.Some? ==> |r.value| == CHECKPOINT_SIZE
  {
    if |c.state| > STATE_SIZE then None
    else Some(CheckpointPrefix(c) + Zeros(CHECKPOINT_SIZE - |CheckpointPrefix(c)|))
  }

  function ParseCheckpoint(b: bytes): (r: Option<Checkpoint>)
  {
    if |b| != CHECKPOINT_SIZE || b[0] != ENTRY_CHECKPOINT || b[1..9] != CHECKPOINT_MAGIC then None
    else
      var n := FromLE(b[17..19]);
      if n > STATE_SIZE then None else Some(Checkpoint(FromLE64(b[9..17]), b[19..19 + n]))
  }

  lemma CheckpointRoundTrip(c: Checkpoint)
    requires |c.state| <= STATE_SIZE
    ensures ParseCheckpoint(MarshalCheckpoint(c).value) == Some(c)
  {
    var b := MarshalCheckpoint(c).value;
    assert b[1..9] == CHECKPOINT_MAGIC && b[9..17] == LE64(c.lastIndex) && b[17..19] == LE(|c.state|, 2);
    assert b[19..19 + |c.state|] == c.state;
    RoundTrip64(c.lastIndex);
    Pow256Values();
    FromLEOfLE(|c.state|, 2);
  }

  // ---- The checksum over the life of an incremental archive ----

  /** Checkpoint, end marker and footer for an archive whose entries are `body`. */
  function Ended(body: bytes, lastIndex: u64, hash: Hash): (b: bytes)
    ensures body <= b
  {
    body + MarshalCheckpoint(Checkpoint(lastIndex, hash.absorb(hash.start, Canonical(body)))).value + [ENTRY_END]
  }

  function Footer(content: bytes, hash: Hash): bytes { DigestOf(hash, Canonical(content)) + Zeros(RESERVED_SIZE) }

  /** An incremental archive file, without its signature. */
  class IncrementalFile {
    const hash: Hash
    var data: bytes
    ghost var body: bytes // the header and all complete sessions

    /** The tail follows the body: its checkpoint has the state after the body, and its
        footer the checksum of everything before it. */
    ghost predicate Valid()
      reads this
    {
      && SoundHash(hash) && LayoutOf(body).Counted?
      && exists last: u64 :: data == Ended(body, last, hash) + Footer(Ended(body, last, hash), hash)
    }

    /** WriteCheckpointFooter at the end of the body, with the checksum continued so far. */
    method EndArchive(c: ArchiveChecksum, lastIndex: u64)
      requires SoundHash(hash) && c.Valid() && c.hash == hash && c.fed == data == body && LayoutOf(body).Counted?
      modifies this`data, c
      ensures Valid() && body == old(body)
    {
      var state := c.MarshalBinary();
      var cp := MarshalCheckpoint(Checkpoint(lastIndex, state.value)).value;
      c.Write(cp);
      c.Write([ENTRY_END]);
      var sum := c.Sum();
      ghost var content := Ended(body, lastIndex, hash);
      assert c.fed == content;
      data := data + cp + [ENTRY_END] + sum + Zeros(RESERVED_SIZE);
      assert data == content + Footer(content, hash);
    }

    constructor (hash: Hash, headerAndSession: bytes, lastIndex: u64)
      requires SoundHash(hash) && LayoutOf(headerAndSession).Counted?
      ensures Valid() && body == headerAndSession && this.hash == hash
    {
      this.hash := hash;
      this.data, this.body := headerAndSession, headerAndSession;
      new;
      var c := new ArchiveChecksum(hash);
      c.Write(headerAndSession);
      EndArchive(c, lastIndex);
    }

    /** appendSession: the checksum resumes from the checkpoint, without rereading. */
    method AppendSession(session: bytes, lastIndex: u64)
      requires Valid()
      modifies this
      ensures Valid() && body == old(body) + session
    {
      var tail, state := ReadTail();
      var c := new ArchiveChecksum.Resume(hash, state, body);
      c.Write(session);
      data := data[..tail] + session;
      LayoutStable(body, session);
      body := body + session;
      EndArchive(c, lastIndex);
    }

    method ReadTail() returns (tail: nat, state: bytes)
      requires Valid()
      ensures tail == |body| <= |data| && data[..tail] == body && hash.restore(state) == Some(hash.absorb(hash.start, Canonical(body)))
    {
      hide LayoutOf, Canonical;
      ghost var last: u64 :| data == Ended(body, last, hash) + Footer(Ended(body, last, hash), hash);
      ghost var cp := Checkpoint(last, hash.absorb(hash.start, Canonical(body)));
      tail := |data| - TAIL_SIZE;
      assert tail == |body|;
      assert data[tail..tail + CHECKPOINT_SIZE] == MarshalCheckpoint(cp).value;
      CheckpointRoundTrip(cp);
      var parsed := ParseCheckpoint(data[tail..tail + CHECKPOINT_SIZE]);
      state := parsed.value.state;
    }

    /** repairTail: whatever follows the body, the tail is rebuilt by rehashing the body. */
    method Repair(tail: nat, lastIndex: u64)
      requires SoundHash(hash) && LayoutOf(body).Counted? && tail == |body| <= |data| && data[..tail] == body
      modifies this
      ensures Valid() && body == old(body)
    {
      var c := new ArchiveChecksum(hash);
      c.Write(data[..tail]);
      data := data[..tail];
      EndArchive(c, lastIndex);
    }

    /** Overwrites the header's sealed count. */
    method RewriteSealedCount(sealed: bytes)
      requires Valid() && |sealed| == COUNT_SIZE
      modifies this
      ensures Valid() && |data| == |old(data)| && Canonical(body) == Canonical(old(body))
    {
      hide LayoutOf, Canonical, Ended, Footer;
      ghost var off := LayoutOf(body).offset;
      StartsWithBody();
      CountOffset(body, data);
      var at := HEADER_PREFIX + FromLE(data[6..10]);
      ghost var last: u64 :| data == Ended(body, last, hash) + Footer(Ended(body, last, hash), hash);
      RewriteInside(body, last, sealed, hash);
      data := data[..at] + sealed + data[at + COUNT_SIZE..];
      body := body[..off] + sealed + body[off + COUNT_SIZE..];
    }

    lemma StartsWithBody()
      requires Valid()
      ensures body <= data
    {
      hide LayoutOf, Canonical, Ended, Footer;
    }

    /** An update cut off somewhere: anything may follow the body. */
    method Interrupt(tail: nat, torn: bytes)
      requires tail == |body| <= |data| && data[..tail] == body
      modifies this`data
      ensures tail <= |data| && data[..tail] == body
    {
      data := data[..tail] + torn;
    }

    /** Rehashing the whole file from scratch, in any slices, always finds the stored footer. */
    method Verify(slices: seq<bytes>) returns (ok: bool)
      requires Valid() && |data| >= FOOTER_SIZE && Flatten(slices) == data[..|data| - FOOTER_SIZE]
      ensures ok
    {
      hide LayoutOf, Canonical;
      var sum := ChecksumOf(hash, slices);
      ghost var last: u64 :| data == Ended(body, last, hash) + Footer(Ended(body, last, hash), hash);
      ghost var content := Ended(body, last, hash);
      assert data[..|data| - FOOTER_SIZE] == content;
      ok := sum == data[|data| - FOOTER_SIZE..][..HMAC_SIZE];
    }
  }

  lemma CountOffset(body: bytes, data: bytes)
    requires LayoutOf(body).Counted? && body <= data
    ensures |data| >= 10 && LayoutOf(body).offset == HEADER_PREFIX + FromLE(data[6..10])
  {
    assert data[6..10] == body[6..10];
  }

  /** Overwriting the count keeps the whole file in step. */
  lemma RewriteInside(body: bytes, last: u64, sealed: bytes, hash: Hash)
    requires SoundHash(hash) && LayoutOf(body).Counted? && |sealed| == COUNT_SIZE
    ensures var off := LayoutOf(body).offset;
            var body' := body[..off] + sealed + body[off + COUNT_SIZE..];
            var data := Ended(body, last, hash) + Footer(Ended(body, last, hash), hash);
            && LayoutOf(body') == LayoutOf(body) && Canonical(body') == Canonical(body)
            && Ended(body', last, hash) + Footer(Ended(body', last, hash), hash) == data[..off] + sealed + data[off + COUNT_SIZE..]
  {
    hide LayoutOf, Canonical, MarshalCheckpoint;
    var off := LayoutOf(body).offset;
    var body' := body[..off] + sealed + body[off + COUNT_SIZE..];
    RewriteCount(body, sealed);
    var cp := MarshalCheckpoint(Checkpoint(last, hash.absorb(hash.start, Canonical(body)))).value + [ENTRY_END];
    var a, b := Ended(body, last, hash), Ended(body', last, hash);
    assert a == body + cp && b == body' + cp;
    CanonicalAppend(body, cp);
    CanonicalAppend(body', cp);
    assert Footer(a, hash) == Footer(b, hash);
    var f := Footer(a, hash);
    assert (a + f)[..off] == body[..off];
    assert (a + f)[off + COUNT_SIZE..] == body[off + COUNT_SIZE..] + cp + f;
  }

  datatype Event = Appended(session: bytes, lastIndex: u64) | Repaired(torn: bytes, lastIndex: u64) | Recounted(sealed: bytes)

  /** After any sequence of sessions, interrupted and repaired updates and count rewrites, a
      fresh checksum of the file agrees with its footer, and the file holds every session. */
  method Life(f: IncrementalFile, events: seq<Event>) returns (ok: bool)
    requires f.Valid() && forall i :: 0 <= i < |events| && events[i].Recounted? ==> |events[i].sealed| == COUNT_SIZE
    modifies f
    ensures f.Valid() && ok
    ensures Canonical(f.body) == Canonical(old(f.body)) + Flatten(Sessions(events))
  {
    hide LayoutOf, Canonical, Ended, Footer, SoundHash, Sessions, Flatten;
    assert events[..0] == [];
    NoSessions();
    for i := 0 to |events|
      invariant f.Valid()
      invariant Canonical(f.body) == Canonical(old(f.body)) + Flatten(Sessions(events[..i]))
    {
      assert events[..i + 1] == events[..i] + [events[i]];
      SessionsSnoc(events[..i], events[i]);
      match events[i]
      case Appended(session, lastIndex) =>
        CanonicalAppend(f.body, session);
        f.AppendSession(session, lastIndex);
      case Repaired(torn, lastIndex) =>
        var tail, _ := f.ReadTail();
        f.Interrupt(tail, torn);
        f.Repair(tail, lastIndex);
      case Recounted(sealed) =>
        f.RewriteSealedCount(sealed);
    }
    assert events[..|events|] == events;
    LongEnough(f);
    var content := f.data[..|f.data| - FOOTER_SIZE];
    OnePiece(content);
    ok := f.Verify([content]);
  }

  lemma OnePiece(x: bytes)
    ensures Flatten([x]) == x
  {
    assert Flatten([x]) == x + Flatten([]);
  }

  lemma NoSessions()
    ensures Flatten(Sessions([])) == []
  {
  }

  lemma LongEnough(f: IncrementalFile)
    requires f.Valid()
    ensures |f.data| >= FOOTER_SIZE
  {
    hide LayoutOf, Canonical, Ended;
  }

  function Sessions(events: seq<Event>): seq<bytes>
  {
    if events == [] then [] else Sessions(events[..|events| - 1]) + match events[|events| - 1] case Appended(x, _) => [x] case _ => []
  }

  lemma SessionsSnoc(events: seq<Event>, e: Event)
    ensures Flatten(Sessions(events + [e])) == Flatten(Sessions(events)) + match e case Appended(x, _) => x case _ => []
  {
    assert (events + [e])[..|events|] == events;
    if e.Appended? {
      FlattenSnoc(Sessions(events), e.session);
    } else {
      assert Sessions(events) + [] == Sessions(events);
    }
  }
}
