/** Split archives: volume headers (archive/volume.go), the volume writer and the reader
    that joins volumes back (io/volume.go). */
module Volume {
  import opened Bytes

  const VOLUME_MAGIC: bytes := [0x53, 0x41, 0x52, 0x43, 0x56, 0x4F, 0x4C, 0x31] // "SARCVOL1"
  const ID_SIZE := 16
  const HEADER_SIZE := 8 + ID_SIZE + 4 + 1 + 3 + 8
  const CHECKSUM_SIZE := 32
  const OVERHEAD := HEADER_SIZE + CHECKSUM_SIZE
  const MIN_VOLUME_SIZE := 64 * 1024

  type ID = x: bytes | |x| == ID_SIZE witness Zeros(ID_SIZE)

  datatype VolumeHeader = VolumeHeader(id: ID, index: u32, last: bool, payloadLen: u64)

  // ---- Headers ----

  function Marshal(h: VolumeHeader): (b: bytes)
    ensures |b| == HEADER_SIZE
  {
    VOLUME_MAGIC + h.id + LE32(h.index) + [if h.last then 1 else 0, 0, 0, 0] + LE64(h.payloadLen)
  }

  function ParseVolumeHeader(b: bytes): (r: Option<VolumeHeader>)
    ensures r.Some? ==> |b| == HEADER_SIZE && r.value.index != 0
  {
    if |b| != HEADER_SIZE || b[..8] != VOLUME_MAGIC then None
    else if b[28] > 1 || b[29] != 0 || b[30] != 0 || b[31] != 0 then None
    else if FromLE32(b[24..28]) == 0 then None
    else Some(VolumeHeader(b[8..24], FromLE32(b[24..28]), b[28] == 1, FromLE64(b[32..40])))
  }

  lemma HeaderFields(h: VolumeHeader)
    ensures var b := Marshal(h);
            && b[..8] == VOLUME_MAGIC && b[8..24] == h.id && b[24..28] == LE32(h.index)
            && b[28..32] == [if h.last then 1 else 0, 0, 0, 0] && b[32..40] == LE64(h.payloadLen)
  {
    hide LE32, LE64;
    var a := VOLUME_MAGIC + h.id + LE32(h.index);
    var flags := [if h.last then 1 else 0, 0, 0, 0];
    assert Marshal(h) == a + flags + LE64(h.payloadLen);
    assert a[8..24] == h.id && a[24..28] == LE32(h.index);
  }

  lemma HeaderRoundTrip(h: VolumeHeader)
    ensures ParseVolumeHeader(Marshal(h)) == if h.index == 0 then None else Some(h)
  {
    hide LE32, LE64, FromLE32, FromLE64, Marshal;
    HeaderFields(h);
    var b := Marshal(h);
    assert b[28] == b[28..32][0] && b[29] == b[28..32][1] && b[30] == b[28..32][2] && b[31] == b[28..32][3];
    RoundTrip32(h.index);
    RoundTrip64(h.payloadLen);
  }

  /** Only marshaled headers are accepted. */
  lemma HeaderCanonical(b: bytes)
    requires ParseVolumeHeader(b).Some?
    ensures Marshal(ParseVolumeHeader(b).value) == b
  {
    hide LE, FromLE;
    Pow256Values();
    LEOfFromLE(b[24..28]);
    LEOfFromLE(b[32..40]);
    var h := ParseVolumeHeader(b).value;
    assert [if h.last then 1 else 0, 0, 0, 0] == b[28..32];
    assert b == b[..8] + b[8..24] + b[24..28] + b[28..32] + b[32..40];
  }

  // ---- Volumes ----

  /** SHA-256. */
  type Digest = bytes -> bytes

  ghost predicate Sized(digest: Digest) { forall x :: |digest(x)| == CHECKSUM_SIZE }

  /** One complete volume file. Header numbers are 32 bits wide. */
  function VolumeFile(id: ID, index: nat, last: bool, payload: bytes, digest: Digest): bytes
    requires |payload| < TWO_64
  {
    var header := Marshal(VolumeHeader(id, index % TWO_32, last, |payload|));
    header + payload + digest(payload + header)
  }

  /** The payloads of the volumes of a stream. */
  function Payloads(stream: bytes, capacity: nat): (ps: seq<bytes>)
    requires capacity > 0
    ensures ps != []
    decreases |stream|
  {
    if |stream| <= capacity then [stream] else [stream[..capacity]] + Payloads(stream[capacity..], capacity)
  }

  lemma {:induction false} PayloadsRejoin(stream: bytes, capacity: nat)
    requires capacity > 0
    ensures Flatten(Payloads(stream, capacity)) == stream
    decreases |stream|
  {
    if |stream| <= capacity {
      assert Flatten([stream]) == stream + Flatten([]);
    } else {
      var rest := stream[capacity..];
      PayloadsRejoin(rest, capacity);
      assert Payloads(stream, capacity)[1..] == Payloads(rest, capacity);
      assert stream == stream[..capacity] + rest;
    }
  }

  lemma {:induction false} PayloadsFull(stream: bytes, capacity: nat)
    requires capacity > 0
    ensures var ps := Payloads(stream, capacity);
            && (forall i :: 0 <= i < |ps| - 1 ==> |ps[i]| == capacity)
            && |ps[|ps| - 1]| <= capacity && (stream != [] ==> ps[|ps| - 1] != [])
    decreases |stream|
  {
    if |stream| > capacity {
      PayloadsFull(stream[capacity..], capacity);
    }
  }

  lemma {:induction false} PayloadsCount(stream: bytes, capacity: nat)
    requires capacity > 0
    ensures var n := |Payloads(stream, capacity)|;
            if stream == [] then n == 1 else (n - 1) * capacity < |stream| <= n * capacity
    decreases |stream|
  {
    if |stream| > capacity {
      var n := |Payloads(stream, capacity)|;
      PayloadsCount(stream[capacity..], capacity);
      OneMore(n - 1, capacity);
      OneMore(n - 2, capacity);
    }
  }

  /** They rejoin to the stream, all but the last are exactly full, and their number `n` is 1
      for an empty stream and otherwise the least with len <= n * capacity. */
  lemma PayloadsSplit(stream: bytes, capacity: nat)
    requires capacity > 0
    ensures var ps := Payloads(stream, capacity);
            && Flatten(ps) == stream
            && (forall i :: 0 <= i < |ps| - 1 ==> |ps[i]| == capacity)
            && |ps[|ps| - 1]| <= capacity && (stream != [] ==> ps[|ps| - 1] != [])
            && (stream == [] ==> |ps| == 1)
            && (stream != [] ==> (|ps| - 1) * capacity < |stream| <= |ps| * capacity)
  {
    hide Payloads, Flatten;
    PayloadsRejoin(stream, capacity);
    PayloadsFull(stream, capacity);
    PayloadsCount(stream, capacity);
  }

  lemma OneMore(n: int, k: nat)
    ensures (n + 1) * k == n * k + k
  {
  }

  /** The volume files of a split stream. */
  function SplitVolumes(stream: bytes, capacity: nat, id: ID, digest: Digest): (files: seq<bytes>)
    requires 0 < capacity < TWO_64
    ensures |files| == |Payloads(stream, capacity)|
  {
    PayloadsSplit(stream, capacity);
    var ps := Payloads(stream, capacity);
    seq(|ps|, i requires 0 <= i < |ps| => VolumeFile(id, i + 1, i == |ps| - 1, ps[i], digest))
  }

  // ---- VolumeWriter ----

  class VolumeWriter {
    const capacity: nat
    const id: ID
    const digest: Digest
    var volumes: seq<bytes>    // finished volume files
    var cur: Option<bytes>     // the file being written
    var written: nat
    var sum: bytes             // hash state
    var index: nat
    var err: bool
    var closed: bool
    ghost var stream: bytes
    ghost var full: seq<bytes> // payloads of the finished volumes

    /** Between any two steps. */
    ghost predicate Consistent()
      reads this
    {
      && 0 < capacity < TWO_64 && Sized(digest)
      && |volumes| == |full|
      && (forall i :: 0 <= i < |full| ==> |full[i]| == capacity && volumes[i] == VolumeFile(id, i + 1, false, full[i], digest))
      && match cur
         case None => index == |volumes| && stream == Flatten(full)
         case Some(file) =>
           && index == |volumes| + 1 && written == |sum| <= capacity
           && |file| == HEADER_SIZE + written && file[HEADER_SIZE..] == sum && stream == Flatten(full) + sum
    }

    /** A volume after the first is never left empty. */
    ghost predicate Settled()
      reads this
    {
      full != [] ==> cur.Some? && written > 0
    }

    ghost predicate Valid()
      reads this
    {
      Consistent() && Settled() && !err
    }

    constructor (volumeSize: nat, id: ID, digest: Digest)
      requires MIN_VOLUME_SIZE <= volumeSize < TWO_63 && Sized(digest)
      ensures Valid() && !closed && stream == [] && capacity == volumeSize - OVERHEAD && this.id == id && this.digest == digest
    {
      this.capacity, this.id, this.digest := volumeSize - OVERHEAD, id, digest;
      volumes, cur, written, sum, index, err, closed, stream, full := [], None, 0, [], 0, false, false, [], [];
    }

    /** openVolume: the header written first is a placeholder. `fails` is the file system's. */
    method OpenVolume(fails: bool)
      requires Consistent() && cur.None? && !err
      modifies this
      ensures (!err <==> !fails) && closed == old(closed)
      ensures !err ==> Consistent() && cur.Some? && written == 0 && stream == old(stream) && full == old(full) && volumes == old(volumes)
    {
      index := index + 1;
      if fails {
        err := true;
        return;
      }
      cur := Some(Marshal(VolumeHeader(id, index % TWO_32, false, capacity)));
      written, sum := 0, [];
    }

    /** finishVolume: rewrites the header in place and appends the checksum. */
    method FinishVolume(last: bool, fails: bool) returns (file: bytes)
      requires Consistent() && cur.Some? && !err
      modifies this`cur, this`sum, this`err
      ensures !err <==> !fails
      ensures !err ==> cur.None? && file == VolumeFile(id, index, last, old(sum), digest)
    {
      var body := cur.value;
      cur := None;
      var header := Marshal(VolumeHeader(id, index % TWO_32, last, written));
      file := header + body[HEADER_SIZE..];
      sum := sum + header;
      file := file + digest(sum);
      err := fails;
    }

    /** Moves on from a full volume. */
    method NextVolume(fails: bool)
      requires Consistent() && cur.Some? && written == capacity && !err
      modifies this
      ensures !err <==> !fails
      ensures !err ==> Consistent() && cur.None? && stream == old(stream) && full != [] && closed == old(closed)
    {
      ghost var payload := sum;
      FlattenSnoc(full, payload);
      var file := FinishVolume(false, fails);
      if !err {
        volumes := volumes + [file];
        full := full + [payload];
      }
    }

    /** Write: all of `p` is taken, unless the file system fails; then nothing more is. */
    method Write(p: bytes, fails: nat -> bool)
      requires Valid()
      modifies this
      ensures !err ==> Valid() && stream == old(stream) + p && closed == old(closed)
      ensures (forall k :: !fails(k)) ==> !err
    {
      var rest, step := p, 0;
      while rest != []
        invariant !err && Consistent() && stream + rest == old(stream) + p && closed == old(closed)
        invariant rest == [] ==> Settled()
        decreases |rest|, if cur.None? then 1 else if written == capacity then 2 else 0
      {
        var bad := fails(step);
        step := step + 1;
        if cur.None? || written == capacity {
          if cur.Some? {
            NextVolume(bad);
          } else {
            OpenVolume(bad);
          }
          if err {
            return;
          }
          continue;
        }
        if bad {
          err := true;
          return;
        }
        var n := Min(|rest|, capacity - written);
        rest := TakeIn(rest, n);
      }
    }

    /** Adds `n` bytes to the current volume. */
    method TakeIn(p: bytes, n: nat) returns (rest: bytes)
      requires Consistent() && cur.Some? && 0 < n <= |p| && written + n <= capacity && !err
      modifies this`cur, this`sum, this`written, this`stream
      ensures Consistent() && Settled() && cur.Some? && stream + rest == old(stream) + p && |rest| < |p| && rest == p[n..]
    {
      hide VolumeFile, Flatten, Sized;
      cur := Some(cur.value + p[..n]);
      sum := sum + p[..n];
      written := written + n;
      stream := stream + p[..n];
      rest := p[n..];
      assert stream + rest == old(stream) + p;
    }

    /** Close: the finished files are exactly the volumes of the stream. */
    method Close(openFails: bool, finishFails: bool)
      requires Valid() && !closed
      modifies this
      ensures closed
      ensures !err ==> stream == old(stream) && volumes == SplitVolumes(stream, capacity, id, digest)
      ensures !openFails && !finishFails ==> !err
    {
      hide VolumeFile, SplitVolumes, Payloads, Flatten, Sized;
      closed := true;
      if cur.None? {
        OpenVolume(openFails);
        if err {
          return;
        }
      }
      ghost var payload := sum;
      var file := FinishVolume(true, finishFails);
      if err {
        return;
      }
      volumes := volumes + [file];
      VolumesOf(volumes, full, payload, capacity, id, digest);
    }
  }

  /** CreateVolumes: sizes below the minimum are refused. */
  method CreateVolumes(volumeSize: nat, id: ID, digest: Digest) returns (w: VolumeWriter?)
    requires volumeSize < TWO_63 && Sized(digest)
    ensures w == null <==> volumeSize < MIN_VOLUME_SIZE
    ensures w != null ==> fresh(w) && w.Valid() && !w.closed && w.stream == [] && w.capacity == volumeSize - OVERHEAD && w.id == id && w.digest == digest
  {
    if volumeSize < MIN_VOLUME_SIZE {
      return null;
    }
    w := new VolumeWriter(volumeSize, id, digest);
  }

  lemma VolumesOf(volumes: seq<bytes>, full: seq<bytes>, last: bytes, capacity: nat, id: ID, digest: Digest)
    requires 0 < capacity < TWO_64 && |last| <= capacity && (full != [] ==> last != [])
    requires |volumes| == |full| + 1 && volumes[|full|] == VolumeFile(id, |full| + 1, true, last, digest)
    requires forall i :: 0 <= i < |full| ==> |full[i]| == capacity && volumes[i] == VolumeFile(id, i + 1, false, full[i], digest)
    ensures volumes == SplitVolumes(Flatten(full) + last, capacity, id, digest)
  {
    hide VolumeFile;
    PayloadsOf(full, last, capacity);
  }

  /** Full payloads and a last one, non-empty unless it is the only one, are the split. */
  lemma {:induction false} PayloadsOf(full: seq<bytes>, last: bytes, capacity: nat)
    requires capacity > 0 && |last| <= capacity && (full != [] ==> last != [])
    requires forall i :: 0 <= i < |full| ==> |full[i]| == capacity
    ensures Payloads(Flatten(full) + last, capacity) == full + [last]
    decreases |full|
  {
    var stream := Flatten(full) + last;
    if full == [] {
      assert stream == last;
    } else {
      var rest := Flatten(full[1..]) + last;
      assert stream == full[0] + rest;
      assert stream[..capacity] == full[0] && stream[capacity..] == rest;
      assert |rest| >= |last|;
      PayloadsOf(full[1..], last, capacity);
      assert full + [last] == [full[0]] + (full[1..] + [last]);
    }
  }

  // ---- What joining volumes gives ----

  datatype Problem = Missing | NoHeader | NotAVolume | Foreign | OutOfOrder(says: nat) | Truncated | ReadFailed |
                     NoChecksum | Corrupted | WrongSize

  /** The bytes a reader hands out, and how it ends. */
  datatype Outcome = Outcome(data: bytes, failure: Option<VolumeError>)
  datatype VolumeError = VolumeError(index: nat, problem: Problem)

  function Fail(index: nat, problem: Problem): Outcome { Outcome([], Some(VolumeError(index, problem))) }

  function Then(data: bytes, rest: Outcome): Outcome { rest.(data := data + rest.data) }

  /** checkVolumeHeader; volume 1 sets the archive ID. */
  function HeaderProblem(b: bytes, id: Option<ID>, index: nat): Option<Problem>
  {
    if |b| < HEADER_SIZE then Some(NoHeader)
    else match ParseVolumeHeader(b[..HEADER_SIZE])
      case None => Some(NotAVolume)
      case Some(h) =>
        if id.Some? && h.id != id.value then Some(Foreign)
        else if h.index != index % TWO_32 then Some(OutOfOrder(h.index))
        else None
  }

  /** The rest of a volume with `remaining` payload bytes to come, after `sum` was hashed: its
      data, and either its failure or the bytes behind it. A broken reader ends in an error. */
  datatype VolumeEnd = Intact(data: bytes, rest: bytes) | Damaged(data: bytes, problem: Problem)

  function Finish(b: bytes, broken: bool, remaining: nat, sum: bytes, header: bytes, digest: Digest): (e: VolumeEnd)
    ensures e.Intact? ==> |b| == remaining + CHECKSUM_SIZE + |e.rest|
  {
    if |b| < remaining then Damaged(b, if broken then ReadFailed else Truncated)
    else
      var data, after := b[..remaining], b[remaining..];
      if |after| < CHECKSUM_SIZE then Damaged(data, NoChecksum)
      else if digest(sum + data + header) != after[..CHECKSUM_SIZE] then Damaged(data, Corrupted)
      else Intact(data, after[CHECKSUM_SIZE..])
  }

  /** Where volumes come from: separate files, or one stream they arrive on back to back; and
      which readers end in an error instead of EOF. */
  datatype Source = Files(files: seq<Option<bytes>>, broken: nat -> bool) | Stream(rest: bytes, broken: nat -> bool)

  function Open(src: Source, index: nat): Option<bytes>
    requires index > 0
  {
    match src
    case Files(files, _) => if index <= |files| then files[index - 1] else None
    case Stream(rest, _) => Some(rest)
  }

  function Advance(src: Source, rest: bytes): Source { if src.Files? then src else src.(rest := rest) }

  function Left(src: Source, index: nat): int { if src.Files? then |src.files| - index else |src.rest| }

  /** Joining from volume `index` on. */
  function Join(src: Source, index: nat, id: Option<ID>, digest: Digest): Outcome
    requires index > 0
    decreases Left(src, index), 1
  {
    match Open(src, index)
    case None => Fail(index, Missing)
    case Some(b) =>
      var problem := HeaderProblem(b, id, index);
      if problem.Some? then Fail(index, problem.value)
      else
        var h := ParseVolumeHeader(b[..HEADER_SIZE]).value;
        JoinRest(src, index, h.id, h.last, b[HEADER_SIZE..], h.payloadLen, [], b[..HEADER_SIZE], digest)
  }

  function JoinRest(src: Source, index: nat, id: ID, last: bool, b: bytes, remaining: nat, sum: bytes, header: bytes, digest: Digest): Outcome
    requires index > 0 && (src.Stream? ==> |b| <= |src.rest|) && (src.Files? ==> index <= |src.files|)
    decreases Left(src, index), 0
  {
    match Finish(b, src.broken(index), remaining, sum, header, digest)
    case Damaged(data, problem) => Outcome(data, Some(VolumeError(index, problem)))
    case Intact(data, rest) =>
      if last then Outcome(data, None)
      else Then(data, Join(Advance(src, rest), index + 1, Some(id), digest))
  }

  // ---- VolumeReader ----

  datatype ReadStatus = More | Eof | Failed(e: VolumeError)

  class VolumeReader {
    const digest: Digest
    var src: Source
    var index: nat
    var id: Option<ID>
    var cur: Option<bytes> // what is left of the volume, or stream, being read
    var header: bytes
    var sum: bytes
    var remaining: nat
    var last: bool
    var done: bool
    var err: Option<VolumeError>

    ghost predicate Valid()
      reads this
    {
      && (index > 0 && err.None? ==> id.Some?) && (index == 0 ==> id.None?)
      && (cur.Some? && err.None? ==>
            index > 0 && (src.Stream? ==> |cur.value| <= |src.rest|) && (src.Files? ==> index <= |src.files|))
    }

    /** Everything still to come. */
    ghost function Pending(): Outcome
      reads this
      requires Valid()
    {
      if err.Some? then Outcome([], err)
      else if done then Outcome([], None)
      else match cur
        case None => Join(src, index + 1, id, digest)
        case Some(b) => JoinRest(src, index, id.value, last, b, remaining, sum, header, digest)
    }

    /** How far the current call is from returning. */
    ghost function Steps(): (nat, int, nat)
      reads this
    {
      (if err.Some? || done then 0 else 1,
       Max(0, 1 + Left(src, index + if cur.None? then 1 else 0)),
       if cur.None? then 1 else 0)
    }

    constructor (src: Source, digest: Digest)
      ensures Valid() && Pending() == Join(src, 1, None, digest) && this.digest == digest
    {
      this.src, this.digest := src, digest;
      index, id, cur, header, sum, remaining, last, done, err := 0, None, None, [], [], 0, false, false, None;
    }

    method OpenNext()
      requires Valid() && err.None? && !done && cur.None?
      modifies this
      ensures Valid() && Pending() == old(Pending()) && src == old(src) && index == old(index) + 1
      ensures err.Some? || (cur.Some? && !done)
    {
      hide ParseVolumeHeader, Finish;
      index := index + 1;
      var b := Open(src, index);
      if b.None? {
        err := Some(VolumeError(index, Missing));
        return;
      }
      cur := b;
      var problem := HeaderProblem(b.value, id, index);
      if problem.Some? {
        err := Some(VolumeError(index, problem.value));
        return;
      }
      header := b.value[..HEADER_SIZE];
      var h := ParseVolumeHeader(header).value;
      cur := Some(b.value[HEADER_SIZE..]);
      id := Some(h.id);
      remaining, last, sum := h.payloadLen, h.last, [];
    }

    method FinishVolume()
      requires Valid() && err.None? && !done && cur.Some? && remaining == 0
      modifies this
      ensures Valid() && Pending() == old(Pending()) && index == old(index)
      ensures err.None? ==> cur.None? && (done || Left(src, index + 1) < old(Left(src, index)))
    {
      hide Join;
      var b := cur.value;
      assert b[..0] == [] && b[0..] == b && sum + [] + header == sum + header;
      if |b| < CHECKSUM_SIZE {
        err := Some(VolumeError(index, NoChecksum));
        return;
      }
      if digest(sum + header) != b[..CHECKSUM_SIZE] {
        err := Some(VolumeError(index, Corrupted));
        return;
      }
      src := Advance(src, b[CHECKSUM_SIZE..]);
      cur := None;
      done := last;
      assert !done ==> Then([], Pending()) == Pending();
    }

    /** Read into a buffer of `limit` bytes, from a reader that may give fewer: the bytes
        returned, then the bytes still to come, are the bytes that were to come. */
    method Read(limit: nat) returns (data: bytes, status: ReadStatus)
      requires Valid() && limit > 0
      modifies this
      ensures Valid() && old(Pending()) == Then(data, Pending()) && |data| <= limit
      ensures match status
              case More => data != []
              case Eof => data == [] && Pending() == Outcome([], None)
              case Failed(e) => data == [] && Pending() == Outcome([], Some(e))
    {
      data := [];
      assert Then([], Pending()) == Pending();
      while true
        invariant Valid() && Pending() == old(Pending()) && data == []
        decreases Steps().0, Steps().1, Steps().2
      {
        if err.Some? {
          return [], Failed(err.value);
        }
        if done {
          return [], Eof;
        }
        if cur.None? {
          OpenNext();
          continue;
        }
        if remaining == 0 {
          FinishVolume();
          continue;
        }
        if cur.value != [] {
          data := Take(limit);
          return data, More;
        }
        err := Some(VolumeError(index, if src.broken(index) then ReadFailed else Truncated));
      }
    }

    /** Hands out some of the payload. */
    method Take(limit: nat) returns (data: bytes)
      requires Valid() && err.None? && !done && cur.Some? && cur.value != [] && remaining > 0 && limit > 0
      modifies this`cur, this`sum, this`remaining
      ensures Valid() && data != [] && |data| <= limit && old(Pending()) == Then(data, Pending())
    {
      hide Join, JoinRest;
      var b := cur.value;
      var most := Min(limit, Min(remaining, |b|));
      var n: nat :| 0 < n <= most;
      data := b[..n];
      JoinLater(src, index, id.value, last, b, n, remaining, sum, header, digest);
      cur := Some(b[n..]);
      sum := sum + data;
      remaining := remaining - n;
    }
  }

  /** Reading part of the payload first changes nothing. */
  lemma FinishLater(b: bytes, broken: bool, n: nat, remaining: nat, sum: bytes, header: bytes, digest: Digest)
    requires n <= |b| && n <= remaining
    ensures match Finish(b[n..], broken, remaining - n, sum + b[..n], header, digest)
            case Intact(data, rest) => Finish(b, broken, remaining, sum, header, digest) == Intact(b[..n] + data, rest)
            case Damaged(data, problem) => Finish(b, broken, remaining, sum, header, digest) == Damaged(b[..n] + data, problem)
  {
    if remaining <= |b| {
      assert b[n..][..remaining - n] == b[n..remaining] && b[n..][remaining - n..] == b[remaining..];
      assert b[..n] + b[n..remaining] == b[..remaining];
      assert sum + b[..n] + b[n..remaining] == sum + b[..remaining];
    } else {
      assert b == b[..n] + b[n..];
    }
  }

  lemma JoinLater(src: Source, index: nat, id: ID, last: bool, b: bytes, n: nat, remaining: nat, sum: bytes, header: bytes, digest: Digest)
    requires index > 0 && (src.Stream? ==> |b| <= |src.rest|) && (src.Files? ==> index <= |src.files|)
    requires n <= |b| && n <= remaining
    ensures JoinRest(src, index, id, last, b, remaining, sum, header, digest)
         == Then(b[..n], JoinRest(src, index, id, last, b[n..], remaining - n, sum + b[..n], header, digest))
  {
    hide Join, Finish;
    FinishLater(b, src.broken(index), n, remaining, sum, header, digest);
  }

  /** Reads everything, in pieces of the given sizes for as long as they last. */
  method ReadAll(src: Source, digest: Digest, sizes: nat -> nat) returns (data: bytes, failure: Option<VolumeError>)
    ensures Outcome(data, failure) == Join(src, 1, None, digest)
  {
    hide Join;
    var r := new VolumeReader(src, digest);
    data := [];
    ghost var all := r.Pending();
    var k := 0;
    while true
      invariant fresh(r) && r.Valid() && all == Then(data, r.Pending())
      decreases |all.data| - |data|
    {
      var piece, status := r.Read(1 + sizes(k));
      k := k + 1;
      assert data + (piece + r.Pending().data) == (data + piece) + r.Pending().data;
      match status
      case Eof => return data, None;
      case Failed(e) => return data, Some(e);
      case More => data := data + piece;
    }
  }

  // ---- Split, then join ----

  /** A volume reads back, up to whatever follows it. */
  lemma VolumeReads(id: ID, index: nat, last: bool, payload: bytes, more: bytes, broken: bool, digest: Digest)
    requires |payload| < TWO_64 && Sized(digest)
    ensures var b := VolumeFile(id, index, last, payload, digest) + more;
            var h := VolumeHeader(id, index % TWO_32, last, |payload|);
            && |b| >= HEADER_SIZE && b[..HEADER_SIZE] == Marshal(h)
            && ParseVolumeHeader(b[..HEADER_SIZE]) == (if index % TWO_32 == 0 then None else Some(h))
            && Finish(b[HEADER_SIZE..], broken, |payload|, [], b[..HEADER_SIZE], digest) == Intact(payload, more)
  {
    hide Marshal, ParseVolumeHeader;
    var h := VolumeHeader(id, index % TWO_32, last, |payload|);
    HeaderRoundTrip(h);
    var header := Marshal(h);
    var sum := digest(payload + header);
    var b := VolumeFile(id, index, last, payload, digest) + more;
    assert b == header + (payload + (sum + more));
    FinishWhole(payload, sum, more, header, broken, digest);
  }

  lemma FinishWhole(payload: bytes, sum: bytes, more: bytes, header: bytes, broken: bool, digest: Digest)
    requires Sized(digest) && sum == digest(payload + header)
    ensures Finish(payload + (sum + more), broken, |payload|, [], header, digest) == Intact(payload, more)
  {
    assert [] + payload + header == payload + header;
  }

  predicate IsVolume(files: seq<Option<bytes>>, k: nat, id: ID, last: bool, payload: bytes, digest: Digest)
  {
    k < |files| && |payload| < TWO_64 && files[k] == Some(VolumeFile(id, k + 1, last, payload, digest))
  }

  lemma JoinVolume(files: seq<Option<bytes>>, broken: nat -> bool, k: nat, known: Option<ID>, id: ID, last: bool, payload: bytes, digest: Digest)
    requires IsVolume(files, k, id, last, payload, digest) && k + 1 < TWO_32 && Sized(digest) && (known.Some? ==> known.value == id)
    ensures Join(Files(files, broken), k + 1, known, digest) ==
              if last then Outcome(payload, None) else Then(payload, Join(Files(files, broken), k + 2, Some(id), digest))
  {
    hide VolumeFile, ParseVolumeHeader, Marshal, Finish, Sized;
    var b := files[k].value;
    VolumeReads(id, k + 1, last, payload, [], broken(k + 1), digest);
    assert b + [] == b;
  }

  /** As far as the volumes are right, joining hands out their payloads. */
  lemma {:induction false} GoodPrefix(files: seq<Option<bytes>>, broken: nat -> bool, ps: seq<bytes>, i: nat, k: nat, known: Option<ID>, id: ID, digest: Digest)
    requires i <= k <= |ps| && k < TWO_32 && Sized(digest) && (known.Some? ==> known.value == id)
    requires forall j :: i <= j < k ==> IsVolume(files, j, id, false, ps[j], digest)
    ensures Join(Files(files, broken), i + 1, known, digest) ==
              Then(Flatten(ps[i..k]), Join(Files(files, broken), k + 1, if i == k then known else Some(id), digest))
    decreases k - i
  {
    hide Join, IsVolume, Sized, Flatten, Then;
    if i == k {
      NothingFirst(Join(Files(files, broken), k + 1, known, digest));
      assert ps[i..k] == [];
    } else {
      var rest := Join(Files(files, broken), k + 1, Some(id), digest);
      JoinVolume(files, broken, i, known, id, false, ps[i], digest);
      GoodPrefix(files, broken, ps, i + 1, k, Some(id), id, digest);
      FirstOf(ps, i, k);
      ThenThen(ps[i], Flatten(ps[i + 1..k]), rest);
    }
  }

  lemma NothingFirst(rest: Outcome)
    ensures Flatten([]) == [] && Then([], rest) == rest
  {
  }

  lemma FirstOf(ps: seq<bytes>, i: nat, k: nat)
    requires i < k <= |ps|
    ensures Flatten(ps[i..k]) == ps[i] + Flatten(ps[i + 1..k])
  {
    assert ps[i..k][1..] == ps[i + 1..k];
  }

  lemma ThenThen(a: bytes, b: bytes, rest: Outcome)
    ensures Then(a, Then(b, rest)) == Then(a + b, rest)
  {
  }

  function Present(volumes: seq<bytes>): (files: seq<Option<bytes>>)
    ensures |files| == |volumes| && forall i :: 0 <= i < |files| ==> files[i] == Some(volumes[i])
  {
    seq(|volumes|, i requires 0 <= i < |volumes| => Some(volumes[i]))
  }

  lemma SplitIsVolumes(stream: bytes, capacity: nat, id: ID, digest: Digest)
    requires 0 < capacity < TWO_64
    ensures var ps := Payloads(stream, capacity);
            var files := Present(SplitVolumes(stream, capacity, id, digest));
            forall j :: 0 <= j < |ps| ==> IsVolume(files, j, id, j == |ps| - 1, ps[j], digest)
  {
    hide VolumeFile, Payloads;
    PayloadsSplit(stream, capacity);
  }

  /** Joining the volumes of a stream gives back the stream, as long as they can be numbered;
      with 2^32 volumes or more, the one numbered 2^32 is refused. */
  lemma SplitJoins(stream: bytes, capacity: nat, id: ID, broken: nat -> bool, digest: Digest)
    requires 0 < capacity < TWO_64 && Sized(digest)
    ensures var n := |Payloads(stream, capacity)|;
            var joined := Join(Files(Present(SplitVolumes(stream, capacity, id, digest)), broken), 1, None, digest);
            && (n < TWO_32 <==> joined == Outcome(stream, None))
            && (n >= TWO_32 ==> joined.failure == Some(VolumeError(TWO_32, NotAVolume)))
  {
    hide Join, IsVolume, SplitVolumes, Payloads, Sized, Flatten;
    var ps := Payloads(stream, capacity);
    var files := Present(SplitVolumes(stream, capacity, id, digest));
    SplitIsVolumes(stream, capacity, id, digest);
    PayloadsSplit(stream, capacity);
    var k := Min(|ps| - 1, TWO_32 - 1);
    GoodPrefix(files, broken, ps, 0, k, None, id, digest);
    if k + 1 < TWO_32 {
      JoinVolume(files, broken, k, if k == 0 then None else Some(id), id, true, ps[k], digest);
      FlattenSnoc(ps[0..k], ps[k]);
      assert ps[0..k] + [ps[k]] == ps;
    } else {
      Unnumbered(files, broken, k, id, k == |ps| - 1, ps[k], digest);
    }
  }

  lemma Unnumbered(files: seq<Option<bytes>>, broken: nat -> bool, k: nat, id: ID, last: bool, payload: bytes, digest: Digest)
    requires IsVolume(files, k, id, last, payload, digest) && k + 1 == TWO_32 && Sized(digest)
    ensures Join(Files(files, broken), k + 1, Some(id), digest) == Fail(k + 1, NotAVolume)
  {
    hide VolumeFile, Marshal, ParseVolumeHeader, Finish;
    VolumeReads(id, k + 1, last, payload, [], broken(k + 1), digest);
    assert files[k].value + [] == files[k].value;
  }

  /** The same from one stream carrying the volumes back to back, and anything after them. */
  lemma {:induction false} StreamJoins(volumes: seq<bytes>, broken: nat -> bool, ps: seq<bytes>, i: nat, known: Option<ID>, id: ID, more: bytes, digest: Digest)
    requires i < |ps| == |volumes| < TWO_32 && Sized(digest) && (known.Some? ==> known.value == id)
    requires forall j :: 0 <= j < |ps| ==> IsVolume(Present(volumes), j, id, j == |ps| - 1, ps[j], digest)
    ensures Join(Stream(Flatten(volumes[i..]) + more, broken), i + 1, known, digest) == Outcome(Flatten(ps[i..]), None)
    decreases |ps| - i
  {
    hide VolumeFile, ParseVolumeHeader, Marshal, Finish, Sized;
    var rest := Flatten(volumes[i + 1..]) + more;
    assert volumes[i..][1..] == volumes[i + 1..] && ps[i..][1..] == ps[i + 1..];
    assert IsVolume(Present(volumes), i, id, i == |ps| - 1, ps[i], digest);
    assert Flatten(volumes[i..]) + more == volumes[i] + rest;
    VolumeReads(id, i + 1, i == |ps| - 1, ps[i], rest, broken(i + 1), digest);
    if i < |ps| - 1 {
      StreamJoins(volumes, broken, ps, i + 1, Some(id), id, more, digest);
    } else {
      assert Flatten(ps[i..]) == ps[i] + Flatten(ps[i + 1..]) == ps[i] + [];
    }
  }

  // ---- Wrong volumes are named ----

  /** With volumes up to the k-th right and the next one missing or with a wrong header, the
      join ends in an error naming it, having handed out exactly what lies before it. */
  lemma WrongVolume(files: seq<Option<bytes>>, broken: nat -> bool, ps: seq<bytes>, k: nat, id: ID, problem: Problem, digest: Digest)
    requires k <= |ps| && k < TWO_32 && Sized(digest) && forall j :: 0 <= j < k ==> IsVolume(files, j, id, false, ps[j], digest)
    requires if k >= |files| || files[k].None? then problem == Missing
             else HeaderProblem(files[k].value, if k == 0 then None else Some(id), k + 1) == Some(problem)
    ensures Join(Files(files, broken), 1, None, digest) == Outcome(Flatten(ps[..k]), Some(VolumeError(k + 1, problem)))
  {
    hide IsVolume, Sized, HeaderProblem;
    GoodPrefix(files, broken, ps, 0, k, None, id, digest);
    assert ps[0..k] == ps[..k];
  }

  /** A volume of another archive, in place of any but the first. */
  lemma ForeignVolume(other: ID, id: ID, k: nat, index: nat, last: bool, payload: bytes, digest: Digest)
    requires other != id && |payload| < TWO_64 && index % TWO_32 != 0 && Sized(digest)
    ensures HeaderProblem(VolumeFile(other, index, last, payload, digest), Some(id), k + 1) == Some(Foreign)
  {
    hide VolumeFile, Marshal, ParseVolumeHeader, Finish;
    VolumeReads(other, index, last, payload, [], false, digest);
    assert VolumeFile(other, index, last, payload, digest) + [] == VolumeFile(other, index, last, payload, digest);
  }

  /** A volume of the same archive in the wrong place, the first included. */
  lemma ReorderedVolume(id: ID, known: Option<ID>, k: nat, index: nat, last: bool, payload: bytes, digest: Digest)
    requires |payload| < TWO_64 && 0 < index < TWO_32 && k + 1 < TWO_32 && index != k + 1 && Sized(digest) && (known.Some? ==> known.value == id)
    ensures HeaderProblem(VolumeFile(id, index, last, payload, digest), known, k + 1) == Some(OutOfOrder(index))
  {
    hide VolumeFile, Marshal, ParseVolumeHeader, Finish;
    VolumeReads(id, index, last, payload, [], false, digest);
    assert VolumeFile(id, index, last, payload, digest) + [] == VolumeFile(id, index, last, payload, digest);
  }

  // ---- checkVolumeSet ----

  /** int64(VolumeOverhead) + int64(PayloadLen), which wraps around. */
  function DeclaredSize(payloadLen: u64): i64 { ToSigned(WrapAdd(OVERHEAD, payloadLen)) }

  function CheckSet(files: seq<Option<bytes>>, index: nat, id: Option<ID>): Option<VolumeError>
    requires index > 0
    decreases |files| - index
  {
    if index > |files| || files[index - 1].None? then Some(VolumeError(index, Missing))
    else
      var b := files[index - 1].value;
      var problem := HeaderProblem(b, id, index);
      if problem.Some? then Some(VolumeError(index, problem.value))
      else
        var h := ParseVolumeHeader(b[..HEADER_SIZE]).value;
        if |b| != DeclaredSize(h.payloadLen) then Some(VolumeError(index, WrongSize))
        else if h.last then None
        else CheckSet(files, index + 1, Some(h.id))
  }

  method CheckVolumeSet(files: seq<Option<bytes>>) returns (e: Option<VolumeError>)
    ensures e == CheckSet(files, 1, None)
  {
    hide HeaderProblem, ParseVolumeHeader, DeclaredSize;
    var index, id: Option<ID> := 1, None;
    while true
      invariant index > 0 && CheckSet(files, 1, None) == CheckSet(files, index, id)
      decreases |files| + 1 - index
    {
      if index > |files| || files[index - 1].None? {
        return Some(VolumeError(index, Missing));
      }
      var b := files[index - 1].value;
      var problem := HeaderProblem(b, id, index);
      if problem.Some? {
        return Some(VolumeError(index, problem.value));
      }
      AcceptedHeader(b, id, index);
      var h := ParseVolumeHeader(b[..HEADER_SIZE]).value;
      if |b| != DeclaredSize(h.payloadLen) {
        return Some(VolumeError(index, WrongSize));
      }
      if h.last {
        return None;
      }
      index, id := index + 1, Some(h.id);
    }
  }

  lemma AcceptedHeader(b: bytes, id: Option<ID>, index: nat)
    requires HeaderProblem(b, id, index).None?
    ensures |b| >= HEADER_SIZE && ParseVolumeHeader(b[..HEADER_SIZE]).Some?
  {
  }

  /** Volume `k` of a set is where it belongs: present, of the archive, with its number and with
      its payload and framing and no more. */
  predicate InPlace(files: seq<Option<bytes>>, k: nat, id: ID, last: bool)
  {
    && 0 < k <= |files| && files[k - 1].Some? && |files[k - 1].value| >= 40
    && var h := ParseVolumeHeader(files[k - 1].value[..40]);
       && h.Some? && h.value.id == id && h.value.index == k && h.value.last == last
       && h.value.payloadLen < TWO_63 - 72 && |files[k - 1].value| == 72 + h.value.payloadLen
  }

  lemma ChecksOne(files: seq<Option<bytes>>, i: nat, id: ID)
    requires 0 < i < TWO_32 && InPlace(files, i, id, false)
    ensures CheckSet(files, i, if i == 1 then None else Some(id)) == CheckSet(files, i + 1, Some(id))
  {
    hide ParseVolumeHeader;
  }

  lemma {:induction false} ChecksOn(files: seq<Option<bytes>>, k: nat, id: ID, i: nat)
    requires 0 < i <= k < TWO_32 && forall j :: 0 < j < k ==> InPlace(files, j, id, false)
    ensures CheckSet(files, i, if i == 1 then None else Some(id)) == CheckSet(files, k, if k == 1 then None else Some(id))
    decreases k - i
  {
    hide CheckSet, InPlace;
    if i < k {
      ChecksOne(files, i, id);
      ChecksOn(files, k, id, i + 1);
    }
  }

  /** With all volumes before it in place, what the check says of volume `k`, by its bytes. */
  lemma CheckFinds(files: seq<Option<bytes>>, k: nat, id: ID)
    requires 0 < k < TWO_32 && forall j :: 0 < j < k ==> InPlace(files, j, id, false)
    ensures var e := CheckSet(files, 1, None);
            if k > |files| || files[k - 1].None? then e == Some(VolumeError(k, Missing))
            else if |files[k - 1].value| < 40 then e == Some(VolumeError(k, NoHeader))
            else match ParseVolumeHeader(files[k - 1].value[..40])
              case None => e == Some(VolumeError(k, NotAVolume))
              case Some(h) =>
                && (k > 1 && h.id != id ==> e == Some(VolumeError(k, Foreign)))
                && ((k == 1 || h.id == id) && h.index != k ==> e == Some(VolumeError(k, OutOfOrder(h.index))))
                && ((k == 1 || h.id == id) && h.index == k && h.payloadLen < TWO_63 - 72 && |files[k - 1].value| != 72 + h.payloadLen ==>
                      e == Some(VolumeError(k, WrongSize)))
                && (InPlace(files, k, h.id, true) && (k == 1 || h.id == id) ==> e == None)
  {
    hide ParseVolumeHeader;
    ChecksOn(files, k, id, 1);
  }

  /** A payload length whose declared size wraps past zero. */
  predicate Wraps(payloadLen: u64) { payloadLen >= TWO_64 - CHECKSUM_SIZE }

  /** A volume has its declared size when its payload and checksum fill it, or when it is too
      short for them and the declared size wraps. */
  lemma SizeMatches(size: nat, payloadLen: u64)
    requires HEADER_SIZE <= size && size == DeclaredSize(payloadLen)
    ensures if Wraps(payloadLen) then size < OVERHEAD else size == OVERHEAD + payloadLen
  {
  }

  /** The first volume of a checked set whose declared size wraps. */
  function FirstWrapped(files: seq<Option<bytes>>, index: nat, id: Option<ID>): (r: Option<nat>)
    requires index > 0 && CheckSet(files, index, id).None?
    ensures r.Some? ==> index <= r.value <= |files|
    decreases |files| - index
  {
    hide HeaderProblem, ParseVolumeHeader, DeclaredSize;
    var b := files[index - 1].value;
    AcceptedHeader(b, id, index);
    var h := ParseVolumeHeader(b[..HEADER_SIZE]).value;
    if Wraps(h.payloadLen) then Some(index)
    else if h.last then None
    else FirstWrapped(files, index + 1, Some(h.id))
  }

  /** The checksum at the end of a volume file is that of its payload and header. */
  predicate SumHolds(b: bytes, digest: Digest)
  {
    |b| >= OVERHEAD && digest(b[HEADER_SIZE..|b| - CHECKSUM_SIZE] + b[..HEADER_SIZE]) == b[|b| - CHECKSUM_SIZE..]
  }

  lemma FinishesIff(b: bytes, broken: bool, payloadLen: nat, digest: Digest)
    requires |b| == OVERHEAD + payloadLen
    ensures var e := Finish(b[HEADER_SIZE..], broken, payloadLen, [], b[..HEADER_SIZE], digest);
            if SumHolds(b, digest) then e.Intact? else e.Damaged? && e.problem == Corrupted
  {
    var c := b[HEADER_SIZE..];
    assert [] + c[..payloadLen] == b[HEADER_SIZE..|b| - CHECKSUM_SIZE];
    assert c[payloadLen..][..CHECKSUM_SIZE] == b[|b| - CHECKSUM_SIZE..];
  }

  /** Some volume of a set, from `index` up to but not including `end`, has a wrong checksum. */
  predicate SumFails(files: seq<Option<bytes>>, index: nat, end: nat, digest: Digest)
    requires 0 < index && end <= |files| + 1
  {
    exists i :: index - 1 <= i < end - 1 && files[i].Some? && !SumHolds(files[i].value, digest)
  }

  /** What can still go wrong with a set that passed the check: a checksum mismatch; or, if
      some declared size wraps, the first such volume, when none before it is corrupted, ends
      before its declared length. */
  lemma {:induction false} CheckedSetJoins(files: seq<Option<bytes>>, broken: nat -> bool, index: nat, id: Option<ID>, digest: Digest)
    requires index > 0 && CheckSet(files, index, id).None?
    ensures var failure := Join(Files(files, broken), index, id, digest).failure;
            match FirstWrapped(files, index, id)
            case None => failure.None? || failure.value.problem == Corrupted
            case Some(m) =>
              && failure.Some?
              && (if SumFails(files, index, m, digest) then failure.value.index < m && failure.value.problem == Corrupted
                  else failure.value == VolumeError(m, if broken(m) then ReadFailed else Truncated))
    decreases |files| - index
  {
    hide HeaderProblem, ParseVolumeHeader, DeclaredSize;
    var b := files[index - 1].value;
    AcceptedHeader(b, id, index);
    var h := ParseVolumeHeader(b[..HEADER_SIZE]).value;
    SizeMatches(|b|, h.payloadLen);
    hide SumHolds;
    if !Wraps(h.payloadLen) {
      FinishesIff(b, broken(index), h.payloadLen, digest);
      hide Finish;
      if !h.last {
        CheckedSetJoins(files, broken, index + 1, Some(h.id), digest);
      }
    }
  }

  /** After a passed check only a checksum mismatch can occur, if and only if no declared size
      wraps or a volume before the first that does has a wrong checksum. */
  lemma CheckedSetFailsIff(files: seq<Option<bytes>>, broken: nat -> bool, digest: Digest)
    requires CheckSet(files, 1, None).None?
    ensures var failure, wrapped := Join(Files(files, broken), 1, None, digest).failure, FirstWrapped(files, 1, None);
            (failure.None? || failure.value.problem == Corrupted)
            <==> (wrapped.None? || SumFails(files, 1, wrapped.value, digest))
  {
    hide CheckSet, FirstWrapped, Join, SumFails;
    CheckedSetJoins(files, broken, 1, None, digest);
  }

  /** The shortest way: one last volume of 71 bytes that declares 2^64 - 1 passes the check,
      and then ends too soon. */
  lemma WrappedSizePasses(digest: Digest)
    ensures var header := Marshal(VolumeHeader(Zeros(ID_SIZE), 1, true, TWO_64 - 1));
            var files := [Some(header + Zeros(CHECKSUM_SIZE - 1))];
            && CheckSet(files, 1, None).None?
            && Join(Files(files, i => false), 1, None, digest) == Outcome(Zeros(CHECKSUM_SIZE - 1), Some(VolumeError(1, Truncated)))
  {
    hide Marshal, ParseVolumeHeader;
    var h := VolumeHeader(Zeros(ID_SIZE), 1, true, TWO_64 - 1);
    HeaderRoundTrip(h);
    var b := Marshal(h) + Zeros(CHECKSUM_SIZE - 1);
    assert b[..HEADER_SIZE] == Marshal(h) && b[HEADER_SIZE..] == Zeros(CHECKSUM_SIZE - 1);
  }

  /** A set as written passes. */
  lemma {:induction false} WrittenSetPasses(files: seq<Option<bytes>>, ps: seq<bytes>, i: nat, known: Option<ID>, id: ID, digest: Digest)
    requires i < |ps| < TWO_32 && Sized(digest) && (known.Some? ==> known.value == id)
    requires forall j :: 0 <= j < |ps| ==> |ps[j]| < TWO_63 - OVERHEAD && IsVolume(files, j, id, j == |ps| - 1, ps[j], digest)
    ensures CheckSet(files, i + 1, known).None?
    decreases |ps| - i
  {
    hide Marshal, ParseVolumeHeader, Finish, VolumeFile;
    var last := i == |ps| - 1;
    assert IsVolume(files, i, id, last, ps[i], digest);
    var b := files[i].value;
    VolumeReads(id, i + 1, last, ps[i], [], false, digest);
    assert b + [] == b;
    VolumeLength(id, i + 1, last, ps[i], digest);
    if !last {
      WrittenSetPasses(files, ps, i + 1, Some(id), id, digest);
    }
  }

  lemma VolumeLength(id: ID, index: nat, last: bool, payload: bytes, digest: Digest)
    requires |payload| < TWO_64 && Sized(digest)
    ensures |VolumeFile(id, index, last, payload, digest)| == OVERHEAD + |payload|
  {
  }

  /** Writes a stream in any pieces, closes it, and reads the volumes back in any sizes. */
  method SplitThenJoin(writes: seq<bytes>, volumeSize: nat, id: ID, digest: Digest, broken: nat -> bool, sizes: nat -> nat)
    returns (created: bool, data: bytes, failure: Option<VolumeError>)
    requires volumeSize < TWO_63 && Sized(digest)
    ensures created <==> volumeSize >= MIN_VOLUME_SIZE
    ensures created && |Payloads(Flatten(writes), volumeSize - OVERHEAD)| < TWO_32 ==> data == Flatten(writes) && failure.None?
  {
    hide Join, Payloads, SplitVolumes, Sized, Flatten;
    created, data, failure := true, [], None;
    var w := CreateVolumes(volumeSize, id, digest);
    if w == null {
      created := false;
      return;
    }
    assert writes[..0] == [];
    NothingFirst(Outcome([], None));
    for i := 0 to |writes|
      invariant fresh(w) && w.Valid() && !w.closed && w.stream == Flatten(writes[..i])
    {
      w.Write(writes[i], k => false);
      FlattenSnoc(writes[..i], writes[i]);
      assert writes[..i + 1] == writes[..i] + [writes[i]];
    }
    assert writes[..|writes|] == writes;
    w.Close(false, false);
    SplitJoins(w.stream, w.capacity, id, broken, digest);
    data, failure := ReadAll(Files(Present(w.volumes), broken), digest, sizes);
  }
}
