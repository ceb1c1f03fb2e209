/** Assembling files from the chunks of an incremental archive's packs
    (io/incremental_restore.go): what a chunk read, a position in a file and a temporary file
    are, and when a file is complete. */
module Assembly {
  import opened Bytes
  import opened ArchiveFile
  import opened ChunkStore
  import SI = SessionIndex
  import P = Pack

  /** What reading a pack entry gives: the plaintext blocks that opened, and whether the
      entry's head, its blocks, size and HMAC all verified to the end. */
  datatype PackRead = PackRead(slices: seq<bytes>, verified: bool)

  /** File system failures: creating the temporary file, writing a chunk position, renaming. */
  datatype Faults = Faults(create: bytes -> bool, write: (bytes, nat) -> bool, publish: bytes -> bool)

  datatype Job = Job(chunks: seq<ChunkLocation>, read: nat -> PackRead, faults: Faults, env: Env)

  datatype Problem = CannotCreate | WriteFailed | PackDamaged | MissingChunks | CannotPublish

  datatype RestoreFile = RestoreFile(version: SI.FileVersion, tmp: bytes, pending: int, err: Option<Problem>)

  /** One position in a file that a chunk fills. */
  datatype Target = Target(file: nat, pos: nat, offset: nat)

  // ---- Chunks read from packs ----

  /** deliverChunk's check: decoded to the recorded length, with the recorded ID. */
  function Opened(loc: ChunkLocation, stored: bytes, env: Env): (r: Option<bytes>)
    ensures r.Some? ==> |r.value| == loc.raw && env.id(r.value) == loc.id
  {
    match Decode(loc.codec, stored, env)
    case None => None
    case Some(raw) => if |raw| != loc.raw || env.id(raw) != loc.id then None else Some(raw)
  }

  /** The verified bytes of a chunk in a pack's plaintext. */
  function ChunkFrom(loc: ChunkLocation, stream: bytes, env: Env): (r: Option<bytes>)
    ensures r.Some? ==> |r.value| == loc.raw && env.id(r.value) == loc.id
  {
    if loc.offset + loc.stored > |stream| then None else Opened(loc, stream[loc.offset..loc.offset + loc.stored], env)
  }

  function Chunk(job: Job, n: nat): (r: Option<bytes>)
    requires n < |job.chunks|
    ensures r.Some? ==> |r.value| == job.chunks[n].raw && job.env.id(r.value) == job.chunks[n].id
  {
    ChunkFrom(job.chunks[n], Flatten(job.read(job.chunks[n].packOffset).slices), job.env)
  }

  predicate Disjoint(a: ChunkLocation, b: ChunkLocation)
  {
    a.offset + a.stored <= b.offset || b.offset + b.stored <= a.offset
  }

  /** Pack `p` serves all of `needed`: it verifies to its end and every needed chunk in it
      is there, checks out and overlaps no other. */
  predicate PackGood(job: Job, needed: set<nat>, p: nat)
  {
    && job.read(p).verified
    && (forall n :: n in needed && InPack(job, n, p) ==> Chunk(job, n).Some?)
    && (forall n, m :: n in needed && m in needed && n != m && InPack(job, n, p) && InPack(job, m, p) ==>
          Disjoint(job.chunks[n], job.chunks[m]))
  }

  predicate InPack(job: Job, n: nat, p: nat) { n < |job.chunks| && job.chunks[n].packOffset == p }

  // ---- Positions in a file ----

  function PosOffset(ns: seq<u64>, p: nat, chunks: seq<ChunkLocation>): nat
    requires InRange(ns, chunks) && p <= |ns|
  {
    RawSum(ns[..p], chunks)
  }

  lemma {:induction false} RawSumSnoc(ns: seq<u64>, n: u64, chunks: seq<ChunkLocation>)
    requires InRange(ns, chunks) && n < |chunks|
    ensures RawSum(ns + [n], chunks) == RawSum(ns, chunks) + chunks[n].raw
    decreases |ns|
  {
    if ns == [] {
      assert (ns + [n])[1..] == [];
    } else {
      assert (ns + [n])[1..] == ns[1..] + [n];
      RawSumSnoc(ns[1..], n, chunks);
    }
  }

  lemma StartsAtZero(ns: seq<u64>, chunks: seq<ChunkLocation>)
    requires InRange(ns, chunks)
    ensures PosOffset(ns, 0, chunks) == 0
  {
  }

  lemma PosOffsetStep(ns: seq<u64>, p: nat, chunks: seq<ChunkLocation>)
    requires InRange(ns, chunks) && p < |ns|
    ensures PosOffset(ns, p + 1, chunks) == PosOffset(ns, p, chunks) + chunks[ns[p]].raw
  {
    RawSumSnoc(ns[..p], ns[p], chunks);
    assert ns[..p + 1] == ns[..p] + [ns[p]];
  }

  lemma {:induction false} PosOffsetMonotone(ns: seq<u64>, p: nat, q: nat, chunks: seq<ChunkLocation>)
    requires InRange(ns, chunks) && p <= q <= |ns|
    ensures PosOffset(ns, p, chunks) <= PosOffset(ns, q, chunks)
    decreases q - p
  {
    hide RawSum;
    if p < q {
      PosOffsetMonotone(ns, p, q - 1, chunks);
      PosOffsetStep(ns, q - 1, chunks);
    }
  }

  lemma PosOffsetEnd(ns: seq<u64>, p: nat, chunks: seq<ChunkLocation>)
    requires InRange(ns, chunks) && p < |ns|
    ensures PosOffset(ns, p, chunks) + chunks[ns[p]].raw <= RawSum(ns, chunks)
  {
    PosOffsetStep(ns, p, chunks);
    PosOffsetMonotone(ns, p + 1, |ns|, chunks);
    assert ns[..|ns|] == ns;
  }

  // ---- Temporary files ----

  /** os.File.WriteAt: a gap below the write reads as zeros. */
  function WriteAt(file: bytes, off: nat, data: bytes): (r: bytes)
    ensures data != [] ==> |r| == Max(|file|, off + |data|)
  {
    if data == [] then file
    else if off > |file| then file + Zeros(off - |file|) + data
    else if off + |data| > |file| then file[..off] + data
    else file[..off] + data + file[off + |data|..]
  }

  predicate Slot(file: bytes, off: nat, data: bytes)
  {
    off + |data| <= |file| && file[off..off + |data|] == data
  }

  lemma WriteAtWrites(file: bytes, off: nat, data: bytes)
    requires data != []
    ensures Slot(WriteAt(file, off, data), off, data)
  {
  }

  lemma WriteAtKeeps(file: bytes, off: nat, data: bytes, o: nat, d: bytes)
    requires Slot(file, o, d) && (o + |d| <= off || off + |data| <= o)
    ensures Slot(WriteAt(file, off, data), o, d)
  {
    var r := WriteAt(file, off, data);
    forall k | 0 <= k < |d| ensures o + k < |r| && r[o + k] == d[k] {
      assert file[o..o + |d|][k] == d[k];
    }
    if d != [] {
      assert r[o..o + |d|] == d;
    }
  }

  /** Verified chunk bytes by chunk number. */
  type Raws = map<nat, bytes>

  predicate Sized(chunks: seq<ChunkLocation>) { forall i :: 0 <= i < |chunks| ==> 0 < chunks[i].stored && 0 < chunks[i].raw }

  predicate RawsFit(job: Job, raws: Raws)
  {
    forall n :: n in raws ==> n < |job.chunks| && Chunk(job, n) == Some(raws[n])
  }

  /** Position `p` holds its chunk. */
  predicate Filled(job: Job, rf: RestoreFile, p: nat, raws: Raws)
    requires InRange(rf.version.chunks, job.chunks)
  {
    var ns := rf.version.chunks;
    && p < |ns| && ns[p] in raws && !job.faults.write(rf.version.name, p)
    && Slot(rf.tmp, PosOffset(ns, p, job.chunks), raws[ns[p]])
  }

  predicate Healthy(job: Job, rf: RestoreFile, w: set<nat>, raws: Raws, bad: set<nat>)
    requires InRange(rf.version.chunks, job.chunks)
  {
    var ns := rf.version.chunks;
    && !job.faults.create(rf.version.name)
    && rf.pending == |ns| - |w| && |rf.tmp| <= RawSum(ns, job.chunks)
    && (forall p :: p in w ==> Filled(job, rf, p, raws))
    && (forall p :: 0 <= p < |ns| ==> job.chunks[ns[p]].packOffset !in bad)
  }

  /** Why a file failed. */
  ghost predicate Excused(job: Job, f: SI.FileVersion, blame: set<nat>)
    requires InRange(f.chunks, job.chunks)
  {
    || job.faults.create(f.name)
    || (exists p :: 0 <= p < |f.chunks| && job.faults.write(f.name, p))
    || (exists p :: 0 <= p < |f.chunks| && job.chunks[f.chunks[p]].packOffset in blame)
  }

  ghost predicate FileInv(job: Job, rf: RestoreFile, w: set<nat>, raws: Raws, bad: set<nat>, blame: set<nat>)
  {
    && InRange(rf.version.chunks, job.chunks)
    && (forall p :: p in w ==> p < |rf.version.chunks| && rf.version.chunks[p] in raws)
    && if rf.err.None? then Healthy(job, rf, w, raws, bad) else Excused(job, rf.version, blame)
  }

  lemma PositionsApart(ns: seq<u64>, p: nat, q: nat, chunks: seq<ChunkLocation>)
    requires InRange(ns, chunks) && p < |ns| && q < |ns| && p != q
    ensures || PosOffset(ns, p, chunks) + chunks[ns[p]].raw <= PosOffset(ns, q, chunks)
            || PosOffset(ns, q, chunks) + chunks[ns[q]].raw <= PosOffset(ns, p, chunks)
  {
    hide PosOffset;
    PosOffsetStep(ns, p, chunks);
    PosOffsetStep(ns, q, chunks);
    if p < q { PosOffsetMonotone(ns, p + 1, q, chunks); } else { PosOffsetMonotone(ns, q + 1, p, chunks); }
  }

  /** Writing one new position keeps the file healthy. */
  lemma WriteStep(job: Job, rf: RestoreFile, w: set<nat>, raws: Raws, bad: set<nat>, p: nat, raw: bytes)
    requires InRange(rf.version.chunks, job.chunks) && Healthy(job, rf, w, raws, bad) && Sized(job.chunks) && RawsFit(job, raws)
    requires p < |rf.version.chunks| && p !in w && !job.faults.write(rf.version.name, p)
    requires rf.version.chunks[p] in raws && raws[rf.version.chunks[p]] == raw
    ensures Healthy(job, rf.(tmp := WriteAt(rf.tmp, PosOffset(rf.version.chunks, p, job.chunks), raw), pending := rf.pending - 1), w + {p}, raws, bad)
  {
    hide WriteAt, Slot, PosOffset, RawSum, Chunk;
    var ns := rf.version.chunks;
    var off := PosOffset(ns, p, job.chunks);
    var rf' := rf.(tmp := WriteAt(rf.tmp, off, raw), pending := rf.pending - 1);
    PosOffsetEnd(ns, p, job.chunks);
    assert |raw| == job.chunks[ns[p]].raw > 0;
    forall q | q in w + {p} ensures Filled(job, rf', q, raws) {
      if q == p {
        WriteAtWrites(rf.tmp, off, raw);
      } else {
        assert Filled(job, rf, q, raws);
        PositionsApart(ns, p, q, job.chunks);
        assert |raws[ns[q]]| == job.chunks[ns[q]].raw;
        WriteAtKeeps(rf.tmp, off, raw, PosOffset(ns, q, job.chunks), raws[ns[q]]);
      }
    }
  }

  // ---- Targets ----

  /** Every position of files before `i`, and the first `k` of file `i`, has its target. */
  predicate Listed(i: nat, k: nat, f: nat, p: nat) { f < i || (f == i && p < k) }

  predicate GoodTarget(job: Job, files: seq<SI.FileVersion>, n: nat, t: Target)
    requires forall f :: 0 <= f < |files| ==> InRange(files[f].chunks, job.chunks)
  {
    && t.file < |files| && !job.faults.create(files[t.file].name)
    && t.pos < |files[t.file].chunks| && files[t.file].chunks[t.pos] == n
    && t.offset == PosOffset(files[t.file].chunks, t.pos, job.chunks)
  }

  function TargetFor(job: Job, files: seq<SI.FileVersion>, f: nat, p: nat): Target
    requires f < |files| && InRange(files[f].chunks, job.chunks) && p <= |files[f].chunks|
  {
    Target(f, p, PosOffset(files[f].chunks, p, job.chunks))
  }

  predicate NoRepeats(ts: seq<Target>)
  {
    forall j, k :: 0 <= j < k < |ts| ==> ts[j] != ts[k]
  }

  predicate AllInRange(job: Job, files: seq<SI.FileVersion>)
  {
    forall f :: 0 <= f < |files| ==> InRange(files[f].chunks, job.chunks)
  }

  /** The targets are exactly the listed positions, each under its chunk, once. */
  predicate TargetsOf(job: Job, files: seq<SI.FileVersion>, targets: map<nat, seq<Target>>, i: nat, k: nat)
    requires AllInRange(job, files)
  {
    && (forall n :: n in targets ==> targets[n] != [] && NoRepeats(targets[n]))
    && (forall n, j :: n in targets && 0 <= j < |targets[n]| ==>
          GoodTarget(job, files, n, targets[n][j]) && Listed(i, k, targets[n][j].file, targets[n][j].pos))
    && (forall f, p :: 0 <= f < |files| && 0 <= p < |files[f].chunks| && Listed(i, k, f, p) && !job.faults.create(files[f].name) ==>
          files[f].chunks[p] in targets && TargetFor(job, files, f, p) in targets[files[f].chunks[p]])
  }

  lemma AddTarget(job: Job, files: seq<SI.FileVersion>, targets: map<nat, seq<Target>>, i: nat, k: nat)
    requires AllInRange(job, files) && i < |files| && k < |files[i].chunks| && !job.faults.create(files[i].name)
    requires TargetsOf(job, files, targets, i, k)
    ensures var n := files[i].chunks[k];
            TargetsOf(job, files, targets[n := (if n in targets then targets[n] else []) + [TargetFor(job, files, i, k)]], i, k + 1)
  {
    hide PosOffset;
    var n := files[i].chunks[k];
    var ts := if n in targets then targets[n] else [];
    var t := TargetFor(job, files, i, k);
    var more := targets[n := ts + [t]];
    forall j | 0 <= j < |ts| ensures ts[j] != t {
      assert Listed(i, k, ts[j].file, ts[j].pos);
    }
    assert GoodTarget(job, files, n, t);
    forall f, p | 0 <= f < |files| && 0 <= p < |files[f].chunks| && Listed(i, k + 1, f, p) && !job.faults.create(files[f].name)
      ensures files[f].chunks[p] in more && TargetFor(job, files, f, p) in more[files[f].chunks[p]]
    {
      if f == i && p == k {
        assert more[n][|ts|] == t;
      } else {
        assert Listed(i, k, f, p);
      }
    }
  }

  /** The next file starts: all positions of this one are listed, or it has none to list. */
  lemma NextFile(job: Job, files: seq<SI.FileVersion>, targets: map<nat, seq<Target>>, i: nat, k: nat)
    requires AllInRange(job, files) && i < |files| && TargetsOf(job, files, targets, i, k)
    requires k == |files[i].chunks| || (k == 0 && job.faults.create(files[i].name))
    ensures TargetsOf(job, files, targets, i + 1, 0)
  {
    hide PosOffset, TargetFor;
    forall f, p | 0 <= f < |files| && 0 <= p < |files[f].chunks| && Listed(i + 1, 0, f, p) && !job.faults.create(files[f].name)
      ensures files[f].chunks[p] in targets && TargetFor(job, files, f, p) in targets[files[f].chunks[p]]
    {
      assert Listed(i, k, f, p);
    }
    forall n, j | n in targets && 0 <= j < |targets[n]|
      ensures GoodTarget(job, files, n, targets[n][j]) && Listed(i + 1, 0, targets[n][j].file, targets[n][j].pos)
    {
      assert Listed(i, k, targets[n][j].file, targets[n][j].pos);
    }
  }

  /** Chunks needed by the files whose temporary file could be created. */
  ghost predicate Needs(job: Job, files: seq<SI.FileVersion>, n: nat)
  {
    exists f, p :: 0 <= f < |files| && 0 <= p < |files[f].chunks| && files[f].chunks[p] == n && !job.faults.create(files[f].name)
  }

  lemma TargetKeys(job: Job, files: seq<SI.FileVersion>, targets: map<nat, seq<Target>>)
    requires AllInRange(job, files) && TargetsOf(job, files, targets, |files|, 0)
    ensures forall n :: n in targets <==> Needs(job, files, n)
    ensures forall n :: n in targets ==> n < |job.chunks|
  {
    hide PosOffset, TargetFor;
    forall n ensures n in targets <==> Needs(job, files, n) {
      if n in targets {
        var t := targets[n][0];
        assert GoodTarget(job, files, n, t);
        assert files[t.file].chunks[t.pos] == n;
      }
      if Needs(job, files, n) {
        var f, p :| 0 <= f < |files| && 0 <= p < |files[f].chunks| && files[f].chunks[p] == n && !job.faults.create(files[f].name);
        assert Listed(|files|, 0, f, p);
      }
    }
    forall n | n in targets ensures n < |job.chunks| {
      assert GoodTarget(job, files, n, targets[n][0]);
    }
  }

  lemma TargetsAreGood(job: Job, files: seq<SI.FileVersion>, targets: map<nat, seq<Target>>, n: nat)
    requires AllInRange(job, files) && n in targets && TargetsOf(job, files, targets, |files|, 0)
    ensures forall j :: 0 <= j < |targets[n]| ==> GoodTarget(job, files, n, targets[n][j])
    ensures forall j, k :: 0 <= j < k < |targets[n]| ==> targets[n][j].file != targets[n][k].file || targets[n][j].pos != targets[n][k].pos
  {
    hide PosOffset, TargetFor;
    forall j, k | 0 <= j < k < |targets[n]|
      ensures targets[n][j].file != targets[n][k].file || targets[n][j].pos != targets[n][k].pos
    {
      assert GoodTarget(job, files, n, targets[n][j]) && GoodTarget(job, files, n, targets[n][k]);
      assert targets[n][j] != targets[n][k];
    }
  }

  // ---- Routing a pack ----

  predicate Distinct(ns: seq<nat>) { forall i, j :: 0 <= i < j < |ns| ==> ns[i] != ns[j] }

  predicate ByOffset(chunks: seq<ChunkLocation>, ns: seq<nat>)
  {
    && (forall i :: 0 <= i < |ns| ==> ns[i] < |chunks|)
    && (forall i, j :: 0 <= i < j < |ns| ==> chunks[ns[i]].offset <= chunks[ns[j]].offset)
  }

  function ToNeeded(ns: seq<nat>): set<nat> { set n | n in ns }

  function SpansOf(chunks: seq<ChunkLocation>, ns: seq<nat>): (spans: seq<P.Span>)
    requires forall i :: 0 <= i < |ns| ==> ns[i] < |chunks|
    ensures |spans| == |ns|
    ensures forall i :: 0 <= i < |ns| ==> spans[i] == P.Span(ns[i], chunks[ns[i]].offset, chunks[ns[i]].stored)
  {
    seq(|ns|, i requires 0 <= i < |ns| => P.Span(ns[i], chunks[ns[i]].offset, chunks[ns[i]].stored))
  }

  function Accepts(job: Job): P.Delivery -> bool
  {
    (d: P.Delivery) => d.n < |job.chunks| && Opened(job.chunks[d.n], d.stored, job.env).Some?
  }

  lemma DeliveredChunk(job: Job, needed: seq<nat>, p: nat, k: nat, d: P.Delivery)
    requires k < |needed| && ByOffset(job.chunks, needed) && job.chunks[needed[k]].packOffset == p
    requires var s := SpansOf(job.chunks, needed)[k];
             P.End(s) <= |Flatten(job.read(p).slices)| && d == P.Piece(s, Flatten(job.read(p).slices))
    requires Accepts(job)(d)
    ensures d.n == needed[k] && Opened(job.chunks[needed[k]], d.stored, job.env).Some?
    ensures Chunk(job, needed[k]) == Opened(job.chunks[needed[k]], d.stored, job.env)
  {
    hide Opened;
  }

  ghost predicate Routed(job: Job, needed: seq<nat>, p: nat)
    requires ByOffset(job.chunks, needed)
  {
    var stream, spans := Flatten(job.read(p).slices), SpansOf(job.chunks, needed);
    job.read(p).verified && P.Fits(spans, |stream|) && P.AllAccepted(spans, stream, Accepts(job))
  }

  predicate AllIn(job: Job, needed: seq<nat>, p: nat)
    requires ByOffset(job.chunks, needed)
  {
    forall i :: 0 <= i < |needed| ==> job.chunks[needed[i]].packOffset == p
  }

  lemma PieceOfChunk(job: Job, needed: seq<nat>, p: nat, i: nat)
    requires ByOffset(job.chunks, needed) && AllIn(job, needed, p) && i < |needed|
    ensures var stream, s := Flatten(job.read(p).slices), SpansOf(job.chunks, needed)[i];
            Chunk(job, needed[i]).Some? <==> P.End(s) <= |stream| && Accepts(job)(P.Piece(s, stream))
  {
    hide Opened;
  }

  lemma RoutedIsGood(job: Job, needed: seq<nat>, p: nat)
    requires ByOffset(job.chunks, needed) && AllIn(job, needed, p) && Routed(job, needed, p)
    ensures PackGood(job, ToNeeded(needed), p)
  {
    hide Chunk, Accepts;
    var stream, spans := Flatten(job.read(p).slices), SpansOf(job.chunks, needed);
    forall n | n in needed ensures Chunk(job, n).Some? {
      var i :| 0 <= i < |needed| && needed[i] == n;
      PieceOfChunk(job, needed, p, i);
    }
    forall n, m | n in needed && m in needed && n != m ensures Disjoint(job.chunks[n], job.chunks[m]) {
      var i :| 0 <= i < |needed| && needed[i] == n;
      var j :| 0 <= j < |needed| && needed[j] == m;
      FitsApart(spans, |stream|, Min(i, j), Max(i, j));
    }
  }

  lemma GoodIsRouted(job: Job, needed: seq<nat>, p: nat)
    requires Distinct(needed) && ByOffset(job.chunks, needed) && AllIn(job, needed, p) && Sized(job.chunks)
    requires PackGood(job, ToNeeded(needed), p)
    ensures Routed(job, needed, p)
  {
    hide Chunk, Accepts;
    var stream, spans := Flatten(job.read(p).slices), SpansOf(job.chunks, needed);
    forall i | 0 <= i < |needed| ensures P.End(spans[i]) <= |stream| && Accepts(job)(P.Piece(spans[i], stream)) {
      assert needed[i] in ToNeeded(needed);
      PieceOfChunk(job, needed, p, i);
    }
    forall i | 0 < i < |needed| ensures P.End(spans[i - 1]) <= spans[i].offset {
      assert needed[i - 1] in ToNeeded(needed) && needed[i] in ToNeeded(needed);
      assert Disjoint(job.chunks[needed[i - 1]], job.chunks[needed[i]]);
    }
  }

  /** The router ends well exactly when every needed chunk is in range, verified, and
      overlaps no other. */
  lemma GoodIffRouted(job: Job, needed: seq<nat>, p: nat)
    requires Distinct(needed) && ByOffset(job.chunks, needed) && AllIn(job, needed, p) && Sized(job.chunks)
    ensures Routed(job, needed, p) <==> PackGood(job, ToNeeded(needed), p)
  {
    hide PackGood, Routed;
    if Routed(job, needed, p) { RoutedIsGood(job, needed, p); }
    if PackGood(job, ToNeeded(needed), p) { GoodIsRouted(job, needed, p); }
  }

  lemma {:induction false} FitsApart(spans: seq<P.Span>, size: nat, i: nat, j: nat)
    requires P.Fits(spans, size) && i < j < |spans|
    ensures P.End(spans[i]) <= spans[j].offset
    decreases j - i
  {
    if i + 1 < j {
      FitsApart(spans, size, i, j - 1);
    }
  }

  // ---- Which chunks are needed ----

  function Needed(job: Job, files: seq<SI.FileVersion>): set<nat>
  {
    set f, p | 0 <= f < |files| && 0 <= p < |files[f].chunks| && !job.faults.create(files[f].name) :: files[f].chunks[p]
  }

  lemma PackGoodLocal(job: Job, all: set<nat>, here: set<nat>, p: nat)
    requires forall n :: n in here <==> n in all && InPack(job, n, p)
    ensures PackGood(job, all, p) <==> PackGood(job, here, p)
  {
    hide Chunk, Disjoint;
  }

  // ---- Publication ----

  predicate DistinctNames(files: seq<SI.FileVersion>) { forall i, j :: 0 <= i < j < |files| ==> files[i].name != files[j].name }

  /** Nothing goes wrong for this file. */
  predicate Restorable(job: Job, needed: set<nat>, f: SI.FileVersion)
  {
    Assembled(job, needed, f) && !job.faults.publish(f.name)
  }

  /** Its temporary file is created and every position is written from a good pack. */
  predicate Assembled(job: Job, needed: set<nat>, f: SI.FileVersion)
  {
    && !job.faults.create(f.name)
    && forall p :: 0 <= p < |f.chunks| ==>
         f.chunks[p] < |job.chunks| && !job.faults.write(f.name, p) && PackGood(job, needed, job.chunks[f.chunks[p]].packOffset)
  }

  /** A file's state once all packs are read. */
  predicate Settled(job: Job, needed: set<nat>, rf: RestoreFile)
  {
    && (rf.err.None? <==> Assembled(job, needed, rf.version))
    && (rf.err.None? ==> rf.pending == 0 && AllVerified(job, rf.version.chunks) && rf.tmp == Content(job, rf.version.chunks))
  }

  lemma {:induction false} FilledUpTo(job: Job, rf: RestoreFile, w: set<nat>, raws: Raws, k: nat)
    requires InRange(rf.version.chunks, job.chunks) && RawsFit(job, raws) && k <= |rf.version.chunks|
    requires forall p :: 0 <= p < k ==> Filled(job, rf, p, raws)
    ensures AllVerified(job, rf.version.chunks[..k])
    ensures PosOffset(rf.version.chunks, k, job.chunks) <= |rf.tmp|
    ensures rf.tmp[..PosOffset(rf.version.chunks, k, job.chunks)] == Content(job, rf.version.chunks[..k])
  {
    hide Chunk, PosOffset, Content, AllVerified;
    var ns := rf.version.chunks;
    if k == 0 {
      StartsAtZero(ns, job.chunks);
      NoContent(job);
      assert ns[..0] == [];
    } else {
      FilledUpTo(job, rf, w, raws, k - 1);
      assert Filled(job, rf, k - 1, raws);
      var n := ns[k - 1];
      PosOffsetStep(ns, k - 1, job.chunks);
      var a, b := PosOffset(ns, k - 1, job.chunks), PosOffset(ns, k, job.chunks);
      assert Chunk(job, n) == Some(raws[n]);
      assert rf.tmp[..b] == rf.tmp[..a] + rf.tmp[a..b];
      assert ns[..k] == ns[..k - 1] + [n];
      ContentSnoc(job, ns[..k - 1], n);
    }
  }

  lemma NoContent(job: Job)
    ensures AllVerified(job, []) && Content(job, []) == []
  {
  }

  lemma {:induction false} ContentSnoc(job: Job, ns: seq<u64>, n: u64)
    requires AllVerified(job, ns) && n < |job.chunks| && Chunk(job, n).Some?
    ensures AllVerified(job, ns + [n]) && Content(job, ns + [n]) == Content(job, ns) + Chunk(job, n).value
    decreases |ns|
  {
    hide Chunk;
    if ns == [] {
      assert (ns + [n])[1..] == [];
    } else {
      ContentSnoc(job, ns[1..], n);
      assert (ns + [n])[1..] == ns[1..] + [n];
    }
  }

  lemma {:induction false} CountBelow(w: set<nat>, n: nat)
    requires forall p: nat :: p in w <==> p < n
    ensures |w| == n
  {
    if n > 0 {
      assert w == (w - {n - 1}) + {n - 1};
      CountBelow(w - {n - 1}, n - 1);
    } else {
      assert w == {};
    }
  }

  /** A file that did not fail is complete; one that failed has a reason. */
  lemma FileSettles(job: Job, needed: set<nat>, rf: RestoreFile, w: set<nat>, raws: Raws, bad: set<nat>)
    requires FileInv(job, rf, w, raws, bad, bad) && RawsFit(job, raws)
    requires forall p :: p in bad ==> !PackGood(job, needed, p)
    requires rf.err.None? ==> forall p :: 0 <= p < |rf.version.chunks| ==> rf.version.chunks[p] in raws && p in w
    requires forall n :: n in needed && n < |job.chunks| && job.chunks[n].packOffset !in bad ==> PackGood(job, needed, job.chunks[n].packOffset)
    requires rf.err.None? ==> forall p :: 0 <= p < |rf.version.chunks| ==> rf.version.chunks[p] in needed
    ensures Settled(job, needed, rf)
  {
    hide PackGood, Content, AllVerified, RawsFit, PosOffset, RawSum, Filled;
    var ns := rf.version.chunks;
    if rf.err.None? {
      CountBelow(w, |ns|);
      FilledUpTo(job, rf, w, raws, |ns|);
      assert ns[..|ns|] == ns;
      WholeFile(ns, job.chunks);
      forall p | 0 <= p < |ns| ensures !job.faults.write(rf.version.name, p) && PackGood(job, needed, job.chunks[ns[p]].packOffset) {
        NotFaulted(job, rf, p, raws);
      }
    }
  }

  lemma WholeFile(ns: seq<u64>, chunks: seq<ChunkLocation>)
    requires InRange(ns, chunks)
    ensures PosOffset(ns, |ns|, chunks) == RawSum(ns, chunks)
  {
    assert ns[..|ns|] == ns;
  }

  lemma NotFaulted(job: Job, rf: RestoreFile, p: nat, raws: Raws)
    requires InRange(rf.version.chunks, job.chunks) && Filled(job, rf, p, raws)
    ensures !job.faults.write(rf.version.name, p)
  {
  }

  predicate AllVerified(job: Job, ns: seq<u64>)
  {
    forall p :: 0 <= p < |ns| ==> ns[p] < |job.chunks| && Chunk(job, ns[p]).Some?
  }

  /** The verified chunks of a file, in order. */
  function Content(job: Job, ns: seq<u64>): bytes
    requires AllVerified(job, ns)
  {
    if ns == [] then [] else Chunk(job, ns[0]).value + Content(job, ns[1..])
  }
}
