/** Extracting the newest state of an incremental archive: loading it, restoring its files,
    and what that means for a whole backup history. */
module Extraction {
  import opened Bytes
  import opened Format
  import opened ArchiveFile
  import opened ChunkStore
  import opened Assembly
  import opened Restore
  import SI = SessionIndex
  import A = Attributes
  import CS = CrashSafety
  import L = Loader
  import B = Backup
  import S = Snapshots
  import P = Provenance

  // ---- What loading any file guarantees ----

  /** Names match, every chunk number is in range and every file adds up to its size. */
  predicate UsableFiles(files: map<bytes, SI.FileVersion>, chunks: seq<ChunkLocation>)
  {
    forall n :: n in files ==>
      files[n].name == n && InRange(files[n].chunks, chunks) && RawSum(files[n].chunks, chunks) == files[n].size
  }

  predicate Usable(c: Contents) { Sized(c.chunks) && UsableFiles(c.files, c.chunks) }

  lemma {:induction false} ApplyFilesUsable(files: map<bytes, SI.FileVersion>, fs: seq<SI.FileVersion>, chunks: seq<ChunkLocation>)
    requires UsableFiles(files, chunks) && forall i :: 0 <= i < |fs| ==> InRange(fs[i].chunks, chunks)
    ensures match ApplyFiles(files, fs, chunks) case None => true case Some(m) => UsableFiles(m, chunks)
    decreases |fs|
  {
    hide InRange, RawSum;
    if fs != [] && RawSum(fs[0].chunks, chunks) == fs[0].size {
      ApplyFilesUsable(files[fs[0].name := fs[0]], fs[1..], chunks);
    }
  }

  lemma MoreChunks(files: map<bytes, SI.FileVersion>, chunks: seq<ChunkLocation>, longer: seq<ChunkLocation>)
    requires UsableFiles(files, chunks) && chunks <= longer
    ensures UsableFiles(files, longer)
  {
    hide RawSum;
    forall n | n in files ensures InRange(files[n].chunks, longer) && RawSum(files[n].chunks, longer) == files[n].size {
      B.RawSumExtend(files[n].chunks, chunks, longer);
    }
  }

  lemma ApplyUsable(c: Contents, x: SI.Index, indexOffset: nat, h: nat)
    requires Usable(c) && SI.WellFormed(x)
    ensures match Apply(c, x, indexOffset, h) case None => true case Some(c') => Usable(c')
  {
    if Apply(c, x, indexOffset, h).Some? {
      var chunks := c.chunks + Locations(x);
      SizedLocations(x);
      FilesInRange(x, chunks);
      FilesApplied(c, x, chunks);
    }
  }

  lemma FilesApplied(c: Contents, x: SI.Index, chunks: seq<ChunkLocation>)
    requires UsableFiles(c.files, c.chunks) && c.chunks <= chunks && forall i :: 0 <= i < |x.files| ==> InRange(x.files[i].chunks, chunks)
    ensures match ApplyFiles(c.files, x.files, chunks) case None => true case Some(m) => UsableFiles(m, chunks)
  {
    hide ApplyFiles, InRange, RawSum;
    MoreChunks(c.files, c.chunks, chunks);
    ApplyFilesUsable(c.files, x.files, chunks);
  }

  lemma SizedLocations(x: SI.Index)
    requires SI.WellFormed(x)
    ensures Sized(Locations(x))
  {
    forall i | 0 <= i < |x.chunks| ensures 0 < Locations(x)[i].stored && 0 < Locations(x)[i].raw {
      assert x.chunks[i] in x.chunks;
    }
  }

  lemma {:induction false} ApplyChainUsable(ls: seq<Link>, h: nat)
    requires AllWellFormed(ls)
    ensures match ApplyChain(ls, h) case None => true case Some(c) => Usable(c)
    decreases |ls|
  {
    hide Apply, SI.WellFormed;
    if ls != [] {
      ApplyChainUsable(Front(ls), h);
      if ApplyChain(Front(ls), h).Some? {
        ApplyUsable(ApplyChain(Front(ls), h).value, Last(ls).index, Last(ls).offset, h);
      }
    }
  }

  /** Whatever bytes a file holds, the state loaded from it, if any, is usable: no lookup
      made while restoring is out of range. */
  lemma LoadedIsUsable(d: Disk, h: nat)
    requires Load(d, h).Some?
    ensures Usable(Load(d, h).value.contents)
  {
    hide ApplyChain, Usable, ReadChain, ReadCheckpoint, Scan, Proper, SI.WellFormed;
    var cells := d.cells[..Proper(d.cells)];
    var checkpoint := ReadCheckpoint(cells, h);
    var found := if checkpoint.Some? then checkpoint else Scan(cells, h, None);
    ChainParsed(cells, h, found.value.lastIndex);
    ApplyChainUsable(ReadChain(cells, h, found.value.lastIndex).value, h);
  }

  /** A file whose newest session is older than the sealed count is refused: cutting sessions
      off is noticed. */
  lemma NoRollback(d: Disk, h: nat)
    ensures Load(d, h).Some? ==> Load(d, h).value.sessions >= d.count
  {
    hide ApplyChain, ReadChain, ReadCheckpoint, Scan, Proper;
  }

  predicate PacksInside(chunks: seq<ChunkLocation>, lo: nat, hi: nat)
  {
    forall i :: 0 <= i < |chunks| ==> lo <= chunks[i].packOffset < hi
  }

  lemma ApplyInside(c: Contents, x: SI.Index, off: nat, h: nat)
    requires SI.WellFormed(x) && PacksInside(c.chunks, h, off) && Apply(c, x, off, h).Some?
    ensures PacksInside(Apply(c, x, off, h).value.chunks, h, off)
  {
    hide ApplyFiles;
    var chunks := c.chunks + Locations(x);
    forall i | 0 <= i < |chunks| ensures h <= chunks[i].packOffset < off {
      if i >= |c.chunks| {
        var r := x.chunks[i - |c.chunks|];
        assert r in x.chunks;
        assert chunks[i] == Location(r, x.packs);
      }
    }
  }

  lemma {:induction false} ChainInside(ls: seq<Link>, h: nat)
    requires AllWellFormed(ls) && ApplyChain(ls, h).Some? && forall i, j :: 0 <= i < j < |ls| ==> ls[i].offset < ls[j].offset
    ensures ls == [] ==> ApplyChain(ls, h).value.chunks == []
    ensures ls != [] ==> PacksInside(ApplyChain(ls, h).value.chunks, h, Last(ls).offset)
    decreases |ls|
  {
    hide SI.WellFormed, Apply;
    if ls != [] {
      var front := Front(ls);
      ChainInside(front, h);
      ApplyInside(ApplyChain(front, h).value, Last(ls).index, Last(ls).offset, h);
    }
  }

  /** Whatever bytes a file holds, every chunk of a loaded state lies in a pack between the
      header and the newest index. */
  lemma LoadedPacksInside(d: Disk, h: nat)
    requires Load(d, h).Some?
    ensures var st := Load(d, h).value; PacksInside(st.contents.chunks, h, st.found.lastIndex)
  {
    hide ApplyChain, ReadChain, ReadCheckpoint, Scan, Proper, SI.WellFormed, PacksInside;
    var cells := d.cells[..Proper(d.cells)];
    var checkpoint := ReadCheckpoint(cells, h);
    var found := if checkpoint.Some? then checkpoint else Scan(cells, h, None);
    var ls := ReadChain(cells, h, found.value.lastIndex).value;
    ChainParsed(cells, h, found.value.lastIndex);
    ChainIsContiguous(cells, h, found.value.lastIndex);
    ChainInside(ls, h);
  }

  // ---- extractIncremental ----

  predicate IsRegular(f: SI.FileVersion) { f.attributes.kind == A.KIND_REGULAR }

  /** Chunks of the regular files whose temporary file could be created. */
  function NeededBy(files: map<bytes, SI.FileVersion>, faults: Faults): set<nat>
  {
    set n, p | n in files && IsRegular(files[n]) && !faults.create(n) && 0 <= p < |files[n].chunks| :: files[n].chunks[p]
  }

  function SpecialOrder(kind: byte): nat
  {
    if kind == A.KIND_DIRECTORY then 0 else if kind == A.KIND_HARDLINK then 1 else 2
  }

  predicate ListOf(regular: seq<SI.FileVersion>, files: map<bytes, SI.FileVersion>)
  {
    && DistinctNames(regular)
    && (forall i :: 0 <= i < |regular| ==> regular[i].name in files && files[regular[i].name] == regular[i] && IsRegular(regular[i]))
    && (forall n :: n in files && IsRegular(files[n]) ==> exists i :: 0 <= i < |regular| && regular[i].name == n)
  }

  /** Regular files, and the rest with directories first, then hard links, then symlinks. */
  method SplitKinds(files: map<bytes, SI.FileVersion>) returns (regular: seq<SI.FileVersion>, special: seq<SI.FileVersion>)
    requires forall n :: n in files ==> files[n].name == n
    ensures ListOf(regular, files)
    ensures forall f :: f in special <==> f.name in files && files[f.name] == f && !IsRegular(f)
    ensures forall i, j :: 0 <= i < j < |special| ==> SpecialOrder(special[i].attributes.kind) <= SpecialOrder(special[j].attributes.kind)
  {
    regular, special := [], [];
    var todo := files.Keys;
    while todo != {}
      invariant todo <= files.Keys
      invariant forall i :: 0 <= i < |regular| ==> regular[i].name in files && regular[i].name !in todo && files[regular[i].name] == regular[i] && IsRegular(regular[i])
      invariant DistinctNames(regular)
      invariant forall n :: n in files && n !in todo && IsRegular(files[n]) ==> exists i :: 0 <= i < |regular| && regular[i].name == n
      invariant forall f :: f in special <==> f.name in files && f.name !in todo && files[f.name] == f && !IsRegular(f)
      invariant forall i, j :: 0 <= i < j < |special| ==> SpecialOrder(special[i].attributes.kind) <= SpecialOrder(special[j].attributes.kind)
      decreases todo
    {
      var n :| n in todo;
      todo := todo - {n};
      var f := files[n];
      if IsRegular(f) {
        ghost var before := regular;
        regular := regular + [f];
        assert regular[|before|].name == n;
        assert forall i :: 0 <= i < |before| ==> regular[i] == before[i];
      } else {
        special := InsertSpecial(special, f);
      }
    }
  }

  method InsertSpecial(special: seq<SI.FileVersion>, f: SI.FileVersion) returns (r: seq<SI.FileVersion>)
    requires forall i, j :: 0 <= i < j < |special| ==> SpecialOrder(special[i].attributes.kind) <= SpecialOrder(special[j].attributes.kind)
    ensures forall g :: g in r <==> g in special || g == f
    ensures forall i, j :: 0 <= i < j < |r| ==> SpecialOrder(r[i].attributes.kind) <= SpecialOrder(r[j].attributes.kind)
  {
    hide SpecialOrder;
    var order := SpecialOrder(f.attributes.kind);
    var at := 0;
    while at < |special| && SpecialOrder(special[at].attributes.kind) <= order
      invariant 0 <= at <= |special| && forall i :: 0 <= i < at ==> SpecialOrder(special[i].attributes.kind) <= order
    {
      at := at + 1;
    }
    r := special[..at] + [f] + special[at..];
    Inserted(special, at, f);
  }

  lemma Inserted(special: seq<SI.FileVersion>, at: nat, f: SI.FileVersion)
    requires at <= |special|
    ensures forall g :: g in special[..at] + [f] + special[at..] <==> g in special || g == f
  {
    assert special == special[..at] + special[at..];
  }

  /** The outcome of a restore: a regular file appears under its name exactly when nothing
      went wrong for it, and then holds its verified chunks in order. */
  ghost predicate RestoredFiles(job: Job, files: map<bytes, SI.FileVersion>, published: map<bytes, bytes>)
  {
    && (forall n :: n in published <==> n in files && IsRegular(files[n]) && Restorable(job, NeededBy(files, job.faults), files[n]))
    && (forall n :: n in published ==> AllVerified(job, files[n].chunks) && published[n] == Content(job, files[n].chunks))
  }

  /** extractIncremental, after loading. */
  method ExtractFiles(c: Contents, job: Job) returns (published: map<bytes, bytes>, special: seq<SI.FileVersion>)
    requires Usable(c) && job.chunks == c.chunks
    ensures RestoredFiles(job, c.files, published)
    ensures forall n :: n in published ==> |published[n]| == c.files[n].size
    ensures forall f :: f in special <==> f.name in c.files && c.files[f.name] == f && !IsRegular(f)
    ensures forall i, j :: 0 <= i < j < |special| ==> SpecialOrder(special[i].attributes.kind) <= SpecialOrder(special[j].attributes.kind)
    ensures forall i, j :: 0 <= i < j < |special| && special[j].attributes.kind == A.KIND_DIRECTORY ==> special[i].attributes.kind == A.KIND_DIRECTORY
    ensures forall i, j :: 0 <= i < j < |special| && special[j].attributes.kind == A.KIND_HARDLINK ==> special[i].attributes.kind in {A.KIND_DIRECTORY, A.KIND_HARDLINK}
  {
    hide Restorable, Content, AllVerified;
    var regular;
    regular, special := SplitKinds(c.files);
    var r := new Restorer(job, regular);
    r.RestorePacks();
    r.AllSettled();
    published := r.PublishRestores();
    Outcome(job, c.files, regular, r, published);
    forall n | n in published ensures |published[n]| == c.files[n].size {
      ContentSize(job, c.files[n].chunks);
    }
  }

  lemma SameNeeds(job: Job, files: map<bytes, SI.FileVersion>, regular: seq<SI.FileVersion>)
    requires ListOf(regular, files) && forall n :: n in files ==> files[n].name == n
    ensures Needed(job, regular) == NeededBy(files, job.faults)
  {
    forall x | x in NeededBy(files, job.faults) ensures x in Needed(job, regular) {
      var n, p :| n in files && IsRegular(files[n]) && !job.faults.create(n) && 0 <= p < |files[n].chunks| && files[n].chunks[p] == x;
      var i :| 0 <= i < |regular| && regular[i].name == n;
      assert regular[i].chunks[p] == x;
    }
    forall x | x in Needed(job, regular) ensures x in NeededBy(files, job.faults) {
      var f, p :| 0 <= f < |regular| && 0 <= p < |regular[f].chunks| && !job.faults.create(regular[f].name) && regular[f].chunks[p] == x;
      assert files[regular[f].name].chunks[p] == x;
    }
  }

  lemma Outcome(job: Job, files: map<bytes, SI.FileVersion>, regular: seq<SI.FileVersion>, r: Restorer, published: map<bytes, bytes>)
    requires ListOf(regular, files) && forall n :: n in files ==> files[n].name == n
    requires r.job == job && r.files == regular && r.Published(published, |regular|)
    ensures RestoredFiles(job, files, published)
  {
    hide Restorable, Content, AllVerified, Needed, NeededBy;
    SameNeeds(job, files, regular);
    forall n | n in published
      ensures n in files && IsRegular(files[n]) && Restorable(job, NeededBy(files, job.faults), files[n])
      ensures AllVerified(job, files[n].chunks) && published[n] == Content(job, files[n].chunks)
    {
      var i :| 0 <= i < |regular| && regular[i].name == n;
    }
    forall n | n in files && IsRegular(files[n]) && Restorable(job, NeededBy(files, job.faults), files[n]) ensures n in published {
      var i :| 0 <= i < |regular| && regular[i].name == n;
    }
  }

  lemma {:induction false} ContentSize(job: Job, ns: seq<u64>)
    requires InRange(ns, job.chunks) && AllVerified(job, ns)
    ensures |Content(job, ns)| == RawSum(ns, job.chunks)
    decreases |ns|
  {
    hide Chunk;
    if ns != [] {
      ContentSize(job, ns[1..]);
    }
  }

  // ---- What is published is what was recorded ----

  /** Nothing but a chunk that occurs carries the keyed ID of a recorded chunk. */
  ghost predicate Unforgeable(env: Env, chunks: seq<ChunkLocation>)
  {
    forall x, i :: 0 <= i < |chunks| && env.id(x) == chunks[i].id ==> env.occurs(x)
  }

  lemma VerifiedChunk(job: Job, packs: Packs, n: nat)
    requires Sound(job.env) && Unforgeable(job.env, job.chunks) && GoodChunks(packs, job.chunks, job.env)
    requires n < |job.chunks| && Chunk(job, n).Some?
    ensures Chunk(job, n).value == RawOf(packs, job.chunks[n], job.env)
  {
    hide Chunk, Decode;
    var x, loc := Chunk(job, n).value, job.chunks[n];
    assert GoodChunk(packs, loc, job.env);
    assert job.env.id(x) == loc.id == job.env.id(RawOf(packs, loc, job.env));
    assert job.env.occurs(x);
  }

  lemma {:induction false} VerifiedContent(job: Job, packs: Packs, ns: seq<u64>)
    requires Sound(job.env) && Unforgeable(job.env, job.chunks) && GoodChunks(packs, job.chunks, job.env)
    requires InRange(ns, job.chunks) && AllVerified(job, ns)
    ensures Content(job, ns) == FileBytes(packs, job.chunks, ns, job.env)
    decreases |ns|
  {
    hide Chunk, GoodChunks, Sound, Unforgeable, RawOf;
    if ns != [] {
      VerifiedChunk(job, packs, ns[0]);
      VerifiedContent(job, packs, ns[1..]);
    }
  }

  /** Whatever the packs on disk now hold and whatever fails on the way, every file that is
      published has exactly the content recorded for it. */
  lemma PublishedIsRecorded(job: Job, packs: Packs, c: Contents, snap: Snapshot, published: map<bytes, bytes>)
    requires Sound(job.env) && Unforgeable(job.env, job.chunks) && job.chunks == c.chunks
    requires Represents(packs, c, snap, job.env) && RestoredFiles(job, c.files, published)
    ensures forall n :: n in published ==> n in snap && published[n] == snap[n].content
  {
    hide Sound, Unforgeable, GoodChunks, Restorable, AllVerified, FileBytes, Content;
    forall n | n in published ensures n in snap && published[n] == snap[n].content {
      assert Restores(packs, c.chunks, c.files[n], snap[n], job.env);
      VerifiedContent(job, packs, c.files[n].chunks);
    }
  }

  // ---- An undamaged archive restores completely ----

  predicate Undamaged(job: Job, packs: Packs)
  {
    forall p :: p in packs ==> job.read(p).verified && Flatten(job.read(p).slices) == packs[p]
  }

  lemma ReadsGoodChunk(job: Job, packs: Packs, n: nat)
    requires Undamaged(job, packs) && n < |job.chunks| && GoodChunk(packs, job.chunks[n], job.env)
    ensures Chunk(job, n) == Some(RawOf(packs, job.chunks[n], job.env)) && job.read(job.chunks[n].packOffset).verified
  {
  }

  lemma PacksAreGood(job: Job, packs: Packs, needed: set<nat>, n: nat)
    requires Undamaged(job, packs) && GoodChunks(packs, job.chunks, job.env) && n < |job.chunks|
    ensures PackGood(job, needed, job.chunks[n].packOffset)
  {
    hide Undamaged, Chunk, GoodChunk;
    ReadsGoodChunk(job, packs, n);
    var p := job.chunks[n].packOffset;
    forall m | m in needed && InPack(job, m, p) ensures Chunk(job, m).Some? {
      ReadsGoodChunk(job, packs, m);
    }
    forall a, b | a in needed && b in needed && a != b && InPack(job, a, p) && InPack(job, b, p)
      ensures Disjoint(job.chunks[a], job.chunks[b])
    {
      assert if a < b then Apart(job.chunks[a], job.chunks[b]) else Apart(job.chunks[b], job.chunks[a]);
    }
  }

  ghost predicate NoFaults(faults: Faults)
  {
    (forall n :: !faults.create(n)) && (forall n :: !faults.publish(n)) && (forall n, p :: !faults.write(n, p))
  }

  function RegularContents(snap: Snapshot): map<bytes, bytes>
  {
    map n | n in snap && snap[n].attributes.kind == A.KIND_REGULAR :: snap[n].content
  }

  lemma {:induction false} ReadsContent(job: Job, packs: Packs, ns: seq<u64>)
    requires Undamaged(job, packs) && GoodChunks(packs, job.chunks, job.env) && InRange(ns, job.chunks)
    ensures AllVerified(job, ns) && Content(job, ns) == FileBytes(packs, job.chunks, ns, job.env)
    decreases |ns|
  {
    hide Chunk, GoodChunk, RawOf, Undamaged;
    forall p | 0 <= p < |ns| ensures Chunk(job, ns[p]).Some? {
      ReadsGoodChunk(job, packs, ns[p]);
    }
    if ns != [] {
      ReadsGoodChunk(job, packs, ns[0]);
      ReadsContent(job, packs, ns[1..]);
    }
  }

  /** An undamaged archive, restored without file system failures, gives back exactly the
      recorded regular files. */
  lemma UndamagedRestoresAll(job: Job, packs: Packs, c: Contents, snap: Snapshot, published: map<bytes, bytes>)
    requires job.chunks == c.chunks && Represents(packs, c, snap, job.env)
    requires Undamaged(job, packs) && NoFaults(job.faults) && RestoredFiles(job, c.files, published)
    ensures published == RegularContents(snap)
  {
    hide GoodChunks, AllVerified, FileBytes, Content, PackGood, Undamaged;
    forall n | n in snap ensures Restorable(job, NeededBy(c.files, job.faults), c.files[n]) {
      assert Restores(packs, c.chunks, c.files[n], snap[n], job.env);
      forall p | 0 <= p < |c.files[n].chunks|
        ensures !job.faults.write(c.files[n].name, p) && PackGood(job, NeededBy(c.files, job.faults), job.chunks[c.files[n].chunks[p]].packOffset)
      {
        PacksAreGood(job, packs, NeededBy(c.files, job.faults), c.files[n].chunks[p]);
      }
    }
    forall n | n in published ensures n in snap && published[n] == snap[n].content {
      assert Restores(packs, c.chunks, c.files[n], snap[n], job.env);
      ReadsContent(job, packs, c.files[n].chunks);
    }
  }

  // ---- From the file to the restored tree ----

  /** A pack entry as streamDataBlocks hands it on: `slicing` cuts its plaintext into blocks. */
  function ReadPack(cells: seq<Cell>, p: nat, slicing: bytes -> seq<bytes>): PackRead
  {
    match ReadAt(cells, p)
    case Some(Pack(payload, _)) => PackRead(slicing(payload), true)
    case _ => PackRead([], false)
  }

  ghost predicate Rejoins(slicing: bytes -> seq<bytes>) { forall x :: Flatten(slicing(x)) == x }

  function JobFor(cells: seq<Cell>, c: Contents, slicing: bytes -> seq<bytes>, faults: Faults, env: Env): Job
  {
    Job(c.chunks, (p: nat) => ReadPack(cells, p, slicing), faults, env)
  }

  /** Loads an archive file and restores its newest state. */
  method ExtractIncremental(d: Disk, h: nat, slicing: bytes -> seq<bytes>, faults: Faults, env: Env)
    returns (published: Option<map<bytes, bytes>>)
    ensures published.Some? <==> Load(d, h).Some?
    ensures published.Some? ==> var c := Load(d, h).value.contents;
              RestoredFiles(JobFor(d.cells[..Proper(d.cells)], c, slicing, faults, env), c.files, published.value)
  {
    hide Load, RestoredFiles, Proper, Usable;
    var st := L.LoadIncremental(d, h);
    if st.None? {
      return None;
    }
    LoadedIsUsable(d, h);
    var c := st.value.contents;
    var files, _ := ExtractFiles(c, JobFor(d.cells[..Proper(d.cells)], c, slicing, faults, env));
    return Some(files);
  }

  lemma LogPacksUndamaged(h: Pos, log: seq<Session>, cells: seq<Cell>, c: Contents, slicing: bytes -> seq<bytes>, faults: Faults, env: Env)
    requires ValidLog(h, log) && LogCells(h, log) <= cells && Rejoins(slicing)
    ensures Undamaged(JobFor(cells, c, slicing, faults, env), PacksOf(h, log))
  {
    hide ReadAt, LogCells, ValidLog, PacksOf, Flatten;
    forall p | p in PacksOf(h, log)
      ensures ReadPack(cells, p, slicing).verified && Flatten(ReadPack(cells, p, slicing).slices) == PacksOf(h, log)[p]
    {
      PackReads(h, log, p);
      ReadAtPrefix(LogCells(h, log), cells, p);
    }
  }

  /** A backup archive extracts to the regular files of its snapshot, to the byte. */
  method ExtractBackup(a: B.Archive, slicing: bytes -> seq<bytes>, faults: Faults) returns (published: map<bytes, bytes>)
    requires a.Valid() && Rejoins(slicing) && NoFaults(faults)
    ensures published == RegularContents(a.snap)
  {
    hide Load, RestoredFiles, Proper, Represents, CS.Safe, PacksOf, Replay, Undamaged, NoFaults, Sound, Rejoins, JobFor;
    var files := ExtractIncremental(a.disk, a.h, slicing, faults, a.env);
    LoadsLog(a);
    ghost var cells := a.disk.cells[..Proper(a.disk.cells)];
    ghost var c := Replay(a.h, a.log).value;
    LogPacksUndamaged(a.h, a.log, cells, c, slicing, faults, a.env);
    JobFields(cells, c, slicing, faults, a.env);
    UndamagedRestoresAll(JobFor(cells, c, slicing, faults, a.env), PacksOf(a.h, a.log), c, a.snap, files.value);
    return files.value;
  }

  /** With packs damaged in any way and any file system failures, what an extraction does
      publish is still what was recorded. */
  method ExtractDamaged(a: B.Archive, packs: nat -> PackRead, faults: Faults) returns (published: map<bytes, bytes>)
    requires a.Valid() && Unforgeable(a.env, Replay(a.h, a.log).value.chunks)
    ensures forall n :: n in published ==> n in RegularContents(a.snap) && published[n] == a.snap[n].content
  {
    hide Load, Proper, Represents, CS.Safe, PacksOf, Replay, Usable, Sound, Unforgeable, Restorable, AllVerified, Content;
    LoadsLog(a);
    var st := L.LoadIncremental(a.disk, a.h);
    LoadedIsUsable(a.disk, a.h);
    var c := st.value.contents;
    var job := Job(c.chunks, packs, faults, a.env);
    var files, _ := ExtractFiles(c, job);
    published := files;
    PublishedIsRecorded(job, PacksOf(a.h, a.log), c, a.snap, published);
    KindsAgree(PacksOf(a.h, a.log), c, a.snap, a.env);
  }

  lemma KindsAgree(packs: Packs, c: Contents, snap: Snapshot, env: Env)
    requires Represents(packs, c, snap, env)
    ensures forall n :: n in snap ==> n in c.files && (IsRegular(c.files[n]) <==> n in RegularContents(snap))
  {
    hide GoodChunks, FileBytes;
    forall n | n in snap ensures n in c.files && (IsRegular(c.files[n]) <==> n in RegularContents(snap)) {
      assert Restores(packs, c.chunks, c.files[n], snap[n], env);
    }
  }

  lemma JobFields(cells: seq<Cell>, c: Contents, slicing: bytes -> seq<bytes>, faults: Faults, env: Env)
    ensures var job := JobFor(cells, c, slicing, faults, env); job.chunks == c.chunks && job.faults == faults && job.env == env
  {
  }

  lemma LoadsLog(a: B.Archive)
    requires a.Valid()
    ensures Load(a.disk, a.h).Some? && ValidLog(a.h, a.log) && Replay(a.h, a.log) == Some(Load(a.disk, a.h).value.contents)
    ensures LogCells(a.h, a.log) <= a.disk.cells[..Proper(a.disk.cells)]
    ensures Represents(PacksOf(a.h, a.log), Replay(a.h, a.log).value, a.snap, a.env) && Sound(a.env)
  {
    hide Load, Proper, Represents, PacksOf, Sound, ReadCheckpoint, Scan, LogCells, CS.Guarded, Replay;
    CS.SafeLoads(a.disk, a.h, a.log);
  }

  /** Create an archive, run any sequence of completed, failed and interrupted updates, then
      extract: out comes the snapshot the history promises. Every file holds what some run read
      under that name; and if size and attributes tell contents apart, then after a last run that
      did not fail every file it could read comes back as it was then. */
  method BackupThenExtract(h: Pos, env: Env, first: S.Run, sign: Option<SignatureSize>, events: seq<B.Event>, time: i64, slicing: bytes -> seq<bytes>, faults: Faults)
    returns (published: Option<map<bytes, bytes>>, results: seq<B.Result>)
    requires Sound(env) && S.ValidRun(first, env) && Rejoins(slicing) && NoFaults(faults)
    requires forall i :: 0 <= i < |events| ==> S.ValidRun(events[i].run, env)
    ensures published.Some? ==>
              && |results| == |events|
              && exists snap :: B.Outcome(first, events, results, snap) && published.value == RegularContents(snap)
    ensures published.Some? ==> forall n :: n in published.value ==>
              exists i :: i in P.AllInputs(first, events) && i.name == n && S.Readable(i) && published.value[n] == S.DataOf(i)
    ensures published.Some? && events == [] ==> GivesBack(first, published.value)
    ensures published.Some? && events != [] && Last(events).Finished? && Last(results) != B.Failed && P.Telling(P.AllInputs(first, events)) ==>
              GivesBack(Last(events).run, published.value)
  {
    hide Rejoins, NoFaults, RegularContents, B.Leads, B.Outcome, P.Telling, S.ValidRun, GivesBack;
    var a, ended := B.History(h, env, first, sign, events, time);
    if a == null {
      return None, [];
    }
    var files := ExtractBackup(a, slicing, faults);
    ContentsFrom(first, events, ended, a.snap);
    if events == [] {
      FirstGivenBack(first, a.snap, env);
    } else if Last(events).Finished? && Last(ended) != B.Failed && P.Telling(P.AllInputs(first, events)) {
      LastGivenBack(first, events, ended, a.snap, env);
    }
    return Some(files), ended;
  }

  /** Every regular file the run could read is there, with exactly its bytes. */
  predicate GivesBack(run: S.Run, published: map<bytes, bytes>)
  {
    forall i :: i in run.inputs && i.source.Regular? && i.source.stat.Some? && i.source.opens && !i.source.broken ==>
      i.name in published && published[i.name] == i.source.data
  }

  lemma ContentsFrom(first: S.Run, events: seq<B.Event>, results: seq<B.Result>, end: Snapshot)
    requires |events| == |results| && B.Outcome(first, events, results, end)
    ensures var published := RegularContents(end);
            forall n :: n in published ==>
              exists i :: i in P.AllInputs(first, events) && i.name == n && S.Readable(i) && published[n] == S.DataOf(i)
  {
    hide B.Outcome, P.AllInputs;
    P.HistoryFrom(first, events, results, end);
    var published := RegularContents(end);
    forall n | n in published
      ensures exists i :: i in P.AllInputs(first, events) && i.name == n && S.Readable(i) && published[n] == S.DataOf(i)
    {
      assert P.From(P.AllInputs(first, events), n, end[n]);
    }
  }

  lemma FirstGivenBack(first: S.Run, end: Snapshot, env: Env)
    requires B.Outcome(first, [], [], end) && S.ValidRun(first, env)
    ensures GivesBack(first, RegularContents(end))
  {
    hide B.Outcome;
    forall i | i in first.inputs && i.source.Regular? && S.Readable(i)
      ensures i.name in RegularContents(end) && RegularContents(end)[i.name] == i.source.data
    {
      P.FirstRunIsThere(first, end, i);
      RegularKind(first, i, env);
    }
  }

  lemma LastGivenBack(first: S.Run, events: seq<B.Event>, results: seq<B.Result>, end: Snapshot, env: Env)
    requires |events| == |results| && B.Outcome(first, events, results, end) && events != []
    requires Last(events).Finished? && Last(results) != B.Failed && P.Telling(P.AllInputs(first, events))
    requires S.ValidRun(Last(events).run, env)
    ensures GivesBack(Last(events).run, RegularContents(end))
  {
    hide B.Outcome, P.Telling, P.AllInputs;
    var run := Last(events).run;
    forall i | i in run.inputs && i.source.Regular? && S.Readable(i)
      ensures i.name in RegularContents(end) && RegularContents(end)[i.name] == i.source.data
    {
      P.LastRunIsThere(first, events, results, end, i);
      RegularKind(run, i, env);
    }
  }

  lemma RegularKind(run: S.Run, i: S.Input, env: Env)
    requires S.ValidRun(run, env) && i in run.inputs && i.source.Regular?
    ensures i.attributes.kind == A.KIND_REGULAR
  {
    var k :| 0 <= k < |run.inputs| && run.inputs[k] == i;
    assert S.ValidInput(run.inputs[k], env);
  }
}
