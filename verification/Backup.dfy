/** Backup runs over an incremental archive: createIncremental, updateIncremental,
    appendSession, writeSession and repairTail (io/incremental_write.go). */
module Backup {
  import opened Bytes
  import opened Format
  import opened Varint
  import opened ArchiveFile
  import opened LogReading
  import opened ChunkStore
  import opened Snapshots
  import opened CrashSafety
  import opened Undo
  import SW = SessionWriter
  import SI = SessionIndex

  // ---- Recording files keeps archive and snapshot in step ----

  lemma RepresentsExtend(packs: Packs, more: Packs, chunks: seq<ChunkLocation>, longer: seq<ChunkLocation>,
                         files: map<bytes, SI.FileVersion>, snap: Snapshot, env: Env)
    requires Represents(packs, Contents(chunks, files), snap, env) && GoodChunks(more, longer, env)
    requires Extends(packs, more) && chunks <= longer
    ensures Represents(more, Contents(longer, files), snap, env)
  {
    hide GoodChunks, Extends, Restores;
    forall n | n in snap ensures Restores(more, longer, files[n], snap[n], env) {
      RestoresExtend(packs, more, chunks, longer, files[n], snap[n], env);
    }
  }

  lemma RepresentsUpdate(packs: Packs, chunks: seq<ChunkLocation>, files: map<bytes, SI.FileVersion>, snap: Snapshot,
                         f: SI.FileVersion, r: Recorded, env: Env)
    requires Represents(packs, Contents(chunks, files), snap, env) && Restores(packs, chunks, f, r, env)
    ensures Represents(packs, Contents(chunks, files[f.name := f]), snap[f.name := r], env)
  {
    hide GoodChunks, Restores;
  }

  lemma RepresentsRemove(packs: Packs, chunks: seq<ChunkLocation>, files: map<bytes, SI.FileVersion>, snap: Snapshot, names: set<bytes>, env: Env)
    requires Represents(packs, Contents(chunks, files), snap, env)
    ensures Represents(packs, Contents(chunks, files - names), snap - names, env)
  {
    hide GoodChunks, Restores;
  }

  predicate AllInRange(fs: seq<SI.FileVersion>, chunks: seq<ChunkLocation>)
  {
    forall i :: 0 <= i < |fs| ==> InRange(fs[i].chunks, chunks)
  }

  lemma {:induction false} ApplyFilesSnoc(files: map<bytes, SI.FileVersion>, fs: seq<SI.FileVersion>, f: SI.FileVersion, chunks: seq<ChunkLocation>)
    requires AllInRange(fs, chunks) && InRange(f.chunks, chunks)
    requires ApplyFiles(files, fs, chunks).Some? && RawSum(f.chunks, chunks) == f.size
    ensures AllInRange(fs + [f], chunks)
    ensures ApplyFiles(files, fs + [f], chunks) == Some(ApplyFiles(files, fs, chunks).value[f.name := f])
    decreases |fs|
  {
    hide RawSum, InRange;
    if fs == [] {
      assert (fs + [f])[1..] == [];
    } else {
      ApplyFilesSnoc(files[fs[0].name := fs[0]], fs[1..], f, chunks);
      assert (fs + [f])[1..] == fs[1..] + [f];
    }
  }

  lemma {:induction false} RawSumExtend(ns: seq<u64>, chunks: seq<ChunkLocation>, longer: seq<ChunkLocation>)
    requires InRange(ns, chunks) && chunks <= longer
    ensures InRange(ns, longer) && RawSum(ns, longer) == RawSum(ns, chunks)
    decreases |ns|
  {
    if ns == [] {
    } else {
      RawSumExtend(ns[1..], chunks, longer);
    }
  }

  lemma {:induction false} ApplyFilesExtend(files: map<bytes, SI.FileVersion>, fs: seq<SI.FileVersion>, chunks: seq<ChunkLocation>, longer: seq<ChunkLocation>)
    requires AllInRange(fs, chunks) && chunks <= longer
    ensures AllInRange(fs, longer) && ApplyFiles(files, fs, longer) == ApplyFiles(files, fs, chunks)
    decreases |fs|
  {
    hide RawSum;
    if fs == [] {
    } else {
      RawSumExtend(fs[0].chunks, chunks, longer);
      ApplyFilesExtend(files[fs[0].name := fs[0]], fs[1..], chunks, longer);
    }
  }

  /** Files recorded so far apply to `prev` and represent `cur`. */
  ghost predicate InStep(sw: SW.SessionWriter, prev: map<bytes, SI.FileVersion>, fs: seq<SI.FileVersion>, cur: Snapshot)
    reads sw
  {
    && sw.Valid() && AllInRange(fs, sw.chunks)
    && var m := ApplyFiles(prev, fs, sw.chunks);
       m.Some? && Represents(sw.packs, Contents(sw.chunks, m.value), cur, sw.env)
  }

  /** One file more. */
  lemma StepForward(sw: SW.SessionWriter, prev: map<bytes, SI.FileVersion>, fs: seq<SI.FileVersion>, cur: Snapshot,
                    packs: Packs, chunks: seq<ChunkLocation>, f: SI.FileVersion, r: Recorded)
    requires sw.Valid() && Extends(packs, sw.packs) && chunks <= sw.chunks
    requires AllInRange(fs, chunks) && ApplyFiles(prev, fs, chunks).Some?
    requires Represents(packs, Contents(chunks, ApplyFiles(prev, fs, chunks).value), cur, sw.env)
    ensures InStep(sw, prev, fs, cur)
    ensures Restores(sw.packs, sw.chunks, f, r, sw.env) ==> InStep(sw, prev, fs + [f], cur[f.name := r])
  {
    hide GoodChunks, Extends, ApplyFiles, RawSum, Represents, FileBytes, SW.SessionWriter.Layout, SW.SessionWriter.Recording, SW.SessionWriter.Indexed, Sound, InRange;
    var m := ApplyFiles(prev, fs, chunks).value;
    ApplyFilesExtend(prev, fs, chunks, sw.chunks);
    RepresentsExtend(packs, sw.packs, chunks, sw.chunks, m, cur, sw.env);
    if Restores(sw.packs, sw.chunks, f, r, sw.env) {
      RawSumIsLength(sw.packs, sw.chunks, f.chunks, sw.env);
      ApplyFilesSnoc(prev, fs, f, sw.chunks);
      RepresentsUpdate(sw.packs, sw.chunks, m, cur, f, r, sw.env);
    }
  }

  datatype Recording = Recording(ok: bool, files: seq<SI.FileVersion>)

  /** Adds one changed input: Version when it was recorded, Unreadable when it is skipped. */
  method RecordOne(sw: SW.SessionWriter, i: Input) returns (outcome: SW.FileOutcome)
    requires sw.Valid() && ValidInput(i, sw.env)
    modifies sw
    ensures outcome != SW.Fatal ==> sw.Valid() && Extends(old(sw.packs), sw.packs) && old(sw.chunks) <= sw.chunks
    ensures outcome != SW.Fatal ==> (outcome.Version? <==> Yield(i).Some?)
    ensures outcome.Version? ==> outcome.file.name == i.name && Restores(sw.packs, sw.chunks, outcome.file, Yield(i).value, sw.env)
  {
    hide SW.SessionWriter.Layout, SW.SessionWriter.Recording, SW.SessionWriter.Indexed, GoodChunks, Sound;
    match i.source
    case Special =>
      SW.NoBytes(sw.packs, sw.chunks, sw.env);
      outcome := SW.Version(SI.FileVersion(i.name, i.attributes, 0, []));
    case Regular(stat, data, opens, broken, zstd) =>
      if stat.None? || !opens {
        return SW.Unreadable;
      }
      outcome := sw.AddFile(i.name, i.attributes, data, broken, zstd);
  }

  /** writeSession's loop over the changed files. */
  method RecordChanged(sw: SW.SessionWriter, changed: seq<Input>, ghost prev: map<bytes, SI.FileVersion>, ghost snap: Snapshot)
    returns (res: Recording)
    requires InStep(sw, prev, [], snap) && forall i :: i in changed ==> ValidInput(i, sw.env)
    modifies sw
    ensures res.ok ==> InStep(sw, prev, res.files, RecordAll(snap, changed))
    ensures res.ok && res.files == [] ==> forall i :: i in changed ==> Yield(i).None?
  {
    hide SW.SessionWriter.Valid, ApplyFiles, Represents, InRange, ValidInput, Restores, Yield, Extends, RawSum;
    var files: seq<SI.FileVersion> := [];
    ghost var cur := snap;
    assert changed[0..] == changed;
    for k := 0 to |changed|
      invariant InStep(sw, prev, files, cur)
      invariant RecordAll(cur, changed[k..]) == RecordAll(snap, changed)
      invariant files == [] ==> forall i :: i in changed[..k] ==> Yield(i).None?
    {
      var i := changed[k];
      assert changed[k..][0] == i && changed[k..][1..] == changed[k + 1..];
      assert changed[..k + 1] == changed[..k] + [i];
      ghost var packs, chunks := sw.packs, sw.chunks;
      assert i in changed;
      var outcome := RecordOne(sw, i);
      match outcome
      case Fatal => return Recording(false, []);
      case Unreadable =>
        StepForward(sw, prev, files, cur, packs, chunks, SI.FileVersion([], i.attributes, 0, []), Recorded(i.attributes, []));
      case Version(f) =>
        StepForward(sw, prev, files, cur, packs, chunks, f, Yield(i).value);
        files := files + [f];
        cur := cur[i.name := Yield(i).value];
    }
    assert changed[..|changed|] == changed && changed[|changed|..] == [];
    return Recording(true, files);
  }

  // ---- A finished session extends the log ----

  /** The writer `sw` was opened on `log`, whose files are `prev`. */
  ghost predicate OpenedOn(sw: SW.SessionWriter, h: Pos, log: seq<Session>, prev: map<bytes, SI.FileVersion>)
    reads sw
  {
    && ValidLog(h, log) && sw.base == |LogCells(h, log)| && sw.packs0 == PacksOf(h, log)
    && Replay(h, log) == Some(Contents(sw.chunks0, prev))
  }

  function PrevIndex(h: Pos, log: seq<Session>): nat { if log == [] then 0 else IndexOffset(h, log) }

  ghost predicate IndexFor(x: SI.Index, sw: SW.SessionWriter, h: Pos, log: seq<Session>, fs: seq<SI.FileVersion>, deleted: seq<bytes>)
    reads sw
  {
    && x.session == |log| + 1 && x.prevIndex == PrevIndex(h, log) && x.firstChunk == |sw.chunks0|
    && x.packs == sw.packOffsets && x.chunks == sw.records && x.files == fs && x.deleted == deleted
  }

  /** Every index the writer emits passes the parser's checks. */
  lemma EmittedIsWellFormed(x: SI.Index, sw: SW.SessionWriter, h: Pos, log: seq<Session>, fs: seq<SI.FileVersion>, deleted: seq<bytes>)
    requires sw.Valid() && IndexFor(x, sw, h, log, fs, deleted) && AllInRange(fs, sw.chunks)
    ensures SI.WellFormed(x)
    ensures Locations(x) == sw.chunks[|sw.chunks0|..]
  {
    hide GoodChunks, Sound, SW.SessionWriter.Layout, SW.SessionWriter.Indexed, SI.ValidChunk;
    forall c | c in x.chunks ensures SI.ValidChunk(c, |x.packs|) {
      var i :| 0 <= i < |sw.records| && sw.records[i] == c;
    }
    assert SI.ChunkLimit(x) == |sw.chunks|;
    forall f | f in x.files ensures SI.ChunksBelow(f.chunks, SI.ChunkLimit(x)) {
      var i :| 0 <= i < |fs| && fs[i] == f;
      assert InRange(fs[i].chunks, sw.chunks);
    }
    assert SI.WellFormed(x);
    var tail := sw.chunks[|sw.chunks0|..];
    forall i | 0 <= i < |x.chunks| ensures Locations(x)[i] == tail[i] {
      assert tail[i] == sw.chunks[|sw.chunks0| + i];
    }
  }

  /** ... and apply's: the loader reconstructs exactly the writer's chunks and files. */
  lemma EmittedApplies(x: SI.Index, sw: SW.SessionWriter, h: Pos, log: seq<Session>, prev: map<bytes, SI.FileVersion>,
                       fs: seq<SI.FileVersion>, deleted: seq<bytes>, cur: Snapshot)
    requires OpenedOn(sw, h, log, prev) && InStep(sw, prev, fs, cur) && !sw.open
    requires IndexFor(x, sw, h, log, fs, deleted)
    ensures SI.WellFormed(x)
    ensures Apply(Contents(sw.chunks0, prev), x, sw.offset, h) ==
            Some(Contents(sw.chunks, ApplyFiles(prev, fs, sw.chunks).value - ToSet(deleted)))
  {
    hide GoodChunks, Sound, SI.WellFormed, SW.SessionWriter.Indexed, ApplyFiles, LogCells, ValidLog, Replay, PacksOf, EncodeAll, Place, Represents, SI.ValidChunk;
    EmittedIsWellFormed(x, sw, h, log, fs, deleted);
    assert sw.chunks0 + Locations(x) == sw.chunks;
    assert forall i :: 0 <= i < |x.packs| ==> h <= x.packs[i] < sw.offset;
  }

  lemma SessionExtendsLog(x: SI.Index, sw: SW.SessionWriter, h: Pos, log: seq<Session>, prev: map<bytes, SI.FileVersion>,
                          fs: seq<SI.FileVersion>, deleted: seq<bytes>, cur: Snapshot, size: EntrySize)
    requires OpenedOn(sw, h, log, prev) && InStep(sw, prev, fs, cur) && !sw.open
    requires IndexFor(x, sw, h, log, fs, deleted) && SI.Marshal(x).Some?
    ensures var log' := log + [Session(sw.out, x, size)];
            && ValidLog(h, log')
            && PacksOf(h, log') == sw.packs
            && Represents(PacksOf(h, log'), Replay(h, log').value, cur - ToSet(deleted), sw.env)
  {
    hide GoodChunks, Sound, SI.WellFormed, SI.Marshal, SW.SessionWriter.Indexed, SW.SessionWriter.Recording, ApplyFiles, LogCells, EncodeAll, Place, Represents, Apply;
    var s := Session(sw.out, x, size);
    var log' := log + [s];
    assert Front(log') == log && Last(log') == s;
    EmittedApplies(x, sw, h, log, prev, fs, deleted, cur);
    assert IndexOffset(h, log') == sw.offset;
    var m := ApplyFiles(prev, fs, sw.chunks).value;
    assert Replay(h, log') == Some(Contents(sw.chunks, m - ToSet(deleted)));
    RepresentsRemove(sw.packs, sw.chunks, m, cur, ToSet(deleted), sw.env);
    assert sw.packs == PacksOf(h, log) + Place(|LogCells(h, log)|, sw.out) + map[];
  }

  // ---- The archive and its runs ----

  lemma PacksBelow(h: Pos, log: seq<Session>)
    requires ValidLog(h, log)
    ensures forall k :: k in PacksOf(h, log) ==> k < |LogCells(h, log)|
  {
    hide PacksOf, LogCells, ValidLog;
    forall k | k in PacksOf(h, log) ensures k < |LogCells(h, log)| {
      PackReads(h, log, k);
    }
  }

  lemma RepresentsMatches(packs: Packs, c: Contents, snap: Snapshot, env: Env)
    requires Represents(packs, c, snap, env)
    ensures Matches(c.files, snap)
  {
  }

  lemma UnchangedSnapshot(snap: Snapshot, run: Run, changed: seq<Input>, deleted: seq<bytes>)
    requires changed == Changed(snap, run.inputs) && ToSet(deleted) == Deleted(snap, run) && deleted == []
    requires forall i :: i in changed ==> Yield(i).None?
    ensures Next(snap, run) == snap
  {
    hide Changed, Yield, Deleted;
    NothingRecorded(snap, changed);
  }

  /** FailedLate: an error is reported although the session is in place. */
  datatype Result = Appended(session: nat) | NoChange | Failed | FailedLate(session: nat)

  /** Writing the session and its tail, then the sealed count, then the signature. */
  datatype Phase = Writing | Counting | Signing

  /** A write that fails, and how far it got. The count is written whole (Cut) or not (Part). */
  datatype Fault = Fault(phase: Phase, at: Progress)

  predicate Early(fault: Option<Fault>) { fault.Some? && fault.value.phase == Writing }

  /** The fault hits after the session is in place; without a signer nothing is signed. */
  predicate Late(fault: Option<Fault>, sign: Option<SignatureSize>)
  {
    fault.Some? && (fault.value.phase == Counting || (fault.value.phase == Signing && sign.Some?))
  }

  /** The states an exposed undo went through, as places in the trace; empty for any other. */
  datatype Window = Window(lo: nat, hi: nat)
  {
    predicate Has(i: nat) { lo <= i < hi }
  }

  class Archive {
    const h: Pos
    const env: Env
    var disk: Disk
    var trace: seq<Disk> // every state the file has gone through
    ghost var log: seq<Session>
    ghost var snap: Snapshot

    /** The log's newest state and its packs restore to `snap`. */
    ghost predicate Records(log: seq<Session>, snap: Snapshot)
    {
      ValidLog(h, log) && Represents(PacksOf(h, log), Replay(h, log).value, snap, env)
    }

    /** File `d` holds `log`, and loading and restoring it gives `snap`. */
    ghost predicate Holds(d: Disk, log: seq<Session>, snap: Snapshot)
    {
      Safe(d, h, log) && Records(log, snap)
    }

    ghost predicate Valid()
      reads this
    {
      Sound(env) && Holds(disk, log, snap)
    }

    /** Writes cells at an offset, byte by byte. */
    method Put(off: nat, data: seq<Cell>)
      requires off <= |disk.cells|
      modifies this`disk, this`trace
      ensures disk == old(disk).(cells := Overwrite(old(disk.cells), off, data))
      ensures |trace| == |old(trace)| + |data| && old(trace) <= trace
      ensures forall i :: |old(trace)| <= i < |trace| ==>
                trace[i] == old(disk).(cells := Overwrite(old(disk.cells), off, data[..i - |old(trace)| + 1]))
    {
      var d := disk;
      var states := seq(|data|, (k: nat) requires k < |data| && off <= |d.cells| => d.(cells := Overwrite(d.cells, off, data[..k + 1])));
      trace := trace + states;
      disk := d.(cells := Overwrite(d.cells, off, data));
    }

    method Become(d: Disk)
      modifies this`disk, this`trace
      ensures disk == d && trace == old(trace) + [d]
    {
      disk := d;
      trace := trace + [d];
    }

    /** repairTail: every state on the way holds the same log; the last is intact. */
    method Repair(found: Found)
      requires Valid() && found == FoundIn(h, log)
      modifies this`disk, this`trace
      ensures Intact(disk, h, log, None) && old(trace) <= trace
      ensures forall i :: |old(trace)| <= i < |trace| ==> Safe(trace[i], h, log)
    {
      hide Safe, Represents, PacksOf, Replay, LogCells, IndexOffset, TailCells, ValidLog, Sound, Overwrite;
      ghost var d := disk;
      assert |LogCells(h, log)| <= |d.cells| by { SafeHasLog(d, h, log); }
      Put(found.tail, TailCells(found.lastIndex));
      forall i | |old(trace)| <= i < |trace| ensures Safe(trace[i], h, log) {
        RepairCrashPoint(d, h, log, i - |old(trace)| + 1);
      }
      RepairCompletes(d, h, log);
      Become(disk.(cells := disk.cells[..found.tail + TAIL_SIZE]));
      IntactIsAccepted(disk, h, log, None);
      AcceptedIsSafe(disk, h, log);
    }

    /** Writes a finished session over the tail and cuts the file behind it: every state on the
        way holds the old log or the new one. */
    method Append(s: Session, tail: nat, lastIndex: nat, ghost newLog: seq<Session>)
      requires Accepted(disk, h, log) && tail == |LogCells(h, log)| && newLog == log + [s] && ValidLog(h, newLog)
      requires lastIndex == IndexOffset(h, newLog)
      modifies this`disk, this`trace
      ensures Intact(disk, h, newLog, None) && disk.count == old(disk.count) && old(trace) <= trace
      ensures forall i :: |old(trace)| <= i < |trace| ==> Safe(trace[i], h, log) || Safe(trace[i], h, newLog)
    {
      hide Safe, Represents, PacksOf, Replay, LogCells, IndexOffset, TailCells, ValidLog, Sound, Overwrite, EncodeAll, SI.Encode, Proper, ReadCheckpoint;
      ghost var d := disk;
      assert Front(newLog) == log && Last(newLog) == s;
      assert LogCells(h, log) <= d.cells && d.count <= |newLog|;
      var data := EncodeAll(Entries(s)) + TailCells(lastIndex);
      assert data == NewCells(h, newLog);
      Put(tail, data);
      forall i | |old(trace)| <= i < |trace| ensures Safe(trace[i], h, log) || Safe(trace[i], h, newLog) {
        UpdateCrashPoint(d, h, newLog, i - |old(trace)| + 1);
      }
      assert data[..|data|] == data;
      assert disk == During(d, h, newLog, |data|);
      UpdateCompletes(d, h, newLog);
      Become(disk.(cells := disk.cells[..tail + |data|]));
      IntactIsAccepted(disk, h, newLog, None);
      AcceptedIsSafe(disk, h, newLog);
    }

    /** Raises the sealed count to the newest session, unless that write fails. */
    method Reseal(session: nat, fails: bool)
      requires Intact(disk, h, log, None) && session == |log|
      modifies this`disk, this`trace
      ensures Intact(disk, h, log, None) && disk.count == (if fails then old(disk.count) else |log|) && old(trace) <= trace
      ensures forall i :: |old(trace)| <= i < |trace| ==> Safe(trace[i], h, log)
    {
      hide Safe, ValidLog, LogCells, Rest;
      if !fails {
        Become(disk.(count := session));
        IntactIsAccepted(disk, h, log, None);
        AcceptedIsSafe(disk, h, log);
      }
    }

    /** writeSignature, over an accepted file: every state on the way holds the log, also if it
        fails. */
    method Sign(n: SignatureSize, end: nat, fault: Option<Progress>) returns (ok: bool)
      requires Accepted(disk, h, log) && end == |LogCells(h, log)| + TAIL_SIZE
      modifies this`disk, this`trace
      ensures Safe(disk, h, log) && old(trace) <= trace && ok == fault.None?
      ensures ok ==> Accepted(disk, h, log) && disk.cells == old(disk.cells)[..end] + SignatureCells(n)
      ensures forall i :: |old(trace)| <= i < |trace| ==> Safe(trace[i], h, log)
    {
      hide *;
      ghost var d := disk;
      AcceptedIsSafe(disk, h, log);
      assert end <= |d.cells| by { EndInFile(d, h, log); }
      var block := SignatureCells(n);
      var k := if fault.Some? && fault.value.Part? then Min(fault.value.bytes, |block|) else |block|;
      Put(end, block[..k]);
      forall i | |old(trace)| <= i < |trace| ensures Safe(trace[i], h, log) {
        var j := i - |old(trace)| + 1;
        assert block[..k][..j] == block[..j];
        SignatureCrashPoint(d, h, log, n, j);
      }
      SignatureCrashPoint(d, h, log, n, k);
      if fault.Some? && fault.value.Part? {
        return false;
      }
      assert block[..k] == block;
      SignatureCompletes(d, h, log, n);
      Become(disk.(cells := disk.cells[..end + |block|]));
      AcceptedIsSafe(disk, h, log);
      return fault.None?;
    }

    /** A write of a session that fails: its first bytes, or all of them and the file cut behind
        them. */
    method Attempt(s: Session, tail: nat, lastIndex: nat, at: Progress, ghost newLog: seq<Session>)
      requires Accepted(disk, h, log) && log != [] && tail == |LogCells(h, log)| <= |disk.cells|
      requires newLog == log + [s] && ValidLog(h, newLog) && lastIndex == IndexOffset(h, newLog)
      modifies this`disk, this`trace
      ensures disk == Begun(old(disk), h, newLog, at) && old(trace) <= trace && |trace| >= |old(trace)| + Written(h, newLog, at)
      ensures forall i :: |old(trace)| <= i < |trace| ==>
                Safe(trace[i], h, log) || (Written(h, newLog, at) >= |EncodeAll(Entries(s))| && Safe(trace[i], h, newLog))
    {
      hide Safe, LogCells, IndexOffset, TailCells, ValidLog, Overwrite, EncodeAll, SI.Encode, Accepted;
      ghost var d := disk;
      assert Front(newLog) == log && Last(newLog) == s;
      var data := EncodeAll(Entries(s)) + TailCells(lastIndex);
      assert data == NewCells(h, newLog);
      hide NewCells;
      var k := if at.Part? then Min(at.bytes, |data|) else |data|;
      Put(tail, data[..k]);
      forall i | |old(trace)| <= i < |trace|
        ensures Safe(trace[i], h, log) || (k >= |EncodeAll(Entries(s))| && Safe(trace[i], h, newLog))
      {
        WritingState(d, h, newLog, data[..k], i - |old(trace)| + 1);
      }
      if at.Cut? {
        Become(disk.(cells := disk.cells[..tail + k]));
        CutState(d, disk, h, newLog);
      }
    }

    /** A write that fails is undone: what followed the old log goes back and the file is cut to
        its old length, leaving it as it was, byte for byte. Every state on the way holds the
        old log or the new one, except those of an exposed undo. */
    method FailAndUndo(s: Session, tail: nat, lastIndex: nat, at: Progress, ghost newLog: seq<Session>) returns (w: Window)
      requires Accepted(disk, h, log) && log != [] && tail == |LogCells(h, log)| <= |disk.cells|
      requires newLog == log + [s] && ValidLog(h, newLog) && lastIndex == IndexOffset(h, newLog)
      modifies this`disk, this`trace
      ensures disk == old(disk) && old(trace) <= trace && (w.lo < w.hi ==> Exposed(disk, h, newLog, at))
      ensures w.lo < w.hi ==> |old(trace)| + Written(h, newLog, at) <= w.lo && w.hi < |trace|
      ensures forall i :: |old(trace)| <= i < |trace| && !w.Has(i) ==>
                Safe(trace[i], h, log) || (Written(h, newLog, at) >= |EncodeAll(Entries(s))| && Safe(trace[i], h, newLog))
    {
      hide Safe, LogCells, IndexOffset, ValidLog, Overwrite, EncodeAll, SI.Encode, Accepted, NewCells, TailComplete, Stale, Begun;
      ghost var d := disk;
      var oldTail, size, e := disk.cells[tail..], |disk.cells|, |EncodeAll(Entries(s))|;
      assert Front(newLog) == log && Last(newLog) == s;
      var k := if at.Part? then Min(at.bytes, e + TAIL_SIZE) else e + TAIL_SIZE;
      var exposed := at.Cut? || TailComplete(k, e, size - tail) || Stale(disk, h, tail, k);
      assert exposed == Exposed(d, h, newLog, at);
      hide Exposed, Written;
      Attempt(s, tail, lastIndex, at, newLog);
      var mark := |trace|;
      ghost var mid := disk;
      Put(tail, oldTail);
      w := if exposed then Window(mark, |trace|) else Window(mark, mark);
      forall i | mark <= i < |trace| && !w.Has(i) ensures Safe(trace[i], h, log) {
        UndoingState(d, mid, h, newLog, at, i - mark + 1);
      }
      UndoneState(d, mid, h, newLog, at);
      Become(disk.(cells := disk.cells[..size]));
      AcceptedIsSafe(disk, h, log);
    }

    /** finishUnchanged: with a signer, an archive whose signature does not hold for it is
        signed again. */
    method FinishUnchanged(sign: Option<SignatureSize>, repaired: bool, end: nat, fault: Option<Progress>) returns (ok: bool)
      requires Accepted(disk, h, log) && end == |LogCells(h, log)| + TAIL_SIZE
      modifies this`disk, this`trace
      ensures Safe(disk, h, log) && old(trace) <= trace && (ok ==> Accepted(disk, h, log))
      ensures sign.None? ==> disk == old(disk) && trace == old(trace) && ok
      ensures fault.None? ==> ok
      ensures forall i :: |old(trace)| <= i < |trace| ==> Safe(trace[i], h, log)
    {
      AcceptedIsSafe(disk, h, log);
      var held: bool :| true;
      if sign.None? || (!repaired && held) {
        return true;
      }
      ok := Sign(sign.value, end, fault);
    }

    /** updateIncremental, with a write that fails or without. A run leaves the snapshot it was
        asked for, unless it failed before the session was in place: then the old one. A crash
        leaves the log and snapshot from before the run or from after it behind, except inside
        an exposed undo. */
    method Update(run: Run, sign: Option<SignatureSize>, fault: Option<Fault>, time: i64) returns (res: Result, w: Window, ghost next: seq<Session>)
      requires Valid() && ValidRun(run, env)
      modifies this
      ensures Valid() && old(trace) <= trace
      ensures res == Failed ==> log == old(log) && snap == old(snap)
      ensures res != Failed ==> snap == Next(old(snap), run) && Took(old(snap), run, snap)
      ensures res == NoChange ==> log == old(log)
      ensures res.Appended? || res.FailedLate? ==> log == next && |next| == |old(log)| + 1 == res.session && Front(next) == old(log)
      ensures res.Appended? ==> !Early(fault) && !Late(fault, sign)
      ensures res.FailedLate? ==> Late(fault, sign)
      ensures old(ReadCheckpoint(disk.cells[..Proper(disk.cells)], h)).Some? && !Late(fault, sign) ==>
                (res == Failed || (res == NoChange && sign.None?) ==> disk == old(disk))
      ensures w.lo < w.hi ==> log == old(log) && ExposedRun(disk, next, fault)
      ensures forall i :: |old(trace)| <= i < |trace| && !w.Has(i) ==>
                Holds(trace[i], old(log), old(snap)) || Holds(trace[i], next, Next(old(snap), run))
    {
      hide Safe, Represents, Replay, LogCells, Intact, Accepted, Yield, Changed, Deleted, ValidInput, RecordAll, PacksOf, ReadCheckpoint, Proper, Load, ValidLog, Exposed, Stale, Took, Next;
      next, w := log, Window(0, 0);
      NextTook(snap, run);
      SafeLoads(disk, h, log);
      SafeHasLog(disk, h, log);
      AppliesChain(h, log);
      var st := Load(disk, h).value;
      if st.recovered {
        Repair(st.found);
        assert Accepted(disk, h, log) by { IntactIsAccepted(disk, h, log, None); }
      } else {
        assert Accepted(disk, h, log) by { TakenIsAccepted(disk, h, log); }
      }
      assert Safe(disk, h, log) by { AcceptedIsSafe(disk, h, log); }
      assert Matches(st.contents.files, snap) by { RepresentsMatches(PacksOf(h, log), st.contents, snap, env); }
      var changed, deleted := DiffInputs(st.contents.files, run, snap);
      if changed == [] && deleted == [] {
        UnchangedSnapshot(snap, run, changed, deleted);
        var ok := FinishUnchanged(sign, st.recovered, st.found.tail + TAIL_SIZE, SigningFault(fault));
        res := if ok then NoChange else Failed;
        return;
      }
      ChangedIn(snap, run.inputs);
      res, w, next := Record(changed, deleted, st, sign, fault, time, run);
    }

    /** appendSession: a run that found something to record. */
    method Record(changed: seq<Input>, deleted: seq<bytes>, st: State, sign: Option<SignatureSize>, fault: Option<Fault>, time: i64, ghost run: Run)
      returns (res: Result, w: Window, ghost next: seq<Session>)
      requires Valid() && Accepted(disk, h, log) && log != [] && ValidLog(h, log)
      requires st.found == FoundIn(h, log) && st.sessions == |log| && Replay(h, log) == Some(st.contents)
      requires changed == Changed(snap, run.inputs) && ToSet(deleted) == Deleted(snap, run)
      requires forall i :: i in changed ==> ValidInput(i, env)
      modifies this
      ensures Valid() && old(trace) <= trace
      ensures res == Failed ==> log == old(log) && snap == old(snap)
      ensures res != Failed ==> snap == Next(old(snap), run)
      ensures res == NoChange ==> log == old(log)
      ensures res.Appended? || res.FailedLate? ==> log == next && |next| == |old(log)| + 1 == res.session && Front(next) == old(log)
      ensures res.Appended? ==> !Early(fault) && !Late(fault, sign)
      ensures res.FailedLate? ==> Late(fault, sign)
      ensures res == Failed || res == NoChange ==> disk == old(disk)
      ensures w.lo < w.hi ==> log == old(log) && ExposedRun(disk, next, fault)
      ensures forall i :: |old(trace)| <= i < |trace| && !w.Has(i) ==>
                Holds(trace[i], old(log), old(snap)) || Holds(trace[i], next, Next(old(snap), run))
    {
      hide Safe, Represents, Replay, LogCells, Intact, Accepted, Yield, Changed, Deleted, ValidInput, RecordAll, PacksOf, ReadCheckpoint, Proper, Load, ValidLog, Exposed, Stale, IndexOffset;
      next, w := log, Window(0, 0);
      var built := BuildSession(h, env, changed, deleted, st.contents, st.found.tail, st.found.lastIndex, st.sessions, time, log, snap);
      if built.None? {
        if st.sessions + 1 < TWO_64 && st.found.lastIndex < TWO_64 && |st.contents.chunks| < TWO_64 {
          assert AllPacks([]);
          var packs: seq<Obj> :| AllPacks(packs);
          w := Drop(packs, st.found.tail, st.found.lastIndex, st.sessions, |st.contents.chunks|, None);
        }
        return Failed, w, next;
      }
      var s := built.value;
      if s.index.files == [] && deleted == [] {
        UnchangedSnapshot(snap, run, changed, deleted);
        BuiltInRange(h, log, s);
        w := Drop(s.packs, st.found.tail, st.found.lastIndex, st.sessions, |st.contents.chunks|, fault);
        var hit: bool :| hit ==> Early(fault);
        return if hit then Failed else NoChange, w, next;
      }
      next := log + [s];
      res, w := Commit(s, st.found.tail, sign, fault, run);
    }

    /** Why some states of a run's undo may hold neither archive: its write got the session into
        place, or a stale checkpoint lay behind the tail. */
    ghost predicate ExposedRun(d: Disk, next: seq<Session>, fault: Option<Fault>)
      reads this
    {
      || (Early(fault) && |next| >= 2 && Front(next) == log && Exposed(d, h, next, fault.value.at))
      || (|LogCells(h, log)| <= |d.cells| && exists k: nat :: Stale(d, h, |LogCells(h, log)|, k))
    }

    /** A session that records nothing, or cannot be completed: what was written of its packs is
        undone. */
    method Drop(packs: seq<Obj>, tail: nat, lastIndex: nat, sessions: nat, chunks: nat, fault: Option<Fault>) returns (w: Window)
      requires Valid() && Accepted(disk, h, log) && AllPacks(packs) && log != []
      requires tail == |LogCells(h, log)| && lastIndex == IndexOffset(h, log) < TWO_64 && sessions == |log| < TWO_64 - 1
      requires Replay(h, log).Some? && chunks == |Replay(h, log).value.chunks| < TWO_64
      modifies this`disk, this`trace
      ensures Valid() && old(trace) <= trace && disk == old(disk) && (w.lo < w.hi ==> ExposedRun(disk, [], None))
      ensures forall i :: |old(trace)| <= i < |trace| && !w.Has(i) ==> Holds(trace[i], log, snap)
    {
      hide Safe, Represents, Replay, LogCells, Accepted, PacksOf, ValidLog, Exposed, Stale, EncodeAll, AllPacks, IndexOffset;
      SafeHasLog(disk, h, log);
      var s := StandIn(packs, lastIndex, sessions, chunks);
      ghost var newLog := log + [s];
      StandInExtends(h, log, s, packs, chunks);
      var index := tail + |EncodeAll(Entries(s))| - s.size;
      assert index == IndexOffset(h, newLog) by { NewEnd(h, log, s); }
      var written: nat :| written <= |EncodeAll(packs)|;
      if Early(fault) && fault.value.at.Part? {
        written := Min(written, fault.value.at.bytes);
      }
      assert Front(newLog) == log && Last(newLog) == s;
      PacksOnly(disk, h, newLog, written);
      w := FailAndUndo(s, tail, index, Part(written), newLog);
    }

    /** Puts a built session into the file, or undoes a failed attempt. A late failure leaves it
        there. */
    method Commit(s: Session, tail: nat, sign: Option<SignatureSize>, fault: Option<Fault>, ghost run: Run) returns (res: Result, w: Window)
      requires Valid() && Accepted(disk, h, log) && tail == |LogCells(h, log)| && ValidLog(h, log + [s])
      requires Records(log + [s], Next(snap, run))
      modifies this
      ensures Valid() && old(trace) <= trace && res != NoChange
      ensures res == Failed <==> Early(fault)
      ensures res.FailedLate? <==> Late(fault, sign)
      ensures res == Failed ==> log == old(log) && snap == old(snap) && disk == old(disk)
      ensures res != Failed ==> log == old(log) + [s] && snap == Next(old(snap), run) && res.session == |log| && w.lo == w.hi
      ensures w.lo < w.hi ==>
                && log != [] && Exposed(disk, h, log + [s], fault.value.at)
                && |old(trace)| + Written(h, log + [s], fault.value.at) <= w.lo && w.hi < |trace|
      ensures forall i :: |old(trace)| <= i < |trace| && !w.Has(i) ==>
                Holds(trace[i], old(log), old(snap)) || Holds(trace[i], old(log) + [s], Next(old(snap), run))
    {
      hide Safe, Records, LogCells, Intact, Accepted, Next, ValidLog, Exposed, Written, EncodeAll, IndexOffset;
      SafeHasLog(disk, h, log);
      var end := tail + |EncodeAll(Entries(s))|;
      var lastIndex := end - s.size;
      assert end == |LogCells(h, log + [s])| && lastIndex == IndexOffset(h, log + [s]) by { NewEnd(h, log, s); }
      if Early(fault) {
        w := FailAndUndo(s, tail, lastIndex, fault.value.at, log + [s]);
        return Failed, w;
      }
      w := Window(0, 0);
      Append(s, tail, lastIndex, log + [s]);
      log := log + [s];
      snap := Next(snap, run);
      assert s.index.session == |log| by { SessionNumber(h, log); }
      res := if Late(fault, sign) then FailedLate(s.index.session) else Appended(s.index.session);
      var stops := fault.Some? && fault.value.phase == Counting;
      Reseal(s.index.session, stops && fault.value.at.Part?);
      IntactIsAccepted(disk, h, log, None);
      AcceptedIsSafe(disk, h, log);
      if sign.Some? && !stops {
        var ok := Sign(sign.value, end + TAIL_SIZE, SigningFault(fault));
      }
    }

    /** A run that stops part way, while it succeeds or while it fails and is being undone: the
        file is left in any state it went through. Inside an exposed undo it is taken to its end. */
    method Interrupted(run: Run, sign: Option<SignatureSize>, fault: Option<Fault>, time: i64)
      requires Valid() && ValidRun(run, env)
      modifies this
      ensures Valid() && (snap == old(snap) || Took(old(snap), run, snap))
    {
      hide Safe, Represents, Next, ExposedRun, Took, Records, Early, Late, ReadCheckpoint, Proper, LogCells;
      NextTook(snap, run);
      var mark := |trace|;
      ghost var log0, snap0 := log, snap;
      var res, w, next := Update(run, sign, fault, time);
      if |trace| == mark {
        return;
      }
      var i :| mark <= i < |trace|;
      if w.Has(i) {
        return;
      }
      disk := trace[i];
      if Holds(disk, log0, snap0) {
        log, snap := log0, snap0;
      } else {
        log, snap := next, Next(snap0, run);
      }
    }

    /** createIncremental: a first session, moved into place once complete. */
    constructor (h: Pos, env: Env, s: Session, sign: Option<SignatureSize>, ghost snap: Snapshot)
      requires Sound(env) && ValidLog(h, [s]) && Represents(PacksOf(h, [s]), Replay(h, [s]).value, snap, env)
      ensures Valid() && log == [s] && this.snap == snap && this.h == h && this.env == env
    {
      hide Safe, Represents, Replay, LogCells, PacksOf, ValidLog, TailCells;
      this.h, this.env, this.log, this.snap := h, env, [s], snap;
      var log := [s];
      var end := LogCells(h, log) + TailCells(IndexOffset(h, log));
      disk := Disk(1, if sign.Some? then end + SignatureCells(sign.value) else end);
      trace := [];
      new;
      ghost var sig: Option<Pos> := if sign.Some? then Some(sign.value) else None;
      assert disk.cells == LogCells(h, log) + Rest(h, log, sig);
      IntactIsAccepted(disk, h, log, sig);
      AcceptedIsSafe(disk, h, log);
    }
  }

  lemma WritingState(d: Disk, h: Pos, log: seq<Session>, part: seq<Cell>, n: nat)
    requires |log| >= 2 && ValidLog(h, log) && Accepted(d, h, Front(log)) && |LogCells(h, Front(log))| <= |d.cells|
    requires part <= NewCells(h, log) && n <= |part|
    ensures var x := d.(cells := Overwrite(d.cells, |LogCells(h, Front(log))|, part[..n]));
            Safe(x, h, Front(log)) || (n >= |EncodeAll(Entries(Last(log)))| && Safe(x, h, log))
  {
    hide Safe, LogCells, ValidLog, Overwrite, Accepted, NewCells, EncodeAll;
    assert part[..n] == NewCells(h, log)[..n];
    UpdateCrashPoint(d, h, log, n);
  }

  lemma UndoingState(d: Disk, mid: Disk, h: Pos, log: seq<Session>, at: Progress, j: nat)
    requires |log| >= 2 && ValidLog(h, log) && Accepted(d, h, Front(log)) && |LogCells(h, Front(log))| + j <= |d.cells|
    requires mid == Begun(d, h, log, at) && !Exposed(d, h, log, at) && j > 0
    ensures var end := |LogCells(h, Front(log))|;
            && end <= |mid.cells|
            && Safe(mid.(cells := Overwrite(mid.cells, end, d.cells[end..][..j])), h, Front(log))
  {
    hide Safe, LogCells, ValidLog, Accepted, NewCells, Exposed, Begun, Written;
    var end := |LogCells(h, Front(log))|;
    assert d.cells[end..][..j] == d.cells[end..end + j];
    UndoKeeps(d, h, log, at, j);
  }

  lemma UndoneState(d: Disk, mid: Disk, h: Pos, log: seq<Session>, at: Progress)
    requires |log| >= 2 && |LogCells(h, Front(log))| <= |d.cells| && mid == Begun(d, h, log, at)
    ensures var end := |LogCells(h, Front(log))|;
            && end <= |mid.cells|
            && var x := Overwrite(mid.cells, end, d.cells[end..]);
               |d.cells| <= |x| && mid.(cells := x[..|d.cells|]) == d
  {
    hide LogCells, NewCells, Begun;
    var end := |LogCells(h, Front(log))|;
    assert d.cells[end..] == d.cells[end..end + (|d.cells| - end)];
    UndoRestores(d, h, log, at);
  }

  /** Cut behind the new session, the file holds the new log. */
  lemma CutState(d: Disk, cut: Disk, h: Pos, log: seq<Session>)
    requires |log| >= 2 && ValidLog(h, log) && Accepted(d, h, Front(log)) && |LogCells(h, Front(log))| <= |d.cells|
    requires cut == Begun(d, h, log, Cut)
    ensures Safe(cut, h, log)
  {
    hide Safe, LogCells, ValidLog, NewCells, Proper, ReadCheckpoint, Intact;
    AcceptedStart(d, h, Front(log));
    UpdateCompletes(d, h, log);
    IntactIsAccepted(cut, h, log, None);
    AcceptedIsSafe(cut, h, log);
  }

  function SigningFault(fault: Option<Fault>): Option<Progress>
  {
    if fault.Some? && fault.value.phase == Signing then Some(fault.value.at) else None
  }

  // ---- Packs without an index ----

  /** A session that holds these packs and changes nothing. */
  function StandIn(packs: seq<Obj>, lastIndex: u64, sessions: nat, chunks: u64): Session
    requires sessions + 1 < TWO_64
  {
    Session(packs, SI.Index(sessions + 1, 0, lastIndex, chunks, [], [], [], []), MIN_ENTRY_SIZE)
  }

  lemma StandInExtends(h: Pos, log: seq<Session>, s: Session, packs: seq<Obj>, chunks: u64)
    requires log != [] && ValidLog(h, log) && AllPacks(packs) && |log| + 1 < TWO_64 && IndexOffset(h, log) < TWO_64
    requires Replay(h, log).Some? && chunks == |Replay(h, log).value.chunks|
    requires s == StandIn(packs, IndexOffset(h, log), |log|, chunks)
    ensures ValidLog(h, log + [s])
  {
    hide LogCells, IndexOffset, AllPacks, SI.Encode;
    var newLog := log + [s];
    assert Front(newLog) == log && Last(newLog) == s;
    StandInShort(s.index);
    assert ValidSession(h, newLog);
    assert Apply(Replay(h, log).value, s.index, IndexOffset(h, newLog), h).Some?;
  }

  lemma StandInShort(x: SI.Index)
    requires x.session != 0 && x.time == 0 && x.packs == [] && x.chunks == [] && x.files == [] && x.deleted == []
    ensures SI.WellFormed(x) && SI.Marshal(x).Some?
  {
    hide Uvarint;
    ShortU64(x.session);
    ShortU64(x.prevIndex);
    ShortU64(x.firstChunk);
    ShortU64(0);
    assert ZigZag(0) == 0;
  }

  /** Packs alone put no session in place. */
  lemma PacksOnly(d: Disk, h: Pos, log: seq<Session>, written: nat)
    requires |log| >= 2 && written <= |EncodeAll(Last(log).packs)|
    ensures Written(h, log, Part(written)) < |EncodeAll(Entries(Last(log)))|
    ensures Exposed(d, h, log, Part(written)) ==> |LogCells(h, Front(log))| <= |d.cells| && Stale(d, h, |LogCells(h, Front(log))|, written)
  {
    hide SI.Encode, LogCells, Stale, EncodeAll;
    EntriesEncoded(Last(log));
  }

  lemma BuiltInRange(h: Pos, log: seq<Session>, s: Session)
    requires log != [] && ValidLog(h, log + [s])
    ensures AllPacks(s.packs) && |log| + 1 < TWO_64 && IndexOffset(h, log) < TWO_64
    ensures Replay(h, log).Some? && |Replay(h, log).value.chunks| < TWO_64
  {
    hide LogCells, IndexOffset, AllPacks, SI.WellFormed, SI.Marshal;
    var newLog := log + [s];
    assert Front(newLog) == log && Last(newLog) == s;
  }

  lemma EndInFile(d: Disk, h: Pos, log: seq<Session>)
    requires Accepted(d, h, log)
    ensures |LogCells(h, log)| + TAIL_SIZE <= |d.cells|
  {
    hide LogCells, ValidLog, ReadCheckpoint, Proper;
    AcceptedIsSafe(d, h, log);
  }

  lemma TakenIsAccepted(d: Disk, h: Pos, log: seq<Session>)
    requires Safe(d, h, log) && ReadCheckpoint(d.cells[..Proper(d.cells)], h).Some?
    ensures Accepted(d, h, log)
  {
    hide ReadCheckpoint, Proper, LogCells, ValidLog, Scan, Guarded;
  }

  lemma NewEnd(h: Pos, log: seq<Session>, s: Session)
    ensures var end := |LogCells(h, log)| + |EncodeAll(Entries(s))|;
            && end == |LogCells(h, log + [s])| && end - s.size == IndexOffset(h, log + [s])
  {
    hide EncodeAll, SI.Encode;
    var log' := log + [s];
    assert Front(log') == log && Last(log') == s;
    LogCellsStep(h, log');
    EntriesEncoded(s);
  }

  // ---- Building a session ----

  /** writeSession up to the point where its bytes reach the file; None when it fails. */
  method BuildSession(h: Pos, env: Env, changed: seq<Input>, deleted: seq<bytes>, prev: Contents, base: nat, prevIndex: nat, sessions: nat,
                      time: i64, ghost log: seq<Session>, ghost snap: Snapshot) returns (r: Option<Session>)
    requires Sound(env) && ValidLog(h, log) && Replay(h, log) == Some(prev) && base == |LogCells(h, log)|
    requires prevIndex == PrevIndex(h, log) && sessions == |log| && Represents(PacksOf(h, log), prev, snap, env)
    requires forall i :: i in changed ==> ValidInput(i, env)
    ensures r.Some? ==>
              && r.value.index.deleted == deleted
              && (r.value.index.files == [] ==> forall i :: i in changed ==> Yield(i).None?)
              && var newLog := log + [r.value];
                 && ValidLog(h, newLog)
                 && Represents(PacksOf(h, newLog), Replay(h, newLog).value, RecordAll(snap, changed) - ToSet(deleted), env)
  {
    hide ValidInput, Yield, SI.Marshal, Represents, GoodChunks, SW.SessionWriter.Valid, PacksOf, LogCells, ValidLog, Replay;
    if base >= TWO_63 || |prev.chunks| >= TWO_63 || sessions + 1 >= TWO_64 || prevIndex >= TWO_64 {
      return None;
    }
    PacksBelow(h, log);
    RepresentsGood(PacksOf(h, log), prev, snap, env);
    var sw := new SW.SessionWriter(env, base, PacksOf(h, log), prev.chunks);
    StartInStep(sw, prev, snap);
    var rec := RecordChanged(sw, changed, prev.files, snap);
    if !rec.ok {
      return None;
    }
    r := FinishSession(h, sw, rec.files, deleted, prev, prevIndex, sessions, time, log, RecordAll(snap, changed));
  }

  /** closePack and writeIndex. */
  method FinishSession(h: Pos, sw: SW.SessionWriter, files: seq<SI.FileVersion>, deleted: seq<bytes>, prev: Contents, prevIndex: nat, sessions: nat,
                       time: i64, ghost log: seq<Session>, ghost cur: Snapshot) returns (r: Option<Session>)
    requires OpenedOn(sw, h, log, prev.files) && InStep(sw, prev.files, files, cur) && prev.chunks == sw.chunks0
    requires prevIndex == PrevIndex(h, log) < TWO_64 && sessions == |log| && |log| + 1 < TWO_64 && |prev.chunks| < TWO_64
    modifies sw
    ensures r.Some? ==>
              && r.value.index.deleted == deleted && r.value.index.files == files
              && var newLog := log + [r.value];
                 && ValidLog(h, newLog)
                 && Represents(PacksOf(h, newLog), Replay(h, newLog).value, cur - ToSet(deleted), sw.env)
  {
    hide Represents, GoodChunks, SI.Marshal, ApplyFiles, LogCells, Replay, PacksOf, ValidLog, Sound;
    var ok := sw.ClosePack();
    if !ok {
      return None;
    }
    var x := SI.Index(sessions + 1, time, prevIndex, |prev.chunks|, sw.packOffsets, sw.records, files, deleted);
    if SI.Marshal(x).None? {
      return None;
    }
    var size: EntrySize :| true;
    SessionExtendsLog(x, sw, h, log, prev.files, files, deleted, cur, size);
    return Some(Session(sw.out, x, size));
  }

  // ---- Whole histories ----

  /** A run, with a signer or without, one of whose writes may fail. */
  datatype Event =
    | Finished(run: Run, sign: Option<SignatureSize>, fault: Option<Fault>)
    | Crashed(run: Run, sign: Option<SignatureSize>, fault: Option<Fault>)

  /** What a history leads to, given how its runs ended: a finished run that did not fail, or
      failed late, takes effect exactly; one that failed before changes nothing, and one cut off
      by a crash takes effect entirely or not at all. */
  ghost predicate Leads(start: Snapshot, events: seq<Event>, results: seq<Result>, end: Snapshot)
    requires |events| == |results|
    decreases |events|
  {
    if events == [] then start == end
    else exists mid :: Leads(start, Front(events), Front(results), mid) && Follows(mid, Last(events), Last(results), end)
  }

  ghost predicate Follows(before: Snapshot, e: Event, res: Result, after: Snapshot)
  {
    match e
    case Finished(run, sign, fault) =>
      && (if res == Failed then after == before else Took(before, run, after))
      && (res.FailedLate? ==> Late(fault, sign)) && (res.Appended? ==> !Early(fault) && !Late(fault, sign))
    case Crashed(run, _, _) => after == before || Took(before, run, after)
  }

  /** What a whole history leads to, from the run that created the archive on. */
  ghost predicate Outcome(first: Run, events: seq<Event>, results: seq<Result>, end: Snapshot)
    requires |events| == |results|
  {
    exists start :: Took(map[], first, start) && Leads(start, events, results, end)
  }

  /** createIncremental and then any sequence of completed, failed and interrupted updates:
      the archive always loads, and always restores to the snapshot the history promises. */
  method History(h: Pos, env: Env, first: Run, sign: Option<SignatureSize>, events: seq<Event>, time: i64) returns (a: Archive?, results: seq<Result>)
    requires Sound(env) && ValidRun(first, env)
    requires forall i :: 0 <= i < |events| ==> ValidRun(events[i].run, env)
    ensures a != null ==> a.Valid() && a.env == env && a.h == h
    ensures a != null ==> |results| == |events| && Outcome(first, events, results, a.snap)
  {
    hide Represents, Replay, LogCells, PacksOf, ValidLog, Next, Safe, ValidRun, Took, Leads, Follows, Outcome;
    results := [];
    var built := FirstSession(h, env, first, time);
    if built.None? {
      return null, [];
    }
    ghost var start := Next(map[], first);
    a := new Archive(h, env, built.value, sign, start);
    FirstTook(first, env);
    assert events[..0] == [];
    NothingLeads(start);
    for i := 0 to |events|
      invariant a.Valid() && a.env == env && a.h == h && fresh(a) && |results| == i
      invariant Leads(start, events[..i], results, a.snap)
    {
      ghost var mid := a.snap;
      var res := Happen(a, events[i], time);
      OneMore(start, events, results, i, mid, res, a.snap);
      results := results + [res];
    }
    assert events[..|events|] == events;
    IsOutcome(first, start, events, results, a.snap);
  }

  /** One event of a history. */
  method Happen(a: Archive, e: Event, time: i64) returns (res: Result)
    requires a.Valid() && ValidRun(e.run, a.env)
    modifies a
    ensures a.Valid() && Follows(old(a.snap), e, res, a.snap)
  {
    hide Represents, Safe, Next, Took, ValidRun, Late, Early;
    res := NoChange;
    if e.Finished? {
      var r, _, _ := a.Update(e.run, e.sign, e.fault, time);
      res := r;
    } else {
      a.Interrupted(e.run, e.sign, e.fault, time);
    }
  }

  lemma FirstTook(first: Run, env: Env)
    requires ValidRun(first, env)
    ensures Took(map[], first, Next(map[], first))
  {
    NextTook(map[], first);
  }

  lemma NothingLeads(start: Snapshot)
    ensures Leads(start, [], [], start)
  {
  }

  lemma IsOutcome(first: Run, start: Snapshot, events: seq<Event>, results: seq<Result>, end: Snapshot)
    requires |events| == |results| && Took(map[], first, start) && Leads(start, events, results, end)
    ensures Outcome(first, events, results, end)
  {
    hide Took, Leads;
  }

  lemma OneMore(start: Snapshot, events: seq<Event>, results: seq<Result>, i: nat, mid: Snapshot, res: Result, end: Snapshot)
    requires i < |events| && |results| == i && Leads(start, events[..i], results, mid) && Follows(mid, events[i], res, end)
    ensures Leads(start, events[..i + 1], results + [res], end)
  {
    hide Took, Follows;
    assert Front(events[..i + 1]) == events[..i] && Last(events[..i + 1]) == events[i];
    assert Front(results + [res]) == results && Last(results + [res]) == res;
  }

  /** The first session of a new archive records every readable input. */
  method FirstSession(h: Pos, env: Env, run: Run, time: i64) returns (r: Option<Session>)
    requires Sound(env) && ValidRun(run, env)
    ensures r.Some? ==> ValidLog(h, [r.value]) && Represents(PacksOf(h, [r.value]), Replay(h, [r.value]).value, Next(map[], run), env)
  {
    hide SI.Marshal, Represents, PacksOf, LogCells, ValidInput;
    EmptyStart(h, env);
    FirstSnapshot(run);
    r := BuildSession(h, env, run.inputs, [], EMPTY, h, 0, 0, time, [], map[]);
    if r.Some? {
      assert [] + [r.value] == [r.value];
    }
  }

  lemma EmptyStart(h: Pos, env: Env)
    ensures ValidLog(h, []) && Replay(h, []) == Some(EMPTY) && |LogCells(h, [])| == h
    ensures Represents(PacksOf(h, []), EMPTY, map[], env)
  {
  }

  lemma {:induction false} NothingUnchanged(inputs: seq<Input>)
    ensures Changed(map[], inputs) == inputs
  {
    if inputs == [] {
    } else {
      NothingUnchanged(inputs[1..]);
      assert inputs == [inputs[0]] + inputs[1..];
    }
  }

  lemma FirstSnapshot(run: Run)
    ensures Next(map[], run) == RecordAll(map[], run.inputs) - ToSet([])
  {
    hide RecordAll, Changed;
    NothingUnchanged(run.inputs);
    assert Deleted(map[], run) == {} == ToSet([]);
  }

  lemma RepresentsGood(packs: Packs, c: Contents, snap: Snapshot, env: Env)
    requires Represents(packs, c, snap, env)
    ensures GoodChunks(packs, c.chunks, env)
  {
  }

  lemma StartInStep(sw: SW.SessionWriter, c: Contents, snap: Snapshot)
    requires sw.Valid() && sw.chunks == c.chunks && Represents(sw.packs, c, snap, sw.env)
    ensures InStep(sw, c.files, [], snap)
  {
    hide Represents, SW.SessionWriter.Valid;
    assert ApplyFiles(c.files, [], sw.chunks) == Some(c.files);
    assert Contents(sw.chunks, c.files) == c;
  }

  lemma SafeHasLog(d: Disk, h: Pos, log: seq<Session>)
    requires Safe(d, h, log)
    ensures log != [] && ValidLog(h, log) && LogCells(h, log) <= d.cells && |LogCells(h, log)| <= |d.cells|
  {
    hide LogCells, ValidLog, Proper, Scan, ReadCheckpoint, Guarded;
  }

  lemma SessionNumber(h: Pos, log: seq<Session>)
    requires log != [] && ValidLog(h, log)
    ensures Last(log).index.session == |log|
  {
    hide LogCells, Replay, SI.Marshal, SI.WellFormed;
  }
}
