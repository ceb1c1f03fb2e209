/** Restoring an incremental archive (io/incremental_restore.go): every needed pack is read
    once, its chunks are checked and written to the positions that use them, and a file is
    renamed into place only when it is complete. */
module Restore {
  import opened Bytes
  import opened ArchiveFile
  import opened ChunkStore
  import opened Assembly
  import SI = SessionIndex
  import P = Pack

  class Restorer {
    const job: Job
    var restores: seq<RestoreFile>
    var targets: map<nat, seq<Target>>
    ghost var files: seq<SI.FileVersion>
    ghost var written: seq<set<nat>> // positions written so far, by file
    ghost var raws: Raws             // chunks delivered so far
    ghost var bad: set<nat>          // packs that failed and whose files are marked
    ghost var blame: set<nat>        // packs that failed

    ghost predicate Inv()
      reads this
    {
      && Sized(job.chunks) && RawsFit(job, raws) && AllInRange(job, files)
      && |files| == |restores| == |written|
      && (forall i :: 0 <= i < |files| ==>
            restores[i].version == files[i] && FileInv(job, restores[i], written[i], raws, bad, blame))
      && TargetsOf(job, files, targets, |files|, 0)
    }

    /** Every delivered chunk is in place in every file that has not failed. */
    ghost predicate Synced()
      reads this
    {
      |files| == |restores| == |written| &&
      forall i, p :: 0 <= i < |files| && restores[i].err.None? && 0 <= p < |restores[i].version.chunks| && restores[i].version.chunks[p] in raws ==>
        p in written[i]
    }

    ghost predicate Valid()
      reads this
    {
      Inv() && Synced() && bad == blame
    }

    /** prepareRestore, for regular files. */
    constructor (job: Job, regular: seq<SI.FileVersion>)
      requires Sized(job.chunks) && AllInRange(job, regular)
      ensures Valid() && this.job == job && files == regular && raws == map[] && bad == {}
    {
      this.job, this.files := job, regular;
      restores, targets, written, raws, bad, blame := [], map[], [], map[], {}, {};
      new;
      hide PosOffset;
      for i := 0 to |regular|
        invariant files == regular && raws == map[] && bad == blame == {} && |restores| == |written| == i
        invariant forall j :: 0 <= j < i ==>
          restores[j].version == files[j] && written[j] == {} && FileInv(job, restores[j], {}, map[], {}, {})
        invariant TargetsOf(job, files, targets, i, 0)
      {
        var f := regular[i];
        written := written + [{}];
        if job.faults.create(f.name) {
          restores := restores + [RestoreFile(f, [], |f.chunks|, Some(CannotCreate))];
          NextFile(job, files, targets, i, 0);
        } else {
          restores := restores + [RestoreFile(f, [], |f.chunks|, None)];
          AddTargets(i);
          NextFile(job, files, targets, i, |f.chunks|);
        }
      }
    }

    /** Maps each chunk of file `i` to the position it fills. */
    method AddTargets(i: nat)
      requires AllInRange(job, files) && i < |files| && !job.faults.create(files[i].name) && TargetsOf(job, files, targets, i, 0)
      requires i < |restores| && restores[i].version == files[i]
      modifies this`targets
      ensures TargetsOf(job, files, targets, i, |files[i].chunks|)
    {
      hide TargetsOf, RawSum;
      var ns := restores[i].version.chunks;
      var offset := 0;
      StartsAtZero(ns, job.chunks);
      for k := 0 to |ns|
        invariant offset == PosOffset(ns, k, job.chunks) && TargetsOf(job, files, targets, i, k)
      {
        var n := ns[k];
        AddTarget(job, files, targets, i, k);
        targets := targets[n := (if n in targets then targets[n] else []) + [Target(i, k, offset)]];
        PosOffsetStep(ns, k, job.chunks);
        offset := offset + job.chunks[n].raw;
      }
    }

    /** Writes a verified chunk at one target; no position is ever written twice. */
    method WriteTarget(n: nat, j: nat, raw: bytes)
      requires Inv() && n in targets && j < |targets[n]| && n in raws && raws[n] == raw
      requires targets[n][j].file < |written| && targets[n][j].pos !in written[targets[n][j].file]
      modifies this`restores, this`written
      ensures Inv()
      ensures var t := targets[n][j];
              && t.file < |files| && |written| == |old(written)|
              && (forall i :: 0 <= i < |files| && i != t.file ==> restores[i] == old(restores)[i] && written[i] == old(written)[i])
              && old(written)[t.file] <= written[t.file] <= old(written)[t.file] + {t.pos}
              && (restores[t.file].err.None? ==> old(restores)[t.file].err.None? && t.pos in written[t.file])
    {
      hide Healthy, TargetsOf, RawsFit, Sized, PosOffset, WriteAt;
      var t := targets[n][j];
      TargetsAreGood(job, files, targets, n);
      var rf := restores[t.file];
      if rf.err.Some? {
        return;
      }
      if job.faults.write(rf.version.name, t.pos) {
        var torn: bytes := *;
        restores := restores[t.file := rf.(tmp := torn, err := Some(WriteFailed))];
        return;
      }
      WriteStep(job, rf, written[t.file], raws, bad, t.pos, raw);
      restores := restores[t.file := rf.(tmp := WriteAt(rf.tmp, t.offset, raw), pending := rf.pending - 1)];
      written := written[t.file := written[t.file] + {t.pos}];
    }

    /** deliverChunk, after its check: fills every position that uses the chunk. */
    method Deliver(n: nat, raw: bytes)
      requires Valid() && n in targets && n !in raws && n < |job.chunks| && Chunk(job, n) == Some(raw)
      modifies this`restores, this`written, this`raws
      ensures Valid() && raws == old(raws)[n := raw]
    {
      hide Healthy, Excused, TargetsOf, Sized, Chunk, FileInv;
      ghost var w0, rs0 := written, restores;
      NothingWritten(n);
      MoreRaws(n, raw);
      raws := raws[n := raw];
      var ts := targets[n];
      TargetsAreGood(job, files, targets, n);
      for k := 0 to |ts|
        invariant Inv() && Progress(ts, k, w0, rs0) && raws == old(raws)[n := raw]
      {
        assert ts[k].pos !in written[ts[k].file];
        WriteTarget(n, k, raw);
      }
      AllFilled(n, w0, rs0);
    }

    /** After `k` of the chunk's targets. */
    ghost predicate Progress(ts: seq<Target>, k: nat, w0: seq<set<nat>>, rs0: seq<RestoreFile>)
      reads this
    {
      && k <= |ts| && |written| == |w0| == |rs0| == |restores| == |files|
      && (forall j :: 0 <= j < |ts| ==> ts[j].file < |files|)
      && (forall i :: 0 <= i < |files| ==> w0[i] <= written[i] && (restores[i].err.None? ==> rs0[i].err.None?))
      && (forall j :: 0 <= j < k && restores[ts[j].file].err.None? ==> ts[j].pos in written[ts[j].file])
      && (forall j :: k <= j < |ts| ==> ts[j].pos !in written[ts[j].file])
    }

    lemma NothingWritten(n: nat)
      requires Inv() && n in targets && n !in raws
      ensures forall j :: 0 <= j < |targets[n]| ==> targets[n][j].file < |files| && targets[n][j].pos !in written[targets[n][j].file]
    {
      hide Healthy, Excused, Sized, Chunk;
    }

    /** A further delivered chunk leaves every file as it was. */
    lemma MoreRaws(n: nat, raw: bytes)
      requires Inv() && n !in raws
      ensures forall i :: 0 <= i < |files| ==> FileInv(job, restores[i], written[i], raws[n := raw], bad, blame)
    {
      hide Excused, Sized, Chunk, TargetsOf, PosOffset;
      forall i | 0 <= i < |files| ensures FileInv(job, restores[i], written[i], raws[n := raw], bad, blame) {
        assert FileInv(job, restores[i], written[i], raws, bad, blame);
        forall p | p in written[i] && restores[i].err.None? ensures Filled(job, restores[i], p, raws[n := raw]) {
          assert Filled(job, restores[i], p, raws);
        }
      }
    }

    lemma AllFilled(n: nat, w0: seq<set<nat>>, rs0: seq<RestoreFile>)
      requires Inv() && n in targets && Progress(targets[n], |targets[n]|, w0, rs0)
      requires forall i :: 0 <= i < |files| ==> rs0[i].version == files[i]
      requires forall i, p :: 0 <= i < |files| && rs0[i].err.None? && 0 <= p < |files[i].chunks| && files[i].chunks[p] in raws && files[i].chunks[p] != n ==>
                 p in w0[i]
      ensures Synced()
    {
      hide PosOffset, Sized, Chunk, RawsFit;
      forall i, p | 0 <= i < |files| && restores[i].err.None? && 0 <= p < |restores[i].version.chunks| && restores[i].version.chunks[p] in raws
        ensures p in written[i]
      {
        assert FileInv(job, restores[i], written[i], raws, bad, blame);
        if files[i].chunks[p] == n {
          assert Listed(|files|, 0, i, p);
          var t := TargetFor(job, files, i, p);
          var j :| 0 <= j < |targets[n]| && targets[n][j] == t;
        }
      }
    }

    /** Marks every file that uses one of the pack's needed chunks. */
    method MarkFailed(p: nat, needed: seq<nat>)
      requires Valid() && forall n :: n in needed <==> n in targets && n < |job.chunks| && job.chunks[n].packOffset == p
      modifies this`restores, this`bad, this`blame
      ensures Valid() && bad == old(bad) + {p}
    {
      hide Healthy, Excused, TargetsOf, Sized, RawsFit;
      BlameMore(p);
      blame := blame + {p};
      for k := 0 to |needed|
        invariant Inv() && Synced() && bad == old(bad) && blame == bad + {p}
        invariant Marked(p, needed[..k])
      {
        MarkTargets(p, needed[k]);
        assert needed[..k + 1] == needed[..k] + [needed[k]];
      }
      assert needed[..|needed|] == needed;
      AllMarked(p, needed);
      bad := blame;
    }

    /** Every file using one of these chunks has failed. */
    ghost predicate Marked(p: nat, done: seq<nat>)
      reads this
    {
      forall n, j :: n in done && n in targets && 0 <= j < |targets[n]| && targets[n][j].file < |restores| ==> restores[targets[n][j].file].err.Some?
    }

    method MarkTargets(p: nat, n: nat)
      requires Inv() && Synced() && n in targets && n < |job.chunks| && job.chunks[n].packOffset == p && p in blame
      modifies this`restores
      ensures Inv() && Synced()
      ensures |restores| == |old(restores)| && forall i :: 0 <= i < |restores| && old(restores)[i].err.Some? ==> restores[i].err.Some?
      ensures forall j :: 0 <= j < |targets[n]| && targets[n][j].file < |restores| ==> restores[targets[n][j].file].err.Some?
    {
      hide Healthy, TargetsOf, Sized, RawsFit, PosOffset;
      var ts := targets[n];
      TargetsAreGood(job, files, targets, n);
      for k := 0 to |ts|
        invariant Inv() && Synced() && |restores| == |old(restores)|
        invariant forall i :: 0 <= i < |restores| && old(restores)[i].err.Some? ==> restores[i].err.Some?
        invariant forall j :: 0 <= j < k ==> restores[ts[j].file].err.Some?
      {
        var t := ts[k];
        var rf := restores[t.file];
        if rf.err.None? {
          assert rf.version.chunks[t.pos] == n;
          restores := restores[t.file := rf.(err := Some(PackDamaged))];
        }
      }
    }

    lemma BlameMore(p: nat)
      requires Inv()
      ensures forall i :: 0 <= i < |files| ==> FileInv(job, restores[i], written[i], raws, bad, blame + {p})
    {
      hide Healthy, TargetsOf, Sized, RawsFit;
    }

    lemma AllMarked(p: nat, needed: seq<nat>)
      requires Inv() && Marked(p, needed) && forall n :: n in needed <==> n in targets && n < |job.chunks| && job.chunks[n].packOffset == p
      ensures forall i :: 0 <= i < |files| ==> FileInv(job, restores[i], written[i], raws, bad + {p}, blame)
    {
      hide Excused, Sized, RawsFit, PosOffset, Filled;
      forall i | 0 <= i < |files| ensures FileInv(job, restores[i], written[i], raws, bad + {p}, blame) {
        var rf := restores[i];
        assert FileInv(job, rf, written[i], raws, bad, blame);
        if rf.err.None? {
          forall q | 0 <= q < |rf.version.chunks| ensures job.chunks[rf.version.chunks[q]].packOffset != p {
            var n := rf.version.chunks[q];
            assert Listed(|files|, 0, i, q);
            var j :| 0 <= j < |targets[n]| && targets[n][j] == TargetFor(job, files, i, q);
            assert n in needed <==> job.chunks[n].packOffset == p;
          }
        }
      }
    }

    /** restorePack, and marking the files that use the pack if it fails. */
    method RestorePack(p: nat, needed: seq<nat>)
      requires Valid() && Distinct(needed) && ByOffset(job.chunks, needed)
      requires forall n :: n in needed <==> n in targets && n < |job.chunks| && job.chunks[n].packOffset == p
      requires forall n :: n in needed ==> n !in raws
      modifies this`restores, this`written, this`raws, this`bad, this`blame
      ensures Valid()
      ensures bad == if PackGood(job, ToNeeded(needed), p) then old(bad) else old(bad) + {p}
      ensures forall n :: n in raws ==> n in old(raws) || n in needed
      ensures forall n :: n in old(raws) ==> n in raws
      ensures PackGood(job, ToNeeded(needed), p) ==> forall n :: n in needed ==> n in raws
    {
      hide Inv, Synced, Chunk, Opened, ChunkFrom, Sized, PackGood;
      var pack := job.read(p);
      SizedChunks();
      var spans := SpansOf(job.chunks, needed);
      var delivered, ok := P.Route(spans, Accepts(job), pack.slices);
      for k := 0 to |delivered|
        invariant Valid() && bad == old(bad)
        invariant raws.Keys == old(raws).Keys + set i | 0 <= i < k :: needed[i]
      {
        DeliveredChunk(job, needed, p, k, delivered[k]);
        assert needed[k] in needed;
        Deliver(needed[k], Opened(job.chunks[needed[k]], delivered[k].stored, job.env).value);
      }
      GoodIffRouted(job, needed, p);
      if !ok || !pack.verified {
        MarkFailed(p, needed);
      }
    }

    lemma SizedChunks()
      requires Inv()
      ensures Sized(job.chunks) && forall i :: 0 <= i < |job.chunks| ==> 0 < job.chunks[i].stored
    {
    }

    /** Each pack holding a needed chunk is read once, in archive order. */
    method RestorePacks()
      requires Valid() && raws == map[] && bad == {}
      modifies this`restores, this`written, this`raws, this`bad, this`blame
      ensures Valid() && targets.Keys == Needed(job, files)
      ensures forall p :: p in bad ==> !PackGood(job, targets.Keys, p)
      ensures forall n :: n in targets ==> n < |job.chunks| && (n in raws || job.chunks[n].packOffset in bad)
      ensures forall n :: n in targets && job.chunks[n].packOffset !in bad ==> PackGood(job, targets.Keys, job.chunks[n].packOffset)
    {
      hide Inv, Synced, PackGood;
      KeysAreNeeded();
      var byPack := GroupByPack(job.chunks, targets.Keys);
      var packs := SortKeys(byPack.Keys);
      for k := 0 to |packs|
        invariant Valid()
        invariant forall p :: p in bad ==> !PackGood(job, targets.Keys, p)
        invariant forall n :: n in targets && job.chunks[n].packOffset in packs[..k] ==> n in raws || job.chunks[n].packOffset in bad
        invariant forall p :: p in packs[..k] && p !in bad ==> PackGood(job, targets.Keys, p)
        invariant forall n :: n in raws ==> n in targets && job.chunks[n].packOffset in packs[..k]
      {
        var p := packs[k];
        assert p in packs;
        assert forall i :: 0 <= i < |byPack[p]| ==> byPack[p][i] in targets;
        var needed := SortByOffset(job.chunks, byPack[p]);
        PackGoodLocal(job, targets.Keys, ToNeeded(needed), p);
        RestorePack(p, needed);
        assert packs[..k + 1] == packs[..k] + [p];
      }
      assert packs[..|packs|] == packs;
    }

    lemma KeysAreNeeded()
      requires Inv()
      ensures targets.Keys == Needed(job, files) && forall n :: n in targets ==> n < |job.chunks|
    {
      hide Sized, RawsFit, FileInv, TargetsOf;
      TargetKeys(job, files, targets);
    }

    /** Once all packs are read, a file has failed exactly when something went wrong for it. */
    lemma AllSettled()
      requires Valid() && targets.Keys == Needed(job, files)
      requires forall p :: p in bad ==> !PackGood(job, targets.Keys, p)
      requires forall n :: n in targets ==> n < |job.chunks| && (n in raws || job.chunks[n].packOffset in bad)
      requires forall n :: n in targets && job.chunks[n].packOffset !in bad ==> PackGood(job, targets.Keys, job.chunks[n].packOffset)
      ensures |restores| == |files| && forall i :: 0 <= i < |files| ==>
                restores[i].version == files[i] && Settled(job, Needed(job, files), restores[i])
    {
      hide PackGood, Settled, RawsFit, Sized, TargetsOf, PosOffset, RawSum, Filled;
      forall i | 0 <= i < |files| ensures Settled(job, Needed(job, files), restores[i]) {
        var rf := restores[i];
        forall p | rf.err.None? && 0 <= p < |rf.version.chunks|
          ensures rf.version.chunks[p] in Needed(job, files) && rf.version.chunks[p] in raws && p in written[i]
        {
          assert !job.faults.create(files[i].name);
          assert files[i].chunks[p] in Needed(job, files);
        }
        FileSettles(job, Needed(job, files), rf, written[i], raws, bad);
      }
    }

    /** publishRestores: exactly the files nothing went wrong for appear under their names. */
    method PublishRestores() returns (published: map<bytes, bytes>)
      requires DistinctNames(files) && |restores| == |files|
      requires forall i :: 0 <= i < |files| ==> restores[i].version == files[i] && Settled(job, Needed(job, files), restores[i])
      modifies this`restores
      ensures Published(published, |files|)
    {
      hide Assembled, AllVerified, Content, Needed;
      published := map[];
      for i := 0 to |restores|
        invariant |restores| == |files| && forall j :: i <= j < |files| ==> restores[j] == old(restores)[j]
        invariant Published(published, i)
      {
        var rf := restores[i];
        if rf.err.None? && rf.pending != 0 {
          rf := rf.(err := Some(MissingChunks));
        }
        if rf.err.None? {
          if job.faults.publish(rf.version.name) {
            rf := rf.(err := Some(CannotPublish));
          } else {
            published := published[rf.version.name := rf.tmp];
          }
        }
        restores := restores[i := rf];
      }
    }

    /** What has been renamed into place after the first `k` files. */
    ghost predicate Published(published: map<bytes, bytes>, k: nat)
      reads this
    {
      && k <= |files|
      && (forall n :: n in published ==> exists i :: 0 <= i < k && files[i].name == n)
      && forall i :: 0 <= i < k ==>
           && (files[i].name in published <==> Restorable(job, Needed(job, files), files[i]))
           && (files[i].name in published ==> AllVerified(job, files[i].chunks) && published[files[i].name] == Content(job, files[i].chunks))
    }
  }

  // ---- Which packs to read ----

  method GroupByPack(chunks: seq<ChunkLocation>, keys: set<nat>) returns (byPack: map<nat, seq<nat>>)
    requires forall n :: n in keys ==> n < |chunks|
    ensures forall p :: p in byPack ==> Distinct(byPack[p]) && forall n :: n in byPack[p] ==> n in keys && chunks[n].packOffset == p
    ensures forall n :: n in keys ==> chunks[n].packOffset in byPack && n in byPack[chunks[n].packOffset]
  {
    byPack := map[];
    var todo := keys;
    while todo != {}
      invariant todo <= keys
      invariant forall p :: p in byPack ==> Distinct(byPack[p]) && forall n :: n in byPack[p] ==> n in keys - todo && chunks[n].packOffset == p
      invariant forall n :: n in keys - todo ==> chunks[n].packOffset in byPack && n in byPack[chunks[n].packOffset]
      decreases todo
    {
      var n :| n in todo;
      todo := todo - {n};
      var p := chunks[n].packOffset;
      byPack := byPack[p := (if p in byPack then byPack[p] else []) + [n]];
    }
  }

  /** The keys in ascending order. */
  method SortKeys(keys: set<nat>) returns (r: seq<nat>)
    ensures Distinct(r) && forall n :: n in r <==> n in keys
    ensures forall i, j :: 0 <= i < j < |r| ==> r[i] < r[j]
  {
    r := [];
    var todo := keys;
    while todo != {}
      invariant todo <= keys && forall n :: n in r <==> n in keys - todo
      invariant forall i, j :: 0 <= i < j < |r| ==> r[i] < r[j]
      decreases todo
    {
      var n :| n in todo;
      todo := todo - {n};
      var at := 0;
      while at < |r| && r[at] < n
        invariant 0 <= at <= |r| && forall i :: 0 <= i < at ==> r[i] < n
      {
        at := at + 1;
      }
      assert n !in r;
      Inserted(r, at, n);
      r := r[..at] + [n] + r[at..];
    }
  }

  lemma Inserted(r: seq<nat>, at: nat, n: nat)
    requires at <= |r|
    ensures forall x :: x in r[..at] + [n] + r[at..] <==> x in r || x == n
  {
    assert r == r[..at] + r[at..];
  }

  method SortByOffset(chunks: seq<ChunkLocation>, ns: seq<nat>) returns (r: seq<nat>)
    requires Distinct(ns) && forall i :: 0 <= i < |ns| ==> ns[i] < |chunks|
    ensures ByOffset(chunks, r) && Distinct(r) && forall n :: n in r <==> n in ns
  {
    hide ByOffset;
    r := [];
    NoneByOffset(chunks);
    for i := 0 to |ns|
      invariant ByOffset(chunks, r) && Distinct(r) && forall n :: n in r <==> n in ns[..i]
    {
      assert ns[i] !in ns[..i];
      r := InsertByOffset(chunks, r, ns[i]);
      assert ns[..i + 1] == ns[..i] + [ns[i]];
    }
    assert ns[..|ns|] == ns;
  }

  lemma NoneByOffset(chunks: seq<ChunkLocation>)
    ensures ByOffset(chunks, [])
  {
  }

  method InsertByOffset(chunks: seq<ChunkLocation>, ns: seq<nat>, n: nat) returns (r: seq<nat>)
    requires ByOffset(chunks, ns) && Distinct(ns) && n < |chunks| && n !in ns
    ensures ByOffset(chunks, r) && Distinct(r) && forall x :: x in r <==> x in ns || x == n
  {
    var at := 0;
    while at < |ns| && chunks[ns[at]].offset <= chunks[n].offset
      invariant 0 <= at <= |ns| && forall j :: 0 <= j < at ==> chunks[ns[j]].offset <= chunks[n].offset
    {
      at := at + 1;
    }
    Inserted(ns, at, n);
    r := ns[..at] + [n] + ns[at..];
  }
}
