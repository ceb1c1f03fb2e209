/** Undoing a failed update: appendSession puts the old end of the file back over whatever part
    of the new session was written, then cuts the file to its old length
    (io/incremental_write.go). Which crash points of that keep the archive readable. */
module Undo {
  import opened Bytes
  import opened Format
  import opened ArchiveFile
  import opened LogReading
  import opened ChunkStore
  import opened CrashSafety
  import SI = SessionIndex

  /** How far a write got that is followed by a truncation and a sync: it failed after some
      bytes, or the truncation did after all of them; or the file was cut and the sync failed. */
  datatype Progress = Part(bytes: nat) | Cut

  /** How many bytes of `log`'s last session and its tail were written. */
  function Written(h: Pos, log: seq<Session>, at: Progress): (k: nat)
    requires log != []
    ensures k <= |NewCells(h, log)|
  {
    match at case Part(bytes) => Min(bytes, |NewCells(h, log)|) case Cut => |NewCells(h, log)|
  }

  /** The file when the undo begins. */
  function Begun(d: Disk, h: Pos, log: seq<Session>, at: Progress): (m: Disk)
    requires |log| >= 2 && |LogCells(h, Front(log))| <= |d.cells|
    ensures |LogCells(h, Front(log))| <= |m.cells|
  {
    var k := Written(h, log, at);
    var m := During(d, h, log, k);
    if at.Cut? then m.(cells := m.cells[..|LogCells(h, Front(log))| + k]) else m
  }

  /** The file after the first `j` bytes of what had followed the old log were put back. */
  function Undoing(d: Disk, h: Pos, log: seq<Session>, at: Progress, j: nat): Disk
    requires |log| >= 2 && |LogCells(h, Front(log))| + j <= |d.cells|
  {
    var end, m := |LogCells(h, Front(log))|, Begun(d, h, log, at);
    m.(cells := Overwrite(m.cells, end, d.cells[end..end + j]))
  }

  lemma UndoCells(d: Disk, h: Pos, log: seq<Session>, at: Progress, j: nat)
    requires |log| >= 2 && |LogCells(h, Front(log))| + j <= |d.cells|
    ensures var cells, end, k := Undoing(d, h, log, at, j).cells, |LogCells(h, Front(log))|, Written(h, log, at);
            && |cells| == Max(if at.Cut? then end + j else |d.cells|, end + k)
            && forall t :: 0 <= t < |cells| ==> cells[t] == if t < end + j || t >= end + k then d.cells[t] else NewCells(h, log)[t - end]
    ensures Undoing(d, h, log, at, j).count == d.count
  {
    hide *;
    UndoAsCells(d, h, log, at, j);
    OverwriteTwice(d.cells, |LogCells(h, Front(log))|, NewCells(h, log), Written(h, log, at), at.Cut?, j);
  }

  /** `k` bytes of `x` over what follows `end`, the file perhaps cut behind them, and then `j`
      bytes put back. */
  function TwiceOver(cells: seq<Cell>, end: nat, x: seq<Cell>, k: nat, cut: bool, j: nat): seq<Cell>
    requires end + j <= |cells| && k <= |x|
  {
    var mid := Overwrite(cells, end, x[..k]);
    Overwrite(if cut then mid[..end + k] else mid, end, cells[end..end + j])
  }

  lemma UndoAsCells(d: Disk, h: Pos, log: seq<Session>, at: Progress, j: nat)
    requires |log| >= 2 && |LogCells(h, Front(log))| + j <= |d.cells|
    ensures Undoing(d, h, log, at, j) ==
              d.(cells := TwiceOver(d.cells, |LogCells(h, Front(log))|, NewCells(h, log), Written(h, log, at), at.Cut?, j))
  {
    hide LogCells, NewCells, Overwrite, Written;
  }

  lemma OverwriteTwice(cells: seq<Cell>, end: nat, x: seq<Cell>, k: nat, cut: bool, j: nat)
    requires end + j <= |cells| && k <= |x|
    ensures var r := TwiceOver(cells, end, x, k, cut, j);
            && |r| == Max(if cut then end + j else |cells|, end + k)
            && forall t :: 0 <= t < |r| ==> r[t] == if t < end + j || t >= end + k then cells[t] else x[t - end]
  {
    hide Overwrite;
    var all := Overwrite(cells, end, x[..k]);
    var mid := if cut then all[..end + k] else all;
    var r := TwiceOver(cells, end, x, k, cut, j);
    forall t | 0 <= t < end ensures r[t] == cells[t] {
      assert r[t] == r[..end][t] == mid[..end][t] == all[..end][t] == cells[..end][t];
    }
  }

  /** A failed update leaves the file as it was, byte for byte. */
  lemma UndoRestores(d: Disk, h: Pos, log: seq<Session>, at: Progress)
    requires |log| >= 2 && |LogCells(h, Front(log))| <= |d.cells|
    ensures var u := Undoing(d, h, log, at, |d.cells| - |LogCells(h, Front(log))|);
            |u.cells| >= |d.cells| && u.(cells := u.cells[..|d.cells|]) == d
  {
    hide LogCells, NewCells, Undoing;
    UndoCells(d, h, log, at, |d.cells| - |LogCells(h, Front(log))|);
  }

  // ---- What a reader gets ----

  predicate PackAt(cells: seq<Cell>, p: nat, payload: bytes)
  {
    ReadAt(cells, p).Some? && ReadAt(cells, p).value.Pack? && ReadAt(cells, p).value.payload == payload
  }

  /** A load gave the log's newest state. */
  predicate IsState(st: Option<State>, h: Pos, log: seq<Session>)
  {
    st.Some? && st.value.sessions == |log| && Some(st.value.contents) == Replay(h, log)
  }

  /** The file loads as the log's newest state, and every pack of the log reads. */
  ghost predicate Serves(d: Disk, h: Pos, log: seq<Session>)
    requires ValidLog(h, log)
  {
    && IsState(Load(d, h), h, log)
    && forall p :: p in PacksOf(h, log) ==> PackAt(d.cells[..Proper(d.cells)], p, PacksOf(h, log)[p])
  }

  lemma SafeServes(d: Disk, h: Pos, log: seq<Session>)
    requires Safe(d, h, log)
    ensures ValidLog(h, log) && Serves(d, h, log)
  {
    hide SI.WellFormed, SI.Marshal, SI.Encode, LogCells, ReadAt, Scan, ReadCheckpoint, Proper, Load, Guarded, Replay;
    SafeLoads(d, h, log);
    AppliesChain(h, log);
    var cells := d.cells[..Proper(d.cells)];
    forall p | p in PacksOf(h, log) ensures PackAt(cells, p, PacksOf(h, log)[p]) {
      PackReads(h, log, p);
      ReadAtPrefix(LogCells(h, log), cells, p);
    }
  }

  // ---- The conditions ----

  /** Of a session of `e` bytes and its tail, `k` bytes were written over `rest` bytes that
      followed the old log: a complete new tail lies at the very end of the file. */
  predicate TailComplete(k: nat, e: nat, rest: nat)
  {
    Max(k, rest) == e + TAIL_SIZE && k > rest - SIGNATURE_TRAILER_SIZE
  }

  /** The new session is in place: its tail is complete at the end of the file, or the file was
      already cut behind it. */
  predicate InPlace(d: Disk, h: Pos, log: seq<Session>, at: Progress)
    requires |log| >= 2 && |LogCells(h, Front(log))| <= |d.cells|
  {
    at.Cut? || TailComplete(Written(h, log, at), |EncodeAll(Entries(Last(log)))|, |d.cells| - |LogCells(h, Front(log))|)
  }

  /** A loader would take a checkpoint at `off`, if the file ended with its tail. */
  predicate Takes(cells: seq<Cell>, h: nat, off: nat)
  {
    && ReadAt(cells, off).Some? && ReadAt(cells, off).value.Checkpoint?
    && off + CHECKPOINT_SIZE < |cells| && cells[off + CHECKPOINT_SIZE] == Cell(EndMarker, 0)
    && h <= ReadAt(cells, off).value.lastIndex < off
  }

  /** Where the loader looks for a checkpoint while the new bytes reach the end of the file. */
  function TailPlace(d: Disk, end: nat, k: nat): int
    requires end <= |d.cells|
  {
    Max(|d.cells|, end + k) - TAIL_SIZE
  }

  /** Once the old signature trailer is gone, a complete checkpoint left behind the old tail
      lies where the loader looks for one. */
  predicate Stale(d: Disk, h: Pos, end: nat, k: nat)
    requires end <= |d.cells|
  {
    end + k > |d.cells| - SIGNATURE_TRAILER_SIZE && TailPlace(d, end, k) > end && Takes(d.cells, h, TailPlace(d, end, k))
  }

  /** What makes the undo of a write of `log`'s last session that got as far as `at` unsafe. */
  predicate Exposed(d: Disk, h: Pos, log: seq<Session>, at: Progress)
    requires |log| >= 2
  {
    var end := |LogCells(h, Front(log))|;
    end <= |d.cells| && (InPlace(d, h, log, at) || Stale(d, h, end, Written(h, log, at)))
  }

  /** A file as its last write left it has no stale checkpoint. */
  lemma IntactIsNotStale(d: Disk, h: Pos, log: seq<Session>, sig: Option<Pos>, k: nat)
    requires Intact(d, h, log, sig)
    ensures !Stale(d, h, |LogCells(h, log)|, k)
  {
    hide SI.WellFormed, SI.Marshal, SI.Encode, LogCells, ValidLog, IndexOffset, Rest, ReadAt;
    var end, p := |LogCells(h, log)|, TailPlace(d, |LogCells(h, log)|, k);
    if end < p < |d.cells| {
      assert d.cells[p] == Rest(h, log, sig)[p - end];
    }
  }

  // ---- Before the new session is in place ----

  /** Until the new bytes are gone again, the old trailer counts only if it was not reached. */
  lemma UndoProper(d: Disk, h: Pos, log: seq<Session>, at: Progress, j: nat)
    requires |log| >= 2 && ValidLog(h, log) && Accepted(d, h, Front(log)) && at.Part?
    requires j < Written(h, log, at) && |LogCells(h, Front(log))| + j <= |d.cells|
    ensures var cells, end := Undoing(d, h, log, at, j).cells, |LogCells(h, Front(log))|;
            if end + Written(h, log, at) <= |d.cells| - SIGNATURE_TRAILER_SIZE
            then Proper(cells) == Proper(d.cells) && |cells| == |d.cells|
            else Proper(cells) == |cells|
  {
    hide SI.WellFormed, SI.Marshal, SI.Encode, LogCells, ValidLog, NewCells, Undoing, Proper, ReadCheckpoint, Written;
    var cells, end, k := Undoing(d, h, log, at, j).cells, |LogCells(h, Front(log))|, Written(h, log, at);
    UndoCells(d, h, log, at, j);
    NewCellsKinds(h, log);
    assert cells[end + k - 1] == NewCells(h, log)[k - 1];
    if end + k <= |d.cells| - SIGNATURE_TRAILER_SIZE {
      SameEnd(cells, d.cells);
    } else if Proper(cells) != |cells| {
      TrailerCells(cells);
    }
  }

  /** Where the loader looks, the new bytes never help to make a checkpoint. */
  lemma OldCheckpoint(d: Disk, h: Pos, log: seq<Session>, at: Progress, j: nat)
    requires |log| >= 2 && ValidLog(h, log) && Accepted(d, h, Front(log)) && at.Part?
    requires 0 < j < Written(h, log, at) && |LogCells(h, Front(log))| + j <= |d.cells| && !InPlace(d, h, log, at)
    requires |LogCells(h, Front(log))| + Written(h, log, at) > |d.cells| - SIGNATURE_TRAILER_SIZE
    requires TailPlace(d, |LogCells(h, Front(log))|, Written(h, log, at)) > |LogCells(h, Front(log))|
    ensures var cells, end := Undoing(d, h, log, at, j).cells, |LogCells(h, Front(log))|;
            var p := TailPlace(d, end, Written(h, log, at));
            && ReadCheckpoint(cells, h).Some? == (Takes(d.cells, h, p) && end + j > p + CHECKPOINT_SIZE)
            && (ReadCheckpoint(cells, h).Some? ==> ReadCheckpoint(cells, h).value == Found(ReadAt(d.cells, p).value.lastIndex, p))
  {
    hide SI.WellFormed, SI.Marshal, SI.Encode, LogCells, ValidLog, NewCells, Undoing, Proper, EncodeAll, Written, ReadCheckpoint;
    var cells, end, k := Undoing(d, h, log, at, j).cells, |LogCells(h, Front(log))|, Written(h, log, at);
    UndoCells(d, h, log, at, j);
    NewCellsKinds(h, log);
    AcceptedIsSafe(d, h, Front(log));
    NewAreNotCheckpoint(h, log);
    MixedCheckpoint(cells, d.cells, NewCells(h, log), h, end, |EncodeAll(Entries(Last(log)))|, k, j);
  }

  lemma NewAreNotCheckpoint(h: Pos, log: seq<Session>)
    requires log != [] && ValidLog(h, log)
    ensures var x, e := NewCells(h, log), |EncodeAll(Entries(Last(log)))|;
            forall i :: 0 <= i < |x| ==>
              && (x[i].obj.Checkpoint? ==> i >= e && x[i].k == i - e)
              && (x[i].obj == EndMarker ==> i == e + CHECKPOINT_SIZE)
  {
    hide SI.WellFormed, SI.Marshal, SI.Encode, LogCells, IndexOffset, Replay, EncodeAll, ValidLog;
    SessionCells(h, log);
    var x, es := NewCells(h, log), EncodeAll(Entries(Last(log)));
    forall i | 0 <= i < |es| ensures IsEntry(x[i]) { assert x[i] == es[i]; }
  }

  lemma MixedCheckpoint(cells: seq<Cell>, was: seq<Cell>, x: seq<Cell>, h: Pos, end: nat, e: nat, k: nat, j: nat)
    requires 0 < j < k <= |x| && end + j <= |was| && h <= end && end + TAIL_SIZE <= |was|
    requires |cells| == Max(|was|, end + k) && end + k > |was| - SIGNATURE_TRAILER_SIZE
    requires forall t :: 0 <= t < |cells| ==> cells[t] == if t < end + j || t >= end + k then was[t] else x[t - end]
    requires forall i :: 0 <= i < |x| ==>
               && (x[i].obj.Checkpoint? ==> i >= e && x[i].k == i - e)
               && (x[i].obj == EndMarker ==> i == e + CHECKPOINT_SIZE)
    requires end < |cells| - TAIL_SIZE != end + e
    ensures var p := |cells| - TAIL_SIZE;
            && ReadCheckpoint(cells, h).Some? == (Takes(was, h, p) && end + j > p + CHECKPOINT_SIZE)
            && (ReadCheckpoint(cells, h).Some? ==> ReadCheckpoint(cells, h).value == Found(ReadAt(was, p).value.lastIndex, p))
  {
    hide ReadAt;
    var p := |cells| - TAIL_SIZE;
    if end + j > p + CHECKPOINT_SIZE {
      SameReads(cells, was, p, end + j);
    } else {
      var t := Max(p, end + j);
      assert cells[t] == x[t - end];
      if t < p + CHECKPOINT_SIZE && ReadAt(cells, p).Some? && ReadAt(cells, p).value.Checkpoint? {
        ReadAtCells(cells, p);
      }
    }
  }

  /** A short object reads alike in files that agree up to `to`. */
  lemma SameReads(a: seq<Cell>, b: seq<Cell>, off: nat, to: nat)
    requires off + CHECKPOINT_SIZE <= to <= |a| && to <= |b| && forall t :: 0 <= t < to ==> a[t] == b[t]
    ensures (ReadAt(a, off).Some? && ReadAt(a, off).value.Checkpoint?) || (ReadAt(b, off).Some? && ReadAt(b, off).value.Checkpoint?) ==>
              ReadAt(a, off) == ReadAt(b, off)
  {
    assert a[off..off + CHECKPOINT_SIZE] == b[off..off + CHECKPOINT_SIZE];
  }

  /** A crash point of an undo before the new session was in place: the old archive stands. */
  lemma UndoCrashPoint(d: Disk, h: Pos, log: seq<Session>, at: Progress, j: nat)
    requires |log| >= 2 && ValidLog(h, log) && Accepted(d, h, Front(log))
    requires 0 < j && |LogCells(h, Front(log))| + j <= |d.cells| && !InPlace(d, h, log, at)
    requires Stale(d, h, |LogCells(h, Front(log))|, Written(h, log, at)) ==>
               |LogCells(h, Front(log))| + j <= TailPlace(d, |LogCells(h, Front(log))|, Written(h, log, at)) + CHECKPOINT_SIZE
    ensures Safe(Undoing(d, h, log, at, j), h, Front(log))
  {
    hide SI.WellFormed, SI.Marshal, SI.Encode, LogCells, ValidLog, IndexOffset, NewCells, Undoing, Proper, ReadCheckpoint, EncodeAll, Scan, TailComplete, Written, Takes, ReadAt;
    var u, base, k := Undoing(d, h, log, at, j), LogCells(h, Front(log)), Written(h, log, at);
    var cells, end := u.cells, |base|;
    UndoCells(d, h, log, at, j);
    AcceptedIsSafe(d, h, Front(log));
    AcceptedStart(d, h, Front(log));
    if j >= k {
      SameCells(cells, d.cells);
      assert u == d;
    } else {
      UndoProper(d, h, log, at, j);
      if end + k > |d.cells| - SIGNATURE_TRAILER_SIZE && |cells| > end + TAIL_SIZE {
        OldCheckpoint(d, h, log, at, j);
      }
      assert cells[..|cells|] == cells;
      assert base <= cells by { assert cells[..end] == d.cells[..end]; }
      ScanStops(cells[..Proper(cells)], end, Some(FoundIn(h, Front(log))));
      OwnCheckpointSeen(cells[..Proper(cells)], h, Front(log));
      Locate(u, h, Front(log));
    }
  }

  /** Every crash point of an undo that is not exposed, the beginning included. */
  lemma UndoKeeps(d: Disk, h: Pos, log: seq<Session>, at: Progress, j: nat)
    requires |log| >= 2 && ValidLog(h, log) && Accepted(d, h, Front(log))
    requires |LogCells(h, Front(log))| + j <= |d.cells| && !Exposed(d, h, log, at)
    ensures var u := Undoing(d, h, log, at, j);
            Safe(u, h, Front(log)) || (j == 0 && Written(h, log, at) >= |EncodeAll(Entries(Last(log)))| && Safe(u, h, log))
  {
    hide SI.WellFormed, SI.Marshal, SI.Encode, LogCells, NewCells, Stale, EncodeAll, Accepted, Safe, Replay, TailComplete;
    if j == 0 {
      var mid := During(d, h, log, Written(h, log, at)).cells;
      SameCells(Overwrite(mid, |LogCells(h, Front(log))|, []), mid);
      UpdateCrashPoint(d, h, log, Written(h, log, at));
    } else {
      UndoCrashPoint(d, h, log, at, j);
    }
  }

  // ---- After the new session was in place ----

  /** The new session with its tail at the end of the file, and the first byte put back. */
  predicate Stripped(u: Disk, h: Pos, log: seq<Session>, k: nat)
    requires |log| >= 2
  {
    var base, e := LogCells(h, Front(log)), |EncodeAll(Entries(Last(log)))|;
    && e + CHECKPOINT_SIZE < k <= |NewCells(h, log)| && u.count <= |log|
    && Proper(u.cells) == |u.cells| == |base| + e + TAIL_SIZE
    && base <= u.cells && IsStart(u.cells[|base|])
    && forall i :: 0 < i < k ==> u.cells[|base| + i] == NewCells(h, log)[i]
  }

  lemma UndoStrips(d: Disk, h: Pos, log: seq<Session>, at: Progress)
    requires |log| >= 2 && ValidLog(h, log) && Accepted(d, h, Front(log))
    requires |LogCells(h, Front(log))| <= |d.cells| && InPlace(d, h, log, at)
    ensures |LogCells(h, Front(log))| + 1 <= |d.cells| && Stripped(Undoing(d, h, log, at, 1), h, log, Written(h, log, at))
  {
    hide SI.WellFormed, SI.Marshal, SI.Encode, LogCells, ValidLog, NewCells, Undoing, Proper, EncodeAll, Accepted, Safe, IsEntry;
    AcceptedStart(d, h, Front(log));
    var u, base := Undoing(d, h, log, at, 1), LogCells(h, Front(log));
    AcceptedHasLog(d, h, Front(log));
    NewCellsKinds(h, log);
    UndoCells(d, h, log, at, 1);
    assert base <= u.cells by { assert u.cells[..|base|] == d.cells[..|base|]; }
    StrippedEnd(d, h, log, at);
  }

  lemma StrippedEnd(d: Disk, h: Pos, log: seq<Session>, at: Progress)
    requires |log| >= 2 && ValidLog(h, log) && Accepted(d, h, Front(log))
    requires |LogCells(h, Front(log))| + 1 <= |d.cells| && InPlace(d, h, log, at)
    ensures var cells := Undoing(d, h, log, at, 1).cells; Proper(cells) == |cells|
  {
    hide SI.WellFormed, SI.Marshal, SI.Encode, LogCells, ValidLog, NewCells, Undoing, Proper, EncodeAll, Accepted, IsEntry, IsStart;
    NewCellsKinds(h, log);
    UndoCells(d, h, log, at, 1);
    if at.Part? {
      UndoProper(d, h, log, at, 1);
    } else {
      var cells := Undoing(d, h, log, at, 1).cells;
      assert cells[|cells| - 1] == NewCells(h, log)[|NewCells(h, log)| - 1];
      if Proper(cells) != |cells| {
        TrailerCells(cells);
      }
    }
  }

  /** The loader still takes the new tail. */
  lemma NewTailTaken(u: Disk, h: Pos, log: seq<Session>, k: nat)
    requires |log| >= 2 && Stripped(u, h, log, k)
    ensures ReadCheckpoint(u.cells, h) == Some(FoundIn(h, log))
  {
    hide SI.WellFormed, SI.Marshal, SI.Encode, LogCells, IndexOffset, NewCells, Proper, EncodeAll, TailCells, ReadAt;
    LogCellsSnoc(h, log);
    IndexInside(h, log);
    NewTailInPlace(u, h, log, k);
    TornTailReads(u.cells[..|LogCells(h, log)|], IndexOffset(h, log), k - |EncodeAll(Entries(Last(log)))|, u.cells);
  }

  lemma NewTailInPlace(u: Disk, h: Pos, log: seq<Session>, k: nat)
    requires |log| >= 2 && Stripped(u, h, log, k)
    ensures var e := |EncodeAll(Entries(Last(log)))|;
            u.cells[..|LogCells(h, Front(log))| + e] + TailCells(IndexOffset(h, log))[..k - e] <= u.cells
  {
    hide SI.WellFormed, SI.Marshal, SI.Encode, LogCells, IndexOffset, NewCells, Proper, EncodeAll, TailCells, IsStart;
    TailBehind(h, log);
    EntriesNotEmpty(Last(log));
    var t, e, end := TailCells(IndexOffset(h, log)), |EncodeAll(Entries(Last(log)))|, |LogCells(h, Front(log))|;
    forall i | 0 <= i < k - e ensures u.cells[end + e + i] == t[i] {
      assert u.cells[end + (e + i)] == NewCells(h, log)[e + i];
    }
    StartsWith(u.cells, end + e, t[..k - e]);
  }

  lemma EntriesNotEmpty(s: Session)
    ensures |EncodeAll(Entries(s))| > 0
  {
    hide SI.Encode;
    EntriesEncoded(s);
  }

  lemma StartsWith(cells: seq<Cell>, at: nat, t: seq<Cell>)
    requires at + |t| <= |cells| && forall i :: 0 <= i < |t| ==> cells[at + i] == t[i]
    ensures cells[..at] + t <= cells
  {
  }

  lemma TailBehind(h: Pos, log: seq<Session>)
    requires log != []
    ensures var e := |EncodeAll(Entries(Last(log)))|;
            forall i :: 0 <= i < TAIL_SIZE ==> NewCells(h, log)[e + i] == TailCells(IndexOffset(h, log))[i]
  {
    hide EncodeAll, TailCells, IndexOffset;
  }

  lemma TornTailReads(pre: seq<Cell>, last: nat, n: nat, cells: seq<Cell>)
    requires CHECKPOINT_SIZE < n <= TAIL_SIZE && pre + TailCells(last)[..n] <= cells
    ensures ReadAt(cells, |pre|) == Some(Checkpoint(last)) && cells[|pre| + CHECKPOINT_SIZE] == Cell(EndMarker, 0)
  {
    var c := Encode(Checkpoint(last));
    var post := TailCells(last)[..n][CHECKPOINT_SIZE..];
    assert TailCells(last)[..n] == c + post;
    assert pre + TailCells(last)[..n] == pre + c + post;
    ReadAtEncoded(pre, Checkpoint(last), post);
    ReadAtPrefix(pre + c + post, cells, |pre|);
    assert cells[|pre| + CHECKPOINT_SIZE] == (pre + c + post)[|pre| + CHECKPOINT_SIZE];
  }

  /** What starts where the old log ended is no longer the new session's first entry. */
  lemma FirstEntryGone(u: Disk, h: Pos, log: seq<Session>, k: nat)
    requires |log| >= 2 && Stripped(u, h, log, k)
    ensures var r := ReadAt(u.cells, |LogCells(h, Front(log))|); r.Some? ==> r.value.Checkpoint?
  {
    hide SI.WellFormed, SI.Marshal, SI.Encode, LogCells, NewCells, Proper;
  }

  /** A session without packs: its index is gone, and the file does not load at all. */
  lemma BareSessionLost(u: Disk, h: Pos, log: seq<Session>, k: nat)
    requires |log| >= 2 && Stripped(u, h, log, k) && Last(log).packs == []
    ensures Load(u, h).None?
  {
    hide SI.WellFormed, SI.Marshal, SI.Encode, LogCells, NewCells, Proper, ReadCheckpoint, Scan, ApplyChain;
    NewTailTaken(u, h, log, k);
    FirstEntryGone(u, h, log, k);
    assert u.cells[..|u.cells|] == u.cells;
    assert IndexOffset(h, log) == |LogCells(h, Front(log))|;
  }

  /** The new session's index still reads, if packs lie before it. */
  lemma IndexStillReads(u: Disk, h: Pos, log: seq<Session>, k: nat)
    requires |log| >= 2 && ValidLog(h, log) && Stripped(u, h, log, k) && Last(log).packs != []
    ensures ReadAt(u.cells, IndexOffset(h, log)) == Some(IndexObj(Last(log)))
    ensures IndexOffset(h, log) > |LogCells(h, Front(log))|
  {
    hide SI.WellFormed, SI.Marshal, SI.Encode, LogCells, ValidLog, NewCells, Proper, EncodeAll, Encode, ReadAt;
    var s, end, off := Last(log), |LogCells(h, Front(log))|, IndexOffset(h, log);
    EntriesEncoded(s);
    SomePack(h, log);
    SessionInNewCells(h, log);
    forall i | 0 <= i < s.size ensures u.cells[off + i] == Encode(IndexObj(s))[i] {
      assert u.cells[end + (off - end + i)] == NewCells(h, log)[off - end + i];
    }
    ReadsThere(u.cells, off, IndexObj(s));
  }

  lemma ReadsThere(cells: seq<Cell>, off: nat, o: Obj)
    requires off + Size(o) <= |cells| && forall i :: 0 <= i < Size(o) ==> cells[off + i] == Encode(o)[i]
    ensures ReadAt(cells, off) == Some(o)
  {
    assert cells[off..off + Size(o)] == Encode(o);
    assert cells[off] == Encode(o)[0];
  }

  lemma SomePack(h: Pos, log: seq<Session>)
    requires log != [] && ValidLog(h, log) && Last(log).packs != []
    ensures |EncodeAll(Last(log).packs)| > 0
  {
    hide SI.WellFormed, SI.Marshal, SI.Encode, LogCells, Replay;
  }

  lemma SessionInNewCells(h: Pos, log: seq<Session>)
    requires log != []
    ensures var es := EncodeAll(Last(log).packs) + Encode(IndexObj(Last(log)));
            |es| == |EncodeAll(Entries(Last(log)))| && forall i :: 0 <= i < |es| ==> NewCells(h, log)[i] == es[i]
  {
    hide SI.Encode, EncodeAll, Encode, TailCells, IndexOffset;
    EntriesEncoded(Last(log));
  }

  /** A session with packs: the file loads as the new state, but its first pack is gone. */
  lemma FirstPackLost(u: Disk, h: Pos, log: seq<Session>, k: nat)
    requires |log| >= 2 && ValidLog(h, log) && Stripped(u, h, log, k) && Last(log).packs != []
    ensures var end := |LogCells(h, Front(log))|;
            && Load(u, h) == Some(StateOf(h, log, false))
            && end in PacksOf(h, log) && !PackAt(u.cells[..Proper(u.cells)], end, PacksOf(h, log)[end])
  {
    hide SI.WellFormed, SI.Marshal, SI.Encode, SI.Parse, LogCells, IndexOffset, NewCells, Proper, ReadCheckpoint, Scan, ApplyChain, Apply, Replay, EncodeAll, ReadAt, ChainOf;
    NewTailTaken(u, h, log, k);
    FirstEntryGone(u, h, log, k);
    IndexStillReads(u, h, log, k);
    IndexParses(Last(log));
    assert u.cells[..|u.cells|] == u.cells;
    ReadsChain(h, Front(log), u.cells);
    NewestInChain(h, Front(log));
    NewestInChain(h, log);
    IndexInside(h, Front(log));
    ChainGrows(h, log);
    AppliesChain(h, log);
    FirstPackPlaced(h, log);
  }

  lemma ChainGrows(h: Pos, log: seq<Session>)
    requires log != []
    ensures ChainOf(h, log) == ChainOf(h, Front(log)) + [Link(Last(log).index, IndexOffset(h, log))]
  {
  }

  lemma FirstPackPlaced(h: Pos, log: seq<Session>)
    requires log != [] && ValidLog(h, log) && Last(log).packs != []
    ensures |LogCells(h, Front(log))| in PacksOf(h, log)
  {
    hide SI.WellFormed, SI.Marshal, SI.Encode, LogCells, Replay, EncodeAll;
  }

  /** So neither the old nor the new archive is served. */
  lemma StrippedBreaks(u: Disk, h: Pos, log: seq<Session>, k: nat)
    requires |log| >= 2 && ValidLog(h, log) && Stripped(u, h, log, k)
    ensures !Serves(u, h, Front(log)) && !Serves(u, h, log)
  {
    hide SI.WellFormed, SI.Marshal, SI.Encode, LogCells, NewCells, Proper, Load, PacksOf, Replay, PackAt, Stripped;
    if Last(log).packs == [] {
      BareSessionLost(u, h, log, k);
    } else {
      FirstPackLost(u, h, log, k);
    }
  }

  // ---- What a stale checkpoint leads to ----

  /** What loading gives from the checkpoint or scan result `f`. */
  function StateFrom(cells: seq<Cell>, h: nat, count: nat, f: Found): Option<State>
  {
    match ReadChain(cells, h, f.lastIndex) case None => None case Some(ls) =>
    var newest := Last(ls).index.session;
    if newest < count then None else
    ChainParsed(cells, h, f.lastIndex);
    match ApplyChain(ls, h) case None => None case Some(c) =>
    Some(State(newest, f, false, c))
  }

  lemma LoadsFrom(d: Disk, h: nat)
    requires Proper(d.cells) == |d.cells| && ReadCheckpoint(d.cells, h).Some?
    ensures Load(d, h) == StateFrom(d.cells, h, d.count, ReadCheckpoint(d.cells, h).value)
  {
    hide Proper, ReadCheckpoint, Scan, ReadChain, ApplyChain;
    assert d.cells[..|d.cells|] == d.cells;
  }

  /** Files that agree up to and including the first byte of some object at `m` agree on every
      object that starts before it. */
  lemma SameBefore(a: seq<Cell>, b: seq<Cell>, m: nat, off: nat)
    requires off < m < |a| && m < |b| && a[m].k == 0 && forall t :: 0 <= t <= m ==> a[t] == b[t]
    ensures ReadAt(a, off) == ReadAt(b, off)
  {
    var n := Size(a[off].obj);
    if off + n <= m {
      assert a[off..off + n] == b[off..off + n];
    } else {
      if ReadAt(a, off).Some? { ReadAtCells(a, off); }
      if ReadAt(b, off).Some? { ReadAtCells(b, off); }
    }
  }

  lemma {:induction false} SameChain(a: seq<Cell>, b: seq<Cell>, m: nat, h: nat, off: nat)
    requires off < m < |a| && m < |b| && a[m].k == 0 && forall t :: 0 <= t <= m ==> a[t] == b[t]
    ensures ReadChain(a, h, off) == ReadChain(b, h, off)
    decreases off
  {
    hide ReadAt, SI.Parse, SI.WellFormed;
    SameBefore(a, b, m, off);
    var x := ReadIndexAt(a, off);
    if x.Some? && x.value.session != 1 && h <= x.value.prevIndex < off {
      SameChain(a, b, m, h, x.value.prevIndex);
    }
  }

  lemma SameState(a: seq<Cell>, b: seq<Cell>, h: nat, count: nat, f: Found)
    requires f.lastIndex < f.tail < |a| && f.tail < |b| && a[f.tail].k == 0 && forall t :: 0 <= t <= f.tail ==> a[t] == b[t]
    ensures StateFrom(a, h, count, f) == StateFrom(b, h, count, f)
  {
    hide ReadChain, ApplyChain;
    SameChain(a, b, f.tail, h, f.lastIndex);
  }

  function StaleFound(d: Disk, h: Pos, end: nat, k: nat): Found
    requires end <= |d.cells| && Stale(d, h, end, k)
  {
    var p := TailPlace(d, end, k);
    Found(ReadAt(d.cells, p).value.lastIndex, p)
  }

  /** The stale checkpoint leads to the old archive, or to the new one and that has no packs. */
  predicate LeadsHome(d: Disk, h: Pos, log: seq<Session>, k: nat)
    requires |log| >= 2 && |LogCells(h, Front(log))| <= |d.cells| && Stale(d, h, |LogCells(h, Front(log))|, k)
  {
    var st := StateFrom(d.cells, h, d.count, StaleFound(d, h, |LogCells(h, Front(log))|, k));
    IsState(st, h, Front(log)) || (Last(log).packs == [] && IsState(st, h, log))
  }

  /** While the undo has put the stale checkpoint back but is not done, that is what loads. */
  lemma StaleLoads(d: Disk, h: Pos, log: seq<Session>, at: Progress, j: nat)
    requires |log| >= 2 && ValidLog(h, log) && Accepted(d, h, Front(log)) && |LogCells(h, Front(log))| + j <= |d.cells|
    requires !InPlace(d, h, log, at) && Stale(d, h, |LogCells(h, Front(log))|, Written(h, log, at))
    requires TailPlace(d, |LogCells(h, Front(log))|, Written(h, log, at)) + CHECKPOINT_SIZE < |LogCells(h, Front(log))| + j
    requires j < Written(h, log, at)
    ensures var u, end := Undoing(d, h, log, at, j), |LogCells(h, Front(log))|;
            && Load(u, h) == StateFrom(d.cells, h, d.count, StaleFound(d, h, end, Written(h, log, at)))
            && LogCells(h, Front(log)) <= u.cells && Proper(u.cells) == |u.cells|
            && !ReadsPack(u.cells, end)
  {
    hide SI.WellFormed, SI.Marshal, SI.Encode, LogCells, ValidLog, NewCells, Undoing, Proper, EncodeAll, Written, StateFrom, ReadCheckpoint, Load, Accepted, TailComplete;
    var u, end, k := Undoing(d, h, log, at, j), |LogCells(h, Front(log))|, Written(h, log, at);
    UndoCells(d, h, log, at, j);
    UndoProper(d, h, log, at, j);
    OldCheckpoint(d, h, log, at, j);
    AcceptedStart(d, h, Front(log));
    assert LogCells(h, Front(log)) <= u.cells by { assert u.cells[..end] == d.cells[..end]; }
    LoadsFrom(u, h);
    SameState(u.cells, d.cells, h, d.count, StaleFound(d, h, end, k));
  }

  predicate ReadsPack(cells: seq<Cell>, off: nat) { ReadAt(cells, off).Some? && ReadAt(cells, off).value.Pack? }

  lemma PacksRead(cells: seq<Cell>, h: Pos, log: seq<Session>)
    requires ValidLog(h, log) && LogCells(h, log) <= cells
    ensures forall p :: p in PacksOf(h, log) ==> PackAt(cells, p, PacksOf(h, log)[p])
  {
    hide SI.WellFormed, SI.Marshal, SI.Encode, LogCells, ReadAt, Replay, PacksOf, ValidLog;
    forall p | p in PacksOf(h, log) ensures PackAt(cells, p, PacksOf(h, log)[p]) {
      PackReads(h, log, p);
      ReadAtPrefix(LogCells(h, log), cells, p);
    }
  }

  lemma NoMorePacks(h: Pos, log: seq<Session>)
    requires log != [] && ValidLog(h, log) && Last(log).packs == []
    ensures PacksOf(h, log) == PacksOf(h, Front(log))
  {
    hide SI.WellFormed, SI.Marshal, SI.Encode, LogCells, Replay;
  }

  /** So the undo serves an archive there exactly if it leads home. */
  lemma StaleServesIff(d: Disk, h: Pos, log: seq<Session>, at: Progress, j: nat)
    requires |log| >= 2 && ValidLog(h, log) && Accepted(d, h, Front(log)) && |LogCells(h, Front(log))| + j <= |d.cells|
    requires !InPlace(d, h, log, at) && Stale(d, h, |LogCells(h, Front(log))|, Written(h, log, at))
    requires TailPlace(d, |LogCells(h, Front(log))|, Written(h, log, at)) + CHECKPOINT_SIZE < |LogCells(h, Front(log))| + j
    requires j < Written(h, log, at)
    ensures var u := Undoing(d, h, log, at, j);
            Serves(u, h, Front(log)) || Serves(u, h, log) <==> LeadsHome(d, h, log, Written(h, log, at))
  {
    hide SI.WellFormed, SI.Marshal, SI.Encode, LogCells, NewCells, Undoing, Proper, EncodeAll, Written, StateFrom, Load, Accepted, TailComplete, Replay, PacksOf, Stale, StaleFound, InPlace, TailPlace, ReadAt;
    var u := Undoing(d, h, log, at, j);
    StaleLoads(d, h, log, at, j);
    assert u.cells[..|u.cells|] == u.cells;
    PacksRead(u.cells, h, Front(log));
    if Last(log).packs == [] {
      NoMorePacks(h, log);
    } else {
      FirstPackPlaced(h, log);
    }
  }

  /** An index entry inside a log starts where one of its sessions put it. */
  lemma {:induction false} IndexesOfLog(h: Pos, log: seq<Session>, off: nat)
    requires ValidLog(h, log) && off < |LogCells(h, log)| && LogCells(h, log)[off].obj.Index? && LogCells(h, log)[off].k == 0
    ensures exists i :: 0 < i <= |log| && off == IndexOffset(h, log[..i])
    decreases |log|
  {
    hide SI.WellFormed, SI.Marshal, SI.Encode, Replay, EncodeAll, IndexOffset;
    if log != [] {
      var base := LogCells(h, Front(log));
      LogCellsStep(h, log);
      assert log[..|log|] == log;
      if off < |base| {
        assert base[off] == LogCells(h, log)[off];
        IndexesOfLog(h, Front(log), off);
        var i :| 0 < i <= |Front(log)| && off == IndexOffset(h, Front(log)[..i]);
        assert Front(log)[..i] == log[..i];
      } else {
        LastIndexIn(h, log, off);
      }
    }
  }

  lemma LastIndexIn(h: Pos, log: seq<Session>, off: nat)
    requires log != [] && ValidLog(h, log) && |LogCells(h, Front(log))| <= off < |LogCells(h, log)|
    requires LogCells(h, log)[off].obj.Index? && LogCells(h, log)[off].k == 0
    ensures off == IndexOffset(h, log)
  {
    hide SI.WellFormed, SI.Marshal, SI.Encode, Replay, EncodeAll, LogCells;
    var s, base := Last(log), LogCells(h, Front(log));
    LogCellsStep(h, log);
    PackCells(s.packs);
    var packs := EncodeAll(s.packs);
    if off >= |base| + |packs| {
      assert LogCells(h, log)[off] == Encode(IndexObj(s))[off - |base| - |packs|];
    }
  }

  lemma {:induction false} PackCells(os: seq<Obj>)
    requires AllPacks(os)
    ensures forall i :: 0 <= i < |EncodeAll(os)| ==> EncodeAll(os)[i].obj.Pack?
  {
    if os != [] {
      PackCells(os[1..]);
    }
  }

  lemma {:induction false} PrefixIsValid(h: Pos, log: seq<Session>, i: nat)
    requires ValidLog(h, log) && i <= |log|
    ensures ValidLog(h, log[..i]) && LogCells(h, log[..i]) <= LogCells(h, log)
    decreases |log|
  {
    hide SI.WellFormed, SI.Marshal, SI.Encode, Replay, EncodeAll;
    if i == |log| {
      assert log[..i] == log;
    } else {
      PrefixIsValid(h, Front(log), i);
      assert Front(log)[..i] == log[..i];
    }
  }

  /** A stale checkpoint that points into the old log leads home if and only if it points at
      the log's newest index. */
  lemma StaleInsideLog(d: Disk, h: Pos, log: seq<Session>, k: nat)
    requires |log| >= 2 && ValidLog(h, log) && Accepted(d, h, Front(log)) && |LogCells(h, Front(log))| <= |d.cells|
    requires Stale(d, h, |LogCells(h, Front(log))|, k)
    requires StaleFound(d, h, |LogCells(h, Front(log))|, k).lastIndex < |LogCells(h, Front(log))|
    ensures LeadsHome(d, h, log, k) <==> StaleFound(d, h, |LogCells(h, Front(log))|, k).lastIndex == IndexOffset(h, Front(log))
  {
    hide SI.WellFormed, SI.Marshal, SI.Encode, LogCells, Stale, StaleFound, ReadAt, ReadChain, ApplyChain, Replay, IndexOffset, ValidLog, Accepted;
    var f, was := StaleFound(d, h, |LogCells(h, Front(log))|, k), Front(log);
    AcceptedStart(d, h, was);
    AcceptedHasLog(d, h, was);
    if f.lastIndex == IndexOffset(h, was) {
      StateOfLog(d, h, was, f);
    } else if ReadChain(d.cells, h, f.lastIndex).Some? {
      OlderIndex(d.cells, h, was, f.lastIndex);
    }
  }

  lemma AcceptedHasLog(d: Disk, h: Pos, log: seq<Session>)
    requires Accepted(d, h, log)
    ensures log != [] && ValidLog(h, log) && d.count <= |log|
  {
    hide ValidLog, LogCells, ReadCheckpoint, Proper;
  }

  /** From any other index inside the log, loading gives fewer sessions. */
  lemma OlderIndex(cells: seq<Cell>, h: Pos, log: seq<Session>, off: nat)
    requires log != [] && ValidLog(h, log) && LogCells(h, log) <= cells && off < |LogCells(h, log)|
    requires off != IndexOffset(h, log) && ReadChain(cells, h, off).Some?
    ensures Last(ReadChain(cells, h, off).value).index.session < |log|
  {
    hide SI.WellFormed, SI.Marshal, SI.Encode, SI.Parse, LogCells, Replay, IndexOffset, ValidLog, ChainOf;
    assert cells[off] == LogCells(h, log)[off];
    IndexesOfLog(h, log, off);
    assert log[..|log|] == log;
    var i :| 0 < i <= |log| && off == IndexOffset(h, log[..i]);
    PrefixIsValid(h, log, i);
    ReadsChain(h, log[..i], cells);
    NewestInChain(h, log[..i]);
  }

  lemma StateOfLog(d: Disk, h: Pos, log: seq<Session>, f: Found)
    requires log != [] && Accepted(d, h, log) && LogCells(h, log) <= d.cells && f.lastIndex == IndexOffset(h, log)
    ensures IsState(StateFrom(d.cells, h, d.count, f), h, log)
  {
    hide SI.WellFormed, SI.Marshal, SI.Encode, LogCells, IndexOffset, ReadChain, ApplyChain, Replay, ReadCheckpoint, Proper, ChainOf, ValidLog;
    ReadsChain(h, log, d.cells);
    NewestInChain(h, log);
    AppliesChain(h, log);
  }

  // ---- The exact condition ----

  /** The undo serves the old or the new archive at every one of its bytes. */
  ghost predicate UndoServes(d: Disk, h: Pos, log: seq<Session>, at: Progress)
    requires |log| >= 2 && ValidLog(h, log) && |LogCells(h, Front(log))| <= |d.cells|
  {
    forall j :: 0 <= j <= |d.cells| - |LogCells(h, Front(log))| ==>
      Serves(Undoing(d, h, log, at, j), h, Front(log)) || Serves(Undoing(d, h, log, at, j), h, log)
  }

  /** It does if and only if it began before the new session was in place, and no stale
      checkpoint leads elsewhere. */
  lemma UndoCrashSafeIff(d: Disk, h: Pos, log: seq<Session>, at: Progress)
    requires |log| >= 2 && ValidLog(h, log) && Accepted(d, h, Front(log)) && |LogCells(h, Front(log))| <= |d.cells|
    ensures var k := Written(h, log, at);
            UndoServes(d, h, log, at)
            <==> !InPlace(d, h, log, at) && (Stale(d, h, |LogCells(h, Front(log))|, k) ==> LeadsHome(d, h, log, k))
  {
    hide SI.WellFormed, SI.Marshal, SI.Encode, LogCells, NewCells, Undoing, Serves, InPlace, Stale, LeadsHome, EncodeAll, Accepted, Safe, Replay, Written;
    var end, k := |LogCells(h, Front(log))|, Written(h, log, at);
    if InPlace(d, h, log, at) {
      UndoStrips(d, h, log, at);
      StrippedBreaks(Undoing(d, h, log, at, 1), h, log, k);
    } else if Stale(d, h, end, k) && !LeadsHome(d, h, log, k) {
      StaleWindow(d, h, log, at);
      StaleServesIff(d, h, log, at, TailPlace(d, end, k) + CHECKPOINT_SIZE + 1 - end);
    } else {
      forall j | 0 <= j <= |d.cells| - end
        ensures Serves(Undoing(d, h, log, at, j), h, Front(log)) || Serves(Undoing(d, h, log, at, j), h, log)
      {
        UndoServesAt(d, h, log, at, j);
      }
    }
  }

  /** A stale checkpoint is back before the undo is done. */
  lemma StaleWindow(d: Disk, h: Pos, log: seq<Session>, at: Progress)
    requires |log| >= 2 && |LogCells(h, Front(log))| <= |d.cells|
    requires Stale(d, h, |LogCells(h, Front(log))|, Written(h, log, at))
    ensures var end, k := |LogCells(h, Front(log))|, Written(h, log, at);
            var j := TailPlace(d, end, k) + CHECKPOINT_SIZE + 1 - end;
            0 <= j < k && end + j <= |d.cells|
  {
    hide LogCells, Written, ReadAt;
  }

  lemma UndoServesAt(d: Disk, h: Pos, log: seq<Session>, at: Progress, j: nat)
    requires |log| >= 2 && ValidLog(h, log) && Accepted(d, h, Front(log)) && |LogCells(h, Front(log))| + j <= |d.cells|
    requires !InPlace(d, h, log, at)
    requires Stale(d, h, |LogCells(h, Front(log))|, Written(h, log, at)) ==> LeadsHome(d, h, log, Written(h, log, at))
    ensures Serves(Undoing(d, h, log, at, j), h, Front(log)) || Serves(Undoing(d, h, log, at, j), h, log)
  {
    hide SI.WellFormed, SI.Marshal, SI.Encode, LogCells, NewCells, Serves, Stale, LeadsHome, EncodeAll, Accepted, Safe, Replay, TailComplete, Undoing, TailPlace, Written;
    var u, end, k := Undoing(d, h, log, at, j), |LogCells(h, Front(log))|, Written(h, log, at);
    if j == 0 {
      UndoBegins(d, h, log, at);
      UpdateCrashPoint(d, h, log, k);
      if Safe(u, h, log) { SafeServes(u, h, log); } else { SafeServes(u, h, Front(log)); }
    } else if Stale(d, h, end, k) && j < k && TailPlace(d, end, k) + CHECKPOINT_SIZE < end + j {
      StaleServesIff(d, h, log, at, j);
    } else if j >= k {
      UndoDone(d, h, log, at, j);
      AcceptedIsSafe(d, h, Front(log));
      SafeServes(d, h, Front(log));
    } else {
      UndoCrashPoint(d, h, log, at, j);
      SafeServes(u, h, Front(log));
    }
  }

  lemma UndoBegins(d: Disk, h: Pos, log: seq<Session>, at: Progress)
    requires |log| >= 2 && |LogCells(h, Front(log))| <= |d.cells| && at.Part?
    ensures Undoing(d, h, log, at, 0) == During(d, h, log, Written(h, log, at))
  {
    hide LogCells, NewCells, Written;
    var mid := During(d, h, log, Written(h, log, at)).cells;
    SameCells(Overwrite(mid, |LogCells(h, Front(log))|, []), mid);
  }

  /** Once as many bytes are back as had been written, the file is as before. */
  lemma UndoDone(d: Disk, h: Pos, log: seq<Session>, at: Progress, j: nat)
    requires |log| >= 2 && at.Part? && Written(h, log, at) <= j && |LogCells(h, Front(log))| + j <= |d.cells|
    ensures Undoing(d, h, log, at, j) == d
  {
    hide LogCells, NewCells, Undoing, Written;
    UndoCells(d, h, log, at, j);
    SameCells(Undoing(d, h, log, at, j).cells, d.cells);
  }

  /** For a file as its last write left it. Unsigned, exactly the undo of a completely written
      session breaks. Signed, it breaks once the file was cut behind the session, or the tail
      came to end where the signature did, with the signature's own last bytes damaged. */
  lemma IntactUndoIff(d: Disk, h: Pos, log: seq<Session>, sig: Option<Pos>, at: Progress)
    requires |log| >= 2 && ValidLog(h, log) && Intact(d, h, Front(log), sig)
    ensures |LogCells(h, Front(log))| <= |d.cells|
    ensures var e, k := |EncodeAll(Entries(Last(log)))|, Written(h, log, at);
            UndoServes(d, h, log, at)
            <==> match sig
                 case None => k < e + TAIL_SIZE
                 case Some(n) => at.Part? && !TailComplete(k, e, TAIL_SIZE + n + SIGNATURE_TRAILER_SIZE)
  {
    hide SI.WellFormed, SI.Marshal, SI.Encode, LogCells, UndoServes, Stale, LeadsHome, Replay, ValidLog, EncodeAll;
    NewCellsKinds(h, log);
    IntactIsAccepted(d, h, Front(log), sig);
    IntactIsNotStale(d, h, Front(log), sig, Written(h, log, at));
    UndoCrashSafeIff(d, h, log, at);
  }

  /** The failing families: a session completely written over an unsigned file, whose truncation
      or sync then fails; and one written over any accepted file whose truncation took effect. */
  lemma UndoAfterCompleteWrite(d: Disk, h: Pos, log: seq<Session>, at: Progress)
    requires |log| >= 2 && ValidLog(h, log) && Written(h, log, at) == |NewCells(h, log)|
    requires Intact(d, h, Front(log), None) || (Accepted(d, h, Front(log)) && at.Cut?)
    ensures |LogCells(h, Front(log))| + 1 <= |d.cells|
    ensures var u := Undoing(d, h, log, at, 1);
            && (Last(log).packs == [] ==> Load(u, h).None?)
            && (Last(log).packs != [] ==>
                  Load(u, h) == Some(StateOf(h, log, false)) && !ReadsPack(u.cells, |LogCells(h, Front(log))|))
  {
    hide SI.WellFormed, SI.Marshal, SI.Encode, LogCells, Undoing, Proper, Load, ReadAt, Replay, EncodeAll, Accepted, Rest, ValidLog, Stripped;
    NewCellsKinds(h, log);
    if Intact(d, h, Front(log), None) {
      IntactIsAccepted(d, h, Front(log), None);
    }
    AcceptedStart(d, h, Front(log));
    UndoStrips(d, h, log, at);
    var u := Undoing(d, h, log, at, 1);
    FirstEntryGone(u, h, log, Written(h, log, at));
    if Last(log).packs == [] {
      BareSessionLost(u, h, log, Written(h, log, at));
    } else {
      FirstPackLost(u, h, log, Written(h, log, at));
    }
  }
}
