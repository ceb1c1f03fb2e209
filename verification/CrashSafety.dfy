/** Crash points of updates, repairs and signature writes (io/incremental_write.go). Writes land in program order, one byte at a time; rewriting
    the sealed session count is atomic. */
module CrashSafety {
  import opened Bytes
  import opened Format
  import opened ArchiveFile
  import opened LogReading
  import SI = SessionIndex

  predicate IsStart(c: Cell) { c.obj.Checkpoint? && c.k == 0 }
  predicate IsEntry(c: Cell) { c.obj.Pack? || c.obj.Index? }

  /** Checkpoint, end marker and footer, as WriteCheckpointFooter writes them. */
  function TailCells(last: nat): (t: seq<Cell>)
    ensures |t| == TAIL_SIZE && t[0] == Cell(Checkpoint(last), 0)
    ensures forall i :: 0 < i < |t| ==> !IsStart(t[i])
    ensures forall i :: 0 <= i < |t| ==> !IsEntry(t[i]) && !t[i].obj.SignatureTrailer?
  {
    Encode(Checkpoint(last)) + Encode(EndMarker) + Encode(Footer)
  }

  function SignatureCells(n: Pos): (s: seq<Cell>)
    ensures |s| == n + SIGNATURE_TRAILER_SIZE
    ensures forall i :: 0 <= i < |s| ==> !IsStart(s[i]) && !IsEntry(s[i])
  {
    Encode(Signature(n)) + Encode(SignatureTrailer(n))
  }

  /** WriteAt: replaces cells from `off` on and extends the file when needed. */
  function Overwrite(cells: seq<Cell>, off: nat, data: seq<Cell>): (r: seq<Cell>)
    requires off <= |cells|
    ensures |r| == Max(|cells|, off + |data|)
    ensures r[..off] == cells[..off]
    ensures forall i :: off <= i < off + |data| ==> r[i] == data[i - off]
    ensures forall i :: off + |data| <= i < |r| ==> r[i] == cells[i]
  {
    cells[..off] + data + (if off + |data| < |cells| then cells[off + |data|..] else [])
  }

  // ---- When a file loads as a given log ----

  predicate Located(d: Disk, h: Pos, log: seq<Session>)
  {
    var cells := d.cells[..Proper(d.cells)];
    && log != [] && ValidLog(h, log) && d.count <= |log| && LogCells(h, log) <= cells
    && (|| ReadCheckpoint(cells, h) == Some(FoundIn(h, log))
        || (ReadCheckpoint(cells, h).None? && Scan(cells, h, None) == Some(FoundIn(h, log))))
  }

  /** Should what looks like a signature go, no other checkpoint comes to count: none reads at
      the very end of the file, or a signature block hides whatever follows the tail's place. */
  predicate Guarded(cells: seq<Cell>, h: Pos, end: nat)
  {
    |cells| > end + TAIL_SIZE ==>
      ReadCheckpoint(cells, h).None? || (Proper(cells) == end + TAIL_SIZE && |cells| > end + TAIL_SIZE + SIGNATURE_TRAILER_SIZE)
  }

  /** The file loads as `log`, and keeps doing so while it is being repaired. */
  predicate Safe(d: Disk, h: Pos, log: seq<Session>)
  {
    Located(d, h, log) && Guarded(d.cells, h, |LogCells(h, log)|)
  }

  /** The loader takes the file's tail as it is, without repair. What lies between the tail
      and a signature at the very end does not matter. */
  predicate Accepted(d: Disk, h: Pos, log: seq<Session>)
  {
    var cells := d.cells[..Proper(d.cells)];
    && log != [] && ValidLog(h, log) && d.count <= |log| && LogCells(h, log) <= cells
    && ReadCheckpoint(cells, h) == Some(FoundIn(h, log))
  }

  lemma AcceptedIsSafe(d: Disk, h: Pos, log: seq<Session>)
    requires Accepted(d, h, log)
    ensures Safe(d, h, log) && Proper(d.cells) == |LogCells(h, log)| + TAIL_SIZE
    ensures |d.cells| == |LogCells(h, log)| + TAIL_SIZE || |d.cells| > |LogCells(h, log)| + TAIL_SIZE + SIGNATURE_TRAILER_SIZE
  {
    hide LogCells, ValidLog, Scan;
  }

  /** A safe file loads exactly the state of its log; the sealed count does not exceed it. */
  lemma SafeLoads(d: Disk, h: Pos, log: seq<Session>)
    requires Safe(d, h, log)
    ensures d.count <= |log|
    ensures Load(d, h) == Some(StateOf(h, log, ReadCheckpoint(d.cells[..Proper(d.cells)], h).None?))
  {
    hide ReadCheckpoint, Scan, Proper, LogCells, ValidLog, Guarded, IsStart;
    LoadsLocated(d, h, log, ReadCheckpoint(d.cells[..Proper(d.cells)], h).None?);
  }

  lemma {:induction false} EntryCells(os: seq<Obj>)
    requires forall i :: 0 <= i < |os| ==> os[i].Pack? || os[i].Index?
    ensures forall i :: 0 <= i < |EncodeAll(os)| ==> IsEntry(EncodeAll(os)[i])
  {
    if os == [] {
    } else {
      EntryCells(os[1..]);
    }
  }

  lemma SessionCells(h: Pos, log: seq<Session>)
    requires log != [] && ValidLog(h, log)
    ensures forall i :: 0 <= i < |EncodeAll(Entries(Last(log)))| ==> IsEntry(EncodeAll(Entries(Last(log)))[i])
  {
    hide SI.WellFormed, SI.Marshal, SI.Encode, EncodeAll;
    EntryCells(Entries(Last(log)));
  }

  lemma {:induction false} LogHasNoCheckpoint(h: Pos, log: seq<Session>)
    requires ValidLog(h, log)
    ensures forall i :: 0 <= i < |LogCells(h, log)| ==> !IsStart(LogCells(h, log)[i]) && !LogCells(h, log)[i].obj.SignatureTrailer?
    decreases |log|
  {
    hide SI.WellFormed, SI.Marshal, SI.Encode, EncodeAll, Replay;
    if log == [] {
    } else {
      LogHasNoCheckpoint(h, Front(log));
      SessionCells(h, log);
    }
  }

  /** Locating: the loader sees no checkpoint or the log's own, and a scan may see no
      further session. */
  lemma Locate(d: Disk, h: Pos, log: seq<Session>)
    requires log != [] && ValidLog(h, log) && d.count <= |log| && LogCells(h, log) <= d.cells
    requires |LogCells(h, log)| <= Proper(d.cells)
    requires var p := Proper(d.cells);
             && (ReadCheckpoint(d.cells[..p], h).None? || ReadCheckpoint(d.cells[..p], h) == Some(FoundIn(h, log)))
             && Scan(d.cells[..p], |LogCells(h, log)|, Some(FoundIn(h, log))) == Some(FoundIn(h, log))
    ensures Located(d, h, log)
  {
    hide SI.WellFormed, SI.Marshal, SI.Encode, Scan, Proper, LogCells, Replay, ValidLog, ReadCheckpoint;
    assert LogCells(h, log) <= d.cells[..Proper(d.cells)];
    ScansLog(h, log, d.cells[..Proper(d.cells)]);
  }

  /** A checkpoint is only ever seen at the start of checkpoint cells after the log. */
  lemma NoCheckpointSeen(cells: seq<Cell>, h: Pos, log: seq<Session>)
    requires log != [] && ValidLog(h, log) && LogCells(h, log) <= cells
    requires |cells| >= |LogCells(h, log)| + TAIL_SIZE ==> !IsStart(cells[|cells| - TAIL_SIZE])
    ensures ReadCheckpoint(cells, h).None?
  {
    hide SI.WellFormed, SI.Marshal, SI.Encode, LogCells, Replay, ValidLog;
    LogHasNoCheckpoint(h, log);
    if |cells| >= TAIL_SIZE && |cells| - TAIL_SIZE < |LogCells(h, log)| {
      assert cells[|cells| - TAIL_SIZE] == LogCells(h, log)[|cells| - TAIL_SIZE];
    }
  }

  lemma OwnCheckpointSeen(cells: seq<Cell>, h: Pos, log: seq<Session>)
    requires log != [] && ValidLog(h, log) && LogCells(h, log) <= cells
    requires |cells| > |LogCells(h, log)| + TAIL_SIZE ==> ReadCheckpoint(cells, h).None?
    requires |cells| > |LogCells(h, log)| && IsStart(cells[|LogCells(h, log)|]) ==>
               cells[|LogCells(h, log)|].obj == Checkpoint(IndexOffset(h, log))
    ensures ReadCheckpoint(cells, h).None? || ReadCheckpoint(cells, h) == Some(FoundIn(h, log))
  {
    hide SI.WellFormed, SI.Marshal, SI.Encode, LogCells, Replay, ValidLog, IndexOffset;
    if |cells| < |LogCells(h, log)| + TAIL_SIZE {
      NoCheckpointSeen(cells, h, log);
    }
  }

  lemma IndexInside(h: Pos, log: seq<Session>)
    requires log != []
    ensures h <= IndexOffset(h, log) < |LogCells(h, log)|
  {
    hide SI.Encode;
    LogCellsStep(h, log);
  }

  /** A scan stops at once where no complete entry starts. */
  lemma ScanStops(cells: seq<Cell>, off: nat, seen: Option<Found>)
    requires off < |cells| ==> !IsEntry(cells[off])
    ensures Scan(cells, off, seen) == seen
  {
  }

  /** A torn entry does not read. */
  lemma TornEntry(pre: seq<Cell>, o: Obj, k: nat, post: seq<Cell>)
    requires k < Size(o) && (o.Pack? || o.Index?)
    requires forall i :: 0 <= i < |post| ==> !IsEntry(post[i])
    ensures var r := ReadAt(pre + Encode(o)[..k] + post, |pre|);
            r.Some? ==> !r.value.Pack? && !r.value.Index?
  {
    var cells := pre + Encode(o)[..k] + post;
    assert |pre| + k < |cells| ==> cells[|pre| + k] == post[0];
    if k > 0 {
      assert cells[|pre|] == Encode(o)[0];
      if ReadAt(cells, |pre|).Some? {
        ReadAtCells(cells, |pre|);
      }
    }
  }

  /** A scan of a torn session passes its complete packs and finds no index. */
  lemma {:induction false} ScanTorn(pre: seq<Cell>, os: seq<Obj>, k: nat, post: seq<Cell>, seen: Option<Found>)
    requires os != [] && (Last(os).Pack? || Last(os).Index?) && forall i :: 0 <= i < |os| - 1 ==> os[i].Pack?
    requires k < |EncodeAll(os)|
    requires forall i :: 0 <= i < |post| ==> !IsEntry(post[i])
    ensures Scan(pre + EncodeAll(os)[..k] + post, |pre|, seen) == seen
    decreases |os|
  {
    hide SI.Parse, ReadAt, Encode, IsEntry;
    var cells, o := pre + EncodeAll(os)[..k] + post, os[0];
    var rest := EncodeAll(os[1..]);
    assert EncodeAll(os) == Encode(o) + rest;
    if k < Size(o) {
      assert EncodeAll(os)[..k] == Encode(o)[..k];
      TornEntry(pre, o, k, post);
    } else {
      var pre' := pre + Encode(o);
      assert EncodeAll(os)[..k] == Encode(o) + rest[..k - Size(o)];
      assert cells == pre' + rest[..k - Size(o)] + post;
      assert cells == pre + Encode(o) + (rest[..k - Size(o)] + post);
      ReadAtEncoded(pre, o, rest[..k - Size(o)] + post);
      ScanTorn(pre', os[1..], k - Size(o), post, seen);
    }
  }

  // ---- Proper size after an overwrite ----

  /** Two files of one length with the same last bytes have the same proper size. */
  lemma SameEnd(a: seq<Cell>, b: seq<Cell>)
    requires |a| == |b| >= SIGNATURE_TRAILER_SIZE
    requires forall i :: |a| - SIGNATURE_TRAILER_SIZE <= i < |a| ==> a[i] == b[i]
    ensures Proper(a) == Proper(b)
  {
    var off := |a| - SIGNATURE_TRAILER_SIZE;
    if a[off].obj.SignatureTrailer? {
      assert a[off..off + SIGNATURE_TRAILER_SIZE] == b[off..off + SIGNATURE_TRAILER_SIZE];
    }
  }

  /** A file with a signature ends in trailer cells only. */
  lemma TrailerCells(cells: seq<Cell>)
    requires Proper(cells) != |cells|
    ensures |cells| >= SIGNATURE_TRAILER_SIZE
    ensures forall i :: |cells| - SIGNATURE_TRAILER_SIZE <= i < |cells| ==> cells[i].obj.SignatureTrailer?
  {
    var off := |cells| - SIGNATURE_TRAILER_SIZE;
    forall i | off <= i < |cells| ensures cells[i].obj.SignatureTrailer? {
      assert cells[i] == cells[off..off + SIGNATURE_TRAILER_SIZE][i - off];
    }
  }

  // ---- Repair ----

  /** Overwriting from `end` with bytes that hold no trailer leaves the proper size at the
      whole file, or as it was. */
  lemma ProperAfter(cells: seq<Cell>, end: nat, data: seq<Cell>)
    requires end <= |cells| && data != []
    requires forall i :: 0 <= i < |data| ==> !data[i].obj.SignatureTrailer?
    ensures var r := Overwrite(cells, end, data);
            Proper(r) == |r| || (|r| == |cells| && Proper(r) == Proper(cells) && |cells| - SIGNATURE_TRAILER_SIZE >= end + |data|)
  {
    var r := Overwrite(cells, end, data);
    if Proper(r) != |r| {
      TrailerCells(r);
      var last := end + |data| - 1;
      assert r[last] == data[|data| - 1];
      assert last < |r| - SIGNATURE_TRAILER_SIZE;
      SameEnd(r, cells);
    }
  }

  /** Every crash point of repairTail: rebuilding the tail of a safe file keeps it safe. */
  lemma RepairCrashPoint(d: Disk, h: Pos, log: seq<Session>, j: nat)
    requires Safe(d, h, log) && j <= TAIL_SIZE
    ensures var end := |LogCells(h, log)|;
            Safe(d.(cells := Overwrite(d.cells, end, TailCells(IndexOffset(h, log))[..j])), h, log)
  {
    hide SI.WellFormed, SI.Marshal, SI.Encode, Scan, Proper, ReadCheckpoint, LogCells, ValidLog, TailCells, IndexOffset, ReadAt, Encode;
    var end, last := |LogCells(h, log)|, IndexOffset(h, log);
    var data := TailCells(last)[..j];
    var cells := Overwrite(d.cells, end, data);
    if j == 0 {
      assert cells == d.cells;
    } else {
      var d' := d.(cells := cells);
      var p := Proper(cells);
      assert LogCells(h, log) <= cells;
      ScanStops(cells[..p], end, Some(FoundIn(h, log)));
      RepairGuarded(d, h, log, j);
      OwnCheckpointSeen(cells[..p], h, log);
      Locate(d', h, log);
    }
  }

  lemma RepairGuarded(d: Disk, h: Pos, log: seq<Session>, j: nat)
    requires Safe(d, h, log) && 0 < j <= TAIL_SIZE
    ensures var end := |LogCells(h, log)|;
            var cells := Overwrite(d.cells, end, TailCells(IndexOffset(h, log))[..j]);
            && Guarded(cells, h, end) && Proper(cells) >= end
            && (Proper(cells) > end + TAIL_SIZE ==> ReadCheckpoint(cells[..Proper(cells)], h).None?)
  {
    hide SI.WellFormed, SI.Marshal, SI.Encode, Scan, Proper, ReadCheckpoint, LogCells, ValidLog, TailCells, IndexOffset, Overwrite, ReadAt, Encode;
    var end, data := |LogCells(h, log)|, TailCells(IndexOffset(h, log))[..j];
    var cells, p := Overwrite(d.cells, end, data), Proper(d.cells);
    ProperAfter(d.cells, end, data);
    assert cells[..|cells|] == cells;
    if p == end + TAIL_SIZE && |d.cells| > end + TAIL_SIZE + SIGNATURE_TRAILER_SIZE {
      SameEnd(cells, d.cells);
    } else if |d.cells| > end + TAIL_SIZE {
      NoNewCheckpoint(d.cells, h, end, IndexOffset(h, log), j);
      if p > end + TAIL_SIZE {
        SeenAtEnd(d.cells[..p], h);
        NoNewCheckpoint(d.cells[..p], h, end, IndexOffset(h, log), j);
        OverwrittenPrefix(d.cells, end, data, p);
      }
    }
  }

  lemma SeenAtEnd(cells: seq<Cell>, h: Pos)
    ensures ReadCheckpoint(cells, h).Some? ==> ReadCheckpoint(cells, h).value.tail == |cells| - TAIL_SIZE
  {
  }

  lemma OverwrittenPrefix(cells: seq<Cell>, end: nat, data: seq<Cell>, p: nat)
    requires end + |data| <= p <= |cells|
    ensures Overwrite(cells, end, data)[..p] == Overwrite(cells[..p], end, data)
  {
  }

  /** Writing a tail at `end`, or the first bytes of one, completes no checkpoint behind it. */
  lemma NoNewCheckpoint(cells: seq<Cell>, h: Pos, end: nat, last: nat, j: nat)
    requires |cells| > end + TAIL_SIZE && 0 < j <= TAIL_SIZE && ReadCheckpoint(cells, h).None?
    ensures ReadCheckpoint(Overwrite(cells, end, TailCells(last)[..j]), h).None?
  {
    hide TailCells;
    var data := TailCells(last)[..j];
    var r, q := Overwrite(cells, end, data), |cells| - TAIL_SIZE;
    if q < end + j {
      assert r[q] == data[q - end];
    } else {
      assert r[q..q + CHECKPOINT_SIZE] == cells[q..q + CHECKPOINT_SIZE];
    }
  }

  // ---- Update ----

  function SignatureOf(sig: Option<Pos>): seq<Cell> { match sig case None => [] case Some(n) => SignatureCells(n) }

  /** What follows the log of an intact file: its tail and perhaps a signature. */
  function Rest(h: Pos, log: seq<Session>, sig: Option<Pos>): (x: seq<Cell>)
    requires log != []
    ensures |x| >= TAIL_SIZE && x[0] == Cell(Checkpoint(IndexOffset(h, log)), 0)
    ensures forall i :: 0 < i < |x| ==> !IsStart(x[i])
    ensures forall i :: 0 <= i < |x| ==> !IsEntry(x[i])
    ensures if sig.Some? then |x| > TAIL_SIZE + SIGNATURE_TRAILER_SIZE else |x| == TAIL_SIZE
  {
    hide IsStart, IsEntry;
    TailCells(IndexOffset(h, log)) + SignatureOf(sig)
  }

  predicate Intact(d: Disk, h: Pos, log: seq<Session>, sig: Option<Pos>)
  {
    && log != [] && ValidLog(h, log) && d.count <= |log|
    && (sig.Some? ==> sig.value <= MAX_SIGNATURE_SIZE)
    && d.cells == LogCells(h, log) + Rest(h, log, sig)
  }

  lemma ProperIntact(d: Disk, h: Pos, log: seq<Session>, sig: Option<Pos>)
    requires Intact(d, h, log, sig)
    ensures Proper(d.cells) == |LogCells(h, log)| + TAIL_SIZE
  {
    hide SI.WellFormed, SI.Marshal, SI.Encode, LogCells, ValidLog, IndexOffset, TailCells, SignatureCells, Proper;
    var t := TailCells(IndexOffset(h, log));
    match sig
    case None =>
      assert d.cells == LogCells(h, log) + t;
      UnsignedEnd(LogCells(h, log), IndexOffset(h, log));
    case Some(n) =>
      assert d.cells == (LogCells(h, log) + t) + SignatureCells(n);
      SignedEnd(LogCells(h, log) + t, n);
  }

  lemma UnsignedEnd(pre: seq<Cell>, last: nat)
    ensures Proper(pre + TailCells(last)) == |pre| + TAIL_SIZE
  {
    hide TailCells, Proper;
    var cells := pre + TailCells(last);
    assert cells[|cells| - 1] == TailCells(last)[TAIL_SIZE - 1];
    if Proper(cells) != |cells| {
      TrailerCells(cells);
    }
  }

  /** A loader accepts an intact file without scanning. */
  lemma IntactCheckpoint(d: Disk, h: Pos, log: seq<Session>, sig: Option<Pos>)
    requires Intact(d, h, log, sig)
    ensures ReadCheckpoint(d.cells[..Proper(d.cells)], h) == Some(FoundIn(h, log))
  {
    hide SI.WellFormed, SI.Marshal, SI.Encode, LogCells, ValidLog, IndexOffset, TailCells, ReadAt, Proper;
    var end, last := |LogCells(h, log)|, IndexOffset(h, log);
    ProperIntact(d, h, log, sig);
    IndexInside(h, log);
    assert d.cells[..end + TAIL_SIZE] == LogCells(h, log) + TailCells(last);
    TailReads(LogCells(h, log), last);
  }

  lemma TailReads(pre: seq<Cell>, last: nat)
    ensures ReadAt(pre + TailCells(last), |pre|) == Some(Checkpoint(last))
    ensures (pre + TailCells(last))[|pre| + CHECKPOINT_SIZE] == Cell(EndMarker, 0)
  {
    var post := Encode(EndMarker) + Encode(Footer);
    assert TailCells(last) == Encode(Checkpoint(last)) + post;
    assert pre + TailCells(last) == pre + Encode(Checkpoint(last)) + post;
    ReadAtEncoded(pre, Checkpoint(last), post);
  }

  /** Everything writeSession writes: the session's entries, then a fresh tail. */
  function NewCells(h: Pos, log: seq<Session>): (x: seq<Cell>)
    requires log != []
    ensures |x| == |EncodeAll(Entries(Last(log)))| + TAIL_SIZE
  {
    EncodeAll(Entries(Last(log))) + TailCells(IndexOffset(h, log))
  }

  /** The file after the first `k` bytes of a new session landed over the old tail. */
  function During(d: Disk, h: Pos, log: seq<Session>, k: nat): Disk
    requires log != [] && |LogCells(h, Front(log))| <= |d.cells| && k <= |NewCells(h, log)|
  {
    d.(cells := Overwrite(d.cells, |LogCells(h, Front(log))|, NewCells(h, log)[..k]))
  }

  lemma IntactIsAccepted(d: Disk, h: Pos, log: seq<Session>, sig: Option<Pos>)
    requires Intact(d, h, log, sig)
    ensures Accepted(d, h, log)
  {
    hide SI.WellFormed, SI.Marshal, SI.Encode, LogCells, ValidLog, IndexOffset, Rest, Proper, ReadCheckpoint;
    ProperIntact(d, h, log, sig);
    IntactCheckpoint(d, h, log, sig);
  }

  /** While a session lands over an accepted file, either only the old tail's place is in
      view, or everything that was behind it has been overwritten. */
  lemma DuringProper(d: Disk, h: Pos, log: seq<Session>, k: nat)
    requires |log| >= 2 && ValidLog(h, log) && Accepted(d, h, Front(log))
    requires |LogCells(h, Front(log))| <= |d.cells| && 0 < k <= |NewCells(h, log)|
    ensures var cells, end := During(d, h, log, k).cells, |LogCells(h, Front(log))|;
            || (&& Proper(cells) == end + TAIL_SIZE && |cells| == |d.cells|
                && (|cells| == end + TAIL_SIZE || |cells| > end + TAIL_SIZE + SIGNATURE_TRAILER_SIZE))
            || (&& Proper(cells) == |cells| > end + TAIL_SIZE && k > TAIL_SIZE
                && forall t :: end + k <= t < |cells| ==> !IsStart(cells[t]) && !IsEntry(cells[t]))
  {
    hide SI.WellFormed, SI.Marshal, SI.Encode, LogCells, ValidLog, IndexOffset, Proper, NewCells;
    AcceptedIsSafe(d, h, Front(log));
    var cells, end, data := During(d, h, log, k).cells, |LogCells(h, Front(log))|, NewCells(h, log)[..k];
    NewCellsKinds(h, log);
    ProperAfter(d.cells, end, data);
    if Proper(cells) == |cells| > end + TAIL_SIZE && |d.cells| > end + TAIL_SIZE {
      TrailerCells(d.cells);
      if k <= |d.cells| - end - SIGNATURE_TRAILER_SIZE {
        SameEnd(cells, d.cells);
      }
    }
  }

  lemma NewCellsKinds(h: Pos, log: seq<Session>)
    requires log != [] && ValidLog(h, log)
    ensures var x, e := NewCells(h, log), |EncodeAll(Entries(Last(log)))|;
            && e >= MIN_ENTRY_SIZE && Entries(Last(log)) != []
            && (forall i :: 0 <= i < e ==> IsEntry(x[i]))
            && x[e] == Cell(Checkpoint(IndexOffset(h, log)), 0)
            && (forall i :: e < i < |x| ==> !IsStart(x[i]))
            && (forall i :: e <= i < |x| ==> !IsEntry(x[i]))
            && (forall i :: 0 <= i < |x| ==> !x[i].obj.SignatureTrailer?)
            && x[0].k == 0 && Size(x[0].obj) >= MIN_ENTRY_SIZE
  {
    hide SI.WellFormed, SI.Marshal, SI.Encode, LogCells, ValidLog, IndexOffset, TailCells, Replay;
    SessionCells(h, log);
    PacksFirst(h, log);
    var os := Entries(Last(log));
    assert |os| == 1 ==> os[0] == IndexObj(Last(log));
    FirstEntry(os);
  }

  lemma DuringCells(d: Disk, h: Pos, log: seq<Session>, k: nat)
    requires log != [] && LogCells(h, Front(log)) <= d.cells && k <= |NewCells(h, log)|
    ensures var cells, base := During(d, h, log, k).cells, LogCells(h, Front(log));
            && base <= cells && |cells| == Max(|d.cells|, |base| + k)
            && cells[|base|..|base| + k] == NewCells(h, log)[..k]
            && (forall i :: 0 <= i < k ==> cells[|base| + i] == NewCells(h, log)[i])
            && During(d, h, log, k).count == d.count
  {
    hide LogCells, NewCells;
    var cells, base := During(d, h, log, k).cells, LogCells(h, Front(log));
    assert cells[..|base|] == d.cells[..|base|] == base;
    assert cells[|base|..|base| + k] == NewCells(h, log)[..k];
  }

  lemma FirstEntry(os: seq<Obj>)
    requires os != [] && (os[0].Pack? || os[0].Index?)
    ensures |EncodeAll(os)| >= Size(os[0]) >= MIN_ENTRY_SIZE && EncodeAll(os)[0] == Cell(os[0], 0)
  {
  }

  /** With only the old tail's place in view, the new session cannot be seen. */
  lemma HiddenUpdate(d: Disk, h: Pos, log: seq<Session>, k: nat)
    requires |log| >= 2 && ValidLog(h, log) && Accepted(d, h, Front(log))
    requires |LogCells(h, Front(log))| <= |d.cells| && 0 < k <= |NewCells(h, log)|
    requires var cells, end := During(d, h, log, k).cells, |LogCells(h, Front(log))|;
             && Proper(cells) == end + TAIL_SIZE
             && (|cells| == end + TAIL_SIZE || |cells| > end + TAIL_SIZE + SIGNATURE_TRAILER_SIZE)
    ensures Safe(During(d, h, log, k), h, Front(log))
  {
    hide SI.WellFormed, SI.Marshal, SI.Encode, LogCells, ValidLog, IndexOffset, NewCells, Proper, TailCells;
    NewCellsKinds(h, log);
    var d', base := During(d, h, log, k), LogCells(h, Front(log));
    var cells := d'.cells[..|base| + TAIL_SIZE];
    assert d'.cells[..|base|] == base;
    assert cells[|base|] == NewCells(h, log)[0];
    assert ReadAt(cells, |base|).None?;
    Locate(d', h, Front(log));
  }

  /** An incomplete session in full view: the old log stands. */
  lemma TornUpdate(d: Disk, h: Pos, log: seq<Session>, k: nat)
    requires |log| >= 2 && ValidLog(h, log) && Accepted(d, h, Front(log))
    requires |LogCells(h, Front(log))| <= |d.cells| && 0 < k < |EncodeAll(Entries(Last(log)))|
    requires k <= |NewCells(h, log)|
    requires var cells, end := During(d, h, log, k).cells, |LogCells(h, Front(log))|;
             && Proper(cells) == |cells|
             && forall t :: end + k <= t < |cells| ==> !IsStart(cells[t]) && !IsEntry(cells[t])
    ensures Safe(During(d, h, log, k), h, Front(log))
  {
    hide SI.WellFormed, SI.Marshal, SI.Encode, LogCells, ValidLog, IndexOffset, Proper, TailCells, EncodeAll, Scan, ReadCheckpoint;
    NewCellsKinds(h, log);
    var d', base, os := During(d, h, log, k), LogCells(h, Front(log)), Entries(Last(log));
    var cells := d'.cells;
    var post := cells[|base| + k..];
    assert cells[..|base|] == base;
    assert NewCells(h, log)[..k] == EncodeAll(os)[..k];
    assert cells == base + EncodeAll(os)[..k] + post;
    assert cells[..|cells|] == cells;
    PacksFirst(h, log);
    ScanTorn(base, os, k, post, Some(FoundIn(h, Front(log))));
    assert forall t :: |base| <= t < |cells| ==> !IsStart(cells[t]);
    NoCheckpointSeen(cells, h, Front(log));
    Locate(d', h, Front(log));
  }

  lemma LogCellsSnoc(h: Pos, log: seq<Session>)
    requires log != []
    ensures LogCells(h, log) == LogCells(h, Front(log)) + EncodeAll(Entries(Last(log)))
  {
  }

  lemma PacksFirst(h: Pos, log: seq<Session>)
    requires log != [] && ValidLog(h, log)
    ensures var os := Entries(Last(log)); forall i :: 0 <= i < |os| - 1 ==> os[i].Pack?
  {
    hide SI.WellFormed, SI.Marshal, SI.Encode, Replay;
    var s := Last(log);
    assert forall i :: 0 <= i < |s.packs| ==> Entries(s)[i] == s.packs[i];
  }

  /** Once it is complete and in view, the new log stands. */
  lemma CompleteUpdate(d: Disk, h: Pos, log: seq<Session>, k: nat)
    requires |log| >= 2 && ValidLog(h, log) && Accepted(d, h, Front(log))
    requires |LogCells(h, Front(log))| <= |d.cells| && |EncodeAll(Entries(Last(log)))| <= k <= |NewCells(h, log)|
    requires var cells, end := During(d, h, log, k).cells, |LogCells(h, Front(log))|;
             && Proper(cells) == |cells|
             && forall t :: end + k <= t < |cells| ==> !IsStart(cells[t]) && !IsEntry(cells[t])
    ensures Safe(During(d, h, log, k), h, log)
  {
    hide SI.WellFormed, SI.Marshal, SI.Encode, LogCells, ValidLog, IndexOffset, Proper, TailCells, EncodeAll, Scan, ReadCheckpoint, During, IsStart, IsEntry, ReadAt, Encode;
    NewCellsKinds(h, log);
    LogCellsSnoc(h, log);
    DuringCells(d, h, log, k);
    var d', base, es := During(d, h, log, k), LogCells(h, Front(log)), EncodeAll(Entries(Last(log)));
    var cells := d'.cells;
    assert NewCells(h, log)[..|es|] == es;
    assert forall i :: 0 <= i < |es| ==> cells[|base| + i] == es[i];
    assert cells[..|base| + |es|] == base + es;
    assert cells[..|cells|] == cells;
    forall t | |base| + |es| < t < |cells| ensures !IsStart(cells[t]) {
      if t < |base| + k {
        assert cells[|base| + (t - |base|)] == NewCells(h, log)[t - |base|];
      }
    }
    ScanStops(cells, |base| + |es|, Some(FoundIn(h, log)));
    if |cells| > |base| + |es| + TAIL_SIZE { NoCheckpointSeen(cells, h, log); }
    OwnCheckpointSeen(cells, h, log);
    Locate(d', h, log);
  }

  /** Every crash point while a session is written over an accepted file: the file loads as
      exactly the old state or exactly the new one, and the sealed count never exceeds it. */
  lemma UpdateCrashPoint(d: Disk, h: Pos, log: seq<Session>, k: nat)
    requires |log| >= 2 && ValidLog(h, log) && Accepted(d, h, Front(log))
    requires |LogCells(h, Front(log))| <= |d.cells| && k <= |NewCells(h, log)|
    ensures Safe(During(d, h, log, k), h, Front(log)) || Safe(During(d, h, log, k), h, log)
    ensures k < |EncodeAll(Entries(Last(log)))| ==> Safe(During(d, h, log, k), h, Front(log))
  {
    hide SI.WellFormed, SI.Marshal, SI.Encode, LogCells, ValidLog, IndexOffset, TailCells, EncodeAll, Proper, Safe, During, NewCells, IsStart, IsEntry;
    if k == 0 {
      DuringZero(d, h, log);
      AcceptedIsSafe(d, h, Front(log));
    } else {
      DuringProper(d, h, log, k);
      if Proper(During(d, h, log, k).cells) == |LogCells(h, Front(log))| + TAIL_SIZE {
        HiddenUpdate(d, h, log, k);
      } else if k < |EncodeAll(Entries(Last(log)))| {
        TornUpdate(d, h, log, k);
      } else {
        CompleteUpdate(d, h, log, k);
      }
    }
  }

  /** After the truncation the file is intact with the new log; so it stays when the sealed
      count is then raised to the new session. */
  lemma UpdateCompletes(d: Disk, h: Pos, log: seq<Session>)
    requires |log| >= 2 && ValidLog(h, log) && LogCells(h, Front(log)) <= d.cells && d.count <= |log|
    ensures var n := |NewCells(h, log)|;
            var cells := During(d, h, log, n).cells[..|LogCells(h, Front(log))| + n];
            Intact(Disk(d.count, cells), h, log, None) && Intact(Disk(|log|, cells), h, log, None)
  {
    hide SI.WellFormed, SI.Marshal, SI.Encode, LogCells, ValidLog, IndexOffset, TailCells, EncodeAll;
    LogCellsSnoc(h, log);
    var base, n := LogCells(h, Front(log)), |NewCells(h, log)|;
    var cells := During(d, h, log, n).cells[..|base| + n];
    assert NewCells(h, log)[..n] == NewCells(h, log);
    assert cells == base + NewCells(h, log);
    assert cells == LogCells(h, log) + TailCells(IndexOffset(h, log));
    assert Rest(h, log, None) == TailCells(IndexOffset(h, log)) + [];
  }

  /** A repair that runs to its end leaves an intact, unsigned file. */
  lemma RepairCompletes(d: Disk, h: Pos, log: seq<Session>)
    requires Safe(d, h, log)
    ensures var end := |LogCells(h, log)|;
            var cells := Overwrite(d.cells, end, TailCells(IndexOffset(h, log)))[..end + TAIL_SIZE];
            Intact(d.(cells := cells), h, log, None)
  {
    hide SI.WellFormed, SI.Marshal, SI.Encode, LogCells, ValidLog, IndexOffset, TailCells, Proper, ReadCheckpoint, Scan;
    var end, t := |LogCells(h, log)|, TailCells(IndexOffset(h, log));
    var cells := Overwrite(d.cells, end, t);
    assert cells[..end] == d.cells[..end] == LogCells(h, log);
    assert cells[..end + TAIL_SIZE] == LogCells(h, log) + t;
    assert Rest(h, log, None) == t + [];
  }

  // ---- Signatures ----

  lemma SignatureKinds(n: Pos)
    ensures var b := SignatureCells(n); forall i :: 0 <= i < |b| && b[i].obj.SignatureTrailer? ==> b[i] == Cell(SignatureTrailer(n), i - n)
  {
  }

  /** While a signature is written behind an accepted tail, a trailer at the end of the file
      is the old one, or the new one where it belongs. */
  lemma SigningProper(d: Disk, end: nat, n: Pos, j: nat)
    requires end <= |d.cells| && Proper(d.cells) == end && 0 < j <= |SignatureCells(n)|
    requires |d.cells| == end || |d.cells| > end + SIGNATURE_TRAILER_SIZE
    ensures var cells := Overwrite(d.cells, end, SignatureCells(n)[..j]);
            Proper(cells) == |cells| || (Proper(cells) == end && |cells| > end + SIGNATURE_TRAILER_SIZE)
  {
    hide SignatureCells, Overwrite;
    var b := SignatureCells(n);
    var cells := Overwrite(d.cells, end, b[..j]);
    if Proper(cells) != |cells| {
      TrailerCells(cells);
      var off, q := |cells| - SIGNATURE_TRAILER_SIZE, end + j - 1;
      if q < off {
        SameEnd(cells, d.cells);
      } else {
        SignatureKinds(n);
        assert cells[q] == b[j - 1];
        ReadAtCells(cells, off);
        assert cells[off + (q - off)] == Cell(cells[off].obj, q - off);
      }
    }
  }

  /** Once the old trailer is damaged, everything behind the tail up to it is signature; and a
      checkpoint that starts inside the tail does not get past it. */
  lemma NothingBehindTail(d: Disk, h: Pos, log: seq<Session>, n: Pos, j: nat)
    requires Accepted(d, h, log) && 0 < j <= |SignatureCells(n)| && |LogCells(h, log)| + TAIL_SIZE <= |d.cells|
    ensures var end := |LogCells(h, log)|;
            var cells := Overwrite(d.cells, end + TAIL_SIZE, SignatureCells(n)[..j]);
            Proper(cells) == |cells| > end + TAIL_SIZE ==> ReadCheckpoint(cells, h).None?
  {
    hide SI.WellFormed, SI.Marshal, SI.Encode, LogCells, ValidLog, IndexOffset, SignatureCells, Proper, Scan, Overwrite;
    AcceptedIsSafe(d, h, log);
    var end, b := |LogCells(h, log)|, SignatureCells(n);
    var at := end + TAIL_SIZE;
    var cells := Overwrite(d.cells, at, b[..j]);
    var q := |cells| - TAIL_SIZE;
    OwnCheckpoint(d, h, log);
    FirstIsSignature(n);
    forall t | end <= t < at ensures cells[t] == d.cells[t] {
      assert cells[t] == cells[..at][t] == d.cells[..at][t];
    }
    if Proper(cells) == |cells| > at {
      if q >= at + j {
        SameEnd(cells, d.cells);
      } else {
        assert q >= at ==> cells[q] == b[q - at];
        TailBlocks(cells, h, end, IndexOffset(h, log));
      }
    }
  }

  /** No checkpoint reads behind one that is followed by something else where its tail ends. */
  lemma TailBlocks(cells: seq<Cell>, h: Pos, end: nat, last: nat)
    requires |cells| > end + TAIL_SIZE && !cells[end + TAIL_SIZE].obj.Checkpoint?
    requires forall i :: 0 <= i < CHECKPOINT_SIZE ==> cells[end + i] == Cell(Checkpoint(last), i)
    requires |cells| - TAIL_SIZE >= end + TAIL_SIZE ==> !IsStart(cells[|cells| - TAIL_SIZE])
    ensures ReadCheckpoint(cells, h).None?
  {
    var q, at := |cells| - TAIL_SIZE, end + TAIL_SIZE;
    if q + CHECKPOINT_SIZE <= at {
      var i := q - end;
      assert cells[end + i] == Cell(Checkpoint(last), i);
    } else if q < at && ReadCheckpoint(cells, h).Some? {
      ReadAtCells(cells, q);
    }
  }

  lemma FirstIsSignature(n: Pos)
    ensures SignatureCells(n)[0].obj == Signature(n)
  {
  }

  lemma OwnCheckpoint(d: Disk, h: Pos, log: seq<Session>)
    requires Accepted(d, h, log)
    ensures var end := |LogCells(h, log)|;
            && end + CHECKPOINT_SIZE <= |d.cells|
            && forall i :: 0 <= i < CHECKPOINT_SIZE ==> d.cells[end + i] == Cell(Checkpoint(IndexOffset(h, log)), i)
  {
    hide SI.WellFormed, SI.Marshal, SI.Encode, LogCells, ValidLog, IndexOffset, Proper, ReadAt;
    var cells := d.cells[..Proper(d.cells)];
    ReadAtCells(cells, |LogCells(h, log)|);
  }

  /** Every crash point of writeSignature over an accepted file. */
  lemma SignatureCrashPoint(d: Disk, h: Pos, log: seq<Session>, n: Pos, j: nat)
    requires Accepted(d, h, log) && j <= |SignatureCells(n)|
    ensures |LogCells(h, log)| + TAIL_SIZE <= |d.cells|
    ensures var end := |LogCells(h, log)| + TAIL_SIZE;
            Safe(d.(cells := Overwrite(d.cells, end, SignatureCells(n)[..j])), h, log)
  {
    hide SI.WellFormed, SI.Marshal, SI.Encode, LogCells, ValidLog, IndexOffset, SignatureCells, Proper, Scan, Overwrite, ReadCheckpoint;
    AcceptedIsSafe(d, h, log);
    AcceptedStart(d, h, log);
    var base := LogCells(h, log);
    var end := |base|;
    var d' := d.(cells := Overwrite(d.cells, end + TAIL_SIZE, SignatureCells(n)[..j]));
    var cells := d'.cells;
    if j == 0 {
      SameCells(cells, d.cells);
      assert d' == d;
    } else {
      SigningProper(d, end + TAIL_SIZE, n, j);
      NothingBehindTail(d, h, log, n, j);
      assert cells[..end + TAIL_SIZE] == d.cells[..end + TAIL_SIZE];
      assert cells[end] == cells[..end + TAIL_SIZE][end];
      assert base <= cells by { assert cells[..end] == cells[..end + TAIL_SIZE][..end]; }
      assert cells[..|cells|] == cells;
      ScanStops(cells[..Proper(cells)], end, Some(FoundIn(h, log)));
      OwnCheckpointSeen(cells[..Proper(cells)], h, log);
      Locate(d', h, log);
    }
  }

  lemma SameCells(a: seq<Cell>, b: seq<Cell>)
    requires |a| == |b| && forall i :: 0 <= i < |a| ==> a[i] == b[i]
    ensures a == b
  {
  }

  /** An accepted file has its own checkpoint right behind its log. */
  lemma AcceptedStart(d: Disk, h: Pos, log: seq<Session>)
    requires Accepted(d, h, log)
    ensures var end := |LogCells(h, log)|;
            && LogCells(h, log) <= d.cells && end < |d.cells|
            && d.cells[end] == Cell(Checkpoint(IndexOffset(h, log)), 0)
  {
    hide SI.WellFormed, SI.Marshal, SI.Encode, LogCells, ValidLog, IndexOffset, Proper;
  }

  /** A finished signature leaves an accepted file. */
  lemma SignatureCompletes(d: Disk, h: Pos, log: seq<Session>, n: Pos)
    requires Accepted(d, h, log) && n <= MAX_SIGNATURE_SIZE && |LogCells(h, log)| + TAIL_SIZE <= |d.cells|
    ensures var end := |LogCells(h, log)| + TAIL_SIZE;
            var cells := Overwrite(d.cells, end, SignatureCells(n))[..end + |SignatureCells(n)|];
            && cells == d.cells[..end] + SignatureCells(n) && Proper(cells) == end
            && Accepted(d.(cells := cells), h, log)
  {
    hide SI.WellFormed, SI.Marshal, SI.Encode, LogCells, ValidLog, IndexOffset, ReadCheckpoint;
    AcceptedIsSafe(d, h, log);
    var end := |LogCells(h, log)| + TAIL_SIZE;
    var pre := d.cells[..end];
    var cells := Overwrite(d.cells, end, SignatureCells(n))[..end + |SignatureCells(n)|];
    SignedEnd(pre, n);
    assert cells == pre + SignatureCells(n);
    assert cells[..end] == pre;
  }

  lemma SignedEnd(pre: seq<Cell>, n: Pos)
    requires |pre| >= FOOTER_SIZE && n <= MAX_SIGNATURE_SIZE
    ensures Proper(pre + SignatureCells(n)) == |pre|
  {
    var cells := pre + Encode(Signature(n)) + Encode(SignatureTrailer(n));
    ReadAtEncoded(pre + Encode(Signature(n)), SignatureTrailer(n), []);
    assert cells + [] == cells && pre + SignatureCells(n) == cells;
  }

  lemma DuringZero(d: Disk, h: Pos, log: seq<Session>)
    requires log != [] && |LogCells(h, Front(log))| <= |d.cells|
    ensures During(d, h, log, 0) == d
  {
    hide LogCells, NewCells;
    assert Overwrite(d.cells, |LogCells(h, Front(log))|, []) == d.cells;
  }
}
