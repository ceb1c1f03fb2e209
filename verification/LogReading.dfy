/** What the loader (io/incremental.go) reads back from a file that begins with a valid log. */
module LogReading {
  import opened Bytes
  import opened ArchiveFile
  import SI = SessionIndex

  function ChainOf(h: Pos, log: seq<Session>): seq<Link>
  {
    if log == [] then [] else ChainOf(h, Front(log)) + [Link(Last(log).index, IndexOffset(h, log))]
  }

  lemma ReadsLastIndex(h: Pos, log: seq<Session>, cells: seq<Cell>)
    requires log != [] && ValidLog(h, log) && LogCells(h, log) <= cells
    ensures ReadIndexAt(cells, IndexOffset(h, log)) == Some(Last(log).index)
    ensures ReadAt(cells, IndexOffset(h, log)) == Some(IndexObj(Last(log)))
    ensures SI.Parse(IndexObj(Last(log)).payload).Parsed?
  {
    hide SI.Parse, SI.Encode, SI.WellFormed, SI.Marshal, LogCells, Replay;
    LogCellsStep(h, log);
    ReadAtPrefix(LogCells(h, log), cells, IndexOffset(h, log));
    IndexParses(Last(log));
  }

  lemma {:induction false} ReadsChain(h: Pos, log: seq<Session>, cells: seq<Cell>)
    requires log != [] && ValidLog(h, log) && LogCells(h, log) <= cells
    ensures ReadChain(cells, h, IndexOffset(h, log)) == Some(ChainOf(h, log))
    decreases |log|
  {
    hide SI.Parse, SI.Encode, SI.WellFormed, SI.Marshal, Replay, ReadIndexAt;
    ReadsLastIndex(h, log, cells);
    if |log| == 1 {
      assert ChainOf(h, Front(log)) == [];
      assert ChainOf(h, log) == [Link(Last(log).index, IndexOffset(h, log))];
      assert Last(log).index.session == 1 && Last(log).index.prevIndex == 0;
    } else {
      assert LogCells(h, Front(log)) <= cells;
      ReadsChain(h, Front(log), cells);
      LogCellsStep(h, Front(log));
    }
  }

  lemma {:induction false} AppliesChain(h: Pos, log: seq<Session>)
    requires ValidLog(h, log)
    ensures AllWellFormed(ChainOf(h, log))
    ensures |ChainOf(h, log)| == |log|
    ensures ApplyChain(ChainOf(h, log), h) == Replay(h, log) && Replay(h, log).Some?
    decreases |log|
  {
    hide SI.WellFormed, SI.Marshal, Apply;
    if log == [] {
    } else {
      AppliesChain(h, Front(log));
      assert Front(ChainOf(h, log)) == ChainOf(h, Front(log));
    }
  }

  lemma {:induction false} ScanEntries(pre: seq<Cell>, packs: seq<Obj>, post: seq<Cell>, seen: Option<Found>)
    requires AllPacks(packs)
    ensures Scan(pre + EncodeAll(packs) + post, |pre|, seen) ==
            Scan(pre + EncodeAll(packs) + post, |pre| + |EncodeAll(packs)|, seen)
    decreases |packs|
  {
    hide ReadAt, Encode, SI.Parse;
    var cells := pre + EncodeAll(packs) + post;
    if packs == [] {
    } else {
      var o := packs[0];
      var rest := EncodeAll(packs[1..]);
      var pre' := pre + Encode(o);
      assert EncodeAll(packs) == Encode(o) + rest;
      assert cells == pre' + (rest + post) && cells == pre' + rest + post;
      ReadAtEncoded(pre, o, rest + post);
      ScanEntries(pre', packs[1..], post, seen);
    }
  }

  function FoundIn(h: Pos, log: seq<Session>): Found
    requires log != []
  {
    Found(IndexOffset(h, log), |LogCells(h, log)|)
  }

  lemma {:induction false} ScansLog(h: Pos, log: seq<Session>, cells: seq<Cell>)
    requires ValidLog(h, log) && LogCells(h, log) <= cells
    ensures Scan(cells, h, None) ==
            Scan(cells, |LogCells(h, log)|, if log == [] then None else Some(FoundIn(h, log)))
    decreases |log|
  {
    hide SI.Parse, SI.Encode, SI.WellFormed, SI.Marshal, Replay, ReadAt, EncodeAll;
    if log == [] {
    } else {
      var s, pre := Last(log), LogCells(h, Front(log));
      LogCellsStep(h, log);
      ScansLog(h, Front(log), cells);
      var seen := if Front(log) == [] then None else Some(FoundIn(h, Front(log)));
      var at := |pre| + |EncodeAll(s.packs)|;
      var post := cells[at..];
      assert cells[..at] == LogCells(h, log)[..at] == pre + EncodeAll(s.packs);
      assert cells == pre + EncodeAll(s.packs) + post;
      assert pre <= cells;
      ScanEntries(pre, s.packs, post, seen);
      ReadsLastIndex(h, log, cells);
    }
  }

  /** The state of a valid log. */
  function StateOf(h: Pos, log: seq<Session>, recovered: bool): State
    requires log != [] && ValidLog(h, log)
  {
    State(|log|, FoundIn(h, log), recovered, Replay(h, log).value)
  }

  /** When the newest session of `log` is located, loading gives exactly its state. */
  lemma LoadsLocated(d: Disk, h: Pos, log: seq<Session>, recovered: bool)
    requires log != [] && ValidLog(h, log) && d.count <= |log|
    requires var cells := d.cells[..Proper(d.cells)];
             && LogCells(h, log) <= cells
             && (recovered ==> ReadCheckpoint(cells, h).None? && Scan(cells, h, None) == Some(FoundIn(h, log)))
             && (!recovered ==> ReadCheckpoint(cells, h) == Some(FoundIn(h, log)))
    ensures Load(d, h) == Some(StateOf(h, log, recovered))
  {
    hide SI.WellFormed, SI.Marshal, ReadCheckpoint, Scan, Proper, LogCells, IndexOffset, Apply, ReadChain, ApplyChain, ValidLog, Replay, ChainOf;
    var cells := d.cells[..Proper(d.cells)];
    ReadsChain(h, log, cells);
    AppliesChain(h, log);
    NewestInChain(h, log);
  }

  lemma NewestInChain(h: Pos, log: seq<Session>)
    requires log != [] && ValidLog(h, log)
    ensures ChainOf(h, log) != [] && Last(ChainOf(h, log)).index.session == |log|
  {
    hide SI.WellFormed, SI.Marshal, LogCells, IndexOffset, Replay;
  }
}
