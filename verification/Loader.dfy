/** Loading in the source's own form (io/incremental.go): loops over the chain and the
    entries, and an archive state that apply mutates. */
module Loader {
  import opened Bytes
  import opened ArchiveFile
  import SI = SessionIndex

  function Reverse<T>(s: seq<T>): (r: seq<T>)
    ensures |r| == |s| && forall i :: 0 <= i < |s| ==> r[i] == s[|s| - 1 - i]
  {
    seq(|s|, i requires 0 <= i < |s| => s[|s| - 1 - i])
  }

  /** Swaps the ends until they meet. */
  method ReverseInPlace(s: seq<Link>) returns (r: seq<Link>)
    ensures r == Reverse(s)
  {
    r := s;
    var i, j := 0, |s| - 1;
    while i < j
      invariant 0 <= i && j == |s| - 1 - i && |r| == |s| && i <= j + 1
      invariant forall k :: 0 <= k < i ==> r[k] == s[|s| - 1 - k]
      invariant forall k :: j < k < |s| ==> r[k] == s[|s| - 1 - k]
      invariant forall k :: i <= k <= j ==> r[k] == s[k]
      decreases j - i
    {
      r := r[i := r[j]][j := r[i]];
      i, j := i + 1, j - 1;
    }
  }

  /** What reading the rest of a chain adds under links already read, newest first. */
  function Attach(older: Option<seq<Link>>, chain: seq<Link>): Option<seq<Link>>
    requires older.Some? ==> older.value != []
  {
    if chain == [] then older
    else match older
      case None => None
      case Some(ls) =>
        if Last(ls).index.session != Last(chain).index.session - 1 then None else Some(ls + Reverse(chain))
  }

  /** ReadChain at `x`, given what lies below it. */
  function AddLink(older: Option<seq<Link>>, x: Link): Option<seq<Link>>
    requires older.Some? ==> older.value != []
  {
    match older
    case None => None
    case Some(ls) => if Last(ls).index.session != x.index.session - 1 then None else Some(ls + [x])
  }

  lemma AttachStep(older: Option<seq<Link>>, chain: seq<Link>, x: Link)
    requires older.Some? ==> older.value != []
    requires chain != [] ==> x.index.session == Last(chain).index.session - 1
    ensures Attach(AddLink(older, x), chain) == Attach(older, chain + [x])
  {
    assert Last(chain + [x]) == x;
    if AddLink(older, x).Some? {
      var ls := older.value;
      assert Last(ls + [x]) == x;
      assert ls + [x] + Reverse(chain) == ls + Reverse(chain + [x]);
      assert chain == [] ==> ls + [x] == ls + Reverse(chain + [x]);
    }
  }

  lemma AttachFirst(chain: seq<Link>, x: Link)
    requires chain != [] ==> x.index.session == Last(chain).index.session - 1
    ensures Attach(Some([x]), chain) == Some(Reverse(chain + [x]))
  {
    assert [x] + Reverse(chain) == Reverse(chain + [x]);
    assert chain == [] ==> [x] == Reverse(chain + [x]);
  }

  /** readIndexChain. */
  method ReadIndexChain(cells: seq<Cell>, h: nat, lastIndex: nat) returns (r: Option<seq<Link>>)
    ensures r == ReadChain(cells, h, lastIndex)
  {
    hide ReadIndexAt, SI.WellFormed;
    var chain: seq<Link> := [];
    var off: nat := lastIndex;
    while true
      invariant ReadChain(cells, h, lastIndex) == Attach(ReadChain(cells, h, off), chain)
      decreases off
    {
      var si := ReadIndexAt(cells, off);
      if si.None? {
        return None;
      }
      var x := si.value;
      if chain != [] && x.session != Last(chain).index.session - 1 {
        assert ReadChain(cells, h, off).Some? ==> Last(ReadChain(cells, h, off).value).index == x;
        return None;
      }
      ghost var before := chain;
      chain := chain + [Link(x, off)];
      if x.session == 1 {
        if x.prevIndex != 0 {
          return None;
        }
        AttachFirst(before, Link(x, off));
        assert ReadChain(cells, h, off) == Some([Link(x, off)]);
        var ordered := ReverseInPlace(chain);
        return Some(ordered);
      }
      if x.prevIndex < h || x.prevIndex >= off {
        return None;
      }
      AttachStep(ReadChain(cells, h, x.prevIndex), before, Link(x, off));
      assert ReadChain(cells, h, off) == AddLink(ReadChain(cells, h, x.prevIndex), Link(x, off));
      off := x.prevIndex;
    }
  }

  /** scanForLastIndex. */
  method ScanForLastIndex(cells: seq<Cell>, start: nat) returns (r: Option<Found>)
    ensures r == Scan(cells, start, None)
  {
    hide SI.Parse;
    r := None;
    var off := start;
    while true
      invariant Scan(cells, start, None) == Scan(cells, off, r)
      decreases |cells| - off
    {
      match ReadAt(cells, off)
      case Some(Pack(_, size)) => off := off + size;
      case Some(Index(payload, size)) =>
        if !SI.Parse(payload).Parsed? {
          return;
        }
        r := Some(Found(off, off + size));
        off := off + size;
      case _ => return;
    }
  }

  class State {
    var chunks: seq<ChunkLocation>
    var files: map<bytes, SI.FileVersion>

    constructor ()
      ensures Contents(chunks, files) == EMPTY
    {
      chunks, files := [], map[];
    }

    /** Appends a session's chunk locations. */
    method AddChunks(x: SI.Index)
      requires SI.WellFormed(x)
      modifies this`chunks
      ensures chunks == old(chunks) + Locations(x)
    {
      hide SI.WellFormed;
      for i := 0 to |x.chunks|
        invariant chunks == old(chunks) + Locations(x)[..i]
      {
        assert Locations(x)[..i + 1] == Locations(x)[..i] + [Locations(x)[i]];
        assert x.chunks[i].pack < |x.packs| by { PackInRange(x, i); }
        chunks := chunks + [Location(x.chunks[i], x.packs)];
      }
      assert Locations(x)[..|x.chunks|] == Locations(x);
    }

    /** Records the session's file versions; each must add up to its size. */
    method AddFiles(fs: seq<SI.FileVersion>) returns (ok: bool)
      requires forall i :: 0 <= i < |fs| ==> InRange(fs[i].chunks, chunks)
      modifies this`files
      ensures match ApplyFiles(old(files), fs, chunks) case None => !ok case Some(m) => ok && files == m
    {
      assert fs[0..] == fs;
      for i := 0 to |fs|
        invariant ApplyFiles(old(files), fs, chunks) == ApplyFiles(files, fs[i..], chunks)
      {
        assert fs[i..][0] == fs[i] && fs[i..][1..] == fs[i + 1..];
        var total := SumRaw(fs[i].chunks);
        if total != fs[i].size {
          return false;
        }
        files := files[fs[i].name := fs[i]];
      }
      assert fs[|fs|..] == [];
      return true;
    }

    method SumRaw(ns: seq<u64>) returns (total: nat)
      requires InRange(ns, chunks)
      ensures total == RawSum(ns, chunks)
    {
      total := 0;
      assert ns[0..] == ns;
      for i := 0 to |ns|
        invariant RawSum(ns, chunks) == total + RawSum(ns[i..], chunks)
      {
        assert ns[i..][0] == ns[i] && ns[i..][1..] == ns[i + 1..];
        total := total + chunks[ns[i]].raw;
      }
      assert ns[|ns|..] == [];
    }

    method DeleteFiles(names: seq<bytes>)
      modifies this`files
      ensures files == old(files) - ToSet(names)
    {
      for i := 0 to |names|
        invariant files == old(files) - ToSet(names[..i])
      {
        assert names[..i + 1] == names[..i] + [names[i]];
        assert ToSet(names[..i + 1]) == ToSet(names[..i]) + {names[i]};
        files := files - {names[i]};
      }
      assert names[..|names|] == names;
    }

    /** apply. */
    method ApplySession(x: SI.Index, indexOffset: nat, h: nat) returns (ok: bool)
      requires SI.WellFormed(x)
      modifies this
      ensures match Apply(old(Contents(chunks, files)), x, indexOffset, h)
              case None => !ok
              case Some(c) => ok && Contents(chunks, files) == c
    {
      hide SI.WellFormed, ApplyFiles;
      if x.firstChunk != |chunks| {
        return false;
      }
      for i := 0 to |x.packs|
        invariant forall k :: 0 <= k < i ==> h <= x.packs[k] < indexOffset
      {
        if x.packs[i] < h || x.packs[i] >= indexOffset {
          return false;
        }
      }
      AddChunks(x);
      FilesInRange(x, chunks);
      ok := AddFiles(x.files);
      if ok {
        DeleteFiles(x.deleted);
      }
    }
  }

  lemma PackInRange(x: SI.Index, i: nat)
    requires SI.WellFormed(x) && i < |x.chunks|
    ensures x.chunks[i].pack < |x.packs|
  {
    assert x.chunks[i] in x.chunks;
  }

  lemma {:induction false} ApplyChainFails(ls: seq<Link>, k: nat, h: nat)
    requires AllWellFormed(ls) && k <= |ls| && ApplyChain(ls[..k], h).None?
    ensures ApplyChain(ls, h).None?
    decreases |ls|
  {
    hide SI.WellFormed, Apply;
    if k == |ls| {
      assert ls[..k] == ls;
    } else {
      assert Front(ls)[..k] == ls[..k];
      ApplyChainFails(Front(ls), k, h);
    }
  }

  /** loadIncremental. */
  method LoadIncremental(d: Disk, h: nat) returns (r: Option<ArchiveFile.State>)
    ensures r == Load(d, h)
  {
    hide ReadCheckpoint, Scan, ReadChain, Proper, SI.WellFormed, Apply;
    var cells := d.cells[..Proper(d.cells)];
    var checkpoint := ReadCheckpoint(cells, h);
    var found := checkpoint;
    if checkpoint.None? {
      found := ScanForLastIndex(cells, h);
      if found.None? {
        return None;
      }
    }
    var chain := ReadIndexChain(cells, h, found.value.lastIndex);
    if chain.None? {
      return None;
    }
    var ls := chain.value;
    ChainParsed(cells, h, found.value.lastIndex);
    var newest := Last(ls).index.session;
    if newest < d.count {
      return None;
    }
    var st := new State();
    for i := 0 to |ls|
      invariant fresh(st) && ApplyChain(ls[..i], h) == Some(Contents(st.chunks, st.files))
    {
      assert Front(ls[..i + 1]) == ls[..i] && Last(ls[..i + 1]) == ls[i];
      var ok := st.ApplySession(ls[i].index, ls[i].offset, h);
      if !ok {
        ApplyChainFails(ls, i + 1, h);
        return None;
      }
    }
    assert ls[..|ls|] == ls;
    return Some(ArchiveFile.State(newest, found.value, checkpoint.None?, Contents(st.chunks, st.files)));
  }
}
