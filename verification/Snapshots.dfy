/** What one backup run is asked to record, and which part of it changed
    (diffInputs, io/incremental_write.go). */
module Snapshots {
  import opened Bytes
  import opened ArchiveFile
  import opened ChunkStore
  import A = Attributes
  import SI = SessionIndex
  import Names
  import Chunker

  /** A file as a run finds it: its stat size, unless it cannot be stat'ed; the bytes it
      reads to; whether it opens, and whether reading it ends in an error. */
  datatype Source = Special | Regular(stat: Option<nat>, data: bytes, opens: bool, broken: bool, zstd: bool)

  datatype Input = Input(name: bytes, attributes: A.Attributes, source: Source)

  datatype Run = Run(inputs: seq<Input>, protected: seq<bytes>)

  predicate ValidInput(i: Input, env: Env)
  {
    && (i.source.Special? <==> i.attributes.kind != A.KIND_REGULAR)
    && (i.source.Regular? ==> forall p :: p in Chunker.Split(i.source.data, env.gear) ==> env.occurs(p))
  }

  /** Stored names within one run are distinct. */
  predicate DistinctNames(inputs: seq<Input>)
  {
    forall i, j :: 0 <= i < j < |inputs| ==> inputs[i].name != inputs[j].name
  }

  predicate ValidRun(run: Run, env: Env)
  {
    DistinctNames(run.inputs) && forall i :: 0 <= i < |run.inputs| ==> ValidInput(run.inputs[i], env)
  }

  /** underAny: `name` is one of `prefixes` or lies inside a directory named by one. */
  predicate UnderAny(name: bytes, prefixes: seq<bytes>)
  {
    exists i :: 0 <= i < |prefixes| && (name == prefixes[i] || prefixes[i] + [Names.SLASH] <= name)
  }

  /** What recording this input would store, if it can be read. */
  function Yield(i: Input): Option<Recorded>
  {
    match i.source
    case Special => Some(Recorded(i.attributes, []))
    case Regular(stat, data, opens, broken, _) =>
      if stat.Some? && opens && !broken then Some(Recorded(i.attributes, data)) else None
  }

  /** Same kind, size and attributes as recorded: such a file is not read again. */
  predicate Unchanged(snap: Snapshot, i: Input)
  {
    && i.name in snap && snap[i.name].attributes == i.attributes
    && (i.source.Regular? ==> i.source.stat == Some(|snap[i.name].content|))
  }

  // ---- The promise, name by name ----

  function Find(inputs: seq<Input>, n: bytes): (r: Option<Input>)
    ensures r.Some? ==> r.value in inputs && r.value.name == n
    ensures r.None? ==> forall i :: i in inputs ==> i.name != n
  {
    if inputs == [] then None
    else if inputs[0].name == n then Some(inputs[0])
    else Find(inputs[1..], n)
  }

  function Lookup(snap: Snapshot, n: bytes): Option<Recorded> { if n in snap then Some(snap[n]) else None }

  /** A current file has the bytes read by the run that last recorded it; an unreadable one
      keeps its previous version; one that is gone, and not in an unreadable directory, is
      dropped. */
  function Promise(snap: Snapshot, run: Run, n: bytes): Option<Recorded>
  {
    match Find(run.inputs, n)
    case None => if UnderAny(n, run.protected) then Lookup(snap, n) else None
    case Some(i) =>
      if Unchanged(snap, i) then Lookup(snap, n)
      else match Yield(i) case Some(r) => Some(r) case None => Lookup(snap, n)
  }

  // ---- The same as a session's worth of changes ----

  function Changed(snap: Snapshot, inputs: seq<Input>): seq<Input>
  {
    if inputs == [] then []
    else (if Unchanged(snap, inputs[0]) then [] else [inputs[0]]) + Changed(snap, inputs[1..])
  }

  function NamesOf(inputs: seq<Input>): set<bytes> { set i | i in inputs :: i.name }

  function Deleted(snap: Snapshot, run: Run): set<bytes>
  {
    set n | n in snap && n !in NamesOf(run.inputs) && !UnderAny(n, run.protected)
  }

  /** Records every readable input of `changed`, in order. */
  function RecordAll(snap: Snapshot, changed: seq<Input>): Snapshot
    decreases |changed|
  {
    if changed == [] then snap
    else
      var r := Yield(changed[0]);
      RecordAll(if r.Some? then snap[changed[0].name := r.value] else snap, changed[1..])
  }

  function Next(snap: Snapshot, run: Run): Snapshot
  {
    RecordAll(snap, Changed(snap, run.inputs)) - Deleted(snap, run)
  }

  lemma {:induction false} RecordAllAt(snap: Snapshot, changed: seq<Input>, n: bytes)
    requires DistinctNames(changed)
    ensures Lookup(RecordAll(snap, changed), n) ==
            match Find(changed, n)
            case None => Lookup(snap, n)
            case Some(i) => (match Yield(i) case Some(r) => Some(r) case None => Lookup(snap, n))
    decreases |changed|
  {
    if changed == [] {
    } else {
      var r := Yield(changed[0]);
      var snap' := if r.Some? then snap[changed[0].name := r.value] else snap;
      RecordAllAt(snap', changed[1..], n);
      if changed[0].name == n {
        assert Find(changed[1..], n).None?;
      }
    }
  }

  lemma {:induction false} ChangedIn(snap: Snapshot, inputs: seq<Input>)
    requires DistinctNames(inputs)
    ensures DistinctNames(Changed(snap, inputs))
    ensures forall i :: i in Changed(snap, inputs) ==> i in inputs
    decreases |inputs|
  {
    hide Unchanged;
    if inputs == [] {
    } else {
      var rest, c := inputs[1..], Changed(snap, inputs[1..]);
      ChangedIn(snap, rest);
      forall j | 0 <= j < |c| ensures c[j].name != inputs[0].name {
        assert c[j] in rest;
        var k :| 0 <= k < |rest| && rest[k] == c[j];
        assert inputs[k + 1] == c[j];
      }
      assert Changed(snap, inputs) == c || Changed(snap, inputs) == [inputs[0]] + c;
      OneMoreName(inputs[0], c);
    }
  }

  lemma OneMoreName(i: Input, c: seq<Input>)
    requires DistinctNames(c) && forall j :: 0 <= j < |c| ==> c[j].name != i.name
    ensures DistinctNames([i] + c)
  {
  }

  lemma {:induction false} ChangedSome(snap: Snapshot, inputs: seq<Input>, n: bytes)
    requires DistinctNames(inputs)
    ensures Find(Changed(snap, inputs), n) ==
            match Find(inputs, n) case None => None case Some(i) => if Unchanged(snap, i) then None else Some(i)
    decreases |inputs|
  {
    hide Unchanged;
    if inputs == [] {
    } else {
      var rest, c := inputs[1..], Changed(snap, inputs[1..]);
      ChangedSome(snap, rest, n);
      if inputs[0].name == n {
        assert Find(rest, n).None?;
      }
      if Unchanged(snap, inputs[0]) {
        assert Changed(snap, inputs) == c;
      } else {
        assert Changed(snap, inputs) == [inputs[0]] + c;
        assert ([inputs[0]] + c)[1..] == c;
      }
    }
  }

  /** A run's changes give every name exactly what was promised for it. */
  lemma NextIsPromised(snap: Snapshot, run: Run, n: bytes)
    requires DistinctNames(run.inputs)
    ensures Lookup(Next(snap, run), n) == Promise(snap, run, n)
  {
    hide Unchanged, UnderAny, Yield, Find, RecordAll, Changed;
    ChangedSome(snap, run.inputs, n);
    ChangedIn(snap, run.inputs);
    RecordAllAt(snap, Changed(snap, run.inputs), n);
    var f := Find(run.inputs, n);
    if f.Some? {
      assert f.value.name in NamesOf(run.inputs);
    }
  }

  // ---- What a run leaves, field by field ----

  predicate Readable(i: Input) { i.source.Regular? ==> i.source.stat.Some? && i.source.opens && !i.source.broken }

  /** What an input reads to; a directory or link has no bytes of its own. */
  function DataOf(i: Input): bytes { if i.source.Regular? then i.source.data else [] }

  predicate Kept(before: Snapshot, after: Snapshot, n: bytes)
  {
    (n in after <==> n in before) && (n in before ==> after[n] == before[n])
  }

  /** A readable input that is new, or whose attributes or size differ from the record, is
      recorded as it reads; every other keeps its record. */
  predicate InputTaken(before: Snapshot, i: Input, after: Snapshot)
  {
    var n := i.name;
    if Readable(i) && (n !in before || before[n].attributes != i.attributes || (i.source.Regular? && i.source.stat.value != |before[n].content|))
    then n in after && after[n] == Recorded(i.attributes, DataOf(i))
    else Kept(before, after, n)
  }

  /** A name without an input keeps its record if it is, or lies under, one that could not be
      read; else it goes. */
  ghost predicate OtherTaken(before: Snapshot, run: Run, after: Snapshot, n: bytes)
  {
    if exists p :: p in run.protected && (n == p || p + [Names.SLASH] <= n) then Kept(before, after, n) else n !in after
  }

  ghost predicate Took(before: Snapshot, run: Run, after: Snapshot)
  {
    && (forall i :: i in run.inputs ==> InputTaken(before, i, after))
    && (forall n: bytes :: (forall i :: i in run.inputs ==> i.name != n) ==> OtherTaken(before, run, after, n))
  }

  /** A run's changes leave exactly that. */
  lemma NextTook(snap: Snapshot, run: Run)
    requires DistinctNames(run.inputs)
    ensures Took(snap, run, Next(snap, run))
  {
    hide Next, UnderAny, Find;
    var after := Next(snap, run);
    forall i | i in run.inputs ensures InputTaken(snap, i, after) {
      NextIsPromised(snap, run, i.name);
      FindsInput(run.inputs, i);
    }
    forall n: bytes | forall i :: i in run.inputs ==> i.name != n ensures OtherTaken(snap, run, after, n) {
      NextIsPromised(snap, run, n);
      ProtectedIff(n, run.protected);
    }
  }

  lemma FindsInput(inputs: seq<Input>, i: Input)
    requires DistinctNames(inputs) && i in inputs
    ensures Find(inputs, i.name) == Some(i)
  {
    var f := Find(inputs, i.name).value;
    var a :| 0 <= a < |inputs| && inputs[a] == i;
    var b :| 0 <= b < |inputs| && inputs[b] == f;
  }

  lemma ProtectedIff(n: bytes, protected: seq<bytes>)
    ensures UnderAny(n, protected) <==> exists p :: p in protected && (n == p || p + [Names.SLASH] <= n)
  {
    if UnderAny(n, protected) {
      var i :| 0 <= i < |protected| && (n == protected[i] || protected[i] + [Names.SLASH] <= n);
      assert protected[i] in protected;
    }
    if p :| p in protected && (n == p || p + [Names.SLASH] <= n) {
      var i :| 0 <= i < |protected| && protected[i] == p;
      assert n == protected[i] || protected[i] + [Names.SLASH] <= n;
    }
  }

  /** ... and nothing else could be meant. */
  lemma TookDetermines(before: Snapshot, run: Run, a: Snapshot, b: Snapshot)
    requires Took(before, run, a) && Took(before, run, b)
    ensures a == b
  {
    forall n: bytes ensures Lookup(a, n) == Lookup(b, n) {
      if i :| i in run.inputs && i.name == n {
        assert InputTaken(before, i, a) && InputTaken(before, i, b);
      } else {
        assert OtherTaken(before, run, a, n) && OtherTaken(before, run, b, n);
      }
    }
    SameSnapshot(a, b);
  }

  lemma SameSnapshot(a: Snapshot, b: Snapshot)
    requires forall n: bytes :: Lookup(a, n) == Lookup(b, n)
    ensures a == b
  {
    forall n: bytes ensures (n in a <==> n in b) && (n in a ==> a[n] == b[n]) {
      assert Lookup(a, n) == Lookup(b, n);
    }
  }

  /** With nothing to record and nothing deleted, the snapshot does not change. */
  lemma {:induction false} NothingRecorded(snap: Snapshot, changed: seq<Input>)
    requires forall i :: i in changed ==> Yield(i).None?
    ensures RecordAll(snap, changed) == snap
    decreases |changed|
  {
    if changed == [] {
    } else {
      assert changed[0] in changed;
      NothingRecorded(snap, changed[1..]);
    }
  }

  // ---- diffInputs ----

  /** The archive's newest files are those of `snap`. */
  predicate Matches(files: map<bytes, SI.FileVersion>, snap: Snapshot)
  {
    && files.Keys == snap.Keys
    && forall n :: n in files ==> files[n].attributes == snap[n].attributes && files[n].size == |snap[n].content|
  }

  /** Compares the inputs with the archive's newest files. */
  method DiffInputs(files: map<bytes, SI.FileVersion>, run: Run, ghost snap: Snapshot) returns (changed: seq<Input>, deleted: seq<bytes>)
    requires Matches(files, snap)
    ensures changed == Changed(snap, run.inputs)
    ensures ToSet(deleted) == Deleted(snap, run) && Ascending(deleted)
  {
    hide Less, Changed, NamesOf, UnderAny;
    changed := [];
    var seen: set<bytes> := {};
    DiffEnds(snap, run.inputs);
    for k := 0 to |run.inputs|
      invariant seen == NamesOf(run.inputs[..k])
      invariant changed + Changed(snap, run.inputs[k..]) == Changed(snap, run.inputs)
    {
      var i := run.inputs[k];
      SplitAt(snap, run.inputs, k);
      seen := seen + {i.name};
      var same := i.name in files && files[i.name].attributes == i.attributes;
      if i.source.Regular? {
        same := same && i.source.stat == Some(files[i.name].size);
      }
      if !same {
        changed := changed + [i];
      }
    }
    deleted := FindDeleted(files.Keys, seen, run.protected);
  }

  lemma DiffEnds(snap: Snapshot, inputs: seq<Input>)
    ensures NamesOf(inputs[..0]) == {} && Changed(snap, inputs[|inputs|..]) == []
    ensures inputs[..|inputs|] == inputs == inputs[0..]
  {
  }

  lemma SplitAt(snap: Snapshot, inputs: seq<Input>, k: nat)
    requires k < |inputs|
    ensures NamesOf(inputs[..k + 1]) == NamesOf(inputs[..k]) + {inputs[k].name}
    ensures Changed(snap, inputs[k..]) == (if Unchanged(snap, inputs[k]) then [] else [inputs[k]]) + Changed(snap, inputs[k + 1..])
  {
    hide Unchanged;
    assert inputs[..k + 1] == inputs[..k] + [inputs[k]];
    assert inputs[k] in inputs[..k + 1];
    forall i | i in inputs[..k] ensures i in inputs[..k + 1] {
    }
    assert inputs[k..][0] == inputs[k] && inputs[k..][1..] == inputs[k + 1..];
  }

  // ---- Byte order of names ----

  predicate Less(a: bytes, b: bytes)
  {
    b != [] && (a == [] || a[0] < b[0] || (a[0] == b[0] && Less(a[1..], b[1..])))
  }

  predicate Ascending(names: seq<bytes>) { forall i, j :: 0 <= i < j < |names| ==> Less(names[i], names[j]) }

  predicate IsFirst(n: bytes, names: set<bytes>) { n in names && forall m :: m in names && m != n ==> Less(n, m) }

  lemma {:induction false} LessTotal(a: bytes, b: bytes)
    ensures a == b || Less(a, b) || Less(b, a)
  {
    if a != [] && b != [] && a[0] == b[0] {
      LessTotal(a[1..], b[1..]);
      assert a == [a[0]] + a[1..] && b == [b[0]] + b[1..];
    }
  }

  lemma {:induction false} LessTransitive(a: bytes, b: bytes, c: bytes)
    requires Less(a, b) && Less(b, c)
    ensures Less(a, c)
  {
    if a != [] && a[0] == b[0] == c[0] {
      LessTransitive(a[1..], b[1..], c[1..]);
    }
  }

  lemma {:induction false} FirstExists(names: set<bytes>)
    requires names != {}
    ensures exists n :: IsFirst(n, names)
    decreases |names|
  {
    hide Less;
    var x :| x in names;
    if names == {x} {
      assert IsFirst(x, names);
    } else {
      var others := names - {x};
      FirstExists(others);
      var n :| IsFirst(n, others);
      LessTotal(x, n);
      if Less(n, x) {
        assert IsFirst(n, names);
      } else {
        forall m | m in names && m != x ensures Less(x, m) {
          if m != n { LessTransitive(x, n, m); }
        }
        assert IsFirst(x, names);
      }
    }
  }

  /** Walks the archive's files by name and keeps those neither seen nor protected. */
  method FindDeleted(files: set<bytes>, seen: set<bytes>, protected: seq<bytes>) returns (deleted: seq<bytes>)
    ensures ToSet(deleted) == set n | n in files && n !in seen && !UnderAny(n, protected)
    ensures Ascending(deleted)
  {
    hide UnderAny, Less;
    deleted := [];
    var todo := files;
    while todo != {}
      invariant todo <= files
      invariant ToSet(deleted) == set n | n in files && n !in todo && n !in seen && !UnderAny(n, protected)
      invariant Ascending(deleted) && forall i, m :: 0 <= i < |deleted| && m in todo ==> Less(deleted[i], m)
      decreases |todo|
    {
      FirstExists(todo);
      var n :| n in todo && IsFirst(n, todo);
      ghost var before := deleted;
      if n !in seen && !UnderAny(n, protected) {
        deleted := deleted + [n];
        assert ToSet(deleted) == ToSet(before) + {n};
      }
      todo := todo - {n};
    }
  }
}
