/** Decrypting one entry's data blocks: decryptBlocksParallel, decryptBlocksSequential
    (io/decrypt_pipeline.go) and streamDataBlocks around them (io/extractor.go). */
module Decryption {
  import opened Bytes
  import OP = OrderedPipeline
  import Runs = PipelineRuns

  /** DecryptBlock's result for one block. */
  datatype Opened = Plain(plaintext: bytes) | BadAuth | BadCompression

  /** How the block stream ends: at its sentinel, or in a read error. */
  datatype End = Sentinel | ReadError(fatal: bool)

  datatype Stream = Stream(blocks: seq<Opened>, end: End)

  datatype Error = Read(fatal: bool) | Auth | Compression | Sink

  /** What block `i` reports, if anything, when it is the first to fail. */
  function ErrorAt(x: Stream, sinkFails: nat -> bool, i: nat): Option<Error>
    requires i < |x.blocks|
  {
    match x.blocks[i]
    case BadAuth => Some(Auth)
    case BadCompression => Some(Compression)
    case Plain(_) => if sinkFails(i) then Some(Sink) else None
  }

  function Failing(x: Stream, sinkFails: nat -> bool): nat -> bool
  {
    i => 0 <= i < |x.blocks| && ErrorAt(x, sinkFails, i).Some?
  }

  function Reaching(x: Stream): nat -> bool
  {
    i => 0 <= i < |x.blocks| && x.blocks[i].Plain?
  }

  /** The first `n` blocks handled in order: plaintexts passed to the sink, and the first error. */
  function Prefix(x: Stream, sinkFails: nat -> bool, n: nat): (r: (seq<bytes>, Option<Error>))
    requires n <= |x.blocks|
  {
    if n == 0 then ([], None)
    else
      var (sunk, err) := Prefix(x, sinkFails, n - 1);
      if err.Some? then (sunk, err)
      else (if x.blocks[n - 1].Plain? then sunk + [x.blocks[n - 1].plaintext] else sunk, ErrorAt(x, sinkFails, n - 1))
  }

  function EndError(x: Stream): Option<Error> { if x.end.ReadError? then Some(Read(x.end.fatal)) else None }

  /** decryptBlocksSequential: a read error is returned at once, over an earlier block error. */
  method DecryptBlocksSequential(x: Stream, sinkFails: nat -> bool) returns (sunk: seq<bytes>, err: Option<Error>, pulled: nat)
    ensures sunk == Prefix(x, sinkFails, |x.blocks|).0
    ensures err == if EndError(x).Some? then EndError(x) else Prefix(x, sinkFails, |x.blocks|).1
    ensures pulled == |x.blocks| + 1
  {
    var firstErr: Option<Error> := None;
    sunk, pulled := [], 0;
    while true
      invariant pulled <= |x.blocks| && (sunk, firstErr) == Prefix(x, sinkFails, pulled)
      decreases |x.blocks| - pulled
    {
      var i := pulled;
      pulled := pulled + 1;
      if i == |x.blocks| {
        if x.end.ReadError? {
          return sunk, Some(Read(x.end.fatal)), pulled;
        }
        return sunk, firstErr, pulled;
      }
      if firstErr.Some? {
        continue;
      }
      match x.blocks[i]
      case BadAuth => firstErr := Some(Auth);
      case BadCompression => firstErr := Some(Compression);
      case Plain(pt) =>
        sunk := sunk + [pt];
        if sinkFails(i) {
          firstErr := Some(Sink);
        }
    }
  }

  // ---- The parallel form ----

  const DEPTH := 4

  function ParallelConfig(x: Stream, workers: Pos, sinkFails: nat -> bool): OP.Config
  {
    OP.Config(workers, workers * DEPTH, None, false, |x.blocks|, OP.AtOnce, Failing(x, sinkFails), Reaching(x))
  }

  function Sunk(x: Stream, out: seq<OP.Content>): seq<bytes>
    requires forall i :: 0 <= i < |out| ==> out[i].block < |x.blocks| && x.blocks[out[i].block].Plain?
  {
    seq(|out|, i requires 0 <= i < |out| => x.blocks[out[i].block].plaintext)
  }

  /** decryptBlocksParallel's error: a block error comes before the read error. */
  function ParallelError(x: Stream, sinkFails: nat -> bool, s: OP.State): Option<Error>
    requires s.failed.Some? ==> s.failed.value < |x.blocks|
  {
    if s.failed.Some? then ErrorAt(x, sinkFails, s.failed.value) else EndError(x)
  }

  lemma {:induction false} SequentialIsPrefix(x: Stream, workers: Pos, sinkFails: nat -> bool, n: nat)
    requires n <= |x.blocks|
    ensures var (out, failed) := OP.Sequential(ParallelConfig(x, workers, sinkFails), n);
            && (forall i :: 0 <= i < |out| ==> out[i].block < n && x.blocks[out[i].block].Plain? && out[i].done)
            && Sunk(x, out) == Prefix(x, sinkFails, n).0
            && (failed.Some? ==> failed.value < n && ErrorAt(x, sinkFails, failed.value) == Prefix(x, sinkFails, n).1)
            && (failed.Some? <==> Prefix(x, sinkFails, n).1.Some?)
  {
    if n > 0 {
      var c := ParallelConfig(x, workers, sinkFails);
      SequentialIsPrefix(x, workers, sinkFails, n - 1);
      var (before, failed) := OP.Sequential(c, n - 1);
      var (out, _) := OP.Sequential(c, n);
      if failed.None? && x.blocks[n - 1].Plain? {
        assert out == before + [OP.Content(n - 1, true)];
        assert Sunk(x, out) == Sunk(x, before) + [x.blocks[n - 1].plaintext];
      } else {
        assert out == before;
      }
    }
  }

  // ---- As seen from streamDataBlocks ----

  datatype Class = Truncated | Fatal | WriteFailed | IntegrityFailed | AuthFailed

  /** The classification in streamDataBlocks: a recorded read error comes first. */
  function Classify(err: Option<Error>, x: Stream): Option<Class>
  {
    if err.None? then None
    else if x.end.ReadError? then Some(if x.end.fatal then Fatal else Truncated)
    else match err.value
      case Sink => Some(WriteFailed)
      case Compression => Some(IntegrityFailed)
      case Auth => Some(AuthFailed)
      case Read(fatal) => Some(if fatal then Fatal else Truncated)
  }

  /** Block `i` is the first that does not open or whose plaintext the sink refuses. */
  ghost predicate FirstFailure(x: Stream, sinkFails: nat -> bool, i: nat)
  {
    && i < |x.blocks| && (x.blocks[i].Plain? ==> sinkFails(i))
    && forall j :: 0 <= j < i ==> x.blocks[j].Plain? && !sinkFails(j)
  }

  lemma {:induction false} PrefixStops(x: Stream, sinkFails: nat -> bool, i: nat, n: nat)
    requires n <= |x.blocks| && i <= |x.blocks| && forall j :: 0 <= j < i ==> x.blocks[j].Plain? && !sinkFails(j)
    ensures n <= i ==> Prefix(x, sinkFails, n).1.None?
    ensures i < n && FirstFailure(x, sinkFails, i) ==> Prefix(x, sinkFails, n).1 == ErrorAt(x, sinkFails, i)
    ensures n <= i ==> Passed(x, Prefix(x, sinkFails, n).0, n)
    ensures i < n && FirstFailure(x, sinkFails, i) ==> Passed(x, Prefix(x, sinkFails, n).0, if x.blocks[i].Plain? then i + 1 else i)
  {
    if n > 0 {
      PrefixStops(x, sinkFails, i, n - 1);
    }
  }

  /** The sink was given the plaintexts of the first `n` blocks, in order. */
  predicate Passed(x: Stream, sunk: seq<bytes>, n: nat)
    requires n <= |x.blocks|
  {
    |sunk| == n && forall j :: 0 <= j < n ==> x.blocks[j].Plain? && sunk[j] == x.blocks[j].plaintext
  }

  /** How streamDataBlocks reports each failure: a read error before anything else, and without
      one the first failing block: a forged one, one that does not decompress, or a failed write. */
  lemma ClassOfStream(x: Stream, sinkFails: nat -> bool)
    ensures var sunk := Prefix(x, sinkFails, |x.blocks|).0;
            && ((forall j :: 0 <= j < |x.blocks| ==> x.blocks[j].Plain? && !sinkFails(j)) ==> Passed(x, sunk, |x.blocks|))
            && (forall i: nat :: FirstFailure(x, sinkFails, i) ==> Passed(x, sunk, if x.blocks[i].Plain? then i + 1 else i))
    ensures var err := if EndError(x).Some? then EndError(x) else Prefix(x, sinkFails, |x.blocks|).1;
            var c := Classify(err, x);
            && (x.end == ReadError(true) ==> c == Some(Fatal)) && (x.end == ReadError(false) ==> c == Some(Truncated))
            && (x.end == Sentinel && (forall j :: 0 <= j < |x.blocks| ==> x.blocks[j].Plain? && !sinkFails(j)) ==> c == None)
            && (forall i: nat :: x.end == Sentinel && FirstFailure(x, sinkFails, i) ==>
                  && (x.blocks[i] == BadAuth ==> c == Some(AuthFailed))
                  && (x.blocks[i] == BadCompression ==> c == Some(IntegrityFailed))
                  && (x.blocks[i].Plain? ==> c == Some(WriteFailed)))
  {
    hide Prefix, Passed;
    if forall j :: 0 <= j < |x.blocks| ==> x.blocks[j].Plain? && !sinkFails(j) {
      PrefixStops(x, sinkFails, |x.blocks|, |x.blocks|);
    }
    forall i: nat | FirstFailure(x, sinkFails, i)
      ensures Prefix(x, sinkFails, |x.blocks|).1 == ErrorAt(x, sinkFails, i)
      ensures Passed(x, Prefix(x, sinkFails, |x.blocks|).0, if x.blocks[i].Plain? then i + 1 else i)
    {
      PrefixStops(x, sinkFails, i, |x.blocks|);
    }
  }

  /** For any number of workers and every schedule: the same sink calls in the same order,
      the whole block stream consumed, and the same classified error as sequentially. */
  lemma ParallelAgreesWithSequential(x: Stream, workers: Pos, sinkFails: nat -> bool, actions: seq<OP.Action>)
    requires var c := ParallelConfig(x, workers, sinkFails);
             OP.Run(c, OP.Init(c), actions).Some? && OP.Done(OP.Run(c, OP.Init(c), actions).value)
    ensures var c := ParallelConfig(x, workers, sinkFails);
            var s := OP.Run(c, OP.Init(c), actions).value;
            var (sunk, blockErr) := Prefix(x, sinkFails, |x.blocks|);
            && (forall i :: 0 <= i < |s.output| ==> s.output[i].block < |x.blocks| && x.blocks[s.output[i].block].Plain?)
            && Sunk(x, s.output) == sunk
            && s.issued == |x.blocks| && s.outcome == Some(OP.Planned)
            && (s.failed.Some? ==> s.failed.value < |x.blocks|)
            && Classify(ParallelError(x, sinkFails, s), x) == Classify(if EndError(x).Some? then EndError(x) else blockErr, x)
  {
    hide OP.Run, OP.Init;
    var c := ParallelConfig(x, workers, sinkFails);
    Runs.EveryFinishedRun(c, actions);
    SequentialIsPrefix(x, workers, sinkFails, |x.blocks|);
  }

  /** Before classification the two helpers agree exactly when there is no block error, or no
      read error: otherwise one reports the block's error and the other the read error. */
  lemma HelpersAgreeIff(x: Stream, workers: Pos, sinkFails: nat -> bool, actions: seq<OP.Action>)
    requires var c := ParallelConfig(x, workers, sinkFails);
             OP.Run(c, OP.Init(c), actions).Some? && OP.Done(OP.Run(c, OP.Init(c), actions).value)
    ensures var c := ParallelConfig(x, workers, sinkFails);
            var s := OP.Run(c, OP.Init(c), actions).value;
            var blockErr := Prefix(x, sinkFails, |x.blocks|).1;
            && (s.failed.Some? ==> s.failed.value < |x.blocks|)
            && ((ParallelError(x, sinkFails, s) == if EndError(x).Some? then EndError(x) else blockErr)
                <==> !(x.end.ReadError? && blockErr.Some?))
  {
    hide OP.Run, OP.Init;
    var c := ParallelConfig(x, workers, sinkFails);
    Runs.EveryFinishedRun(c, actions);
    SequentialIsPrefix(x, workers, sinkFails, |x.blocks|);
    BlockErrors(x, sinkFails, |x.blocks|);
  }

  /** A block error is never a read error. */
  lemma {:induction false} BlockErrors(x: Stream, sinkFails: nat -> bool, n: nat)
    requires n <= |x.blocks|
    ensures var err := Prefix(x, sinkFails, n).1; err.Some? ==> !err.value.Read?
  {
    if n > 0 {
      BlockErrors(x, sinkFails, n - 1);
    }
  }

  /** So they differ on one bad block followed by a read error, however that is scheduled. */
  lemma HelpersOrderErrorsDifferently(workers: Pos, sinkFails: nat -> bool, actions: seq<OP.Action>)
    requires var c := ParallelConfig(Stream([BadAuth], ReadError(false)), workers, sinkFails);
             OP.Run(c, OP.Init(c), actions).Some? && OP.Done(OP.Run(c, OP.Init(c), actions).value)
    ensures var x := Stream([BadAuth], ReadError(false));
            var c := ParallelConfig(x, workers, sinkFails);
            var s := OP.Run(c, OP.Init(c), actions).value;
            && s.failed == Some(0) && ParallelError(x, sinkFails, s) == Some(Auth) && EndError(x) == Some(Read(false))
  {
    hide OP.Run, OP.Init;
    var x := Stream([BadAuth], ReadError(false));
    var c := ParallelConfig(x, workers, sinkFails);
    Runs.EveryFinishedRun(c, actions);
    assert OP.Sequential(c, 0) == ([], None);
    assert OP.Sequential(c, 1).1 == Some(0);
  }
}
