/** Encrypting one file's data blocks: encryptAndStream and its parallel and memory-mapped
    forms (io/pipeline.go, io/mmap_pipeline.go). */
module Encryption {
  import opened Bytes
  import OP = OrderedPipeline
  import Runs = PipelineRuns

  /** The per-file random source at a position: the chunk size or nonce drawn there, and
      the position after it. A nonce draw can fail. */
  datatype Rand = Rand(size: nat -> Pos, afterSize: nat -> nat, nonce: nat -> Option<nat>, afterNonce: nat -> nat)

  /** What is sealed: a nonce and a plaintext. */
  datatype Block = Block(nonce: nat, plaintext: bytes)

  datatype Ending = Complete | ReadFailed | NonceFailed

  /** What a dispatcher goes through when nothing stops it. */
  datatype Plan = Plan(blocks: seq<Block>, tail: OP.Tail, ending: Ending)

  /** `Summed(b)`: success, with the HMAC of `b`. */
  datatype Result = Summed(hashed: bytes) | SendFailed(block: nat) | Failed(ending: Ending)

  /** The reader holds `data` and then ends, or fails if `broken`. */
  function StreamPlan(data: bytes, broken: bool, rand: Rand, at: nat): Plan
    decreases |data|
  {
    var size, at1 := rand.size(at), rand.afterSize(at);
    var n := Min(size, |data|);
    var ending := if broken then ReadFailed else Complete;
    if n == 0 then Plan([], OP.AnotherRound(true), ending)
    else match rand.nonce(at1)
      case None => Plan([], OP.AnotherRound(true), NonceFailed)
      case Some(nonce) =>
        var block := Block(nonce, data[..n]);
        if n < size then Plan([block], OP.AtOnce, ending)
        else
          var rest := StreamPlan(data[n..], broken, rand, rand.afterNonce(at1));
          rest.(blocks := [block] + rest.blocks)
  }

  function MmapPlan(data: bytes, rand: Rand, at: nat): Plan
    decreases |data|
  {
    if data == [] then Plan([], OP.AtOnce, Complete)
    else
      var n, at1 := Min(rand.size(at), |data|), rand.afterSize(at);
      match rand.nonce(at1)
      case None => Plan([], OP.AnotherRound(false), NonceFailed)
      case Some(nonce) =>
        var rest := MmapPlan(data[n..], rand, rand.afterNonce(at1));
        rest.(blocks := [Block(nonce, data[..n])] + rest.blocks)
  }

  /** Streamed and memory-mapped, a file is cut into the same blocks with the same nonces. */
  lemma {:induction false} SameBlocks(data: bytes, rand: Rand, at: nat)
    ensures MmapPlan(data, rand, at).blocks == StreamPlan(data, false, rand, at).blocks
    ensures MmapPlan(data, rand, at).ending == StreamPlan(data, false, rand, at).ending
    decreases |data|
  {
    if data != [] {
      var size, at1 := rand.size(at), rand.afterSize(at);
      var n := Min(size, |data|);
      if rand.nonce(at1).Some? {
        SameBlocks(data[n..], rand, rand.afterNonce(at1));
        if n < size {
          assert data[n..] == [];
        }
      }
    }
  }

  function Plaintexts(blocks: seq<Block>): (ps: seq<bytes>)
    ensures |ps| == |blocks| && forall i :: 0 <= i < |blocks| ==> ps[i] == blocks[i].plaintext
  {
    seq(|blocks|, i requires 0 <= i < |blocks| => blocks[i].plaintext)
  }

  lemma PlaintextsCons(b: Block, rest: seq<Block>)
    ensures Flatten(Plaintexts([b] + rest)) == b.plaintext + Flatten(Plaintexts(rest))
  {
    assert Plaintexts([b] + rest) == [b.plaintext] + Plaintexts(rest);
  }

  /** A complete plan covers the file, in order, in non-empty blocks. */
  lemma {:induction false} PlanCoversData(data: bytes, broken: bool, rand: Rand, at: nat)
    ensures var p := StreamPlan(data, broken, rand, at);
            && Flatten(Plaintexts(p.blocks)) <= data
            && (p.ending != NonceFailed ==> Flatten(Plaintexts(p.blocks)) == data)
            && forall i :: 0 <= i < |p.blocks| ==> p.blocks[i].plaintext != []
    decreases |data|
  {
    var p := StreamPlan(data, broken, rand, at);
    var size, at1 := rand.size(at), rand.afterSize(at);
    var n := Min(size, |data|);
    if n == 0 || rand.nonce(at1).None? {
      assert Plaintexts(p.blocks) == [];
    } else {
      var block := Block(rand.nonce(at1).value, data[..n]);
      var rest := if n < size then [] else StreamPlan(data[n..], broken, rand, rand.afterNonce(at1)).blocks;
      assert p.blocks == [block] + rest;
      PlaintextsCons(block, rest);
      if n < size {
        assert Plaintexts(rest) == [];
      } else {
        PlanCoversData(data[n..], broken, rand, rand.afterNonce(at1));
      }
      assert data == data[..n] + data[n..];
    }
  }

  /** Where the size of block `i` is drawn; its nonce follows, then the next size. */
  function Draw(rand: Rand, at: nat, i: nat): nat
  {
    if i == 0 then at else rand.afterNonce(rand.afterSize(Draw(rand, at, i - 1)))
  }

  lemma {:induction false} DrawShift(rand: Rand, at: nat, i: nat)
    ensures Draw(rand, at, i + 1) == Draw(rand, rand.afterNonce(rand.afterSize(at)), i)
  {
    if i > 0 {
      DrawShift(rand, at, i - 1);
    }
  }

  /** Block `i` has the size and the nonce drawn for it; only the last may be shorter. */
  predicate AsDrawn(p: Plan, rand: Rand, at: nat, i: nat)
    requires i < |p.blocks|
  {
    var d := Draw(rand, at, i);
    && rand.nonce(rand.afterSize(d)) == Some(p.blocks[i].nonce) && |p.blocks[i].plaintext| <= rand.size(d)
    && (i < |p.blocks| - 1 ==> |p.blocks[i].plaintext| == rand.size(d))
  }

  /** The sizes and nonces of a plan are those the random source gives, each drawn once, in
      order; it stops early only where no nonce can be drawn. */
  lemma {:induction false} PlanDraws(data: bytes, broken: bool, rand: Rand, at: nat)
    ensures var p := StreamPlan(data, broken, rand, at);
            && (forall i :: 0 <= i < |p.blocks| ==> AsDrawn(p, rand, at, i))
            && (if p.ending == NonceFailed then rand.nonce(rand.afterSize(Draw(rand, at, |p.blocks|))).None?
                else p.ending == if broken then ReadFailed else Complete)
    decreases |data|
  {
    var p := StreamPlan(data, broken, rand, at);
    var size, at1 := rand.size(at), rand.afterSize(at);
    var n := Min(size, |data|);
    if n == size && rand.nonce(at1).Some? {
      var next := rand.afterNonce(at1);
      var rest := StreamPlan(data[n..], broken, rand, next);
      PlanDraws(data[n..], broken, rand, next);
      forall i | 0 <= i < |p.blocks| ensures AsDrawn(p, rand, at, i) {
        if i > 0 {
          assert AsDrawn(rest, rand, next, i - 1);
          DrawShift(rand, at, i - 1);
        }
      }
      DrawShift(rand, at, |rest.blocks|);
    }
  }

  /** So no nonce seals two blocks, if the source gives none twice. */
  lemma NoncesDiffer(data: bytes, broken: bool, rand: Rand, at: nat, i: nat, j: nat)
    requires i < j < |StreamPlan(data, broken, rand, at).blocks|
    requires rand.nonce(rand.afterSize(Draw(rand, at, i))) != rand.nonce(rand.afterSize(Draw(rand, at, j)))
    ensures StreamPlan(data, broken, rand, at).blocks[i].nonce != StreamPlan(data, broken, rand, at).blocks[j].nonce
  {
    hide StreamPlan, Draw;
    PlanDraws(data, broken, rand, at);
    var p := StreamPlan(data, broken, rand, at);
    assert AsDrawn(p, rand, at, i) && AsDrawn(p, rand, at, j);
  }

  // ---- The sequential reference ----

  function FirstFailure(fails: nat -> bool, n: nat): (r: Option<nat>)
    ensures r.Some? ==> r.value < n && fails(r.value) && forall i :: 0 <= i < r.value ==> !fails(i)
    ensures r.None? ==> forall i :: 0 <= i < n ==> !fails(i)
  {
    if n == 0 then None
    else match FirstFailure(fails, n - 1)
      case Some(i) => Some(i)
      case None => if fails(n - 1) then Some(n - 1) else None
  }

  /** The blocks passed to send: all of them, or up to the first one that fails. */
  function SentBlocks(plan: Plan, fails: nat -> bool): seq<Block>
  {
    match FirstFailure(fails, |plan.blocks|)
    case None => plan.blocks
    case Some(f) => plan.blocks[..f + 1]
  }

  function ResultOf(plan: Plan, fails: nat -> bool): Result
  {
    match FirstFailure(fails, |plan.blocks|)
    case Some(f) => SendFailed(f)
    case None => if plan.ending == Complete then Summed(Flatten(Plaintexts(plan.blocks))) else Failed(plan.ending)
  }

  /** What that comes to: the blocks up to and with the first failing send; without one all of
      them, and the HMAC of exactly the file, unless reading it or drawing a nonce failed. */
  lemma Encrypts(data: bytes, broken: bool, rand: Rand, fails: nat -> bool)
    ensures var p := StreamPlan(data, broken, rand, 0);
            var sent, r := SentBlocks(p, fails), ResultOf(p, fails);
            && (forall f :: 0 <= f < |p.blocks| && fails(f) && (forall i :: 0 <= i < f ==> !fails(i)) ==>
                  r == SendFailed(f) && sent == p.blocks[..f + 1])
            && ((forall i :: 0 <= i < |p.blocks| ==> !fails(i)) ==>
                  && sent == p.blocks
                  && r == if p.ending == NonceFailed then Failed(NonceFailed) else if broken then Failed(ReadFailed) else Summed(data))
  {
    hide StreamPlan, Flatten, Plaintexts;
    var p := StreamPlan(data, broken, rand, 0);
    PlanDraws(data, broken, rand, 0);
    PlanCoversData(data, broken, rand, 0);
    forall f | 0 <= f < |p.blocks| && fails(f) && forall i :: 0 <= i < f ==> !fails(i) ensures FirstFailure(fails, |p.blocks|) == Some(f) {
      PrefixFailure(fails, f, |p.blocks|);
    }
  }

  lemma PrefixFailure(fails: nat -> bool, k: nat, n: nat)
    requires k < n && fails(k) && forall i :: 0 <= i < k ==> !fails(i)
    ensures FirstFailure(fails, n) == Some(k)
  {
    var r := FirstFailure(fails, n);
    assert r.Some? && r.value <= k;
  }

  /** `rest` is what remains of `plan` after `sent`. */
  predicate Remains(plan: Plan, sent: seq<Block>, rest: Plan) { plan == rest.(blocks := sent + rest.blocks) }

  lemma MmapStep(plan: Plan, sent: seq<Block>, left: bytes, rand: Rand, at: nat)
    requires left != [] && Remains(plan, sent, MmapPlan(left, rand, at))
    ensures var n, at1 := Min(rand.size(at), |left|), rand.afterSize(at);
            match rand.nonce(at1)
            case None => plan.blocks == sent && plan.ending == NonceFailed
            case Some(nonce) => Remains(plan, sent + [Block(nonce, left[..n])], MmapPlan(left[n..], rand, rand.afterNonce(at1)))
  {
    var n, at1 := Min(rand.size(at), |left|), rand.afterSize(at);
    if rand.nonce(at1).Some? {
      var block := Block(rand.nonce(at1).value, left[..n]);
      var rest := MmapPlan(left[n..], rand, rand.afterNonce(at1)).blocks;
      assert sent + ([block] + rest) == (sent + [block]) + rest;
    }
  }

  lemma StreamStep(plan: Plan, sent: seq<Block>, left: bytes, broken: bool, rand: Rand, at: nat)
    requires Remains(plan, sent, StreamPlan(left, broken, rand, at))
    ensures var size, at1 := rand.size(at), rand.afterSize(at);
            var n := Min(size, |left|);
            var ending := if broken then ReadFailed else Complete;
            if n == 0 then plan.blocks == sent && plan.ending == ending
            else match rand.nonce(at1)
              case None => plan.blocks == sent && plan.ending == NonceFailed
              case Some(nonce) =>
                if n < size then plan.blocks == sent + [Block(nonce, left[..n])] && plan.ending == ending
                else Remains(plan, sent + [Block(nonce, left[..n])], StreamPlan(left[n..], broken, rand, rand.afterNonce(at1)))
  {
    var size, at1 := rand.size(at), rand.afterSize(at);
    var n := Min(size, |left|);
    if n == size && rand.nonce(at1).Some? {
      var block := Block(rand.nonce(at1).value, left[..n]);
      var rest := StreamPlan(left[n..], broken, rand, rand.afterNonce(at1)).blocks;
      assert sent + ([block] + rest) == (sent + [block]) + rest;
    }
  }

  lemma AllSent(plan: Plan, fails: nat -> bool)
    requires forall i :: 0 <= i < |plan.blocks| ==> !fails(i)
    ensures SentBlocks(plan, fails) == plan.blocks
    ensures ResultOf(plan, fails) == if plan.ending == Complete then Summed(Flatten(Plaintexts(plan.blocks))) else Failed(plan.ending)
  {
  }

  lemma FailedAt(plan: Plan, sent: seq<Block>, fails: nat -> bool)
    requires sent != [] && sent <= plan.blocks && fails(|sent| - 1) && forall i :: 0 <= i < |sent| - 1 ==> !fails(i)
    ensures SentBlocks(plan, fails) == sent && ResultOf(plan, fails) == SendFailed(|sent| - 1)
  {
    PrefixFailure(fails, |sent| - 1, |plan.blocks|);
  }

  /** encryptMmapSequential. */
  method EncryptMmapSequential(data: bytes, rand: Rand, fails: nat -> bool) returns (sent: seq<Block>, r: Result)
    ensures sent == SentBlocks(MmapPlan(data, rand, 0), fails) && r == ResultOf(MmapPlan(data, rand, 0), fails)
  {
    hide MmapPlan, SentBlocks, ResultOf, Flatten, Plaintexts;
    ghost var plan := MmapPlan(data, rand, 0);
    var hashed: bytes, offset, at := [], 0, 0;
    sent := [];
    assert data[0..] == data;
    NothingHashed();
    while offset < |data|
      invariant offset <= |data| && hashed == Flatten(Plaintexts(sent))
      invariant Remains(plan, sent, MmapPlan(data[offset..], rand, at))
      invariant forall i :: 0 <= i < |sent| ==> !fails(i)
      decreases |data| - offset
    {
      MmapStep(plan, sent, data[offset..], rand, at);
      var size: nat := rand.size(at);
      at := rand.afterSize(at);
      if size > |data| - offset {
        size := |data| - offset;
      }
      var chunk := data[offset..offset + size];
      Slices(data, offset, size);
      offset := offset + size;
      hashed := hashed + chunk;
      var nonce := rand.nonce(at);
      if nonce.None? {
        AllSent(plan, fails);
        return sent, Failed(NonceFailed);
      }
      at := rand.afterNonce(at);
      Snoc(sent, Block(nonce.value, chunk));
      sent := sent + [Block(nonce.value, chunk)];
      if fails(|sent| - 1) {
        FailedAt(plan, sent, fails);
        return sent, SendFailed(|sent| - 1);
      }
    }
    assert data[offset..] == [];
    NoMorePlan(rand, at);
    AllSent(plan, fails);
    r := Summed(hashed);
  }

  lemma Slices(data: bytes, offset: nat, size: nat)
    requires offset + size <= |data|
    ensures data[offset..][..size] == data[offset..offset + size] && data[offset..][size..] == data[offset + size..]
  {
  }

  lemma NothingHashed()
    ensures Flatten(Plaintexts([])) == []
  {
    assert Plaintexts([]) == [];
  }

  lemma NoMorePlan(rand: Rand, at: nat)
    ensures MmapPlan([], rand, at).blocks == [] && MmapPlan([], rand, at).ending == Complete
  {
  }

  lemma Snoc(blocks: seq<Block>, b: Block)
    ensures Flatten(Plaintexts(blocks + [b])) == Flatten(Plaintexts(blocks)) + b.plaintext
  {
    assert Plaintexts(blocks + [b]) == Plaintexts(blocks) + [b.plaintext];
    FlattenSnoc(Plaintexts(blocks), b.plaintext);
  }

  /** encryptAndStream's blocks and result, its two stages taken one block at a time. */
  method EncryptAndStream(data: bytes, broken: bool, rand: Rand, fails: nat -> bool) returns (sent: seq<Block>, r: Result)
    ensures sent == SentBlocks(StreamPlan(data, broken, rand, 0), fails) && r == ResultOf(StreamPlan(data, broken, rand, 0), fails)
  {
    hide StreamPlan, SentBlocks, ResultOf, Flatten;
    ghost var plan := StreamPlan(data, broken, rand, 0);
    var hashed: bytes, rest, at := [], data, 0;
    sent := [];
    NothingHashed();
    while true
      invariant hashed == Flatten(Plaintexts(sent)) && forall i :: 0 <= i < |sent| ==> !fails(i)
      invariant Remains(plan, sent, StreamPlan(rest, broken, rand, at))
      decreases |rest|
    {
      StreamStep(plan, sent, rest, broken, rand, at);
      var size := rand.size(at);
      at := rand.afterSize(at);
      var n := Min(size, |rest|);
      if n > 0 {
        var chunk := rest[..n];
        rest := rest[n..];
        hashed := hashed + chunk;
        var nonce := rand.nonce(at);
        if nonce.None? {
          AllSent(plan, fails);
          return sent, Failed(NonceFailed);
        }
        at := rand.afterNonce(at);
        Snoc(sent, Block(nonce.value, chunk));
        sent := sent + [Block(nonce.value, chunk)];
        if fails(|sent| - 1) {
          FailedAt(plan, sent, fails);
          return sent, SendFailed(|sent| - 1);
        }
      }
      if n < size {
        AllSent(plan, fails);
        return sent, if broken then Failed(ReadFailed) else Summed(hashed);
      }
    }
  }

  // ---- Every schedule of the parallel form gives the sequential result ----

  const DEPTH := 4

  function ParallelConfig(plan: Plan, workers: Pos, fails: nat -> bool): OP.Config
  {
    OP.Config(workers, workers * DEPTH, Some(workers * DEPTH), true, |plan.blocks|, plan.tail, fails, i => true)
  }

  lemma {:induction false} SequentialIsPrefix(c: OP.Config, n: nat)
    requires forall i :: c.calls(i)
    ensures var (out, failed) := OP.Sequential(c, n);
            && failed == FirstFailure(c.fails, n)
            && |out| == (if failed.Some? then failed.value + 1 else n)
            && forall i :: 0 <= i < |out| ==> out[i] == OP.Content(i, true)
  {
    if n > 0 {
      SequentialIsPrefix(c, n - 1);
    }
  }

  /** What the caller of the pipeline sees of a finished state. */
  function Sent(plan: Plan, s: OP.State): (r: seq<Block>)
    requires forall i :: 0 <= i < |s.output| ==> s.output[i].block < |plan.blocks|
  {
    seq(|s.output|, i requires 0 <= i < |s.output| => plan.blocks[s.output[i].block])
  }

  function Returned(plan: Plan, s: OP.State): Result
  {
    if s.failed.Some? then SendFailed(s.failed.value)
    else if s.outcome == Some(OP.Planned) && plan.ending == Complete then Summed(Flatten(Plaintexts(plan.blocks)))
    else Failed(plan.ending)
  }

  /** encryptAndStreamParallel and encryptAndStreamMmap: for every schedule of the dispatcher,
      the workers and the writer, the blocks sent and the result are the sequential ones,
      every block sent is sealed, and all workers*4 buffers are back in the free list. */
  lemma ParallelRefinesSequential(plan: Plan, workers: Pos, fails: nat -> bool, actions: seq<OP.Action>)
    requires var c := ParallelConfig(plan, workers, fails);
             OP.Run(c, OP.Init(c), actions).Some? && OP.Done(OP.Run(c, OP.Init(c), actions).value)
    ensures var c := ParallelConfig(plan, workers, fails);
            var s := OP.Run(c, OP.Init(c), actions).value;
            && (forall i :: 0 <= i < |s.output| ==> s.output[i].done && s.output[i].block < |plan.blocks|)
            && Sent(plan, s) == SentBlocks(plan, fails)
            && Returned(plan, s) == ResultOf(plan, fails)
            && multiset(s.free) == multiset(OP.Range(0, workers * DEPTH))
  {
    hide OP.Run, OP.Init;
    var c := ParallelConfig(plan, workers, fails);
    Runs.EveryFinishedRun(c, actions);
    SequentialIsPrefix(c, |plan.blocks|);
    var s := OP.Run(c, OP.Init(c), actions).value;
    assert Sent(plan, s) == SentBlocks(plan, fails);
  }
}
