/** The ordered parallel pipelines (io/pipeline.go, io/mmap_pipeline.go,
    io/decrypt_pipeline.go): one dispatcher, several workers and one consumer over bounded
    channels, as a transition system under an arbitrary scheduler. */
module OrderedPipeline {
  import opened Bytes

  /** How the dispatcher stops after its last block: at once, or in one more round, which
      looks at the cancel flag and may take and return a buffer. */
  datatype Tail = AtOnce | AnotherRound(takesBuffer: bool)

  /** `pool` is the number of pooled buffers, None when every block has its own.
      `fails(i)`: handling block `i` fails; `calls(i)`: it reaches the output at all. */
  datatype Config = Config(workers: Pos, cap: Pos, pool: Option<Pos>, cancellable: bool,
                           blocks: nat, tail: Tail, fails: nat -> bool, calls: nat -> bool)

  datatype Job = Job(block: nat, buf: nat)

  /** What a buffer holds: the data of a block, before or after the worker's step. */
  datatype Content = Content(block: nat, done: bool)

  datatype Outcome = Planned | Canceled

  datatype Dispatcher =
    | Check
    | TakeBuffer
    | SendOrdered(buf: nat)
    | SendJob(buf: nat)
    | ReturnBuffer(buf: nat)
    | Report(outcome: Outcome)
    | CloseOrdered
    | CloseJobs
    | Finished

  datatype Consumer = Idle | Await(block: nat) | Received(job: Job) | GiveBack(job: Job) | Join | ReadOutcome | Returned

  datatype State = State(
    pc: Dispatcher, issued: nat,      // blocks handed to the workers
    free: seq<nat>,                   // freeList
    ordered: seq<nat>,                // result channels, in dispatch order
    jobs: seq<Job>, busy: seq<Job>, exited: nat,
    results: seq<Job>,                // filled result channels
    consumer: Consumer, seen: nat,    // blocks completely handled
    failed: Option<nat>, output: seq<Content>,
    outcome: Option<Outcome>,
    mem: map<nat, Content>,           // contents of the buffers
    held: seq<nat>)                   // auxiliary: the buffers of the blocks in flight, oldest first

  function Range(lo: int, hi: int): (r: seq<nat>)
    requires 0 <= lo
    ensures |r| == Max(0, hi - lo) && forall i :: 0 <= i < |r| ==> r[i] == lo + i
  {
    seq(Max(0, hi - lo), (i: nat) => lo + i)
  }

  function Buffers(c: Config): seq<nat> { if c.pool.Some? then Range(0, c.pool.value) else [] }

  function AfterBlock(c: Config, issued: nat): Dispatcher
  {
    if issued >= c.blocks && c.tail == AtOnce then Report(Planned) else Check
  }

  function Init(c: Config): State
  {
    State(AfterBlock(c, 0), 0, Buffers(c), [], [], [], 0, [], Idle, 0, None, [], None, map[], [])
  }

  // ---- Steps ----

  predicate CanReturn(c: Config, s: State) { c.pool.Some? ==> |s.free| < c.pool.value }

  function Freed(c: Config, s: State, buf: nat): seq<nat> { if c.pool.Some? then s.free + [buf] else s.free }

  predicate CanDispatch(c: Config, s: State)
  {
    match s.pc
    case TakeBuffer => c.pool.Some? ==> s.free != []
    case SendOrdered(_) => |s.ordered| < c.cap
    case SendJob(_) => |s.jobs| < c.cap
    case ReturnBuffer(_) => CanReturn(c, s)
    case Finished => false
    case _ => true
  }

  /** Takes a buffer and reads the next block into it. */
  function Take(c: Config, s: State): State
    requires c.pool.Some? ==> s.free != []
  {
    var buf := if c.pool.Some? then s.free[0] else s.issued;
    var s1 := s.(free := if c.pool.Some? then s.free[1..] else s.free);
    if s.issued < c.blocks
    then s1.(pc := SendOrdered(buf), mem := s.mem[buf := Content(s.issued, false)], held := s.held + [buf])
    else s1.(pc := ReturnBuffer(buf))
  }

  function Dispatch(c: Config, s: State): State
    requires CanDispatch(c, s)
  {
    match s.pc
    case Check =>
      if c.cancellable && s.failed.Some? then s.(pc := Report(Canceled))
      else if s.issued < c.blocks || c.tail == AnotherRound(true) then s.(pc := TakeBuffer)
      else s.(pc := Report(Planned))
    case TakeBuffer => Take(c, s)
    case SendOrdered(buf) => s.(pc := SendJob(buf), ordered := s.ordered + [s.issued])
    case SendJob(buf) =>
      s.(pc := AfterBlock(c, s.issued + 1), issued := s.issued + 1, jobs := s.jobs + [Job(s.issued, buf)])
    case ReturnBuffer(buf) => s.(pc := Report(Planned), free := Freed(c, s, buf))
    case Report(o) => s.(pc := CloseOrdered, outcome := Some(o))
    case CloseOrdered => s.(pc := CloseJobs)
    case CloseJobs => s.(pc := Finished)
  }

  predicate Idles(c: Config, s: State) { |s.busy| + s.exited < c.workers }

  predicate CanTakeJob(c: Config, s: State) { Idles(c, s) && s.jobs != [] }

  function TakeJob(c: Config, s: State): State
    requires CanTakeJob(c, s)
  {
    s.(jobs := s.jobs[1..], busy := s.busy + [s.jobs[0]])
  }

  function Without(js: seq<Job>, i: nat): (r: seq<Job>)
    requires i < |js|
    ensures |r| == |js| - 1 && multiset(js) == multiset(r) + multiset{js[i]}
  {
    assert js == js[..i] + [js[i]] + js[i + 1..];
    js[..i] + js[i + 1..]
  }

  /** A worker seals or opens its block in place and fills the job's result channel. */
  function Finish(s: State, i: nat): State
    requires i < |s.busy| && s.busy[i].buf in s.mem
  {
    var j := s.busy[i];
    s.(busy := Without(s.busy, i), results := s.results + [j], mem := s.mem[j.buf := s.mem[j.buf].(done := true)])
  }

  predicate CanExit(c: Config, s: State) { Idles(c, s) && s.jobs == [] && s.pc.Finished? }

  predicate OrderedClosed(s: State) { s.pc.CloseJobs? || s.pc.Finished? }

  function Find(js: seq<Job>, block: nat): (i: nat)
    ensures i <= |js| && (i < |js| ==> js[i].block == block)
    ensures i == |js| ==> forall j :: j in js ==> j.block != block
  {
    if js == [] then 0 else if js[0].block == block then 0 else 1 + Find(js[1..], block)
  }

  predicate CanConsume(c: Config, s: State)
  {
    match s.consumer
    case Idle => s.ordered != [] || OrderedClosed(s)
    case Await(block) => Find(s.results, block) < |s.results|
    case Received(job) => job.buf in s.mem
    case GiveBack(_) => CanReturn(c, s)
    case Join => s.exited == c.workers
    case ReadOutcome => s.outcome.Some?
    case Returned => false
  }

  /** Handles a finished block: after a failure the rest is only drained. */
  function Handle(c: Config, s: State, j: Job): State
    requires j.buf in s.mem
  {
    var s1 := s.(consumer := GiveBack(j));
    if s.failed.Some? then s1
    else
      var s2 := if c.calls(j.block) then s1.(output := s.output + [s.mem[j.buf]]) else s1;
      if c.fails(j.block) then s2.(failed := Some(j.block)) else s2
  }

  function Consume(c: Config, s: State): State
    requires CanConsume(c, s)
  {
    match s.consumer
    case Idle =>
      if s.ordered != [] then s.(consumer := Await(s.ordered[0]), ordered := s.ordered[1..]) else s.(consumer := Join)
    case Await(block) =>
      var i := Find(s.results, block);
      s.(consumer := Received(s.results[i]), results := Without(s.results, i))
    case Received(j) => Handle(c, s, j)
    case GiveBack(j) =>
      s.(consumer := Idle, seen := s.seen + 1, free := Freed(c, s, j.buf), held := if s.held == [] then [] else s.held[1..])
    case Join => s.(consumer := ReadOutcome)
    case ReadOutcome => s.(consumer := Returned)
  }

  /** Which thread the scheduler lets run. */
  datatype Action = ADispatch | ATakeJob | AFinish(i: nat) | AExit | AConsume

  predicate Enabled(c: Config, s: State, a: Action)
  {
    match a
    case ADispatch => CanDispatch(c, s)
    case ATakeJob => CanTakeJob(c, s)
    case AFinish(i) => i < |s.busy| && s.busy[i].buf in s.mem
    case AExit => CanExit(c, s)
    case AConsume => CanConsume(c, s)
  }

  function Do(c: Config, s: State, a: Action): State
    requires Enabled(c, s, a)
  {
    match a
    case ADispatch => Dispatch(c, s)
    case ATakeJob => TakeJob(c, s)
    case AFinish(i) => Finish(s, i)
    case AExit => s.(exited := s.exited + 1)
    case AConsume => Consume(c, s)
  }

  // ---- Invariant ----

  /** The dispatcher's own block, from reading it to handing it over. */
  function Hand(s: State): seq<Job>
  {
    match s.pc
    case SendOrdered(buf) => [Job(s.issued, buf)]
    case SendJob(buf) => [Job(s.issued, buf)]
    case _ => []
  }

  function InConsumer(s: State): seq<Job>
  {
    match s.consumer
    case Received(j) => [j]
    case GiveBack(j) => [j]
    case _ => []
  }

  function InFlight(s: State): multiset<Job>
  {
    Union(multiset(Hand(s)), multiset(s.jobs), multiset(s.busy), multiset(s.results), multiset(InConsumer(s)))
  }

  function Union(h: multiset<Job>, j: multiset<Job>, b: multiset<Job>, r: multiset<Job>, c: multiset<Job>): multiset<Job>
  {
    h + j + b + r + c
  }

  lemma UnionMoves(h: multiset<Job>, j: multiset<Job>, b: multiset<Job>, r: multiset<Job>, c: multiset<Job>, x: multiset<Job>)
    ensures Union(h + x, j, b, r, c) == Union(h, j, b, r, c) + x
    ensures Union(h, j + x, b, r, c) == Union(h, j, b, r, c) + x
    ensures Union(h, j, b + x, r, c) == Union(h, j, b, r, c) + x
    ensures Union(h, j, b, r + x, c) == Union(h, j, b, r, c) + x
    ensures Union(h, j, b, r, c + x) == Union(h, j, b, r, c) + x
  {
  }

  function Jobs(first: nat, held: seq<nat>): (js: seq<Job>)
    ensures |js| == |held| && forall i :: 0 <= i < |held| ==> js[i] == Job(first + i, held[i])
  {
    seq(|held|, i requires 0 <= i < |held| => Job(first + i, held[i]))
  }

  /** The buffer of a round that reads no block. */
  function Probe(s: State): seq<nat> { if s.pc.ReturnBuffer? then [s.pc.buf] else [] }

  predicate Working(s: State) { s.consumer.Await? || s.consumer.Received? || s.consumer.GiveBack? }

  /** Blocks in flight are the ones issued and not seen, each in exactly one place. */
  predicate Flight(c: Config, s: State)
  {
    && s.seen + |s.held| == s.issued + |Hand(s)| <= c.blocks
    && InFlight(s) == multiset(Jobs(s.seen, s.held))
  }

  /** Result channels the consumer has taken, and those the dispatcher has queued. */
  function Taken(s: State): nat { s.seen + if Working(s) then 1 else 0 }
  function Queued(s: State): nat { s.issued + if s.pc.SendJob? then 1 else 0 }

  /** Results are awaited in dispatch order. */
  predicate InOrder(s: State)
  {
    && Taken(s) <= Queued(s) && s.ordered == Range(Taken(s), Queued(s))
    && (s.consumer.Await? ==> s.consumer.block == s.seen)
    && (s.consumer.Received? || s.consumer.GiveBack? ==> s.consumer.job.block == s.seen)
  }

  /** Every buffer is in exactly one place. */
  predicate Conserved(c: Config, s: State)
  {
    if c.pool.Some?
    then multiset(s.free) + multiset(s.held) + multiset(Probe(s)) == multiset(Buffers(c))
    else s.free == [] && s.held == Range(s.seen, s.seen + |s.held|)
  }

  /** No two live blocks share a buffer. */
  predicate Exclusive(s: State)
  {
    && (forall i, j :: 0 <= i < j < |s.held| ==> s.held[i] != s.held[j])
    && (forall i :: 0 <= i < |s.held| ==> s.held[i] !in s.free)
  }

  predicate Holds(s: State, js: seq<Job>, done: bool)
  {
    forall j :: j in js ==> j.buf in s.mem && s.mem[j.buf] == Content(j.block, done)
  }

  predicate Contents(s: State)
  {
    && Holds(s, Hand(s), false) && Holds(s, s.jobs, false) && Holds(s, s.busy, false)
    && Holds(s, s.results, true) && Holds(s, InConsumer(s), true)
  }

  /** What handling blocks one after the other gives: the finished blocks before the first
      failing one, and that one too if it reaches the output. */
  function Sequential(c: Config, n: nat): (seq<Content>, Option<nat>)
  {
    if n == 0 then ([], None)
    else
      var (out, failed) := Sequential(c, n - 1);
      if failed.Some? then (out, failed)
      else (if c.calls(n - 1) then out + [Content(n - 1, true)] else out, if c.fails(n - 1) then Some(n - 1) else None)
  }

  function Handled(s: State): nat { s.seen + if s.consumer.GiveBack? then 1 else 0 }

  predicate Output(c: Config, s: State) { (s.output, s.failed) == Sequential(c, Handled(s)) }

  predicate Bounded(c: Config, s: State)
  {
    && |s.busy| + s.exited <= c.workers && |s.ordered| <= c.cap && |s.jobs| <= c.cap
    && (s.exited > 0 ==> s.pc.Finished? && s.jobs == [])
    && (Joining(s) ==> OrderedClosed(s) && s.ordered == [])
    && (s.consumer.ReadOutcome? || s.consumer.Returned? ==> s.exited == c.workers)
  }

  predicate Joining(s: State) { s.consumer.Join? || s.consumer.ReadOutcome? || s.consumer.Returned? }

  /** Where the dispatcher is in its plan. */
  predicate Planning(c: Config, s: State)
  {
    && s.issued <= c.blocks
    && ((s.pc.CloseOrdered? || OrderedClosed(s)) <==> s.outcome.Some?)
    && (s.pc.SendOrdered? || s.pc.SendJob? ==> s.issued < c.blocks)
    && (s.pc.TakeBuffer? && s.issued >= c.blocks ==> c.tail == AnotherRound(true))
    && (s.pc.ReturnBuffer? || s.pc == Report(Planned) || s.outcome == Some(Planned) ==> s.issued == c.blocks)
    && (s.pc == Report(Canceled) || s.outcome == Some(Canceled) ==> c.cancellable && s.failed.Some?)
  }

  predicate Control(c: Config, s: State) { Bounded(c, s) && Planning(c, s) }

  predicate Inv(c: Config, s: State)
  {
    && Flight(c, s) && InOrder(s) && Conserved(c, s) && Exclusive(s) && Contents(s) && Control(c, s)
    && Output(c, s)
  }

  lemma {:induction false} DistinctInMultiset(xs: seq<nat>, i: nat, j: nat)
    requires i < j < |xs| && xs[i] == xs[j]
    ensures multiset(xs)[xs[i]] >= 2
  {
    var a, b := xs[..j], xs[j..];
    assert xs == a + b;
    assert a[i] in multiset(a) && b[0] in multiset(b);
  }

  lemma RangeOnce(lo: nat, hi: nat, x: nat)
    ensures multiset(Range(lo, hi))[x] <= 1
  {
    var r := Range(lo, hi);
    if x in r {
      var i :| 0 <= i < |r| && r[i] == x;
      assert r == r[..i] + [x] + r[i + 1..];
      assert x !in r[..i] && x !in r[i + 1..];
    }
  }

  /** Exclusivity follows from conservation. */
  lemma ConservedIsExclusive(c: Config, s: State)
    requires Conserved(c, s)
    ensures Exclusive(s)
  {
    if c.pool.Some? {
      forall x ensures multiset(s.free)[x] + multiset(s.held)[x] <= 1 {
        RangeOnce(0, c.pool.value, x);
        assert (multiset(s.free) + multiset(s.held) + multiset(Probe(s)))[x] <= 1;
      }
      forall i, j | 0 <= i < j < |s.held| ensures s.held[i] != s.held[j] {
        if s.held[i] == s.held[j] {
          DistinctInMultiset(s.held, i, j);
        }
      }
      forall i | 0 <= i < |s.held| ensures s.held[i] !in s.free {
        assert s.held[i] in multiset(s.held);
      }
    }
  }

  lemma InitInv(c: Config)
    ensures Inv(c, Init(c))
  {
    var s := Init(c);
    assert Jobs(0, []) == [];
  }

  // ---- Facts about the blocks in flight ----

  lemma InFlightJob(s: State, j: Job)
    requires InFlight(s) == multiset(Jobs(s.seen, s.held)) && j in InFlight(s)
    ensures s.seen <= j.block < s.seen + |s.held| && j.buf == s.held[j.block - s.seen]
  {
    hide InFlight;
    assert j in Jobs(s.seen, s.held);
  }

  lemma JobsOnce(first: nat, held: seq<nat>, j: Job)
    ensures multiset(Jobs(first, held))[j] <= 1
  {
    var js := Jobs(first, held);
    if j in js {
      var i :| 0 <= i < |js| && js[i] == j;
      assert js == js[..i] + [j] + js[i + 1..];
      assert j !in js[..i] && j !in js[i + 1..];
    }
  }

  /** Two jobs in flight never use the same buffer. */
  lemma ApartInFlight(s: State, j: Job, k: Job)
    requires InFlight(s) == multiset(Jobs(s.seen, s.held)) && Exclusive(s)
    requires multiset{j} + multiset{k} <= InFlight(s)
    ensures j.buf != k.buf
  {
    hide InFlight, Jobs;
    assert (multiset{j} + multiset{k})[j] <= InFlight(s)[j];
    assert (multiset{j} + multiset{k})[k] <= InFlight(s)[k];
    JobsOnce(s.seen, s.held, j);
    InFlightJob(s, j);
    InFlightJob(s, k);
  }

  // ---- Runs ----

  /** The state a schedule leads to, if every step it asks for can be taken. */
  function Run(c: Config, s: State, actions: seq<Action>): Option<State>
    decreases |actions|
  {
    if actions == [] then Some(s)
    else if !Enabled(c, s, actions[0]) then None
    else Run(c, Do(c, s, actions[0]), actions[1..])
  }

  predicate Done(s: State) { s.consumer.Returned? }
}
