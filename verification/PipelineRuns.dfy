/** Whole runs of a pipeline under every schedule: none gets stuck, all end, and what they
    produce is what the sequential form produces. */
module PipelineRuns {
  import opened Bytes
  import opened OrderedPipeline
  import opened PipelineSteps

  // ---- No reachable state is stuck ----

  /** The worker pool can move while it has work, or is told to stop. */
  lemma WorkersMove(c: Config, s: State)
    requires Bounded(c, s) && Contents(s) && (s.jobs != [] || s.busy != [] || (s.pc.Finished? && s.exited < c.workers))
    ensures exists a :: Enabled(c, s, a)
  {
    hide Hand, InConsumer;
    if s.busy != [] {
      assert s.busy[0] in s.busy;
      assert Enabled(c, s, AFinish(0));
    } else if s.jobs != [] {
      assert Enabled(c, s, ATakeJob);
    } else {
      assert Enabled(c, s, AExit);
    }
  }

  /** With nothing queued and the consumer idle, no buffer is held. */
  lemma IdleMeansFree(c: Config, s: State)
    requires Flight(c, s) && InOrder(s) && Conserved(c, s) && s.consumer.Idle? && s.ordered == [] && s.pc.TakeBuffer? && c.pool.Some?
    ensures s.free != []
  {
    hide InFlight, Jobs;
    assert |s.held| == 0;
    assert multiset(s.free) == multiset(Buffers(c));
    assert Buffers(c)[0] == 0;
    assert 0 in multiset(s.free);
  }

  /** freeList never overflows: a held buffer always has room to go back. */
  lemma RoomToReturn(c: Config, s: State)
    requires Conserved(c, s) && (s.held != [] || s.pc.ReturnBuffer?)
    ensures CanReturn(c, s)
  {
    if c.pool.Some? {
      assert |multiset(s.free) + multiset(s.held) + multiset(Probe(s))| == |multiset(Buffers(c))| == c.pool.value;
    }
  }

  lemma DispatcherMoves(c: Config, s: State)
    requires Inv(c, s) && !s.pc.Finished? && s.consumer.Idle? && s.ordered == []
    ensures exists a :: Enabled(c, s, a)
  {
    hide Flight, InOrder, Conserved, Exclusive, Contents, Output, Planning;
    if s.pc.TakeBuffer? && c.pool.Some? {
      IdleMeansFree(c, s);
    }
    if s.pc.ReturnBuffer? {
      RoomToReturn(c, s);
    }
    if s.pc.SendJob? && s.jobs != [] {
      WorkersMove(c, s);
    } else {
      assert Enabled(c, s, ADispatch);
    }
  }

  /** A block the consumer waits for is on its way. */
  lemma AwaitedMoves(c: Config, s: State)
    requires Inv(c, s) && s.consumer.Await? && !CanConsume(c, s)
    ensures exists a :: Enabled(c, s, a)
  {
    hide Conserved, Exclusive, Contents, Output, Planning, Jobs, Range;
    var j := Job(s.seen, s.held[0]);
    FirstJob(s.seen, s.held);
    assert j in InFlight(s);
    assert j !in s.results;
    if s.busy != [] || s.jobs != [] {
      WorkersMove(c, s);
    } else {
      assert j in Hand(s);
      assert Enabled(c, s, ADispatch);
    }
  }

  lemma NotStuck(c: Config, s: State)
    requires Inv(c, s) && !Done(s)
    ensures exists a :: Enabled(c, s, a)
  {
    hide Inv, CanDispatch, CanTakeJob, CanExit;
    if CanConsume(c, s) {
      assert Enabled(c, s, AConsume);
    } else {
      ConsumerWaits(c, s);
    }
  }

  lemma ConsumerWaits(c: Config, s: State)
    requires Inv(c, s) && !Done(s) && !CanConsume(c, s)
    ensures exists a :: Enabled(c, s, a)
  {
    hide Flight, InOrder, Conserved, Exclusive, Contents, Output, Enabled;
    match s.consumer
    case Idle => DispatcherMoves(c, s);
    case Await(_) => AwaitedMoves(c, s);
    case Received(j) => ReceivedInMemory(s);
    case GiveBack(_) =>
      GivesBackOldest(c, s);
      RoomToReturn(c, s);
    case Join =>
      if s.pc.Finished? { WorkersMove(c, s); } else { ClosingMoves(c, s); }
    case ReadOutcome =>
  }

  lemma ReceivedInMemory(s: State)
    requires Contents(s) && s.consumer.Received?
    ensures s.consumer.job.buf in s.mem
  {
    assert s.consumer.job in InConsumer(s);
  }

  lemma ClosingMoves(c: Config, s: State)
    requires s.pc.CloseJobs?
    ensures exists a :: Enabled(c, s, a)
  {
    assert Enabled(c, s, ADispatch);
  }

  // ---- Every step makes progress ----

  function DispatcherSteps(pc: Dispatcher): nat
  {
    match pc
    case Check => 8
    case TakeBuffer => 7
    case SendOrdered(_) => 6
    case SendJob(_) => 5
    case ReturnBuffer(_) => 4
    case Report(_) => 3
    case CloseOrdered => 2
    case CloseJobs => 1
    case Finished => 0
  }

  function ConsumerSteps(k: Consumer): nat
  {
    match k
    case Idle => 3
    case Await(_) => 6
    case Received(_) => 5
    case GiveBack(_) => 4
    case Join => 2
    case ReadOutcome => 1
    case Returned => 0
  }

  /** An upper bound on the steps still to come. */
  function Measure(c: Config, s: State): int
  {
    10 * (8 * (c.blocks - s.issued) + DispatcherSteps(s.pc)) + 4 * |s.ordered| + ConsumerSteps(s.consumer)
    + 2 * |s.jobs| + |s.busy| + c.workers - s.exited
  }

  lemma DispatchDecreases(c: Config, s: State)
    requires CanDispatch(c, s)
    ensures Measure(c, Dispatch(c, s)) < Measure(c, s)
  {
  }

  lemma ConsumeDecreases(c: Config, s: State)
    requires CanConsume(c, s)
    ensures Measure(c, Consume(c, s)) < Measure(c, s)
  {
    hide Without, Find;
    if s.consumer.Received? {
    } else if s.consumer.Idle? {
    } else {
    }
  }

  lemma StepDecreases(c: Config, s: State, a: Action)
    requires Enabled(c, s, a)
    ensures Measure(c, Do(c, s, a)) < Measure(c, s)
  {
    hide Without, Find, Dispatch, Consume, CanDispatch, CanConsume;
    match a
    case ADispatch => DispatchDecreases(c, s);
    case AConsume => ConsumeDecreases(c, s);
    case _ =>
  }

  lemma MeasureBounded(c: Config, s: State)
    requires Inv(c, s)
    ensures 0 <= Measure(c, s)
  {
    hide Flight, InOrder, Conserved, Exclusive, Contents, Output;
  }

  // ---- Whole runs ----

  lemma {:induction false} RunKeeps(c: Config, s: State, actions: seq<Action>)
    requires Inv(c, s) && Run(c, s, actions).Some?
    ensures Inv(c, Run(c, s, actions).value)
    ensures |actions| + Measure(c, Run(c, s, actions).value) <= Measure(c, s)
    decreases |actions|
  {
    hide Inv, Enabled, Do, Measure;
    if actions != [] {
      StepKeeps(c, s, actions[0]);
      StepDecreases(c, s, actions[0]);
      RunKeeps(c, Do(c, s, actions[0]), actions[1..]);
    }
  }

  lemma {:induction false} SequentialGrows(c: Config, n: nat, m: nat)
    requires n <= m
    ensures Sequential(c, n).0 <= Sequential(c, m).0
    ensures Sequential(c, n).1.Some? ==> Sequential(c, m) == Sequential(c, n)
    decreases m - n
  {
    if n < m {
      SequentialGrows(c, n, m - 1);
    }
  }

  /** Safety in every reachable state: the output so far is a prefix of the sequential
      output, every buffer is in exactly one place, no two blocks in flight share one, and
      at most `cap` blocks wait in each channel. */
  lemma EveryReachableState(c: Config, actions: seq<Action>)
    requires Run(c, Init(c), actions).Some?
    ensures var s := Run(c, Init(c), actions).value;
            && s.output <= Sequential(c, c.blocks).0
            && Flight(c, s) && Conserved(c, s) && Exclusive(s) && Bounded(c, s)
            && |actions| <= Measure(c, Init(c))
            && (Done(s) || exists a :: Enabled(c, s, a))
  {
    hide Flight, InOrder, Conserved, Exclusive, Contents, Enabled, Do, Measure, Init, Bounded;
    InitInv(c);
    RunKeeps(c, Init(c), actions);
    var s := Run(c, Init(c), actions).value;
    MeasureBounded(c, s);
    if !Done(s) {
      NotStuck(c, s);
    }
    HandledBlocks(c, s);
    SequentialGrows(c, Handled(s), c.blocks);
  }

  lemma HandledBlocks(c: Config, s: State)
    requires Inv(c, s)
    ensures Handled(s) <= c.blocks
  {
    hide Conserved, Exclusive, Contents, Output, InFlight, Jobs, Range;
    if s.consumer.GiveBack? {
      GivesBackOldest(c, s);
    }
  }

  /** However it was scheduled, a finished run has produced exactly the sequential output,
      failed at the same block or not at all, given every buffer back and stopped every
      thread; without a failure (or without cancelling) it has gone through the whole plan. */
  lemma EveryFinishedRun(c: Config, actions: seq<Action>)
    requires Run(c, Init(c), actions).Some? && Done(Run(c, Init(c), actions).value)
    ensures var s := Run(c, Init(c), actions).value;
            && (s.output, s.failed) == Sequential(c, c.blocks)
            && (s.failed.None? || !c.cancellable ==> s.outcome == Some(Planned) && s.issued == c.blocks)
            && s.pc.Finished? && s.exited == c.workers && s.busy == [] && s.jobs == []
            && (c.pool.Some? ==> multiset(s.free) == multiset(Buffers(c)))
  {
    hide Enabled, Do, Measure, Init;
    InitInv(c);
    RunKeeps(c, Init(c), actions);
    AtTheEnd(c, Run(c, Init(c), actions).value);
  }

  lemma AtTheEnd(c: Config, s: State)
    requires Inv(c, s) && Done(s)
    ensures (s.output, s.failed) == Sequential(c, c.blocks)
    ensures s.failed.None? || !c.cancellable ==> s.outcome == Some(Planned) && s.issued == c.blocks
    ensures s.pc.Finished? && s.exited == c.workers && s.busy == [] && s.jobs == []
    ensures c.pool.Some? ==> multiset(s.free) == multiset(Buffers(c))
  {
    hide Exclusive, Contents, InFlight, Jobs, Buffers;
    assert Handled(s) == s.issued;
    assert s.outcome.Some?;
    assert s.outcome.value.Planned? || s.outcome.value.Canceled?;
    SequentialGrows(c, s.issued, c.blocks);
  }
}
