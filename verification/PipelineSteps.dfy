/** Every step of a pipeline keeps its invariant. */
module PipelineSteps {
  import opened Bytes
  import opened OrderedPipeline

  /** What the blocks in flight depend on. */
  predicate SameFlight(s: State, s': State)
  {
    && Hand(s) == Hand(s') && s.jobs == s'.jobs && s.busy == s'.busy && s.results == s'.results
    && InConsumer(s) == InConsumer(s') && s.seen == s'.seen && s.held == s'.held && s.mem == s'.mem
  }

  lemma FlightUntouched(c: Config, s: State, s': State)
    requires SameFlight(s, s') && s.issued == s'.issued
    ensures Flight(c, s) ==> Flight(c, s')
    ensures Contents(s) ==> Contents(s')
  {
    hide Hand, InConsumer, Jobs;
    if Contents(s) {
      HoldsSame(s, s', Hand(s), false);
      HoldsSame(s, s', s.jobs, false);
      HoldsSame(s, s', s.busy, false);
      HoldsSame(s, s', s.results, true);
      HoldsSame(s, s', InConsumer(s), true);
    }
  }

  lemma HoldsSame(s: State, s': State, js: seq<Job>, done: bool)
    requires s.mem == s'.mem && Holds(s, js, done)
    ensures Holds(s', js, done)
  {
  }

  lemma TakenFlight(c: Config, s: State, s': State, j: Job)
    requires Flight(c, s) && s.issued < c.blocks && Hand(s) == [] && Hand(s') == [j] && j.block == s.issued
    requires s' == s.(pc := s'.pc, free := s'.free, mem := s'.mem, held := s.held + [j.buf])
    ensures Flight(c, s')
  {
    hide Hand, InConsumer, Jobs, Union;
    ConsumerSame(s, s');
    JobsSnoc(s.seen, s.held, j.buf);
    UnionMoves(multiset{}, multiset(s.jobs), multiset(s.busy), multiset(s.results), multiset(InConsumer(s)), multiset{j});
    assert multiset(Hand(s)) == multiset{} && multiset(Hand(s')) == multiset{} + multiset{j};
  }

  lemma TakenContents(s: State, s': State, j: Job)
    requires Contents(s) && Hand(s') == [j]
    requires forall k :: k in InFlight(s) ==> k.buf != j.buf
    requires s' == s.(pc := s'.pc, free := s'.free, mem := s.mem[j.buf := Content(j.block, false)], held := s'.held)
    ensures Contents(s')
  {
    hide Hand, InConsumer, InFlight;
    ConsumerSame(s, s');
    OthersKept(s, s', j.buf);
  }

  lemma JobsSnoc(first: nat, held: seq<nat>, buf: nat)
    ensures multiset(Jobs(first, held + [buf])) == multiset(Jobs(first, held)) + multiset{Job(first + |held|, buf)}
  {
    assert Jobs(first, held + [buf]) == Jobs(first, held) + [Job(first + |held|, buf)];
  }

  lemma ConsumerSame(s: State, s': State)
    requires s.consumer == s'.consumer
    ensures InConsumer(s) == InConsumer(s')
  {
  }

  lemma BufferNotHeld(c: Config, s: State)
    requires Conserved(c, s) && Exclusive(s) && s.pc.TakeBuffer? && Flight(c, s) && (c.pool.Some? ==> s.free != [])
    ensures forall j :: j in InFlight(s) ==> j.buf != if c.pool.Some? then s.free[0] else s.issued
  {
    hide InFlight, Jobs;
    forall j | j in InFlight(s) ensures j.buf != if c.pool.Some? then s.free[0] else s.issued {
      InFlightJob(s, j);
    }
  }

  lemma SentFlight(c: Config, s: State, s': State, j: Job)
    requires Flight(c, s) && Contents(s) && Hand(s) == [j] && Hand(s') == []
    requires s' == s.(pc := s'.pc, issued := s.issued + 1, jobs := s.jobs + [j])
    ensures Flight(c, s') && Contents(s')
  {
    hide Hand, InConsumer, Jobs, Union;
    ConsumerSame(s, s');
    UnionMoves(multiset{}, multiset(s.jobs), multiset(s.busy), multiset(s.results), multiset(InConsumer(s)), multiset{j});
    assert multiset(Hand(s)) == multiset{} + multiset{j} && multiset(Hand(s')) == multiset{};
    assert multiset(s'.jobs) == multiset(s.jobs) + multiset{j};
    forall k | k in s.jobs + [j] ensures k.buf in s'.mem && s'.mem[k.buf] == Content(k.block, false) {
      assert k in s.jobs || k in Hand(s);
    }
    HoldsSame(s, s', s.busy, false);
    HoldsSame(s, s', s.results, true);
    HoldsSame(s, s', InConsumer(s), true);
  }

  lemma FlightDispatched(c: Config, s: State)
    requires Flight(c, s) && Conserved(c, s) && Exclusive(s) && Contents(s) && CanDispatch(c, s)
    ensures Flight(c, Dispatch(c, s)) && Contents(Dispatch(c, s))
  {
    hide Flight, Conserved, Exclusive, Contents, InFlight;
    var s' := Dispatch(c, s);
    if s.pc.TakeBuffer? && s.issued < c.blocks {
      BufferNotHeld(c, s);
      TakenFlight(c, s, s', Job(s.issued, s'.pc.buf));
      TakenContents(s, s', Job(s.issued, s'.pc.buf));
    } else if s.pc.SendJob? {
      SentFlight(c, s, s', Job(s.issued, s.pc.buf));
    } else {
      FlightUntouched(c, s, s');
    }
  }

  lemma ConservedDispatched(c: Config, s: State)
    requires Conserved(c, s) && CanDispatch(c, s) && s.seen + |s.held| == s.issued + |Hand(s)|
    ensures Conserved(c, Dispatch(c, s))
  {
    hide Conserved, Range;
    var s' := Dispatch(c, s);
    if s.pc.TakeBuffer? {
      ConservedTaken(c, s);
    } else if s.pc.ReturnBuffer? {
      ConservedReturned(c, s, s');
    } else {
      ConservedProbe(c, s, s');
    }
  }

  lemma ConservedTaken(c: Config, s: State)
    requires Conserved(c, s) && (c.pool.Some? ==> s.free != []) && s.pc.TakeBuffer? && s.seen + |s.held| == s.issued
    ensures Conserved(c, Take(c, s))
  {
    hide Buffers;
    var s' := Take(c, s);
    if c.pool.Some? {
      assert Probe(s) == [];
      FirstFree(s.free, s.held);
    }
  }

  /** A buffer leaves the free list, for the blocks in flight or for a round without one. */
  lemma FirstFree(free: seq<nat>, held: seq<nat>)
    requires free != []
    ensures multiset(free[1..]) + multiset(held + [free[0]]) == multiset(free) + multiset(held)
    ensures multiset(free[1..]) + multiset(held) + multiset([free[0]]) == multiset(free) + multiset(held)
  {
    assert free == [free[0]] + free[1..];
  }

  lemma ConservedReturned(c: Config, s: State, s': State)
    requires Conserved(c, s) && s.pc.ReturnBuffer? && !s'.pc.ReturnBuffer?
    requires s' == s.(pc := s'.pc, free := Freed(c, s, s.pc.buf))
    ensures Conserved(c, s')
  {
    hide Buffers, Range;
    assert Probe(s) == [s.pc.buf] && Probe(s') == [];
  }

  lemma ConservedProbe(c: Config, s: State, s': State)
    requires Conserved(c, s) && !s.pc.ReturnBuffer? && !s'.pc.ReturnBuffer?
    requires s.free == s'.free && s.held == s'.held && s.seen == s'.seen
    ensures Conserved(c, s')
  {
    hide Buffers, Range;
    assert Probe(s) == Probe(s') == [];
  }

  /** Changing one buffer leaves the jobs on other buffers alone. */
  lemma OthersKept(s: State, s': State, buf: nat)
    requires Contents(s) && forall j :: j in InFlight(s) ==> j.buf != buf
    requires forall b :: b != buf && b in s.mem ==> b in s'.mem && s'.mem[b] == s.mem[b]
    ensures Holds(s', Hand(s), false) && Holds(s', s.jobs, false) && Holds(s', s.busy, false)
    ensures Holds(s', s.results, true) && Holds(s', InConsumer(s), true)
  {
    hide Hand, InConsumer;
    forall j | j in Hand(s) ensures j.buf in s'.mem && s'.mem[j.buf] == s.mem[j.buf] { assert j in InFlight(s); }
    forall j | j in s.jobs ensures j.buf in s'.mem && s'.mem[j.buf] == s.mem[j.buf] { assert j in InFlight(s); }
    forall j | j in s.busy ensures j.buf in s'.mem && s'.mem[j.buf] == s.mem[j.buf] { assert j in InFlight(s); }
    forall j | j in s.results ensures j.buf in s'.mem && s'.mem[j.buf] == s.mem[j.buf] { assert j in InFlight(s); }
    forall j | j in InConsumer(s) ensures j.buf in s'.mem && s'.mem[j.buf] == s.mem[j.buf] { assert j in InFlight(s); }
  }

  lemma DispatchKeeps(c: Config, s: State)
    requires Inv(c, s) && CanDispatch(c, s)
    ensures Inv(c, Dispatch(c, s))
  {
    hide Flight, Conserved, Exclusive, Contents, Output, Control, InOrder;
    var s' := Dispatch(c, s);
    HandHeld(c, s);
    FlightDispatched(c, s);
    ConservedDispatched(c, s);
    ConservedIsExclusive(c, s');
    OrderDispatched(c, s);
    ControlDispatched(c, s);
    OutputSame(c, s, s');
  }

  lemma OrderDispatched(c: Config, s: State)
    requires InOrder(s) && CanDispatch(c, s)
    ensures InOrder(Dispatch(c, s))
  {
    var s' := Dispatch(c, s);
    if s.pc.SendOrdered? {
      assert s'.ordered == Range(Taken(s'), Queued(s'));
    } else {
      assert Taken(s) == Taken(s') && Queued(s) == Queued(s');
    }
  }

  lemma ControlDispatched(c: Config, s: State)
    requires Control(c, s) && CanDispatch(c, s)
    ensures Control(c, Dispatch(c, s))
  {
  }

  lemma OutputSame(c: Config, s: State, s': State)
    requires Output(c, s) && s.output == s'.output && s.failed == s'.failed && Handled(s) == Handled(s')
    ensures Output(c, s')
  {
    hide Sequential;
  }

  lemma HandHeld(c: Config, s: State)
    requires Flight(c, s)
    ensures s.seen + |s.held| == s.issued + |Hand(s)| <= c.blocks
  {
  }

  lemma TakeJobKeeps(c: Config, s: State)
    requires Inv(c, s) && CanTakeJob(c, s)
    ensures Inv(c, TakeJob(c, s))
  {
    hide Flight, Conserved, Exclusive, Contents, Sequential, InFlight, Range;
    FlightTakenJob(c, s);
    ConservedSame(c, s, TakeJob(c, s));
  }

  lemma ConservedSame(c: Config, s: State, s': State)
    requires s.free == s'.free && s.held == s'.held && s.pc == s'.pc && s.seen == s'.seen
    ensures Conserved(c, s) ==> Conserved(c, s')
    ensures Exclusive(s) ==> Exclusive(s')
  {
    hide Range, Buffers;
  }

  lemma FlightTakenJob(c: Config, s: State)
    requires Flight(c, s) && Contents(s) && CanTakeJob(c, s)
    ensures Flight(c, TakeJob(c, s)) && Contents(TakeJob(c, s))
  {
    hide Jobs, Hand, InConsumer, Union;
    var s' := TakeJob(c, s);
    var j := s.jobs[0];
    SameHands(s, s');
    assert s.jobs == [j] + s.jobs[1..];
    assert multiset(s.jobs) == multiset(s'.jobs) + multiset{j};
    UnionMoves(multiset(Hand(s)), multiset(s'.jobs), multiset(s.busy), multiset(s.results), multiset(InConsumer(s)), multiset{j});
    assert j in s.jobs;
    HoldsSame(s, s', Hand(s), false);
    HoldsSame(s, s', s.results, true);
    HoldsSame(s, s', InConsumer(s), true);
  }

  lemma SameHands(s: State, s': State)
    requires s.pc == s'.pc && s.issued == s'.issued && s.consumer == s'.consumer
    ensures Hand(s) == Hand(s') && InConsumer(s) == InConsumer(s')
  {
  }

  lemma FlightFinished(c: Config, s: State, i: nat)
    requires Flight(c, s) && Exclusive(s) && Contents(s) && i < |s.busy|
    ensures s.busy[i].buf in s.mem && Contents(Finish(s, i)) && Flight(c, Finish(s, i))
  {
    hide Jobs, Exclusive, Hand, InConsumer, Without, Union;
    var j := s.busy[i];
    assert j in s.busy;
    var s' := Finish(s, i);
    var rest := s.(busy := s'.busy);
    SameHands(s, s');
    SameHands(s, rest);
    UnionMoves(multiset(Hand(s)), multiset(s.jobs), multiset(rest.busy), multiset(s.results), multiset(InConsumer(s)), multiset{j});
    assert multiset(s'.results) == multiset(s.results) + multiset{j};
    assert InFlight(s) == InFlight(rest) + multiset{j} == InFlight(s');
    forall k | k in InFlight(rest) ensures k.buf != j.buf {
      ApartInFlight(s, j, k);
    }
    RestHeld(s, rest);
    OthersKept(rest, s', j.buf);
  }

  lemma RestHeld(s: State, rest: State)
    requires Contents(s) && rest == s.(busy := rest.busy) && multiset(rest.busy) <= multiset(s.busy)
    ensures Contents(rest)
  {
    hide Hand, InConsumer;
    SameHands(s, rest);
    forall k | k in rest.busy ensures k in s.busy {
      assert k in multiset(rest.busy);
    }
    HoldsSame(s, rest, Hand(s), false);
    HoldsSame(s, rest, s.jobs, false);
    HoldsSame(s, rest, s.results, true);
    HoldsSame(s, rest, InConsumer(s), true);
  }

  lemma FinishKeeps(c: Config, s: State, i: nat)
    requires Inv(c, s) && i < |s.busy|
    ensures s.busy[i].buf in s.mem && Inv(c, Finish(s, i))
  {
    hide Flight, Contents, Sequential, Conserved, Exclusive, Without, Range;
    FlightFinished(c, s, i);
    ConservedSame(c, s, Finish(s, i));
  }

  lemma ExitKeeps(c: Config, s: State)
    requires Inv(c, s) && CanExit(c, s)
    ensures Inv(c, s.(exited := s.exited + 1))
  {
    hide Flight, Contents, Sequential, Conserved, Exclusive, Range, Hand, InConsumer;
    var s' := s.(exited := s.exited + 1);
    SameHands(s, s');
    FlightUntouched(c, s, s');
    ConservedSame(c, s, s');
  }

  /** The block the consumer gives back is the oldest one in flight. */
  lemma GivesBackOldest(c: Config, s: State)
    requires Flight(c, s) && InOrder(s) && s.consumer.GiveBack?
    ensures s.held != [] && s.consumer.job == Job(s.seen, s.held[0])
  {
    hide Jobs, Hand, Range;
    assert s.consumer.job in InConsumer(s);
    assert s.consumer.job in InFlight(s);
    InFlightJob(s, s.consumer.job);
  }

  lemma FlightGivenBack(c: Config, s: State, s': State)
    requires Flight(c, s) && InOrder(s) && s.consumer.GiveBack?
    requires s' == s.(consumer := Idle, seen := s.seen + 1, free := s'.free, held := if s.held == [] then [] else s.held[1..])
    ensures Flight(c, s')
  {
    hide Jobs, Range, Hand, Union;
    GivesBackOldest(c, s);
    FirstJob(s.seen, s.held);
    HandSame(s, s');
    var j := s.consumer.job;
    UnionMoves(multiset(Hand(s)), multiset(s.jobs), multiset(s.busy), multiset(s.results), multiset{}, multiset{j});
    assert multiset(InConsumer(s)) == multiset{} + multiset{j} && multiset(InConsumer(s')) == multiset{};
    CancelOne(InFlight(s'), multiset(Jobs(s'.seen, s'.held)), j);
  }

  lemma ContentsGivenBack(s: State, s': State)
    requires Contents(s) && s.mem == s'.mem && s.pc == s'.pc && s.issued == s'.issued && s'.consumer.Idle?
    requires s.jobs == s'.jobs && s.busy == s'.busy && s.results == s'.results
    ensures Contents(s')
  {
    hide Hand;
    HandSame(s, s');
    HoldsSame(s, s', Hand(s), false);
    HoldsSame(s, s', s.jobs, false);
    HoldsSame(s, s', s.busy, false);
    HoldsSame(s, s', s.results, true);
  }

  lemma HandSame(s: State, s': State)
    requires s.pc == s'.pc && s.issued == s'.issued
    ensures Hand(s) == Hand(s')
  {
  }

  lemma FirstJob(first: nat, held: seq<nat>)
    requires held != []
    ensures multiset(Jobs(first, held)) == multiset{Job(first, held[0])} + multiset(Jobs(first + 1, held[1..]))
  {
    assert Jobs(first, held) == [Job(first, held[0])] + Jobs(first + 1, held[1..]);
  }

  lemma FlightReceived(c: Config, s: State, s': State, i: nat)
    requires Flight(c, s) && Contents(s) && s.consumer.Await? && i < |s.results|
    requires s' == s.(consumer := Received(s.results[i]), results := Without(s.results, i))
    ensures Flight(c, s') && Contents(s')
  {
    hide Jobs, Hand, Without, Union;
    HandSame(s, s');
    var j := s.results[i];
    assert j in s.results;
    UnionMoves(multiset(Hand(s)), multiset(s.jobs), multiset(s.busy), multiset(s'.results), multiset{}, multiset{j});
    assert multiset(InConsumer(s)) == multiset{} && multiset(InConsumer(s')) == multiset{} + multiset{j};
    assert multiset(s.results) == multiset(s'.results) + multiset{j};
    forall k | k in s'.results ensures k in s.results {
      assert k in multiset(s'.results);
      assert k in multiset(s.results);
    }
    HoldsSame(s, s', Hand(s), false);
    HoldsSame(s, s', s.jobs, false);
    HoldsSame(s, s', s.busy, false);
  }

  lemma FlightConsumed(c: Config, s: State)
    requires Flight(c, s) && InOrder(s) && Contents(s) && CanConsume(c, s)
    ensures Flight(c, Consume(c, s)) && Contents(Consume(c, s))
  {
    hide Jobs, Hand, Flight, Contents, Range, Without, Find;
    var s' := Consume(c, s);
    if s.consumer.GiveBack? {
      FlightGivenBack(c, s, s');
      ContentsGivenBack(s, s');
    } else if s.consumer.Await? {
      FlightReceived(c, s, s', Find(s.results, s.consumer.block));
    } else {
      HandSame(s, s');
      FlightUntouched(c, s, s');
    }
  }

  lemma ConservedConsumed(c: Config, s: State)
    requires Flight(c, s) && InOrder(s) && Conserved(c, s) && CanConsume(c, s)
    ensures Conserved(c, Consume(c, s))
  {
    hide Flight, Without, Find, Conserved, InOrder, Range;
    var s' := Consume(c, s);
    if s.consumer.GiveBack? {
      GivesBackOldest(c, s);
      ConservedGivenBack(c, s, s');
    } else {
      ConservedSame(c, s, s');
    }
  }

  lemma ConservedGivenBack(c: Config, s: State, s': State)
    requires Conserved(c, s) && s.held != []
    requires s' == s.(consumer := s'.consumer, seen := s.seen + 1, free := Freed(c, s, s.held[0]), held := s.held[1..])
    ensures Conserved(c, s')
  {
    hide Buffers;
    assert Probe(s') == Probe(s);
    if c.pool.Some? {
      hide Range, Probe;
      MoveOne(s.free, s.held, multiset(Probe(s)));
    } else {
      assert s'.held == Range(s.seen, s.seen + |s.held|)[1..];
    }
  }

  lemma MoveOne(free: seq<nat>, held: seq<nat>, rest: multiset<nat>)
    requires held != []
    ensures multiset(free + [held[0]]) + multiset(held[1..]) + rest == multiset(free) + multiset(held) + rest
  {
    assert held == [held[0]] + held[1..];
    assert multiset(held) == multiset{held[0]} + multiset(held[1..]);
  }

  lemma OutputConsumed(c: Config, s: State)
    requires Contents(s) && InOrder(s) && Output(c, s) && CanConsume(c, s)
    ensures Output(c, Consume(c, s))
  {
    hide Range, Without, Find;
    if s.consumer.Received? {
      assert s.consumer.job in InConsumer(s);
    }
  }

  lemma OrderConsumed(c: Config, s: State)
    requires InOrder(s) && CanConsume(c, s)
    ensures InOrder(Consume(c, s))
  {
    hide Without;
    var s' := Consume(c, s);
    if s.consumer.Idle? && s.ordered != [] {
      assert s'.ordered == Range(Taken(s'), Queued(s'));
    }
  }

  lemma ControlConsumed(c: Config, s: State)
    requires Control(c, s) && CanConsume(c, s)
    ensures Control(c, Consume(c, s))
  {
    hide Without, Find, Planning;
    var s' := Consume(c, s);
    PlanningSame(c, s, s');
  }

  lemma PlanningSame(c: Config, s: State, s': State)
    requires Planning(c, s) && s.issued == s'.issued && s.pc == s'.pc && s.outcome == s'.outcome && (s.failed.Some? ==> s'.failed.Some?)
    ensures Planning(c, s')
  {
  }

  lemma ConsumeKeeps(c: Config, s: State)
    requires Inv(c, s) && CanConsume(c, s)
    ensures Inv(c, Consume(c, s))
  {
    hide Flight, Conserved, Exclusive, Contents, Output, Control, InOrder, Consume, CanConsume;
    FlightConsumed(c, s);
    ConservedConsumed(c, s);
    ConservedIsExclusive(c, Consume(c, s));
    OrderConsumed(c, s);
    ControlConsumed(c, s);
    OutputConsumed(c, s);
  }

  lemma StepKeeps(c: Config, s: State, a: Action)
    requires Inv(c, s) && Enabled(c, s, a)
    ensures Inv(c, Do(c, s, a))
  {
    hide Inv, Dispatch, TakeJob, Finish, Consume, CanDispatch, CanTakeJob, CanExit, CanConsume;
    match a
    case ADispatch => DispatchKeeps(c, s);
    case ATakeJob => TakeJobKeeps(c, s);
    case AFinish(i) => FinishKeeps(c, s, i);
    case AExit => ExitKeeps(c, s);
    case AConsume => ConsumeKeeps(c, s);
  }
}
