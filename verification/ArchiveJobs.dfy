/** Bounded, ordered archiving with a worker pool (io/concurrent.go): the dispatcher, the
    workers and the writer as a transition system under an arbitrary scheduler. */
module ArchiveJobs {
  import opened Bytes
  import OP = OrderedPipeline

  const RESULT_LOOKAHEAD := 2

  // ---- Planning ----

  datatype FileJob = FileJob(index: nat, first: nat, members: Option<seq<nat>>, inline: bool)

  /** planJobs: one job per individual file, then one per solid group; the job at position
      `i` has index `i`, and only large individual files are written inline. */
  method PlanJobs(individual: seq<nat>, groups: seq<seq<nat>>, large: nat -> bool) returns (jobs: seq<FileJob>)
    requires forall i :: 0 <= i < |groups| ==> groups[i] != []
    ensures |jobs| == |individual| + |groups|
    ensures forall i :: 0 <= i < |jobs| ==> jobs[i].index == i
    ensures forall i :: 0 <= i < |individual| ==> jobs[i].first == individual[i] && jobs[i].members.None? && jobs[i].inline == large(individual[i])
    ensures forall i :: 0 <= i < |groups| ==> jobs[|individual| + i].members == Some(groups[i]) && !jobs[|individual| + i].inline
  {
    jobs := [];
    for i := 0 to |individual|
      invariant |jobs| == i && forall k :: 0 <= k < i ==> jobs[k] == FileJob(k, individual[k], None, large(individual[k]))
    {
      jobs := jobs + [FileJob(|jobs|, individual[i], None, large(individual[i]))];
    }
    for i := 0 to |groups|
      invariant |jobs| == |individual| + i
      invariant forall k :: 0 <= k < |individual| ==> jobs[k] == FileJob(k, individual[k], None, large(individual[k]))
      invariant forall k :: 0 <= k < i ==> jobs[|individual| + k] == FileJob(|individual| + k, groups[k][0], Some(groups[k]), false)
      invariant forall k :: 0 <= k < |jobs| ==> jobs[k].index == k
    {
      jobs := jobs + [FileJob(|jobs|, groups[i][0], Some(groups[i]), false)];
    }
  }

  // ---- The transition system ----

  /** `inline[i]`: the writer streams job `i` itself. `fatal(i)`: writing job `i` fails
      fatally; `endFails`: the entries after the jobs, or the footer, do. */
  datatype Setup = Setup(workers: Pos, inline: seq<bool>, fatal: nat -> bool, endFails: bool)

  function Slots(c: Setup): nat { c.workers + RESULT_LOOKAHEAD }

  /** `i` is the dispatcher's loop index. */
  datatype Feeder = AtJob(i: nat) | GetSlot(i: nat) | HandOver(i: nat) | CloseWork(i: nat) | Closed(i: nat)

  /** `taken` counts the jobs whose result the writer no longer waits for. */
  datatype Writer = Next(taken: nat) | HasResult(taken: nat) | Writing(taken: nat) | Ending(taken: nat) | Returned(taken: nat, ok: bool)

  datatype Pool = Pool(feeder: Feeder, slots: nat, busy: seq<nat>, exited: nat, results: seq<nat>, writer: Writer, written: seq<nat>)

  function Start(c: Setup): Pool { Pool(AtJob(0), 0, [], 0, [], Next(0), []) }

  /** `done` is closed when the writer returns. */
  predicate IsDone(s: Pool) { s.writer.Returned? }

  predicate IdleWorker(c: Setup, s: Pool) { |s.busy| + s.exited < c.workers }

  datatype Move = Feed | Stop | FinishJob(k: nat) | Exit | Write

  predicate CanFeed(c: Setup, s: Pool)
  {
    match s.feeder
    case AtJob(i) => true
    case GetSlot(i) => s.slots < Slots(c)
    case HandOver(i) => IdleWorker(c, s) // an unbuffered channel: a worker takes the job at once
    case CloseWork(_) => true
    case Closed(_) => false
  }

  function FeedStep(c: Setup, s: Pool): Pool
    requires CanFeed(c, s)
  {
    match s.feeder
    case AtJob(i) =>
      if i >= |c.inline| then s.(feeder := CloseWork(i))
      else if c.inline[i] then s.(feeder := AtJob(i + 1))
      else s.(feeder := GetSlot(i))
    case GetSlot(i) => s.(feeder := HandOver(i), slots := s.slots + 1)
    case HandOver(i) => s.(feeder := AtJob(i + 1), busy := s.busy + [i])
    case CloseWork(i) => s.(feeder := Closed(i))
  }

  predicate CanStop(s: Pool) { IsDone(s) && (s.feeder.GetSlot? || s.feeder.HandOver?) }

  predicate CanWrite(c: Setup, s: Pool)
  {
    match s.writer
    case Next(i) => i >= |c.inline| || c.inline[i] || i in s.results
    case HasResult(_) => s.slots > 0
    case Writing(_) => true
    case Ending(_) => true
    case Returned(_, _) => false
  }

  /** Writes job `i`, the next one, and returns at a fatal error. */
  function Put(c: Setup, s: Pool, i: nat): Pool
  {
    if c.fatal(i) then s.(writer := Returned(i + 1, false)) else s.(writer := Next(i + 1), written := s.written + [i])
  }

  function Drop(xs: seq<nat>, k: nat): (r: seq<nat>)
    requires k < |xs|
    ensures multiset(xs) == multiset(r) + multiset{xs[k]} && |r| == |xs| - 1
  {
    assert xs == xs[..k] + [xs[k]] + xs[k + 1..];
    xs[..k] + xs[k + 1..]
  }

  function Position(xs: seq<nat>, x: nat): (k: nat)
    requires x in xs
    ensures k < |xs| && xs[k] == x
  {
    if xs[0] == x then 0 else 1 + Position(xs[1..], x)
  }

  function WriteStep(c: Setup, s: Pool): Pool
    requires CanWrite(c, s)
  {
    match s.writer
    case Next(i) =>
      if i >= |c.inline| then s.(writer := Ending(i))
      else if c.inline[i] then Put(c, s, i)
      else s.(writer := HasResult(i + 1), results := Drop(s.results, Position(s.results, i)))
    case HasResult(k) => s.(writer := Writing(k), slots := s.slots - 1)
    case Writing(k) => Put(c, s, if k > 0 then k - 1 else 0)
    case Ending(k) => s.(writer := Returned(k, !c.endFails))
  }

  predicate Allowed(c: Setup, s: Pool, m: Move)
  {
    match m
    case Feed => CanFeed(c, s)
    case Stop => CanStop(s)
    case FinishJob(k) => k < |s.busy|
    case Exit => IdleWorker(c, s) && s.feeder.Closed?
    case Write => CanWrite(c, s)
  }

  function Apply(c: Setup, s: Pool, m: Move): Pool
    requires Allowed(c, s, m)
  {
    match m
    case Feed => FeedStep(c, s)
    case Stop => s.(feeder := CloseWork(s.feeder.i))
    case FinishJob(k) => s.(busy := Drop(s.busy, k), results := s.results + [s.busy[k]])
    case Exit => s.(exited := s.exited + 1)
    case Write => WriteStep(c, s)
  }

  // ---- Invariant ----

  /** Worker jobs with indices in [lo, hi). */
  function Pooled(c: Setup, lo: nat, hi: nat): seq<nat>
    requires hi <= |c.inline|
    decreases hi - lo
  {
    if lo >= hi then [] else (if c.inline[lo] then [] else [lo]) + Pooled(c, lo + 1, hi)
  }

  lemma {:induction false} PooledSnoc(c: Setup, lo: nat, hi: nat)
    requires lo <= hi < |c.inline|
    ensures Pooled(c, lo, hi + 1) == Pooled(c, lo, hi) + if c.inline[hi] then [] else [hi]
    decreases hi - lo
  {
    hide Pooled;
    PooledFirst(c, lo, hi + 1);
    if lo < hi {
      PooledFirst(c, lo, hi);
      PooledSnoc(c, lo + 1, hi);
    } else {
      NothingPooled(c, lo, hi);
      NothingPooled(c, lo + 1, hi + 1);
    }
  }

  lemma {:induction false} PooledMembers(c: Setup, lo: nat, hi: nat, x: nat)
    requires hi <= |c.inline|
    ensures x in Pooled(c, lo, hi) <==> lo <= x < hi && !c.inline[x]
    decreases hi - lo
  {
    if lo < hi {
      PooledMembers(c, lo + 1, hi, x);
    }
  }

  function HasSlot(s: Pool): nat { if s.feeder.HandOver? then 1 else 0 }
  function OwesSlot(s: Pool): nat { if s.writer.HasResult? then 1 else 0 }

  /** Where the feeder and the writer are. */
  predicate Positions(c: Setup, s: Pool)
  {
    && s.feeder.i <= |c.inline| && s.writer.taken <= |c.inline|
    && (s.feeder.GetSlot? || s.feeder.HandOver? ==> s.feeder.i < |c.inline| && !c.inline[s.feeder.i])
    && (s.feeder.CloseWork? || s.feeder.Closed? ==> IsDone(s) || s.feeder.i == |c.inline|)
    && (s.writer.HasResult? || s.writer.Writing? ==> 0 < s.writer.taken <= s.feeder.i && !c.inline[s.writer.taken - 1])
    && (s.writer.Ending? ==> s.writer.taken == |c.inline|)
    && Pooled(c, s.feeder.i, s.writer.taken) == []
  }

  /** The jobs handed out whose result has not been taken. */
  function Outstanding(c: Setup, s: Pool): seq<nat>
    requires Positions(c, s)
  {
    Pooled(c, s.writer.taken, s.feeder.i)
  }

  /** Every outstanding job is with a worker or in its result channel, once, and holds a slot. */
  predicate Tracked(c: Setup, s: Pool)
    requires Positions(c, s)
  {
    && multiset(s.busy) + multiset(s.results) == multiset(Outstanding(c, s))
    && |Outstanding(c, s)| + HasSlot(s) + OwesSlot(s) <= s.slots <= Slots(c)
    && (!IsDone(s) ==> |Outstanding(c, s)| + HasSlot(s) + OwesSlot(s) == s.slots)
  }

  /** Jobs are written in order, up to the first fatal one. */
  predicate Ordered(c: Setup, s: Pool)
  {
    && s.written == OP.Range(0, |s.written|) && |s.written| <= |c.inline|
    && (forall i :: 0 <= i < |s.written| ==> !c.fatal(i))
    && match s.writer
       case Next(k) => |s.written| == k
       case HasResult(k) => |s.written| + 1 == k
       case Writing(k) => |s.written| + 1 == k
       case Ending(k) => |s.written| == k == |c.inline|
       case Returned(_, ok) =>
         if ok then |s.written| == |c.inline| && !c.endFails
         else if |s.written| == |c.inline| then c.endFails else c.fatal(|s.written|)
  }

  predicate Crew(c: Setup, s: Pool)
  {
    |s.busy| + s.exited <= c.workers && (s.exited > 0 ==> s.feeder.Closed?)
  }

  predicate Inv(c: Setup, s: Pool)
  {
    Positions(c, s) && Tracked(c, s) && Ordered(c, s) && Crew(c, s)
  }

  lemma StartInv(c: Setup)
    ensures Inv(c, Start(c))
  {
  }

  lemma FeederAdvances(c: Setup, s: Pool, s': Pool)
    requires Positions(c, s) && Tracked(c, s) && s.feeder.i < |c.inline| && s'.feeder == AtJob(s.feeder.i + 1)
    requires if s.feeder.AtJob? then c.inline[s.feeder.i] && s' == s.(feeder := s'.feeder)
             else s.feeder.HandOver? && s' == s.(feeder := s'.feeder, busy := s.busy + [s.feeder.i])
    ensures Positions(c, s') && Tracked(c, s')
  {
    hide Pooled;
    var i, taken := s.feeder.i, s.writer.taken;
    if taken <= i {
      PooledSnoc(c, taken, i);
      NothingPooled(c, i + 1, taken);
    } else {
      PooledFirst(c, i, taken);
      NothingPooled(c, taken, i);
      NothingPooled(c, taken, i + 1);
    }
  }

  lemma PooledFirst(c: Setup, lo: nat, hi: nat)
    requires lo < hi <= |c.inline|
    ensures Pooled(c, lo, hi) == (if c.inline[lo] then [] else [lo]) + Pooled(c, lo + 1, hi)
  {
  }

  lemma NothingPooled(c: Setup, lo: nat, hi: nat)
    requires hi <= lo && hi <= |c.inline|
    ensures Pooled(c, lo, hi) == []
  {
  }

  lemma FeedKeeps(c: Setup, s: Pool)
    requires Inv(c, s) && CanFeed(c, s)
    ensures Inv(c, FeedStep(c, s))
  {
    hide Ordered, Pooled;
    var s' := FeedStep(c, s);
    var i := s.feeder.i;
    if s'.feeder == AtJob(i + 1) {
      FeederAdvances(c, s, s');
    }
    OrderedSame(c, s, s');
  }

  lemma OrderedSame(c: Setup, s: Pool, s': Pool)
    requires Ordered(c, s) && s.written == s'.written && s.writer == s'.writer
    ensures Ordered(c, s')
  {
  }

  lemma WorkKeeps(c: Setup, s: Pool, m: Move)
    requires Inv(c, s) && Allowed(c, s, m) && (m.Stop? || m.FinishJob? || m.Exit?)
    ensures Inv(c, Apply(c, s, m))
  {
    hide Ordered, OP.Range, Drop, Pooled;
    OrderedSame(c, s, Apply(c, s, m));
  }

  /** The writer gets past an inline job. */
  lemma WriterPassesInline(c: Setup, s: Pool, s': Pool)
    requires Positions(c, s) && Tracked(c, s) && s.writer.Next? && s.writer.taken < |c.inline| && c.inline[s.writer.taken]
    requires s' == s.(writer := s'.writer, written := s'.written) && s'.writer.taken == s.writer.taken + 1
    requires s'.writer.Next? || s'.writer.Returned?
    ensures Positions(c, s') && Tracked(c, s')
  {
    hide Pooled;
    var i, taken := s.feeder.i, s.writer.taken;
    if i <= taken {
      PooledSnoc(c, i, taken);
      NothingPooled(c, taken, i);
      NothingPooled(c, taken + 1, i);
    } else {
      PooledFirst(c, taken, i);
      NothingPooled(c, i, taken + 1);
    }
  }

  /** The writer takes a result. */
  lemma WriterTakes(c: Setup, s: Pool, s': Pool)
    requires Positions(c, s) && Tracked(c, s) && s.writer.Next? && s.writer.taken < |c.inline| && !c.inline[s.writer.taken]
    requires s.writer.taken in s.results && multiset(s.results) == multiset(s'.results) + multiset{s.writer.taken}
    requires s' == s.(writer := HasResult(s.writer.taken + 1), results := s'.results)
    ensures Positions(c, s') && Tracked(c, s')
  {
    hide Pooled;
    var i, taken := s.feeder.i, s.writer.taken;
    assert taken in multiset(s.busy) + multiset(s.results);
    PooledMembers(c, taken, i, taken);
    PooledFirst(c, taken, i);
    NothingPooled(c, i, taken + 1);
    assert multiset(Pooled(c, taken, i)) == multiset{taken} + multiset(Pooled(c, taken + 1, i));
    assert multiset(s'.busy) + multiset(s'.results) + multiset{taken} == multiset(s.busy) + multiset(s.results);
    assert multiset(Outstanding(c, s')) + multiset{taken} == multiset(Outstanding(c, s));
    CancelOne(multiset(s'.busy) + multiset(s'.results), multiset(Outstanding(c, s')), taken);
  }

  lemma WriteKeeps(c: Setup, s: Pool)
    requires Inv(c, s) && CanWrite(c, s)
    ensures Inv(c, WriteStep(c, s))
  {
    hide Drop, Position, Pooled, Ordered, Positions, Tracked;
    var s' := WriteStep(c, s);
    KnownPositions(c, s);
    WriteOrdered(c, s);
    if s.writer.Next? && s.writer.taken < |c.inline| {
      if c.inline[s.writer.taken] {
        WriterPassesInline(c, s, s');
      } else {
        WriterTakes(c, s, s');
      }
    } else {
      WriterGoesOn(c, s);
    }
  }

  lemma KnownPositions(c: Setup, s: Pool)
    requires Positions(c, s)
    ensures s.feeder.i <= |c.inline| && s.writer.taken <= |c.inline|
  {
  }

  /** The writer's other steps: giving a slot back, writing a result, and ending. */
  lemma WriterGoesOn(c: Setup, s: Pool)
    requires Inv(c, s) && CanWrite(c, s) && !(s.writer.Next? && s.writer.taken < |c.inline|)
    ensures Positions(c, WriteStep(c, s)) && Tracked(c, WriteStep(c, s))
  {
    hide Drop, Position, Pooled, Ordered, Crew;
    var s' := WriteStep(c, s);
    if s.writer.HasResult? {
      assert s'.busy == s.busy && s'.results == s.results && Outstanding(c, s') == Outstanding(c, s);
    } else if s.writer.Writing? {
      assert s'.busy == s.busy && s'.results == s.results && Outstanding(c, s') == Outstanding(c, s);
    } else {
      assert s'.busy == s.busy && s'.results == s.results && Outstanding(c, s') == Outstanding(c, s);
    }
  }

  lemma WriteOrdered(c: Setup, s: Pool)
    requires Ordered(c, s) && CanWrite(c, s) && s.writer.taken <= |c.inline|
    ensures Ordered(c, WriteStep(c, s))
  {
    hide Drop, Position;
    assert s.written + [|s.written|] == OP.Range(0, |s.written| + 1);
  }

  lemma MoveKeeps(c: Setup, s: Pool, m: Move)
    requires Inv(c, s) && Allowed(c, s, m)
    ensures Inv(c, Apply(c, s, m))
  {
    hide Inv, FeedStep, WriteStep, CanFeed, CanWrite, CanStop, Drop;
    match m
    case Feed => FeedKeeps(c, s);
    case Write => WriteKeeps(c, s);
    case _ => WorkKeeps(c, s, m);
  }

  // ---- No state is stuck, and every schedule ends ----

  /** The writer has returned, and the dispatcher and all workers have ended. */
  predicate AllEnded(c: Setup, s: Pool) { IsDone(s) && s.feeder.Closed? && s.exited == c.workers }

  lemma CrewMoves(c: Setup, s: Pool)
    requires Crew(c, s) && (s.busy != [] || (s.feeder.Closed? && s.exited < c.workers))
    ensures exists m :: Allowed(c, s, m)
  {
    if s.busy != [] { assert Allowed(c, s, FinishJob(0)); } else { assert Allowed(c, s, Exit); }
  }

  /** While the writer waits for a result, that job is on its way. */
  lemma AwaitedJobMoves(c: Setup, s: Pool)
    requires Inv(c, s) && s.writer.Next? && !CanWrite(c, s) && s.busy == []
    ensures exists m :: Allowed(c, s, m)
  {
    hide Pooled, Ordered;
    var i, taken := s.feeder.i, s.writer.taken;
    PooledMembers(c, taken, i, taken);
    assert taken in multiset(Outstanding(c, s)) ==> taken in multiset(s.busy) + multiset(s.results);
    assert i <= taken;
    NothingPooled(c, taken, i);
    assert Allowed(c, s, Feed);
  }

  lemma NotStuck(c: Setup, s: Pool)
    requires Inv(c, s) && !AllEnded(c, s)
    ensures exists m :: Allowed(c, s, m)
  {
    hide Pooled, Ordered;
    if s.busy != [] {
      CrewMoves(c, s);
    } else if IsDone(s) {
      if s.feeder.Closed? {
        CrewMoves(c, s);
      } else {
        assert Allowed(c, s, Feed) || Allowed(c, s, Stop);
      }
    } else if CanWrite(c, s) {
      assert Allowed(c, s, Write);
    } else {
      AwaitedJobMoves(c, s);
    }
  }

  function FeederSteps(f: Feeder): nat
  {
    match f
    case AtJob(_) => 5
    case GetSlot(_) => 4
    case HandOver(_) => 3
    case CloseWork(_) => 2
    case Closed(_) => 1
  }

  function WriterSteps(w: Writer): nat
  {
    match w
    case Next(_) => 3
    case HasResult(_) => 5
    case Writing(_) => 4
    case Ending(_) => 2
    case Returned(_, _) => 0
  }

  /** An upper bound on the moves still to come. */
  function Measure(c: Setup, s: Pool): int
  {
    8 * (|c.inline| - s.feeder.i) + 2 * FeederSteps(s.feeder) + 4 * (|c.inline| - s.writer.taken) + WriterSteps(s.writer)
    + |s.busy| + c.workers - s.exited
  }

  lemma MoveDecreases(c: Setup, s: Pool, m: Move)
    requires Inv(c, s) && Allowed(c, s, m)
    ensures Measure(c, Apply(c, s, m)) < Measure(c, s)
  {
    hide Drop, Position, Pooled, Ordered, Tracked;
  }

  function Run(c: Setup, s: Pool, moves: seq<Move>): Option<Pool>
    decreases |moves|
  {
    if moves == [] then Some(s)
    else if !Allowed(c, s, moves[0]) then None
    else Run(c, Apply(c, s, moves[0]), moves[1..])
  }

  lemma {:induction false} RunKeeps(c: Setup, s: Pool, moves: seq<Move>)
    requires Inv(c, s) && Run(c, s, moves).Some?
    ensures Inv(c, Run(c, s, moves).value)
    ensures |moves| + Measure(c, Run(c, s, moves).value) <= Measure(c, s)
    decreases |moves|
  {
    hide Inv, Allowed, Apply, Measure;
    if moves != [] {
      MoveKeeps(c, s, moves[0]);
      MoveDecreases(c, s, moves[0]);
      RunKeeps(c, Apply(c, s, moves[0]), moves[1..]);
    }
  }

  /** For every schedule, after any number of moves: entries have been written in job order,
      at most workers+2 jobs are with a worker or waiting to be written, the schedule is no
      longer than a fixed bound, and something can move until all threads have ended. */
  lemma EverySchedule(c: Setup, moves: seq<Move>)
    requires Run(c, Start(c), moves).Some?
    ensures var s := Run(c, Start(c), moves).value;
            && s.written == OP.Range(0, |s.written|)
            && |s.busy| + |s.results| <= c.workers + RESULT_LOOKAHEAD
            && |moves| <= Measure(c, Start(c))
            && (AllEnded(c, s) || exists m :: Allowed(c, s, m))
  {
    hide Allowed, Start, Measure;
    StartInv(c);
    RunKeeps(c, Start(c), moves);
    var s := Run(c, Start(c), moves).value;
    WithinBounds(c, s);
    if !AllEnded(c, s) {
      NotStuck(c, s);
    }
  }

  lemma WithinBounds(c: Setup, s: Pool)
    requires Inv(c, s)
    ensures s.written == OP.Range(0, |s.written|) && |s.busy| + |s.results| <= c.workers + RESULT_LOOKAHEAD && 0 <= Measure(c, s)
  {
    hide Pooled;
    assert |multiset(s.busy) + multiset(s.results)| == |multiset(Outstanding(c, s))|;
  }

  /** When it is over: without a fatal error every job was written; otherwise exactly the
      jobs before the first fatal one were. */
  lemma EveryCompleteSchedule(c: Setup, moves: seq<Move>)
    requires Run(c, Start(c), moves).Some? && AllEnded(c, Run(c, Start(c), moves).value)
    ensures var s := Run(c, Start(c), moves).value;
            && (forall i :: 0 <= i < |s.written| ==> !c.fatal(i))
            && (s.writer.ok ==> s.written == OP.Range(0, |c.inline|) && !c.endFails)
            && (!s.writer.ok ==> s.written == OP.Range(0, |s.written|) && if |s.written| < |c.inline| then c.fatal(|s.written|) else c.endFails)
  {
    hide Allowed, Start, Measure;
    StartInv(c);
    RunKeeps(c, Start(c), moves);
  }
}
