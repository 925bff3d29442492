/** What holds over every interleaving of the worker pool, from start to the consumer's return. */
module PoolRuns {
  import opened Prelude
  import opened Decimals
  import opened WorkerPool

  /** `steps` can be taken one after the other from `s`. */
  ghost predicate CanRun(s: State, steps: seq<Step>)
    decreases |steps|, 0
  {
    steps == []
    || (CanRun(s, steps[..|steps| - 1]) && Enabled(Final(s, steps[..|steps| - 1]), steps[|steps| - 1]))
  }

  ghost function Final(s: State, steps: seq<Step>): State
    requires CanRun(s, steps)
    decreases |steps|, 1
  {
    if steps == [] then s else Next(Final(s, steps[..|steps| - 1]), steps[|steps| - 1])
  }

  ghost predicate Reachable(n: nat, jobs: seq<Job>, s: State) {
    exists steps :: CanRun(Init(n, jobs), steps) && Final(Init(n, jobs), steps) == s
  }

  lemma {:induction false} RunKeepsInv(n: nat, jobs: seq<Job>, steps: seq<Step>)
    requires CanRun(Init(n, jobs), steps)
    ensures Inv(Final(Init(n, jobs), steps), jobs) && Final(Init(n, jobs), steps).n == n
  {
    hide Inv;
    if steps == [] {
      InitInv(n, jobs);
    } else {
      var front := steps[..|steps| - 1];
      RunKeepsInv(n, jobs, front);
      StepKeepsInv(Final(Init(n, jobs), front), steps[|steps| - 1], jobs);
    }
  }

  lemma {:induction false} ReachableInv(n: nat, jobs: seq<Job>, s: State)
    requires Reachable(n, jobs, s)
    ensures Inv(s, jobs) && s.n == n
  {
    hide Inv;
    var steps :| CanRun(Init(n, jobs), steps) && Final(Init(n, jobs), steps) == s;
    RunKeepsInv(n, jobs, steps);
  }

  /** Nothing is ever sent on a closed channel, no channel is closed twice, the counter stays at or above zero. */
  lemma {:induction false} NeverPanics(n: nat, jobs: seq<Job>, s: State)
    requires Reachable(n, jobs, s)
    ensures !s.panicked && s.wg >= 0
  {
    ReachableInv(n, jobs, s);
  }

  // ----- What Done promises ---------------------------------------------------------------------

  /** Every job has run exactly once, and its result was consumed or waits in the results channel. */
  ghost predicate AllRan(s: State, jobs: seq<Job>) {
    multiset(s.consumed) + multiset(s.results.buf) == multiset(jobs)
  }

  lemma {:induction false} WorkersGone(s: State, jobs: seq<Job>)
    requires Inv(s, jobs) && s.n > 0 && s.wg == 0 && |s.workers| == s.n
    ensures s.pending == [] && s.jobs.buf == [] && s.generatorDone
    ensures forall job :: Copies(s.consumed, job) + Copies(s.results.buf, job) == Copies(jobs, job)
  {
    NobodyPresent(s.workers);
    assert s.workers[0] == Exited;
    forall job
      ensures Copies(s.consumed, job) + Copies(s.results.buf, job) == Copies(jobs, job)
    {
      assert Everywhere(s, job) == Copies(jobs, job);
    }
  }

  /**
   * Once Done is closed every job has run exactly once, provided there is a worker or nothing to do,
   * and at most `n` results have not been collected.
   */
  lemma {:induction false} DoneMeansAllRanIff(n: nat, jobs: seq<Job>, s: State)
    requires Reachable(n, jobs, s) && s.doneClosed
    ensures AllRan(s, jobs) <==> n > 0 || jobs == []
    ensures |s.results.buf| <= n
  {
    ReachableInv(n, jobs, s);
    if n > 0 {
      WorkersGone(s, jobs);
      CopiesDecide(s.consumed, s.results.buf, jobs);
    } else {
      assert multiset(s.consumed) + multiset(s.results.buf) == multiset{};
      if jobs != [] {
        assert jobs[0] in multiset(jobs);
      }
    }
  }

  lemma {:induction false} CopiesDecide(a: seq<Job>, b: seq<Job>, all: seq<Job>)
    requires forall job :: Copies(a, job) + Copies(b, job) == Copies(all, job)
    ensures multiset(a) + multiset(b) == multiset(all)
    ensures |a| + |b| == |all|
  {
    forall job
      ensures (multiset(a) + multiset(b))[job] == multiset(all)[job]
    {
      assert Copies(a, job) + Copies(b, job) == Copies(all, job);
    }
    assert multiset(a) + multiset(b) == multiset(all);
    assert |multiset(a) + multiset(b)| == |a| + |b|;
  }

  /**
   * A successful return hands over the users of the consumed results in order; what it lacks are the
   * results still in the channel, at most one for each worker.
   */
  lemma {:induction false} SuccessLosesAtMostTheBuffer(n: nat, jobs: seq<Job>, s: State)
    requires Reachable(n, jobs, s) && n > 0 && s.consumer == Returned(true)
    ensures s.users == Collect(s.consumed)
    ensures AllRan(s, jobs) && |jobs| - |s.consumed| == |s.results.buf| <= n
  {
    ReachableInv(n, jobs, s);
    WorkersGone(s, jobs);
    CopiesDecide(s.consumed, s.results.buf, jobs);
  }

  // ----- What is returned -----------------------------------------------------------------------

  /** Collecting is putting the users of the jobs that did not fail end to end. */
  lemma {:induction false} CollectIsConcat(jobs: seq<Job>)
    ensures Collect(jobs) == Concat(seq(|jobs|, i requires 0 <= i < |jobs| =>
                                          if jobs[i].outcome.Value? then jobs[i].outcome.users else []))
  {
    if jobs != [] {
      var front, last := jobs[..|jobs| - 1], jobs[|jobs| - 1];
      CollectIsConcat(front);
      var users := if last.outcome.Value? then last.outcome.users else [];
      var each := seq(|front|, i requires 0 <= i < |front| =>
        if front[i].outcome.Value? then front[i].outcome.users else []);
      ConcatSnoc(each, users);
      assert seq(|jobs|, i requires 0 <= i < |jobs| =>
        if jobs[i].outcome.Value? then jobs[i].outcome.users else []) == each + [users];
    }
  }

  lemma {:induction false} CollectSnoc(jobs: seq<Job>, last: Job)
    ensures Collect(jobs + [last]) == Collect(jobs) + Collect([last])
  {
    assert (jobs + [last])[..|jobs|] == jobs && [last][..0] == [];
    assert Collect([]) == [];
  }

  lemma {:induction false} CollectAppend(a: seq<Job>, b: seq<Job>)
    ensures Collect(a + b) == Collect(a) + Collect(b)
  {
    hide Collect;
    if b == [] {
      assert a + b == a;
      CollectNothing();
    } else {
      var front, last := b[..|b| - 1], b[|b| - 1];
      CollectAppend(a, front);
      CollectSnoc(a + front, last);
      CollectSnoc(front, last);
      assert a + b == (a + front) + [last] && b == front + [last];
      assert Collect(a) + (Collect(front) + Collect([last])) == (Collect(a) + Collect(front)) + Collect([last]);
    }
  }

  lemma {:induction false} CollectNothing()
    ensures Collect([]) == []
  {
  }

  lemma {:induction false} CollectWithout(jobs: seq<Job>, i: nat)
    requires i < |jobs|
    ensures multiset(Collect(jobs)) == multiset(Collect(jobs[..i] + jobs[i + 1..])) + multiset(Collect([jobs[i]]))
  {
    hide Collect;
    assert jobs == (jobs[..i] + [jobs[i]]) + jobs[i + 1..];
    CollectAppend(jobs[..i] + [jobs[i]], jobs[i + 1..]);
    CollectAppend(jobs[..i], [jobs[i]]);
    CollectAppend(jobs[..i], jobs[i + 1..]);
  }

  /** The same jobs in another order hold the same users. */
  lemma {:induction false} CollectPermutes(a: seq<Job>, b: seq<Job>)
    requires multiset(a) == multiset(b)
    ensures multiset(Collect(a)) == multiset(Collect(b))
  {
    hide Collect;
    if a == [] {
      assert |multiset(b)| == |b|;
      assert b == [];
    } else {
      var front, last := a[..|a| - 1], a[|a| - 1];
      assert a == front + [last];
      assert last in multiset(b);
      var i: nat :| i < |b| && b[i] == last;
      var rest := b[..i] + b[i + 1..];
      assert b == b[..i] + [b[i]] + b[i + 1..];
      assert multiset(front) == multiset(a) - multiset{last} == multiset(b) - multiset{last} == multiset(rest);
      CollectPermutes(front, rest);
      CollectSnoc(front, last);
      CollectWithout(b, i);
    }
  }

  /**
   * A successful return and the results that were left behind hold between them every user of every job
   * that did not fail, as often as the jobs' outcomes do.
   */
  lemma {:induction false} ReturnedUsers(n: nat, jobs: seq<Job>, s: State)
    requires Reachable(n, jobs, s) && n > 0 && s.consumer == Returned(true)
    ensures var left := s.results.buf;
            multiset(s.users)
            + multiset(Concat(seq(|left|, i requires 0 <= i < |left| =>
                                    if left[i].outcome.Value? then left[i].outcome.users else [])))
            == multiset(Concat(seq(|jobs|, i requires 0 <= i < |jobs| =>
                                     if jobs[i].outcome.Value? then jobs[i].outcome.users else [])))
  {
    hide Reachable, Collect;
    SuccessLosesAtMostTheBuffer(n, jobs, s);
    CollectIsConcat(s.results.buf);
    CollectIsConcat(jobs);
    CollectAppend(s.consumed, s.results.buf);
    CollectPermutes(s.consumed + s.results.buf, jobs);
  }

  /** With readable job ids the consumer never gives up. */
  lemma {:induction false} NeverReturnsFalse(n: nat, jobs: seq<Job>, s: State)
    requires Reachable(n, jobs, s)
    requires forall job :: job in jobs ==> ParseInt64(job.id).Some?
    ensures s.consumer != Returned(false)
  {
    ReachableInv(n, jobs, s);
    ConsumedAreJobs(s, jobs);
  }

  lemma {:induction false} ConsumedAreJobs(s: State, jobs: seq<Job>)
    requires Inv(s, jobs)
    ensures forall i :: 0 <= i < |s.consumed| ==> s.consumed[i] in jobs
  {
    forall i | 0 <= i < |s.consumed|
      ensures s.consumed[i] in jobs
    {
      var job := s.consumed[i];
      assert Everywhere(s, job) == Copies(jobs, job);
      assert job in multiset(s.consumed);
      assert job in multiset(jobs);
    }
  }

  // ----- Order ----------------------------------------------------------------------------------

  /** The results channel is closed only after Done, so the consumer always finds a way out. */
  lemma {:induction false} ResultsCloseAfterDone(n: nat, jobs: seq<Job>, s: State)
    requires Reachable(n, jobs, s)
    ensures s.results.closed ==> s.doneClosed && s.wg == 0
    ensures s.doneClosed ==> s.wg == 0
  {
    ReachableInv(n, jobs, s);
  }

  function InHand(worker: Worker): seq<Job> {
    match worker
    case Running(job) => [job]
    case Holding(job) => [job]
    case _ => []
  }

  function Hand(s: State): seq<Job> {
    if s.workers == [] then [] else InHand(s.workers[0])
  }

  function Line(consumed: seq<Job>, results: seq<Job>, hand: seq<Job>, queued: seq<Job>, pending: seq<Job>): seq<Job> {
    consumed + (results + (hand + (queued + pending)))
  }

  /** From the consumer's end back to the generator's, the jobs stand in their order. */
  ghost predicate InLine(s: State, jobs: seq<Job>) {
    |s.workers| <= 1 && Line(s.consumed, s.results.buf, Hand(s), s.jobs.buf, s.pending) == jobs
  }

  /** Handing a job on from the head of one part of the line to the end of the part before it. */
  lemma {:induction false} HandOn(a: seq<Job>, x: Job, b: seq<Job>, rest: seq<Job>)
    ensures a + (([x] + b) + rest) == (a + [x]) + (b + rest)
  {
  }

  lemma {:induction false} StepKeepsLine(s: State, step: Step, jobs: seq<Job>)
    requires s.n == 1 && Orderly(s) && InLine(s, jobs) && Enabled(s, step)
    ensures InLine(Next(s, step), jobs)
  {
    hide Line, InLine;
    match step
    case Generate => GeneratorKeepsLine(s, jobs);
    case Work(w) =>
      OnlyWorker(s, w, jobs);
      PresentWorker(s, w);
      WorkerKeepsLine(s, jobs);
    case Close => CloserKeepsLine(s, jobs);
    case Consume(event) => ConsumerKeepsLine(s, event, jobs);
  }

  lemma {:induction false} OnlyWorker(s: State, w: nat, jobs: seq<Job>)
    requires InLine(s, jobs) && WorkerReady(s, w)
    ensures w == 0
  {
  }

  lemma {:induction false} CloserKeepsLine(s: State, jobs: seq<Job>)
    requires s.n == 1 && InLine(s, jobs) && CloserReady(s)
    ensures InLine(Closed(s), jobs)
  {
    hide Line;
  }

  lemma {:induction false} GeneratorKeepsLine(s: State, jobs: seq<Job>)
    requires Orderly(s) && InLine(s, jobs) && GeneratorReady(s)
    ensures InLine(Generated(s), jobs)
  {
    if s.pending != [] {
      var x, rest := s.pending[0], s.pending[1..];
      assert s.pending == ([x] + rest) + [];
      HandOn(s.jobs.buf, x, rest, []);
      assert rest + [] == rest;
      assert s.jobs.buf + s.pending == (s.jobs.buf + [x]) + rest;
    }
  }

  lemma {:induction false} WorkerKeepsLine(s: State, jobs: seq<Job>)
    requires InLine(s, jobs) && WorkerReady(s, 0) && !s.results.closed
    ensures InLine(Worked(s, 0), jobs)
  {
    match s.workers[0]
    case Idle =>
      if s.jobs.buf != [] {
        var x, rest := s.jobs.buf[0], s.jobs.buf[1..];
        assert s.jobs.buf == [x] + rest;
        HandOn([], x, rest, s.pending);
        assert [] + [x] == [x];
      }
    case Running(job) =>
    case Holding(job) =>
      var behind := s.jobs.buf + s.pending;
      assert [job] + [] == [job];
      HandOn(s.results.buf, job, [], behind);
  }

  lemma {:induction false} ConsumerKeepsLine(s: State, event: Event, jobs: seq<Job>)
    requires InLine(s, jobs) && ConsumerReady(s, event)
    ensures InLine(Consumed(s, event), jobs)
  {
    if s.results.buf != [] {
      var x, rest := s.results.buf[0], s.results.buf[1..];
      assert s.results.buf == [x] + rest;
      HandOn(s.consumed, x, rest, Hand(s) + (s.jobs.buf + s.pending));
    }
  }

  lemma {:induction false} RunKeepsLine(jobs: seq<Job>, steps: seq<Step>)
    requires CanRun(Init(1, jobs), steps)
    ensures InLine(Final(Init(1, jobs), steps), jobs)
  {
    hide InLine, Inv;
    RunKeepsInv(1, jobs, steps);
    if steps == [] {
      InitInLine(jobs);
    } else {
      var front := steps[..|steps| - 1];
      RunKeepsLine(jobs, front);
      RunKeepsInv(1, jobs, front);
      InvIsOrderly(Final(Init(1, jobs), front), jobs);
      StepKeepsLine(Final(Init(1, jobs), front), steps[|steps| - 1], jobs);
    }
  }

  lemma {:induction false} InitInLine(jobs: seq<Job>)
    ensures InLine(Init(1, jobs), jobs)
  {
  }

  /** Channels are queues: a single worker's results arrive in the order of the jobs. */
  lemma {:induction false} OneWorkerKeepsOrder(jobs: seq<Job>, s: State)
    requires Reachable(1, jobs, s)
    ensures s.consumed + s.results.buf <= jobs
  {
    hide InHand;
    var steps :| CanRun(Init(1, jobs), steps) && Final(Init(1, jobs), steps) == s;
    RunKeepsLine(jobs, steps);
    assert s.consumed + s.results.buf == jobs[..|s.consumed| + |s.results.buf|];
  }

  // ----- Progress -------------------------------------------------------------------------------

  const Load: Worker -> nat := (worker: Worker) =>
    match worker
    case Idle => 1
    case Running(_) => 4
    case Holding(_) => 3
    case Exited => 0

  function Stage(closer: Closer): nat {
    match closer
    case Spawning => 4
    case Waiting => 3
    case ClosingDone => 2
    case ClosingResults => 1
    case Finished => 0
  }

  /** An upper bound on the steps left, not counting the consumer's spinning. */
  function Rank(s: State): int {
    5 * |s.pending| + (if s.generatorDone then 0 else 1) + 4 * |s.jobs.buf|
    + Count(s.workers, Load) + 2 * (s.n - |s.workers|) + Stage(s.closer)
    + |s.results.buf| + if s.consumer == Looping then 1 else 0
  }

  lemma {:induction false} WorkLowersRank(s: State, w: nat)
    requires Orderly(s) && WorkerReady(s, w)
    ensures Rank(Worked(s, w)) < Rank(s)
  {
    PresentWorker(s, w);
    hide Orderly;
    var t := Worked(s, w);
    UpdateCount(s.workers, w, t.workers[w], Load);
  }

  lemma {:induction false} CloseLowersRank(s: State)
    requires CloserReady(s)
    ensures Rank(Closed(s)) < Rank(s)
  {
    hide Count;
    AddWorker(s.workers, Idle, Load);
    assert Load(Idle) == 1;
  }

  lemma {:induction false} GenerateLowersRank(s: State)
    requires Orderly(s) && GeneratorReady(s)
    ensures Rank(Generated(s)) < Rank(s)
  {
  }

  lemma {:induction false} ConsumeLowersRank(s: State, event: Event)
    requires ConsumerReady(s, event) && event != Spin
    ensures Rank(Consumed(s, event)) < Rank(s)
  {
  }

  /** Each step that is not the consumer's spin uses up some rank. */
  lemma {:induction false} StepLowersRank(s: State, step: Step)
    requires Orderly(s) && Enabled(s, step) && step != Consume(Spin)
    ensures Rank(Next(s, step)) < Rank(s)
  {
    hide Orderly, Rank;
    match step
    case Generate => GenerateLowersRank(s);
    case Work(w) => WorkLowersRank(s, w);
    case Close => CloseLowersRank(s);
    case Consume(event) => ConsumeLowersRank(s, event);
  }

  function Busy(steps: seq<Step>): nat {
    if steps == [] then 0
    else Busy(steps[..|steps| - 1]) + if steps[|steps| - 1] == Consume(Spin) then 0 else 1
  }

  /** No run takes more than a fixed number of steps that do anything. */
  lemma {:induction false} RunsAreBounded(n: nat, jobs: seq<Job>, steps: seq<Step>)
    requires CanRun(Init(n, jobs), steps)
    ensures Busy(steps) + Rank(Final(Init(n, jobs), steps)) <= 5 * |jobs| + 2 * n + 6
    ensures Rank(Final(Init(n, jobs), steps)) >= 0
  {
    hide Inv, Rank, Orderly;
    RunKeepsInv(n, jobs, steps);
    RankIsNatural(Final(Init(n, jobs), steps), jobs);
    if steps == [] {
      InitRank(n, jobs);
    } else {
      var front, last := steps[..|steps| - 1], steps[|steps| - 1];
      RunsAreBounded(n, jobs, front);
      RunKeepsInv(n, jobs, front);
      var s := Final(Init(n, jobs), front);
      InvIsOrderly(s, jobs);
      if last != Consume(Spin) {
        StepLowersRank(s, last);
      }
    }
  }

  lemma {:induction false} InvIsOrderly(s: State, jobs: seq<Job>)
    requires Inv(s, jobs)
    ensures Orderly(s)
  {
  }

  lemma {:induction false} RankIsNatural(s: State, jobs: seq<Job>)
    requires Inv(s, jobs)
    ensures Rank(s) >= 0
  {
  }

  lemma {:induction false} InitRank(n: nat, jobs: seq<Job>)
    ensures Rank(Init(n, jobs)) == 5 * |jobs| + 2 * n + 6
  {
  }

  /** Until the consumer returns, some goroutine can do something other than spin. */
  lemma {:induction false} NeverStuck(n: nat, jobs: seq<Job>, s: State) returns (step: Step)
    requires Reachable(n, jobs, s) && s.consumer == Looping
    ensures Enabled(s, step) && step != Consume(Spin)
  {
    ReachableInv(n, jobs, s);
    if s.doneClosed {
      step := Consume(SeeDone);
    } else if s.closer != Waiting || s.wg == 0 {
      step := Close;
    } else if s.results.buf != [] {
      step := Consume(Receive);
    } else {
      var w := SomebodyPresent(s.workers);
      if s.workers[w] == Idle && s.jobs.buf == [] && !s.jobs.closed {
        step := Generate;
      } else {
        step := Work(w);
      }
    }
  }

  /** A run that cannot be extended except by spinning has ended with the consumer's return. */
  lemma {:induction false} QuietMeansReturned(n: nat, jobs: seq<Job>, s: State)
    requires Reachable(n, jobs, s)
    requires forall step :: Enabled(s, step) ==> step == Consume(Spin)
    ensures s.consumer.Returned?
  {
    if s.consumer == Looping {
      var step := NeverStuck(n, jobs, s);
    }
  }

  // ----- The bound is met -----------------------------------------------------------------------

  lemma {:induction false} Extend(n: nat, jobs: seq<Job>, s: State, step: Step)
    requires Reachable(n, jobs, s) && Enabled(s, step)
    ensures Reachable(n, jobs, Next(s, step))
  {
    var steps :| CanRun(Init(n, jobs), steps) && Final(Init(n, jobs), steps) == s;
    assert (steps + [step])[..|steps|] == steps;
    assert CanRun(Init(n, jobs), steps + [step]);
  }

  /** `i` workers spawned and nothing else done. */
  function Spawned(n: nat, jobs: seq<Job>, i: nat): State {
    Init(n, jobs).(workers := seq(i, _ => Idle), wg := i)
  }

  /** All workers waiting, `c` results consumed and the next `k` lying in the channel. */
  function Fed(n: nat, jobs: seq<Job>, c: nat, k: nat): State
    requires c + k <= |jobs|
  {
    Spawned(n, jobs, n).(
      pending := jobs[c + k..], results := Channel(jobs[c..c + k], false),
      consumed := jobs[..c], users := Collect(jobs[..c]))
  }

  /** All jobs run, `c` results consumed and the rest in the channel, and `i` workers gone. */
  function Leaving(n: nat, jobs: seq<Job>, c: nat, i: nat): State
    requires c <= |jobs| && i <= n
  {
    Spawned(n, jobs, n).(
      pending := [], generatorDone := true, jobs := Channel([], true), results := Channel(jobs[c..], false),
      workers := seq(n, w => if w < i then Exited else Idle), wg := n - i,
      consumed := jobs[..c], users := Collect(jobs[..c]))
  }

  lemma {:induction false} ReachSpawned(n: nat, jobs: seq<Job>, i: nat)
    requires i <= n
    ensures Reachable(n, jobs, Spawned(n, jobs, i))
  {
    if i == 0 {
      assert CanRun(Init(n, jobs), []) && Final(Init(n, jobs), []) == Spawned(n, jobs, 0);
    } else {
      ReachSpawned(n, jobs, i - 1);
      Extend(n, jobs, Spawned(n, jobs, i - 1), Close);
      assert Next(Spawned(n, jobs, i - 1), Close) == Spawned(n, jobs, i);
    }
  }

  ghost predicate Readable(jobs: seq<Job>) {
    forall job :: job in jobs ==> !BadId(job)
  }

  lemma {:induction false} ReachFed(n: nat, jobs: seq<Job>, c: nat, k: nat)
    requires n > 0 && k <= n && c + k <= |jobs| && Readable(jobs)
    ensures Reachable(n, jobs, Fed(n, jobs, c, k))
    decreases c, k
  {
    hide Reachable, Readable;
    if k > 0 {
      ReachFed(n, jobs, c, k - 1);
      ReachOneMore(n, jobs, Fed(n, jobs, c, k - 1));
      assert jobs[c..c + k] == jobs[c..c + k - 1] + [jobs[c + k - 1]] && jobs[c + k - 1..][1..] == jobs[c + k..];
    } else if c > 0 {
      ReachFed(n, jobs, c - 1, 1);
      OneConsumed(n, jobs, c);
      Extend(n, jobs, Fed(n, jobs, c - 1, 1), Consume(Receive));
    } else {
      ReachSpawned(n, jobs, n);
      assert Fed(n, jobs, 0, 0) == Spawned(n, jobs, n);
    }
  }

  lemma {:induction false} OneConsumed(n: nat, jobs: seq<Job>, c: nat)
    requires 0 < c <= |jobs| && Readable(jobs)
    ensures Enabled(Fed(n, jobs, c - 1, 1), Consume(Receive))
    ensures Next(Fed(n, jobs, c - 1, 1), Consume(Receive)) == Fed(n, jobs, c, 0)
  {
    var job := jobs[c - 1];
    assert jobs[c - 1..c] == [job] && !BadId(job);
    assert jobs[..c] == jobs[..c - 1] + [job] && jobs[..c][..c - 1] == jobs[..c - 1];
    assert Fed(n, jobs, c - 1, 1).results.buf[1..] == jobs[c..c];
  }

  /** One job goes through an idle pool. */
  lemma {:induction false} ReachOneMore(n: nat, jobs: seq<Job>, s: State)
    requires Reachable(n, jobs, s) && !s.panicked && s.pending != [] && s.jobs == Channel([], false)
    requires s.workers != [] && s.workers[0] == Idle && !s.results.closed && |s.results.buf| < s.n
    ensures var done := s.(pending := s.pending[1..], results := Channel(s.results.buf + [s.pending[0]], false));
            Reachable(n, jobs, done)
  {
    hide Reachable;
    var job := s.pending[0];
    var queued := s.(pending := s.pending[1..], jobs := Channel([job], false));
    assert Next(s, Generate) == queued;
    Extend(n, jobs, s, Generate);
    var running := queued.(jobs := Channel([], false), workers := s.workers[0 := Running(job)]);
    assert Next(queued, Work(0)) == running;
    Extend(n, jobs, queued, Work(0));
    var holding := running.(workers := s.workers[0 := Holding(job)]);
    assert Next(running, Work(0)) == holding;
    Extend(n, jobs, running, Work(0));
    var done := s.(pending := s.pending[1..], results := Channel(s.results.buf + [job], false));
    assert s.workers[0 := Holding(job)][0 := Idle] == s.workers;
    assert Next(holding, Work(0)) == done;
    Extend(n, jobs, holding, Work(0));
  }

  lemma {:induction false} ReachLeaving(n: nat, jobs: seq<Job>, c: nat, i: nat)
    requires n > 0 && c <= |jobs| <= c + n && i <= n && Readable(jobs)
    ensures Reachable(n, jobs, Leaving(n, jobs, c, i))
  {
    hide Reachable, Readable;
    if i == 0 {
      var s := Fed(n, jobs, c, |jobs| - c);
      ReachFed(n, jobs, c, |jobs| - c);
      assert jobs[c..|jobs|] == jobs[c..];
      assert Next(s, Generate).workers == Leaving(n, jobs, c, 0).workers;
      assert Next(s, Generate) == Leaving(n, jobs, c, 0);
      Extend(n, jobs, s, Generate);
    } else {
      var s := Leaving(n, jobs, c, i - 1);
      ReachLeaving(n, jobs, c, i - 1);
      assert Next(s, Work(i - 1)).workers == Leaving(n, jobs, c, i).workers;
      assert Next(s, Work(i - 1)) == Leaving(n, jobs, c, i);
      Extend(n, jobs, s, Work(i - 1));
    }
  }

  /** With the workers gone, the closer closes Done and the consumer may see that before anything else. */
  lemma {:induction false} DoneWins(n: nat, jobs: seq<Job>, s: State)
    requires Reachable(n, jobs, s) && !s.panicked && s.closer == Spawning && |s.workers| == n == s.n && s.wg == 0
    requires !s.doneClosed && s.consumer == Looping
    ensures Reachable(n, jobs, s.(closer := ClosingResults, doneClosed := true, consumer := Returned(true)))
  {
    hide Reachable;
    Extend(n, jobs, s, Close);
    var waiting := s.(closer := Waiting);
    Extend(n, jobs, waiting, Close);
    var closing := s.(closer := ClosingDone);
    Extend(n, jobs, closing, Close);
    Extend(n, jobs, s.(closer := ClosingResults, doneClosed := true), Consume(SeeDone));
  }

  /** However many results, up to one for each worker, some run returns successfully without just so many. */
  lemma {:induction false} AnyLossHappens(n: nat, jobs: seq<Job>, k: nat) returns (s: State)
    requires n > 0 && k <= n && k <= |jobs| && Readable(jobs)
    ensures Reachable(n, jobs, s) && s.consumer == Returned(true)
    ensures s.consumed == jobs[..|jobs| - k] && s.results.buf == jobs[|jobs| - k..] && s.users == Collect(s.consumed)
  {
    hide Reachable, Readable;
    var c := |jobs| - k;
    ReachLeaving(n, jobs, c, n);
    DoneWins(n, jobs, Leaving(n, jobs, c, n));
    s := Leaving(n, jobs, c, n).(closer := ClosingResults, doneClosed := true, consumer := Returned(true));
  }

  /** Without workers the consumer returns successfully with nothing. */
  lemma {:induction false} NoWorkersReturnNothing(jobs: seq<Job>) returns (s: State)
    ensures Reachable(0, jobs, s) && s.consumer == Returned(true) && s.consumed == []
  {
    hide Reachable;
    ReachSpawned(0, jobs, 0);
    DoneWins(0, jobs, Spawned(0, jobs, 0));
    s := Spawned(0, jobs, 0).(closer := ClosingResults, doneClosed := true, consumer := Returned(true));
  }

  /**
   * The numbers of results a successful return can lack are exactly those up to the worker count, and
   * without workers all of them.
   */
  lemma {:induction false} LossIff(n: nat, jobs: seq<Job>, k: nat)
    requires Readable(jobs)
    ensures (exists s :: Reachable(n, jobs, s) && s.consumer == Returned(true) && |jobs| - |s.consumed| == k)
            <==> if n == 0 then k == |jobs| else k <= n && k <= |jobs|
  {
    hide Reachable, Readable;
    forall s | Reachable(n, jobs, s) && s.consumer == Returned(true)
      ensures n > 0 ==> |jobs| - |s.consumed| <= n
      ensures n == 0 ==> s.consumed == []
    {
      if n > 0 {
        SuccessLosesAtMostTheBuffer(n, jobs, s);
      } else {
        NobodyConsumes(jobs, s);
      }
    }
    if n == 0 {
      var s := NoWorkersReturnNothing(jobs);
      assert s.consumed == [];
    } else if k <= n && k <= |jobs| {
      var s := AnyLossHappens(n, jobs, k);
      assert |jobs| - |s.consumed| == k;
    }
  }

  lemma {:induction false} NobodyConsumes(jobs: seq<Job>, s: State)
    requires Reachable(0, jobs, s)
    ensures s.consumed == []
  {
    ReachableInv(0, jobs, s);
  }

  /** Every successful return holds all results exactly when there was nothing to do. */
  lemma {:induction false} AllReturnedIff(n: nat, jobs: seq<Job>)
    requires Readable(jobs)
    ensures (forall s :: Reachable(n, jobs, s) && s.consumer == Returned(true)
                         ==> multiset(s.consumed) == multiset(jobs))
            <==> jobs == []
  {
    hide Reachable, Readable;
    forall s | Reachable(n, jobs, s) && jobs == []
      ensures multiset(s.consumed) == multiset(jobs)
    {
      NothingFromNothing(n, s);
    }
    if jobs != [] {
      var s: State;
      if n == 0 {
        s := NoWorkersReturnNothing(jobs);
      } else {
        s := AnyLossHappens(n, jobs, 1);
      }
      assert |multiset(s.consumed)| < |multiset(jobs)|;
    }
  }

  lemma {:induction false} NothingFromNothing(n: nat, s: State)
    requires Reachable(n, [], s)
    ensures s.consumed == []
  {
    ReachableInv(n, [], s);
    ConsumedAreJobs(s, []);
  }
}
