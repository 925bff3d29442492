/**
 * The health checker's worker pool (pool.go) and the loop that drains it (RunWorkerPool), as the
 * interleaved steps of four kinds of goroutine: the generator, the workers, the closer that runs
 * `Run`, and the consumer. A send on a closed channel, a second close and a negative WaitGroup
 * counter are panics.
 */
module WorkerPool {
  import opened Decimals

  datatype User = User(address: string, healthFactor: string)

  datatype Outcome = Value(users: seq<User>) | Failed

  /** A job, the addresses it is to check, and the outcome its execution will have. */
  datatype Job = Job(id: string, args: seq<string>, outcome: Outcome)

  datatype Worker = Idle | Running(job: Job) | Holding(job: Job) | Exited

  datatype Closer = Spawning | Waiting | ClosingDone | ClosingResults | Finished

  datatype Consumer = Looping | Returned(success: bool)

  /** A buffered channel. A result is identified with the job it came from, so both channels carry jobs. */
  datatype Channel = Channel(buf: seq<Job>, closed: bool)

  datatype State = State(
    n: nat,
    pending: seq<Job>, generatorDone: bool,
    jobs: Channel,
    workers: seq<Worker>, wg: int, closer: Closer,
    results: Channel, doneClosed: bool,
    consumer: Consumer, consumed: seq<Job>, users: seq<User>,
    panicked: bool)

  datatype Event = Receive | SeeDone | Spin

  /** Which goroutine moves; only the consumer's select leaves a choice. */
  datatype Step = Generate | Work(w: nat) | Close | Consume(event: Event)

  function Init(n: nat, jobs: seq<Job>): State {
    State(n, jobs, false, Channel([], false), [], 0, Spawning, Channel([], false), false, Looping, [], [], false)
  }

  /** A send proceeds when there is room; on a closed channel it panics. */
  predicate CanSend(s: State, ch: Channel) {
    ch.closed || |ch.buf| < s.n
  }

  function Send(ch: Channel, job: Job): Channel {
    if ch.closed then ch else Channel(ch.buf + [job], false)
  }

  // GenerateFrom

  predicate GeneratorReady(s: State) {
    if s.pending != [] then CanSend(s, s.jobs) else !s.generatorDone
  }

  function Generated(s: State): State
    requires GeneratorReady(s)
  {
    if s.pending != [] then
      s.(pending := s.pending[1..], jobs := Send(s.jobs, s.pending[0]), panicked := s.panicked || s.jobs.closed)
    else
      s.(generatorDone := true, jobs := s.jobs.(closed := true), panicked := s.panicked || s.jobs.closed)
  }

  // worker

  predicate WorkerReady(s: State, w: nat) {
    w < |s.workers| &&
    match s.workers[w]
    case Idle => s.jobs.buf != [] || s.jobs.closed
    case Running(_) => true
    case Holding(_) => CanSend(s, s.results)
    case Exited => false
  }

  function Worked(s: State, w: nat): State
    requires WorkerReady(s, w)
  {
    match s.workers[w]
    case Idle =>
      if s.jobs.buf != [] then
        s.(workers := s.workers[w := Running(s.jobs.buf[0])], jobs := s.jobs.(buf := s.jobs.buf[1..]))
      else
        s.(workers := s.workers[w := Exited], wg := s.wg - 1, panicked := s.panicked || s.wg - 1 < 0)
    case Running(job) => s.(workers := s.workers[w := Holding(job)])
    case Holding(job) =>
      s.(workers := s.workers[w := Idle], results := Send(s.results, job), panicked := s.panicked || s.results.closed)
    case Exited => s
  }

  // WorkerPool.Run

  predicate CloserReady(s: State) {
    s.closer != Finished && (s.closer == Waiting ==> s.wg == 0)
  }

  function Closed(s: State): State
    requires CloserReady(s)
  {
    match s.closer
    case Spawning =>
      if |s.workers| < s.n then s.(workers := s.workers + [Idle], wg := s.wg + 1) else s.(closer := Waiting)
    case Waiting => s.(closer := ClosingDone)
    case ClosingDone => s.(closer := ClosingResults, doneClosed := true, panicked := s.panicked || s.doneClosed)
    case ClosingResults =>
      s.(closer := Finished, results := s.results.(closed := true), panicked := s.panicked || s.results.closed)
    case Finished => s
  }

  // RunWorkerPool

  predicate ConsumerReady(s: State, event: Event) {
    s.consumer == Looping &&
    match event
    case Receive => s.results.buf != []
    case SeeDone => s.doneClosed
    case Spin => s.results.buf == []
  }

  function Consumed(s: State, event: Event): State
    requires ConsumerReady(s, event)
  {
    match event
    case Receive =>
      var job := s.results.buf[0];
      var t := s.(results := s.results.(buf := s.results.buf[1..]), consumed := s.consumed + [job]);
      if job.outcome == Failed then t
      else if ParseInt64(job.id).None? then t.(consumer := Returned(false))
      else t.(users := s.users + job.outcome.users)
    case SeeDone => s.(consumer := Returned(true))
    case Spin => s
  }

  predicate Enabled(s: State, step: Step) {
    !s.panicked &&
    match step
    case Generate => GeneratorReady(s)
    case Work(w) => WorkerReady(s, w)
    case Close => CloserReady(s)
    case Consume(event) => ConsumerReady(s, event)
  }

  function Next(s: State, step: Step): State
    requires Enabled(s, step)
  {
    match step
    case Generate => Generated(s)
    case Work(w) => Worked(s, w)
    case Close => Closed(s)
    case Consume(event) => Consumed(s, event)
  }

  // ----- Counting over the workers --------------------------------------------------------------

  /** How often `job` occurs in `a`. */
  function Copies(a: seq<Job>, job: Job): nat {
    multiset(a)[job]
  }

  lemma {:induction false} CopiesHead(a: seq<Job>, job: Job)
    requires a != []
    ensures Copies(a, job) == Copies(a[1..], job) + if a[0] == job then 1 else 0
  {
    assert a == [a[0]] + a[1..];
  }

  lemma {:induction false} CopiesSnoc(a: seq<Job>, last: Job, job: Job)
    ensures Copies(a + [last], job) == Copies(a, job) + if last == job then 1 else 0
  {
  }

  /** 1 for a worker that has taken `job` and not sent its result yet. */
  function Holds(job: Job): Worker -> nat {
    (worker: Worker) => if worker == Running(job) || worker == Holding(job) then 1 else 0
  }

  function Count(workers: seq<Worker>, weight: Worker -> nat): nat {
    if workers == [] then 0
    else Count(workers[..|workers| - 1], weight) + weight(workers[|workers| - 1])
  }

  const Present: Worker -> nat := (worker: Worker) => if worker == Exited then 0 else 1

  lemma {:induction false} UpdateCount(workers: seq<Worker>, w: nat, x: Worker, weight: Worker -> nat)
    requires w < |workers|
    ensures Count(workers[w := x], weight) + weight(workers[w]) == Count(workers, weight) + weight(x)
  {
    var k := |workers| - 1;
    if w == k {
      assert workers[w := x][..k] == workers[..k];
    } else {
      UpdateCount(workers[..k], w, x, weight);
      assert workers[w := x][..k] == workers[..k][w := x];
    }
  }

  lemma {:induction false} AddWorker(workers: seq<Worker>, x: Worker, weight: Worker -> nat)
    ensures Count(workers + [x], weight) == Count(workers, weight) + weight(x)
  {
    assert (workers + [x])[..|workers|] == workers;
  }

  lemma {:induction false} NobodyPresent(workers: seq<Worker>)
    requires Count(workers, Present) == 0
    ensures forall w :: 0 <= w < |workers| ==> workers[w] == Exited
    ensures forall job :: Count(workers, Holds(job)) == 0
  {
    if workers != [] {
      NobodyPresent(workers[..|workers| - 1]);
    }
  }

  lemma {:induction false} SomebodyPresent(workers: seq<Worker>) returns (w: nat)
    requires Count(workers, Present) > 0
    ensures w < |workers| && workers[w] != Exited
  {
    if workers[|workers| - 1] != Exited {
      w := |workers| - 1;
    } else {
      w := SomebodyPresent(workers[..|workers| - 1]);
    }
  }

  // ----- The invariant --------------------------------------------------------------------------

  /** How many copies of `job` there are, wherever they are. */
  function Everywhere(s: State, job: Job): nat {
    Copies(s.pending, job) + Copies(s.jobs.buf, job) + Count(s.workers, Holds(job))
    + Copies(s.results.buf, job) + Copies(s.consumed, job)
  }

  /** What the consumer has appended to its result slice. */
  function Collect(consumed: seq<Job>): seq<User> {
    if consumed == [] then []
    else
      var last := consumed[|consumed| - 1];
      Collect(consumed[..|consumed| - 1]) + if last.outcome.Value? then last.outcome.users else []
  }

  predicate BadId(job: Job) {
    job.outcome.Value? && ParseInt64(job.id).None?
  }

  /** Channels, counter and closer agree, so no goroutine can hit a closed channel. */
  ghost predicate Orderly(s: State) {
    && !s.panicked
    && |s.jobs.buf| <= s.n && |s.results.buf| <= s.n && |s.workers| <= s.n
    && (s.jobs.closed <==> s.generatorDone)
    && (s.jobs.closed ==> s.pending == [])
    && s.wg == Count(s.workers, Present)
    && (s.closer != Spawning ==> |s.workers| == s.n)
    && (s.closer != Spawning && s.closer != Waiting ==> s.wg == 0)
    && (s.doneClosed <==> s.closer == ClosingResults || s.closer == Finished)
    && (s.results.closed <==> s.closer == Finished)
    && (Exited in s.workers ==> s.jobs.closed && s.jobs.buf == [])
    && (s.n == 0 ==> s.consumed == [])
  }

  /** What the consumer returns is what it received. */
  ghost predicate Faithful(s: State) {
    match s.consumer
    case Looping => s.users == Collect(s.consumed)
    case Returned(success) =>
      if success then s.doneClosed && s.users == Collect(s.consumed)
      else
        var k := |s.consumed| - 1;
        k >= 0 && BadId(s.consumed[k]) && s.users == Collect(s.consumed[..k])
  }

  /** No job is lost and none is run twice. */
  ghost predicate Conserved(s: State, all: seq<Job>) {
    forall job :: Everywhere(s, job) == Copies(all, job)
  }

  ghost predicate Inv(s: State, all: seq<Job>) {
    Orderly(s) && Faithful(s) && Conserved(s, all)
  }

  lemma {:induction false} InitInv(n: nat, jobs: seq<Job>)
    ensures Inv(Init(n, jobs), jobs)
  {
  }

  lemma {:induction false} GeneratorKeeps(s: State)
    requires Orderly(s) && Faithful(s) && GeneratorReady(s)
    ensures Orderly(Generated(s)) && Faithful(Generated(s))
  {
  }

  lemma {:induction false} CloserKeeps(s: State)
    requires Orderly(s) && CloserReady(s)
    ensures Orderly(Closed(s))
  {
    if s.closer == Spawning {
      AddWorker(s.workers, Idle, Present);
    }
  }

  lemma {:induction false} CloserKeepsFaith(s: State)
    requires Faithful(s) && CloserReady(s)
    ensures Faithful(Closed(s))
  {
    hide Collect;
  }

  lemma {:induction false} ConsumerKeeps(s: State, event: Event)
    requires Orderly(s) && Faithful(s) && ConsumerReady(s, event)
    ensures Orderly(Consumed(s, event)) && Faithful(Consumed(s, event))
  {
    if event == Receive {
      var job := s.results.buf[0];
      assert (s.consumed + [job])[..|s.consumed|] == s.consumed;
    }
  }

  /** A worker that has not exited keeps the counter positive and the results channel open. */
  lemma {:induction false} PresentWorker(s: State, w: nat)
    requires Orderly(s) && w < |s.workers| && s.workers[w] != Exited
    ensures s.wg > 0 && !s.results.closed
  {
    if s.wg == 0 {
      NobodyPresent(s.workers);
    }
  }

  lemma {:induction false} WorkerKeeps(s: State, w: nat)
    requires Orderly(s) && Faithful(s) && WorkerReady(s, w)
    ensures Orderly(Worked(s, w)) && Faithful(Worked(s, w))
  {
    var t := Worked(s, w);
    PresentWorker(s, w);
    UpdateCount(s.workers, w, t.workers[w], Present);
  }

  lemma {:induction false} StepKeepsCopies(s: State, step: Step, job: Job)
    requires Orderly(s) && Enabled(s, step)
    ensures Everywhere(Next(s, step), job) == Everywhere(s, job)
  {
    hide Copies, Faithful;
    match step
    case Generate => GeneratorKeepsCopies(s, job);
    case Work(w) => WorkerKeepsCopies(s, w, job);
    case Close => AddWorker(s.workers, Idle, Holds(job));
    case Consume(event) => ConsumerKeepsCopies(s, event, job);
  }

  lemma {:induction false} GeneratorKeepsCopies(s: State, job: Job)
    requires Orderly(s) && GeneratorReady(s)
    ensures Everywhere(Generated(s), job) == Everywhere(s, job)
  {
    hide Copies;
    if s.pending != [] {
      CopiesHead(s.pending, job);
      CopiesSnoc(s.jobs.buf, s.pending[0], job);
    }
  }

  lemma {:induction false} ConsumerKeepsCopies(s: State, event: Event, job: Job)
    requires ConsumerReady(s, event)
    ensures Everywhere(Consumed(s, event), job) == Everywhere(s, job)
  {
    hide Copies;
    if event == Receive {
      CopiesHead(s.results.buf, job);
      CopiesSnoc(s.consumed, s.results.buf[0], job);
    }
  }

  lemma {:induction false} WorkerKeepsCopies(s: State, w: nat, job: Job)
    requires Orderly(s) && WorkerReady(s, w)
    ensures Everywhere(Worked(s, w), job) == Everywhere(s, job)
  {
    hide Copies;
    var t := Worked(s, w);
    PresentWorker(s, w);
    UpdateCount(s.workers, w, t.workers[w], Holds(job));
    match s.workers[w]
    case Idle =>
      if s.jobs.buf != [] {
        CopiesHead(s.jobs.buf, job);
      }
    case Holding(mine) => CopiesSnoc(s.results.buf, mine, job);
    case _ =>
  }

  /** Every step of every goroutine keeps the invariant. */
  lemma {:induction false} StepKeepsInv(s: State, step: Step, all: seq<Job>)
    requires Inv(s, all) && Enabled(s, step)
    ensures Inv(Next(s, step), all)
  {
    forall job
      ensures Everywhere(Next(s, step), job) == Copies(all, job)
    {
      StepKeepsCopies(s, step, job);
    }
    hide Orderly, Faithful, Everywhere, Copies;
    match step
    case Generate => GeneratorKeeps(s);
    case Work(w) => WorkerKeeps(s, w);
    case Close =>
      CloserKeeps(s);
      CloserKeepsFaith(s);
    case Consume(event) => ConsumerKeeps(s, event);
  }
}
