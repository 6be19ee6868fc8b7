/** The Kafka load test: one sender, a bounded job channel, a pool of workers
    (internal/infrastructure/web/test_kafka.go:159-298, 336-359). */
module KafkaLoadTest {
  import opened Sequences
  import opened Wrappers

  /** The shared counters.  `counted` lists the jobs they stand for. */
  datatype Metrics = Metrics(published: int, errors: int, latencies: seq<int>, counted: set<nat>)

  datatype Sender =
    | AtLoop                     // about to test messagesSent < numMessages
    | InBatch(batchEnd: int)     // inside the batch loop
    | Signalling                 // at done <- true
    | Returned

  datatype Worker =
    | Receiving
    | Publishing(job: nat)
    | Locking(job: nat, ok: bool, latency: int)
    | Holding(job: nat, ok: bool, latency: int, seen: Metrics)
    | Exited
  {
    /** A job is in this worker's hands. */
    predicate Busy() {
      !Receiving? && !Exited?
    }
  }

  datatype Handler = AwaitingDone | Closing | AwaitingWorkers | Finished

  datatype Config = Config(numMessages: int, batchSize: int)

  /** `emitted` lists the jobs put into the channel so far; `taken` is how many came out. */
  datatype Pool = Pool(
    sender: Sender,
    messagesSent: nat,
    timedOut: bool,
    jobs: seq<nat>,
    closed: bool,
    emitted: seq<nat>,
    taken: nat,
    workers: seq<Worker>,
    locked: bool,
    metrics: Metrics,
    handler: Handler)

  datatype Step =
    | SenderStep(timeout: bool)
    | WorkerStep(w: nat, ok: bool, latency: int)
    | HandlerStep

  function Start(workers: nat): Pool {
    Pool(AtLoop, 0, false, [], false, [], 0, seq(workers, _ => Receiving), false,
         Metrics(0, 0, [], {}), AwaitingDone)
  }

  // ----- the sender -----

  /** `None`: blocked, as on a full channel with the time not yet up. */
  function StepSender(c: Config, p: Pool, timeout: bool): Option<Pool> {
    match p.sender
    case AtLoop =>
      if p.messagesSent >= c.numMessages then Some(p.(sender := Signalling))
      else if timeout then Some(p.(sender := Signalling, timedOut := true))
      else
        var end := p.messagesSent + c.batchSize;
        Some(p.(sender := InBatch(if end > c.numMessages then c.numMessages else end)))
    case InBatch(batchEnd) =>
      if p.messagesSent >= batchEnd then Some(p.(sender := AtLoop))
      else if timeout then Some(p.(sender := Signalling, timedOut := true))
      else if |p.jobs| >= 2 * c.batchSize then None
      else Some(p.(jobs := p.jobs + [p.messagesSent], emitted := p.emitted + [p.messagesSent],
                   messagesSent := p.messagesSent + 1))
    case Signalling =>
      // the unbuffered channel: sender and handler meet
      if p.handler == AwaitingDone then Some(p.(sender := Returned, handler := Closing)) else None
    case Returned => None
  }

  // ----- the workers -----

  function Count(m: Metrics, job: nat, ok: bool, latency: int): Metrics {
    if ok then Metrics(m.published + 1, m.errors, m.latencies + [latency], m.counted + {job})
    else Metrics(m.published, m.errors + 1, m.latencies, m.counted + {job})
  }

  function SetWorker(p: Pool, w: nat, phase: Worker): Pool
    requires w < |p.workers|
  {
    p.(workers := p.workers[w := phase])
  }

  function StepWorker(p: Pool, w: nat, ok: bool, latency: int): Option<Pool> {
    if w >= |p.workers| then None
    else
      match p.workers[w]
      case Receiving =>
        if p.jobs != [] then
          Some(SetWorker(p, w, Publishing(p.jobs[0])).(jobs := p.jobs[1..], taken := p.taken + 1))
        else if p.closed then Some(SetWorker(p, w, Exited))
        else None
      case Publishing(job) => Some(SetWorker(p, w, Locking(job, ok, latency)))
      case Locking(job, ok, latency) =>
        if p.locked then None
        else Some(SetWorker(p, w, Holding(job, ok, latency, p.metrics)).(locked := true))
      case Holding(job, ok, latency, seen) =>
        Some(SetWorker(p, w, Receiving).(locked := false, metrics := Count(seen, job, ok, latency)))
      case Exited => None
  }

  // ----- the handler -----

  predicate AllExited(workers: seq<Worker>) {
    forall w | 0 <= w < |workers| :: workers[w].Exited?
  }

  function StepHandler(p: Pool): Option<Pool> {
    match p.handler
    case Closing => Some(p.(closed := true, handler := AwaitingWorkers))
    case AwaitingWorkers => if AllExited(p.workers) then Some(p.(handler := Finished)) else None
    case _ => None
  }

  function Apply(c: Config, p: Pool, step: Step): Option<Pool> {
    match step
    case SenderStep(timeout) => StepSender(c, p, timeout)
    case WorkerStep(w, ok, latency) => StepWorker(p, w, ok, latency)
    case HandlerStep => StepHandler(p)
  }

  function Run(c: Config, workers: nat, steps: seq<Step>): Option<Pool> {
    if steps == [] then Some(Start(workers))
    else
      match Run(c, workers, steps[..|steps| - 1])
      case None => None
      case Some(p) => Apply(c, p, steps[|steps| - 1])
  }

  // ----- invariant -----

  predicate MetricsAddUp(m: Metrics) {
    && m.published + m.errors == |m.counted|
    && |m.latencies| == m.published && m.errors >= 0
  }

  predicate SenderOk(c: Config, p: Pool) {
    && (p.sender.InBatch? ==> p.messagesSent <= p.sender.batchEnd <= c.numMessages)
    && (p.sender.Signalling? || p.sender.Returned? ==> p.timedOut || p.messagesSent >= c.numMessages)
    && (p.messagesSent > 0 ==> p.messagesSent <= c.numMessages)
    && (p.handler == AwaitingDone <==> !p.sender.Returned?)
    && (p.closed <==> p.handler.AwaitingWorkers? || p.handler.Finished?)
  }

  ghost predicate WorkersOk(p: Pool) {
    && (forall w | 0 <= w < |p.workers| && p.workers[w].Holding? :: p.locked && p.workers[w].seen == p.metrics)
    && (forall v, w | 0 <= v < w < |p.workers| && p.workers[v].Holding? :: !p.workers[w].Holding?)
    && (p.locked ==> exists w :: 0 <= w < |p.workers| && p.workers[w].Holding?)
    && (forall w | 0 <= w < |p.workers| && p.workers[w].Exited? :: p.closed && p.jobs == [])
    && (p.handler.Finished? ==> AllExited(p.workers))
  }

  /** Jobs leave the sender as 0, 1, 2, ..., and pass through the channel in that order. */
  predicate InOrder(messagesSent: nat, emitted: seq<nat>, taken: nat, jobs: seq<nat>) {
    && emitted == FirstNumbers(messagesSent)
    && taken + |jobs| == messagesSent
    && forall i | 0 <= i < |jobs| :: jobs[i] == taken + i
  }

  /** Each job taken from the channel is counted or in one worker's hands, and no job is in two
      places. */
  predicate Accounted(taken: nat, metrics: Metrics, workers: seq<Worker>) {
    && MetricsAddUp(metrics)
    && (forall job | job in metrics.counted :: job < taken)
    && (forall w | 0 <= w < |workers| && workers[w].Busy() ::
          workers[w].job < taken && workers[w].job !in metrics.counted)
    && (forall v, w | 0 <= v < w < |workers| && workers[v].Busy() && workers[w].Busy() ::
          workers[v].job != workers[w].job)
    && (forall job | 0 <= job < taken :: job in metrics.counted || SomeoneHas(workers, job))
  }

  predicate SomeoneHas(workers: seq<Worker>, job: nat) {
    exists w | 0 <= w < |workers| :: workers[w].Busy() && workers[w].job == job
  }

  predicate JobsOk(p: Pool) {
    InOrder(p.messagesSent, p.emitted, p.taken, p.jobs) && Accounted(p.taken, p.metrics, p.workers)
  }

  ghost predicate Inv(c: Config, workers: nat, p: Pool) {
    SenderOk(c, p) && WorkersOk(p) && |p.workers| == workers && JobsOk(p)
  }

  lemma SenderKeeps(c: Config, p: Pool, timeout: bool)
    requires c.batchSize > 0 && SenderOk(c, p) && StepSender(c, p, timeout).Some?
    ensures SenderOk(c, StepSender(c, p, timeout).value)
  {}

  lemma SenderKeepsWorkers(c: Config, p: Pool, timeout: bool)
    requires SenderOk(c, p) && WorkersOk(p) && StepSender(c, p, timeout).Some?
    ensures WorkersOk(StepSender(c, p, timeout).value)
    ensures StepSender(c, p, timeout).value.workers == p.workers
  {}

  lemma SenderKeepsJobs(c: Config, p: Pool, timeout: bool)
    requires JobsOk(p) && StepSender(c, p, timeout).Some?
    ensures JobsOk(StepSender(c, p, timeout).value)
  {
    hide Range, FirstNumbers, Accounted;
    var p' := StepSender(c, p, timeout).value;
    SendOne(p.messagesSent, p.emitted, p.taken, p.jobs);
    assert p'.taken == p.taken && p'.metrics == p.metrics && p'.workers == p.workers;
  }

  lemma SendOne(n: nat, emitted: seq<nat>, taken: nat, jobs: seq<nat>)
    requires InOrder(n, emitted, taken, jobs)
    ensures InOrder(n + 1, emitted + [n], taken, jobs + [n])
  {}

  lemma WorkerSparesSender(c: Config, p: Pool, w: nat, ok: bool, latency: int)
    requires SenderOk(c, p) && StepWorker(p, w, ok, latency).Some?
    ensures SenderOk(c, StepWorker(p, w, ok, latency).value)
  {}

  lemma HolderKeepsWorkers(p: Pool, w: nat, ok: bool, latency: int)
    requires WorkersOk(p) && StepWorker(p, w, ok, latency).Some? && p.workers[w].Holding?
    ensures WorkersOk(StepWorker(p, w, ok, latency).value)
  {
    hide Count;
  }

  lemma LockerKeepsWorkers(p: Pool, w: nat, ok: bool, latency: int)
    requires WorkersOk(p) && StepWorker(p, w, ok, latency).Some? && p.workers[w].Locking?
    ensures WorkersOk(StepWorker(p, w, ok, latency).value)
  {
    assert StepWorker(p, w, ok, latency).value.workers[w].Holding?;
  }

  lemma OtherKeepsWorkers(p: Pool, w: nat, ok: bool, latency: int)
    requires WorkersOk(p) && StepWorker(p, w, ok, latency).Some?
    requires !p.workers[w].Holding? && !p.workers[w].Locking?
    ensures WorkersOk(StepWorker(p, w, ok, latency).value)
  {
    if p.locked {
      var h :| 0 <= h < |p.workers| && p.workers[h].Holding?;
      assert StepWorker(p, w, ok, latency).value.workers[h].Holding?;
    }
  }

  lemma WorkerKeepsWorkers(c: Config, p: Pool, w: nat, ok: bool, latency: int)
    requires SenderOk(c, p) && WorkersOk(p) && StepWorker(p, w, ok, latency).Some?
    ensures SenderOk(c, StepWorker(p, w, ok, latency).value)
    ensures WorkersOk(StepWorker(p, w, ok, latency).value)
  {
    hide WorkersOk, SenderOk;
    WorkerSparesSender(c, p, w, ok, latency);
    if p.workers[w].Holding? {
      HolderKeepsWorkers(p, w, ok, latency);
    } else if p.workers[w].Locking? {
      LockerKeepsWorkers(p, w, ok, latency);
    } else {
      OtherKeepsWorkers(p, w, ok, latency);
    }
  }

  lemma ReceiverKeepsJobs(p: Pool, w: nat, ok: bool, latency: int)
    requires JobsOk(p) && StepWorker(p, w, ok, latency).Some? && p.workers[w].Receiving?
    ensures JobsOk(StepWorker(p, w, ok, latency).value)
  {
    if p.jobs != [] {
      TakenInHand(p.taken, p.metrics, p.workers, w);
    } else {
      SameInHand(p.taken, p.metrics, p.workers, w, Exited);
    }
  }

  /** The worker that holds the lock saw the counters as they still are, so its update loses
      nobody's. */
  lemma HolderKeepsJobs(p: Pool, w: nat, ok: bool, latency: int)
    requires WorkersOk(p) && JobsOk(p) && StepWorker(p, w, ok, latency).Some? && p.workers[w].Holding?
    ensures JobsOk(StepWorker(p, w, ok, latency).value)
  {
    var Holding(job, published, took, seen) := p.workers[w];
    CountedFromHand(p.taken, p.metrics, p.workers, w, published, took);
  }

  lemma WorkerKeepsJobs(p: Pool, w: nat, ok: bool, latency: int)
    requires WorkersOk(p) && JobsOk(p) && StepWorker(p, w, ok, latency).Some?
    ensures JobsOk(StepWorker(p, w, ok, latency).value)
  {
    match p.workers[w]
    case Receiving => ReceiverKeepsJobs(p, w, ok, latency);
    case Holding(_, _, _, _) => HolderKeepsJobs(p, w, ok, latency);
    case Publishing(job) => SameInHand(p.taken, p.metrics, p.workers, w, Locking(job, ok, latency));
    case Locking(job, published, took) =>
      SameInHand(p.taken, p.metrics, p.workers, w, Holding(job, published, took, p.metrics));
  }

  lemma StillHas(workers: seq<Worker>, w: nat, phase: Worker, job: nat)
    requires w < |workers| && SomeoneHas(workers, job)
    requires workers[w].Busy() && workers[w].job == job ==> phase.Busy() && phase.job == job
    ensures SomeoneHas(workers[w := phase], job)
  {
    var v :| 0 <= v < |workers| && workers[v].Busy() && workers[v].job == job;
    assert workers[w := phase][v].Busy() && workers[w := phase][v].job == job;
  }

  lemma SameInHand(taken: nat, metrics: Metrics, workers: seq<Worker>, w: nat, phase: Worker)
    requires Accounted(taken, metrics, workers) && w < |workers|
    requires phase.Busy() == workers[w].Busy() && (phase.Busy() ==> phase.job == workers[w].job)
    ensures Accounted(taken, metrics, workers[w := phase])
  {
    forall job | 0 <= job < taken
      ensures job in metrics.counted || SomeoneHas(workers[w := phase], job)
    {
      if job !in metrics.counted {
        StillHas(workers, w, phase, job);
      }
    }
  }

  lemma TakenInHand(taken: nat, metrics: Metrics, workers: seq<Worker>, w: nat)
    requires Accounted(taken, metrics, workers) && w < |workers| && workers[w].Receiving?
    ensures Accounted(taken + 1, metrics, workers[w := Publishing(taken)])
  {
    var workers' := workers[w := Publishing(taken)];
    forall job | 0 <= job < taken + 1
      ensures job in metrics.counted || SomeoneHas(workers', job)
    {
      if job == taken {
        assert workers'[w].Busy() && workers'[w].job == job;
      } else if job !in metrics.counted {
        StillHas(workers, w, Publishing(taken), job);
      }
    }
  }

  lemma CountedFromHand(taken: nat, metrics: Metrics, workers: seq<Worker>, w: nat, ok: bool, latency: int)
    requires Accounted(taken, metrics, workers) && w < |workers| && workers[w].Busy()
    ensures Accounted(taken, Count(metrics, workers[w].job, ok, latency), workers[w := Receiving])
  {
    var job := workers[w].job;
    forall other | 0 <= other < taken
      ensures other in metrics.counted + {job} || SomeoneHas(workers[w := Receiving], other)
    {
      if other !in metrics.counted + {job} {
        StillHas(workers, w, Receiving, other);
      }
    }
  }

  lemma HandlerKeeps(c: Config, p: Pool)
    requires SenderOk(c, p) && WorkersOk(p) && JobsOk(p) && StepHandler(p).Some?
    ensures SenderOk(c, StepHandler(p).value) && WorkersOk(StepHandler(p).value) && JobsOk(StepHandler(p).value)
  {}

  lemma StartOk(c: Config, workers: nat)
    ensures Inv(c, workers, Start(workers))
  {}

  lemma SenderInv(c: Config, workers: nat, p: Pool, timeout: bool)
    requires c.batchSize > 0 && Inv(c, workers, p) && StepSender(c, p, timeout).Some?
    ensures Inv(c, workers, StepSender(c, p, timeout).value)
  {
    SenderKeeps(c, p, timeout);
    SenderKeepsWorkers(c, p, timeout);
    SenderKeepsJobs(c, p, timeout);
  }

  lemma WorkerInv(c: Config, workers: nat, p: Pool, w: nat, ok: bool, latency: int)
    requires Inv(c, workers, p) && StepWorker(p, w, ok, latency).Some?
    ensures Inv(c, workers, StepWorker(p, w, ok, latency).value)
  {
    hide WorkersOk, SenderOk, JobsOk, Count;
    WorkerKeepsWorkers(c, p, w, ok, latency);
    WorkerKeepsJobs(p, w, ok, latency);
  }

  lemma ApplyKeeps(c: Config, workers: nat, p: Pool, step: Step)
    requires c.batchSize > 0 && Inv(c, workers, p) && Apply(c, p, step).Some?
    ensures Inv(c, workers, Apply(c, p, step).value)
  {
    match step
    case SenderStep(timeout) => SenderInv(c, workers, p, timeout);
    case WorkerStep(w, ok, latency) => WorkerInv(c, workers, p, w, ok, latency);
    case HandlerStep => HandlerKeeps(c, p);
  }

  /** In every run: jobs go out as 0, 1, 2, ..., and each is in the channel, with exactly one
      worker, or counted exactly once. */
  lemma {:induction false} RunKeeps(c: Config, workers: nat, steps: seq<Step>)
    requires c.batchSize > 0 && Run(c, workers, steps).Some?
    ensures Inv(c, workers, Run(c, workers, steps).value)
  {
    if steps == [] {
      StartOk(c, workers);
    } else {
      var front := steps[..|steps| - 1];
      RunKeeps(c, workers, front);
      ApplyKeeps(c, workers, Run(c, workers, front).value, steps[|steps| - 1]);
    }
  }

  // ----- what the handler reports -----

  /** After `wg.Wait` every job sent has been counted, once, as published or as an error,
      exactly when there was a worker or nothing was sent. */
  lemma AllCountedExactly(c: Config, workers: nat, steps: seq<Step>)
    requires c.batchSize > 0 && Run(c, workers, steps).Some?
    requires Run(c, workers, steps).value.handler.Finished?
    ensures var p := Run(c, workers, steps).value;
      && (p.metrics.published + p.metrics.errors == p.messagesSent <==> workers > 0 || p.messagesSent == 0)
      && (workers > 0 ==> p.metrics.counted == Below(p.messagesSent))
      && |p.metrics.latencies| == p.metrics.published
      && (!p.timedOut && c.numMessages >= 0 ==> p.messagesSent == c.numMessages)
  {
    RunKeeps(c, workers, steps);
    if workers == 0 {
      NothingTaken(c, steps);
    }
    FinishedCounts(c, Run(c, workers, steps).value);
  }

  lemma FinishedCounts(c: Config, p: Pool)
    requires SenderOk(c, p) && WorkersOk(p) && JobsOk(p) && p.handler.Finished?
    requires |p.workers| == 0 ==> p.taken == 0
    ensures p.metrics.published + p.metrics.errors == p.messagesSent <==> |p.workers| > 0 || p.messagesSent == 0
    ensures |p.workers| > 0 ==> p.metrics.counted == Below(p.messagesSent)
    ensures |p.metrics.latencies| == p.metrics.published
    ensures !p.timedOut && c.numMessages >= 0 ==> p.messagesSent == c.numMessages
  {
    if |p.workers| > 0 {
      assert p.workers[0].Exited?;
    }
    NoneLeftOver(p);
  }

  lemma NoneLeftOver(p: Pool)
    requires AllExited(p.workers) && Accounted(p.taken, p.metrics, p.workers)
    ensures p.metrics.counted == Below(p.taken) && p.metrics.published + p.metrics.errors == p.taken
  {
    BelowIs(p.taken);
    forall job: nat | job < p.taken
      ensures job in p.metrics.counted
    {
      assert !SomeoneHas(p.workers, job);
    }
    assert p.metrics.counted == Below(p.taken);
  }

  function Below(n: nat): set<nat> {
    if n == 0 then {} else Below(n - 1) + {n - 1}
  }

  lemma {:induction false} BelowIs(n: nat)
    ensures |Below(n)| == n
    ensures forall job: nat :: job in Below(n) <==> job < n
  {
    if n > 0 {
      BelowIs(n - 1);
    }
  }

  /** Without workers nothing is ever taken from the channel. */
  lemma {:induction false} NothingTaken(c: Config, steps: seq<Step>)
    requires Run(c, 0, steps).Some?
    ensures Run(c, 0, steps).value.taken == 0 && |Run(c, 0, steps).value.workers| == 0
  {
    if steps != [] {
      NothingTaken(c, steps[..|steps| - 1]);
    }
  }

  /** Nothing is sent after the channel is closed: by then the sender has returned. */
  lemma NoSendAfterClose(c: Config, workers: nat, steps: seq<Step>, timeout: bool)
    requires c.batchSize > 0 && Run(c, workers, steps).Some? && Run(c, workers, steps).value.closed
    ensures StepSender(c, Run(c, workers, steps).value, timeout).None?
  {
    RunKeeps(c, workers, steps);
  }

  lemma WorkerCanMove(p: Pool) returns (w: nat)
    requires WorkersOk(p) && p.closed && !AllExited(p.workers)
    ensures StepWorker(p, w, true, 0).Some?
  {
    if p.locked {
      w :| 0 <= w < |p.workers| && p.workers[w].Holding?;
    } else {
      w :| 0 <= w < |p.workers| && !p.workers[w].Exited?;
    }
  }

  lemma SomeStep(c: Config, p: Pool) returns (step: Step)
    requires SenderOk(c, p) && WorkersOk(p) && !p.handler.Finished?
    ensures Apply(c, p, step).Some?
  {
    hide WorkersOk;
    if !p.sender.Returned? {
      step := SenderStep(true);
    } else if p.handler == Closing || AllExited(p.workers) {
      step := HandlerStep;
    } else {
      var w := WorkerCanMove(p);
      step := WorkerStep(w, true, 0);
    }
  }

  /** Until the handler is finished somebody can move. */
  lemma SomebodyMoves(c: Config, workers: nat, steps: seq<Step>) returns (step: Step)
    requires c.batchSize > 0 && Run(c, workers, steps).Some?
    requires !Run(c, workers, steps).value.handler.Finished?
    ensures Apply(c, Run(c, workers, steps).value, step).Some?
  {
    RunKeeps(c, workers, steps);
    hide SenderOk, WorkersOk, JobsOk, Apply, Run;
    step := SomeStep(c, Run(c, workers, steps).value);
  }

  // ----- what counts as published -----

  /** This step finds that publishing a job went so. */
  predicate Ends(p: Pool, step: Step, ok: bool) {
    step.WorkerStep? && step.w < |p.workers| && p.workers[step.w].Publishing? && step.ok == ok
  }

  /** How many publishings of the run went so. */
  function Endings(c: Config, workers: nat, steps: seq<Step>, ok: bool): nat {
    if steps == [] then 0
    else
      var front := steps[..|steps| - 1];
      Endings(c, workers, front, ok)
      + match Run(c, workers, front)
        case None => 0
        case Some(p) => if Ends(p, steps[|steps| - 1], ok) then 1 else 0
  }

  function SumOf(workers: seq<Worker>, f: Worker -> nat): nat {
    if workers == [] then 0 else f(workers[0]) + SumOf(workers[1..], f)
  }

  lemma {:induction false} SumOfUpdate(workers: seq<Worker>, w: nat, worker: Worker, f: Worker -> nat)
    requires w < |workers|
    ensures SumOf(workers[w := worker], f) == SumOf(workers, f) - f(workers[w]) + f(worker)
  {
    if w == 0 {
      assert workers[w := worker][1..] == workers[1..];
    } else {
      assert workers[w := worker][1..] == workers[1..][w - 1 := worker];
      SumOfUpdate(workers[1..], w - 1, worker, f);
    }
  }

  lemma {:induction false} SumOfNone(workers: seq<Worker>, f: Worker -> nat)
    requires forall w | 0 <= w < |workers| :: f(workers[w]) == 0
    ensures SumOf(workers, f) == 0
  {
    if workers != [] {
      SumOfNone(workers[1..], f);
    }
  }

  /** One for a worker on its way to count a publishing that went so. */
  function OnItsWay(ok: bool): Worker -> nat {
    (worker: Worker) => if (worker.Locking? || worker.Holding?) && worker.ok == ok then 1 else 0
  }

  function Counted(m: Metrics, ok: bool): int {
    if ok then m.published else m.errors
  }

  lemma EndingWorker(p: Pool, w: nat, ok: bool, latency: int, kind: bool)
    requires WorkersOk(p) && StepWorker(p, w, ok, latency).Some?
    ensures var p' := StepWorker(p, w, ok, latency).value;
      && |p'.workers| == |p.workers| && p'.workers == p.workers[w := p'.workers[w]]
      && Counted(p'.metrics, kind) + OnItsWay(kind)(p'.workers[w])
         == Counted(p.metrics, kind) + OnItsWay(kind)(p.workers[w])
            + if p.workers[w].Publishing? && ok == kind then 1 else 0
  {}

  lemma EndingStep(c: Config, p: Pool, step: Step, ok: bool)
    requires WorkersOk(p) && Apply(c, p, step).Some?
    ensures var p' := Apply(c, p, step).value;
      Counted(p'.metrics, ok) + SumOf(p'.workers, OnItsWay(ok))
      == Counted(p.metrics, ok) + SumOf(p.workers, OnItsWay(ok)) + if Ends(p, step, ok) then 1 else 0
  {
    hide SumOf, WorkersOk, OnItsWay;
    var p' := Apply(c, p, step).value;
    if step.WorkerStep? {
      EndingWorker(p, step.w, step.ok, step.latency, ok);
      hide StepWorker, Counted;
      SumOfUpdate(p.workers, step.w, p'.workers[step.w], OnItsWay(ok));
    }
  }

  lemma {:induction false} EndingsCounted(c: Config, workers: nat, steps: seq<Step>, ok: bool)
    requires c.batchSize > 0 && Run(c, workers, steps).Some?
    ensures var p := Run(c, workers, steps).value;
      Counted(p.metrics, ok) + SumOf(p.workers, OnItsWay(ok)) == Endings(c, workers, steps, ok)
  {
    if steps == [] {
      SumOfNone(Start(workers).workers, OnItsWay(ok));
    } else {
      var front := steps[..|steps| - 1];
      EndingsCounted(c, workers, front, ok);
      RunKeeps(c, workers, front);
      hide SumOf, Apply, Counted, SenderOk, WorkersOk, JobsOk, Ends;
      EndingStep(c, Run(c, workers, front).value, steps[|steps| - 1], ok);
    }
  }

  /** After `wg.Wait` the published counter is the number of publishings that succeeded in the
      run, and the error counter the number that failed. */
  lemma CountersTell(c: Config, workers: nat, steps: seq<Step>)
    requires c.batchSize > 0 && Run(c, workers, steps).Some?
    requires Run(c, workers, steps).value.handler.Finished?
    ensures Run(c, workers, steps).value.metrics.published == Endings(c, workers, steps, true)
    ensures Run(c, workers, steps).value.metrics.errors == Endings(c, workers, steps, false)
  {
    RunKeeps(c, workers, steps);
    var p := Run(c, workers, steps).value;
    EndingsCounted(c, workers, steps, true);
    EndingsCounted(c, workers, steps, false);
    SumOfNone(p.workers, OnItsWay(true));
    SumOfNone(p.workers, OnItsWay(false));
  }

  /** How often a publishing of the run that succeeded measured this latency. */
  function Measured(c: Config, workers: nat, steps: seq<Step>, latency: int): nat {
    if steps == [] then 0
    else
      var front, step := steps[..|steps| - 1], steps[|steps| - 1];
      Measured(c, workers, front, latency)
      + match Run(c, workers, front)
        case None => 0
        case Some(p) => if Ends(p, step, true) && step.latency == latency then 1 else 0
  }

  function InHand(latency: int): Worker -> nat {
    (worker: Worker) =>
      if (worker.Locking? || worker.Holding?) && worker.ok && worker.latency == latency then 1 else 0
  }

  function Kept(m: Metrics, latency: int): nat {
    multiset(m.latencies)[latency]
  }

  lemma CountKeeps(m: Metrics, job: nat, ok: bool, took: int, latency: int)
    ensures Kept(Count(m, job, ok, took), latency) == Kept(m, latency) + if ok && took == latency then 1 else 0
  {}

  lemma MeasuringWorker(p: Pool, w: nat, ok: bool, took: int, latency: int)
    requires WorkersOk(p) && StepWorker(p, w, ok, took).Some?
    ensures var p' := StepWorker(p, w, ok, took).value;
      && |p'.workers| == |p.workers| && p'.workers == p.workers[w := p'.workers[w]]
      && Kept(p'.metrics, latency) + InHand(latency)(p'.workers[w])
         == Kept(p.metrics, latency) + InHand(latency)(p.workers[w])
            + if p.workers[w].Publishing? && ok && took == latency then 1 else 0
  {
    hide Kept, Count;
    if p.workers[w].Holding? {
      CountKeeps(p.metrics, p.workers[w].job, p.workers[w].ok, p.workers[w].latency, latency);
    }
  }

  lemma MeasuringStep(c: Config, p: Pool, step: Step, latency: int)
    requires WorkersOk(p) && Apply(c, p, step).Some?
    ensures var p' := Apply(c, p, step).value;
      Kept(p'.metrics, latency) + SumOf(p'.workers, InHand(latency))
      == Kept(p.metrics, latency) + SumOf(p.workers, InHand(latency))
         + if Ends(p, step, true) && step.latency == latency then 1 else 0
  {
    hide SumOf, WorkersOk, InHand;
    var p' := Apply(c, p, step).value;
    if step.WorkerStep? {
      MeasuringWorker(p, step.w, step.ok, step.latency, latency);
      hide StepWorker, Kept;
      SumOfUpdate(p.workers, step.w, p'.workers[step.w], InHand(latency));
    }
  }

  lemma {:induction false} MeasuredKept(c: Config, workers: nat, steps: seq<Step>, latency: int)
    requires c.batchSize > 0 && Run(c, workers, steps).Some?
    ensures var p := Run(c, workers, steps).value;
      Kept(p.metrics, latency) + SumOf(p.workers, InHand(latency)) == Measured(c, workers, steps, latency)
  {
    if steps == [] {
      SumOfNone(Start(workers).workers, InHand(latency));
    } else {
      var front := steps[..|steps| - 1];
      MeasuredKept(c, workers, front, latency);
      RunKeeps(c, workers, front);
      hide SumOf, Apply, Kept, SenderOk, WorkersOk, JobsOk, Ends;
      MeasuringStep(c, Run(c, workers, front).value, steps[|steps| - 1], latency);
    }
  }

  /** And each latency is kept as often as the publishings that succeeded measured it. */
  lemma LatenciesTell(c: Config, workers: nat, steps: seq<Step>, latency: int)
    requires c.batchSize > 0 && Run(c, workers, steps).Some?
    requires Run(c, workers, steps).value.handler.Finished?
    ensures multiset(Run(c, workers, steps).value.metrics.latencies)[latency] == Measured(c, workers, steps, latency)
  {
    RunKeeps(c, workers, steps);
    MeasuredKept(c, workers, steps, latency);
    SumOfNone(Run(c, workers, steps).value.workers, InHand(latency));
  }

  // ----- the channel -----

  /** The channel never holds more than two batches, and the sender waits for room exactly when
      it holds them. */
  lemma {:induction false} ChannelBounded(c: Config, workers: nat, steps: seq<Step>)
    requires c.batchSize > 0 && Run(c, workers, steps).Some?
    ensures var p := Run(c, workers, steps).value;
      && |p.jobs| <= 2 * c.batchSize
      && (p.sender.InBatch? && p.messagesSent < p.sender.batchEnd ==>
            (StepSender(c, p, false).None? <==> |p.jobs| == 2 * c.batchSize))
  {
    if steps != [] {
      ChannelBounded(c, workers, steps[..|steps| - 1]);
      ChannelStep(c, Run(c, workers, steps[..|steps| - 1]).value, steps[|steps| - 1]);
      hide Apply;
    }
  }

  lemma ChannelStep(c: Config, p: Pool, step: Step)
    requires c.batchSize > 0 && |p.jobs| <= 2 * c.batchSize && Apply(c, p, step).Some?
    ensures |Apply(c, p, step).value.jobs| <= 2 * c.batchSize
  {
    hide Count, AllExited;
  }

  // ----- every run ends -----

  /** What is left to do: no step leaves it as it was. */
  function Rank(c: Config, p: Pool): nat {
    5 * SenderRank(c, p) + 4 * |p.jobs| + SumOf(p.workers, WorkerRank()) + HandlerRank(p.handler)
  }

  function SenderRank(c: Config, p: Pool): nat {
    var left := NonNegative(c.numMessages - p.messagesSent);
    match p.sender
    case AtLoop => 3 * left + 3
    case InBatch(batchEnd) => if p.messagesSent < batchEnd then 3 * left + 2 else 3 * left + 4
    case Signalling => 1
    case Returned => 0
  }

  function WorkerRank(): Worker -> nat {
    (worker: Worker) =>
      match worker
      case Exited => 0
      case Receiving => 1
      case Holding(_, _, _, _) => 2
      case Locking(_, _, _) => 3
      case Publishing(_) => 4
  }

  function HandlerRank(handler: Handler): nat {
    match handler
    case AwaitingDone => 3
    case Closing => 2
    case AwaitingWorkers => 1
    case Finished => 0
  }

  lemma SenderDescends(c: Config, p: Pool, timeout: bool)
    requires c.batchSize > 0 && SenderOk(c, p) && StepSender(c, p, timeout).Some?
    ensures Rank(c, StepSender(c, p, timeout).value) < Rank(c, p)
  {
    var p' := StepSender(c, p, timeout).value;
    assert p'.workers == p.workers;
    hide SumOf;
  }

  lemma WorkerDescends(c: Config, p: Pool, w: nat, ok: bool, latency: int)
    requires StepWorker(p, w, ok, latency).Some?
    ensures Rank(c, StepWorker(p, w, ok, latency).value) < Rank(c, p)
  {
    hide SumOf, Count;
    var p' := StepWorker(p, w, ok, latency).value;
    assert p'.workers == p.workers[w := p'.workers[w]];
    SumOfUpdate(p.workers, w, p'.workers[w], WorkerRank());
    assert SenderRank(c, p') == SenderRank(c, p);
  }

  lemma StepDescends(c: Config, p: Pool, step: Step)
    requires c.batchSize > 0 && SenderOk(c, p) && Apply(c, p, step).Some?
    ensures Rank(c, Apply(c, p, step).value) < Rank(c, p)
  {
    match step
    case SenderStep(timeout) => SenderDescends(c, p, timeout);
    case WorkerStep(w, ok, latency) => WorkerDescends(c, p, w, ok, latency);
    case HandlerStep => assert SenderRank(c, StepHandler(p).value) == SenderRank(c, p);
  }

  /** No run is longer than what there was to do at the start; as somebody can move until the
      handler is finished, every run that goes on ends with the handler's report. */
  lemma {:induction false} RunEnds(c: Config, workers: nat, steps: seq<Step>)
    requires c.batchSize > 0 && Run(c, workers, steps).Some?
    ensures |steps| + Rank(c, Run(c, workers, steps).value) <= Rank(c, Start(workers))
  {
    if steps != [] {
      var front := steps[..|steps| - 1];
      RunEnds(c, workers, front);
      RunKeeps(c, workers, front);
      hide Rank, Apply, WorkersOk, JobsOk, SenderOk;
      StepDescends(c, Run(c, workers, front).value, steps[|steps| - 1]);
    }
  }

  // ----- the loops of the sender and of the statistics -----

  function NonNegative(n: int): nat {
    if n < 0 then 0 else n
  }

  /** The time is found to be up before job `i`: while it waits for room, or, where a batch
      begins, before. */
  predicate StopsAt(i: nat, batchSize: int, early: nat -> bool, blocked: nat -> bool)
    requires batchSize > 0
  {
    blocked(i) || (Within(i, batchSize) == 0 && early(i))
  }

  /** The place of job `i` in its batch. */
  function Within(i: nat, batchSize: int): nat
    requires batchSize > 0
    decreases i
  {
    if i < batchSize then i else Within(i - batchSize, batchSize)
  }

  lemma {:induction false} WithinNext(i: nat, batchSize: int)
    requires batchSize > 0
    ensures Within(i, batchSize) < batchSize
    ensures Within(i + 1, batchSize) == if Within(i, batchSize) + 1 == batchSize then 0 else Within(i, batchSize) + 1
    decreases i
  {
    if i >= batchSize {
      WithinNext(i - batchSize, batchSize);
    }
  }

  /** The sender's loops.  `early(i)` and `blocked(i)` say whether the time is up before a batch
      beginning with job `i`, or while job `i` waits; `jobs` is what was put into the channel. */
  method SendKafkaJobsBatched(numMessages: int, batchSize: int, early: nat -> bool, blocked: nat -> bool)
    returns (jobs: seq<nat>, timedOut: bool)
    requires batchSize > 0
    ensures jobs == FirstNumbers(|jobs|) && |jobs| <= NonNegative(numMessages)
    ensures timedOut <==> |jobs| < NonNegative(numMessages)
    ensures timedOut ==> StopsAt(|jobs|, batchSize, early, blocked)
    ensures forall i: nat | i < |jobs| :: !StopsAt(i, batchSize, early, blocked)
  {
    jobs, timedOut := [], false;
    var messagesSent: nat := 0;
    while messagesSent < numMessages
      invariant messagesSent <= NonNegative(numMessages) && jobs == FirstNumbers(messagesSent) && |jobs| == messagesSent
      invariant forall i: nat | i < messagesSent :: !StopsAt(i, batchSize, early, blocked)
      invariant messagesSent < numMessages ==> Within(messagesSent, batchSize) == 0
      invariant !timedOut
    {
      if early(messagesSent) {
        timedOut := true;
        return;
      }
      var batchEnd := messagesSent + batchSize;
      if batchEnd > numMessages {
        batchEnd := numMessages;
      }
      ghost var batchStart := messagesSent;
      while messagesSent < batchEnd
        invariant batchStart <= messagesSent <= batchEnd <= numMessages
        invariant Within(messagesSent, batchSize)
               == if messagesSent - batchStart == batchSize then 0 else messagesSent - batchStart
        invariant jobs == FirstNumbers(messagesSent) && |jobs| == messagesSent
        invariant forall i: nat | i < messagesSent :: !StopsAt(i, batchSize, early, blocked)
        invariant !timedOut
        decreases batchEnd - messagesSent
      {
        if blocked(messagesSent) {
          timedOut := true;
          return;
        }
        WithinNext(messagesSent, batchSize);
        jobs := jobs + [messagesSent];
        messagesSent := messagesSent + 1;
      }
    }
  }

  function Total(samples: seq<int>): int {
    if samples == [] then 0 else Total(samples[..|samples| - 1]) + samples[|samples| - 1]
  }

  /** The largest sample, or zero. */
  predicate IsPeak(samples: seq<int>, peak: int) {
    && (forall i | 0 <= i < |samples| :: samples[i] <= peak)
    && peak >= 0 && (peak == 0 || peak in samples)
  }

  lemma {:induction false} TotalAtMost(samples: seq<int>, bound: int)
    requires forall i | 0 <= i < |samples| :: 0 <= samples[i] <= bound
    ensures 0 <= Total(samples) <= bound * |samples|
  {
    if samples != [] {
      TotalAtMost(samples[..|samples| - 1], bound);
    }
  }

  lemma {:induction false} TotalBelow(samples: seq<int>, bound: int)
    requires forall i | 0 <= i < |samples| :: samples[i] <= bound
    ensures Total(samples) <= bound * |samples|
  {
    if samples != [] {
      TotalBelow(samples[..|samples| - 1], bound);
    }
  }

  lemma QuotientAtMost(total: int, n: int, bound: int)
    requires n > 0 && total <= bound * n
    ensures total as real / n as real <= bound as real
    ensures (total as real / n as real) * n as real == total as real
  {
    assert (bound * n) as real == bound as real * n as real;
  }

  lemma AverageAtMost(total: int, n: int, peak: int)
    requires n > 0 && 0 <= total <= peak * n
    ensures 0 <= total / n <= peak
    ensures (total / n) * n <= total < (total / n + 1) * n
  {}

  /** Latencies are durations, so not negative; their average is truncated to nanoseconds.
      `seconds` is how long the test ran. */
  method CalculateKafkaStats(metrics: Metrics, lagSamples: seq<int>, seconds: real)
    returns (avgLatency: int, maxLatency: int, avgLag: real, maxLag: int, successRate: real, publishRate: real)
    requires MetricsAddUp(metrics) && seconds > 0.0
    requires forall i | 0 <= i < |metrics.latencies| :: metrics.latencies[i] >= 0
    ensures IsPeak(metrics.latencies, maxLatency)
    ensures 0 <= avgLatency <= maxLatency
    ensures metrics.published > 0 ==>
      avgLatency * metrics.published <= Total(metrics.latencies) < (avgLatency + 1) * metrics.published
    ensures IsPeak(lagSamples, maxLag) && avgLag <= maxLag as real
    ensures avgLag * |lagSamples| as real == Total(lagSamples) as real
    ensures lagSamples == [] ==> avgLag == 0.0
    ensures 0.0 <= successRate <= 100.0
    ensures successRate == 100.0 <==> metrics.published > 0 && metrics.errors == 0
    ensures successRate * (metrics.published + metrics.errors) as real == 100.0 * metrics.published as real
    ensures metrics.published == 0 ==> successRate == 0.0
    ensures publishRate * seconds == metrics.published as real
  {
    hide Total, IsPeak;
    var n := |metrics.latencies|;
    var totalLatency, totalLag;
    totalLatency, maxLatency := TotalAndPeak(metrics.latencies);
    TotalAtMost(metrics.latencies, maxLatency);
    avgLatency := AverageDuration(totalLatency, n, maxLatency);
    totalLag, maxLag := TotalAndPeak(lagSamples);
    avgLag := 0.0;
    if |lagSamples| > 0 {
      TotalBelow(lagSamples, maxLag);
      QuotientAtMost(totalLag, |lagSamples|, maxLag);
      avgLag := totalLag as real / |lagSamples| as real;
    } else {
      EmptyTotal();
    }
    successRate := SuccessRate(metrics.published, metrics.errors);
    QuotientTimes(metrics.published as real, seconds);
    publishRate := metrics.published as real / seconds;
  }

  lemma EmptyTotal()
    ensures Total([]) == 0
  {}

  lemma QuotientTimes(a: real, b: real)
    requires b != 0.0
    ensures a / b * b == a
  {}

  method TotalAndPeak(samples: seq<int>) returns (total: int, peak: int)
    ensures total == Total(samples) && IsPeak(samples, peak)
    ensures forall i | 0 <= i < |samples| :: samples[i] <= peak
    ensures peak >= 0
  {
    total, peak := 0, 0;
    for i := 0 to |samples|
      invariant total == Total(samples[..i]) && IsPeak(samples[..i], peak)
    {
      assert samples[..i + 1][..i] == samples[..i];
      total := total + samples[i];
      if samples[i] > peak {
        peak := samples[i];
      }
    }
    assert samples[..|samples|] == samples;
  }

  method AverageDuration(total: int, n: nat, peak: int) returns (average: int)
    requires 0 <= total <= peak * n && peak >= 0
    ensures 0 <= average <= peak
    ensures n > 0 ==> average * n <= total < (average + 1) * n
  {
    average := 0;
    if n > 0 {
      AverageAtMost(total, n, peak);
      average := total / n;
    }
  }

  method SuccessRate(published: int, errors: int) returns (rate: real)
    requires published >= 0 && errors >= 0
    ensures 0.0 <= rate <= 100.0
    ensures rate == 100.0 <==> published > 0 && errors == 0
    ensures rate * (published + errors) as real == 100.0 * published as real
    ensures published == 0 ==> rate == 0.0
  {
    var totalMessages := published + errors;
    rate := 0.0;
    if totalMessages > 0 {
      RatioAtMostOne(published, totalMessages);
      rate := published as real / totalMessages as real * 100.0;
      QuotientTimes(published as real, totalMessages as real);
    }
  }

  lemma RatioAtMostOne(part: int, whole: int)
    requires 0 <= part <= whole && whole > 0
    ensures 0.0 <= part as real / whole as real <= 1.0
    ensures part as real / whole as real == 1.0 <==> part == whole
  {}
}
