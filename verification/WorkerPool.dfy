/**
 * The gateway's worker pool (src/gateway/worker_pool.py:54-158): jobs as generators that run from
 * one await to the next, a semaphore of permits, and the table of active jobs.
 */
module WorkerPool {
  import opened Basics

  type JobId = string

  type RunId = nat  // one generator object returned by `submit`

  datatype Status = Completed | Cancelled | Failed | FirstByteTimeout | IdleTimeout

  /** Admitted by `submit`; in line for a permit; running; over. */
  datatype Phase = Admitted | InLine | Running(firstByteSeen: bool) | Ended

  datatype Job = Job(id: JobId, phase: Phase)

  /** What ends the wait of a running job: a chunk, the end of the stream, the time budget, a
      cancellation, an error of the stream, or the consumer closing the generator. */
  datatype Event = Chunk | EndOfStream | OutOfTime | Cancel | Error | Close

  datatype Step =
    | Submit(run: RunId, id: JobId)
    | Start(run: RunId)
    | Wake(run: RunId)
    | Resume(run: RunId, event: Event)
    | Abandon(run: RunId)

  /** The semaphore of Python 3.11: the counter, the waiters without a permit, oldest first, and
      the waiters that were handed one and have not resumed yet. */
  datatype Semaphore = Semaphore(free: int, queue: seq<RunId>, granted: set<RunId>)
  {
    /** `locked`: an acquire has to wait, be it only behind a waiter with a permit. */
    predicate Locked()
    {
      free <= 0 || queue != [] || granted != {}
    }

    function Joined(run: RunId): Semaphore
    {
      this.(queue := queue + [run])
    }

    /** `_wake_up_next`: the oldest waiter without a permit gets one. */
    function PassOn(): Semaphore
    {
      if queue == [] then this else Semaphore(free - 1, queue[1..], granted + {queue[0]})
    }

    function Release(): Semaphore
    {
      this.(free := free + 1).PassOn()
    }

    /** A waiter resumes with its permit, and passes on one that came free meanwhile. */
    function Resumed(run: RunId): Semaphore
    {
      var rest := this.(granted := granted - {run});
      if free > 0 then rest.PassOn() else rest
    }

    /** A waiter is cancelled: one with a permit gives it back. */
    function Left(run: RunId): Semaphore
    {
      if run in granted then this.(granted := granted - {run}).Release() else this.(queue := Without(queue, run))
    }
  }

  function Without(queue: seq<RunId>, run: RunId): seq<RunId>
  {
    if queue == [] then []
    else if queue[0] == run then queue[1..]
    else [queue[0]] + Without(queue[1..], run)
  }

  ghost predicate FirstAt(queue: seq<RunId>, run: RunId, k: nat)
  {
    k < |queue| && queue[k] == run && forall m :: 0 <= m < k ==> queue[m] != run
  }

  lemma {:induction false} WithoutFirst(queue: seq<RunId>, run: RunId)
    ensures forall k: nat :: FirstAt(queue, run, k) ==> Without(queue, run) == queue[..k] + queue[k + 1..]
  {
    if queue == [] || queue[0] == run {
      assert forall k: nat :: FirstAt(queue, run, k) ==> k == 0;
    } else {
      WithoutFirst(queue[1..], run);
      forall k: nat | FirstAt(queue, run, k)
        ensures Without(queue, run) == queue[..k] + queue[k + 1..]
      {
        assert k > 0;
        var m: nat := k - 1;
        assert FirstAt(queue[1..], run, m);
        assert queue[1..][..m] == queue[1..k] && queue[1..][m + 1..] == queue[k + 1..];
      }
    }
  }

  datatype Pool = Pool(sem: Semaphore, active: map<JobId, RunId>, jobs: map<RunId, Job>, status: map<JobId, Status>)

  predicate IsRunning(pool: Pool, run: RunId)
  {
    run in pool.jobs && pool.jobs[run].phase.Running?
  }

  ghost function RunningJobs(jobs: map<RunId, Job>): set<RunId>
  {
    set run | run in jobs && jobs[run].phase.Running?
  }

  /** How a job that leaves its loop is recorded; a consumer that closes early leaves no record. */
  function Recorded(status: map<JobId, Status>, id: JobId, firstByteSeen: bool, event: Event): map<JobId, Status>
  {
    match event
    case Chunk | Close => status
    case EndOfStream => status[id := Completed]
    case OutOfTime => status[id := if firstByteSeen then IdleTimeout else FirstByteTimeout]
    case Cancel => status[id := Cancelled]
    case Error => status[id := Failed]
  }

  /** What a job does once it has its permit. */
  function Enter(pool: Pool, sem: Semaphore, run: RunId): Pool
    requires run in pool.jobs
  {
    var id := pool.jobs[run].id;
    pool.(sem := sem, active := pool.active[id := run], jobs := pool.jobs[run := Job(id, Running(false))])
  }

  predicate InPhase(pool: Pool, run: RunId, phase: Phase)
  {
    run in pool.jobs && pool.jobs[run].phase == phase
  }

  /** One stretch of code between two awaits. A step that cannot be taken changes nothing: a
      submit over capacity is refused. */
  function Next(pool: Pool, max: nat, step: Step): Pool
  {
    match step
    case Submit(run, id) =>
      if run in pool.jobs || max - |pool.active| <= 0 then pool else pool.(jobs := pool.jobs[run := Job(id, Admitted)])
    case Start(run) =>
      if !InPhase(pool, run, Admitted) then pool
      else if pool.sem.Locked() then
        pool.(sem := pool.sem.Joined(run), jobs := pool.jobs[run := pool.jobs[run].(phase := InLine)])
      else Enter(pool, pool.sem.(free := pool.sem.free - 1), run)
    case Wake(run) =>
      if !InPhase(pool, run, InLine) || run !in pool.sem.granted then pool
      else Enter(pool, pool.sem.Resumed(run), run)
    case Resume(run, event) =>
      if !IsRunning(pool, run) then pool
      else
        var id := pool.jobs[run].id;
        if event.Chunk? then pool.(jobs := pool.jobs[run := Job(id, Running(true))])
        else
          Pool(pool.sem.Release(), pool.active - {id}, pool.jobs[run := Job(id, Ended)],
               Recorded(pool.status, id, pool.jobs[run].phase.firstByteSeen, event))
    case Abandon(run) =>  // cancelled or closed before it runs
      if InPhase(pool, run, Admitted) then pool.(jobs := pool.jobs[run := pool.jobs[run].(phase := Ended)])
      else if InPhase(pool, run, InLine) then
        pool.(sem := pool.sem.Left(run), jobs := pool.jobs[run := pool.jobs[run].(phase := Ended)])
      else pool
  }

  function Idle(max: nat): Pool
  {
    Pool(Semaphore(max, [], {}), map[], map[], map[])
  }

  function Run(max: nat, steps: seq<Step>): Pool
  {
    if steps == [] then Idle(max)
    else Next(Run(max, steps[..|steps| - 1]), max, steps[|steps| - 1])
  }

  class WorkerPool {
    const max: nat
    var sem: Semaphore
    var active: map<JobId, RunId>
    var jobs: map<RunId, Job>
    var status: map<JobId, Status>

    ghost function State(): Pool
      reads this
    {
      Pool(sem, active, jobs, status)
    }

    constructor (maxConcurrent: nat)
      ensures max == maxConcurrent && State() == Run(max, [])
    {
      max, sem := maxConcurrent, Semaphore(maxConcurrent, [], {});
      active, jobs, status := map[], map[], map[];
    }

    method HasCapacity() returns (yes: bool)
      ensures yes <==> |active| < max
    {
      var available := max - |active|;
      return available > 0;
    }

    method SubmitJob(run: RunId, id: JobId) returns (admitted: bool)
      requires run !in jobs
      modifies this
      ensures State() == Next(old(State()), max, Submit(run, id))
      ensures admitted <==> |old(active)| < max
      ensures jobs == if admitted then old(jobs)[run := Job(id, Admitted)] else old(jobs)
      ensures sem == old(sem) && active == old(active) && status == old(status)
    {
      var capacity := HasCapacity();
      if !capacity {
        return false;
      }
      jobs := jobs[run := Job(id, Admitted)];
      return true;
    }

    /** From the first `__anext__` to the wait for a permit or on the stream. */
    method StartJob(run: RunId) returns (started: bool)
      requires run in jobs && jobs[run].phase.Admitted?
      modifies this
      ensures State() == Next(old(State()), max, Start(run))
      ensures started <==> old(sem.free > 0 && sem.queue == [] && sem.granted == {})
      ensures status == old(status) && var id := old(jobs)[run].id;
        if started then
          && sem == Semaphore(old(sem).free - 1, [], {}) && active == old(active)[id := run]
          && jobs == old(jobs)[run := Job(id, Running(false))]
        else
          && sem == Semaphore(old(sem).free, old(sem).queue + [run], old(sem).granted) && active == old(active)
          && jobs == old(jobs)[run := Job(id, InLine)]
    {
      var id := jobs[run].id;
      if sem.free <= 0 || sem.queue != [] || sem.granted != {} {
        sem := sem.(queue := sem.queue + [run]);
        jobs := jobs[run := Job(id, InLine)];
        return false;
      }
      sem := sem.(free := sem.free - 1);
      active := active[id := run];
      jobs := jobs[run := Job(id, Running(false))];
      return true;
    }

    /** From the hand-over of a permit to the first wait on the stream. */
    method WakeJob(run: RunId)
      requires run in jobs && jobs[run].phase.InLine? && run in sem.granted
      modifies this
      ensures State() == Next(old(State()), max, Wake(run))
      ensures status == old(status) && active == old(active)[old(jobs)[run].id := run]
      ensures jobs == old(jobs)[run := Job(old(jobs)[run].id, Running(false))]
      ensures var was := old(sem);
        if was.free > 0 && was.queue != [] then
          sem == Semaphore(was.free - 1, was.queue[1..], was.granted - {run} + {was.queue[0]})
        else sem == Semaphore(was.free, was.queue, was.granted - {run})
    {
      var id := jobs[run].id;
      sem := sem.(granted := sem.granted - {run});
      if sem.free > 0 {
        WakeUpNext();
      }
      active := active[id := run];
      jobs := jobs[run := Job(id, Running(false))];
    }

    /** `_wake_up_next`. */
    method WakeUpNext()
      modifies this`sem
      ensures sem == old(sem).PassOn()
    {
      if sem.queue != [] {
        sem := Semaphore(sem.free - 1, sem.queue[1..], sem.granted + {sem.queue[0]});
      }
    }

    /** Cancelled before it runs: a permit already handed over goes to the next waiter. */
    method AbandonJob(run: RunId)
      requires run in jobs && (jobs[run].phase.Admitted? || jobs[run].phase.InLine?)
      modifies this
      ensures State() == Next(old(State()), max, Abandon(run))
      ensures status == old(status) && active == old(active)
      ensures jobs == old(jobs)[run := Job(old(jobs)[run].id, Ended)]
      ensures var was := old(sem);
        if old(jobs)[run].phase.Admitted? then sem == was
        else if run in was.granted && was.queue != [] then
          sem == Semaphore(was.free, was.queue[1..], was.granted - {run} + {was.queue[0]})
        else if run in was.granted then sem == Semaphore(was.free + 1, [], was.granted - {run})
        else
          && sem.free == was.free && sem.granted == was.granted
          && forall k: nat :: FirstAt(was.queue, run, k) ==> sem.queue == was.queue[..k] + was.queue[k + 1..]
    {
      WithoutFirst(sem.queue, run);
      if jobs[run].phase.InLine? {
        if run in sem.granted {
          sem := sem.(granted := sem.granted - {run});
          sem := sem.(free := sem.free + 1);
          WakeUpNext();
        } else {
          sem := sem.(queue := Without(sem.queue, run));
        }
      }
      jobs := jobs[run := jobs[run].(phase := Ended)];
    }

    /** The status that the outcome of a wait leaves behind. */
    method RecordStatus(id: JobId, firstByteSeen: bool, event: Event)
      modifies this`status
      ensures status == Recorded(old(status), id, firstByteSeen, event)
    {
      match event {
        case Chunk =>
        case EndOfStream =>
          status := status[id := Completed];
        case OutOfTime =>
          if firstByteSeen {
            status := status[id := IdleTimeout];
          } else {
            status := status[id := FirstByteTimeout];
          }
        case Cancel =>
          status := status[id := Cancelled];
        case Error =>
          status := status[id := Failed];
        case Close =>
      }
    }

    /** From the outcome of one wait to the next yield, or through the `finally` block. */
    method ResumeJob(run: RunId, event: Event)
      requires run in jobs && jobs[run].phase.Running?
      modifies this
      ensures State() == Next(old(State()), max, Resume(run, event))
      ensures var id := old(jobs)[run].id;
        if event == Chunk then
          && sem == old(sem) && active == old(active) && status == old(status)
          && jobs == old(jobs)[run := Job(id, Running(true))]
        else
          && active == old(active) - {id} && jobs == old(jobs)[run := Job(id, Ended)]
          && sem == (if old(sem).queue == [] then Semaphore(old(sem).free + 1, [], old(sem).granted)
                     else Semaphore(old(sem).free, old(sem).queue[1..], old(sem).granted + {old(sem).queue[0]}))
      ensures event == EndOfStream ==> status == old(status)[old(jobs)[run].id := Completed]
      ensures event == Cancel ==> status == old(status)[old(jobs)[run].id := Cancelled]
      ensures event == Error ==> status == old(status)[old(jobs)[run].id := Failed]
      ensures event == OutOfTime && old(jobs)[run].phase == Running(true) ==>
        status == old(status)[old(jobs)[run].id := IdleTimeout]
      ensures event == OutOfTime && old(jobs)[run].phase == Running(false) ==>
        status == old(status)[old(jobs)[run].id := FirstByteTimeout]
      ensures event == Close ==> status == old(status)
    {
      var id := jobs[run].id;
      if event.Chunk? {
        jobs := jobs[run := Job(id, Running(true))];
        return;
      }
      RecordStatus(id, jobs[run].phase.firstByteSeen, event);
      active := active - {id};
      sem := sem.(free := sem.free + 1);
      WakeUpNext();
      jobs := jobs[run := Job(id, Ended)];
    }
  }

  // ----- permits -----

  predicate Distinct(queue: seq<RunId>)
  {
    forall i, k :: 0 <= i < k < |queue| ==> queue[i] != queue[k]
  }

  /** No one stands in line twice, and no one both with and without a permit. */
  ghost predicate Orderly(sem: Semaphore)
  {
    && sem.free >= 0
    && Distinct(sem.queue)
    && (forall run :: run in sem.queue ==> run !in sem.granted)
  }

  predicate Waits(sem: Semaphore, run: RunId) { run in sem.queue || run in sem.granted }

  ghost predicate InOrder(pool: Pool)
  {
    Orderly(pool.sem) && forall run :: Waits(pool.sem, run) ==> InPhase(pool, run, InLine)
  }

  /** The permits that are out: one for each running job and one for each waiter that has been
      handed its own. */
  ghost function PermitsOut(pool: Pool): nat
  {
    |pool.sem.granted| + |RunningJobs(pool.jobs)|
  }

  /** Whatever jobs are submitted, started, woken, cancelled and ended in whatever order, even
      under one id: every permit is free, handed to a waiter, or held by a running job. */
  lemma {:induction false} PermitsAreConserved(max: nat, steps: seq<Step>)
    ensures var pool := Run(max, steps); InOrder(pool) && pool.sem.free + PermitsOut(pool) == max
  {
    if steps == [] {
      assert RunningJobs(map[]) == {};
    } else {
      PermitsAreConserved(max, steps[..|steps| - 1]);
      StepConservesPermits(Run(max, steps[..|steps| - 1]), max, steps[|steps| - 1]);
    }
  }

  lemma {:induction false} WithoutIs(queue: seq<RunId>, run: RunId)
    requires Distinct(queue)
    ensures Distinct(Without(queue, run))
    ensures forall other :: other in Without(queue, run) <==> other in queue && other != run
  {
    if queue == [] {
    } else {
      var first, others := queue[0], queue[1..];
      assert queue == [first] + others && first !in others;
      WithoutIs(others, run);
      assert first != run ==> Without(queue, run) == [first] + Without(others, run);
    }
  }

  lemma JoinedKeeps(sem: Semaphore, run: RunId)
    requires Orderly(sem) && !Waits(sem, run)
    ensures Orderly(sem.Joined(run)) && forall other :: Waits(sem.Joined(run), other) <==>
      Waits(sem, other) || other == run
  {
  }

  /** Passing on moves a permit, and the oldest waiter, from one side to the other. */
  lemma PassOnKeeps(sem: Semaphore)
    requires Orderly(sem) && sem.free > 0
    ensures var next := sem.PassOn();
      && Orderly(next) && next.free + |next.granted| == sem.free + |sem.granted|
      && forall run :: Waits(next, run) <==> Waits(sem, run)
  {
    if sem.queue != [] {
      assert sem.queue == [sem.queue[0]] + sem.queue[1..];
      assert sem.queue[0] !in sem.queue[1..];
    }
  }

  lemma ReleaseKeeps(sem: Semaphore)
    requires Orderly(sem)
    ensures var next := sem.Release();
      && Orderly(next) && next.free + |next.granted| == sem.free + |sem.granted| + 1
      && forall run :: Waits(next, run) <==> Waits(sem, run)
  {
    PassOnKeeps(sem.(free := sem.free + 1));
  }

  lemma ResumedKeeps(sem: Semaphore, run: RunId)
    requires Orderly(sem) && run in sem.granted
    ensures var next := sem.Resumed(run);
      && Orderly(next) && next.free + |next.granted| == sem.free + |sem.granted| - 1
      && forall other :: Waits(next, other) <==> Waits(sem, other) && other != run
  {
    if sem.free > 0 {
      PassOnKeeps(sem.(granted := sem.granted - {run}));
    }
  }

  lemma LeftKeeps(sem: Semaphore, run: RunId)
    requires Orderly(sem)
    ensures var next := sem.Left(run);
      && Orderly(next) && next.free + |next.granted| == sem.free + |sem.granted|
      && forall other :: Waits(next, other) <==> Waits(sem, other) && other != run
  {
    if run in sem.granted {
      ReleaseKeeps(sem.(granted := sem.granted - {run}));
    } else {
      WithoutIs(sem.queue, run);
    }
  }

  lemma StepConservesPermits(pool: Pool, max: nat, step: Step)
    requires InOrder(pool)
    ensures var next := Next(pool, max, step);
      InOrder(next) && next.sem.free + PermitsOut(next) == pool.sem.free + PermitsOut(pool)
  {
    var next := Next(pool, max, step);
    if next == pool {
    } else {
      SemaphoreSteps(pool, max, step);
      OrderIsKept(pool, next, step.run);
      CountRunning(pool.jobs, step.run, next.jobs[step.run]);
    }
  }

  /** What a step that changes something does to the semaphore. */
  lemma SemaphoreSteps(pool: Pool, max: nat, step: Step)
    requires InOrder(pool) && Next(pool, max, step) != pool
    ensures var next, run := Next(pool, max, step), step.run;
      && run in next.jobs && next.jobs == pool.jobs[run := next.jobs[run]] && Orderly(next.sem)
      && (forall other :: Waits(next.sem, other) ==>
          if other == run then InPhase(next, run, InLine) else Waits(pool.sem, other))
      && next.sem.free + |next.sem.granted| + (if IsRunning(next, run) then 1 else 0)
         == pool.sem.free + |pool.sem.granted| + (if IsRunning(pool, run) then 1 else 0)
  {
    match step
    case Submit(run, id) =>
    case Start(run) =>
      assert !Waits(pool.sem, run);
      JoinedKeeps(pool.sem, run);
    case Wake(run) => ResumedKeeps(pool.sem, run);
    case Resume(run, event) =>
      assert !Waits(pool.sem, run);
      ReleaseKeeps(pool.sem);
    case Abandon(run) =>
      if InPhase(pool, run, Admitted) {
        assert !Waits(pool.sem, run);
      } else {
        LeftKeeps(pool.sem, run);
      }
  }

  lemma OrderIsKept(pool: Pool, next: Pool, run: RunId)
    requires InOrder(pool) && Orderly(next.sem)
    requires run in next.jobs && next.jobs == pool.jobs[run := next.jobs[run]]
    requires forall other :: Waits(next.sem, other) ==>
      if other == run then InPhase(next, run, InLine) else Waits(pool.sem, other)
    ensures InOrder(next)
  {
  }

  lemma CountRunning(jobs: map<RunId, Job>, run: RunId, job: Job)
    ensures |RunningJobs(jobs[run := job])| ==
      |RunningJobs(jobs) - {run}| + if job.phase.Running? then 1 else 0
    ensures |RunningJobs(jobs)| ==
      |RunningJobs(jobs) - {run}| + if run in jobs && jobs[run].phase.Running? then 1 else 0
  {
    var others := RunningJobs(jobs) - {run};
    assert RunningJobs(jobs[run := job]) == if job.phase.Running? then others + {run} else others;
    assert RunningJobs(jobs) == if run in jobs && jobs[run].phase.Running? then others + {run} else others;
  }

  // ----- the table of active jobs -----

  /** Every active id belongs to a running job. */
  predicate IsActive(pool: Pool, id: JobId)
  {
    id in pool.active ==> IsRunning(pool, pool.active[id]) && pool.jobs[pool.active[id]].id == id
  }

  /** The job's own entry is in the table, so no other running job has its id. */
  predicate IsListed(pool: Pool, run: RunId)
  {
    IsRunning(pool, run) ==> pool.jobs[run].id in pool.active && pool.active[pool.jobs[run].id] == run
  }

  ghost predicate AllListed(pool: Pool)
  {
    forall run :: IsListed(pool, run)
  }

  lemma StepKeepsActive(pool: Pool, max: nat, step: Step, id: string)
    requires IsActive(pool, id)
    ensures IsActive(Next(pool, max, step), id)
  {
  }

  lemma {:induction false} ActiveAreRunning(max: nat, steps: seq<Step>)
    ensures forall id :: IsActive(Run(max, steps), id)
  {
    if steps == [] {
    } else {
      var pool := Run(max, steps[..|steps| - 1]);
      var next := Next(pool, max, steps[|steps| - 1]);
      ActiveAreRunning(max, steps[..|steps| - 1]);
      forall id
        ensures IsActive(next, id)
      {
        assert IsActive(pool, id);
        StepKeepsActive(pool, max, steps[|steps| - 1], id);
      }
    }
  }

  /** The capacity that `submit` looks at is never less than the permits that are free or handed
      to waiters, and exactly those when every running job is listed; it is the free permits when,
      besides, no waiter holds one. */
  lemma CapacityOf(max: nat, steps: seq<Step>)
    ensures var pool := Run(max, steps); var capacity := max - |pool.active|;
      && 0 <= pool.sem.free + |pool.sem.granted| <= capacity
      && (pool.sem.free + |pool.sem.granted| == capacity <==> AllListed(pool))
      && (pool.sem.free == capacity <==> AllListed(pool) && pool.sem.granted == {})
  {
    PermitsAreConserved(max, steps);
    ActiveAreRunning(max, steps);
    ListedAreActive(Run(max, steps));
  }

  lemma ListedAreActive(pool: Pool)
    requires forall id :: IsActive(pool, id)
    ensures |pool.active| <= |RunningJobs(pool.jobs)|
    ensures |pool.active| == |RunningJobs(pool.jobs)| <==> AllListed(pool)
  {
    ActiveMatchListed(pool);
    ListedAreRunning(pool);
    SubsetSize(ListedJobs(pool), RunningJobs(pool.jobs));
  }

  ghost function ListedJobs(pool: Pool): set<RunId>
  {
    set run | run in pool.jobs && IsRunning(pool, run) && IsListed(pool, run)
  }

  lemma ListedAreRunning(pool: Pool)
    ensures ListedJobs(pool) <= RunningJobs(pool.jobs)
    ensures ListedJobs(pool) == RunningJobs(pool.jobs) <==> AllListed(pool)
  {
    if !AllListed(pool) {
      var run :| !IsListed(pool, run);
      assert run in RunningJobs(pool.jobs) && run !in ListedJobs(pool);
    } else {
      forall run | run in RunningJobs(pool.jobs)
        ensures run in ListedJobs(pool)
      {
        assert IsListed(pool, run);
      }
    }
  }

  lemma ActiveMatchListed(pool: Pool)
    requires forall id :: IsActive(pool, id)
    ensures |pool.active| == |ListedJobs(pool)|
  {
    forall id | id in pool.active
      ensures pool.active[id] in ListedJobs(pool) && pool.jobs[pool.active[id]].id == id
    {
      assert IsActive(pool, id);
    }
    OneEntryEach(pool.active, ListedJobs(pool), run requires run in pool.jobs => pool.jobs[run].id);
  }

  lemma OneEntryEach(active: map<JobId, RunId>, listed: set<RunId>, idOf: RunId --> JobId)
    requires forall run :: run in listed ==> idOf.requires(run) && idOf(run) in active && active[idOf(run)] == run
    requires forall id :: id in active ==> active[id] in listed && idOf(active[id]) == id
    ensures |active| == |listed|
  {
    var ids := set run | run in listed :: idOf(run);
    assert ids == active.Keys;
    ImageSize(listed, ids, idOf);
  }

  /** The step lets its job run. */
  predicate Enters(pool: Pool, step: Step)
  {
    || (step.Start? && InPhase(pool, step.run, Admitted) && !pool.sem.Locked())
    || (step.Wake? && InPhase(pool, step.run, InLine) && step.run in pool.sem.granted)
  }

  /** A job takes the id of one that is still running. */
  ghost predicate Clashes(pool: Pool, step: Step)
  {
    Enters(pool, step) && exists other :: IsRunning(pool, other) && pool.jobs[other].id == pool.jobs[step.run].id
  }

  lemma ClashLosesEntry(pool: Pool, max: nat, step: Step)
    requires Clashes(pool, step)
    ensures !AllListed(Next(pool, max, step))
  {
    var other :| IsRunning(pool, other) && pool.jobs[other].id == pool.jobs[step.run].id;
    assert !IsListed(Next(pool, max, step), other);
  }

  lemma StepKeepsListed(pool: Pool, max: nat, step: Step)
    requires AllListed(pool) && !Clashes(pool, step)
    ensures AllListed(Next(pool, max, step))
  {
    forall run
      ensures IsListed(Next(pool, max, step), run)
    {
      assert IsListed(pool, run);
      if step.Resume? {
        assert IsListed(pool, step.run);
      }
    }
  }

  ghost predicate NeverClashes(max: nat, steps: seq<Step>)
  {
    forall n :: 0 <= n < |steps| ==> !Clashes(Run(max, steps[..n]), steps[n])
  }

  /** In every state of a run the free permits, those handed to waiters and the active jobs add up
      to the limit: true of a run exactly when no job in it starts under the id of one that is
      still running. The free permits and the active jobs alone do exactly when, besides, no permit
      is ever handed to a waiter. */
  lemma FreePlusActive(max: nat, steps: seq<Step>)
    ensures (forall n :: 0 <= n <= |steps| ==>
        var pool := Run(max, steps[..n]); pool.sem.free + |pool.sem.granted| + |pool.active| == max)
      <==> NeverClashes(max, steps)
    ensures (forall n :: 0 <= n <= |steps| ==> var pool := Run(max, steps[..n]); pool.sem.free + |pool.active| == max)
      <==> NeverClashes(max, steps) && forall n :: 0 <= n <= |steps| ==> Run(max, steps[..n]).sem.granted == {}
  {
    forall n | 0 <= n <= |steps|
      ensures var pool := Run(max, steps[..n]);
        && (AllListed(pool) <==> pool.sem.free + |pool.sem.granted| + |pool.active| == max)
        && (AllListed(pool) && pool.sem.granted == {} <==> pool.sem.free + |pool.active| == max)
    {
      CapacityOf(max, steps[..n]);
    }
    AlwaysListed(max, steps);
  }

  lemma AlwaysListed(max: nat, steps: seq<Step>)
    ensures NeverClashes(max, steps) <==> forall n :: 0 <= n <= |steps| ==> AllListed(Run(max, steps[..n]))
  {
    if NeverClashes(max, steps) {
      forall n | 0 <= n <= |steps|
        ensures AllListed(Run(max, steps[..n]))
      {
        ListedUpTo(max, steps, n);
      }
    } else {
      var n :| 0 <= n < |steps| && Clashes(Run(max, steps[..n]), steps[n]);
      assert steps[..n + 1][..n] == steps[..n];
      ClashLosesEntry(Run(max, steps[..n]), max, steps[n]);
      assert !AllListed(Run(max, steps[..n + 1]));
    }
  }

  lemma {:induction false} ListedUpTo(max: nat, steps: seq<Step>, n: nat)
    requires n <= |steps| && forall k :: 0 <= k < n ==> !Clashes(Run(max, steps[..k]), steps[k])
    ensures AllListed(Run(max, steps[..n]))
  {
    if n == 0 {
    } else {
      ListedUpTo(max, steps, n - 1);
      assert steps[..n][..n - 1] == steps[..n - 1];
      StepKeepsListed(Run(max, steps[..n - 1]), max, steps[n - 1]);
    }
  }

  /** Two jobs under one id: when the first ends, the second still runs and holds a permit, but
      the table is empty and shows a capacity of two where one permit is left. */
  lemma SharedIdHidesJob(id: JobId)
    ensures var s1 := Next(Idle(2), 2, Submit(0, id));
      var s2 := Next(s1, 2, Submit(1, id));
      var s3 := Next(s2, 2, Start(0));
      var s4 := Next(s3, 2, Start(1));
      var s5 := Next(s4, 2, Resume(0, EndOfStream));
      IsRunning(s5, 1) && s5.active == map[] && s5.sem.free == 1
  {
  }

  // ----- admission -----

  /** Unless ids have clashed, a job whose start follows its submission at once runs at once exactly
      when it is admitted and nobody is in line before it, with or without a permit. */
  lemma AdmittedStartsAtOnce(max: nat, steps: seq<Step>, run: RunId, id: JobId)
    requires var pool := Run(max, steps); AllListed(pool) && run !in pool.jobs
    ensures var before := Run(max, steps); var pool := Next(before, max, Submit(run, id));
      IsRunning(Next(pool, max, Start(run)), run) <==>
        run in pool.jobs && before.sem.queue == [] && before.sem.granted == {}
  {
    CapacityOf(max, steps);
  }

  /** `submit` queues nobody itself, yet of two jobs admitted before either starts, one waits. */
  lemma AdmittedMayWait(a: JobId, b: JobId)
    ensures var s1 := Next(Idle(1), 1, Submit(0, a));
      var s2 := Next(s1, 1, Submit(1, b));
      var s3 := Next(s2, 1, Start(0));
      var s4 := Next(s3, 1, Start(1));
      IsRunning(s4, 0) && InPhase(s4, 1, InLine)
  {
  }

  /** And a job is admitted to an empty table but waits, because the permit that came free belongs
      to a waiter that has not resumed: neither free nor active accounts for it. */
  lemma AdmittedBehindWaiter(a: JobId, b: JobId, c: JobId)
    ensures var s1 := Next(Idle(1), 1, Submit(0, a));
      var s2 := Next(s1, 1, Submit(1, b));
      var s3 := Next(s2, 1, Start(0));
      var s4 := Next(s3, 1, Start(1));
      var s5 := Next(s4, 1, Resume(0, EndOfStream));
      var s6 := Next(s5, 1, Submit(2, c));
      var s7 := Next(s6, 1, Start(2));
      s5.sem.free == 0 && s5.active == map[] && s5.sem.granted == {1} && InPhase(s6, 2, Admitted)
        && InPhase(s7, 2, InLine)
  {
  }

  predicate Attended(sem: Semaphore)
  {
    sem.queue != [] ==> sem.free == 0 || sem.granted != {}
  }

  /** No wake-up is lost: while anyone waits without a permit, either none is free, or a waiter
      that has one is about to resume, and passes on what is free when it does. */
  lemma {:induction false} NobodyIsForgotten(max: nat, steps: seq<Step>)
    ensures Attended(Run(max, steps).sem)
  {
    if steps == [] {
    } else {
      NobodyIsForgotten(max, steps[..|steps| - 1]);
      PermitsAreConserved(max, steps[..|steps| - 1]);
      StepAttends(Run(max, steps[..|steps| - 1]), max, steps[|steps| - 1]);
    }
  }

  lemma StepAttends(pool: Pool, max: nat, step: Step)
    requires pool.sem.free >= 0 && Attended(pool.sem)
    ensures Attended(Next(pool, max, step).sem)
  {
    match step
    case Start(run) => assert pool.sem.Locked() ==> Attended(pool.sem.Joined(run));
    case Wake(run) => assert Attended(pool.sem.Resumed(run));
    case Resume(run, event) => assert Attended(pool.sem.Release());
    case Abandon(run) => assert Attended(pool.sem.Left(run));
    case _ =>
  }

  // ----- the order in which permits go out -----

  /** The job has begun to ask for a permit. */
  predicate Asked(pool: Pool, run: RunId)
  {
    run in pool.jobs && !pool.jobs[run].phase.Admitted?
  }

  /** The job has been handed a permit, whether it has resumed by now or not. */
  predicate HandedPermit(pool: Pool, run: RunId)
  {
    Asked(pool, run) && run !in pool.sem.queue
  }

  /** At this step the job finds the semaphore locked and joins the line. */
  predicate JoinsLine(max: nat, steps: seq<Step>, n: nat, run: RunId)
    requires n < |steps|
  {
    steps[n] == Start(run) && InPhase(Run(max, steps[..n]), run, Admitted) && Run(max, steps[..n]).sem.Locked()
  }

  ghost predicate Ahead(queue: seq<RunId>, a: RunId, b: RunId)
  {
    exists i, k :: 0 <= i < k < |queue| && queue[i] == a && queue[k] == b
  }

  /** Both jobs have asked, and while `a` is in line `b` is behind it. */
  ghost predicate InTurn(pool: Pool, a: RunId, b: RunId)
  {
    Asked(pool, a) && Asked(pool, b) && (a in pool.sem.queue ==> Ahead(pool.sem.queue, a, b))
  }

  lemma AheadOfNewcomer(queue: seq<RunId>, a: RunId, b: RunId, run: RunId)
    requires Ahead(queue, a, b)
    ensures Ahead(queue + [run], a, b)
  {
    var i, k :| 0 <= i < k < |queue| && queue[i] == a && queue[k] == b;
    assert (queue + [run])[i] == a && (queue + [run])[k] == b;
  }

  /** Whoever is served next was not behind anyone. */
  lemma AheadAfterFirst(queue: seq<RunId>, a: RunId, b: RunId)
    requires Distinct(queue) && Ahead(queue, a, b)
    ensures a in queue[1..] ==> Ahead(queue[1..], a, b)
  {
    var i, k :| 0 <= i < k < |queue| && queue[i] == a && queue[k] == b;
    if i > 0 {
      assert queue[1..][i - 1] == a && queue[1..][k - 1] == b;
    }
  }

  lemma {:induction false} AheadWithout(queue: seq<RunId>, a: RunId, b: RunId, run: RunId)
    requires Ahead(queue, a, b) && run != a && run != b
    ensures Ahead(Without(queue, run), a, b)
  {
    var i, k :| 0 <= i < k < |queue| && queue[i] == a && queue[k] == b;
    if queue[0] == run {
      assert queue[1..][i - 1] == a && queue[1..][k - 1] == b;
    } else if i == 0 {
      StaysWithout(queue[1..], b, run);
      var m :| 0 <= m < |Without(queue[1..], run)| && Without(queue[1..], run)[m] == b;
      assert Without(queue, run)[0] == a && Without(queue, run)[m + 1] == b;
    } else {
      assert queue[1..][i - 1] == a && queue[1..][k - 1] == b;
      AheadWithout(queue[1..], a, b, run);
      var u, v :| 0 <= u < v < |Without(queue[1..], run)|
        && Without(queue[1..], run)[u] == a && Without(queue[1..], run)[v] == b;
      assert Without(queue, run)[u + 1] == a && Without(queue, run)[v + 1] == b;
    }
  }

  lemma {:induction false} StaysWithout(queue: seq<RunId>, b: RunId, run: RunId)
    requires b in queue && run != b
    ensures b in Without(queue, run)
  {
    if queue[0] == run || queue[0] == b {
    } else {
      StaysWithout(queue[1..], b, run);
    }
  }

  lemma PassOnKeepsTurn(sem: Semaphore, a: RunId, b: RunId)
    requires Distinct(sem.queue) && (a in sem.queue ==> Ahead(sem.queue, a, b))
    ensures a in sem.PassOn().queue ==> Ahead(sem.PassOn().queue, a, b)
  {
    if a in sem.PassOn().queue {
      assert a in sem.queue;
      if sem.queue != [] {
        AheadAfterFirst(sem.queue, a, b);
      }
    }
  }

  lemma LeftKeepsTurn(sem: Semaphore, run: RunId, a: RunId, b: RunId)
    requires Orderly(sem) && run != a && run != b && (a in sem.queue ==> Ahead(sem.queue, a, b))
    ensures a in sem.Left(run).queue ==> Ahead(sem.Left(run).queue, a, b)
  {
    if run in sem.granted {
      PassOnKeepsTurn(sem.(granted := sem.granted - {run}, free := sem.free + 1), a, b);
    } else {
      WithoutIs(sem.queue, run);
      if a in sem.queue {
        AheadWithout(sem.queue, a, b, run);
      }
    }
  }

  lemma StepKeepsTurn(pool: Pool, max: nat, step: Step, a: RunId, b: RunId)
    requires InOrder(pool) && InTurn(pool, a, b) && step != Abandon(a) && step != Abandon(b)
    ensures InTurn(Next(pool, max, step), a, b)
  {
    var sem := pool.sem;
    match step
    case Submit(run, id) =>
    case Start(run) =>
      if InPhase(pool, run, Admitted) && sem.Locked() && a in sem.queue {
        AheadOfNewcomer(sem.queue, a, b, run);
      }
    case Wake(run) =>
      PassOnKeepsTurn(sem.(granted := sem.granted - {run}), a, b);
    case Resume(run, event) =>
      PassOnKeepsTurn(sem.(free := sem.free + 1), a, b);
    case Abandon(run) =>
      LeftKeepsTurn(sem, run, a, b);
  }

  lemma {:induction false} TurnIsKept(max: nat, steps: seq<Step>, n: nat, a: RunId, b: RunId)
    requires n <= |steps| && InTurn(Run(max, steps[..n]), a, b)
    requires forall k :: n <= k < |steps| ==> steps[k] != Abandon(a) && steps[k] != Abandon(b)
    ensures InTurn(Run(max, steps), a, b)
    decreases |steps|
  {
    if n == |steps| {
      assert steps[..n] == steps;
    } else {
      var earlier := steps[..|steps| - 1];
      assert earlier[..n] == steps[..n];
      TurnIsKept(max, earlier, n, a, b);
      PermitsAreConserved(max, earlier);
      StepKeepsTurn(Run(max, earlier), max, steps[|steps| - 1], a, b);
    }
  }

  lemma StepKeepsAsked(pool: Pool, max: nat, step: Step, run: RunId)
    requires Asked(pool, run)
    ensures Asked(Next(pool, max, step), run)
  {
  }

  lemma {:induction false} AskedForGood(max: nat, steps: seq<Step>, n: nat, run: RunId)
    requires n <= |steps| && Asked(Run(max, steps[..n]), run)
    ensures Asked(Run(max, steps), run)
    decreases |steps|
  {
    if n == |steps| {
      assert steps[..n] == steps;
    } else {
      var earlier := steps[..|steps| - 1];
      assert earlier[..n] == steps[..n];
      AskedForGood(max, earlier, n, run);
      StepKeepsAsked(Run(max, earlier), max, steps[|steps| - 1], run);
    }
  }

  lemma JoiningTakesTurn(pool: Pool, max: nat, a: RunId, b: RunId)
    requires Asked(pool, a) && InPhase(pool, b, Admitted) && pool.sem.Locked()
    ensures InTurn(Next(pool, max, Start(b)), a, b)
  {
    var queue := pool.sem.queue;
    if a in queue {
      var i :| 0 <= i < |queue| && queue[i] == a;
      assert (queue + [b])[i] == a && (queue + [b])[|queue|] == b;
    }
  }

  lemma RunStep(max: nat, steps: seq<Step>, n: nat)
    requires n < |steps|
    ensures Run(max, steps[..n + 1]) == Next(Run(max, steps[..n]), max, steps[n])
  {
    assert steps[..n + 1][..n] == steps[..n];
  }

  lemma AskedWhenJoined(pool: Pool, max: nat, run: RunId)
    requires InPhase(pool, run, Admitted) && pool.sem.Locked()
    ensures Asked(Next(pool, max, Start(run)), run)
  {
  }

  lemma SecondTakesTurn(max: nat, steps: seq<Step>, m: nat, n: nat, a: RunId, b: RunId)
    requires m < n < |steps| && JoinsLine(max, steps, m, a) && JoinsLine(max, steps, n, b)
    ensures InTurn(Run(max, steps[..n + 1]), a, b)
  {
    AskedWhenJoined(Run(max, steps[..m]), max, a);
    RunStep(max, steps, m);
    assert steps[..n][..m + 1] == steps[..m + 1];
    AskedForGood(max, steps[..n], m + 1, a);
    JoiningTakesTurn(Run(max, steps[..n]), max, a, b);
    RunStep(max, steps, n);
  }

  lemma TurnMeans(pool: Pool, a: RunId, b: RunId)
    requires InTurn(pool, a, b)
    ensures HandedPermit(pool, b) ==> HandedPermit(pool, a)
  {
  }

  /** In every state of every run: of two jobs that joined the line and are not cancelled in it, the
      one that joined later has no permit before the other has been handed one. */
  lemma FirstComeFirstServed(max: nat, steps: seq<Step>, m: nat, n: nat, a: RunId, b: RunId)
    requires m < n < |steps| && JoinsLine(max, steps, m, a) && JoinsLine(max, steps, n, b)
    requires forall k :: n < k < |steps| ==> steps[k] != Abandon(a) && steps[k] != Abandon(b)
    ensures HandedPermit(Run(max, steps), b) ==> HandedPermit(Run(max, steps), a)
  {
    SecondTakesTurn(max, steps, m, n, a, b);
    TurnIsKept(max, steps, n + 1, a, b);
    TurnMeans(Run(max, steps), a, b);
  }

  // ----- which timeout -----

  /** Some step handed the consumer a chunk of this job. */
  predicate Delivered(max: nat, steps: seq<Step>, run: RunId)
  {
    && steps != []
    && var earlier := steps[..|steps| - 1];
      Delivered(max, earlier, run) || (steps[|steps| - 1] == Resume(run, Chunk) && IsRunning(Run(max, earlier), run))
  }

  /** A job that runs out of time is recorded as idle exactly when some chunk of it was delivered
      before, and as having had no first byte otherwise. */
  lemma TimeoutTellsFirstByte(max: nat, steps: seq<Step>, run: RunId)
    requires IsRunning(Run(max, steps), run)
    ensures var pool := Run(max, steps); var id := pool.jobs[run].id;
      var after := Next(pool, max, Resume(run, OutOfTime)).status[id];
      && (after == IdleTimeout <==> Delivered(max, steps, run))
      && (after == IdleTimeout || after == FirstByteTimeout)
  {
    FirstByteSeenMeans(max, steps, run);
  }

  lemma {:induction false} FirstByteSeenMeans(max: nat, steps: seq<Step>, run: RunId)
    ensures Unseen(Run(max, steps), run) ==> !Delivered(max, steps, run)
    ensures Seen(Run(max, steps), run) ==> Delivered(max, steps, run)
  {
    if steps == [] {
    } else {
      FirstByteSeenMeans(max, steps[..|steps| - 1], run);
      ChunkIsSeen(Run(max, steps[..|steps| - 1]), max, steps[|steps| - 1], run);
    }
  }

  predicate Seen(pool: Pool, run: RunId)
  {
    IsRunning(pool, run) && pool.jobs[run].phase.firstByteSeen
  }

  /** The job has not started, or has started and is still on its first-byte budget. */
  predicate Unseen(pool: Pool, run: RunId)
  {
    run in pool.jobs ==>
      pool.jobs[run].phase.Admitted? || pool.jobs[run].phase.InLine?
        || (IsRunning(pool, run) && !pool.jobs[run].phase.firstByteSeen)
  }

  lemma ChunkIsSeen(pool: Pool, max: nat, step: Step, run: RunId)
    ensures Unseen(Next(pool, max, step), run) ==>
      Unseen(pool, run) && !(step == Resume(run, Chunk) && IsRunning(pool, run))
    ensures Seen(Next(pool, max, step), run) ==> Seen(pool, run) || (step == Resume(run, Chunk) && IsRunning(pool, run))
  {
  }
}
