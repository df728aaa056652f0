/** The bounded pool of heavy blocking jobs: admission slots, running slots, cancellation and
    shutdown, as the interleaved steps of every `run` call and every blocking closure. */
module HeavyWork {
  import opened Common

  type JobId = nat
  type Value = int

  const USIZE_MAX: nat := 0xFFFF_FFFF_FFFF_FFFF

  datatype Limits = Limits(running: nat, queued: nat)

  function Capacity(limits: Limits): nat {
    if limits.running + limits.queued <= USIZE_MAX then limits.running + limits.queued else USIZE_MAX
  }

  datatype Outcome = Delivered(value: Value) | Cancelled | Failed | Overloaded

  /** A job past admission. `Returned` keeps what the closure left: a value, nothing because it
      found its token cancelled, or a panic. */
  datatype Phase =
    | Queued
    | Spawned
    | Executing
    | Returned(left: Option<Value>, panicked: bool)

  /** `awaited`: the request still waits; `dropped`: its cancellation guard fired. */
  datatype Job = Job(phase: Phase, awaited: bool, dropped: bool)

  /** `used`: every call has an identity of its own. */
  datatype Pool = Pool(
    limits: Limits,
    freeAdmitted: nat,
    freeRunning: nat,
    shutdown: bool,
    used: set<JobId>,
    jobs: map<JobId, Job>,
    outcomes: map<JobId, Outcome>)

  predicate TokenCancelled(pool: Pool, job: Job) {
    pool.shutdown || job.dropped
  }

  predicate HoldsAdmitted(job: Job) { !job.phase.Returned? }
  predicate HoldsRunning(job: Job) { job.phase.Spawned? || job.phase.Executing? }

  function AdmittedJobs(jobs: map<JobId, Job>): set<JobId> {
    set id | id in jobs && HoldsAdmitted(jobs[id])
  }

  function RunningJobs(jobs: map<JobId, Job>): set<JobId> {
    set id | id in jobs && HoldsRunning(jobs[id])
  }

  function ExecutingJobs(jobs: map<JobId, Job>): set<JobId> {
    set id | id in jobs && jobs[id].phase.Executing?
  }

  /** Running plus queued jobs, cancelled ones included until their closure returns. */
  function ActiveJobs(pool: Pool): nat {
    if Capacity(pool.limits) < pool.freeAdmitted then 0 else Capacity(pool.limits) - pool.freeAdmitted
  }

  function New(limits: Limits): Pool {
    Pool(limits, Capacity(limits), limits.running, false, {}, map[], map[])
  }

  datatype Step =
    | Call(id: JobId)                                              // `run` up to its first wait
    | TakeRunning(id: JobId)                                       // a running slot is granted and the closure spawned
    | SeeCancelled(id: JobId)                                      // the token won the wait for a running slot
    | StartClosure(id: JobId)
    | ReturnClosure(id: JobId, value: Value, panicked: bool)       // both slots are dropped
    | Answer(id: JobId)                                            // the request sees the closure's result
    | DropRequest(id: JobId)                                       // the future is dropped at an await
    | Shutdown

  function With(pool: Pool, id: JobId, job: Job): Pool {
    pool.(jobs := pool.jobs[id := job])
  }

  function Finish(pool: Pool, id: JobId, outcome: Outcome): Pool {
    pool.(jobs := pool.jobs - {id}, outcomes := pool.outcomes[id := outcome])
  }

  predicate Enabled(pool: Pool, step: Step) {
    match step
    case Call(id) => id !in pool.used
    case TakeRunning(id) =>
      && id in pool.jobs && pool.jobs[id].phase.Queued? && pool.jobs[id].awaited
      && pool.freeRunning > 0 && !TokenCancelled(pool, pool.jobs[id])
    case SeeCancelled(id) =>
      && id in pool.jobs && pool.jobs[id].phase.Queued? && pool.jobs[id].awaited && TokenCancelled(pool, pool.jobs[id])
    case StartClosure(id) => id in pool.jobs && pool.jobs[id].phase.Spawned?
    case ReturnClosure(id, _, _) => id in pool.jobs && pool.jobs[id].phase.Executing?
    case Answer(id) => id in pool.jobs && pool.jobs[id].phase.Returned? && pool.jobs[id].awaited
    case DropRequest(id) => id in pool.jobs && pool.jobs[id].awaited
    case Shutdown => true
  }

  /** The closure left the thread: its slots come back, and nobody keeps an abandoned job. */
  function Returning(pool: Pool, id: JobId, left: Option<Value>, panicked: bool): Pool
    requires id in pool.jobs
  {
    var job := pool.jobs[id];
    var freed := pool.(freeAdmitted := pool.freeAdmitted + 1, freeRunning := pool.freeRunning + 1);
    if job.awaited then With(freed, id, job.(phase := Returned(left, panicked)))
    else freed.(jobs := freed.jobs - {id})
  }

  function After(pool: Pool, step: Step): Pool
    requires Enabled(pool, step)
  {
    match step
    case Call(id) =>
      var called := pool.(used := pool.used + {id});
      if pool.freeAdmitted == 0 then called.(outcomes := pool.outcomes[id := Overloaded])
      else With(called.(freeAdmitted := pool.freeAdmitted - 1), id, Job(Queued, true, false))
    case TakeRunning(id) =>
      With(pool.(freeRunning := pool.freeRunning - 1), id, pool.jobs[id].(phase := Spawned))
    case SeeCancelled(id) => Finish(pool.(freeAdmitted := pool.freeAdmitted + 1), id, Cancelled)
    case StartClosure(id) =>
      if TokenCancelled(pool, pool.jobs[id]) then Returning(pool, id, None, false)
      else With(pool, id, pool.jobs[id].(phase := Executing))
    case ReturnClosure(id, value, panicked) =>
      Returning(pool, id, if panicked then None else Some(value), panicked)
    case Answer(id) =>
      var job := pool.jobs[id];
      Finish(pool, id,
             if job.phase.panicked then Failed
             else if job.phase.left.Some? && !TokenCancelled(pool, job) then Delivered(job.phase.left.value)
             else Cancelled)
    case DropRequest(id) =>
      var job := pool.jobs[id].(awaited := false, dropped := true);
      if job.phase.Queued? then pool.(freeAdmitted := pool.freeAdmitted + 1, jobs := pool.jobs - {id})
      else if job.phase.Returned? then pool.(jobs := pool.jobs - {id})
      else With(pool, id, job)
    case Shutdown => pool.(shutdown := true)
  }

  /** Free slots and holders always add up to the configured numbers. */
  ghost predicate Inv(pool: Pool) {
    && pool.freeAdmitted + |AdmittedJobs(pool.jobs)| == Capacity(pool.limits)
    && pool.freeRunning + |RunningJobs(pool.jobs)| == pool.limits.running
    && (forall id :: id in pool.jobs && !pool.jobs[id].awaited ==> HoldsRunning(pool.jobs[id]) && pool.jobs[id].dropped)
    && pool.jobs.Keys <= pool.used && pool.outcomes.Keys <= pool.used && pool.jobs.Keys !! pool.outcomes.Keys
  }

  function One(b: bool): nat { if b then 1 else 0 }

  predicate HadAdmitted(jobs: map<JobId, Job>, id: JobId) { id in jobs && HoldsAdmitted(jobs[id]) }
  predicate HadRunning(jobs: map<JobId, Job>, id: JobId) { id in jobs && HoldsRunning(jobs[id]) }

  lemma WithoutOne(s: set<JobId>, id: JobId)
    ensures |s - {id}| == |s| - One(id in s) && |s + {id}| == |s| + One(id !in s)
  {
    if id in s {
      assert s == (s - {id}) + {id} && s + {id} == s;
    } else {
      assert s - {id} == s;
    }
  }

  lemma CountsAfterRemoval(jobs: map<JobId, Job>, id: JobId)
    ensures |AdmittedJobs(jobs - {id})| == |AdmittedJobs(jobs)| - One(HadAdmitted(jobs, id))
    ensures |RunningJobs(jobs - {id})| == |RunningJobs(jobs)| - One(HadRunning(jobs, id))
  {
    assert AdmittedJobs(jobs - {id}) == AdmittedJobs(jobs) - {id};
    assert RunningJobs(jobs - {id}) == RunningJobs(jobs) - {id};
    WithoutOne(AdmittedJobs(jobs), id);
    WithoutOne(RunningJobs(jobs), id);
  }

  lemma CountsAfterUpdate(jobs: map<JobId, Job>, id: JobId, job: Job)
    ensures |AdmittedJobs(jobs[id := job])| == |AdmittedJobs(jobs)| - One(HadAdmitted(jobs, id)) + One(HoldsAdmitted(job))
    ensures |RunningJobs(jobs[id := job])| == |RunningJobs(jobs)| - One(HadRunning(jobs, id)) + One(HoldsRunning(job))
  {
    hide AdmittedJobs; hide RunningJobs;
    CountsAfterRemoval(jobs, id);
    CountsAfterRemoval(jobs[id := job], id);
    assert jobs[id := job] - {id} == jobs - {id};
  }

  lemma GrantKeepsInv(pool: Pool, step: Step)
    requires Inv(pool) && Enabled(pool, step) && (step.Call? || step.TakeRunning?)
    ensures Inv(After(pool, step))
  {
    hide AdmittedJobs; hide RunningJobs;
    CountsAfterUpdate(pool.jobs, step.id, if step.Call? then Job(Queued, true, false) else pool.jobs[step.id].(phase := Spawned));
  }

  lemma ReturningKeepsInv(pool: Pool, id: JobId, left: Option<Value>, panicked: bool)
    requires Inv(pool) && id in pool.jobs && HoldsRunning(pool.jobs[id])
    ensures Inv(Returning(pool, id, left, panicked))
  {
    hide AdmittedJobs; hide RunningJobs;
    CountsAfterUpdate(pool.jobs, id, pool.jobs[id].(phase := Returned(left, panicked)));
    CountsAfterRemoval(pool.jobs, id);
  }

  lemma ClosureKeepsInv(pool: Pool, step: Step)
    requires Inv(pool) && Enabled(pool, step) && (step.StartClosure? || step.ReturnClosure?)
    ensures Inv(After(pool, step))
  {
    hide AdmittedJobs; hide RunningJobs; hide Returning;
    var id := step.id;
    if step.ReturnClosure? {
      ReturningKeepsInv(pool, id, if step.panicked then None else Some(step.value), step.panicked);
    } else if TokenCancelled(pool, pool.jobs[id]) {
      ReturningKeepsInv(pool, id, None, false);
    } else {
      CountsAfterUpdate(pool.jobs, id, pool.jobs[id].(phase := Executing));
    }
  }

  lemma LeavingKeepsInv(pool: Pool, step: Step)
    requires Inv(pool) && Enabled(pool, step) && (step.SeeCancelled? || step.Answer? || step.DropRequest?)
    ensures Inv(After(pool, step))
  {
    hide AdmittedJobs; hide RunningJobs;
    CountsAfterRemoval(pool.jobs, step.id);
    CountsAfterUpdate(pool.jobs, step.id, pool.jobs[step.id].(awaited := false, dropped := true));
  }

  lemma StepKeepsInv(pool: Pool, step: Step)
    requires Inv(pool) && Enabled(pool, step)
    ensures Inv(After(pool, step)) && After(pool, step).limits == pool.limits
  {
    if step.Call? || step.TakeRunning? {
      GrantKeepsInv(pool, step);
    } else if step.StartClosure? || step.ReturnClosure? {
      ClosureKeepsInv(pool, step);
    } else if !step.Shutdown? {
      LeavingKeepsInv(pool, step);
    }
  }

  ghost predicate IsRun(pools: seq<Pool>, steps: seq<Step>, limits: Limits) {
    && |pools| == |steps| + 1 && pools[0] == New(limits)
    && forall i :: 0 <= i < |steps| ==> Enabled(pools[i], steps[i]) && pools[i + 1] == After(pools[i], steps[i])
  }

  lemma {:induction false} RunKeepsInv(pools: seq<Pool>, steps: seq<Step>, limits: Limits, n: nat)
    requires IsRun(pools, steps, limits) && n < |pools|
    ensures Inv(pools[n]) && pools[n].limits == limits
    decreases n
  {
    if n == 0 {
      assert AdmittedJobs(pools[0].jobs) == {} && RunningJobs(pools[0].jobs) == {};
    } else {
      RunKeepsInv(pools, steps, limits, n - 1);
      hide Inv; hide After;
      StepKeepsInv(pools[n - 1], steps[n - 1]);
    }
  }

  // ----- the main results -----

  /** In every interleaving: executing closures stay within `running`, admitted jobs within
      `running + queued`, every slot is either free or held by one job, the reported number of
      active jobs is the real one, and an abandoned closure holds both slots until it returns. */
  lemma SlotsAreNeverLost(pools: seq<Pool>, steps: seq<Step>, limits: Limits, n: nat)
    requires IsRun(pools, steps, limits) && n < |pools|
    ensures var pool := pools[n];
            && |ExecutingJobs(pool.jobs)| <= limits.running
            && |AdmittedJobs(pool.jobs)| <= limits.running + limits.queued
            && pool.freeRunning + |RunningJobs(pool.jobs)| == limits.running
            && pool.freeAdmitted + |AdmittedJobs(pool.jobs)| == Capacity(limits)
            && ActiveJobs(pool) == |AdmittedJobs(pool.jobs)|
            && forall id :: id in pool.jobs && !pool.jobs[id].awaited ==> id in AdmittedJobs(pool.jobs) && id in RunningJobs(pool.jobs)
  {
    RunKeepsInv(pools, steps, limits, n);
    SubsetSize(ExecutingJobs(pools[n].jobs), RunningJobs(pools[n].jobs));
  }

  /** A call is refused exactly while every slot is taken, and a refusal changes no slot. */
  lemma OverloadedExactlyWhenFull(pools: seq<Pool>, steps: seq<Step>, limits: Limits, n: nat)
    requires IsRun(pools, steps, limits) && n < |steps| && steps[n].Call?
    ensures var id := steps[n].id;
            && (id in pools[n + 1].outcomes <==> |AdmittedJobs(pools[n].jobs)| == Capacity(limits))
            && (id in pools[n + 1].outcomes ==>
                  pools[n + 1] == pools[n].(used := pools[n].used + {id}, outcomes := pools[n].outcomes[id := Overloaded]))
  {
    RunKeepsInv(pools, steps, limits, n);
  }

  lemma {:induction false} ShutdownStays(pools: seq<Pool>, steps: seq<Step>, limits: Limits, i: nat, n: nat)
    requires IsRun(pools, steps, limits) && i <= n < |pools| && pools[i].shutdown
    ensures pools[n].shutdown
    decreases n
  {
    if i < n {
      ShutdownStays(pools, steps, limits, i, n - 1);
    }
  }

  /** An outcome is final. */
  lemma OutcomeStays(pool: Pool, step: Step, id: JobId)
    requires Inv(pool) && Enabled(pool, step) && id in pool.outcomes
    ensures id in After(pool, step).outcomes && After(pool, step).outcomes[id] == pool.outcomes[id]
  {}

  lemma NoStepStartsOrDelivers(pool: Pool, step: Step)
    requires Inv(pool) && Enabled(pool, step) && pool.shutdown
    ensures ExecutingJobs(After(pool, step).jobs) <= ExecutingJobs(pool.jobs)
    ensures forall id :: id in After(pool, step).outcomes && After(pool, step).outcomes[id].Delivered? ==>
              id in pool.outcomes && pool.outcomes[id] == After(pool, step).outcomes[id]
  {}

  /** From shutdown on no closure starts its work and no value is delivered any more: whatever
      executes or was delivered at any later moment did or was so at the shutdown. */
  lemma {:induction false} NothingAfterShutdown(pools: seq<Pool>, steps: seq<Step>, limits: Limits, i: nat, n: nat)
    requires IsRun(pools, steps, limits) && i <= n < |pools| && pools[i].shutdown
    ensures ExecutingJobs(pools[n].jobs) <= ExecutingJobs(pools[i].jobs)
    ensures forall id :: id in pools[n].outcomes && pools[n].outcomes[id].Delivered? ==>
              id in pools[i].outcomes && pools[i].outcomes[id] == pools[n].outcomes[id]
    decreases n
  {
    hide After; hide Inv; hide Enabled; hide ExecutingJobs;
    if i < n {
      NothingAfterShutdown(pools, steps, limits, i, n - 1);
      ShutdownStays(pools, steps, limits, i, n - 1);
      RunKeepsInv(pools, steps, limits, n - 1);
      NoStepStartsOrDelivers(pools[n - 1], steps[n - 1]);
    }
  }

  /** The request of a called job no longer waits, and it has no outcome. */
  predicate Gone(pool: Pool, id: JobId) {
    id in pool.used && id !in pool.outcomes && (id in pool.jobs ==> !pool.jobs[id].awaited)
  }

  lemma GoneStaysGone(pool: Pool, step: Step, id: JobId)
    requires Inv(pool) && Enabled(pool, step)
    requires Gone(pool, id) || step == DropRequest(id)
    ensures Gone(After(pool, step), id)
  {}

  /** In every run, a request whose future was dropped never gets an outcome, let alone a value. */
  lemma {:induction false} DroppedRequestsGetNothing(pools: seq<Pool>, steps: seq<Step>, limits: Limits, i: nat, n: nat, id: JobId)
    requires IsRun(pools, steps, limits) && i < n < |pools| && steps[i] == DropRequest(id)
    ensures id !in pools[n].outcomes && Gone(pools[n], id)
    decreases n
  {
    hide After; hide Inv; hide Enabled;
    RunKeepsInv(pools, steps, limits, n - 1);
    if i < n - 1 {
      DroppedRequestsGetNothing(pools, steps, limits, i, n - 1, id);
    }
    GoneStaysGone(pools[n - 1], steps[n - 1], id);
  }

  // ----- what a request gets is decided by what happened to its job -----

  predicate IsReturn(step: Step, id: JobId) { step.ReturnClosure? && step.id == id }

  ghost predicate AnyReturn(steps: seq<Step>, n: nat, id: JobId) {
    exists k :: 0 <= k < n && k < |steps| && IsReturn(steps[k], id)
  }

  /** The job's closure panicked before. */
  ghost predicate PanickedBefore(steps: seq<Step>, n: nat, id: JobId) {
    exists k :: 0 <= k < n && k < |steps| && IsReturn(steps[k], id) && steps[k].panicked
  }

  ghost predicate ShutBefore(steps: seq<Step>, n: nat) {
    exists k :: 0 <= k < n && k < |steps| && steps[k] == Shutdown
  }

  /** A job keeps what its closure left, and nothing as long as the closure did not run. */
  ghost predicate Remembers(steps: seq<Step>, n: nat, id: JobId, job: Job) {
    && (job.awaited ==> !job.dropped)
    && (!job.phase.Returned? ==> !AnyReturn(steps, n, id))
    && (job.phase.Returned? && (job.phase.left.Some? || job.phase.panicked) ==> AnyReturn(steps, n, id))
    && (job.phase.Returned? ==> forall k :: 0 <= k < n && k < |steps| && IsReturn(steps[k], id) ==>
          && job.phase.panicked == steps[k].panicked
          && job.phase.left == if steps[k].panicked then None else Some(steps[k].value))
  }

  ghost predicate AllRemember(pool: Pool, steps: seq<Step>, n: nat) {
    && (forall id :: id in pool.jobs ==> Remembers(steps, n, id, pool.jobs[id]))
    && (forall id :: id !in pool.used ==> !AnyReturn(steps, n, id))
    && (pool.shutdown <==> ShutBefore(steps, n))
  }

  lemma ReturnsNext(steps: seq<Step>, n: nat, id: JobId)
    requires n < |steps|
    ensures AnyReturn(steps, n + 1, id) <==> AnyReturn(steps, n, id) || IsReturn(steps[n], id)
    ensures ShutBefore(steps, n + 1) <==> ShutBefore(steps, n) || steps[n] == Shutdown
  {
    if AnyReturn(steps, n, id) {
      var k :| 0 <= k < n && k < |steps| && IsReturn(steps[k], id);
      assert IsReturn(steps[k], id);
    }
    if ShutBefore(steps, n) {
      var k :| 0 <= k < n && k < |steps| && steps[k] == Shutdown;
      assert steps[k] == Shutdown;
    }
  }

  lemma StepRemembers(pool: Pool, steps: seq<Step>, n: nat, id: JobId)
    requires Inv(pool) && n < |steps| && Enabled(pool, steps[n]) && AllRemember(pool, steps, n)
    ensures id in After(pool, steps[n]).jobs ==> Remembers(steps, n + 1, id, After(pool, steps[n]).jobs[id])
    ensures id !in After(pool, steps[n]).used ==> !AnyReturn(steps, n + 1, id)
    ensures After(pool, steps[n]).shutdown <==> ShutBefore(steps, n + 1)
  {
    hide AnyReturn, ShutBefore, AdmittedJobs, RunningJobs;
    ReturnsNext(steps, n, id);
    NoReturnsYet(steps, n, id);
  }

  lemma NoReturnsYet(steps: seq<Step>, n: nat, id: JobId)
    ensures !AnyReturn(steps, n, id) ==> forall k :: 0 <= k < n && k < |steps| ==> !IsReturn(steps[k], id)
  {}

  lemma {:induction false} RunRemembers(pools: seq<Pool>, steps: seq<Step>, limits: Limits, n: nat)
    requires IsRun(pools, steps, limits) && n < |pools|
    ensures AllRemember(pools[n], steps, n)
    decreases n
  {
    if n > 0 {
      hide After, Inv, Enabled, Remembers, AnyReturn, ShutBefore;
      RunRemembers(pools, steps, limits, n - 1);
      RunKeepsInv(pools, steps, limits, n - 1);
      forall id
        ensures id in pools[n].jobs ==> Remembers(steps, n, id, pools[n].jobs[id])
        ensures id !in pools[n].used ==> !AnyReturn(steps, n, id)
        ensures pools[n].shutdown <==> ShutBefore(steps, n)
      {
        StepRemembers(pools[n - 1], steps, n - 1, id);
      }
      var none: JobId := 0;
      StepRemembers(pools[n - 1], steps, n - 1, none);
    }
  }

  /** In every run: a request that sees its closure's result gets the returned value exactly if the closure returned it
      and nothing was shut down before, a failure exactly if the closure panicked, and is cancelled otherwise. */
  lemma AnsweredIff(pools: seq<Pool>, steps: seq<Step>, limits: Limits, n: nat, id: JobId, value: Value)
    requires IsRun(pools, steps, limits) && n < |steps| && steps[n] == Answer(id)
    ensures id in pools[n + 1].outcomes
    ensures var outcome := pools[n + 1].outcomes[id];
      && (outcome == Delivered(value) <==> ReturnedBefore(steps, n, id, value) && !ShutBefore(steps, n))
      && (outcome == Failed <==> PanickedBefore(steps, n, id))
      && (outcome == Cancelled <==> !PanickedBefore(steps, n, id) && (AnyReturn(steps, n, id) ==> ShutBefore(steps, n)))
  {
    hide ShutBefore, Inv;
    RunRemembers(pools, steps, limits, n);
    AnsweredWaits(pools[n], id);
    assert Remembers(steps, n, id, pools[n].jobs[id]);
  }

  /** Whatever else ends a request: it is refused, or it was queued and the server shut down before a slot was free. */
  lemma UnansweredIff(pools: seq<Pool>, steps: seq<Step>, limits: Limits, n: nat, id: JobId)
    requires IsRun(pools, steps, limits) && n < |steps| && id !in pools[n].outcomes && steps[n] != Answer(id)
    ensures id in pools[n + 1].outcomes <==>
              || (steps[n] == Call(id) && pools[n].freeAdmitted == 0)
              || steps[n] == SeeCancelled(id)
    ensures steps[n] == Call(id) && id in pools[n + 1].outcomes ==> pools[n + 1].outcomes[id] == Overloaded
    ensures steps[n] == SeeCancelled(id) ==> pools[n + 1].outcomes[id] == Cancelled && ShutBefore(steps, n)
  {
    hide Inv, Remembers, ShutBefore;
    RunRemembers(pools, steps, limits, n);
    if steps[n] == SeeCancelled(id) {
      RemembersDrops(steps, n, id, pools[n].jobs[id]);
    }
  }

  lemma RemembersDrops(steps: seq<Step>, n: nat, id: JobId, job: Job)
    requires Remembers(steps, n, id, job) && job.awaited
    ensures !job.dropped
  {}

  ghost predicate DroppedBefore(steps: seq<Step>, n: nat, id: JobId) {
    exists k :: 0 <= k < n && k < |steps| && steps[k] == DropRequest(id)
  }

  ghost predicate KnowsDrops(pool: Pool, steps: seq<Step>, n: nat, id: JobId) {
    && (id in pool.jobs ==> (pool.jobs[id].dropped <==> DroppedBefore(steps, n, id)))
    && (id !in pool.used ==> !DroppedBefore(steps, n, id))
  }

  lemma DropsNext(steps: seq<Step>, n: nat, id: JobId)
    requires n < |steps|
    ensures DroppedBefore(steps, n + 1, id) <==> DroppedBefore(steps, n, id) || steps[n] == DropRequest(id)
  {
    if DroppedBefore(steps, n, id) {
      var k :| 0 <= k < n && k < |steps| && steps[k] == DropRequest(id);
      assert steps[k] == DropRequest(id);
    }
  }

  lemma StepKnowsDrops(pool: Pool, steps: seq<Step>, n: nat, id: JobId)
    requires Inv(pool) && n < |steps| && Enabled(pool, steps[n]) && KnowsDrops(pool, steps, n, id)
    ensures KnowsDrops(After(pool, steps[n]), steps, n + 1, id)
  {
    hide DroppedBefore, AdmittedJobs, RunningJobs;
    DropsNext(steps, n, id);
  }

  lemma {:induction false} RunKnowsDrops(pools: seq<Pool>, steps: seq<Step>, limits: Limits, n: nat, id: JobId)
    requires IsRun(pools, steps, limits) && n < |pools|
    ensures KnowsDrops(pools[n], steps, n, id)
    decreases n
  {
    if n > 0 {
      hide After, Inv, Enabled, KnowsDrops;
      RunKnowsDrops(pools, steps, limits, n - 1, id);
      RunKeepsInv(pools, steps, limits, n - 1);
      StepKnowsDrops(pools[n - 1], steps, n - 1, id);
    }
  }

  /** A closure that is scheduled does its work exactly if neither the server was shut down nor the request dropped before;
      it runs then until it returns, whatever happens meanwhile. */
  lemma StartsIff(pools: seq<Pool>, steps: seq<Step>, limits: Limits, n: nat, id: JobId)
    requires IsRun(pools, steps, limits) && n < |steps| && steps[n] == StartClosure(id)
    ensures id in ExecutingJobs(pools[n + 1].jobs) <==> !ShutBefore(steps, n) && !DroppedBefore(steps, n, id)
  {
    hide Inv, ShutBefore, DroppedBefore, Remembers;
    RunRemembers(pools, steps, limits, n);
    RunKnowsDrops(pools, steps, limits, n, id);
  }

  /** A running slot is granted only while one is free, and never to a request that was dropped or after a shutdown. */
  lemma GrantedInTime(pools: seq<Pool>, steps: seq<Step>, limits: Limits, n: nat, id: JobId)
    requires IsRun(pools, steps, limits) && n < |steps| && steps[n] == TakeRunning(id)
    ensures !ShutBefore(steps, n) && !DroppedBefore(steps, n, id) && |RunningJobs(pools[n].jobs)| < limits.running
  {
    hide ShutBefore, DroppedBefore, Remembers;
    RunKeepsInv(pools, steps, limits, n);
    RunRemembers(pools, steps, limits, n);
    RunKnowsDrops(pools, steps, limits, n, id);
  }

  lemma ExecutingUntilReturn(pool: Pool, step: Step, id: JobId)
    requires Inv(pool) && Enabled(pool, step) && id in ExecutingJobs(pool.jobs)
    ensures id in ExecutingJobs(After(pool, step).jobs) <==> !IsReturn(step, id)
  {}

  // ----- nobody is stuck -----

  /** The steps of jobs that are under way, none of which waits for a new call, a dropped request or a shutdown. */
  predicate MovesJob(step: Step) {
    step.TakeRunning? || step.SeeCancelled? || step.StartClosure? || step.ReturnClosure? || step.Answer?
  }

  function Rank(phase: Phase): nat {
    match phase case Queued => 4 case Spawned => 3 case Executing => 2 case Returned(_, _) => 1
  }

  /** While any job is left, some job can move on. */
  lemma NobodyIsStuck(pools: seq<Pool>, steps: seq<Step>, limits: Limits, n: nat) returns (step: Step)
    requires IsRun(pools, steps, limits) && n < |pools| && limits.running > 0 && pools[n].jobs != map[]
    ensures MovesJob(step) && Enabled(pools[n], step)
  {
    RunKeepsInv(pools, steps, limits, n);
    var pool := pools[n];
    var id :| id in pool.jobs;
    if RunningJobs(pool.jobs) != {} {
      var busy :| busy in RunningJobs(pool.jobs);
      step := if pool.jobs[busy].phase.Spawned? then StartClosure(busy) else ReturnClosure(busy, 0, false);
    } else {
      assert id !in RunningJobs(pool.jobs);
      step := if pool.jobs[id].phase.Returned? then Answer(id)
              else if TokenCancelled(pool, pool.jobs[id]) then SeeCancelled(id)
              else TakeRunning(id);
    }
  }

  /** Each such step brings one job closer to its end and leaves all others where they are. */
  lemma JobsMoveOn(pool: Pool, step: Step)
    requires MovesJob(step) && Enabled(pool, step)
    ensures step.id in pool.jobs && After(pool, step).jobs - {step.id} == pool.jobs - {step.id}
    ensures step.id in After(pool, step).jobs ==>
              Rank(After(pool, step).jobs[step.id].phase) < Rank(pool.jobs[step.id].phase)
  {}

  /** The job's closure returned the value before. */
  ghost predicate ReturnedBefore(steps: seq<Step>, n: nat, id: JobId, value: Value) {
    exists k :: 0 <= k < n && k < |steps| && steps[k] == ReturnClosure(id, value, false)
  }

  lemma LeftByClosure(pool: Pool, step: Step, id: JobId, value: Value)
    requires Enabled(pool, step)
    requires id in After(pool, step).jobs && After(pool, step).jobs[id].phase == Returned(Some(value), false)
    ensures step == ReturnClosure(id, value, false) || (id in pool.jobs && pool.jobs[id].phase == Returned(Some(value), false))
  {}

  lemma {:induction false} ReturnedByClosure(pools: seq<Pool>, steps: seq<Step>, limits: Limits, n: nat, id: JobId, value: Value)
    requires IsRun(pools, steps, limits) && n < |pools|
    requires id in pools[n].jobs && pools[n].jobs[id].phase == Returned(Some(value), false)
    ensures ReturnedBefore(steps, n, id, value)
    decreases n
  {
    hide After; hide Enabled;
    if n > 0 {
      LeftByClosure(pools[n - 1], steps[n - 1], id, value);
      if steps[n - 1] != ReturnClosure(id, value, false) {
        ReturnedByClosure(pools, steps, limits, n - 1, id, value);
        var k :| 0 <= k < n - 1 && k < |steps| && steps[k] == ReturnClosure(id, value, false);
        assert ReturnedBefore(steps, n, id, value);
      }
    }
  }

  /** The request saw the value its closure had returned, its token not cancelled at that moment. */
  ghost predicate DeliveredAt(pools: seq<Pool>, steps: seq<Step>, k: nat, id: JobId, value: Value) {
    && k < |steps| && k < |pools| && steps[k] == Answer(id) && id in pools[k].jobs
    && pools[k].jobs[id].awaited && !TokenCancelled(pools[k], pools[k].jobs[id])
    && ReturnedBefore(steps, k, id, value)
  }

  lemma DeliveredByAnswer(pool: Pool, step: Step, id: JobId)
    requires Enabled(pool, step) && id in After(pool, step).outcomes && After(pool, step).outcomes[id].Delivered?
    ensures (id in pool.outcomes && pool.outcomes[id] == After(pool, step).outcomes[id])
         || (step == Answer(id) && !TokenCancelled(pool, pool.jobs[id])
             && pool.jobs[id].phase == Returned(Some(After(pool, step).outcomes[id].value), false))
  {}

  /** In every run, a delivered value is one that the job's closure returned, and it was delivered
      to a request that still waited and whose token was not cancelled at that moment. */
  lemma {:induction false} DeliveredOnlyUncancelled(pools: seq<Pool>, steps: seq<Step>, limits: Limits, n: nat, id: JobId)
    requires IsRun(pools, steps, limits) && n < |pools| && id in pools[n].outcomes && pools[n].outcomes[id].Delivered?
    ensures exists k: nat :: k < n && DeliveredAt(pools, steps, k, id, pools[n].outcomes[id].value)
    decreases n
  {
    hide After; hide Enabled;
    if n > 0 {
      var (pool, step) := (pools[n - 1], steps[n - 1]);
      assert Enabled(pool, step) && pools[n] == After(pool, step);
      DeliveredByAnswer(pool, step, id);
      if step == Answer(id) && id !in pool.outcomes {
        AnsweredWaits(pool, id);
        ReturnedByClosure(pools, steps, limits, n - 1, id, pools[n].outcomes[id].value);
        assert DeliveredAt(pools, steps, n - 1, id, pools[n].outcomes[id].value);
      } else {
        RunKeepsInv(pools, steps, limits, n - 1);
        OutcomeStays(pool, step, id);
        DeliveredOnlyUncancelled(pools, steps, limits, n - 1, id);
      }
    }
  }

  lemma AnsweredWaits(pool: Pool, id: JobId)
    requires Enabled(pool, Answer(id))
    ensures id in pool.jobs && pool.jobs[id].awaited
  {}
}

/** The token that long loops of a closure observe, one per blocking thread, and its nesting. */
module ThreadScope {
  import opened Common

  type Token = nat

  /** What a closure does with respect to cancellation: check, or run a part in another scope. A
      panic unwinds through every scope around it. */
  datatype Work =
    | Checkpoint
    | Panic
    | InScope(token: Token, inner: seq<Work>)

  /** The checkpoints that a sequence of work passes, each with the token it observes, and whether
      the work ended in a panic. */
  function Observed(works: seq<Work>, current: Option<Token>): (seq<Option<Token>>, bool) {
    if works == [] then ([], false)
    else
      match works[0]
      case Panic => ([], true)
      case Checkpoint =>
        var (rest, panicked) := Observed(works[1..], current);
        ([current] + rest, panicked)
      case InScope(token, inner) =>
        var (nested, unwound) := Observed(inner, Some(token));
        if unwound then (nested, true)
        else
          var (rest, panicked) := Observed(works[1..], current);
          (nested + rest, panicked)
  }

  class Thread {
    var current: Option<Token>
    ghost var seen: seq<Option<Token>>

    constructor ()
      ensures current == None && seen == []
    {
      current, seen := None, [];
    }

    /** Whatever the work does, afterwards the thread observes the token it observed before. */
    method Perform(works: seq<Work>) returns (panicked: bool)
      modifies this
      ensures current == old(current)
      ensures seen == old(seen) + Observed(works, old(current)).0 && panicked == Observed(works, old(current)).1
      decreases works
    {
      if works == [] {
        assert seen + [] == seen;
        return false;
      }
      match works[0] {
        case Panic =>
          assert seen + [] == seen;
          return true;
        case Checkpoint =>
          seen := seen + [current];
        case InScope(token, inner) =>
          var previous := current;
          current := Some(token);
          panicked := Perform(inner);
          current := previous;
          if panicked {
            return;
          }
      }
      ghost var before := seen;
      panicked := Perform(works[1..]);
      assert old(seen) + (before[|old(seen)|..] + Observed(works[1..], current).0) == before + Observed(works[1..], current).0;
    }
  }
}
