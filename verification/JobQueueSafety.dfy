/** What every run of the job supervisor keeps, across any number of crashes and restarts. */
module JobQueueSafety {
  import opened JobStore
  import opened JobQueue
  import opened Wrappers

  // The invariant.

  /** The actions a job offers, by its state. */
  ghost predicate WellOffered(job: Job) {
    match job.status
    case Queued => job.availableActions == [Cancel] && job.requestedAction.None?
    case Running =>
      if job.requestedAction.Some? then job.availableActions == []
      else if IsFetch(job) then job.availableActions == [Cancel] || job.availableActions == [Cancel, Pause]
      else job.availableActions == InitialActions(job.operation)
    case Paused => IsFetch(job) && job.availableActions == [Resume, Cancel]
    case _ => job.availableActions == []
  }

  ghost predicate AllOffered(jobs: map<string, Job>) {
    forall id :: id in jobs ==> WellOffered(jobs[id])
  }

  ghost predicate OneRunning(jobs: map<string, Job>) {
    forall a, b :: a in jobs && b in jobs && jobs[a].status == Running && jobs[b].status == Running ==> a == b
  }

  ghost predicate OneFetch(jobs: map<string, Job>) {
    forall a, b :: a in jobs && b in jobs && ActiveFetch(jobs[a]) && ActiveFetch(jobs[b]) ==> a == b
  }

  ghost predicate NoFetch(jobs: map<string, Job>) {
    forall id :: id in jobs ==> !ActiveFetch(jobs[id])
  }

  /** The job table and the scheduler agree on what is running. */
  ghost predicate RunningMatches(s: Service) {
    match s.scheduler
    case Busy(id) => id in s.tables.jobs && s.tables.jobs[id].status == Running
    case Off => true
    case _ => forall id :: id in s.tables.jobs ==> s.tables.jobs[id].status != Running
  }

  /** The tables: at most one job is running, at most one fetch is active, and none during a cleanup. */
  ghost predicate JobsSafe(jobs: map<string, Job>, cleanup: bool) {
    && AllOffered(jobs)
    && OneRunning(jobs)
    && OneFetch(jobs)
    && (cleanup ==> NoFetch(jobs))
  }

  ghost predicate TablesSafe(t: Tables, cleanup: bool) {
    Consistent(t) && JobsSafe(t.jobs, cleanup)
  }

  /** Secrets are held only for queued or running inference jobs. */
  ghost predicate SecretsExact(s: Service) {
    s.secrets.Keys <= WaitingInference(s.tables.jobs)
  }

  ghost predicate SecretsFit(s: Service) {
    !s.closing ==> SecretsExact(s)
  }

  ghost predicate Safe(s: Service) {
    && TablesSafe(s.tables, s.cleanup)
    && RunningMatches(s)
    && SecretsFit(s)
    && (!s.up ==> s.scheduler == Off && !s.closing && !s.cleanup && s.secrets == map[])
  }

  /** What no step takes back: jobs stay, terminal ones unchanged; events are only appended; accepted
      mutations stay as they are. */
  ghost predicate Preserved(before: Tables, after: Tables) {
    && (forall id :: id in before.jobs ==> id in after.jobs)
    && (forall id :: id in before.jobs && Terminal(before.jobs[id]) ==> after.jobs[id] == before.jobs[id])
    && before.events <= after.events
    && (forall m :: m in before.mutations ==> m in after.mutations && after.mutations[m] == before.mutations[m])
  }

  lemma PreservedTwice(a: Tables, b: Tables, c: Tables)
    requires Preserved(a, b) && Preserved(b, c)
    ensures Preserved(a, c)
  {
  }

  // Changes of one job.

  /** A changed job keeps its identity and kind, was not terminal, and is an active fetch only if it was one. */
  ghost predicate Evolves(before: Job, after: Job) {
    && after.identifier == before.identifier && after.operation == before.operation
    && !Terminal(before)
    && WellOffered(after)
    && (ActiveFetch(after) ==> ActiveFetch(before))
  }

  /** Changing a job that is not terminal takes nothing back. */
  lemma ChangePreserves(t: Tables, job: Job, mutation: Option<(string, Fingerprint)>)
    requires Consistent(t) && job.identifier in t.jobs && !Terminal(t.jobs[job.identifier])
    requires mutation.Some? ==> mutation.value.0 !in t.mutations
    ensures Consistent(Saved(t, job, false, mutation)) && Preserved(t, Saved(t, job, false, mutation))
  {
    SavedConsistent(t, job, false, mutation);
  }

  /** Replacing one job by its next state keeps the table's promises. */
  lemma UpdatedJobs(jobs: map<string, Job>, id: string, job: Job, cleanup: bool)
    requires JobsSafe(jobs, cleanup) && id in jobs && Evolves(jobs[id], job)
    requires job.status == Running ==> jobs[id].status == Running
    ensures JobsSafe(jobs[id := job], cleanup)
  {
  }

  lemma StartedJobs(jobs: map<string, Job>, id: string, job: Job, cleanup: bool)
    requires JobsSafe(jobs, cleanup) && id in jobs && jobs[id].status == Queued
    requires forall other :: other in jobs ==> jobs[other].status != Running
    requires job.operation == jobs[id].operation && WellOffered(job)
    ensures JobsSafe(jobs[id := job], cleanup)
  {
  }

  lemma AddedJobs(jobs: map<string, Job>, id: string, job: Job, cleanup: bool)
    requires JobsSafe(jobs, cleanup) && id !in jobs && job.status == Queued && WellOffered(job)
    requires IsFetch(job) ==> NoFetch(jobs) && !cleanup
    ensures JobsSafe(jobs[id := job], cleanup)
  {
  }

  lemma ChangedKeeps(s: Service, id: string, job: Job, mutation: Option<(string, Fingerprint)>)
    requires Safe(s) && id in s.tables.jobs && Evolves(s.tables.jobs[id], job)
    requires job.status == Running ==> s.tables.jobs[id].status == Running
    requires mutation.Some? ==> mutation.value.0 !in s.tables.mutations
    ensures var t := Saved(s.tables, job, false, mutation);
      && TablesSafe(t, s.cleanup)
      && Preserved(s.tables, t)
      && t.jobs == s.tables.jobs[id := Stamped(s.tables, job)]
  {
    ChangePreserves(s.tables, job, mutation);
    UpdatedJobs(s.tables.jobs, id, Stamped(s.tables, job), s.cleanup);
  }

  lemma AddedKeeps(s: Service, job: Job, mutation: Option<(string, Fingerprint)>)
    requires Safe(s) && job.identifier !in s.tables.jobs && job.status == Queued && WellOffered(job)
    requires IsFetch(job) ==> NoFetch(s.tables.jobs) && !s.cleanup
    requires mutation.Some? ==> mutation.value.0 !in s.tables.mutations
    ensures var t := Saved(s.tables, job, true, mutation);
      && TablesSafe(t, s.cleanup)
      && RunningMatches(s.(tables := t))
      && Preserved(s.tables, t)
      && t.jobs == s.tables.jobs[job.identifier := Stamped(s.tables, job)]
  {
    SavedConsistent(s.tables, job, true, mutation);
    AddedJobs(s.tables.jobs, job.identifier, Stamped(s.tables, job), s.cleanup);
  }

  lemma RunningAfter(s: Service, t: Tables, id: string, job: Job)
    requires RunningMatches(s) && id in s.tables.jobs && t.jobs == s.tables.jobs[id := job]
    requires job.status == Running <==> s.tables.jobs[id].status == Running
    ensures RunningMatches(s.(tables := t))
  {
  }

  lemma SecretsAfter(s: Service, t: Tables, id: string, job: Job, secrets: map<string, string>)
    requires SecretsFit(s) && t.jobs == s.tables.jobs[id := job]
    requires secrets.Keys <= s.secrets.Keys
    requires id in secrets && id in s.tables.jobs && Waiting(s.tables.jobs[id]) && IsInference(s.tables.jobs[id]) ==> Waiting(job) && IsInference(job)
    ensures SecretsFit(s.(tables := t, secrets := secrets))
    ensures SecretsExact(s) ==> SecretsExact(s.(tables := t, secrets := secrets))
  {
  }

  // Steps.

  lemma AcceptSafe(s: Service, job: Job, request: string, fingerprint: Fingerprint)
    requires Safe(s) && s.up && job.status == Queued && WellOffered(job)
    requires IsFetch(job) ==> NoFetch(s.tables.jobs) && !s.cleanup
    ensures var (after, reply) := Accept(s, job, request, fingerprint);
      && Safe(after) && Preserved(s.tables, after.tables)
      && after == s.(tables := after.tables)
      && (SecretsExact(s) ==> SecretsExact(after))
      && (reply.Accepted? && IsInference(job) ==> job.identifier in WaitingInference(after.tables.jobs))
  {
    if Storable(s.tables, job, true, Some((request, fingerprint))) {
      AddedKeeps(s, job, Some((request, fingerprint)));
      var t := Saved(s.tables, job, true, Some((request, fingerprint)));
      SecretsAfter(s, t, job.identifier, Stamped(s.tables, job), s.secrets);
    }
  }

  lemma SubmitFetchSafe(s: Service, q: Submission)
    requires Safe(s) && s.up
    ensures Safe(SubmitFetch(s, q).0) && Preserved(s.tables, SubmitFetch(s, q).0.tables)
    ensures SecretsExact(s) ==> SecretsExact(SubmitFetch(s, q).0)
  {
    if !s.cleanup && !exists id :: id in s.tables.jobs && ActiveFetch(s.tables.jobs[id]) {
      assert NoFetch(s.tables.jobs);
      AcceptSafe(s, NewJob(q.id, FetchDataset, None, q.now), q.request, FingerprintOf(s.key, q));
    }
  }

  /** What a submitted inference job can leave: nothing, or the accepted job with or without its secrets. */
  lemma InferenceOutcome(s: Service, q: Submission)
    ensures
      var (accepted, reply) := Accept(s, NewJob(q.id, q.operation, None, q.now), q.request, FingerprintOf(s.key, q));
      var after := SubmitInference(s, q).0;
      after == s || after == accepted || (reply.Accepted? && after == accepted.(secrets := s.secrets[q.id := q.secret]))
  {
  }

  lemma SecretsAdded(s: Service, after: Service, id: string, secret: string)
    requires Safe(after) && after.up && after.secrets == s.secrets && id in WaitingInference(after.tables.jobs)
    ensures Safe(after.(secrets := s.secrets[id := secret]))
    ensures SecretsExact(after) ==> SecretsExact(after.(secrets := s.secrets[id := secret]))
  {
    assert s.secrets[id := secret].Keys == s.secrets.Keys + {id};
  }

  lemma SubmitInferenceSafe(s: Service, q: Submission)
    requires Safe(s) && s.up && (q.operation == Encode || q.operation == Decode)
    ensures Safe(SubmitInference(s, q).0) && Preserved(s.tables, SubmitInference(s, q).0.tables)
    ensures SecretsExact(s) ==> SecretsExact(SubmitInference(s, q).0)
  {
    var job := NewJob(q.id, q.operation, None, q.now);
    AcceptSafe(s, job, q.request, FingerprintOf(s.key, q));
    InferenceOutcome(s, q);
    var (accepted, reply) := Accept(s, job, q.request, FingerprintOf(s.key, q));
    if reply.Accepted? {
      SecretsAdded(s, accepted, q.id, q.secret);
    }
  }

  lemma WorkflowOutcome(s: Service, q: Submission)
    ensures
      var after := SubmitWorkflow(s, q).0;
      after == s || after == Accept(s, NewJob(q.id, q.operation, q.experiment, q.now), q.request, FingerprintOf(s.key, q)).0
  {
  }

  lemma SubmitWorkflowSafe(s: Service, q: Submission)
    requires Safe(s) && s.up && q.operation != FetchDataset
    ensures Safe(SubmitWorkflow(s, q).0) && Preserved(s.tables, SubmitWorkflow(s, q).0.tables)
    ensures SecretsExact(s) ==> SecretsExact(SubmitWorkflow(s, q).0)
  {
    AcceptSafe(s, NewJob(q.id, q.operation, q.experiment, q.now), q.request, FingerprintOf(s.key, q));
    WorkflowOutcome(s, q);
  }

  lemma SubmitSafe(s: Service, q: Submission)
    requires Safe(s) && s.up
    ensures Safe(SubmitUnderLock(s, q).0) && Preserved(s.tables, SubmitUnderLock(s, q).0.tables)
    ensures SecretsExact(s) ==> SecretsExact(SubmitUnderLock(s, q).0)
  {
    if q.request !in s.tables.mutations {
      match q.operation
      case FetchDataset => SubmitFetchSafe(s, q);
      case Encode => SubmitInferenceSafe(s, q);
      case Decode => SubmitInferenceSafe(s, q);
      case _ => SubmitWorkflowSafe(s, q);
    }
  }

  lemma TransitionEvolves(job: Job, action: Action)
    requires WellOffered(job) && action in job.availableActions
    ensures Transition(job, action).Some?
    ensures var after := Transition(job, action).value;
      && Evolves(job, after)
      && (after.status == Running <==> job.status == Running)
      && (Waiting(job) && !Waiting(after) ==> after.status == Cancelled)
  {
  }

  /** A waiting job changed by an action, with its secrets forgotten when it is cancelled. */
  lemma ActedSafe(s: Service, id: string, changed: Job, mutation: (string, Fingerprint))
    requires Safe(s) && s.up && id in s.tables.jobs && Evolves(s.tables.jobs[id], changed)
    requires changed.status == Running <==> s.tables.jobs[id].status == Running
    requires Waiting(s.tables.jobs[id]) && !Waiting(changed) ==> changed.status == Cancelled
    requires mutation.0 !in s.tables.mutations
    ensures Safe(Acted(s, id, changed, mutation)) && Preserved(s.tables, Acted(s, id, changed, mutation).tables)
    ensures SecretsExact(s) ==> SecretsExact(Acted(s, id, changed, mutation))
  {
    ChangedKeeps(s, id, changed, Some(mutation));
    var after := Acted(s, id, changed, mutation);
    RunningAfter(s, after.tables, id, Stamped(s.tables, changed));
    SecretsAfter(s, after.tables, id, Stamped(s.tables, changed), after.secrets);
  }

  /** An action leaves the service alone or publishes its transition. */
  lemma ActOutcome(s: Service, request: string, id: string, action: Action, now: nat)
    ensures
      var after := ActUnderLock(s, request, id, action, now).0;
      || after == s
      || (&& request !in s.tables.mutations && id in s.tables.jobs && action in s.tables.jobs[id].availableActions
          && Transition(s.tables.jobs[id], action).Some?
          && after == Acted(s, id, Transition(s.tables.jobs[id], action).value.(updatedAt := now), (request, OfAction(id, action))))
  {
  }

  lemma ActSafe(s: Service, request: string, id: string, action: Action, now: nat)
    requires Safe(s) && s.up
    ensures var after := ActUnderLock(s, request, id, action, now).0;
      Safe(after) && Preserved(s.tables, after.tables) && (SecretsExact(s) ==> SecretsExact(after))
  {
    var after := ActUnderLock(s, request, id, action, now).0;
    ActOutcome(s, request, id, action, now);
    if after != s {
      TransitionEvolves(s.tables.jobs[id], action);
      ActedSafe(s, id, Transition(s.tables.jobs[id], action).value.(updatedAt := now), (request, OfAction(id, action)));
    }
  }

  lemma StartJobSafe(s: Service, id: string, proofLocked: bool, now: nat)
    requires Safe(s) && s.up && s.scheduler == Idle && IsNext(s.tables.jobs, proofLocked, id)
    ensures Safe(StartJob(s, id, now)) && Preserved(s.tables, StartJob(s, id, now).tables)
    ensures SecretsExact(s) ==> SecretsExact(StartJob(s, id, now))
  {
    var job := Started(s.tables.jobs[id]).(updatedAt := now);
    ChangePreserves(s.tables, job, None);
    StartedJobs(s.tables.jobs, id, Stamped(s.tables, job), s.cleanup);
    SecretsAfter(s, Saved(s.tables, job, false, None), id, Stamped(s.tables, job), s.secrets);
  }

  /** A worker's change of its own job. */
  lemma WorkerChangeSafe(s: Service, job: Job, now: nat)
    requires Safe(s) && s.up && WorkerAt(s) && Evolves(s.tables.jobs[s.scheduler.job], job)
    ensures var after := Change(s, job, now);
      && Preserved(s.tables, after.tables)
      && (SecretsExact(s) ==> SecretsExact(after))
      && (job.status == Running ==> Safe(after))
      && (job.status != Running ==> Safe(after.(scheduler := Finished(s.scheduler.job))))
  {
    var id, changed := s.scheduler.job, job.(updatedAt := now);
    var t := Saved(s.tables, changed, false, None);
    ChangedKeeps(s, id, changed, None);
    WorkerMatches(s, t, id, Stamped(s.tables, changed));
    SecretsAfter(s, t, id, Stamped(s.tables, changed), s.secrets);
  }

  /** The scheduler and the table still agree after a worker's change, or after the worker's end. */
  lemma WorkerMatches(s: Service, t: Tables, id: string, job: Job)
    requires RunningMatches(s) && s.scheduler == Busy(id) && OneRunning(s.tables.jobs) && t.jobs == s.tables.jobs[id := job]
    ensures job.status == Running ==> RunningMatches(s.(tables := t))
    ensures job.status != Running ==> RunningMatches(s.(tables := t, scheduler := Finished(id)))
  {
  }

  lemma ProgressEvolves(job: Job, phase: string, pausable: bool)
    requires WellOffered(job) && job.status == Running
    ensures Evolves(job, Progressed(job, phase, pausable)) && Progressed(job, phase, pausable).status == Running
  {
  }

  lemma ExitEvolves(job: Job, exit: Exit, closing: bool)
    requires WellOffered(job) && job.status == Running && CanEnd(job, exit)
    ensures Evolves(job, ExitChanges(job, exit, closing)) && ExitChanges(job, exit, closing).status != Running
  {
  }

  lemma AskToSaveSafe(s: Service, now: nat)
    requires Safe(s) && s.up
    ensures Safe(AskToSave(s, now)) && Preserved(s.tables, AskToSave(s, now).tables)
    ensures SecretsExact(s) ==> SecretsExact(AskToSave(s, now))
  {
    match s.scheduler
    case Busy(id) =>
      var job := s.tables.jobs[id];
      if job.operation == Train {
        ChangedKeeps(s, id, AskedToSave(job).(updatedAt := now), None);
        SecretsAfter(s, AskToSave(s, now).tables, id, Stamped(s.tables, AskedToSave(job).(updatedAt := now)), s.secrets);
      }
    case _ =>
  }

  lemma InterruptOneSafe(s: Service, id: string, now: nat)
    requires Safe(s) && s.scheduler == Off && (s.closing || !s.up) && id in s.tables.jobs && Waiting(s.tables.jobs[id])
    ensures var after := Change(s, InterruptedJob(s.tables.jobs[id]), now);
      && Safe(after) && Preserved(s.tables, after.tables)
      && after.tables.jobs == s.tables.jobs[id := after.tables.jobs[id]] && !Waiting(after.tables.jobs[id])
  {
    ChangedKeeps(s, id, InterruptedJob(s.tables.jobs[id]).(updatedAt := now), None);
  }

  /** Interrupting is safe once the scheduler is off. */
  lemma {:induction false} InterruptSafe(s: Service, ids: seq<string>, now: nat)
    requires Safe(s) && s.scheduler == Off && (s.closing || !s.up)
    ensures var after := InterruptAll(s, ids, now);
      Safe(after) && Preserved(s.tables, after.tables) && after == s.(tables := after.tables)
    decreases |ids|
  {
    if ids != [] {
      var id := ids[0];
      if id in s.tables.jobs && Waiting(s.tables.jobs[id]) {
        InterruptOneSafe(s, id, now);
        var next := Change(s, InterruptedJob(s.tables.jobs[id]), now);
        InterruptSafe(next, ids[1..], now);
        PreservedTwice(s.tables, next.tables, InterruptAll(s, ids, now).tables);
      } else {
        InterruptSafe(s, ids[1..], now);
      }
    }
  }

  lemma {:induction false} SameJobs(s: Service, ids: seq<string>, now: nat)
    requires Consistent(s.tables)
    ensures InterruptAll(s, ids, now).tables.jobs.Keys == s.tables.jobs.Keys
    decreases |ids|
  {
    if ids != [] {
      var first := ids[0];
      if first in s.tables.jobs && Waiting(s.tables.jobs[first]) {
        SavedConsistent(s.tables, InterruptedJob(s.tables.jobs[first]).(updatedAt := now), false, None);
        SameJobs(Change(s, InterruptedJob(s.tables.jobs[first]), now), ids[1..], now);
      } else {
        SameJobs(s, ids[1..], now);
      }
    }
  }

  /** None of the listed jobs is left queued or running. */
  lemma {:induction false} InterruptLeavesNone(s: Service, ids: seq<string>, now: nat, id: string)
    requires Consistent(s.tables) && id in s.tables.jobs && (id in ids || !Waiting(s.tables.jobs[id]))
    ensures var jobs := InterruptAll(s, ids, now).tables.jobs; id in jobs && !Waiting(jobs[id])
    decreases |ids|
  {
    if ids != [] {
      var first := ids[0];
      var next := s;
      if first in s.tables.jobs && Waiting(s.tables.jobs[first]) {
        SavedConsistent(s.tables, InterruptedJob(s.tables.jobs[first]).(updatedAt := now), false, None);
        next := Change(s, InterruptedJob(s.tables.jobs[first]), now);
      }
      InterruptLeavesNone(next, ids[1..], now, id);
    }
  }

  /** A restart over the interrupted tables. */
  lemma RestartSafe(s: Service, ids: seq<string>, now: nat)
    requires Safe(s) && !s.up && Lists(ids, s.tables.jobs)
    ensures var after := InterruptAll(s, ids, now).(up := true, scheduler := Idle);
      Safe(after) && Preserved(s.tables, after.tables) && after.secrets == map[]
  {
    InterruptSafe(s, ids, now);
    forall id | id in InterruptAll(s, ids, now).tables.jobs
      ensures InterruptAll(s, ids, now).tables.jobs[id].status != Running
    {
      SameJobs(s, ids, now);
      InterruptLeavesNone(s, ids, now, id);
    }
  }

  lemma ProgressSafe(s: Service, phase: string, pausable: bool, now: nat)
    requires Safe(s) && s.up && WorkerAt(s)
    ensures var after := Change(s, Progressed(s.tables.jobs[s.scheduler.job], phase, pausable), now);
      Safe(after) && Preserved(s.tables, after.tables) && (SecretsExact(s) ==> SecretsExact(after))
  {
    ProgressEvolves(s.tables.jobs[s.scheduler.job], phase, pausable);
    WorkerChangeSafe(s, Progressed(s.tables.jobs[s.scheduler.job], phase, pausable), now);
  }

  lemma ExitSafe(s: Service, exit: Exit, now: nat)
    requires Safe(s) && s.up && WorkerAt(s) && CanEnd(s.tables.jobs[s.scheduler.job], exit)
    ensures var after := Change(s, ExitChanges(s.tables.jobs[s.scheduler.job], exit, s.closing), now);
      && Safe(after.(scheduler := Finished(s.scheduler.job)))
      && Preserved(s.tables, after.tables) && (SecretsExact(s) ==> SecretsExact(after))
  {
    ExitEvolves(s.tables.jobs[s.scheduler.job], exit, s.closing);
    WorkerChangeSafe(s, ExitChanges(s.tables.jobs[s.scheduler.job], exit, s.closing), now);
  }

  /** A step that publishes no snapshot. */
  predicate Quiet(step: Step) {
    && !step.SubmitStep? && !step.ActStep? && !step.NextJobStep? && !step.ProgressStep? && !step.ExitStep?
    && !step.AskToSaveStep? && !step.ReconcileStep? && !step.StartStep? && !step.StartFailsStep?
  }

  lemma QuietStepSafe(s: Service, step: Step)
    requires Safe(s) && Enabled(s, step) && Quiet(step)
    ensures Safe(Next(s, step)) && Next(s, step).tables == s.tables
    ensures SecretsExact(s) ==> SecretsExact(Next(s, step))
  {
  }

  /** Every step keeps the invariant and takes nothing back. */
  lemma StepSafe(s: Service, step: Step)
    requires Safe(s) && Enabled(s, step)
    ensures Safe(Next(s, step)) && Preserved(s.tables, Next(s, step).tables)
    ensures SecretsExact(s) && !step.ReconcileStep? ==> SecretsExact(Next(s, step))
  {
    match step
    case SubmitStep(q) => SubmitSafe(s, q);
    case ActStep(request, id, action, now) => ActSafe(s, request, id, action, now);
    case NextJobStep(id, proofLocked, now) => StartJobSafe(s, id, proofLocked, now);
    case ProgressStep(phase, pausable, now) => ProgressSafe(s, phase, pausable, now);
    case ExitStep(exit, now) => ExitSafe(s, exit, now);
    case AskToSaveStep(now) => AskToSaveSafe(s, now);
    case ReconcileStep(ids, now) => InterruptSafe(s, ids, now);
    case StartStep(ids, now) => RestartSafe(s, ids, now);
    case StartFailsStep(ids, now) => InterruptSafe(s, ids, now);
    case _ => QuietStepSafe(s, step);
  }

  lemma {:induction false} RunSafe(s: Service, steps: seq<Step>)
    requires Safe(s) && CanRun(s, steps)
    ensures Safe(Run(s, steps)) && Preserved(s.tables, Run(s, steps).tables)
    decreases |steps|
  {
    if steps != [] {
      StepSafe(s, steps[0]);
      RunSafe(Next(s, steps[0]), steps[1..]);
      PreservedTwice(s.tables, Next(s, steps[0]).tables, Run(s, steps).tables);
    }
  }

  lemma ReachableSafe(s: Service)
    requires Reachable(s)
    ensures Safe(s)
  {
    var steps :| CanRun(Initial(), steps) && Run(Initial(), steps) == s;
    RunSafe(Initial(), steps);
  }
}
