/** What admission bounds over every run, and what happens to jobs across stops, crashes and restarts. */
module JobQueueLimits {
  import opened JobStore
  import opened JobQueue
  import opened JobQueueSafety
  import opened Wrappers

  /** At most one training of an experiment is queued or running. */
  ghost predicate OneTraining(jobs: map<string, Job>) {
    forall a, b :: a in jobs && b in jobs && SameExperiment(jobs[a], jobs[a].experiment) && SameExperiment(jobs[b], jobs[a].experiment) ==> a == b
  }

  /** At most eight encode or decode jobs are queued or running. */
  ghost predicate Limited(jobs: map<string, Job>) {
    OneTraining(jobs) && |WaitingInference(jobs)| <= CAPACITY
  }

  /** A later state of a job: it waits again only if it waited before, or is a fetch. */
  ghost predicate Later(before: Job, after: Job) {
    && after.operation == before.operation && after.experiment == before.experiment && after.identifier == before.identifier
    && (Waiting(after) && !IsFetch(after) ==> Waiting(before))
  }

  lemma ChangedLimited(jobs: map<string, Job>, id: string, job: Job)
    requires Limited(jobs) && id in jobs && Later(jobs[id], job)
    ensures Limited(jobs[id := job])
  {
    SubsetIsSmaller(WaitingInference(jobs[id := job]), WaitingInference(jobs));
  }

  lemma AddedLimited(jobs: map<string, Job>, id: string, job: Job)
    requires Limited(jobs) && id !in jobs
    requires job.operation == Train ==> !exists other :: other in jobs && SameExperiment(jobs[other], job.experiment)
    requires IsInference(job) ==> |WaitingInference(jobs)| < CAPACITY
    ensures Limited(jobs[id := job])
  {
    var after := jobs[id := job];
    SubsetIsSmaller(WaitingInference(after), WaitingInference(jobs) + (if IsInference(job) then {id} else {}));
  }

  lemma AcceptLimited(s: Service, q: Submission, experiment: Option<string>)
    requires Safe(s) && Limited(s.tables.jobs)
    requires q.operation == Train ==> !exists other :: other in s.tables.jobs && SameExperiment(s.tables.jobs[other], experiment)
    requires q.operation == Encode || q.operation == Decode ==> |WaitingInference(s.tables.jobs)| < CAPACITY
    ensures Limited(Accept(s, NewJob(q.id, q.operation, experiment, q.now), q.request, FingerprintOf(s.key, q)).0.tables.jobs)
  {
    var job := NewJob(q.id, q.operation, experiment, q.now);
    if q.id !in s.tables.jobs {
      AddedLimited(s.tables.jobs, q.id, Stamped(s.tables, job));
    }
  }

  lemma SubmitFetchLimited(s: Service, q: Submission)
    requires Safe(s) && Limited(s.tables.jobs) && q.operation == FetchDataset
    ensures Limited(SubmitFetch(s, q).0.tables.jobs)
  {
    AcceptLimited(s, q, None);
  }

  lemma SubmitLimited(s: Service, q: Submission)
    requires Safe(s) && Limited(s.tables.jobs)
    ensures Limited(SubmitUnderLock(s, q).0.tables.jobs)
  {
    if q.request in s.tables.mutations {
      assert SubmitUnderLock(s, q).0 == s;
    } else {
      match q.operation
      case FetchDataset => SubmitFetchLimited(s, q);
      case Encode => SubmitInferenceLimited(s, q);
      case Decode => SubmitInferenceLimited(s, q);
      case _ => SubmitWorkflowLimited(s, q);
    }
  }

  lemma SubmitInferenceLimited(s: Service, q: Submission)
    requires Safe(s) && Limited(s.tables.jobs) && (q.operation == Encode || q.operation == Decode)
    ensures Limited(SubmitInference(s, q).0.tables.jobs)
  {
    InferenceOutcome(s, q);
    if |WaitingInference(s.tables.jobs)| < CAPACITY {
      AcceptLimited(s, q, None);
    }
  }

  lemma SubmitWorkflowLimited(s: Service, q: Submission)
    requires Safe(s) && Limited(s.tables.jobs) && q.operation != Encode && q.operation != Decode
    ensures Limited(SubmitWorkflow(s, q).0.tables.jobs)
  {
    WorkflowOutcome(s, q);
    if SubmitWorkflow(s, q).0 != s {
      AcceptLimited(s, q, q.experiment);
    }
  }

  lemma ChangeLimited(s: Service, job: Job, now: nat)
    requires Limited(s.tables.jobs) && job.identifier in s.tables.jobs && Later(s.tables.jobs[job.identifier], job)
    ensures Limited(Change(s, job, now).tables.jobs)
  {
    ChangedLimited(s.tables.jobs, job.identifier, Stamped(s.tables, job.(updatedAt := now)));
  }

  lemma TransitionLater(job: Job, action: Action, now: nat)
    requires Transition(job, action).Some?
    ensures Later(job, Transition(job, action).value.(updatedAt := now))
  {
  }

  lemma ActedLimited(s: Service, id: string, changed: Job, mutation: (string, Fingerprint))
    requires Limited(s.tables.jobs) && id in s.tables.jobs && changed.identifier == id && Later(s.tables.jobs[id], changed)
    ensures Limited(Acted(s, id, changed, mutation).tables.jobs)
  {
    ChangedLimited(s.tables.jobs, id, Stamped(s.tables, changed));
  }

  lemma ActLimited(s: Service, request: string, id: string, action: Action, now: nat)
    requires Safe(s) && Limited(s.tables.jobs)
    ensures Limited(ActUnderLock(s, request, id, action, now).0.tables.jobs)
  {
    ActOutcome(s, request, id, action, now);
    if ActUnderLock(s, request, id, action, now).0 != s {
      TransitionLater(s.tables.jobs[id], action, now);
      ActedLimited(s, id, Transition(s.tables.jobs[id], action).value.(updatedAt := now), (request, OfAction(id, action)));
    }
  }

  lemma {:induction false} InterruptLimited(s: Service, ids: seq<string>, now: nat)
    requires Consistent(s.tables) && Limited(s.tables.jobs)
    ensures Limited(InterruptAll(s, ids, now).tables.jobs)
    decreases |ids|
  {
    if ids != [] {
      var id := ids[0];
      if id in s.tables.jobs && Waiting(s.tables.jobs[id]) {
        SavedConsistent(s.tables, InterruptedJob(s.tables.jobs[id]).(updatedAt := now), false, None);
        ChangeLimited(s, InterruptedJob(s.tables.jobs[id]), now);
      }
      InterruptLimited(InterruptOne(s, id, now), ids[1..], now);
    }
  }

  lemma StartLimited(s: Service, id: string, now: nat)
    requires Safe(s) && Limited(s.tables.jobs) && id in s.tables.jobs && s.tables.jobs[id].status == Queued
    ensures Limited(StartJob(s, id, now).tables.jobs)
  {
    ChangeLimited(s, Started(s.tables.jobs[id]), now);
  }

  lemma ProgressLimited(s: Service, phase: string, pausable: bool, now: nat)
    requires Safe(s) && Limited(s.tables.jobs) && WorkerAt(s)
    ensures Limited(Change(s, Progressed(s.tables.jobs[s.scheduler.job], phase, pausable), now).tables.jobs)
  {
    ChangeLimited(s, Progressed(s.tables.jobs[s.scheduler.job], phase, pausable), now);
  }

  lemma ExitLimited(s: Service, exit: Exit, now: nat)
    requires Safe(s) && Limited(s.tables.jobs) && WorkerAt(s) && CanEnd(s.tables.jobs[s.scheduler.job], exit)
    ensures Limited(Change(s, ExitChanges(s.tables.jobs[s.scheduler.job], exit, s.closing), now).tables.jobs)
  {
    ExitEvolves(s.tables.jobs[s.scheduler.job], exit, s.closing);
    LaterExit(s.tables.jobs[s.scheduler.job], exit, s.closing);
    ChangeLimited(s, ExitChanges(s.tables.jobs[s.scheduler.job], exit, s.closing), now);
  }

  lemma LaterExit(job: Job, exit: Exit, closing: bool)
    requires job.status == Running
    ensures Later(job, ExitChanges(job, exit, closing))
  {
  }

  lemma StepLimited(s: Service, step: Step)
    requires Safe(s) && Limited(s.tables.jobs) && Enabled(s, step)
    ensures Limited(Next(s, step).tables.jobs)
  {
    match step
    case SubmitStep(q) => SubmitLimited(s, q);
    case ActStep(request, id, action, now) => ActLimited(s, request, id, action, now);
    case NextJobStep(id, _, now) => StartLimited(s, id, now);
    case ProgressStep(phase, pausable, now) => ProgressLimited(s, phase, pausable, now);
    case ExitStep(exit, now) => ExitLimited(s, exit, now);
    case AskToSaveStep(now) => AskToSaveLimited(s, now);
    case ReconcileStep(ids, now) => InterruptLimited(s, ids, now);
    case StartStep(ids, now) => InterruptLimited(s, ids, now);
    case StartFailsStep(ids, now) => InterruptLimited(s, ids, now);
    case _ =>
  }

  lemma AskToSaveLimited(s: Service, now: nat)
    requires Safe(s) && Limited(s.tables.jobs)
    ensures Limited(AskToSave(s, now).tables.jobs)
  {
    if s.scheduler.Busy? {
      ChangeLimited(s, AskedToSave(s.tables.jobs[s.scheduler.job]), now);
    }
  }

  lemma {:induction false} RunLimited(s: Service, steps: seq<Step>)
    requires Safe(s) && Limited(s.tables.jobs) && CanRun(s, steps)
    ensures Limited(Run(s, steps).tables.jobs)
    decreases |steps|
  {
    if steps != [] {
      StepSafe(s, steps[0]);
      StepLimited(s, steps[0]);
      RunLimited(Next(s, steps[0]), steps[1..]);
    }
  }

  /** In every reachable state at most one training of an experiment and at most eight inference jobs wait or run. */
  lemma QueueIsLimited(s: Service)
    requires Reachable(s)
    ensures OneTraining(s.tables.jobs)
    ensures |WaitingInference(s.tables.jobs)| <= CAPACITY
  {
    var steps :| CanRun(Initial(), steps) && Run(Initial(), steps) == s;
    assert WaitingInference(Initial().tables.jobs) == {};
    RunLimited(Initial(), steps);
  }

  // Crashes and restarts.

  /** What a crash and a restart make of a job: interrupted if it was queued or running, as it was otherwise. */
  ghost predicate Restarted(before: Job, after: Job) {
    if Waiting(before) then
      && after.status == Interrupted && after.availableActions == [] && after.error == InterruptionError(before)
      && after.operation == before.operation && after.experiment == before.experiment && after.createdAt == before.createdAt
    else after == before
  }

  lemma InterruptedRestarts(s: Service, id: string, now: nat)
    requires Consistent(s.tables) && id in s.tables.jobs
    ensures var after := InterruptOne(s, id, now).tables;
      && Consistent(after) && after.jobs.Keys == s.tables.jobs.Keys
      && Restarted(s.tables.jobs[id], after.jobs[id]) && !Waiting(after.jobs[id])
      && forall other :: other in s.tables.jobs && other != id ==> after.jobs[other] == s.tables.jobs[other]
  {
    if Waiting(s.tables.jobs[id]) {
      SavedConsistent(s.tables, InterruptedJob(s.tables.jobs[id]).(updatedAt := now), false, None);
    }
  }

  lemma {:induction false} InterruptAllRestarts(s: Service, ids: seq<string>, now: nat, id: string)
    requires Consistent(s.tables) && id in s.tables.jobs && (id in ids || !Waiting(s.tables.jobs[id]))
    ensures id in InterruptAll(s, ids, now).tables.jobs
    ensures Restarted(s.tables.jobs[id], InterruptAll(s, ids, now).tables.jobs[id])
    decreases |ids|
  {
    if ids != [] {
      var next := InterruptOne(s, ids[0], now);
      if ids[0] in s.tables.jobs {
        InterruptedRestarts(s, ids[0], now);
      }
      InterruptAllRestarts(next, ids[1..], now, id);
    }
  }

  /** After a crash at any moment, a restart leaves exactly the same jobs: those queued or running become
      interrupted with their reason, and paused and finished ones stay as they were. */
  lemma CrashThenRestart(s: Service, ids: seq<string>, now: nat)
    requires Reachable(s) && Lists(ids, s.tables.jobs)
    ensures
      var crashed := Next(s, CrashStep);
      && Enabled(crashed, StartStep(ids, now))
      && var after := Next(crashed, StartStep(ids, now));
        && after.tables.jobs.Keys == s.tables.jobs.Keys
        && (forall id :: id in s.tables.jobs ==> Restarted(s.tables.jobs[id], after.tables.jobs[id]))
        && after.secrets == map[] && !after.cleanup && !after.closing && !after.halted
  {
    ReachableSafe(s);
    var crashed := Next(s, CrashStep);
    var after := Next(crashed, StartStep(ids, now));
    SameJobs(crashed, ids, now);
    InterruptSafe(crashed, ids, now);
    forall id | id in s.tables.jobs
      ensures id in after.tables.jobs && Restarted(s.tables.jobs[id], after.tables.jobs[id])
    {
      InterruptAllRestarts(crashed, ids, now, id);
    }
  }

  // Stops.

  /** A stop of a running fetch ends as it was asked: cancelling cancels, pausing pauses, and a paused fetch
      that is resumed is queued again as the same job. */
  lemma StopsEndAsAsked(job: Job, action: Action, closing: bool)
    requires WellOffered(job) && IsFetch(job) && job.status == Running && action in job.availableActions
    ensures
      var asked := Transition(job, action);
      && asked.Some? && asked.value.status == Running
      && var ended := ExitChanges(asked.value, FetchStopped, closing);
        && (action == Cancel ==> ended.status == Cancelled && Terminal(ended))
        && (action == Pause ==>
              && ended.status == Paused
              && Transition(ended, Cancel).Some? && Transition(ended, Cancel).value.status == Cancelled
              && Transition(ended, Resume) == Some(job.(status := Queued, phase := "queued", requestedAction := None, availableActions := [Cancel])))
  {
    assert action == Cancel || action == Pause;
  }

  /** A closing service accepts nothing new, whatever is submitted. */
  lemma ClosingAcceptsNothing(s: Service, q: Submission)
    requires s.closing && q.request !in s.tables.mutations
    ensures Submit(s, q).0 == s && Submit(s, q).1.Refused?
  {
    match q.operation
    case FetchDataset =>
    case _ =>
  }
}
