/** The job supervisor as atomic steps: submissions, actions, the scheduler and its worker, cache cleanup,
    shutdown, crash and restart. A step that reads or writes the tables holds the queue lock in the source; raising a
    flag, the end of the scheduler thread and the hand-out of secrets do not, and each is a step of its own. */
module JobQueue {
  import opened JobStore
  import opened Wrappers

  /** The scheduler thread: off, waiting, running a job, or done with one it has not yet forgotten. */
  datatype Scheduler = Off | Idle | Busy(job: string) | Finished(job: string)

  /** The process: its tables survive a crash, everything else does not. Its key, which digests secrets, is drawn
      anew by every process; no two processes share one. */
  datatype Service = Service(
    tables: Tables,
    up: bool,
    closing: bool,
    halted: bool,
    scheduler: Scheduler,
    cleanup: bool,
    secrets: map<string, string>,
    key: nat)

  datatype Refusal =
    | StorageUnavailable | IdentifierConflict | ServiceStopping | NotAdmitted | ExperimentBusy
    | CleanupBusy | FetchBusy | QueueFull | JobNotFound | ActionUnavailable | CacheBusy

  datatype Reply = Accepted(job: Job) | Refused(reason: Refusal) | Done

  const CAPACITY: nat := 8

  function IsFetch(job: Job): bool {
    job.operation == FetchDataset
  }

  function IsInference(job: Job): bool {
    job.operation == Encode || job.operation == Decode
  }

  predicate Waiting(job: Job) {
    job.status == Queued || job.status == Running
  }

  predicate ActiveFetch(job: Job) {
    IsFetch(job) && (job.status == Queued || job.status == Running || job.status == Paused)
  }

  predicate Terminal(job: Job) {
    job.status == Stopped || job.status == Completed || job.status == Cancelled || job.status == Failed || job.status == Interrupted
  }

  function WaitingInference(jobs: map<string, Job>): set<string> {
    set id | id in jobs && IsInference(jobs[id]) && Waiting(jobs[id])
  }

  // Replay of accepted requests.

  /** The reply to a repeated request identifier, if it was accepted before. */
  function Repeated(t: Tables, request: string, fingerprint: Fingerprint): Option<Reply> {
    if request !in t.mutations then None
    else if t.mutations[request].fingerprint != fingerprint then Some(Refused(IdentifierConflict))
    else if t.mutations[request].job in t.jobs then Some(Accepted(t.jobs[t.mutations[request].job]))
    else Some(Refused(JobNotFound))
  }

  /** A new queued job. */
  function NewJob(id: string, operation: Operation, experiment: Option<string>, now: nat): Job {
    Job(id, Queued, "queued", [Cancel], now, now, operation, experiment, None, None, 0)
  }

  /** Save a new job under its request identifier. */
  function Accept(s: Service, job: Job, request: string, fingerprint: Fingerprint): (Service, Reply) {
    if !Storable(s.tables, job, true, Some((request, fingerprint))) then (s, Refused(StorageUnavailable))
    else
      (s.(tables := Saved(s.tables, job, true, Some((request, fingerprint)))), Accepted(Stamped(s.tables, job)))
  }

  /** What a submission brings. `admitted` stands for the checks on training time, uploads, images and models,
      `resolved` for resolving a workflow's references; `id` is the fresh identifier of the job. */
  datatype Submission = Submission(
    request: string, payload: string, id: string, operation: Operation, experiment: Option<string>,
    admitted: bool, resolved: bool, secret: string, now: nat)

  function FingerprintOf(key: nat, q: Submission): Fingerprint {
    if q.operation == Encode || q.operation == Decode then OfSecrets(q.operation, q.payload, key, q.secret)
    else OfRequest(q.operation, q.payload)
  }

  /** A submission asks whether storage works before it takes the lock. */
  function Submit(s: Service, q: Submission): (Service, Reply) {
    if s.halted then (s, Refused(StorageUnavailable)) else SubmitUnderLock(s, q)
  }

  /** What a submission does under the lock, where storage may have failed since it asked. */
  function SubmitUnderLock(s: Service, q: Submission): (Service, Reply) {
    if Repeated(s.tables, q.request, FingerprintOf(s.key, q)).Some? then
      (s, Repeated(s.tables, q.request, FingerprintOf(s.key, q)).value)
    else
      match q.operation
      case FetchDataset => SubmitFetch(s, q)
      case Encode => SubmitInference(s, q)
      case Decode => SubmitInference(s, q)
      case _ => SubmitWorkflow(s, q)
  }

  predicate SameExperiment(job: Job, experiment: Option<string>) {
    job.operation == Train && job.experiment == experiment && Waiting(job)
  }

  function SubmitWorkflow(s: Service, q: Submission): (Service, Reply) {
    if s.closing then (s, Refused(ServiceStopping))
    else if q.operation == Train && !q.admitted then (s, Refused(NotAdmitted))
    else if q.operation == Train && (exists id :: id in s.tables.jobs && SameExperiment(s.tables.jobs[id], q.experiment)) then
      (s, Refused(ExperimentBusy))
    else if !q.resolved then (s, Refused(NotAdmitted))
    else Accept(s, NewJob(q.id, q.operation, q.experiment, q.now), q.request, FingerprintOf(s.key, q))
  }

  function SubmitFetch(s: Service, q: Submission): (Service, Reply) {
    if s.closing then (s, Refused(ServiceStopping))
    else if !q.admitted then (s, Refused(NotAdmitted))
    else if s.cleanup then (s, Refused(CleanupBusy))
    else if exists id :: id in s.tables.jobs && ActiveFetch(s.tables.jobs[id]) then (s, Refused(FetchBusy))
    else Accept(s, NewJob(q.id, FetchDataset, None, q.now), q.request, FingerprintOf(s.key, q))
  }

  /** The job is saved first; a full secret store would refuse only after that. */
  function SubmitInference(s: Service, q: Submission): (Service, Reply) {
    if !q.admitted then (s, Refused(NotAdmitted))
    else if s.closing then (s, Refused(ServiceStopping))
    else if |WaitingInference(s.tables.jobs)| >= CAPACITY then (s, Refused(QueueFull))
    else
      var (after, reply) := Accept(s, NewJob(q.id, q.operation, None, q.now), q.request, FingerprintOf(s.key, q));
      if !reply.Accepted? then (s, reply)
      else if q.id !in s.secrets && |s.secrets| >= CAPACITY then (after, Refused(QueueFull))
      else (after.(secrets := s.secrets[q.id := q.secret]), reply)
  }

  // Actions.

  /** The snapshot after an action of a training, evaluation, export, preparation or inference job. */
  function ActionChanges(job: Job, action: Action): Option<Job> {
    var asked := job.(requestedAction := Some(action), availableActions := []);
    if action == Cancel && job.status == Queued then Some(asked.(status := Cancelled, phase := "cancelled"))
    else if action == Stop && job.status == Running && job.operation == Train then Some(asked.(phase := "saving"))
    else None
  }

  /** The snapshot after an action of a fetch job. */
  function FetchActionChanges(job: Job, action: Action): Option<Job> {
    var asked := job.(requestedAction := Some(action), availableActions := []);
    if action == Cancel && (job.status == Queued || job.status == Paused) then Some(asked.(status := Cancelled, phase := "cancelled"))
    else if action == Cancel && job.status == Running then Some(asked.(phase := "cancelling"))
    else if action == Pause && job.status == Running && Pause in job.availableActions then Some(asked.(phase := "pausing"))
    else if action == Resume && job.status == Paused then
      Some(asked.(status := Queued, phase := "queued", requestedAction := None, availableActions := [Cancel]))
    else None
  }

  function Transition(job: Job, action: Action): Option<Job> {
    if IsFetch(job) then FetchActionChanges(job, action) else ActionChanges(job, action)
  }

  /** An action asks whether storage works before it takes the lock, as a submission does. */
  function Act(s: Service, request: string, id: string, action: Action, now: nat): (Service, Reply) {
    if s.halted then (s, Refused(StorageUnavailable)) else ActUnderLock(s, request, id, action, now)
  }

  function ActUnderLock(s: Service, request: string, id: string, action: Action, now: nat): (Service, Reply) {
    if Repeated(s.tables, request, OfAction(id, action)).Some? then
      (s, Repeated(s.tables, request, OfAction(id, action)).value)
    else if id !in s.tables.jobs then (s, Refused(JobNotFound))
    else
      var job := s.tables.jobs[id];
      if action !in job.availableActions then (s, Refused(ActionUnavailable))
      else
        match Transition(job, action)
        case None => (s, Refused(ActionUnavailable))
        case Some(changed) =>
          var changed := changed.(updatedAt := now);
          (Acted(s, id, changed, (request, OfAction(id, action))), Accepted(Stamped(s.tables, changed)))
  }

  /** A job changed by an accepted action; cancelling forgets its secrets. */
  function Acted(s: Service, id: string, changed: Job, mutation: (string, Fingerprint)): Service {
    s.(tables := Saved(s.tables, changed, false, Some(mutation)),
       secrets := if changed.status == Cancelled then s.secrets - {id} else s.secrets)
  }

  // The scheduler and the worker.

  /** Publish a transition of a known job. */
  function Change(s: Service, job: Job, now: nat): Service {
    s.(tables := Saved(s.tables, job.(updatedAt := now), false, None))
  }

  predicate Eligible(job: Job, proofLocked: bool) {
    job.status == Queued && !(proofLocked && (job.operation == Train || job.operation == Evaluate || job.operation == Export))
  }

  /** The first eligible job in the order of `list_jobs`. */
  ghost predicate IsNext(jobs: map<string, Job>, proofLocked: bool, id: string) {
    id in jobs && Eligible(jobs[id], proofLocked)
    && forall other :: other in jobs && Eligible(jobs[other], proofLocked) ==> Older(jobs[id], jobs[other])
  }

  function InitialActions(operation: Operation): seq<Action> {
    if operation == Train then [Stop] else if operation == FetchDataset then [Cancel] else []
  }

  function Started(job: Job): Job {
    job.(status := Running, phase := "preparing", availableActions := InitialActions(job.operation))
  }

  function StartJob(s: Service, id: string, now: nat): Service
    requires id in s.tables.jobs
  {
    Change(s, Started(s.tables.jobs[id]), now).(scheduler := Busy(id))
  }

  /** The runner hands an inference job's secrets out once, before anything else. */
  function TakeSecrets(s: Service, id: string): Service {
    s.(secrets := s.secrets - {id})
  }

  /** A progress record of the worker: its phase and, for a fetch, whether it can be paused now. */
  function Progressed(job: Job, phase: string, pausable: bool): Job {
    if IsFetch(job) then
      var named := job.(phase := if job.requestedAction == Some(Cancel) then "cancelling"
                                 else if job.requestedAction == Some(Pause) then "pausing" else phase);
      if job.requestedAction.None? then named.(availableActions := if pausable then [Cancel, Pause] else [Cancel]) else named
    else if job.operation == Train && job.requestedAction.Some? then job.(phase := "saving")
    else job.(phase := phase)
  }

  /** How a worker ended. */
  datatype Exit =
    | Succeeded | StoppedEarly | Unsuccessful   // a finished workflow or inference worker
    | FetchFinished | FetchStopped              // a finished download; a stop, reported or not
    | Raised(code: string)                      // anything else that went wrong

  function Ended(job: Job, status: Status, phase: string, error: Option<string>): Job {
    job.(status := status, phase := phase, availableActions := [], error := error)
  }

  function InterruptionError(job: Job): Option<string> {
    if IsFetch(job) then Some("fetch_interrupted") else if IsInference(job) then Some("inputs_lost") else job.error
  }

  function InterruptedJob(job: Job): Job {
    Ended(job, Interrupted, "interrupted", InterruptionError(job))
  }

  /** A stop the runner asked for; none when nobody asked. */
  function StoppedChanges(job: Job, closing: bool): Option<Job> {
    if job.requestedAction == Some(Cancel) then Some(Ended(job, Cancelled, "cancelled", job.error))
    else if job.requestedAction == Some(Pause) then Some(job.(status := Paused, phase := "paused", availableActions := [Resume, Cancel]))
    else if closing then Some(InterruptedJob(job))
    else None
  }

  function FailedJob(job: Job, closing: bool, code: string): Job {
    if closing && IsInference(job) then InterruptedJob(job)
    else if closing then Ended(job, Interrupted, "interrupted", Some(code))
    else Ended(job, Failed, "failed", Some(code))
  }

  /** Which ends a job's worker can come to. */
  predicate CanEnd(job: Job, exit: Exit) {
    match exit
    case Raised(_) => true
    case FetchFinished => IsFetch(job)
    case FetchStopped => IsFetch(job)
    case Succeeded => !IsFetch(job)
    case StoppedEarly => job.operation == Train
    case Unsuccessful => !IsFetch(job) && !IsInference(job)
  }

  /** The final snapshot of a worker's job. */
  function ExitChanges(job: Job, exit: Exit, closing: bool): Job {
    match exit
    case Raised(code) => FailedJob(job, closing, code)
    case FetchFinished => Ended(job, Completed, "completed", None)
    case FetchStopped =>
      var stopped := StoppedChanges(job, closing);
      if stopped.Some? then stopped.value else FailedJob(job, closing, "workflow_failed")
    case Succeeded => Ended(job, Completed, "completed", None)
    case StoppedEarly => Ended(job, Stopped, "stopped", None)
    case Unsuccessful => Ended(job, Failed, "failed", Some("workflow_incomplete"))
  }

  // Shutdown and restart.

  /** Ask a running training job to save, as closing does. */
  function AskedToSave(job: Job): Job {
    job.(requestedAction := Some(Stop), phase := "saving", availableActions := [])
  }

  function AskToSave(s: Service, now: nat): Service {
    match s.scheduler
    case Busy(id) =>
      if id in s.tables.jobs && s.tables.jobs[id].operation == Train && s.tables.jobs[id].status == Running
      then Change(s, AskedToSave(s.tables.jobs[id]), now) else s
    case _ => s
  }

  /** Interrupt one job if it is still queued or running. */
  function InterruptOne(s: Service, id: string, now: nat): Service {
    if id in s.tables.jobs && Waiting(s.tables.jobs[id]) then Change(s, InterruptedJob(s.tables.jobs[id]), now) else s
  }

  /** Interrupt the listed jobs, in order. */
  function InterruptAll(s: Service, ids: seq<string>, now: nat): Service
    decreases |ids|
  {
    if ids == [] then s else InterruptAll(InterruptOne(s, ids[0], now), ids[1..], now)
  }

  ghost predicate Lists(ids: seq<string>, jobs: map<string, Job>) {
    forall id :: id in jobs ==> id in ids
  }

  // Steps.

  datatype Step =
    | SubmitStep(submission: Submission)
    | ActStep(request: string, id: string, action: Action, now: nat)
    | NextJobStep(id: string, proofLocked: bool, now: nat)
    | TakeSecretsStep
    | ProgressStep(phase: string, pausable: bool, now: nat)
    | ExitStep(exit: Exit, now: nat)
    | ForgetStep
    | SchedulerDiesStep
    | HaltStep
    | BeginCleanupStep
    | EndCleanupStep
    | RaiseClosingStep
    | AskToSaveStep(now: nat)
    | SchedulerStopsStep
    | ReconcileStep(ids: seq<string>, now: nat)
    | CrashStep
    | StartStep(ids: seq<string>, now: nat)
    | StartFailsStep(ids: seq<string>, now: nat)

  /** When a step can happen. A submission or an action that found storage working may come to the lock after it
      has failed; halting raises two flags, one after the other. */
  ghost predicate Enabled(s: Service, step: Step) {
    match step
    case StartStep(ids, _) => !s.up && Lists(ids, s.tables.jobs)
    case StartFailsStep(_, _) => !s.up
    case CrashStep => true
    case NextJobStep(id, proofLocked, _) => s.up && s.scheduler == Idle && IsNext(s.tables.jobs, proofLocked, id)
    case TakeSecretsStep => s.up && s.scheduler.Busy?
    case ProgressStep(_, _, _) => s.up && WorkerAt(s)
    case ExitStep(exit, _) => s.up && WorkerAt(s) && CanEnd(s.tables.jobs[s.scheduler.job], exit)
    case ForgetStep => s.up && s.scheduler.Finished?
    case BeginCleanupStep => s.up && !s.halted && !s.cleanup && !exists id :: id in s.tables.jobs && ActiveFetch(s.tables.jobs[id])
    case EndCleanupStep => s.up && s.cleanup
    case AskToSaveStep(_) => s.up && s.closing
    case SchedulerStopsStep => s.up && s.scheduler == Idle && s.closing
    case ReconcileStep(_, _) => s.up && s.closing && !s.halted && s.scheduler == Off
    case _ => s.up
  }

  /** The worker is running its job; an inference job has had its secrets taken first. */
  ghost predicate WorkerAt(s: Service) {
    s.scheduler.Busy? && s.scheduler.job in s.tables.jobs
    && (IsInference(s.tables.jobs[s.scheduler.job]) ==> s.scheduler.job !in s.secrets)
  }

  ghost function Next(s: Service, step: Step): Service
    requires Enabled(s, step)
  {
    match step
    case SubmitStep(q) => SubmitUnderLock(s, q).0
    case ActStep(request, id, action, now) => ActUnderLock(s, request, id, action, now).0
    case NextJobStep(id, _, now) => StartJob(s, id, now)
    case TakeSecretsStep => TakeSecrets(s, s.scheduler.job)
    case ProgressStep(phase, pausable, now) => Change(s, Progressed(s.tables.jobs[s.scheduler.job], phase, pausable), now)
    case ExitStep(exit, now) =>
      Change(s, ExitChanges(s.tables.jobs[s.scheduler.job], exit, s.closing), now).(scheduler := Finished(s.scheduler.job))
    case ForgetStep => s.(scheduler := Idle)
    case SchedulerDiesStep => s.(scheduler := Off)
    case HaltStep => s.(halted := true)
    case BeginCleanupStep => s.(cleanup := true)
    case EndCleanupStep => s.(cleanup := false)
    case RaiseClosingStep => s.(closing := true)
    case AskToSaveStep(now) => AskToSave(s, now)
    case SchedulerStopsStep => s.(scheduler := Off)
    case ReconcileStep(ids, now) => InterruptAll(s, ids, now)
    case CrashStep => Service(s.tables, false, false, false, Off, false, map[], s.key + 1)
    case StartStep(ids, now) => InterruptAll(s, ids, now).(up := true, scheduler := Idle)
    case StartFailsStep(ids, now) => InterruptAll(s, ids, now).(key := s.key + 1)
  }

  ghost predicate CanRun(s: Service, steps: seq<Step>)
    decreases |steps|
  {
    steps == [] || (Enabled(s, steps[0]) && CanRun(Next(s, steps[0]), steps[1..]))
  }

  ghost function Run(s: Service, steps: seq<Step>): Service
    requires CanRun(s, steps)
    decreases |steps|
  {
    if steps == [] then s else Run(Next(s, steps[0]), steps[1..])
  }

  /** A new installation: empty tables, not yet started. */
  function Initial(): Service {
    Service(Tables(map[], [], map[]), false, false, false, Off, false, map[], 0)
  }

  ghost predicate Reachable(s: Service) {
    exists steps :: CanRun(Initial(), steps) && Run(Initial(), steps) == s
  }
}
