/** What each step makes of a job, said without the functions that compute it: submissions, actions, starts,
    progress, ends, the request to save and interruptions, in every reachable state. */
module JobQueueOutcomes {
  import opened JobStore
  import opened JobQueue
  import opened JobQueueSafety
  import opened JobQueueTheorems
  import opened TextOrder
  import opened Wrappers

  // What a publication leaves alone.

  /** One job is published anew at a time: one event with its snapshot is appended under a new greatest identifier,
      and no other job changes. */
  ghost predicate Republished(before: Tables, after: Tables, id: string, now: nat) {
    && id in before.jobs && after.jobs.Keys == before.jobs.Keys
    && (forall other :: other in before.jobs && other != id ==> after.jobs[other] == before.jobs[other])
    && after.jobs[id].updatedAt == now
    && after.events == before.events + [Event(after.jobs[id].latestEvent, after.jobs[id])]
    && (forall i :: 0 <= i < |before.events| ==> before.events[i].identifier < after.jobs[id].latestEvent)
  }

  /** The facts of a job that no step changes. */
  ghost predicate SameJob(before: Job, after: Job) {
    && after.identifier == before.identifier && after.operation == before.operation
    && after.experiment == before.experiment && after.createdAt == before.createdAt
  }

  /** Where a job is: its status, its phase, the actions it offers, the one asked for and its error. */
  ghost predicate IsAt(job: Job, status: Status, phase: string, offered: seq<Action>, asked: Option<Action>, error: Option<string>) {
    job.status == status && job.phase == phase && job.availableActions == offered && job.requestedAction == asked && job.error == error
  }

  lemma ChangeRepublishes(s: Service, job: Job, now: nat)
    requires Consistent(s.tables) && job.identifier in s.tables.jobs
    ensures Republished(s.tables, Change(s, job, now).tables, job.identifier, now)
    ensures var after := Change(s, job, now);
      after.tables.mutations == s.tables.mutations && after.(tables := s.tables) == s
    ensures Change(s, job, now).tables.jobs[job.identifier] == Stamped(s.tables, job.(updatedAt := now))
  {
    LatestIsGreatest(s.tables.events);
  }

  // Actions.

  /** What an accepted action makes of a job. */
  ghost predicate ActionEffect(before: Job, action: Action, after: Job) {
    SameJob(before, after) &&
    match action
    case Cancel =>
      if before.status == Queued || before.status == Paused then IsAt(after, Cancelled, "cancelled", [], Some(Cancel), before.error)
      else before.operation == FetchDataset && before.status == Running && IsAt(after, Running, "cancelling", [], Some(Cancel), before.error)
    case Stop => before.operation == Train && before.status == Running && IsAt(after, Running, "saving", [], Some(Stop), before.error)
    case Pause => before.operation == FetchDataset && before.status == Running && IsAt(after, Running, "pausing", [], Some(Pause), before.error)
    case Resume => before.operation == FetchDataset && before.status == Paused && IsAt(after, Queued, "queued", [Cancel], None, before.error)
    case SupplyMissingInputs => false
  }

  lemma TransitionEffect(job: Job, action: Action)
    requires WellOffered(job) && action in job.availableActions
    ensures Transition(job, action).Some? && ActionEffect(job, action, Transition(job, action).value)
  {
  }

  lemma ActedRepublishes(s: Service, id: string, changed: Job, request: string, fingerprint: Fingerprint)
    requires Consistent(s.tables) && changed.identifier == id && id in s.tables.jobs
    ensures var after := Acted(s, id, changed, (request, fingerprint));
      && Republished(s.tables, after.tables, id, changed.updatedAt)
      && after.tables.jobs[id] == Stamped(s.tables, changed)
      && after.tables.mutations == s.tables.mutations[request := Mutation(fingerprint, id)]
      && after.secrets == (if changed.status == Cancelled then s.secrets - {id} else s.secrets)
      && after.(tables := s.tables, secrets := s.secrets) == s
  {
    LatestIsGreatest(s.tables.events);
  }

  lemma OfferedIsAccepted(s: Service, request: string, id: string, action: Action, now: nat)
    requires Safe(s) && !s.halted && request !in s.tables.mutations && id in s.tables.jobs && action in s.tables.jobs[id].availableActions
    ensures Transition(s.tables.jobs[id], action).Some?
    ensures var changed := Transition(s.tables.jobs[id], action).value.(updatedAt := now);
      Act(s, request, id, action, now) ==
        (Acted(s, id, changed, (request, OfAction(id, action))), Accepted(Stamped(s.tables, changed)))
  {
    TransitionEvolves(s.tables.jobs[id], action);
  }

  lemma OthersAreRefused(s: Service, request: string, id: string, action: Action, now: nat)
    requires request !in s.tables.mutations
    requires s.halted || id !in s.tables.jobs || action !in s.tables.jobs[id].availableActions
    ensures Act(s, request, id, action, now) ==
      (s, Refused(if s.halted then StorageUnavailable else if id !in s.tables.jobs then JobNotFound else ActionUnavailable))
  {
  }

  /** What an action under a new request identifier does: an accepted one does to its job what it names, is recorded,
      makes a cancelled job's secrets forgotten, and changes nothing else. */
  ghost predicate ActionDone(s: Service, request: string, id: string, action: Action, now: nat, after: Service, reply: Reply) {
    && Republished(s.tables, after.tables, id, now)
    && ActionEffect(s.tables.jobs[id], action, after.tables.jobs[id])
    && reply == Accepted(after.tables.jobs[id])
    && after.tables.mutations == s.tables.mutations[request := Mutation(OfAction(id, action), id)]
    && after.secrets == (if after.tables.jobs[id].status == Cancelled then s.secrets - {id} else s.secrets)
    && after.(tables := s.tables, secrets := s.secrets) == s
  }

  /** An action under a new identifier is done exactly when storage works and the job offers it; otherwise it is
      refused for the first reason that applies and nothing changes. */
  lemma ActionDoes(s: Service, request: string, id: string, action: Action, now: nat)
    requires Reachable(s) && request !in s.tables.mutations
    ensures var (after, reply) := Act(s, request, id, action, now);
      if !s.halted && id in s.tables.jobs && action in s.tables.jobs[id].availableActions
      then ActionDone(s, request, id, action, now, after, reply)
      else after == s && reply == Refused(if s.halted then StorageUnavailable else if id !in s.tables.jobs then JobNotFound else ActionUnavailable)
  {
    ReachableSafe(s);
    if !s.halted && id in s.tables.jobs && action in s.tables.jobs[id].availableActions {
      OfferedIsAccepted(s, request, id, action, now);
      TransitionEffect(s.tables.jobs[id], action);
      ActedRepublishes(s, id, Transition(s.tables.jobs[id], action).value.(updatedAt := now), request, OfAction(id, action));
    } else {
      OthersAreRefused(s, request, id, action, now);
    }
  }

  lemma CancelledStays(s: Service, id: string, steps: seq<Step>)
    requires Safe(s) && CanRun(s, steps) && id in s.tables.jobs && s.tables.jobs[id].status == Cancelled
    ensures var later := Run(s, steps).tables;
      id in later.jobs && later.jobs[id] == s.tables.jobs[id]
  {
    RunSafe(s, steps);
  }

  /** A queued or paused job that is cancelled stays cancelled over every further run. */
  lemma CancelledForGood(s: Service, request: string, id: string, now: nat, steps: seq<Step>)
    requires Reachable(s) && s.up && request !in s.tables.mutations && Act(s, request, id, Cancel, now).1.Accepted?
    requires id in s.tables.jobs && (s.tables.jobs[id].status == Queued || s.tables.jobs[id].status == Paused)
    requires CanRun(Act(s, request, id, Cancel, now).0, steps)
    ensures var later := Run(Act(s, request, id, Cancel, now).0, steps).tables;
      id in later.jobs && later.jobs[id].status == Cancelled && later.jobs[id].availableActions == []
  {
    ActionDoes(s, request, id, Cancel, now);
    ReachableSafe(s);
    ActSafe(s, request, id, Cancel, now);
    var after := Act(s, request, id, Cancel, now).0;
    assert ActionEffect(s.tables.jobs[id], Cancel, after.tables.jobs[id]);
    CancelledStays(after, id, steps);
  }

  /** The actions a job offers in every reachable state. */
  lemma OffersAre(s: Service, id: string)
    requires Reachable(s) && id in s.tables.jobs
    ensures var job := s.tables.jobs[id];
      match job.status
      case Queued => job.availableActions == [Cancel] && job.requestedAction == None
      case Running =>
        if job.requestedAction.Some? then job.availableActions == []
        else if job.operation == FetchDataset then job.availableActions == [Cancel] || job.availableActions == [Cancel, Pause]
        else job.availableActions == if job.operation == Train then [Stop] else []
      case Paused => job.operation == FetchDataset && job.availableActions == [Resume, Cancel]
      case _ => job.availableActions == []
  {
    ReachableSafe(s);
  }

  // The scheduler and the worker.

  /** The proof lock holds back the operations that need the proof budget. */
  predicate Startable(job: Job, proofLocked: bool) {
    job.status == Queued
    && (proofLocked ==> job.operation == PrepareDataset || job.operation == Encode || job.operation == Decode || job.operation == FetchDataset)
  }

  /** Creation time decides, and then the identifier. */
  ghost predicate CreatedBefore(a: Job, b: Job) {
    a.createdAt < b.createdAt || (a.createdAt == b.createdAt && (a.identifier == b.identifier || Precedes(a.identifier, b.identifier)))
  }

  lemma OlderIsCreatedBefore(a: Job, b: Job)
    ensures Older(a, b) <==> CreatedBefore(a, b)
  {
    AtMostIsLexicographic(a.identifier, b.identifier);
  }

  /** An idle scheduler starts a job exactly when it is the first in creation order of those that may start. */
  lemma StartsExactly(s: Service, id: string, proofLocked: bool, now: nat)
    ensures Enabled(s, NextJobStep(id, proofLocked, now)) <==>
      && s.up && s.scheduler == Idle && id in s.tables.jobs && Startable(s.tables.jobs[id], proofLocked)
      && forall other :: other in s.tables.jobs && Startable(s.tables.jobs[other], proofLocked) ==>
           CreatedBefore(s.tables.jobs[id], s.tables.jobs[other])
  {
    if id in s.tables.jobs {
      forall other | other in s.tables.jobs
        ensures Older(s.tables.jobs[id], s.tables.jobs[other]) <==> CreatedBefore(s.tables.jobs[id], s.tables.jobs[other])
        ensures Eligible(s.tables.jobs[other], proofLocked) <==> Startable(s.tables.jobs[other], proofLocked)
      {
        OlderIsCreatedBefore(s.tables.jobs[id], s.tables.jobs[other]);
      }
    }
  }

  /** Only the tables changed, and in them one job. */
  ghost predicate OnlyJob(before: Service, after: Service, id: string, now: nat) {
    && Republished(before.tables, after.tables, id, now) && SameJob(before.tables.jobs[id], after.tables.jobs[id])
    && after.tables.mutations == before.tables.mutations
    && after.(tables := before.tables, scheduler := before.scheduler) == before
  }

  lemma ChangeIsOnlyJob(s: Service, job: Job, now: nat)
    requires Consistent(s.tables) && job.identifier in s.tables.jobs && SameJob(s.tables.jobs[job.identifier], job)
    ensures OnlyJob(s, Change(s, job, now), job.identifier, now)
    ensures Change(s, job, now).tables.jobs[job.identifier] == Stamped(s.tables, job.(updatedAt := now))
    ensures Change(s, job, now).scheduler == s.scheduler
  {
    ChangeRepublishes(s, job, now);
  }

  /** A started job is running and offers what a running job of its kind can be asked. */
  lemma StartDoes(s: Service, id: string, proofLocked: bool, now: nat)
    requires Reachable(s) && Enabled(s, NextJobStep(id, proofLocked, now))
    ensures var after := Next(s, NextJobStep(id, proofLocked, now));
      var before := s.tables.jobs[id];
      var offered := if before.operation == Train then [Stop] else if before.operation == FetchDataset then [Cancel] else [];
      && OnlyJob(s, after, id, now) && after.scheduler == Busy(id)
      && IsAt(after.tables.jobs[id], Running, "preparing", offered, None, before.error)
  {
    ReachableSafe(s);
    ChangeIsOnlyJob(s, Started(s.tables.jobs[id]), now);
  }

  /** Progress is named after what was asked of the job; only a fetch nobody asked anything of changes what it offers. */
  lemma ProgressDoes(s: Service, phase: string, pausable: bool, now: nat)
    requires Reachable(s) && Enabled(s, ProgressStep(phase, pausable, now))
    ensures var after := Next(s, ProgressStep(phase, pausable, now));
      var id := s.scheduler.job;
      var before := s.tables.jobs[id];
      var offered :=
        if before.operation == FetchDataset && before.requestedAction == None then if pausable then [Cancel, Pause] else [Cancel]
        else before.availableActions;
      var shown :=
        if before.operation == FetchDataset && before.requestedAction == Some(Cancel) then "cancelling"
        else if before.operation == FetchDataset && before.requestedAction == Some(Pause) then "pausing"
        else if before.operation == Train && before.requestedAction.Some? then "saving"
        else phase;
      && OnlyJob(s, after, id, now) && after.scheduler == s.scheduler
      && IsAt(after.tables.jobs[id], Running, shown, offered, before.requestedAction, before.error)
  {
    ReachableSafe(s);
    ChangeIsOnlyJob(s, Progressed(s.tables.jobs[s.scheduler.job], phase, pausable), now);
  }

  /** What a shutdown says of a job it interrupts. */
  function LossOf(job: Job): Option<string> {
    match job.operation
    case FetchDataset => Some("fetch_interrupted")
    case Encode => Some("inputs_lost")
    case Decode => Some("inputs_lost")
    case _ => job.error
  }

  /** Where each end of a worker leaves its job. */
  ghost predicate ExitEffect(before: Job, exit: Exit, closing: bool, after: Job) {
    var asked := before.requestedAction;
    match exit
    case Succeeded => IsAt(after, Completed, "completed", [], asked, None)
    case FetchFinished => IsAt(after, Completed, "completed", [], asked, None)
    case StoppedEarly => IsAt(after, Stopped, "stopped", [], asked, None)
    case Unsuccessful => IsAt(after, Failed, "failed", [], asked, Some("workflow_incomplete"))
    case FetchStopped =>
      if asked == Some(Cancel) then IsAt(after, Cancelled, "cancelled", [], asked, before.error)
      else if asked == Some(Pause) then IsAt(after, Paused, "paused", [Resume, Cancel], asked, before.error)
      else if closing then IsAt(after, Interrupted, "interrupted", [], asked, Some("fetch_interrupted"))
      else IsAt(after, Failed, "failed", [], asked, Some("workflow_failed"))
    case Raised(code) =>
      if !closing then IsAt(after, Failed, "failed", [], asked, Some(code))
      else if before.operation == Encode || before.operation == Decode then IsAt(after, Interrupted, "interrupted", [], asked, Some("inputs_lost"))
      else IsAt(after, Interrupted, "interrupted", [], asked, Some(code))
  }

  /** Which ends there are for a job, by its kind. */
  predicate Ends(operation: Operation, exit: Exit) {
    match operation
    case FetchDataset => exit.FetchFinished? || exit.FetchStopped? || exit.Raised?
    case Train => exit.Succeeded? || exit.StoppedEarly? || exit.Unsuccessful? || exit.Raised?
    case Encode => exit.Succeeded? || exit.Raised?
    case Decode => exit.Succeeded? || exit.Raised?
    case _ => exit.Succeeded? || exit.Unsuccessful? || exit.Raised?
  }

  lemma ExitHasEffect(job: Job, exit: Exit, closing: bool)
    requires CanEnd(job, exit)
    ensures SameJob(job, ExitChanges(job, exit, closing)) && ExitEffect(job, exit, closing, ExitChanges(job, exit, closing))
    ensures Ends(job.operation, exit)
  {
  }

  /** A worker's end leaves its job where the outcome says, and the scheduler done with it. */
  lemma ExitDoes(s: Service, exit: Exit, now: nat)
    requires Reachable(s) && Enabled(s, ExitStep(exit, now))
    ensures var after := Next(s, ExitStep(exit, now));
      var id := s.scheduler.job;
      && OnlyJob(s, after, id, now) && after.scheduler == Finished(id)
      && Ends(s.tables.jobs[id].operation, exit)
      && ExitEffect(s.tables.jobs[id], exit, s.closing, after.tables.jobs[id])
  {
    ReachableSafe(s);
    var job := s.tables.jobs[s.scheduler.job];
    ExitHasEffect(job, exit, s.closing);
    ChangeIsOnlyJob(s, ExitChanges(job, exit, s.closing), now);
  }

  /** Closing asks a running training to save, and leaves everything else alone. */
  lemma AskToSaveDoes(s: Service, now: nat)
    requires Reachable(s) && Enabled(s, AskToSaveStep(now))
    ensures s.scheduler.Busy? ==> s.scheduler.job in s.tables.jobs
    ensures var after := Next(s, AskToSaveStep(now));
      if s.scheduler.Busy? && s.tables.jobs[s.scheduler.job].operation == Train then
        var id := s.scheduler.job;
        && OnlyJob(s, after, id, now) && after.scheduler == s.scheduler
        && IsAt(after.tables.jobs[id], Running, "saving", [], Some(Stop), s.tables.jobs[id].error)
      else after == s
  {
    ReachableSafe(s);
    if s.scheduler.Busy? {
      ChangeIsOnlyJob(s, AskedToSave(s.tables.jobs[s.scheduler.job]), now);
    }
  }

  /** Shutting down and starting interrupt every job that was queued or running, say what was lost with it, and leave
      all others as they were. */
  ghost predicate InterruptedAll(before: Tables, after: Tables, now: nat) {
    && after.jobs.Keys == before.jobs.Keys && after.mutations == before.mutations
    && forall id :: id in before.jobs ==>
         if before.jobs[id].status == Queued || before.jobs[id].status == Running then
           && SameJob(before.jobs[id], after.jobs[id]) && after.jobs[id].updatedAt == now
           && IsAt(after.jobs[id], Interrupted, "interrupted", [], before.jobs[id].requestedAction, LossOf(before.jobs[id]))
         else after.jobs[id] == before.jobs[id]
  }

  /** One job of the list, if it waits. */
  ghost predicate InterruptedAt(before: Tables, after: Tables, id: string, now: nat) {
    && after.jobs.Keys == before.jobs.Keys && after.mutations == before.mutations
    && (forall other :: other in before.jobs && other != id ==> after.jobs[other] == before.jobs[other])
    && (id in before.jobs ==>
          if before.jobs[id].status == Queued || before.jobs[id].status == Running then
            && SameJob(before.jobs[id], after.jobs[id]) && after.jobs[id].updatedAt == now
            && IsAt(after.jobs[id], Interrupted, "interrupted", [], before.jobs[id].requestedAction, LossOf(before.jobs[id]))
          else after.jobs[id] == before.jobs[id])
  }

  lemma InterruptOneDoes(s: Service, id: string, now: nat)
    requires Consistent(s.tables)
    ensures var after := InterruptOne(s, id, now);
      Consistent(after.tables) && InterruptedAt(s.tables, after.tables, id, now) && after.(tables := s.tables) == s
  {
    if id in s.tables.jobs && Waiting(s.tables.jobs[id]) {
      var job := InterruptedJob(s.tables.jobs[id]);
      SavedConsistent(s.tables, job.(updatedAt := now), false, None);
      ChangeIsOnlyJob(s, job, now);
    }
  }

  lemma InterruptedThen(before: Tables, between: Tables, after: Tables, id: string, now: nat)
    requires InterruptedAt(before, between, id, now) && InterruptedAll(between, after, now)
    ensures InterruptedAll(before, after, now)
  {
    forall other | other in before.jobs && other != id
      ensures between.jobs[other] == before.jobs[other]
    {
    }
  }

  lemma {:induction false} InterruptAllDoes(s: Service, ids: seq<string>, now: nat)
    requires Consistent(s.tables)
    requires forall id :: id in s.tables.jobs && Waiting(s.tables.jobs[id]) ==> id in ids
    ensures InterruptedAll(s.tables, InterruptAll(s, ids, now).tables, now)
    ensures InterruptAll(s, ids, now).(tables := s.tables) == s
    decreases |ids|
  {
    if ids != [] {
      var next := InterruptOne(s, ids[0], now);
      InterruptOneDoes(s, ids[0], now);
      forall id | id in next.tables.jobs && Waiting(next.tables.jobs[id])
        ensures id in ids[1..]
      {
        assert id in s.tables.jobs && Waiting(s.tables.jobs[id]) && id != ids[0];
        assert ids == [ids[0]] + ids[1..];
      }
      InterruptAllDoes(next, ids[1..], now);
      InterruptedThen(s.tables, next.tables, InterruptAll(next, ids[1..], now).tables, ids[0], now);
    }
  }

  /** What reconciling does at a start and at a shutdown. */
  lemma ReconcilingDoes(s: Service, ids: seq<string>, now: nat)
    requires Reachable(s) && Lists(ids, s.tables.jobs)
    ensures Enabled(s, StartStep(ids, now)) ==>
      var after := Next(s, StartStep(ids, now));
      InterruptedAll(s.tables, after.tables, now) && after == s.(tables := after.tables, up := true, scheduler := Idle)
    ensures Enabled(s, ReconcileStep(ids, now)) ==>
      var after := Next(s, ReconcileStep(ids, now));
      InterruptedAll(s.tables, after.tables, now) && after == s.(tables := after.tables)
  {
    ReachableSafe(s);
    InterruptAllDoes(s, ids, now);
  }

  // Submissions.

  /** The encode and decode jobs that are waiting or running. */
  function InferenceAhead(jobs: map<string, Job>): set<string> {
    set id | id in jobs && (jobs[id].operation == Encode || jobs[id].operation == Decode) && (jobs[id].status == Queued || jobs[id].status == Running)
  }

  /** What an acceptance needs, by the kind of request. */
  ghost predicate Admissible(s: Service, q: Submission) {
    var jobs := s.tables.jobs;
    !s.closing &&
    match q.operation
    case FetchDataset =>
      && q.admitted && !s.cleanup
      && forall id :: id in jobs && jobs[id].operation == FetchDataset ==>
           jobs[id].status != Queued && jobs[id].status != Running && jobs[id].status != Paused
    case Encode => q.admitted && |InferenceAhead(jobs)| < 8
    case Decode => q.admitted && |InferenceAhead(jobs)| < 8
    case Train =>
      && q.admitted && q.resolved
      && forall id :: id in jobs && jobs[id].operation == Train && jobs[id].experiment == q.experiment ==>
           jobs[id].status != Queued && jobs[id].status != Running
    case _ => q.resolved
  }

  /** What an accepted submission does: a queued job that can be cancelled, recorded under the request's identifier,
      with its secrets in memory. */
  ghost predicate SubmissionDone(s: Service, q: Submission, after: Service, reply: Reply) {
    var inference := q.operation == Encode || q.operation == Decode;
    var experiment := if inference || q.operation == FetchDataset then None else q.experiment;
    var stamp := LatestEvent(s.tables.events) + 1;
    var job := Job(q.id, Queued, "queued", [Cancel], q.now, q.now, q.operation, experiment, None, None, stamp);
    && reply == Accepted(job)
    && after.tables.jobs == s.tables.jobs[q.id := job]
    && after.tables.events == s.tables.events + [Event(stamp, job)]
    && after.tables.mutations == s.tables.mutations[q.request := Mutation(FingerprintOf(s.key, q), q.id)]
    && after.secrets == (if inference then s.secrets[q.id := q.secret] else s.secrets)
    && after.(tables := s.tables, secrets := s.secrets) == s
  }

  lemma FetchDoes(s: Service, q: Submission)
    requires Safe(s) && q.operation == FetchDataset && q.request !in s.tables.mutations
    ensures var (after, reply) := SubmitFetch(s, q);
      if Admissible(s, q) && q.id !in s.tables.jobs then SubmissionDone(s, q, after, reply) else after == s && reply.Refused?
  {
  }

  lemma InferenceDoes(s: Service, q: Submission)
    requires Safe(s) && (q.operation == Encode || q.operation == Decode) && q.request !in s.tables.mutations
    ensures var (after, reply) := SubmitInference(s, q);
      if Admissible(s, q) && q.id !in s.tables.jobs then SubmissionDone(s, q, after, reply) else after == s && reply.Refused?
  {
    assert InferenceAhead(s.tables.jobs) == WaitingInference(s.tables.jobs);
    SecretsNeverOverflow(s, q);
  }

  lemma WorkflowDoes(s: Service, q: Submission)
    requires Safe(s) && q.operation != FetchDataset && q.operation != Encode && q.operation != Decode && q.request !in s.tables.mutations
    ensures var (after, reply) := SubmitWorkflow(s, q);
      if Admissible(s, q) && q.id !in s.tables.jobs then SubmissionDone(s, q, after, reply) else after == s && reply.Refused?
  {
  }

  /** A submission under a new request identifier is accepted exactly when storage works and it is admissible; otherwise
      it is refused and nothing changes. Its own identifier is new. */
  lemma SubmissionDoes(s: Service, q: Submission)
    requires Reachable(s) && q.request !in s.tables.mutations
    ensures var (after, reply) := Submit(s, q);
      if !s.halted && Admissible(s, q) && q.id !in s.tables.jobs then SubmissionDone(s, q, after, reply)
      else after == s && reply.Refused?
  {
    ReachableSafe(s);
    match q.operation
    case FetchDataset => FetchDoes(s, q);
    case Encode => InferenceDoes(s, q);
    case Decode => InferenceDoes(s, q);
    case _ => WorkflowDoes(s, q);
  }

  /** What a reason for refusing a submission under a new identifier says: a stopping service says so before it looks
      at other jobs, and only an encode or decode request has its files checked before that. */
  ghost predicate Says(s: Service, q: Submission, reason: Refusal) {
    var jobs := s.tables.jobs;
    var inference := q.operation == Encode || q.operation == Decode;
    && (inference && !q.admitted ==> reason == NotAdmitted)
    && (s.closing && (inference ==> q.admitted) ==> reason == ServiceStopping)
    && match reason
       case ServiceStopping => s.closing
       case NotAdmitted => !q.admitted || !q.resolved
       case QueueFull => inference && |InferenceAhead(jobs)| >= 8
       case CleanupBusy => q.operation == FetchDataset && s.cleanup
       case FetchBusy => q.operation == FetchDataset && exists id :: id in jobs && jobs[id].operation == FetchDataset && !Terminal(jobs[id])
       case ExperimentBusy =>
         q.operation == Train && exists id :: id in jobs && jobs[id].operation == Train && jobs[id].experiment == q.experiment && !Terminal(jobs[id])
       case StorageUnavailable => q.id in jobs
       case _ => false
  }

  lemma FetchSays(s: Service, q: Submission)
    requires q.operation == FetchDataset && q.request !in s.tables.mutations && SubmitFetch(s, q).1.Refused?
    ensures Says(s, q, SubmitFetch(s, q).1.reason)
  {
  }

  lemma InferenceSays(s: Service, q: Submission)
    requires Safe(s) && (q.operation == Encode || q.operation == Decode) && q.request !in s.tables.mutations && SubmitInference(s, q).1.Refused?
    ensures Says(s, q, SubmitInference(s, q).1.reason)
  {
    assert InferenceAhead(s.tables.jobs) == WaitingInference(s.tables.jobs);
    SecretsNeverOverflow(s, q);
  }

  lemma WorkflowSays(s: Service, q: Submission)
    requires q.operation != FetchDataset && q.operation != Encode && q.operation != Decode
    requires q.request !in s.tables.mutations && SubmitWorkflow(s, q).1.Refused?
    ensures Says(s, q, SubmitWorkflow(s, q).1.reason)
  {
  }

  /** Why a submission under a new identifier is refused. */
  lemma RefusalSays(s: Service, q: Submission)
    requires Reachable(s) && q.request !in s.tables.mutations && Submit(s, q).1.Refused?
    ensures if s.halted then Submit(s, q).1.reason == StorageUnavailable else Says(s, q, Submit(s, q).1.reason)
  {
    if !s.halted {
      ReachableSafe(s);
      match q.operation
      case FetchDataset => FetchSays(s, q);
      case Encode => InferenceSays(s, q);
      case Decode => InferenceSays(s, q);
      case _ => WorkflowSays(s, q);
    }
  }

  // The browser.

  /** A browser in step that connects again goes on from where it was, unless it has lost its cursor: then it is sent the
      whole table at the greatest event. */
  lemma ReconnectDoes(c: Client, lost: bool, t: Tables)
    requires InStep(c, t)
    ensures Connected(c, lost, t) == if lost then Client(t.jobs, if t.events == [] then 0 else t.events[|t.events| - 1].identifier) else c
  {
  }
}
