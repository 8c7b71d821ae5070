/** What a retry under an accepted identifier is answered, as long as the process lives and after it has gone. */
module JobQueueRetries {
  import opened JobStore
  import opened JobQueue
  import opened JobQueueSafety
  import opened JobQueueTheorems
  import opened Wrappers

  /** No crash and no failed start: the process stays the same. */
  ghost predicate SameProcess(steps: seq<Step>) {
    forall step :: step in steps ==> !step.CrashStep? && !step.StartFailsStep?
  }

  lemma SubmitKeepsKey(s: Service, q: Submission)
    ensures SubmitUnderLock(s, q).0.key == s.key
  {
    if q.request !in s.tables.mutations {
      match q.operation
      case FetchDataset =>
      case Encode => InferenceOutcome(s, q);
      case Decode => InferenceOutcome(s, q);
      case _ => WorkflowOutcome(s, q);
    }
  }

  lemma {:induction false} InterruptKeepsProcess(s: Service, ids: seq<string>, now: nat)
    ensures InterruptAll(s, ids, now).key == s.key && InterruptAll(s, ids, now).halted == s.halted
    decreases |ids|
  {
    if ids != [] {
      InterruptKeepsProcess(InterruptOne(s, ids[0], now), ids[1..], now);
    }
  }

  /** A step draws a new key exactly when it ends the process. */
  lemma StepKey(s: Service, step: Step)
    requires Enabled(s, step)
    ensures Next(s, step).key == if step.CrashStep? || step.StartFailsStep? then s.key + 1 else s.key
  {
    match step
    case SubmitStep(q) => SubmitKeepsKey(s, q);
    case ActStep(request, id, action, now) => ActOutcome(s, request, id, action, now);
    case ReconcileStep(ids, now) => InterruptKeepsProcess(s, ids, now);
    case StartStep(ids, now) => InterruptKeepsProcess(s, ids, now);
    case StartFailsStep(ids, now) => InterruptKeepsProcess(s, ids, now);
    case _ =>
  }

  /** Over a run the key stays exactly when the process does. */
  lemma {:induction false} RunKey(s: Service, steps: seq<Step>)
    requires CanRun(s, steps)
    ensures Run(s, steps).key >= s.key
    ensures Run(s, steps).key == s.key <==> SameProcess(steps)
    decreases |steps|
  {
    if steps != [] {
      StepKey(s, steps[0]);
      RunKey(Next(s, steps[0]), steps[1..]);
      assert steps == [steps[0]] + steps[1..];
    }
  }

  /** The same request again: its operation, its settings and, for encoding and decoding, its secrets. */
  predicate SameRequest(q: Submission, again: Submission) {
    && again.operation == q.operation && again.payload == q.payload
    && (q.operation == Encode || q.operation == Decode ==> again.secret == q.secret)
  }

  /** Exactly when a retry of an accepted submission is answered with its job: it is the same request, and for
      encoding and decoding the process is still the one that accepted it. */
  ghost predicate Answered(q: Submission, again: Submission, steps: seq<Step>) {
    SameRequest(q, again) && (q.operation == Encode || q.operation == Decode ==> SameProcess(steps))
  }

  lemma KnownAnswersRequests(s: Service, again: Submission)
    requires Consistent(s.tables) && !s.halted && again.request in s.tables.mutations
    ensures Submit(s, again) == (s, AnswerTo(s, s.tables.mutations[again.request], FingerprintOf(s.key, again)))
  {
  }

  lemma AcceptedAnswersRetries(accepted: Service, q: Submission, steps: seq<Step>, again: Submission)
    requires Safe(accepted) && CanRun(accepted, steps) && !Run(accepted, steps).halted && again.request == q.request
    requires q.request in accepted.tables.mutations
    requires accepted.tables.mutations[q.request] == Mutation(FingerprintOf(accepted.key, q), q.id)
    ensures
      var later := Run(accepted, steps);
      && q.id in later.tables.jobs
      && Submit(later, again) ==
        (later, if Answered(q, again, steps) then Accepted(later.tables.jobs[q.id]) else Refused(IdentifierConflict))
  {
    RunSafe(accepted, steps);
    RunKey(accepted, steps);
    var later := Run(accepted, steps);
    KnownAnswersRequests(later, again);
    assert FingerprintOf(accepted.key, q) == FingerprintOf(later.key, again) <==> Answered(q, again, steps);
  }

  /** A retry changes nothing, and after any run it is answered with the accepted job as it is now exactly in
      that case; otherwise it is refused. */
  lemma RetryIsAnsweredExactly(s: Service, q: Submission, steps: seq<Step>, again: Submission)
    requires Reachable(s) && s.up && q.request !in s.tables.mutations && Submit(s, q).1.Accepted?
    requires CanRun(Submit(s, q).0, steps) && !Run(Submit(s, q).0, steps).halted && again.request == q.request
    ensures
      var later := Run(Submit(s, q).0, steps);
      && q.id in later.tables.jobs
      && Submit(later, again) ==
        (later, if Answered(q, again, steps) then Accepted(later.tables.jobs[q.id]) else Refused(IdentifierConflict))
  {
    AcceptedIsRecorded(s, q);
    ReachableSafe(s);
    SubmitSafe(s, q);
    SubmitKeepsKey(s, q);
    AcceptedAnswersRetries(Submit(s, q).0, q, steps, again);
  }

  lemma ActionIsRecorded(s: Service, request: string, id: string, action: Action, now: nat)
    requires Safe(s) && request !in s.tables.mutations && Act(s, request, id, action, now).1.Accepted?
    ensures var accepted := Act(s, request, id, action, now).0.tables;
      request in accepted.mutations && accepted.mutations[request] == Mutation(OfAction(id, action), id)
  {
    assert Repeated(s.tables, request, OfAction(id, action)) == None;
    assert s.tables.jobs[id].identifier == id;
  }

  lemma KnownAnswersActions(s: Service, request: string, id: string, action: Action, now: nat)
    requires Consistent(s.tables) && !s.halted && request in s.tables.mutations
    ensures Act(s, request, id, action, now) == (s, AnswerTo(s, s.tables.mutations[request], OfAction(id, action)))
  {
  }

  lemma AcceptedAnswersActions(accepted: Service, request: string, id: string, action: Action, steps: seq<Step>,
                               id': string, action': Action, now': nat)
    requires Safe(accepted) && CanRun(accepted, steps) && !Run(accepted, steps).halted
    requires request in accepted.tables.mutations && accepted.tables.mutations[request] == Mutation(OfAction(id, action), id)
    ensures
      var later := Run(accepted, steps);
      && id in later.tables.jobs
      && Act(later, request, id', action', now') ==
        (later, if id' == id && action' == action then Accepted(later.tables.jobs[id]) else Refused(IdentifierConflict))
  {
    RunSafe(accepted, steps);
    KnownAnswersActions(Run(accepted, steps), request, id', action', now');
  }

  /** An action is not bound to a process: repeated under its identifier it is answered with its job, at any
      later time, exactly when it is the same action of the same job. */
  lemma RetriedActionIsAnswered(s: Service, request: string, id: string, action: Action, now: nat, steps: seq<Step>,
                                id': string, action': Action, now': nat)
    requires Reachable(s) && s.up && request !in s.tables.mutations && Act(s, request, id, action, now).1.Accepted?
    requires CanRun(Act(s, request, id, action, now).0, steps) && !Run(Act(s, request, id, action, now).0, steps).halted
    ensures
      var later := Run(Act(s, request, id, action, now).0, steps);
      && id in later.tables.jobs
      && Act(later, request, id', action', now') ==
        (later, if id' == id && action' == action then Accepted(later.tables.jobs[id]) else Refused(IdentifierConflict))
  {
    ReachableSafe(s);
    ActSafe(s, request, id, action, now);
    ActionIsRecorded(s, request, id, action, now);
    AcceptedAnswersActions(Act(s, request, id, action, now).0, request, id, action, steps, id', action', now');
  }

  lemma FirstIsAccepted(s: Service, q: Submission)
    requires (q.operation == Encode || q.operation == Decode) && q.admitted
    requires s == Initial().(up := true, scheduler := Idle)
    ensures Reachable(s) && Submit(s, q).1.Accepted?
    ensures Submit(s, q).0.tables.jobs.Keys == {q.id}
  {
    var none: seq<Step> := [];
    var _ := Before(Initial(), StartStep([], 0), s, none, s);
    assert WaitingInference(s.tables.jobs) == {};
  }

  lemma RestartIsAnotherProcess(s: Service, ids: seq<string>, now: nat, steps: seq<Step>)
    requires Lists(ids, s.tables.jobs) && steps == [CrashStep, StartStep(ids, now)]
    ensures CanRun(s, steps) && !Run(s, steps).halted && !SameProcess(steps)
  {
    var crashed := Next(s, CrashStep);
    var restarted := Next(crashed, StartStep(ids, now));
    var none: seq<Step> := [];
    var last := Before(crashed, StartStep(ids, now), restarted, none, restarted);
    var both := Before(s, CrashStep, crashed, last, restarted);
    assert both == steps && steps[0] in steps;
    InterruptKeepsProcess(crashed, ids, now);
  }

  /** The same encode or decode request is refused after a crash and a restart. */
  lemma RetryAfterRestartIsRefused(q: Submission, steps: seq<Step>)
    requires (q.operation == Encode || q.operation == Decode) && q.admitted
    requires steps == [CrashStep, StartStep([q.id], 1)]
    ensures
      var s := Next(Initial(), StartStep([], 0));
      var (accepted, reply) := Submit(s, q);
      && reply.Accepted? && CanRun(accepted, steps)
      && Submit(Run(accepted, steps), q) == (Run(accepted, steps), Refused(IdentifierConflict))
  {
    var s := Next(Initial(), StartStep([], 0));
    FirstIsAccepted(s, q);
    RestartIsAnotherProcess(Submit(s, q).0, [q.id], 1, steps);
    RetryIsAnsweredExactly(s, q, steps, q);
  }
}
