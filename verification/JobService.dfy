/** The supervisor as objects: every method does in place exactly what its step says. */
module JobService {
  import opened JobStore
  import opened JobQueue
  import opened Wrappers

  class InferenceSecretStore {
    const capacity: nat
    const key: nat // drawn at random by each process
    var entries: map<string, string>

    constructor (capacity: nat, key: nat)
      ensures this.capacity == capacity && this.key == key && entries == map[]
    {
      this.capacity, this.key := capacity, key;
      entries := map[];
    }

    /** Remember a job's secrets; a new job finds no room in a full store. */
    method Put(job: string, secrets: string) returns (kept: bool)
      modifies this
      ensures kept <==> job in old(entries) || |old(entries)| < capacity
      ensures entries == if kept then old(entries)[job := secrets] else old(entries)
    {
      if job !in entries && |entries| >= capacity {
        return false;
      }
      entries := entries[job := secrets];
      kept := true;
    }

    /** Hand the secrets out exactly once. */
    method Pop(job: string) returns (secrets: Option<string>)
      modifies this
      ensures secrets == if job in old(entries) then Some(old(entries)[job]) else None
      ensures entries == old(entries) - {job}
    {
      secrets := if job in entries then Some(entries[job]) else None;
      entries := entries - {job};
    }

    method Discard(job: string)
      modifies this
      ensures entries == old(entries) - {job}
    {
      entries := entries - {job};
    }
  }

  /** The list holds every job of the table once. */
  ghost predicate ListOf(list: seq<Job>, jobs: map<string, Job>) {
    && (forall id :: id in jobs ==> jobs[id].identifier == id)
    && (forall job :: job in list <==> job in jobs.Values)
    && (forall i, j :: 0 <= i < j < |list| ==> list[i] != list[j])
  }

  lemma ListedInTable(list: seq<Job>, jobs: map<string, Job>)
    requires ListOf(list, jobs)
    ensures forall job :: job in list ==> job.identifier in jobs && jobs[job.identifier] == job
    ensures forall id :: id in jobs ==> jobs[id] in list
  {
    forall job | job in list
      ensures job.identifier in jobs && jobs[job.identifier] == job
    {
      assert job in jobs.Values;
    }
    forall id | id in jobs
      ensures jobs[id] in list
    {
      assert jobs[id] in jobs.Values;
    }
  }

  /** Whether some fetch is queued, running or paused. */
  method AnyActiveFetch(list: seq<Job>, ghost jobs: map<string, Job>) returns (found: bool)
    requires ListOf(list, jobs)
    ensures found <==> exists id :: id in jobs && ActiveFetch(jobs[id])
  {
    ListedInTable(list, jobs);
    for i := 0 to |list|
      invariant forall j :: 0 <= j < i ==> !ActiveFetch(list[j])
    {
      if ActiveFetch(list[i]) {
        return true;
      }
    }
    found := false;
  }

  /** Whether some training of the experiment is queued or running. */
  method AnySameExperiment(list: seq<Job>, ghost jobs: map<string, Job>, experiment: Option<string>) returns (found: bool)
    requires ListOf(list, jobs)
    ensures found <==> exists id :: id in jobs && SameExperiment(jobs[id], experiment)
  {
    ListedInTable(list, jobs);
    for i := 0 to |list|
      invariant forall j :: 0 <= j < i ==> !SameExperiment(list[j], experiment)
    {
      if SameExperiment(list[i], experiment) {
        return true;
      }
    }
    found := false;
  }

  ghost function CountedIn(jobs: map<string, Job>, seen: seq<Job>): set<string> {
    set id | id in WaitingInference(jobs) && jobs[id] in seen
  }

  lemma OneMoreCounted(list: seq<Job>, jobs: map<string, Job>, i: nat)
    requires ListOf(list, jobs) && i < |list|
    ensures list[i].identifier !in CountedIn(jobs, list[..i])
    ensures CountedIn(jobs, list[..i + 1]) ==
      CountedIn(jobs, list[..i]) + (if IsInference(list[i]) && Waiting(list[i]) then {list[i].identifier} else {})
  {
    assert list[i] in list && list[i] in jobs.Values;
    assert list[..i + 1] == list[..i] + [list[i]];
  }

  lemma AllCounted(list: seq<Job>, jobs: map<string, Job>)
    requires ListOf(list, jobs)
    ensures CountedIn(jobs, list) == WaitingInference(jobs)
  {
    forall id | id in WaitingInference(jobs)
      ensures jobs[id] in list
    {
      assert jobs[id] in jobs.Values;
    }
  }

  /** Count the encode and decode jobs that are waiting or running. */
  method CountWaitingInference(list: seq<Job>, ghost jobs: map<string, Job>) returns (count: nat)
    requires ListOf(list, jobs)
    ensures count == |WaitingInference(jobs)|
  {
    count := 0;
    for i := 0 to |list|
      invariant count == |CountedIn(jobs, list[..i])|
    {
      OneMoreCounted(list, jobs, i);
      if IsInference(list[i]) && Waiting(list[i]) {
        count := count + 1;
      }
    }
    assert list[..|list|] == list;
    AllCounted(list, jobs);
  }

  /** The first queued job that may start now. */
  method FirstEligible(list: seq<Job>, proofLocked: bool) returns (first: Option<Job>)
    requires forall i, j :: 0 <= i < j < |list| ==> Older(list[i], list[j])
    ensures first == None <==> forall job :: job in list ==> !Eligible(job, proofLocked)
    ensures first.Some? ==> first.value in list && Eligible(first.value, proofLocked)
    ensures first.Some? ==> forall job :: job in list && Eligible(job, proofLocked) ==> job == first.value || Older(first.value, job)
  {
    for i := 0 to |list|
      invariant forall j :: 0 <= j < i ==> !Eligible(list[j], proofLocked)
    {
      if Eligible(list[i], proofLocked) {
        return Some(list[i]);
      }
    }
    first := None;
  }

  ghost function Identifiers(list: seq<Job>): (ids: seq<string>)
    ensures |ids| == |list| && forall i :: 0 <= i < |list| ==> ids[i] == list[i].identifier
  {
    seq(|list|, i requires 0 <= i < |list| => list[i].identifier)
  }

  /** The rest of a list still shows the table, one entry a job. */
  ghost predicate StillListed(list: seq<Job>, jobs: map<string, Job>, from: nat) {
    && (forall k :: from <= k < |list| ==> list[k].identifier in jobs && jobs[list[k].identifier] == list[k])
    && (forall i, k :: from <= i < k < |list| ==> list[i].identifier != list[k].identifier)
  }

  lemma RestStillListed(list: seq<Job>, before: map<string, Job>, after: map<string, Job>, i: nat)
    requires StillListed(list, before, i) && i < |list|
    requires after - {list[i].identifier} == before - {list[i].identifier}
    ensures StillListed(list, after, i + 1)
  {
    forall k | i < k < |list|
      ensures list[k].identifier in after && after[list[k].identifier] == list[k]
    {
      assert list[k].identifier in before - {list[i].identifier};
      assert list[k].identifier in after - {list[i].identifier};
    }
  }

  lemma ListedByIdentifier(list: seq<Job>, jobs: map<string, Job>)
    requires ListOf(list, jobs)
    ensures StillListed(list, jobs, 0) && Lists(Identifiers(list), jobs)
  {
    forall k | 0 <= k < |list|
      ensures list[k].identifier in jobs && jobs[list[k].identifier] == list[k]
    {
      assert list[k] in list && list[k] in jobs.Values;
    }
    forall id | id in jobs
      ensures id in Identifiers(list)
    {
      assert jobs[id] in jobs.Values && jobs[id] in list;
      var i :| 0 <= i < |list| && list[i] == jobs[id];
      assert Identifiers(list)[i] == id;
    }
  }

  class WorkspaceJobService {
    const store: WorkflowStore
    const secrets: InferenceSecretStore
    var up: bool
    var closing: bool
    var persistenceFailed: bool
    var scheduler: Scheduler
    var cleanup: bool

    function View(): Service
      reads this, store, secrets
    {
      Service(store.View(), up, closing, persistenceFailed, scheduler, cleanup, secrets.entries, secrets.key)
    }

    ghost predicate Valid()
      reads this, store, secrets
    {
      Consistent(store.View()) && secrets.capacity == CAPACITY
    }

    /** A new process over the saved tables: what a crash leaves of the service. */
    constructor (saved: Tables, key: nat)
      requires Consistent(saved)
      ensures Valid() && fresh(store) && fresh(secrets)
      ensures View() == Service(saved, false, false, false, Off, false, map[], key)
    {
      store := new WorkflowStore(saved);
      secrets := new InferenceSecretStore(CAPACITY, key);
      up, closing, persistenceFailed, scheduler, cleanup := false, false, false, Off, false;
    }

    method List() returns (list: seq<Job>)
      requires Valid()
      ensures ListOf(list, store.jobs)
      ensures forall i, j :: 0 <= i < j < |list| ==> Older(list[i], list[j])
    {
      list := store.ListJobs();
    }

    /** The reply to a repeated request. */
    method ReplayRequest(request: string, fingerprint: Fingerprint) returns (reply: Option<Reply>)
      requires Valid()
      ensures reply == Repeated(store.View(), request, fingerprint)
    {
      var previous, conflict := store.Replay(request, fingerprint);
      reply := if conflict then Some(Refused(IdentifierConflict))
               else if previous.Some? then Some(Accepted(previous.value)) else None;
    }

    /** Save a new queued job under its request identifier. */
    method AcceptJob(job: Job, request: string, fingerprint: Fingerprint) returns (reply: Reply)
      requires Valid()
      modifies store
      ensures Valid() && (View(), reply) == Accept(old(View()), job, request, fingerprint)
    {
      SavedConsistent(store.View(), job, true, Some((request, fingerprint)));
      var saved := store.Save(job, true, Some((request, fingerprint)));
      reply := if saved == None then Refused(StorageUnavailable) else Accepted(saved.value);
    }

    method Submit(q: Submission) returns (reply: Reply)
      requires Valid() && !IsFetch(NewJob(q.id, q.operation, None, 0)) && !IsInference(NewJob(q.id, q.operation, None, 0))
      modifies store
      ensures Valid() && (View(), reply) == JobQueue.Submit(old(View()), q)
    {
      if persistenceFailed {
        return Refused(StorageUnavailable);
      }
      var previous := ReplayRequest(q.request, FingerprintOf(secrets.key, q));
      if previous.Some? {
        return previous.value;
      }
      reply := AdmitWorkflow(q);
    }

    method AdmitWorkflow(q: Submission) returns (reply: Reply)
      requires Valid()
      modifies store
      ensures Valid() && (View(), reply) == SubmitWorkflow(old(View()), q)
    {
      if closing {
        return Refused(ServiceStopping);
      }
      if q.operation == Train {
        if !q.admitted {
          return Refused(NotAdmitted);
        }
        var list := List();
        var busy := AnySameExperiment(list, store.jobs, q.experiment);
        if busy {
          return Refused(ExperimentBusy);
        }
      }
      if !q.resolved {
        return Refused(NotAdmitted);
      }
      reply := AcceptJob(NewJob(q.id, q.operation, q.experiment, q.now), q.request, FingerprintOf(secrets.key, q));
    }

    method SubmitFetch(q: Submission) returns (reply: Reply)
      requires Valid() && q.operation == FetchDataset
      modifies store
      ensures Valid() && (View(), reply) == JobQueue.Submit(old(View()), q)
    {
      if persistenceFailed {
        return Refused(StorageUnavailable);
      }
      var previous := ReplayRequest(q.request, FingerprintOf(secrets.key, q));
      if previous.Some? {
        return previous.value;
      }
      reply := AdmitFetch(q);
    }

    method AdmitFetch(q: Submission) returns (reply: Reply)
      requires Valid()
      modifies store
      ensures Valid() && (View(), reply) == JobQueue.SubmitFetch(old(View()), q)
    {
      if closing {
        return Refused(ServiceStopping);
      }
      if !q.admitted {
        return Refused(NotAdmitted);
      }
      if cleanup {
        return Refused(CleanupBusy);
      }
      var list := List();
      var busy := AnyActiveFetch(list, store.jobs);
      if busy {
        return Refused(FetchBusy);
      }
      reply := AcceptJob(NewJob(q.id, FetchDataset, None, q.now), q.request, FingerprintOf(secrets.key, q));
    }

    method SubmitInference(q: Submission) returns (reply: Reply)
      requires Valid() && (q.operation == Encode || q.operation == Decode)
      modifies store, secrets
      ensures Valid() && (View(), reply) == JobQueue.Submit(old(View()), q)
    {
      if persistenceFailed {
        return Refused(StorageUnavailable);
      }
      var previous := ReplayRequest(q.request, FingerprintOf(secrets.key, q));
      if previous.Some? {
        return previous.value;
      }
      reply := AdmitInference(q);
    }

    /** Settings are saved durably first, secrets are kept in memory only. */
    method AdmitInference(q: Submission) returns (reply: Reply)
      requires Valid()
      modifies store, secrets
      ensures Valid() && (View(), reply) == JobQueue.SubmitInference(old(View()), q)
    {
      if !q.admitted {
        return Refused(NotAdmitted);
      }
      if closing {
        return Refused(ServiceStopping);
      }
      var list := List();
      var waiting := CountWaitingInference(list, store.jobs);
      if waiting >= CAPACITY {
        return Refused(QueueFull);
      }
      reply := AcceptJob(NewJob(q.id, q.operation, None, q.now), q.request, FingerprintOf(secrets.key, q));
      if reply.Accepted? {
        var kept := secrets.Put(q.id, q.secret);
        if !kept {
          reply := Refused(QueueFull);
        }
      }
    }

    /** Validate and publish a transition of a known job with its event. */
    method Change(job: Job, now: nat)
      requires Valid() && job.identifier in store.jobs
      modifies store
      ensures Valid() && View() == JobQueue.Change(old(View()), job, now)
    {
      SavedConsistent(store.View(), job.(updatedAt := now), false, None);
      var _ := store.Save(job.(updatedAt := now), false, None);
    }

    method Action(request: string, id: string, action: Action, now: nat) returns (reply: Reply)
      requires Valid()
      modifies store, secrets
      ensures Valid() && (View(), reply) == Act(old(View()), request, id, action, now)
    {
      if persistenceFailed {
        return Refused(StorageUnavailable);
      }
      var previous := ReplayRequest(request, OfAction(id, action));
      if previous.Some? {
        return previous.value;
      }
      if id !in store.jobs {
        return Refused(JobNotFound);
      }
      var job := store.jobs[id];
      if action !in job.availableActions {
        return Refused(ActionUnavailable);
      }
      var changes := if IsFetch(job) then FetchActionChanges(job, action) else ActionChanges(job, action);
      if changes == None {
        return Refused(ActionUnavailable);
      }
      var saved := PublishAction(id, changes.value.(updatedAt := now), request, OfAction(id, action));
      reply := Accepted(saved);
    }

    /** Save an action's transition; cancelling forgets the job's secrets. */
    method PublishAction(id: string, changed: Job, request: string, fingerprint: Fingerprint) returns (saved: Job)
      requires Valid() && id in store.jobs && changed.identifier == id && request !in store.mutations
      modifies store, secrets
      ensures Valid() && saved == Stamped(old(store.View()), changed)
      ensures View() == Acted(old(View()), id, changed, (request, fingerprint))
    {
      SavedConsistent(store.View(), changed, false, Some((request, fingerprint)));
      var published := store.Save(changed, false, Some((request, fingerprint)));
      saved := published.value;
      if saved.status == Cancelled {
        secrets.Discard(id);
      }
    }

    /** Take the next eligible job, marking it running before any work starts. */
    method NextJob(proofLocked: bool, now: nat) returns (next: Option<Job>)
      requires Valid() && scheduler == Idle
      modifies this, store
      ensures Valid()
      ensures next == None ==> View() == old(View())
      ensures next == None ==> forall id :: id in store.jobs ==> !Eligible(store.jobs[id], proofLocked)
      ensures next.Some? ==>
        && next.value.identifier in old(store.jobs)
        && IsNext(old(store.jobs), proofLocked, next.value.identifier)
        && View() == StartJob(old(View()), next.value.identifier, now)
    {
      var list := List();
      next := FirstEligible(list, proofLocked);
      forall id | id in store.jobs
        ensures store.jobs[id] in list
      {
        assert store.jobs[id] in store.jobs.Values;
      }
      if next.Some? {
        assert next.value in store.jobs.Values;
        OlderOrders(next.value, next.value, next.value);
        Change(Started(next.value), now);
        scheduler := Busy(next.value.identifier);
      }
    }

    /** The runner takes an inference job's secrets once. */
    method RunnerTakesSecrets() returns (taken: Option<string>)
      requires Valid() && scheduler.Busy?
      modifies secrets
      ensures Valid() && View() == TakeSecrets(old(View()), scheduler.job)
      ensures taken.Some? <==> scheduler.job in old(secrets.entries)
    {
      taken := secrets.Pop(scheduler.job);
    }

    method Progress(phase: string, pausable: bool, now: nat)
      requires Valid() && scheduler.Busy? && scheduler.job in store.jobs
      modifies store
      ensures Valid()
      ensures View() == JobQueue.Change(old(View()), Progressed(old(store.jobs)[scheduler.job], phase, pausable), now)
    {
      Change(Progressed(store.jobs[scheduler.job], phase, pausable), now);
    }

    /** The end of a worker: its outcome, a stop that was asked for, or a reported failure. */
    method Finish(exit: Exit, now: nat)
      requires Valid() && scheduler.Busy? && scheduler.job in store.jobs && CanEnd(store.jobs[scheduler.job], exit)
      modifies this, store
      ensures Valid()
      ensures View() == JobQueue.Change(old(View()), ExitChanges(old(store.jobs)[old(scheduler).job], exit, closing), now)
        .(scheduler := Finished(old(scheduler).job))
    {
      RecordEnd(scheduler.job, exit, now);
      scheduler := Finished(scheduler.job);
    }

    method RecordEnd(id: string, exit: Exit, now: nat)
      requires Valid() && id in store.jobs
      modifies store
      ensures Valid() && View() == JobQueue.Change(old(View()), ExitChanges(old(store.jobs)[id], exit, closing), now)
    {
      var job := store.jobs[id];
      if exit.FetchStopped? {
        var stopped := StoppedChanges(job, closing);
        if stopped == None {
          ReportFailure(id, "workflow_failed", now);
        } else {
          Change(stopped.value, now);
        }
      } else if exit.Raised? {
        ReportFailure(id, exit.code, now);
      } else {
        var status := if exit.StoppedEarly? then Stopped else if exit.Unsuccessful? then Failed else Completed;
        var phase := if exit.StoppedEarly? then "stopped" else if exit.Unsuccessful? then "failed" else "completed";
        var error := if exit.Unsuccessful? then Some("workflow_incomplete") else None;
        Change(job.(status := status, phase := phase, availableActions := [], error := error), now);
      }
    }

    method ReportFailure(id: string, code: string, now: nat)
      requires Valid() && id in store.jobs
      modifies store
      ensures Valid() && View() == JobQueue.Change(old(View()), FailedJob(old(store.jobs)[id], closing, code), now)
    {
      var job := store.jobs[id];
      if closing && IsInference(job) {
        Change(InterruptedJob(job), now);
        return;
      }
      var state, phase := if closing then Interrupted else Failed, if closing then "interrupted" else "failed";
      Change(job.(status := state, phase := phase, availableActions := [], error := Some(code)), now);
    }

    method Forget()
      requires Valid() && scheduler.Finished?
      modifies this
      ensures Valid() && View() == old(View()).(scheduler := Idle)
    {
      scheduler := Idle;
    }

    /** Raise the flag that refuses new fetches, unless a fetch could need the cache. */
    method BeginCleanup() returns (reply: Reply)
      requires Valid()
      modifies this
      ensures Valid()
      ensures reply == Done <==>
        !persistenceFailed && !old(cleanup) && !exists id :: id in store.jobs && ActiveFetch(store.jobs[id])
      ensures View() == if reply == Done then old(View()).(cleanup := true) else old(View())
    {
      var list := List();
      if persistenceFailed {
        return Refused(StorageUnavailable);
      }
      var active := AnyActiveFetch(list, store.jobs);
      if active {
        return Refused(CacheBusy);
      }
      if cleanup {
        return Refused(CleanupBusy);
      }
      cleanup := true;
      reply := Done;
    }

    method EndCleanup()
      requires Valid()
      modifies this
      ensures Valid() && View() == old(View()).(cleanup := false)
    {
      cleanup := false;
    }

    /** Interrupt a job of the list if it is unfinished; no other job changes. */
    method InterruptIfUnfinished(job: Job, now: nat)
      requires Valid() && job.identifier in store.jobs && store.jobs[job.identifier] == job
      modifies store
      ensures Valid() && View() == InterruptOne(old(View()), job.identifier, now)
      ensures store.jobs - {job.identifier} == old(store.jobs) - {job.identifier}
    {
      if job.status == Queued || job.status == Running {
        Change(InterruptedJob(job), now);
      }
    }

    /** Interrupt every listed job that is still queued or running. */
    method InterruptUnfinished(now: nat) returns (ghost ids: seq<string>)
      requires Valid()
      modifies store
      ensures Valid() && Lists(ids, old(store.jobs))
      ensures View() == InterruptAll(old(View()), ids, now)
    {
      var list := List();
      ids := Identifiers(list);
      ListedByIdentifier(list, store.jobs);
      for i := 0 to |list|
        invariant Valid()
        invariant StillListed(list, store.jobs, i)
        invariant InterruptAll(old(View()), ids, now) == InterruptAll(View(), ids[i..], now)
      {
        ghost var before := store.jobs;
        InterruptIfUnfinished(list[i], now);
        RestStillListed(list, before, store.jobs, i);
        assert ids[i..][1..] == ids[i + 1..];
      }
    }

    /** Reconcile what a crash left unfinished, then start the scheduler. */
    method Start(now: nat) returns (ghost ids: seq<string>)
      requires Valid() && !up
      modifies this, store
      ensures Valid() && Enabled(old(View()), StartStep(ids, now)) && View() == Next(old(View()), StartStep(ids, now))
    {
      ids := InterruptUnfinished(now);
      up, scheduler := true, Idle;
    }

    /** Refuse new work, before the lock is taken. */
    method RaiseClosing()
      requires Valid()
      modifies this
      ensures Valid() && View() == old(View()).(closing := true)
    {
      closing := true;
    }

    /** Under the lock, ask a running training job to save. */
    method AskToSave(now: nat)
      requires Valid() && (scheduler.Busy? ==> scheduler.job in store.jobs)
      modifies store
      ensures Valid() && View() == JobQueue.AskToSave(old(View()), now)
    {
      if scheduler.Busy? {
        var job := store.jobs[scheduler.job];
        if job.operation == Train && job.status == Running {
          Change(job.(requestedAction := Some(Stop), phase := "saving", availableActions := []), now);
        }
      }
    }

    /** After the scheduler has stopped, interrupt what is left. */
    method Reconcile(now: nat) returns (ghost ids: seq<string>)
      requires Valid() && Enabled(View(), ReconcileStep([], now))
      modifies store
      ensures Valid() && Lists(ids, old(store.jobs))
      ensures Enabled(old(View()), ReconcileStep(ids, now)) && View() == Next(old(View()), ReconcileStep(ids, now))
    {
      ids := InterruptUnfinished(now);
    }
  }
}
