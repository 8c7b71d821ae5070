/** The supervisor's promises, in every reachable state and over every run. */
module JobQueueTheorems {
  import opened JobStore
  import opened JobQueue
  import opened JobQueueSafety
  import opened Wrappers

  /** At most one job runs, at most one fetch is active and no cleanup overlaps one; the job table is the
      fold of the event log, whose identifiers strictly increase. */
  lemma QueueIsSafe(s: Service)
    requires Reachable(s)
    ensures OneRunning(s.tables.jobs)
    ensures OneFetch(s.tables.jobs)
    ensures s.cleanup ==> NoFetch(s.tables.jobs)
    ensures s.tables.jobs == Replayed(map[], s.tables.events) && Increasing(s.tables.events)
  {
    ReachableSafe(s);
  }

  /** Terminal jobs never change and no job disappears. */
  lemma TerminalNeverChanges(s: Service, steps: seq<Step>, id: string)
    requires Reachable(s) && CanRun(s, steps) && id in s.tables.jobs
    ensures id in Run(s, steps).tables.jobs
    ensures Terminal(s.tables.jobs[id]) ==> Run(s, steps).tables.jobs[id] == s.tables.jobs[id]
  {
    ReachableSafe(s);
    RunSafe(s, steps);
  }

  /** A request identifier that was accepted takes no further effect, across crashes and restarts: whatever is
      sent under it changes nothing. It is answered with the accepted job as it is now if it has the accepted
      fingerprint, and refused otherwise. */
  lemma RequestTakesEffectOnce(s: Service, steps: seq<Step>, q: Submission, id: string, action: Action)
    requires Reachable(s) && CanRun(s, steps) && q.request in s.tables.mutations && !Run(s, steps).halted
    ensures
      var later := Run(s, steps);
      var known := s.tables.mutations[q.request];
      && q.request in later.tables.mutations && later.tables.mutations[q.request] == known
      && known.job in later.tables.jobs
      && Submit(later, q) == (later, AnswerTo(later, known, FingerprintOf(later.key, q)))
      && Act(later, q.request, id, action, q.now) == (later, AnswerTo(later, known, OfAction(id, action)))
  {
    ReachableSafe(s);
    RunSafe(s, steps);
  }

  /** How an accepted request answers another one under its identifier. */
  ghost function AnswerTo(s: Service, known: Mutation, fingerprint: Fingerprint): Reply
    requires known.job in s.tables.jobs
  {
    if known.fingerprint == fingerprint then Accepted(s.tables.jobs[known.job]) else Refused(IdentifierConflict)
  }

  /** An accepted submission is durable under its identifier, and an unaccepted one leaves the service alone. */
  ghost predicate Recorded(s: Service, q: Submission, after: Service, reply: Reply) {
    if reply.Accepted? then
      && q.request in after.tables.mutations
      && after.tables.mutations[q.request] == Mutation(FingerprintOf(s.key, q), q.id)
      && q.id !in s.tables.jobs && q.id in after.tables.jobs && after.tables.jobs[q.id] == reply.job
      && reply.job.status == Queued && reply.job.operation == q.operation
    else after == s
  }

  lemma AcceptIsRecorded(s: Service, q: Submission, experiment: Option<string>)
    ensures
      var (after, reply) := Accept(s, NewJob(q.id, q.operation, experiment, q.now), q.request, FingerprintOf(s.key, q));
      Recorded(s, q, after, reply)
  {
  }

  lemma InferenceIsRecorded(s: Service, q: Submission)
    requires Safe(s) && (q.operation == Encode || q.operation == Decode)
    ensures Recorded(s, q, SubmitInference(s, q).0, SubmitInference(s, q).1)
  {
    AcceptIsRecorded(s, q, None);
    SecretsNeverOverflow(s, q);
  }

  lemma FetchIsRecorded(s: Service, q: Submission)
    requires q.operation == FetchDataset
    ensures Recorded(s, q, SubmitFetch(s, q).0, SubmitFetch(s, q).1)
  {
    AcceptIsRecorded(s, q, None);
  }

  lemma WorkflowIsRecorded(s: Service, q: Submission)
    ensures Recorded(s, q, SubmitWorkflow(s, q).0, SubmitWorkflow(s, q).1)
  {
    AcceptIsRecorded(s, q, q.experiment);
  }

  lemma AcceptedIsRecorded(s: Service, q: Submission)
    requires Reachable(s) && q.request !in s.tables.mutations
    ensures Recorded(s, q, Submit(s, q).0, Submit(s, q).1)
  {
    ReachableSafe(s);
    assert Repeated(s.tables, q.request, FingerprintOf(s.key, q)) == None;
    if !s.halted {
      match q.operation
      case FetchDataset => FetchIsRecorded(s, q);
      case Encode => InferenceIsRecorded(s, q);
      case Decode => InferenceIsRecorded(s, q);
      case _ => WorkflowIsRecorded(s, q);
    }
  }

  /** Storing secrets after a durable accept never overflows: a full queue is refused before anything is saved. */
  lemma SecretsNeverOverflow(s: Service, q: Submission)
    requires Safe(s) && (q.operation == Encode || q.operation == Decode)
    ensures var (after, reply) := SubmitInference(s, q);
      && (reply == Refused(QueueFull) ==> after == s && |WaitingInference(s.tables.jobs)| >= CAPACITY)
      && (reply.Accepted? ==> q.id in after.secrets && after.secrets[q.id] == q.secret && |after.secrets| <= CAPACITY)
  {
    if !s.closing && |WaitingInference(s.tables.jobs)| < CAPACITY {
      SubsetIsSmaller(s.secrets.Keys, WaitingInference(s.tables.jobs));
      assert |s.secrets| == |s.secrets.Keys|;
      assert s.secrets[q.id := q.secret].Keys == s.secrets.Keys + {q.id};
    }
  }

  /** Exactly the listed actions are accepted: the refusing branches of the transitions are unreachable. */
  lemma ListedActionsAreAccepted(s: Service, request: string, id: string, action: Action, now: nat)
    requires Reachable(s) && s.up && !s.halted && request !in s.tables.mutations && id in s.tables.jobs
    ensures Act(s, request, id, action, now).1.Accepted? <==> action in s.tables.jobs[id].availableActions
    ensures action in s.tables.jobs[id].availableActions ==> Transition(s.tables.jobs[id], action).Some?
  {
    ReachableSafe(s);
    if action in s.tables.jobs[id].availableActions {
      TransitionEvolves(s.tables.jobs[id], action);
    }
  }

  /** Until the service closes, secrets are held only for queued or running inference jobs. */
  lemma SecretsOnlyForWaitingJobs(s: Service)
    requires Reachable(s) && !s.closing
    ensures forall id :: id in s.secrets ==>
      id in s.tables.jobs && IsInference(s.tables.jobs[id]) && (s.tables.jobs[id].status == Queued || s.tables.jobs[id].status == Running)
  {
    ReachableSafe(s);
    forall id | id in s.secrets
      ensures id in WaitingInference(s.tables.jobs)
    {
      assert id in s.secrets.Keys;
    }
  }

  /** A step leaves secrets of a job that no longer waits exactly when it is the shutdown's reconciliation of
      a job whose secrets are still held: interrupting does not discard them. */
  lemma SecretsKeptExactly(s: Service, step: Step)
    requires Reachable(s) && SecretsExact(s) && Enabled(s, step)
    ensures SecretsExact(Next(s, step)) <==> !(step.ReconcileStep? && exists id :: id in step.ids && id in s.secrets)
  {
    ReachableSafe(s);
    StepSafe(s, step);
    if step.ReconcileStep? {
      var after := InterruptAll(s, step.ids, step.now);
      InterruptSafe(s, step.ids, step.now);
      SameJobs(s, step.ids, step.now);
      if id :| id in step.ids && id in s.secrets {
        assert id in s.secrets.Keys && id in WaitingInference(s.tables.jobs);
        InterruptLeavesNone(s, step.ids, step.now, id);
        assert id in after.secrets.Keys && id !in WaitingInference(after.tables.jobs);
      } else {
        forall id | id in s.secrets
          ensures id in WaitingInference(after.tables.jobs)
        {
          assert id in s.secrets.Keys && id in WaitingInference(s.tables.jobs);
          InterruptKeepsOthers(s, step.ids, step.now, id);
        }
      }
    }
  }

  lemma {:induction false} InterruptKeepsOthers(s: Service, ids: seq<string>, now: nat, id: string)
    requires Consistent(s.tables) && id in s.tables.jobs && id !in ids
    ensures var jobs := InterruptAll(s, ids, now).tables.jobs; id in jobs && jobs[id] == s.tables.jobs[id]
    decreases |ids|
  {
    if ids != [] {
      var first := ids[0];
      var next := s;
      if first in s.tables.jobs && Waiting(s.tables.jobs[first]) {
        SavedConsistent(s.tables, InterruptedJob(s.tables.jobs[first]).(updatedAt := now), false, None);
        next := Change(s, InterruptedJob(s.tables.jobs[first]), now);
      }
      InterruptKeepsOthers(next, ids[1..], now, id);
    }
  }

  /** One more step in front of a run. */
  lemma Before(s: Service, step: Step, next: Service, steps: seq<Step>, end: Service) returns (longer: seq<Step>)
    requires Enabled(s, step) && Next(s, step) == next && CanRun(next, steps) && Run(next, steps) == end
    ensures longer == [step] + steps && CanRun(s, longer) && Run(s, longer) == end
  {
    longer := [step] + steps;
    assert longer[1..] == steps;
  }

  /** A submission, then a shutdown before the job starts, is such a case. */
  lemma SecretsCanOutliveTheirJob(q: Submission)
    requires q.operation == Encode && q.admitted
    ensures exists steps ::
      && CanRun(Initial(), steps)
      && q.id in Run(Initial(), steps).secrets
      && q.id in Run(Initial(), steps).tables.jobs && Run(Initial(), steps).tables.jobs[q.id].status == Interrupted
  {
    var s0 := Initial();
    var s1 := s0.(up := true, scheduler := Idle);
    var t1 := Saved(s1.tables, NewJob(q.id, Encode, None, q.now), true, Some((q.request, FingerprintOf(s1.key, q))));
    var s2 := s1.(tables := t1, secrets := map[q.id := q.secret]);
    var s3 := s2.(closing := true);
    var s4 := s3.(scheduler := Off);
    var s5 := Change(s4, InterruptedJob(t1.jobs[q.id]), 2);
    assert WaitingInference(s1.tables.jobs) == {};
    assert InterruptAll(s4, [q.id], 2) == s5 by {
      assert [q.id][1..] == [];
    }
    var steps: seq<Step> := [];
    steps := Before(s4, ReconcileStep([q.id], 2), s5, steps, s5);
    steps := Before(s3, SchedulerStopsStep, s4, steps, s5);
    steps := Before(s2, RaiseClosingStep, s3, steps, s5);
    steps := Before(s1, SubmitStep(q), s2, steps, s5);
    steps := Before(s0, StartStep([], 0), s1, steps, s5);
  }

  // The browser.

  /** What happens while a browser follows: the service takes a step, or the browser reads a page or connects
      again, with its cursor or having lost it. */
  datatype Move = Serve(step: Step) | Read | Reconnect(lost: bool)

  /** A connection is sent a reset when it brings no cursor or one ahead of the log. */
  function Connected(c: Client, lost: bool, t: Tables): Client {
    if lost || c.cursor > LatestEvent(t.events) then Snapshot(t) else c
  }

  ghost predicate CanFollow(s: Service, moves: seq<Move>)
    decreases |moves|
  {
    moves == []
    || (match moves[0]
        case Serve(step) => Enabled(s, step) && CanFollow(Next(s, step), moves[1..])
        case _ => CanFollow(s, moves[1..]))
  }

  /** The browser and the service after the moves. */
  ghost function Followed(c: Client, s: Service, moves: seq<Move>): (Client, Service)
    requires CanFollow(s, moves)
    decreases |moves|
  {
    if moves == [] then (c, s)
    else
      match moves[0]
      case Serve(step) => Followed(c, Next(s, step), moves[1..])
      case Read => Followed(ReadPage(c, s.tables), s, moves[1..])
      case Reconnect(lost) => Followed(Connected(c, lost, s.tables), s, moves[1..])
  }

  /** The browser shows the log up to its cursor, which is not ahead of the log. */
  ghost predicate InStep(c: Client, t: Tables) {
    Synchronized(c, t.events) && c.cursor <= LatestEvent(t.events)
  }

  /** A browser that starts from a snapshot of any reachable service, and reads pages and connects again in any
      order between any steps, always shows what the log says up to its cursor, which is never ahead of it;
      reading on from there brings it to the server's table. */
  lemma BrowserFollows(s: Service, moves: seq<Move>)
    requires Reachable(s) && CanFollow(s, moves)
    ensures
      var (c, later) := Followed(Snapshot(s.tables), s, moves);
      && Consistent(later.tables)
      && Synchronized(c, later.tables.events) && c.cursor <= LatestEvent(later.tables.events)
      && CaughtUp(c, later.tables).table == later.tables.jobs
  {
    ReachableSafe(s);
    SnapshotSynchronized(s.tables);
    FollowingStaysInStep(Snapshot(s.tables), s, moves);
    var (c, later) := Followed(Snapshot(s.tables), s, moves);
    ClientReachesTable(c, later.tables);
  }

  lemma {:induction false} FollowingStaysInStep(c: Client, s: Service, moves: seq<Move>)
    requires Safe(s) && InStep(c, s.tables) && CanFollow(s, moves)
    ensures var (end, later) := Followed(c, s, moves); Safe(later) && InStep(end, later.tables)
    decreases |moves|
  {
    if moves != [] {
      match moves[0]
      case Serve(step) =>
        ServingKeepsInStep(c, s, step);
        FollowingStaysInStep(c, Next(s, step), moves[1..]);
      case Read =>
        ReadingKeepsInStep(c, s.tables);
        FollowingStaysInStep(ReadPage(c, s.tables), s, moves[1..]);
      case Reconnect(lost) =>
        SnapshotSynchronized(s.tables);
        FollowingStaysInStep(Connected(c, lost, s.tables), s, moves[1..]);
    }
  }

  lemma ServingKeepsInStep(c: Client, s: Service, step: Step)
    requires Safe(s) && InStep(c, s.tables) && Enabled(s, step)
    ensures Safe(Next(s, step)) && InStep(c, Next(s, step).tables)
  {
    StepSafe(s, step);
    var before, after := s.tables.events, Next(s, step).tables.events;
    PrefixKeepsSynchronized(c, before, after);
    LatestGrows(before, after);
  }

  lemma ReadingKeepsInStep(c: Client, t: Tables)
    requires Consistent(t) && InStep(c, t)
    ensures InStep(ReadPage(c, t), t)
  {
    ReadPageSynchronized(c, t);
    SplitAt(t.events, c.cursor);
    LatestIsGreatest(t.events);
    var page := Page(t.events, c.cursor);
    if page != [] {
      var i := |UpTo(t.events, c.cursor)| + |page| - 1;
      assert t.events[i] == page[|page| - 1];
    }
  }

  lemma LatestGrows(before: seq<Event>, after: seq<Event>)
    requires before <= after && Increasing(after)
    ensures LatestEvent(before) <= LatestEvent(after)
  {
    if before != [] {
      assert after[|before| - 1] == before[|before| - 1];
      LatestIsGreatest(after);
    }
  }

  lemma PrefixKeepsSynchronized(c: Client, before: seq<Event>, after: seq<Event>)
    requires before <= after && Increasing(after) && c.cursor <= LatestEvent(before)
    requires forall i :: 0 <= i < |after| ==> 0 < after[i].identifier
    ensures UpTo(after, c.cursor) == UpTo(before, c.cursor)
  {
    SplitAt(before, c.cursor);
    var read, left := UpTo(before, c.cursor), After(before, c.cursor);
    var more := after[|before|..];
    assert after == read + (left + more);
    forall i | 0 <= i < |more|
      ensures more[i].identifier > c.cursor
    {
      LaterThanLatest(before, after, |before| + i);
    }
    UpToPrefix(read, left + more, c.cursor);
  }

  lemma LaterThanLatest(before: seq<Event>, after: seq<Event>, i: nat)
    requires before <= after && Increasing(after) && |before| <= i < |after| && 0 < after[i].identifier
    ensures after[i].identifier > LatestEvent(before)
  {
    if before != [] {
      assert after[|before| - 1] == before[|before| - 1];
    }
  }
}
