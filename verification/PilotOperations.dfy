/** The operator's ledger operations: load, change, validate everything, and publish or change nothing. */
module PilotOperations {
  import opened PilotLedger
  import opened PilotBudget
  import opened Wrappers

  /** Refused by an operation's own check, invalid as a record or a ledger, or saved. */
  datatype Outcome = Refused | Invalid | Saved

  /** The remaining budget a new session may ask for. */
  function Remaining(l: Ledger, stage: Stage, now: real): real {
    Min(TOTAL - Consumed(l.sessions, now, None), Allocation(l.transfers, stage) - Consumed(l.sessions, now, Some(stage)))
  }

  function Allowance(l: Ledger, stage: Stage, requested: Option<real>, now: real): real {
    if requested.Some? then requested.value else Remaining(l, stage, now)
  }

  function NewSession(identifier: string, stage: Stage, startedAt: real, allowance: real, now: real): Session {
    var deadline := startedAt + allowance;
    Session(identifier, stage, false, startedAt, deadline, deadline - SAVE_RESERVE, deadline - SHUTDOWN_RESERVE, now, None, None, None)
  }

  predicate NameUnused(sessions: seq<Session>, identifier: string) {
    forall s :: s in sessions ==> s.identifier != identifier
  }

  predicate LastClosed(sessions: seq<Session>) {
    sessions != [] ==> sessions[|sessions| - 1].stoppedAt.Some?
  }

  /** The checks of `start_session` before it makes a record. */
  predicate MayStart(l: Ledger, identifier: string, stage: Stage, startedAt: real, requested: Option<real>, now: real) {
    && 0.0 <= startedAt <= now
    && LastClosed(l.sessions) && NameUnused(l.sessions, identifier)
    && SAVE_RESERVE < Allowance(l, stage, requested, now) <= Remaining(l, stage, now)
  }

  function Prefix(text: string, limit: nat): string {
    if |text| <= limit then text else text[..limit]
  }

  function AttestedSession(identifier: string, stage: Stage, startedAt: real, stoppedAt: real, evidence: string): Session {
    Session(identifier, stage, true, startedAt, stoppedAt, stoppedAt - SAVE_RESERVE, stoppedAt - SHUTDOWN_RESERVE, stoppedAt,
            Some(stoppedAt), Some(Prefix(evidence, 256)), Some(evidence))
  }

  /** The checks of `attest_closed_session` before it makes a record. */
  predicate MayAttest(l: Ledger, identifier: string, stage: Stage, startedAt: real, stoppedAt: real, now: real) {
    && 0.0 <= startedAt < stoppedAt <= now
    && LastClosed(l.sessions) && NameUnused(l.sessions, identifier)
    && !(exists s :: s in l.sessions && s.stoppedAt.Some? && startedAt < s.stoppedAt.value && s.startedAt < stoppedAt)
    && stoppedAt - startedAt <=
       Min(TOTAL - Consumed(l.sessions, now, None), Allocation(l.transfers, stage) - Reserved(l.sessions, Some(stage))) + TOLERANCE
  }

  predicate MayTransfer(l: Ledger, source: Stage, target: Stage, seconds: real) {
    && source != target && 0.0 < seconds <= MAXIMUM_TRANSFER
    && seconds <= Allocation(l.transfers, source) - Reserved(l.sessions, Some(source)) + TOLERANCE
  }

  /** The open session of that name, if it is the last one. */
  predicate IsActive(l: Ledger, identifier: string) {
    l.sessions != [] && l.sessions[|l.sessions| - 1].identifier == identifier && l.sessions[|l.sessions| - 1].stoppedAt.None?
  }

  lemma LastClosedIsAllClosed(l: Ledger)
    requires Valid(l)
    ensures LastClosed(l.sessions) <==> AllClosed(l.sessions)
  {
    if l.sessions != [] {
      var n := |l.sessions| - 1;
      assert l.sessions[n] in l.sessions;
    }
  }

  /** A startable session's record is valid exactly when its name is. */
  lemma NewSessionValid(l: Ledger, identifier: string, stage: Stage, startedAt: real, requested: Option<real>, now: real)
    requires Valid(l) && MayStart(l, identifier, stage, startedAt, requested, now)
    ensures ValidSession(NewSession(identifier, stage, startedAt, Allowance(l, stage, requested, now), now)) <==> WellNamed(identifier)
  {
    SumsCompare(l.sessions, now, None);
  }

  class PilotBudgetStore {
    var ledger: Ledger

    constructor ()
      ensures Valid(ledger) && ledger == Ledger([], [])
    {
      ledger := Ledger([], []);
      new;
      forall stage
        ensures Allocation([], stage) >= 0.0
      {
        EveryStage(stage);
      }
    }

    /** Verify every record before publishing. */
    method Save(changed: Ledger) returns (outcome: Outcome)
      modifies this
      ensures outcome == if Valid(changed) then Saved else Invalid
      ensures ledger == if Valid(changed) then changed else old(ledger)
    {
      if !ValidRecords(changed) {
        return Invalid;
      }
      var consistent := ConsistentSessions(changed);
      if !consistent {
        return Invalid;
      }
      ledger := changed;
      outcome := Saved;
    }

    method StartSession(identifier: string, stage: Stage, startedAt: real, requested: Option<real>, now: real) returns (outcome: Outcome)
      requires Valid(ledger)
      modifies this
      ensures Valid(ledger)
      ensures outcome == Refused <==> !MayStart(old(ledger), identifier, stage, startedAt, requested, now)
      ensures outcome == Saved <==>
        && MayStart(old(ledger), identifier, stage, startedAt, requested, now)
        && WellNamed(identifier)
        && |old(ledger).sessions| < MAXIMUM_SESSIONS && AfterLast(old(ledger).sessions, startedAt)
      ensures ledger == if outcome != Saved then old(ledger) else old(ledger).(sessions := old(ledger).sessions
        + [NewSession(identifier, stage, startedAt, Allowance(old(ledger), stage, requested, now), now)])
    {
      if !(0.0 <= startedAt <= now) || !LastClosed(ledger.sessions) || !NameUnused(ledger.sessions, identifier) {
        return Refused;
      }
      var remaining := Remaining(ledger, stage, now);
      var allowance := if requested == None then remaining else requested.value;
      if !(SAVE_RESERVE < allowance <= remaining) {
        return Refused;
      }
      var session := NewSession(identifier, stage, startedAt, allowance, now);
      NewSessionValid(ledger, identifier, stage, startedAt, requested, now);
      if !ValidSession(session) {
        return Invalid;
      }
      LastClosedIsAllClosed(ledger);
      StartKeeps(ledger, session, now);
      outcome := Save(ledger.(sessions := ledger.sessions + [session]));
    }

    /** Charge a past run that had no session, keeping sessions in time order. */
    method AttestClosedSession(identifier: string, stage: Stage, startedAt: real, stoppedAt: real, evidence: string, now: real)
      returns (outcome: Outcome)
      requires Valid(ledger)
      modifies this
      ensures Valid(ledger)
      ensures outcome == Refused <==> !MayAttest(old(ledger), identifier, stage, startedAt, stoppedAt, now)
      ensures outcome == Saved <==>
        && MayAttest(old(ledger), identifier, stage, startedAt, stoppedAt, now)
        && ValidSession(AttestedSession(identifier, stage, startedAt, stoppedAt, evidence))
        && |old(ledger).sessions| < MAXIMUM_SESSIONS
        && forall s :: s in old(ledger).sessions ==> s.startedAt != startedAt
      ensures ledger == if outcome != Saved then old(ledger) else
        old(ledger).(sessions := Inserted(old(ledger).sessions, AttestedSession(identifier, stage, startedAt, stoppedAt, evidence)))
    {
      if !MayAttest(ledger, identifier, stage, startedAt, stoppedAt, now) {
        return Refused;
      }
      var session := AttestedSession(identifier, stage, startedAt, stoppedAt, evidence);
      if !ValidSession(session) {
        return Invalid;
      }
      LastClosedIsAllClosed(ledger);
      AttestKeeps(ledger, session, now);
      var position := BisectLeft(ledger.sessions, startedAt);
      outcome := Save(ledger.(sessions := ledger.sessions[..position] + [session] + ledger.sessions[position..]));
    }

    /** Move unused seconds between stages. */
    method TransferAllocation(source: Stage, target: Stage, seconds: real, reason: string) returns (outcome: Outcome)
      requires Valid(ledger)
      modifies this
      ensures Valid(ledger)
      ensures outcome == Refused <==> !MayTransfer(old(ledger), source, target, seconds)
      ensures outcome == Saved <==>
        && MayTransfer(old(ledger), source, target, seconds) && 1 <= |reason| <= 256
        && |old(ledger).transfers| < MAXIMUM_TRANSFERS && seconds <= Allocation(old(ledger).transfers, source)
      ensures ledger == if outcome != Saved then old(ledger) else
        old(ledger).(transfers := old(ledger).transfers + [Transfer(source, target, seconds, reason)])
    {
      if source == target || !(0.0 < seconds <= MAXIMUM_TRANSFER) {
        return Refused;
      }
      var available := Allocation(ledger.transfers, source) - Reserved(ledger.sessions, Some(source));
      if seconds > available + TOLERANCE {
        return Refused;
      }
      var transfer := Transfer(source, target, seconds, reason);
      if !ValidTransfer(transfer) {
        return Invalid;
      }
      TransferKeeps(ledger, transfer);
      outcome := Save(ledger.(transfers := ledger.transfers + [transfer]));
    }

    /** Persist a clock watermark without extending any deadline. */
    method ObserveSession(identifier: string, now: real) returns (outcome: Outcome)
      requires Valid(ledger)
      modifies this
      ensures Valid(ledger)
      ensures outcome == Saved <==>
        IsActive(old(ledger), identifier) && old(ledger).sessions[|old(ledger).sessions| - 1].lastObservedAt <= now
      ensures ledger == if outcome != Saved then old(ledger) else
        var n := |old(ledger).sessions| - 1;
        old(ledger).(sessions := old(ledger).sessions[n := old(ledger).sessions[n].(lastObservedAt := now)])
    {
      if !IsActive(ledger, identifier) {
        return Refused;
      }
      var n := |ledger.sessions| - 1;
      var session := ledger.sessions[n];
      if now < session.lastObservedAt {
        return Refused;
      }
      assert session in ledger.sessions;
      LastContinues(ledger, session.(lastObservedAt := now));
      outcome := Save(ledger.(sessions := ledger.sessions[n := session.(lastObservedAt := now)]));
    }

    /** Close the active session; a clock that went back cannot erase observed time. */
    method ConfirmStopped(identifier: string, confirmation: string, now: real) returns (outcome: Outcome)
      requires Valid(ledger)
      modifies this
      ensures Valid(ledger)
      ensures outcome == Saved <==> IsActive(old(ledger), identifier) && 1 <= |confirmation| <= 256
      ensures ledger == if outcome != Saved then old(ledger) else
        var n := |old(ledger).sessions| - 1;
        var s := old(ledger).sessions[n];
        var stop := if now < s.lastObservedAt then Max(s.lastObservedAt, s.deadlineAt) else now;
        old(ledger).(sessions := old(ledger).sessions[n := s.(stoppedAt := Some(stop), confirmation := Some(confirmation))])
    {
      if !IsActive(ledger, identifier) {
        return Refused;
      }
      var n := |ledger.sessions| - 1;
      var session := ledger.sessions[n];
      var stop := if now < session.lastObservedAt then Max(session.lastObservedAt, session.deadlineAt) else now;
      var stopped := session.(stoppedAt := Some(stop), confirmation := Some(confirmation));
      assert session in ledger.sessions;
      if 1 <= |confirmation| <= 256 {
        LastContinues(ledger, stopped);
      } else {
        assert ledger.sessions[n := stopped][n] == stopped;
        assert !ValidSession(stopped);
      }
      outcome := Save(ledger.(sessions := ledger.sessions[n := stopped]));
    }
  }
}
