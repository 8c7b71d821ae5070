/** The instance-session ledger in numbers: what is used and held, what a stage is allotted, which records are sound, and
    exactly when each operation accepts a request. */
module PilotOutcomes {
  import opened PilotLedger
  import opened PilotBudget
  import opened PilotOperations
  import opened TextOrder
  import opened Wrappers

  // Sums.

  /** The sessions that are counted for a stage, or all of them. */
  function Of(sessions: seq<Session>, only: Option<Stage>): seq<Session> {
    if sessions == [] then []
    else (if only == None || only == Some(sessions[0].stage) then [sessions[0]] else []) + Of(sessions[1..], only)
  }

  /** Time from start to stop, or to the later of now and the last observation while a session runs; a stop at time zero
      reads as none. */
  function Used(sessions: seq<Session>, now: real): real {
    if sessions == [] then 0.0
    else
      var s := sessions[0];
      var last := if s.lastObservedAt > now then s.lastObservedAt else now;
      var end := if s.stoppedAt == None || s.stoppedAt == Some(0.0) then last else s.stoppedAt.value;
      end - s.startedAt + Used(sessions[1..], now)
  }

  /** Time from start to stop, or to the deadline while a session runs. */
  function HeldBy(sessions: seq<Session>): real {
    if sessions == [] then 0.0
    else
      var s := sessions[0];
      (if s.stoppedAt == None then s.deadlineAt else s.stoppedAt.value) - s.startedAt + HeldBy(sessions[1..])
  }

  lemma {:induction false} UsedAppend(sessions: seq<Session>, s: Session, now: real, only: Option<Stage>)
    ensures Used(Of(sessions + [s], only), now) == Used(Of(sessions, only), now) + Used(Of([s], only), now)
    ensures HeldBy(Of(sessions + [s], only)) == HeldBy(Of(sessions, only)) + HeldBy(Of([s], only))
  {
    if sessions == [] {
      assert [] + [s] == [s];
    } else {
      UsedAppend(sessions[1..], s, now, only);
      assert (sessions + [s])[1..] == sessions[1..] + [s];
      var first := if only == None || only == Some(sessions[0].stage) then [sessions[0]] else [];
      var rest, more := Of(sessions[1..], only), Of(sessions[1..] + [s], only);
      assert (first + rest)[|first|..] == rest && (first + more)[|first|..] == more;
    }
  }

  lemma {:induction false} ConsumedIsUsed(sessions: seq<Session>, now: real, only: Option<Stage>)
    ensures Consumed(sessions, now, only) == Used(Of(sessions, only), now)
    ensures Reserved(sessions, only) == HeldBy(Of(sessions, only))
  {
    if sessions != [] {
      var n := |sessions| - 1;
      ConsumedIsUsed(sessions[..n], now, only);
      UsedAppend(sessions[..n], sessions[n], now, only);
      assert sessions == sessions[..n] + [sessions[n]];
      assert [sessions[n]][1..] == [];
    }
  }

  /** The seconds that transfers bring to a stage, and those they take from it. */
  function Brought(transfers: seq<Transfer>, stage: Stage): real {
    if transfers == [] then 0.0 else (if transfers[0].target == stage then transfers[0].seconds else 0.0) + Brought(transfers[1..], stage)
  }

  function Taken(transfers: seq<Transfer>, stage: Stage): real {
    if transfers == [] then 0.0 else (if transfers[0].source == stage then transfers[0].seconds else 0.0) + Taken(transfers[1..], stage)
  }

  lemma {:induction false} MovedAppend(transfers: seq<Transfer>, t: Transfer, stage: Stage)
    ensures Brought(transfers + [t], stage) == Brought(transfers, stage) + Brought([t], stage)
    ensures Taken(transfers + [t], stage) == Taken(transfers, stage) + Taken([t], stage)
  {
    if transfers == [] {
      assert [] + [t] == [t];
    } else {
      MovedAppend(transfers[1..], t, stage);
      assert (transfers + [t])[1..] == transfers[1..] + [t];
    }
  }

  /** A stage has what it began with, 2, 14, 4 and 4 hours, and what transfers brought, less what they took. */
  lemma {:induction false} AllocationIs(transfers: seq<Transfer>, stage: Stage)
    ensures Allocation(transfers, stage) ==
      3600.0 * (if stage == Setup then 2.0 else if stage == Baseline then 14.0 else 4.0) + Brought(transfers, stage) - Taken(transfers, stage)
  {
    EveryStage(stage);
    if transfers != [] {
      var n := |transfers| - 1;
      AllocationIs(transfers[..n], stage);
      MovedAppend(transfers[..n], transfers[n], stage);
      assert transfers == transfers[..n] + [transfers[n]];
      assert [transfers[n]][1..] == [];
    }
  }

  /** What a new session of a stage may still use: the rest of the day's 86400 seconds or of the stage, whichever is less. */
  ghost predicate IsLeft(l: Ledger, stage: Stage, now: real, left: real) {
    var project := 86400.0 - Used(l.sessions, now);
    var own := Allocation(l.transfers, stage) - Used(Of(l.sessions, Some(stage)), now);
    left <= project && left <= own && (left == project || left == own)
  }

  lemma {:induction false} OfAll(sessions: seq<Session>)
    ensures Of(sessions, None) == sessions
  {
    if sessions != [] {
      OfAll(sessions[1..]);
    }
  }

  lemma RemainingIsLeft(l: Ledger, stage: Stage, now: real)
    ensures IsLeft(l, stage, now, Remaining(l, stage, now))
  {
    OfAll(l.sessions);
    ConsumedIsUsed(l.sessions, now, None);
    ConsumedIsUsed(l.sessions, now, Some(stage));
  }

  // Requests.

  predicate NoneRuns(l: Ledger) {
    l.sessions == [] || l.sessions[|l.sessions| - 1].stoppedAt != None
  }

  predicate Fresh(l: Ledger, identifier: string) {
    !exists s :: s in l.sessions && s.identifier == identifier
  }

  /** A session may start exactly when it started in the past, none runs, its name is new, and what it asks for, or all
      that is left when it asks for nothing, is more than five minutes and no more than is left. */
  lemma StartsExactly(l: Ledger, identifier: string, stage: Stage, startedAt: real, requested: Option<real>, now: real, left: real)
    requires IsLeft(l, stage, now, left)
    ensures MayStart(l, identifier, stage, startedAt, requested, now) <==>
      && 0.0 <= startedAt && startedAt <= now && NoneRuns(l) && Fresh(l, identifier)
      && match requested
         case None => 300.0 < left
         case Some(seconds) => 300.0 < seconds && seconds <= left
  {
    RemainingIsLeft(l, stage, now);
  }

  /** The record of a started session: it runs for its allowance and must save five and power off two minutes earlier. */
  lemma StartedIs(l: Ledger, identifier: string, stage: Stage, startedAt: real, requested: Option<real>, now: real, left: real)
    requires IsLeft(l, stage, now, left)
    ensures
      var s := NewSession(identifier, stage, startedAt, Allowance(l, stage, requested, now), now);
      && s.identifier == identifier && s.stage == stage && s.startedAt == startedAt && s.lastObservedAt == now
      && s.deadlineAt - s.startedAt == (if requested.Some? then requested.value else left)
      && s.deadlineAt - s.checkpointAt == 300.0 && s.deadlineAt - s.poweroffAt == 120.0
      && !s.attested && s.stoppedAt == None && s.confirmation == None && s.evidence == None
  {
    RemainingIsLeft(l, stage, now);
  }

  /** A past run may be attested exactly when it lies in the past, none runs, its name is new, it overlaps no recorded
      session, and it fits, to a millionth of a second, what is left of the day and what sessions leave of its stage. */
  lemma AttestsExactly(l: Ledger, identifier: string, stage: Stage, startedAt: real, stoppedAt: real, now: real)
    ensures MayAttest(l, identifier, stage, startedAt, stoppedAt, now) <==>
      && 0.0 <= startedAt && startedAt < stoppedAt && stoppedAt <= now && NoneRuns(l) && Fresh(l, identifier)
      && (forall s :: s in l.sessions && s.stoppedAt.Some? ==> s.stoppedAt.value <= startedAt || stoppedAt <= s.startedAt)
      && stoppedAt - startedAt <= 86400.0 - Used(l.sessions, now) + 0.000001
      && stoppedAt - startedAt <= Allocation(l.transfers, stage) - HeldBy(Of(l.sessions, Some(stage))) + 0.000001
  {
    OfAll(l.sessions);
    ConsumedIsUsed(l.sessions, now, None);
    ConsumedIsUsed(l.sessions, now, Some(stage));
  }

  /** The record of an attested run ends at its stop, with the first 256 characters of the evidence as confirmation. */
  lemma AttestedIs(identifier: string, stage: Stage, startedAt: real, stoppedAt: real, evidence: string)
    ensures
      var s := AttestedSession(identifier, stage, startedAt, stoppedAt, evidence);
      && s.identifier == identifier && s.stage == stage && s.startedAt == startedAt
      && s.deadlineAt == stoppedAt && s.lastObservedAt == stoppedAt && s.stoppedAt == Some(stoppedAt)
      && s.deadlineAt - s.checkpointAt == 300.0 && s.deadlineAt - s.poweroffAt == 120.0
      && s.attested && s.evidence == Some(evidence)
      && s.confirmation.Some? && s.confirmation.value <= evidence
      && (if |evidence| <= 256 then s.confirmation.value == evidence else |s.confirmation.value| == 256)
  {
  }

  /** A transfer may be made exactly between two stages, of at most an hour, and of what the sessions of the first leave,
      to a millionth of a second. */
  lemma TransfersExactly(l: Ledger, source: Stage, target: Stage, seconds: real)
    ensures MayTransfer(l, source, target, seconds) <==>
      && source != target && 0.0 < seconds && seconds <= 3600.0
      && seconds <= Allocation(l.transfers, source) - HeldBy(Of(l.sessions, Some(source))) + 0.000001
  {
    ConsumedIsUsed(l.sessions, 0.0, Some(source));
  }

  // Records.

  /** A name of one to sixty-four lower-case letters, digits and underscores, with a letter first. */
  predicate GoodName(s: string) {
    1 <= |s| <= 64 && s[0] in LOWER && forall i :: 0 <= i < |s| ==> s[i] in LOWER + DIGITS + "_"
  }

  lemma NameIsGood(s: string)
    ensures WellNamed(s) <==> GoodName(s)
  {
    forall i | 0 <= i < |s|
      ensures s[i] in LOWER <==> 'a' <= s[i] <= 'z'
      ensures s[i] in LOWER + DIGITS + "_" <==> 'a' <= s[i] <= 'z' || '0' <= s[i] <= '9' || s[i] == '_'
    {
      LettersAndDigits(s[i]);
    }
  }

  predicate Text(text: Option<string>, limit: nat) {
    text.Some? && text.value != "" && |text.value| <= limit
  }

  /** A sound record with the fixed reserves: an attested one is a closed run with evidence; an observed one has more than
      five minutes, and a confirmed stop that erases nothing observed. */
  predicate Sound(s: Session) {
    && GoodName(s.identifier) && 0.0 <= s.startedAt && s.startedAt <= s.lastObservedAt && s.deadlineAt <= s.startedAt + 86400.0
    && s.checkpointAt == s.deadlineAt - 300.0 && s.poweroffAt == s.deadlineAt - 120.0
    && if s.attested then
         && s.startedAt < s.deadlineAt && 300.0 <= s.deadlineAt
         && s.stoppedAt == Some(s.deadlineAt) && s.lastObservedAt == s.deadlineAt
         && Text(s.confirmation, 256) && Text(s.evidence, 1024)
       else
         && s.deadlineAt > s.startedAt + 300.0 && s.evidence == None
         && match s.stoppedAt
            case None => s.confirmation == None
            case Some(stop) => s.lastObservedAt <= stop && Text(s.confirmation, 256)
  }

  lemma ValidIsSound(s: Session)
    ensures ValidSession(s) && FixedReserves(s) <==> Sound(s)
  {
    NameIsGood(s.identifier);
  }

  /** What every published ledger is: sound records within the limits, of distinct names, one after the other, with only
      the last still running, and no stage below zero. */
  lemma ValidLedgerIs(l: Ledger)
    requires Valid(l)
    ensures |l.sessions| <= 256 && |l.transfers| <= 64
    ensures forall s :: s in l.sessions ==> Sound(s)
    ensures forall t :: t in l.transfers ==> t.source != t.target && 0.0 < t.seconds <= 3600.0 && 1 <= |t.reason| <= 256
    ensures forall stage :: Taken(l.transfers, stage) <= Allocation([], stage) + Brought(l.transfers, stage)
    ensures forall i, j :: 0 <= i < j < |l.sessions| ==>
      && l.sessions[i].identifier != l.sessions[j].identifier
      && l.sessions[i].stoppedAt.Some?
      && (l.sessions[i].stoppedAt.value <= l.sessions[j].startedAt || l.sessions[i].stoppedAt.value == 0.0)
  {
    forall s | s in l.sessions
      ensures Sound(s)
    {
      ValidIsSound(s);
    }
    forall stage
      ensures Taken(l.transfers, stage) <= Allocation([], stage) + Brought(l.transfers, stage)
    {
      AllocationIs(l.transfers, stage);
      AllocationIs([], stage);
      assert Allocation(l.transfers, stage) >= 0.0;
    }
  }

  /** The active session is the one that still runs: in a published ledger there is at most one. */
  lemma ActiveIs(l: Ledger, identifier: string)
    requires Valid(l)
    ensures IsActive(l, identifier) <==> exists s :: s in l.sessions && s.identifier == identifier && s.stoppedAt == None
  {
    if l.sessions != [] {
      assert l.sessions[|l.sessions| - 1] in l.sessions;
    }
    if s :| s in l.sessions && s.identifier == identifier && s.stoppedAt == None {
      var i :| 0 <= i < |l.sessions| && l.sessions[i] == s;
      assert i == |l.sessions| - 1;
    }
  }
}
