/** The instance-session ledger: its records, its sequential validator, and the rule that validator decides.
    Times are exact reals; the source's tolerance of a millionth of a second is kept. */
module PilotLedger {
  import opened Wrappers

  datatype Stage = Setup | Baseline | Ablation | Evaluation

  datatype Session = Session(
    identifier: string,
    stage: Stage,
    attested: bool,
    startedAt: real,
    deadlineAt: real,
    checkpointAt: real,
    poweroffAt: real,
    lastObservedAt: real,
    stoppedAt: Option<real>,
    confirmation: Option<string>,
    evidence: Option<string>)

  datatype Transfer = Transfer(source: Stage, target: Stage, seconds: real, reason: string)

  datatype Ledger = Ledger(sessions: seq<Session>, transfers: seq<Transfer>)

  const TOTAL: real := 86400.0
  const TOLERANCE: real := 0.000001
  const SAVE_RESERVE: real := 300.0
  const SHUTDOWN_RESERVE: real := 120.0
  const MAXIMUM_TRANSFER: real := 3600.0
  const MAXIMUM_SESSIONS: nat := 256
  const MAXIMUM_TRANSFERS: nat := 64

  function StageSeconds(stage: Stage): real {
    match stage
    case Setup => 7200.0
    case Baseline => 50400.0
    case Ablation => 14400.0
    case Evaluation => 14400.0
  }

  function Min(a: real, b: real): real {
    if a <= b then a else b
  }

  function Max(a: real, b: real): real {
    if a >= b then a else b
  }

  // Records.

  predicate WellNamed(s: string) {
    && 1 <= |s| <= 64 && 'a' <= s[0] <= 'z'
    && forall i :: 0 <= i < |s| ==> 'a' <= s[i] <= 'z' || '0' <= s[i] <= '9' || s[i] == '_'
  }

  predicate ShortText(text: Option<string>, limit: nat) {
    text.Some? ==> 1 <= |text.value| <= limit
  }

  predicate Nonnegative(s: Session) {
    && 0.0 <= s.startedAt && 0.0 <= s.deadlineAt && 0.0 <= s.checkpointAt && 0.0 <= s.poweroffAt && 0.0 <= s.lastObservedAt
    && (s.stoppedAt.Some? ==> 0.0 <= s.stoppedAt.value)
  }

  predicate ConsistentTimes(s: Session) {
    && (if s.attested then
          && s.evidence.Some? && s.stoppedAt.Some?
          && s.startedAt < s.stoppedAt.value == s.deadlineAt
          && s.lastObservedAt == s.stoppedAt.value
        else
          s.evidence.None? && s.startedAt < s.checkpointAt < s.poweroffAt < s.deadlineAt)
    && s.deadlineAt - s.startedAt <= TOTAL
    && s.startedAt <= s.lastObservedAt
    && (s.stoppedAt.None? <==> s.confirmation.None?)
    && (s.stoppedAt.Some? ==> s.lastObservedAt <= s.stoppedAt.value)
  }

  /** A record that validates on its own. */
  predicate ValidSession(s: Session) {
    WellNamed(s.identifier) && Nonnegative(s) && ConsistentTimes(s) && ShortText(s.confirmation, 256) && ShortText(s.evidence, 1024)
  }

  predicate ValidTransfer(t: Transfer) {
    t.source != t.target && 0.0 < t.seconds <= MAXIMUM_TRANSFER && 1 <= |t.reason| <= 256
  }

  predicate ValidRecords(l: Ledger) {
    && |l.sessions| <= MAXIMUM_SESSIONS && |l.transfers| <= MAXIMUM_TRANSFERS
    && (forall s :: s in l.sessions ==> ValidSession(s))
    && (forall t :: t in l.transfers ==> ValidTransfer(t))
  }

  // Allocations.

  /** A stage's allocation after every transfer. */
  function Allocation(transfers: seq<Transfer>, stage: Stage): real {
    if transfers == [] then StageSeconds(stage)
    else
      var t := transfers[|transfers| - 1];
      Allocation(transfers[..|transfers| - 1], stage)
      - (if t.source == stage then t.seconds else 0.0) + (if t.target == stage then t.seconds else 0.0)
  }

  /** Transfers never change the total. */
  lemma {:induction false} AllocationsSum(transfers: seq<Transfer>)
    ensures Allocation(transfers, Setup) + Allocation(transfers, Baseline) + Allocation(transfers, Ablation)
            + Allocation(transfers, Evaluation) == TOTAL
  {
    if transfers != [] {
      AllocationsSum(transfers[..|transfers| - 1]);
    }
  }

  lemma EveryStage(stage: Stage)
    ensures stage == Setup || stage == Baseline || stage == Ablation || stage == Evaluation
  {
    match stage
    case Setup =>
    case _ =>
  }

  method EffectiveAllocations(transfers: seq<Transfer>) returns (allocations: map<Stage, real>)
    requires forall t :: t in transfers ==> t.source != t.target
    ensures forall stage :: stage in allocations && allocations[stage] == Allocation(transfers, stage)
  {
    allocations := map[Setup := 7200.0, Baseline := 50400.0, Ablation := 14400.0, Evaluation := 14400.0];
    forall stage: Stage
      ensures stage in allocations && allocations[stage] == StageSeconds(stage)
    {
      EveryStage(stage);
    }
    for i := 0 to |transfers|
      invariant forall stage :: stage in allocations && allocations[stage] == Allocation(transfers[..i], stage)
    {
      var t := transfers[i];
      assert transfers[..i + 1][..i] == transfers[..i];
      allocations := allocations[t.source := allocations[t.source] - t.seconds];
      allocations := allocations[t.target := allocations[t.target] + t.seconds];
    }
    assert transfers[..|transfers|] == transfers;
  }

  // Charges.

  function Elapsed(s: Session): real {
    if s.stoppedAt.Some? then s.stoppedAt.value - s.startedAt else 0.0
  }

  /** What a session is checked with: what it used when closed, its allowance when open. */
  function Charge(s: Session): real {
    var allowance := s.deadlineAt - s.startedAt;
    if s.stoppedAt.Some? then Min(allowance, Elapsed(s)) else allowance
  }

  predicate Counts(s: Session, only: Option<Stage>) {
    only.None? || s.stage == only.value
  }

  /** Time used by the closed sessions, of one stage or of all. */
  function Spent(sessions: seq<Session>, only: Option<Stage>): real {
    if sessions == [] then 0.0
    else
      var last := sessions[|sessions| - 1];
      Spent(sessions[..|sessions| - 1], only) + (if Counts(last, only) then Elapsed(last) else 0.0)
  }

  /** Where a session ends for the next one; a stop at time zero reads as none, which is its start. */
  function End(s: Session): real {
    if s.stoppedAt.Some? && s.stoppedAt.value != 0.0 then s.stoppedAt.value else s.startedAt
  }

  // The rule.

  predicate DistinctNames(sessions: seq<Session>) {
    forall i, j :: 0 <= i < j < |sessions| ==> sessions[i].identifier != sessions[j].identifier
  }

  predicate NoNegativeAllocation(transfers: seq<Transfer>) {
    forall stage :: Allocation(transfers, stage) >= 0.0
  }

  /** Sessions are ordered and do not overlap. */
  predicate Ordered(sessions: seq<Session>) {
    forall i, j :: 0 <= i < j < |sessions| ==> End(sessions[i]) <= sessions[j].startedAt
  }

  predicate OnlyLastOpen(sessions: seq<Session>) {
    forall i :: 0 <= i < |sessions| - 1 ==> sessions[i].stoppedAt.Some?
  }

  /** A session's charge fits what the project and its stage had left before it. */
  predicate Fits(l: Ledger, i: nat)
    requires i < |l.sessions|
  {
    var s := l.sessions[i];
    Charge(s) <= Min(TOTAL - Spent(l.sessions[..i], None),
                     Allocation(l.transfers, s.stage) - Spent(l.sessions[..i], Some(s.stage))) + TOLERANCE
  }

  predicate AllFit(l: Ledger) {
    forall i :: 0 <= i < |l.sessions| ==> Fits(l, i)
  }

  predicate FixedReserves(s: Session) {
    s.deadlineAt - s.checkpointAt == SAVE_RESERVE && s.deadlineAt - s.poweroffAt == SHUTDOWN_RESERVE
  }

  predicate AllReserved(sessions: seq<Session>) {
    forall i :: 0 <= i < |sessions| ==> FixedReserves(sessions[i])
  }

  predicate Rule(l: Ledger) {
    && DistinctNames(l.sessions)
    && NoNegativeAllocation(l.transfers)
    && Ordered(l.sessions) && OnlyLastOpen(l.sessions)
    && AllFit(l) && AllReserved(l.sessions)
  }

  predicate Valid(l: Ledger) {
    ValidRecords(l) && Rule(l)
  }

  // The validator.

  method NamesAreDistinct(sessions: seq<Session>) returns (distinct: bool)
    ensures distinct <==> DistinctNames(sessions)
  {
    var seen: set<string> := {};
    for i := 0 to |sessions|
      invariant seen == set s | s in sessions[..i] :: s.identifier
      invariant DistinctNames(sessions[..i])
    {
      if sessions[i].identifier in seen {
        var s :| s in sessions[..i] && s.identifier == sessions[i].identifier;
        return false;
      }
      assert sessions[..i + 1] == sessions[..i] + [sessions[i]];
      forall k | 0 <= k < i
        ensures sessions[k].identifier != sessions[i].identifier
      {
        assert sessions[..i][k] == sessions[k];
      }
      seen := seen + {sessions[i].identifier};
    }
    assert sessions[..|sessions|] == sessions;
    distinct := true;
  }

  /** What the running totals of the loop are. */
  ghost predicate RunningTotals(sessions: seq<Session>, spent: real, stageSpent: map<Stage, real>) {
    spent == Spent(sessions, None) && forall stage :: stage in stageSpent && stageSpent[stage] == Spent(sessions, Some(stage))
  }

  /** The checks of one turn of the loop. */
  predicate TurnPasses(l: Ledger, i: nat)
    requires i < |l.sessions|
  {
    var s := l.sessions[i];
    && s.startedAt >= (if i == 0 then 0.0 else End(l.sessions[i - 1]))
    && (s.stoppedAt.Some? || i == |l.sessions| - 1)
    && Fits(l, i)
    && FixedReserves(s)
  }

  lemma StartsBeforeEnd(s: Session)
    requires ValidSession(s)
    ensures s.startedAt <= End(s)
  {
  }

  /** The turns see neighbours only; the rule orders every pair. */
  lemma {:induction false} NeighboursOrder(sessions: seq<Session>, i: nat, j: nat)
    requires forall s :: s in sessions ==> ValidSession(s)
    requires forall k :: 0 < k < |sessions| ==> End(sessions[k - 1]) <= sessions[k].startedAt
    requires i < j < |sessions|
    ensures End(sessions[i]) <= sessions[j].startedAt
    decreases j
  {
    assert End(sessions[j - 1]) <= sessions[j].startedAt;
    if i < j - 1 {
      NeighboursOrder(sessions, i, j - 1);
      assert sessions[j - 1] in sessions;
      StartsBeforeEnd(sessions[j - 1]);
    }
  }

  lemma TurnsAreRule(l: Ledger)
    requires ValidRecords(l)
    ensures (forall i :: 0 <= i < |l.sessions| ==> TurnPasses(l, i))
      <==> Ordered(l.sessions) && OnlyLastOpen(l.sessions) && AllFit(l) && AllReserved(l.sessions)
  {
    if forall i :: 0 <= i < |l.sessions| ==> TurnPasses(l, i) {
      forall k | 0 < k < |l.sessions|
        ensures End(l.sessions[k - 1]) <= l.sessions[k].startedAt
      {
        assert TurnPasses(l, k);
      }
      forall i, j | 0 <= i < j < |l.sessions|
        ensures End(l.sessions[i]) <= l.sessions[j].startedAt
      {
        NeighboursOrder(l.sessions, i, j);
      }
      forall i | 0 <= i < |l.sessions|
        ensures Fits(l, i) && FixedReserves(l.sessions[i]) && (i < |l.sessions| - 1 ==> l.sessions[i].stoppedAt.Some?)
      {
        assert TurnPasses(l, i);
      }
    }
    if Ordered(l.sessions) && OnlyLastOpen(l.sessions) && AllFit(l) && AllReserved(l.sessions) {
      forall i | 0 <= i < |l.sessions|
        ensures TurnPasses(l, i)
      {
        assert l.sessions[i] in l.sessions && Fits(l, i);
      }
    }
  }

  lemma TotalsMove(sessions: seq<Session>, i: nat, only: Option<Stage>)
    requires i < |sessions|
    ensures Spent(sessions[..i + 1], only) == Spent(sessions[..i], only) + (if Counts(sessions[i], only) then Elapsed(sessions[i]) else 0.0)
  {
    assert sessions[..i + 1][..i] == sessions[..i];
  }

  /** The validator's sequential loop decides exactly the declarative rule. */
  method ConsistentSessions(l: Ledger) returns (consistent: bool)
    requires ValidRecords(l)
    ensures consistent <==> Rule(l)
  {
    TurnsAreRule(l);
    var distinct := NamesAreDistinct(l.sessions);
    if !distinct {
      return false;
    }
    var allocations := EffectiveAllocations(l.transfers);
    if allocations[Setup] < 0.0 || allocations[Baseline] < 0.0 || allocations[Ablation] < 0.0 || allocations[Evaluation] < 0.0 {
      return false;
    }
    forall stage
      ensures Allocation(l.transfers, stage) >= 0.0
    {
      EveryStage(stage);
      assert allocations[stage] >= 0.0;
    }
    consistent := CheckTurns(l, allocations);
  }

  method CheckTurns(l: Ledger, allocations: map<Stage, real>) returns (pass: bool)
    requires forall stage :: stage in allocations && allocations[stage] == Allocation(l.transfers, stage)
    ensures pass <==> forall i :: 0 <= i < |l.sessions| ==> TurnPasses(l, i)
  {
    var previousStop, spent := 0.0, 0.0;
    var stageSpent: map<Stage, real> := map[Setup := 0.0, Baseline := 0.0, Ablation := 0.0, Evaluation := 0.0];
    forall stage: Stage
      ensures stage in stageSpent && stageSpent[stage] == 0.0
    {
      EveryStage(stage);
    }
    for i := 0 to |l.sessions|
      invariant previousStop == if i == 0 then 0.0 else End(l.sessions[i - 1])
      invariant RunningTotals(l.sessions[..i], spent, stageSpent)
      invariant forall k :: 0 <= k < i ==> TurnPasses(l, k)
    {
      var session := l.sessions[i];
      if session.startedAt < previousStop {
        assert !TurnPasses(l, i);
        return false;
      }
      if session.stoppedAt.None? && i != |l.sessions| - 1 {
        assert !TurnPasses(l, i);
        return false;
      }
      var allowance := session.deadlineAt - session.startedAt;
      if session.stoppedAt.Some? {
        allowance := Min(allowance, session.stoppedAt.value - session.startedAt);
      }
      if allowance > Min(TOTAL - spent, allocations[session.stage] - stageSpent[session.stage]) + TOLERANCE {
        assert !TurnPasses(l, i);
        return false;
      }
      if session.deadlineAt - session.checkpointAt != SAVE_RESERVE || session.deadlineAt - session.poweroffAt != SHUTDOWN_RESERVE {
        assert !TurnPasses(l, i);
        return false;
      }
      forall only
        ensures Spent(l.sessions[..i + 1], only) == Spent(l.sessions[..i], only) + (if Counts(session, only) then Elapsed(session) else 0.0)
      {
        TotalsMove(l.sessions, i, only);
      }
      if session.stoppedAt.Some? {
        var elapsed := session.stoppedAt.value - session.startedAt;
        spent := spent + elapsed;
        stageSpent := stageSpent[session.stage := stageSpent[session.stage] + elapsed];
      }
      previousStop := if session.stoppedAt.Some? && session.stoppedAt.value != 0.0 then session.stoppedAt.value else session.startedAt;
    }
    pass := true;
  }
}
