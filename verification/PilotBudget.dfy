/** The operations on the instance-session ledger: exactly when each saves, and what the saved ledgers bound. */
module PilotBudget {
  import opened PilotLedger
  import opened Wrappers

  /** A stop time as Python's `or` reads it: zero counts as missing. */
  function OrElse(stopped: Option<real>, other: real): real {
    if stopped.Some? && stopped.value != 0.0 then stopped.value else other
  }

  /** Time charged so far, with an open session running up to the observation. */
  function Consumed(sessions: seq<Session>, now: real, only: Option<Stage>): real {
    if sessions == [] then 0.0
    else
      var last := sessions[|sessions| - 1];
      Consumed(sessions[..|sessions| - 1], now, only)
      + (if Counts(last, only) then OrElse(last.stoppedAt, Max(now, last.lastObservedAt)) - last.startedAt else 0.0)
  }

  /** What a session holds: its elapsed time when closed, its whole allowance when open. */
  function Held(s: Session): real {
    if s.stoppedAt.Some? then s.stoppedAt.value - s.startedAt else s.deadlineAt - s.startedAt
  }

  function Reserved(sessions: seq<Session>, only: Option<Stage>): real {
    if sessions == [] then 0.0
    else
      var last := sessions[|sessions| - 1];
      Reserved(sessions[..|sessions| - 1], only) + (if Counts(last, only) then Held(last) else 0.0)
  }

  ghost predicate AllValid(sessions: seq<Session>) {
    forall s :: s in sessions ==> ValidSession(s)
  }

  predicate AllClosed(sessions: seq<Session>) {
    forall s :: s in sessions ==> s.stoppedAt.Some?
  }

  // Sums.

  lemma {:induction false} SumsCompare(sessions: seq<Session>, now: real, only: Option<Stage>)
    requires AllValid(sessions)
    ensures 0.0 <= Spent(sessions, only) <= Consumed(sessions, now, only)
    ensures Spent(sessions, only) <= Reserved(sessions, only)
    ensures AllClosed(sessions) ==> Spent(sessions, only) == Reserved(sessions, only)
  {
    if sessions != [] {
      var n := |sessions| - 1;
      assert sessions[n] in sessions;
      SumsCompare(sessions[..n], now, only);
    }
  }

  /** Each session's charge, on top of what was spent before it, is within what all sessions hold. */
  lemma {:induction false} ChargeWithinReserved(sessions: seq<Session>, k: nat, only: Option<Stage>)
    requires AllValid(sessions) && k < |sessions| && Counts(sessions[k], only)
    ensures Spent(sessions[..k], only) + Charge(sessions[k]) <= Reserved(sessions, only)
  {
    var n := |sessions| - 1;
    assert sessions[n] in sessions;
    if k == n {
      SumsCompare(sessions[..n], 0.0, only);
    } else {
      assert sessions[..n][..k] == sessions[..k];
      ChargeWithinReserved(sessions[..n], k, only);
    }
  }

  lemma {:induction false} SpentConcatenated(a: seq<Session>, b: seq<Session>, only: Option<Stage>)
    ensures Spent(a + b, only) == Spent(a, only) + Spent(b, only)
  {
    if b == [] {
      assert a + b == a;
    } else {
      assert (a + b)[..|a + b| - 1] == a + b[..|b| - 1];
      SpentConcatenated(a, b[..|b| - 1], only);
    }
  }

  /** Spending of the stages adds up to the whole. */
  lemma {:induction false} StagesAddUp(sessions: seq<Session>, now: real)
    ensures Consumed(sessions, now, Some(Setup)) + Consumed(sessions, now, Some(Baseline)) + Consumed(sessions, now, Some(Ablation))
            + Consumed(sessions, now, Some(Evaluation)) == Consumed(sessions, now, None)
  {
    if sessions != [] {
      StagesAddUp(sessions[..|sessions| - 1], now);
      EveryStage(sessions[|sessions| - 1].stage);
    }
  }

  // Transfers.

  lemma AllocationMoves(transfers: seq<Transfer>, t: Transfer, stage: Stage)
    requires ValidTransfer(t)
    ensures Allocation(transfers + [t], stage) ==
      if stage == t.source then Allocation(transfers, stage) - t.seconds
      else if stage == t.target then Allocation(transfers, stage) + t.seconds
      else Allocation(transfers, stage)
  {
    assert (transfers + [t])[..|transfers|] == transfers;
  }

  lemma TransferFits(l: Ledger, t: Transfer, i: nat)
    requires Valid(l) && ValidTransfer(t) && i < |l.sessions|
    requires t.seconds <= Allocation(l.transfers, t.source) - Reserved(l.sessions, Some(t.source)) + TOLERANCE
    ensures Fits(l.(transfers := l.transfers + [t]), i)
  {
    assert Fits(l, i);
    AllocationMoves(l.transfers, t, l.sessions[i].stage);
    if l.sessions[i].stage == t.source {
      ChargeWithinReserved(l.sessions, i, Some(t.source));
    }
  }

  /** A transfer that passes its own check keeps the ledger valid exactly when there is room for it and the
      source stage does not fall below zero. */
  lemma TransferKeeps(l: Ledger, t: Transfer)
    requires Valid(l) && ValidTransfer(t)
    requires t.seconds <= Allocation(l.transfers, t.source) - Reserved(l.sessions, Some(t.source)) + TOLERANCE
    ensures Valid(l.(transfers := l.transfers + [t])) <==>
      |l.transfers| < MAXIMUM_TRANSFERS && t.seconds <= Allocation(l.transfers, t.source)
  {
    var after := l.(transfers := l.transfers + [t]);
    forall stage
      ensures stage != t.source ==> Allocation(after.transfers, stage) >= 0.0
    {
      AllocationMoves(l.transfers, t, stage);
      assert Allocation(l.transfers, stage) >= 0.0;
    }
    AllocationMoves(l.transfers, t, t.source);
    if t.seconds > Allocation(l.transfers, t.source) {
      assert Allocation(after.transfers, t.source) < 0.0;
      assert !NoNegativeAllocation(after.transfers);
    }
    forall i | 0 <= i < |l.sessions|
      ensures Fits(after, i)
    {
      TransferFits(l, t, i);
    }
  }

  // Attested insertions.

  /** The library's bisection: the first position whose start is not before the given one. */
  function BisectLeft(sessions: seq<Session>, start: real): (p: nat)
    ensures p <= |sessions|
    ensures forall k :: 0 <= k < p ==> sessions[k].startedAt < start
    ensures p < |sessions| ==> sessions[p].startedAt >= start
  {
    if sessions == [] || sessions[0].startedAt >= start then 0 else 1 + BisectLeft(sessions[1..], start)
  }

  function Inserted(sessions: seq<Session>, s: Session): seq<Session> {
    var p := BisectLeft(sessions, s.startedAt);
    sessions[..p] + [s] + sessions[p..]
  }

  predicate Overlaps(item: Session, s: Session)
    requires s.stoppedAt.Some?
  {
    item.stoppedAt.Some? && s.startedAt < item.stoppedAt.value && item.startedAt < s.stoppedAt.value
  }

  /** The checks an attested session passes before it is inserted. */
  ghost predicate Attestable(l: Ledger, s: Session, now: real) {
    && ValidSession(s) && s.attested && FixedReserves(s)
    && AllClosed(l.sessions)
    && (forall item :: item in l.sessions ==> item.identifier != s.identifier && !Overlaps(item, s))
    && Elapsed(s) <= Min(TOTAL - Consumed(l.sessions, now, None),
                         Allocation(l.transfers, s.stage) - Reserved(l.sessions, Some(s.stage))) + TOLERANCE
  }

  lemma StartsAscend(sessions: seq<Session>, i: nat, j: nat)
    requires AllValid(sessions) && Ordered(sessions) && i <= j < |sessions|
    ensures sessions[i].startedAt <= sessions[j].startedAt
  {
    assert sessions[i] in sessions;
    StartsBeforeEnd(sessions[i]);
  }

  lemma InsertedOrdered(sessions: seq<Session>, s: Session)
    requires AllValid(sessions) && Ordered(sessions) && AllClosed(sessions) && ValidSession(s) && s.attested
    requires forall item :: item in sessions ==> !Overlaps(item, s)
    ensures Ordered(Inserted(sessions, s)) <==> forall item :: item in sessions ==> item.startedAt != s.startedAt
  {
    var p := BisectLeft(sessions, s.startedAt);
    var all := Inserted(sessions, s);
    assert all[p] == s;
    forall k | p <= k < |sessions|
      ensures all[k + 1] == sessions[k] && sessions[k].startedAt >= s.startedAt
    {
      StartsAscend(sessions, p, k);
    }
    if forall item :: item in sessions ==> item.startedAt != s.startedAt {
      forall i, j | 0 <= i < j < |all|
        ensures End(all[i]) <= all[j].startedAt
      {
        InsertedPair(sessions, s, p, i, j);
      }
    }
    if item :| item in sessions && item.startedAt == s.startedAt {
      var k :| 0 <= k < |sessions| && sessions[k] == item;
      assert !(End(all[p]) <= all[k + 1].startedAt);
    }
  }

  lemma InsertedPair(sessions: seq<Session>, s: Session, p: nat, i: nat, j: nat)
    requires AllValid(sessions) && Ordered(sessions) && AllClosed(sessions) && ValidSession(s) && s.attested
    requires forall item :: item in sessions ==> !Overlaps(item, s) && item.startedAt != s.startedAt
    requires p <= |sessions|
    requires forall k :: 0 <= k < p ==> sessions[k].startedAt < s.startedAt
    requires forall k :: p <= k < |sessions| ==> sessions[k].startedAt >= s.startedAt
    requires i < j <= |sessions|
    ensures var all := sessions[..p] + [s] + sessions[p..]; End(all[i]) <= all[j].startedAt
  {
    if j == p {
      assert sessions[i] in sessions;
    } else if i == p {
      assert sessions[j - 1] in sessions;
    }
  }

  /** How spending before a position changes with an insertion. */
  lemma InsertedSpent(sessions: seq<Session>, s: Session, p: nat, i: nat, only: Option<Stage>)
    requires p < i <= |sessions| + 1
    ensures Spent((sessions[..p] + [s] + sessions[p..])[..i], only) ==
      Spent(sessions[..i - 1], only) + (if Counts(s, only) then Elapsed(s) else 0.0)
  {
    var middle := sessions[p..i - 1];
    assert (sessions[..p] + [s] + sessions[p..])[..i] == (sessions[..p] + [s]) + middle;
    assert sessions[..i - 1] == sessions[..p] + middle;
    SpentConcatenated(sessions[..p] + [s], middle, only);
    SpentConcatenated(sessions[..p], [s], only);
    SpentConcatenated(sessions[..p], middle, only);
    assert [s][..0] == [];
  }

  lemma InsertedFitsHere(l: Ledger, s: Session, now: real)
    requires Valid(l) && Attestable(l, s, now)
    ensures Fits(l.(sessions := Inserted(l.sessions, s)), BisectLeft(l.sessions, s.startedAt))
  {
    var p := BisectLeft(l.sessions, s.startedAt);
    var all := Inserted(l.sessions, s);
    assert all[p] == s && all[..p] == l.sessions[..p];
    PrefixSpent(l.sessions, p, None);
    PrefixSpent(l.sessions, p, Some(s.stage));
    SumsCompare(l.sessions, now, None);
    SumsCompare(l.sessions, now, Some(s.stage));
  }

  /** A charge after the insertion still fits a cap that the old charge and the inserted time fit. */
  lemma InsertedWithin(sessions: seq<Session>, s: Session, p: nat, i: nat, only: Option<Stage>, cap: real)
    requires AllValid(sessions) && p < i <= |sessions| && Counts(sessions[i - 1], only)
    requires Spent(sessions[..i - 1], only) + Charge(sessions[i - 1]) <= cap
    requires Counts(s, only) ==> Elapsed(s) <= cap - Reserved(sessions, only)
    ensures Spent((sessions[..p] + [s] + sessions[p..])[..i], only) + Charge(sessions[i - 1]) <= cap
  {
    InsertedSpent(sessions, s, p, i, only);
    ChargeWithinReserved(sessions, i - 1, only);
  }

  lemma InsertedFitsLater(l: Ledger, s: Session, now: real, i: nat)
    requires Valid(l) && Attestable(l, s, now) && BisectLeft(l.sessions, s.startedAt) < i <= |l.sessions|
    ensures Fits(l.(sessions := Inserted(l.sessions, s)), i)
  {
    var p := BisectLeft(l.sessions, s.startedAt);
    var item := l.sessions[i - 1];
    assert Inserted(l.sessions, s)[i] == item && Fits(l, i - 1);
    SumsCompare(l.sessions, now, None);
    InsertedWithin(l.sessions, s, p, i, None, TOTAL + TOLERANCE);
    InsertedWithin(l.sessions, s, p, i, Some(item.stage), Allocation(l.transfers, item.stage) + TOLERANCE);
  }

  lemma InsertedFits(l: Ledger, s: Session, now: real, i: nat)
    requires Valid(l) && Attestable(l, s, now) && i <= |l.sessions|
    ensures Fits(l.(sessions := Inserted(l.sessions, s)), i)
  {
    var p := BisectLeft(l.sessions, s.startedAt);
    if i < p {
      var all := Inserted(l.sessions, s);
      assert Fits(l, i) && all[i] == l.sessions[i] && all[..i] == l.sessions[..i];
    } else if i == p {
      InsertedFitsHere(l, s, now);
    } else {
      InsertedFitsLater(l, s, now, i);
    }
  }

  lemma PrefixSpent(sessions: seq<Session>, p: nat, only: Option<Stage>)
    requires AllValid(sessions) && p <= |sessions|
    ensures Spent(sessions[..p], only) <= Spent(sessions, only)
  {
    assert sessions == sessions[..p] + sessions[p..];
    SpentConcatenated(sessions[..p], sessions[p..], only);
    SumsCompare(sessions[p..], 0.0, only);
  }

  /** An attested session that passes its own checks keeps the ledger valid exactly when there is room for it
      and no recorded session starts at the attested instant. */
  lemma AttestKeeps(l: Ledger, s: Session, now: real)
    requires Valid(l) && Attestable(l, s, now)
    ensures Valid(l.(sessions := Inserted(l.sessions, s))) <==>
      |l.sessions| < MAXIMUM_SESSIONS && forall item :: item in l.sessions ==> item.startedAt != s.startedAt
  {
    var p := BisectLeft(l.sessions, s.startedAt);
    var after := l.(sessions := Inserted(l.sessions, s));
    InsertedOrdered(l.sessions, s);
    InsertedRest(l, s);
    forall i | 0 <= i < |after.sessions|
      ensures Fits(after, i)
    {
      InsertedFits(l, s, now, i);
    }
  }

  /** A recorded session that starts at the attested instant, and does not overlap, has no length at all. */
  lemma EqualStartIsZeroLength(l: Ledger, s: Session, now: real, item: Session)
    requires Valid(l) && Attestable(l, s, now) && item in l.sessions && item.startedAt == s.startedAt
    ensures item.stoppedAt == Some(item.startedAt)
  {
    assert !Overlaps(item, s);
    assert ValidSession(item);
  }

  /** An observed session that was confirmed stopped in the second it was started. */
  function StoppedAtOnce(): Session {
    Session("a", Setup, false, 1000.0, 2000.0, 1700.0, 1880.0, 1000.0, Some(1000.0), Some("x"), None)
  }

  /** An attested session from that second on. */
  function FromThatSecond(): Session {
    Session("b", Setup, true, 1000.0, 1500.0, 1200.0, 1380.0, 1500.0, Some(1500.0), Some("x"), Some("x"))
  }

  /** Such a case: both sessions are sound and the attested one passes its checks, but it is not saved. */
  lemma AttestationCanFail()
    ensures
      var l := Ledger([StoppedAtOnce()], []);
      && Valid(l) && Attestable(l, FromThatSecond(), 5000.0)
      && !Valid(l.(sessions := Inserted(l.sessions, FromThatSecond())))
  {
    var l := Ledger([StoppedAtOnce()], []);
    forall stage: Stage
      ensures Allocation([], stage) >= 0.0
    {
      EveryStage(stage);
    }
    assert l.sessions[..0] == [];
    assert Fits(l, 0);
    assert Consumed(l.sessions, 5000.0, None) == 0.0;
    assert Reserved(l.sessions, Some(Setup)) == 0.0;
    AttestKeeps(l, FromThatSecond(), 5000.0);
    assert l.sessions[0].startedAt == FromThatSecond().startedAt;
  }

  /** Two whole transfers out of the setup stage leave it nothing; half a millionth of a second more passes the
      operation's own check, by its tolerance, and is not saved. */
  lemma TransferCanFail()
    ensures
      var whole := Transfer(Setup, Baseline, 3600.0, "x");
      var rest := Transfer(Setup, Baseline, 0.0000005, "x");
      var l := Ledger([], [whole, whole]);
      && Valid(l) && ValidTransfer(rest)
      && rest.seconds <= Allocation(l.transfers, Setup) - Reserved(l.sessions, Some(Setup)) + TOLERANCE
      && !Valid(l.(transfers := l.transfers + [rest]))
  {
    var whole := Transfer(Setup, Baseline, 3600.0, "x");
    var rest := Transfer(Setup, Baseline, 0.0000005, "x");
    var l := Ledger([], [whole, whole]);
    forall stage: Stage
      ensures Allocation(l.transfers, stage) >= 0.0 && (stage == Setup ==> Allocation(l.transfers, stage) == 0.0)
    {
      EveryStage(stage);
      assert l.transfers[..1] == [] + [whole];
      AllocationMoves([], whole, stage);
      AllocationMoves([whole], whole, stage);
      assert [whole] + [whole] == l.transfers;
    }
    TransferKeeps(l, rest);
  }

  lemma InsertedRest(l: Ledger, s: Session)
    requires Valid(l) && ValidSession(s) && FixedReserves(s) && s.stoppedAt.Some? && AllClosed(l.sessions)
    requires forall item :: item in l.sessions ==> item.identifier != s.identifier
    ensures
      var all := Inserted(l.sessions, s);
      && (forall item :: item in all ==> ValidSession(item))
      && DistinctNames(all) && OnlyLastOpen(all) && AllReserved(all) && |all| == |l.sessions| + 1
  {
    var p := BisectLeft(l.sessions, s.startedAt);
    var all := Inserted(l.sessions, s);
    forall i | 0 <= i < |all|
      ensures ValidSession(all[i]) && FixedReserves(all[i]) && all[i].stoppedAt.Some?
    {
      if i != p {
        var item := l.sessions[if i < p then i else i - 1];
        assert item in l.sessions && all[i] == item;
      }
    }
    forall i, j | 0 <= i < j < |all|
      ensures all[i].identifier != all[j].identifier
    {
      var a, b := if i < p then i else i - 1, if j < p then j else j - 1;
      if i != p && j != p {
        assert all[i] == l.sessions[a] && all[j] == l.sessions[b];
      } else {
        assert l.sessions[if i == p then b else a] in l.sessions;
      }
    }
  }

  // New and changed sessions.

  /** The checks a new session passes before it is appended. */
  ghost predicate Startable(l: Ledger, s: Session, now: real) {
    && ValidSession(s) && s.stoppedAt.None? && FixedReserves(s)
    && AllClosed(l.sessions)
    && (forall item :: item in l.sessions ==> item.identifier != s.identifier)
    && s.deadlineAt - s.startedAt <= Min(TOTAL - Consumed(l.sessions, now, None),
                                         Allocation(l.transfers, s.stage) - Consumed(l.sessions, now, Some(s.stage)))
  }

  predicate AfterLast(sessions: seq<Session>, start: real) {
    sessions != [] ==> End(sessions[|sessions| - 1]) <= start
  }

  lemma StartFits(l: Ledger, s: Session, now: real, i: nat)
    requires Valid(l) && Startable(l, s, now) && i <= |l.sessions|
    ensures Fits(l.(sessions := l.sessions + [s]), i)
  {
    var all := l.sessions + [s];
    assert all[..i] == l.sessions[..i];
    if i == |l.sessions| {
      assert l.sessions[..i] == l.sessions;
      SumsCompare(l.sessions, now, None);
      SumsCompare(l.sessions, now, Some(s.stage));
    } else {
      assert Fits(l, i);
    }
  }

  lemma StartOrdered(sessions: seq<Session>, s: Session)
    requires AllValid(sessions) && Ordered(sessions)
    ensures Ordered(sessions + [s]) <==> AfterLast(sessions, s.startedAt)
  {
    var n := |sessions|;
    var all := sessions + [s];
    if AfterLast(sessions, s.startedAt) {
      forall i | 0 <= i < n
        ensures End(sessions[i]) <= s.startedAt
      {
        assert sessions[n - 1] in sessions;
        StartsBeforeEnd(sessions[n - 1]);
      }
    } else {
      assert !(End(all[n - 1]) <= all[n].startedAt);
    }
  }

  /** A new session that passes its own checks keeps the ledger valid exactly when there is room for it and it
      starts no earlier than the last one ended. */
  lemma StartKeeps(l: Ledger, s: Session, now: real)
    requires Valid(l) && Startable(l, s, now)
    ensures Valid(l.(sessions := l.sessions + [s])) <==> |l.sessions| < MAXIMUM_SESSIONS && AfterLast(l.sessions, s.startedAt)
  {
    var after := l.(sessions := l.sessions + [s]);
    StartOrdered(l.sessions, s);
    forall i | 0 <= i < |after.sessions|
      ensures Fits(after, i)
    {
      StartFits(l, s, now, i);
    }
  }

  /** A later state of an open session: only what was observed, and the stop, differ. */
  predicate Continues(before: Session, after: Session) {
    && before.stoppedAt.None?
    && after == before.(lastObservedAt := after.lastObservedAt, stoppedAt := after.stoppedAt, confirmation := after.confirmation)
  }

  /** Observing and stopping the open session always keep the ledger valid. */
  lemma LastContinues(l: Ledger, s: Session)
    requires Valid(l) && l.sessions != [] && Continues(l.sessions[|l.sessions| - 1], s) && ValidSession(s)
    ensures Valid(l.(sessions := l.sessions[|l.sessions| - 1 := s]))
  {
    var n := |l.sessions| - 1;
    var after := l.(sessions := l.sessions[n := s]);
    forall i | 0 <= i <= n
      ensures Fits(after, i)
    {
      assert Fits(l, i) && after.sessions[..i] == l.sessions[..i];
    }
    assert FixedReserves(l.sessions[n]);
    forall i | 0 <= i < n
      ensures End(after.sessions[i]) <= s.startedAt
    {
      assert End(l.sessions[i]) <= l.sessions[n].startedAt;
    }
  }

  // Spending.

  /** No closed session ran past its deadline. */
  predicate NoOverrun(sessions: seq<Session>) {
    forall s :: s in sessions && s.stoppedAt.Some? ==> s.stoppedAt.value <= s.deadlineAt
  }

  lemma {:induction false} PrefixWithinCaps(l: Ledger, n: nat, stage: Stage)
    requires Valid(l) && NoOverrun(l.sessions) && n <= |l.sessions|
    ensures Spent(l.sessions[..n], None) <= TOTAL + TOLERANCE
    ensures Spent(l.sessions[..n], Some(stage)) <= Allocation(l.transfers, stage) + TOLERANCE
    decreases n
  {
    if n == 0 {
      assert Allocation(l.transfers, stage) >= 0.0;
    } else {
      assert l.sessions[n - 1] in l.sessions && Fits(l, n - 1);
      PrefixWithinCaps(l, n - 1, stage);
      TotalsMove(l.sessions, n - 1, None);
      TotalsMove(l.sessions, n - 1, Some(stage));
    }
  }

  /** Without overruns, a valid ledger's spending stays within the project cap and each stage's allocation. */
  lemma WithinCaps(l: Ledger, stage: Stage)
    requires Valid(l) && NoOverrun(l.sessions)
    ensures Spent(l.sessions, None) <= TOTAL + TOLERANCE
    ensures Spent(l.sessions, Some(stage)) <= Allocation(l.transfers, stage) + TOLERANCE
  {
    PrefixWithinCaps(l, |l.sessions|, stage);
    assert l.sessions[..|l.sessions|] == l.sessions;
  }
}
