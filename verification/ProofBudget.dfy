/** The reservation ledger of the local proof: time is reserved before work starts, charged as used on a clean
    exit and in full after a crash. */
module ProofBudget {
  import opened TextOrder
  import opened Wrappers

  datatype Experiment = Experiment(identifier: string, consumed: real)

  datatype Active = Active(identifier: string, reserved: real)

  datatype Ledger = Ledger(consumed: real, experiments: seq<Experiment>, active: Option<Active>)

  const MAXIMUM_EXPERIMENTS: nat := 2
  const MAXIMUM_TOTAL: real := 14400.0
  const MAXIMUM_EXPERIMENT: real := 7200.0

  predicate WellNamed(s: string) {
    && 1 <= |s| <= 128 && s[0] != '-' && s[0] != '_'
    && forall i :: 0 <= i < |s| ==> 'a' <= s[i] <= 'z' || 'A' <= s[i] <= 'Z' || '0' <= s[i] <= '9' || s[i] == '_' || s[i] == '-'
  }

  function Sum(experiments: seq<Experiment>): real {
    if experiments == [] then 0.0 else experiments[0].consumed + Sum(experiments[1..])
  }

  predicate Registered(experiments: seq<Experiment>, identifier: string) {
    exists i :: 0 <= i < |experiments| && experiments[i].identifier == identifier
  }

  /** The record's accounting: distinct names, totals that agree, and a reservation that belongs to one of them. */
  predicate Consistent(l: Ledger) {
    && |l.experiments| <= MAXIMUM_EXPERIMENTS
    && (forall i, j :: 0 <= i < j < |l.experiments| ==> l.experiments[i].identifier != l.experiments[j].identifier)
    && (forall i :: 0 <= i < |l.experiments| ==> l.experiments[i].consumed >= 0.0)
    && l.consumed == Sum(l.experiments)
    && (l.active.Some? ==> Registered(l.experiments, l.active.value.identifier) && 0.0 < l.active.value.reserved <= MAXIMUM_EXPERIMENT)
  }

  function ConsumedBy(experiments: seq<Experiment>, identifier: string): real {
    if experiments == [] then 0.0
    else if experiments[0].identifier == identifier then experiments[0].consumed
    else ConsumedBy(experiments[1..], identifier)
  }

  /** Charge the experiment of that name. */
  function Charged(experiments: seq<Experiment>, identifier: string, seconds: real): seq<Experiment> {
    if experiments == [] then []
    else if experiments[0].identifier == identifier then
      [experiments[0].(consumed := experiments[0].consumed + seconds)] + experiments[1..]
    else [experiments[0]] + Charged(experiments[1..], identifier, seconds)
  }

  lemma {:induction false} ChargedCharges(experiments: seq<Experiment>, identifier: string, seconds: real)
    requires Registered(experiments, identifier)
    ensures Sum(Charged(experiments, identifier, seconds)) == Sum(experiments) + seconds
    ensures |Charged(experiments, identifier, seconds)| == |experiments|
    ensures forall i :: 0 <= i < |experiments| ==> Charged(experiments, identifier, seconds)[i].identifier == experiments[i].identifier
    ensures forall i :: 0 <= i < |experiments| ==>
      Charged(experiments, identifier, seconds)[i].consumed == experiments[i].consumed
      || Charged(experiments, identifier, seconds)[i].consumed == experiments[i].consumed + seconds
    ensures forall other ::
      ConsumedBy(Charged(experiments, identifier, seconds), other) == ConsumedBy(experiments, other) + (if other == identifier then seconds else 0.0)
  {
    if experiments[0].identifier != identifier {
      assert Registered(experiments[1..], identifier) by {
        var i :| 0 <= i < |experiments| && experiments[i].identifier == identifier;
        assert experiments[1..][i - 1] == experiments[i];
      }
      ChargedCharges(experiments[1..], identifier, seconds);
    }
  }

  // Steps on the saved ledger.

  function Settled(l: Ledger, identifier: string, seconds: real): Ledger {
    Ledger(l.consumed + seconds, Charged(l.experiments, identifier, seconds), None)
  }

  /** Charge an abandoned operation's full reservation. */
  function Reconciled(l: Ledger): Ledger {
    if l.active.None? then l else Settled(l, l.active.value.identifier, l.active.value.reserved)
  }

  lemma SettledConsistent(l: Ledger, identifier: string, seconds: real)
    requires Consistent(l) && Registered(l.experiments, identifier) && seconds >= 0.0
    ensures Consistent(Settled(l, identifier, seconds))
  {
    ChargedCharges(l.experiments, identifier, seconds);
  }

  function Enrolled(l: Ledger, identifier: string): Ledger {
    if Registered(l.experiments, identifier) then l
    else l.(experiments := l.experiments + [Experiment(identifier, 0.0)])
  }

  lemma {:induction false} SumOfConcatenation(a: seq<Experiment>, b: seq<Experiment>)
    ensures Sum(a + b) == Sum(a) + Sum(b)
  {
    if a == [] {
      assert a + b == b;
    } else {
      assert (a + b)[1..] == a[1..] + b;
      SumOfConcatenation(a[1..], b);
    }
  }

  lemma {:induction false} ConsumedByEnrolled(experiments: seq<Experiment>, identifier: string, other: string)
    ensures ConsumedBy(experiments + [Experiment(identifier, 0.0)], other) == ConsumedBy(experiments, other)
  {
    if experiments != [] {
      assert (experiments + [Experiment(identifier, 0.0)])[1..] == experiments[1..] + [Experiment(identifier, 0.0)];
      ConsumedByEnrolled(experiments[1..], identifier, other);
    }
  }

  /** What may still be used: by the project and by one experiment. */
  function Allowance(l: Ledger, identifier: string): real {
    var total, own := MAXIMUM_TOTAL - l.consumed, MAXIMUM_EXPERIMENT - ConsumedBy(l.experiments, identifier);
    if total <= own then total else own
  }

  /** An operation is admitted to resume a known experiment, to begin an unknown one while a slot is left, or
      to retry a known one that published nothing, and only with time left. */
  predicate Admitted(l: Ledger, identifier: string, resume: bool, retryable: bool) {
    var existing := Registered(l.experiments, identifier);
    && (existing == resume || (existing && !resume && retryable))
    && (existing || |l.experiments| < MAXIMUM_EXPERIMENTS)
    && Allowance(l, identifier) > 0.0
  }

  function Holding(l: Ledger, identifier: string): Ledger {
    Enrolled(l, identifier).(active := Some(Active(identifier, Allowance(l, identifier))))
  }

  lemma HoldingConsistent(l: Ledger, identifier: string)
    requires Consistent(l) && (Registered(l.experiments, identifier) || |l.experiments| < MAXIMUM_EXPERIMENTS)
    requires Allowance(l, identifier) > 0.0
    ensures Consistent(Holding(l, identifier))
  {
    var after := Holding(l, identifier);
    ConsumedByNonnegative(l.experiments, identifier);
    if !Registered(l.experiments, identifier) {
      assert after.experiments[|l.experiments|].identifier == identifier;
      SumOfConcatenation(l.experiments, [Experiment(identifier, 0.0)]);
      assert Sum([Experiment(identifier, 0.0)]) == 0.0;
    }
  }

  lemma {:induction false} ConsumedByNonnegative(experiments: seq<Experiment>, identifier: string)
    requires forall i :: 0 <= i < |experiments| ==> experiments[i].consumed >= 0.0
    ensures ConsumedBy(experiments, identifier) >= 0.0
  {
    if experiments != [] {
      ConsumedByNonnegative(experiments[1..], identifier);
    }
  }

  // The object.

  class ProofBudget {
    const experimentIdentifier: string
    const resume: bool
    var saved: Ledger      // on disk
    var ledger: Ledger     // in memory
    var allowance: real
    var open: bool

    constructor (experimentIdentifier: string, resume: bool, saved: Ledger)
      requires Consistent(saved)
      ensures this.experimentIdentifier == experimentIdentifier && this.resume == resume && this.saved == saved && !open
    {
      this.experimentIdentifier, this.resume, this.saved := experimentIdentifier, resume, saved;
      ledger, allowance, open := Ledger(0.0, [], None), 0.0, false;
    }

    /** Reconcile crashes, then reserve time before starting an operation; what was reconciled stays charged
        even when the operation is refused. */
    method Enter(retryable: bool) returns (entered: bool)
      requires Consistent(saved) && !open
      modifies this
      ensures Consistent(saved) && open == entered
      ensures entered <==>
        WellNamed(experimentIdentifier) && Admitted(Reconciled(old(saved)), experimentIdentifier, resume, retryable)
      ensures entered ==> ledger == saved == Holding(Reconciled(old(saved)), experimentIdentifier)
      ensures entered ==> allowance == Allowance(Reconciled(old(saved)), experimentIdentifier)
      ensures !entered ==> saved == if WellNamed(experimentIdentifier) then Reconciled(old(saved)) else old(saved)
    {
      if !WellNamed(experimentIdentifier) {
        return false;
      }
      Reconcile();
      var before := ledger;
      var existing := Registered(ledger.experiments, experimentIdentifier);
      var startupRetry := existing && !resume && retryable;
      if existing != resume && !startupRetry {
        return false;
      }
      if !existing {
        if |ledger.experiments| >= MAXIMUM_EXPERIMENTS {
          return false;
        }
        ConsumedByEnrolled(ledger.experiments, experimentIdentifier, experimentIdentifier);
        ledger := ledger.(experiments := ledger.experiments + [Experiment(experimentIdentifier, 0.0)]);
      }
      var total, own := MAXIMUM_TOTAL - ledger.consumed, MAXIMUM_EXPERIMENT - ConsumedBy(ledger.experiments, experimentIdentifier);
      allowance := if total <= own then total else own;
      if allowance <= 0.0 {
        return false;
      }
      ledger := ledger.(active := Some(Active(experimentIdentifier, allowance)));
      HoldingConsistent(before, experimentIdentifier);
      saved := ledger;
      open := true;
      entered := true;
    }

    /** Load the ledger and charge an abandoned operation's full reservation. */
    method Reconcile()
      requires Consistent(saved)
      modifies this`ledger, this`saved
      ensures Consistent(saved) && ledger == saved == Reconciled(old(saved))
    {
      ledger := saved;
      if ledger.active.Some? {
        SettledConsistent(ledger, ledger.active.value.identifier, ledger.active.value.reserved);
        ledger := Settled(ledger, ledger.active.value.identifier, ledger.active.value.reserved);
        saved := ledger;
      }
    }

    /** Charge the elapsed time and release the reservation. */
    method Exit(elapsed: real)
      requires open && Consistent(saved) && ledger == saved && Registered(saved.experiments, experimentIdentifier) && elapsed >= 0.0
      modifies this
      ensures Consistent(saved) && !open && saved == Settled(old(saved), experimentIdentifier, elapsed)
    {
      SettledConsistent(ledger, experimentIdentifier, elapsed);
      ledger := Settled(ledger, experimentIdentifier, elapsed);
      saved := ledger;
      open := false;
    }
  }

  // Runs.

  /** The saved ledger, the operation inside the budget, and the time that was really used so far. */
  datatype Project = Project(ledger: Ledger, running: bool, used: real)

  datatype Event =
    | EnterEvent(identifier: string, resume: bool, retryable: bool)
    | ExitEvent(elapsed: real)
    | CrashEvent(elapsed: real)

  /** One operation at a time. */
  predicate Possible(p: Project, e: Event) {
    match e
    case EnterEvent(_, _, _) => !p.running
    case ExitEvent(elapsed) => p.running && p.ledger.active.Some? && 0.0 <= elapsed
    case CrashEvent(elapsed) => p.running && p.ledger.active.Some? && 0.0 <= elapsed
  }

  function Happens(p: Project, e: Event): Project
    requires Possible(p, e)
  {
    match e
    case EnterEvent(identifier, resume, retryable) =>
      if !WellNamed(identifier) then p
      else if Admitted(Reconciled(p.ledger), identifier, resume, retryable) then p.(ledger := Holding(Reconciled(p.ledger), identifier), running := true)
      else p.(ledger := Reconciled(p.ledger))
    case ExitEvent(elapsed) => Project(Settled(p.ledger, p.ledger.active.value.identifier, elapsed), false, p.used + elapsed)
    case CrashEvent(elapsed) => p.(running := false, used := p.used + elapsed)
  }

  predicate CanHappen(p: Project, events: seq<Event>)
    decreases |events|
  {
    events == [] || (Possible(p, events[0]) && CanHappen(Happens(p, events[0]), events[1..]))
  }

  function AllHappen(p: Project, events: seq<Event>): Project
    requires CanHappen(p, events)
    decreases |events|
  {
    if events == [] then p else AllHappen(Happens(p, events[0]), events[1..])
  }

  function Pending(l: Ledger): real {
    if l.active.Some? then l.active.value.reserved else 0.0
  }

  /** What is charged, with the reservation a crash left. */
  function Charges(p: Project): real {
    p.ledger.consumed + if p.running then 0.0 else Pending(p.ledger)
  }

  /** What the crashed operations of a run had not used of their reservations. */
  function Unused(p: Project, events: seq<Event>): real
    requires CanHappen(p, events)
    decreases |events|
  {
    if events == [] then 0.0
    else (if events[0].CrashEvent? then Pending(p.ledger) - events[0].elapsed else 0.0) + Unused(Happens(p, events[0]), events[1..])
  }

  /** Every crashed operation had used no more than its reservation. */
  predicate CrashesWithin(p: Project, events: seq<Event>)
    requires CanHappen(p, events)
    decreases |events|
  {
    events == []
    || ((events[0].CrashEvent? ==> events[0].elapsed <= Pending(p.ledger)) && CrashesWithin(Happens(p, events[0]), events[1..]))
  }

  lemma {:induction false} UnusedNonnegative(p: Project, events: seq<Event>)
    requires CanHappen(p, events) && CrashesWithin(p, events)
    ensures Unused(p, events) >= 0.0
    decreases |events|
  {
    if events != [] {
      UnusedNonnegative(Happens(p, events[0]), events[1..]);
    }
  }

  predicate Accounted(p: Project) {
    Consistent(p.ledger) && (p.running ==> p.ledger.active.Some?)
  }

  lemma EventAccounted(p: Project, e: Event)
    requires Accounted(p) && Possible(p, e)
    ensures Accounted(Happens(p, e))
    ensures Charges(Happens(p, e)) - Happens(p, e).used ==
      Charges(p) - p.used + if e.CrashEvent? then Pending(p.ledger) - e.elapsed else 0.0
  {
    match e
    case EnterEvent(identifier, resume, retryable) =>
      if WellNamed(identifier) {
        var l := Reconciled(p.ledger);
        if p.ledger.active.Some? {
          SettledConsistent(p.ledger, p.ledger.active.value.identifier, p.ledger.active.value.reserved);
        }
        if Admitted(l, identifier, resume, retryable) {
          HoldingConsistent(l, identifier);
        }
      }
    case ExitEvent(elapsed) => SettledConsistent(p.ledger, p.ledger.active.value.identifier, elapsed);
    case CrashEvent(_) =>
  }

  lemma {:induction false} RunAccounted(p: Project, events: seq<Event>)
    requires Accounted(p) && CanHappen(p, events)
    ensures Accounted(AllHappen(p, events))
    ensures Charges(AllHappen(p, events)) - AllHappen(p, events).used == Charges(p) - p.used + Unused(p, events)
    decreases |events|
  {
    if events != [] {
      EventAccounted(p, events[0]);
      RunAccounted(Happens(p, events[0]), events[1..]);
    }
  }

  function New(): Project {
    Project(Ledger(0.0, [], None), false, 0.0)
  }

  /** Over any run of operations, exits, crashes and refusals: the project total is the sum of the experiments,
      at most two experiments exist, and what is charged, with the reservation a crash left, exceeds what was
      used by exactly what crashed operations left unused. So it covers the use when they kept to their
      reservations. */
  lemma ChargesCoverUse(events: seq<Event>)
    requires CanHappen(New(), events)
    ensures
      var p := AllHappen(New(), events);
      && p.ledger.consumed == Sum(p.ledger.experiments)
      && |p.ledger.experiments| <= MAXIMUM_EXPERIMENTS
      && Charges(p) == p.used + Unused(New(), events)
      && (!p.running ==> Reconciled(p.ledger).consumed == p.used + Unused(New(), events))
      && (CrashesWithin(New(), events) ==> p.used <= Charges(p))
  {
    RunAccounted(New(), events);
    if CrashesWithin(New(), events) {
      UnusedNonnegative(New(), events);
    }
  }

  // Caps.

  /** Every clean exit stays within its reservation. */
  predicate Disciplined(p: Project, events: seq<Event>)
    requires CanHappen(p, events)
    decreases |events|
  {
    events == []
    || ((events[0].ExitEvent? ==> events[0].elapsed <= Pending(p.ledger)) && Disciplined(Happens(p, events[0]), events[1..]))
  }

  function PendingOf(l: Ledger, identifier: string): real {
    if l.active.Some? && l.active.value.identifier == identifier then l.active.value.reserved else 0.0
  }

  ghost predicate Capped(l: Ledger) {
    && l.consumed + Pending(l) <= MAXIMUM_TOTAL
    && forall identifier :: ConsumedBy(l.experiments, identifier) + PendingOf(l, identifier) <= MAXIMUM_EXPERIMENT
  }

  lemma SettledCapped(l: Ledger, seconds: real)
    requires Consistent(l) && Capped(l) && l.active.Some? && 0.0 <= seconds <= l.active.value.reserved
    ensures Capped(Settled(l, l.active.value.identifier, seconds))
  {
    var own := l.active.value.identifier;
    ChargedCharges(l.experiments, own, seconds);
    forall identifier
      ensures ConsumedBy(Charged(l.experiments, own, seconds), identifier) <= MAXIMUM_EXPERIMENT
    {
      assert ConsumedBy(l.experiments, identifier) + PendingOf(l, identifier) <= MAXIMUM_EXPERIMENT;
    }
  }

  lemma HoldingCapped(l: Ledger, identifier: string)
    requires Consistent(l) && Capped(l) && l.active.None? && Allowance(l, identifier) > 0.0
    ensures Capped(Holding(l, identifier))
  {
    var after := Holding(l, identifier);
    forall other
      ensures ConsumedBy(after.experiments, other) + PendingOf(after, other) <= MAXIMUM_EXPERIMENT
    {
      ConsumedByEnrolled(l.experiments, identifier, other);
      assert ConsumedBy(l.experiments, other) + PendingOf(l, other) <= MAXIMUM_EXPERIMENT;
    }
  }

  lemma EventCapped(p: Project, e: Event)
    requires Accounted(p) && Capped(p.ledger) && Possible(p, e) && (e.ExitEvent? ==> e.elapsed <= Pending(p.ledger))
    ensures Capped(Happens(p, e).ledger)
  {
    match e
    case EnterEvent(identifier, resume, retryable) =>
      if WellNamed(identifier) {
        var l := Reconciled(p.ledger);
        if p.ledger.active.Some? {
          SettledConsistent(p.ledger, p.ledger.active.value.identifier, p.ledger.active.value.reserved);
          SettledCapped(p.ledger, p.ledger.active.value.reserved);
        }
        if Admitted(l, identifier, resume, retryable) {
          HoldingCapped(l, identifier);
        }
      }
    case ExitEvent(elapsed) => SettledCapped(p.ledger, elapsed);
    case CrashEvent(_) =>
  }

  lemma {:induction false} RunCapped(p: Project, events: seq<Event>)
    requires Accounted(p) && Capped(p.ledger) && CanHappen(p, events) && Disciplined(p, events)
    ensures Capped(AllHappen(p, events).ledger)
    decreases |events|
  {
    if events != [] {
      EventAccounted(p, events[0]);
      EventCapped(p, events[0]);
      RunCapped(Happens(p, events[0]), events[1..]);
    }
  }

  /** While clean exits stay within their reservations, the totals, open reservations included, stay within
      the project's and each experiment's cap, and so does the time really used if crashes do too. */
  lemma CapsHold(events: seq<Event>, identifier: string)
    requires CanHappen(New(), events) && Disciplined(New(), events)
    ensures
      var p := AllHappen(New(), events);
      && p.ledger.consumed + Pending(p.ledger) <= MAXIMUM_TOTAL
      && ConsumedBy(p.ledger.experiments, identifier) + PendingOf(p.ledger, identifier) <= MAXIMUM_EXPERIMENT
      && (CrashesWithin(New(), events) ==> p.used <= MAXIMUM_TOTAL)
  {
    ChargesCoverUse(events);
    RunAccounted(New(), events);
    RunCapped(New(), events);
    var p := AllHappen(New(), events);
    assert ConsumedBy(p.ledger.experiments, identifier) + PendingOf(p.ledger, identifier) <= MAXIMUM_EXPERIMENT;
  }

  // Overruns.

  /** The project or one of its experiments has been charged more than its cap. */
  ghost predicate Over(l: Ledger) {
    l.consumed > MAXIMUM_TOTAL || exists identifier :: ConsumedBy(l.experiments, identifier) > MAXIMUM_EXPERIMENT
  }

  /** A running operation holds all the time that was left to it. */
  predicate HoldsAllowance(p: Project) {
    p.running ==> p.ledger.active.Some? && p.ledger.active.value.reserved == Allowance(p.ledger, p.ledger.active.value.identifier)
  }

  lemma EventHoldsAllowance(p: Project, e: Event)
    requires HoldsAllowance(p) && Possible(p, e)
    ensures HoldsAllowance(Happens(p, e))
  {
    if e.EnterEvent? {
      ConsumedByEnrolled(Reconciled(p.ledger).experiments, e.identifier, e.identifier);
    }
  }

  lemma SettledStaysOver(l: Ledger, identifier: string, seconds: real)
    requires Registered(l.experiments, identifier) && seconds >= 0.0 && Over(l)
    ensures Over(Settled(l, identifier, seconds))
  {
    ChargedCharges(l.experiments, identifier, seconds);
    if l.consumed <= MAXIMUM_TOTAL {
      var other :| ConsumedBy(l.experiments, other) > MAXIMUM_EXPERIMENT;
      assert ConsumedBy(Settled(l, identifier, seconds).experiments, other) > MAXIMUM_EXPERIMENT;
    }
  }

  lemma HoldingStaysOver(l: Ledger, identifier: string)
    requires Over(l)
    ensures Over(Holding(l, identifier))
  {
    if l.consumed <= MAXIMUM_TOTAL {
      var other :| ConsumedBy(l.experiments, other) > MAXIMUM_EXPERIMENT;
      ConsumedByEnrolled(l.experiments, identifier, other);
      assert ConsumedBy(Holding(l, identifier).experiments, other) > MAXIMUM_EXPERIMENT;
    }
  }

  /** No event takes an excess back. */
  lemma EventStaysOver(p: Project, e: Event)
    requires Accounted(p) && Possible(p, e) && Over(p.ledger)
    ensures Over(Happens(p, e).ledger)
  {
    match e
    case EnterEvent(identifier, resume, retryable) =>
      if p.ledger.active.Some? {
        SettledStaysOver(p.ledger, p.ledger.active.value.identifier, p.ledger.active.value.reserved);
      }
      HoldingStaysOver(Reconciled(p.ledger), identifier);
    case ExitEvent(elapsed) => SettledStaysOver(p.ledger, p.ledger.active.value.identifier, elapsed);
    case CrashEvent(_) =>
  }

  lemma {:induction false} RunStaysOver(p: Project, events: seq<Event>)
    requires Accounted(p) && CanHappen(p, events) && Over(p.ledger)
    ensures Over(AllHappen(p, events).ledger)
    decreases |events|
  {
    if events != [] {
      EventAccounted(p, events[0]);
      EventStaysOver(p, events[0]);
      RunStaysOver(Happens(p, events[0]), events[1..]);
    }
  }

  /** An exit beyond its reservation is charged beyond a cap. */
  lemma OverrunIsOver(p: Project, elapsed: real)
    requires Accounted(p) && HoldsAllowance(p) && Possible(p, ExitEvent(elapsed)) && elapsed > Pending(p.ledger)
    ensures Over(Happens(p, ExitEvent(elapsed)).ledger)
  {
    var own := p.ledger.active.value.identifier;
    var after := Settled(p.ledger, own, elapsed);
    ChargedCharges(p.ledger.experiments, own, elapsed);
    assert after.consumed > MAXIMUM_TOTAL || ConsumedBy(after.experiments, own) > MAXIMUM_EXPERIMENT;
  }

  lemma {:induction false} UndisciplinedIsOver(p: Project, events: seq<Event>)
    requires Accounted(p) && HoldsAllowance(p) && CanHappen(p, events) && !Disciplined(p, events)
    ensures Over(AllHappen(p, events).ledger)
    decreases |events|
  {
    var next := Happens(p, events[0]);
    EventAccounted(p, events[0]);
    EventHoldsAllowance(p, events[0]);
    if events[0].ExitEvent? && events[0].elapsed > Pending(p.ledger) {
      OverrunIsOver(p, events[0].elapsed);
      RunStaysOver(next, events[1..]);
    } else {
      UndisciplinedIsOver(next, events[1..]);
    }
  }

  /** The caps hold after a run exactly when every clean exit of the run stayed within its reservation. */
  lemma CapsHoldExactly(events: seq<Event>)
    requires CanHappen(New(), events)
    ensures !Over(AllHappen(New(), events).ledger) <==> Disciplined(New(), events)
  {
    var l := AllHappen(New(), events).ledger;
    if Disciplined(New(), events) {
      RunCapped(New(), events);
      RunAccounted(New(), events);
      forall identifier
        ensures ConsumedBy(l.experiments, identifier) <= MAXIMUM_EXPERIMENT
      {
        assert ConsumedBy(l.experiments, identifier) + PendingOf(l, identifier) <= MAXIMUM_EXPERIMENT;
      }
    } else {
      UndisciplinedIsOver(New(), events);
    }
  }

  /** One more event in front of a run. */
  lemma Before(p: Project, e: Event, next: Project, rest: seq<Event>)
    requires Possible(p, e) && Happens(p, e) == next && CanHappen(next, rest)
    ensures CanHappen(p, [e] + rest) && AllHappen(p, [e] + rest) == AllHappen(next, rest)
    ensures Disciplined(p, [e] + rest) <==> (e.ExitEvent? ==> e.elapsed <= Pending(p.ledger)) && Disciplined(next, rest)
  {
    assert ([e] + rest)[1..] == rest;
  }

  /** What the first operation of an experiment is given. */
  lemma FirstOperation(l: Ledger, identifier: string)
    requires WellNamed(identifier) && l.active.None? && |l.experiments| <= 1 && !Registered(l.experiments, identifier)
    requires 0.0 <= l.consumed < MAXIMUM_TOTAL
    ensures Admitted(l, identifier, false, false) && Enrolled(l, identifier).experiments == l.experiments + [Experiment(identifier, 0.0)]
    ensures Allowance(l, identifier) == if l.consumed <= MAXIMUM_EXPERIMENT then MAXIMUM_EXPERIMENT else MAXIMUM_TOTAL - l.consumed
  {
    NotRegistered(l.experiments, identifier);
  }

  lemma {:induction false} NotRegistered(experiments: seq<Experiment>, identifier: string)
    requires !Registered(experiments, identifier)
    ensures ConsumedBy(experiments, identifier) == 0.0
  {
    if experiments != [] {
      assert experiments[0].identifier != identifier;
      forall i | 0 <= i < |experiments| - 1
        ensures experiments[1..][i].identifier != identifier
      {
        assert experiments[1..][i] == experiments[i + 1];
      }
      NotRegistered(experiments[1..], identifier);
    }
  }

  /** An overrun does not close the project: another experiment is still admitted, with the time that is left. */
  lemma OverrunThenAnother(events: seq<Event>)
    requires events == [EnterEvent("a", false, false), ExitEvent(7300.0), EnterEvent("b", false, false)]
    ensures CanHappen(New(), events) && !Disciplined(New(), events)
    ensures var l := AllHappen(New(), events).ledger;
      ConsumedBy(l.experiments, "a") == 7300.0 && l.active == Some(Active("b", 7100.0))
  {
    var l0 := New().ledger;
    FirstOperation(l0, "a");
    var p1 := Happens(New(), events[0]);
    var p2 := Happens(p1, events[1]);
    assert p2.ledger == Ledger(7300.0, [Experiment("a", 7300.0)], None);
    FirstOperation(p2.ledger, "b");
    var p3 := Happens(p2, events[2]);
    assert p3.ledger.experiments == [Experiment("a", 7300.0), Experiment("b", 0.0)];
    var none: seq<Event> := [];
    Before(p2, events[2], p3, none);
    Before(p1, events[1], p2, [events[2]]);
    Before(New(), events[0], p1, [events[1], events[2]]);
    assert events == [events[0]] + [events[1], events[2]] && [events[1], events[2]] == [events[1]] + [events[2]];
    assert [events[2]] + none == [events[2]];
  }

  // Names, admission and charges, in letters and numbers.

  /** A name of one to 128 letters, digits, underscores and hyphens, with a letter or digit first. */
  lemma NameIs(s: string)
    ensures WellNamed(s) <==>
      && 1 <= |s| <= 128 && s[0] in LOWER + UPPER + DIGITS
      && forall i :: 0 <= i < |s| ==> s[i] in LOWER + UPPER + DIGITS + "_-"
  {
    forall i | 0 <= i < |s|
      ensures s[i] in LOWER + UPPER + DIGITS <==> 'a' <= s[i] <= 'z' || 'A' <= s[i] <= 'Z' || '0' <= s[i] <= '9'
      ensures s[i] in LOWER + UPPER + DIGITS + "_-" <==> s[i] in LOWER + UPPER + DIGITS || s[i] == '_' || s[i] == '-'
    {
      LettersAndDigits(s[i]);
    }
  }

  lemma {:induction false} ConsumedByIs(experiments: seq<Experiment>, identifier: string)
    ensures !Registered(experiments, identifier) ==> ConsumedBy(experiments, identifier) == 0.0
    ensures
      (forall i, j :: 0 <= i < j < |experiments| ==> experiments[i].identifier != experiments[j].identifier) ==>
        forall i :: 0 <= i < |experiments| && experiments[i].identifier == identifier ==>
          ConsumedBy(experiments, identifier) == experiments[i].consumed
  {
    if experiments != [] {
      ConsumedByIs(experiments[1..], identifier);
      forall i | 0 < i < |experiments|
        ensures experiments[i] == experiments[1..][i - 1]
      {
      }
      forall i | 0 <= i < |experiments| - 1
        ensures experiments[1..][i] == experiments[i + 1]
      {
      }
    }
  }

  predicate Knows(l: Ledger, identifier: string) {
    exists e :: e in l.experiments && e.identifier == identifier
  }

  /** The project has time left, and so has the experiment if it has run before. */
  predicate TimeLeft(l: Ledger, identifier: string) {
    && l.consumed < 14400.0
    && forall e :: e in l.experiments && e.identifier == identifier ==> e.consumed < 7200.0
  }

  /** An operation is admitted exactly when there is time left and it resumes a known experiment, retries a known one
      that has published nothing, or begins an unknown one while fewer than two have begun. */
  lemma AdmittedExactly(l: Ledger, identifier: string, resume: bool, retryable: bool)
    requires Consistent(l)
    ensures Admitted(l, identifier, resume, retryable) <==>
      && TimeLeft(l, identifier)
      && if Knows(l, identifier) then resume || retryable else !resume && |l.experiments| < 2
  {
    ConsumedByIs(l.experiments, identifier);
    if Registered(l.experiments, identifier) {
      var i :| 0 <= i < |l.experiments| && l.experiments[i].identifier == identifier;
      assert l.experiments[i] in l.experiments;
    }
  }

  /** The greatest time that keeps the project and the experiment within their caps. */
  ghost predicate IsRest(l: Ledger, identifier: string, seconds: real) {
    && l.consumed + seconds <= 14400.0 && ConsumedBy(l.experiments, identifier) + seconds <= 7200.0
    && (l.consumed + seconds == 14400.0 || ConsumedBy(l.experiments, identifier) + seconds == 7200.0)
  }

  /** What an admitted operation saves: its experiment, new ones with nothing charged, and a reservation of all that is
      left to it. */
  lemma HoldingIs(l: Ledger, identifier: string)
    ensures
      var after := Holding(l, identifier);
      && after.consumed == l.consumed
      && after.experiments == (if Knows(l, identifier) then l.experiments else l.experiments + [Experiment(identifier, 0.0)])
      && after.active.Some? && after.active.value.identifier == identifier && IsRest(l, identifier, after.active.value.reserved)
  {
    if Knows(l, identifier) {
      var e :| e in l.experiments && e.identifier == identifier;
      var i :| 0 <= i < |l.experiments| && l.experiments[i] == e;
      assert Registered(l.experiments, identifier);
    }
  }

  /** What a charge does: to the project and to the one experiment, and the reservation is gone. */
  lemma SettledIs(l: Ledger, identifier: string, seconds: real)
    requires Consistent(l) && Registered(l.experiments, identifier)
    ensures
      var after := Settled(l, identifier, seconds);
      && after.active == None && after.consumed == l.consumed + seconds && |after.experiments| == |l.experiments|
      && forall i :: 0 <= i < |l.experiments| ==>
           after.experiments[i] == l.experiments[i].(consumed :=
             l.experiments[i].consumed + if l.experiments[i].identifier == identifier then seconds else 0.0)
  {
    ChargedIs(l.experiments, identifier, seconds);
  }

  lemma {:induction false} ChargedIs(experiments: seq<Experiment>, identifier: string, seconds: real)
    requires forall i, j :: 0 <= i < j < |experiments| ==> experiments[i].identifier != experiments[j].identifier
    ensures var after := Charged(experiments, identifier, seconds);
      && |after| == |experiments|
      && forall i :: 0 <= i < |experiments| ==>
           after[i] == experiments[i].(consumed :=
             experiments[i].consumed + if experiments[i].identifier == identifier then seconds else 0.0)
  {
    if experiments != [] {
      ChargedIs(experiments[1..], identifier, seconds);
    }
  }

  /** Nothing is admitted once the project's or the experiment's cap is reached, or when both slots belong to
      others; below the caps a resumption always is. */
  lemma NothingAdmittedAtCaps(l: Ledger, identifier: string, resume: bool, retryable: bool)
    requires Consistent(l)
    ensures l.consumed >= MAXIMUM_TOTAL || ConsumedBy(l.experiments, identifier) >= MAXIMUM_EXPERIMENT ==>
      !Admitted(l, identifier, resume, retryable)
    ensures |l.experiments| == MAXIMUM_EXPERIMENTS && !Registered(l.experiments, identifier) ==>
      !Admitted(l, identifier, resume, retryable)
    ensures Registered(l.experiments, identifier) ==>
      (Admitted(l, identifier, true, retryable) <==> l.consumed < MAXIMUM_TOTAL && ConsumedBy(l.experiments, identifier) < MAXIMUM_EXPERIMENT)
  {
  }
}
