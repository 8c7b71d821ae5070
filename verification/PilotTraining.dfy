/** The sampler and the training session as objects, and training across any number of stops and resumptions. */
module PilotTraining {
  import opened PilotSampling
  import opened Wrappers

  const MAXIMUM_SEED: nat := 0x8000_0000_0000_0000
  const EFFECTIVE_BATCH_SIZE: nat := 16

  function Samples(d: Data, crops: seq<Crop>): (s: seq<Sample>)
    requires forall i :: 0 <= i < |crops| ==> 0 <= crops[i].index < |d.examples|
  {
    seq(|crops|, i requires 0 <= i < |crops| => Sample(d.examples[crops[i].index].identity, crops[i].left, crops[i].top))
  }

  /** Where reading a batch breaks: before or while reading one crop, or after the last. */
  datatype Fault = Fault(crop: nat, late: bool)

  /** One crop more at the end. */
  lemma DrawLast(r: Random, d: Data, s: State, n: nat)
    requires Ready(r, d, s)
    ensures Ready(r, d, After(r, d, s, n))
    ensures After(r, d, s, n + 1) == Draw(r, d, After(r, d, s, n)).0
    ensures Crops(r, d, s, n + 1) == Crops(r, d, s, n) + [Draw(r, d, After(r, d, s, n)).1]
  {
    DrawInTwo(r, d, s, n, 1);
    DrawFirst(r, d, After(r, d, s, n), 1);
  }

  lemma {:induction false} CropsInside(r: Random, d: Data, s: State, n: nat)
    requires Ready(r, d, s)
    ensures |Crops(r, d, s, n)| == n
    ensures forall i :: 0 <= i < n ==> 0 <= Crops(r, d, s, n)[i].index < |d.examples|
    decreases n
  {
    AfterReady(r, d, s, n);
    if n != 0 {
      CropsInside(r, d, s, n - 1);
      DrawLast(r, d, s, n - 1);
      DrawReady(r, d, After(r, d, s, n - 1));
    }
  }

  class PilotSampler {
    const random: Random
    const data: Data
    const seed: nat
    var order: seq<int>
    var epoch: nat
    var position: nat
    var consumed: nat
    var words: seq<int>
    var lastBatch: seq<Sample>

    function View(): State
      reads this
    {
      State(order, epoch, position, consumed, words)
    }

    ghost predicate Ok()
      reads this
    {
      Ready(random, data, View()) && seed < MAXIMUM_SEED
    }

    constructor (random: Random, data: Data, seed: nat)
      requires SoundRandom(random) && ValidData(data) && seed < MAXIMUM_SEED
      ensures Ok() && this.random == random && this.data == data && this.seed == seed
      ensures View() == Fresh(random, data, seed) && lastBatch == []
    {
      this.random, this.data, this.seed := random, data, seed;
      var (shuffled, first) := random.shuffle(random.seeded(seed), Range(|data.examples|));
      words, order := shuffled, first;
      epoch, position, consumed, lastBatch := 0, 0, 0, [];
      FreshValid(random, data, seed);
    }

    method StateDict() returns (saved: Saved)
      ensures saved == Save(data, seed, View())
    {
      saved := Saved(data.revision, data.selection, seed, epoch, position, consumed, order, words);
    }

    /** An incompatible snapshot is refused before anything changes. */
    method LoadStateDict(value: Saved) returns (accepted: bool)
      modifies this
      ensures accepted <==> Loadable(data, seed, value)
      ensures accepted ==> View() == Restored(value) && lastBatch == []
      ensures !accepted ==> View() == old(View()) && lastBatch == old(lastBatch)
    {
      if !WellFormed(value) {
        return false;
      }
      var count := |data.examples|;
      if value.revision != data.revision || value.selection != data.selection || value.seed != seed
         || |value.order| != count || multiset(value.order) != multiset(Range(count))
         || value.position > count || value.consumed != value.epoch * count + value.position {
        return false;
      }
      words, order := value.words, value.order;
      epoch, position, consumed := value.epoch, value.position, value.consumed;
      lastBatch := [];
      accepted := true;
    }

    /** Read exactly the requested crops, or leave no trace: a failed batch restores the exact prior state. */
    method NextBatch(batchSize: int, fault: Option<Fault>) returns (result: Option<seq<Crop>>)
      requires Ok()
      modifies this
      ensures Ok()
      ensures result.Some? <==> 1 <= batchSize <= 16 && !(fault.Some? && fault.value.crop <= batchSize)
      ensures result == None ==> View() == old(View()) && lastBatch == old(lastBatch)
      ensures result.Some? ==>
        && View() == After(random, data, old(View()), batchSize)
        && result.value == Crops(random, data, old(View()), batchSize)
        && (forall i :: 0 <= i < |result.value| ==> 0 <= result.value[i].index < |data.examples|)
        && lastBatch == Samples(data, result.value)
    {
      if !(1 <= batchSize <= 16) {
        return None;
      }
      var previous := StateDict();
      var previousBatch := lastBatch;
      var failed, crops := ReadCrops(batchSize, fault);
      if failed || (fault.Some? && fault.value.crop == batchSize) {
        LoadableExactly(data, seed, previous);
        var accepted := LoadStateDict(previous);
        assert accepted;
        lastBatch := previousBatch;
        return None;
      }
      AfterReady(random, data, old(View()), batchSize);
      CropsInside(random, data, old(View()), batchSize);
      lastBatch := Samples(data, crops);
      result := Some(crops);
    }

    /** Read the crops of a batch up to the first that breaks. */
    method ReadCrops(batchSize: nat, fault: Option<Fault>) returns (failed: bool, crops: seq<Crop>)
      requires Ready(random, data, View())
      modifies this`order, this`epoch, this`position, this`consumed, this`words
      ensures failed <==> fault.Some? && fault.value.crop < batchSize
      ensures !failed ==> Accumulated(random, data, old(View()), batchSize, View(), crops)
    {
      failed, crops := false, [];
      var i := 0;
      while i < batchSize && !failed
        invariant 0 <= i <= batchSize
        invariant !failed ==> Accumulated(random, data, old(View()), i, View(), crops)
        invariant failed <==> fault.Some? && fault.value.crop < i
        decreases batchSize - i
      {
        DrawLast(random, data, old(View()), i);
        if fault == Some(Fault(i, false)) {
          failed := true;
        } else {
          failed, crops := ReadCrop(fault == Some(Fault(i, true)), crops);
        }
        i := i + 1;
      }
    }

    /** Draw one crop and read it; a crop that cannot be read leaves the generator advanced. */
    method ReadCrop(broken: bool, crops: seq<Crop>) returns (failed: bool, more: seq<Crop>)
      requires Ready(random, data, View())
      modifies this`order, this`epoch, this`position, this`consumed, this`words
      ensures failed == broken
      ensures !failed ==> View() == Draw(random, data, old(View())).0 && more == crops + [Draw(random, data, old(View())).1]
    {
      RenewedReady(random, data, View());
      if position == |order| {
        var (shuffled, next) := random.shuffle(words, order);
        words, order := shuffled, next;
        epoch := epoch + 1;
        position := 0;
      }
      var example := data.examples[order[position]];
      var (once, left) := random.below(words, example.width - 256 + 1);
      var (twice, top) := random.below(once, example.height - 256 + 1);
      words := twice;
      if broken {
        return true, crops;
      }
      failed, more := false, crops + [Crop(order[position], left, top)];
      position := position + 1;
      consumed := consumed + 1;
    }
  }

  // The accumulation loop.

  /** Where a training step breaks: reading a batch, computing on one that was read, or updating at the end. */
  datatype StepFault = Reading(batch: nat, fault: Fault) | Computing(batch: nat) | Updating

  function Accumulation(physical: nat): nat
    requires physical == 4 || physical == 8
  {
    EFFECTIVE_BATCH_SIZE / physical
  }

  predicate Breaks(fault: StepFault, physical: nat)
    requires physical == 4 || physical == 8
  {
    match fault
    case Reading(batch, at) => batch < Accumulation(physical) && at.crop <= physical
    case Computing(batch) => batch < Accumulation(physical)
    case Updating => true
  }

  /** How many batches a broken step has consumed. */
  function ReadBefore(fault: StepFault, physical: nat): nat
    requires physical == 4 || physical == 8
  {
    match fault
    case Reading(batch, _) => batch
    case Computing(batch) => batch + 1
    case Updating => Accumulation(physical)
  }

  class PilotTrainingSession {
    const sampler: PilotSampler
    const physical: nat
    var globalStep: nat

    ghost predicate Ok()
      reads this, sampler
    {
      (physical == 4 || physical == 8) && sampler.Ok()
    }

    constructor (sampler: PilotSampler, physical: nat)
      requires (physical == 4 || physical == 8) && sampler.Ok()
      ensures Ok() && this.sampler == sampler && this.physical == physical && globalStep == 0
    {
      this.sampler, this.physical, globalStep := sampler, physical, 0;
    }

    /** Commit sixteen samples in physical batches; a broken step leaves the batches it read consumed. */
    method TrainingStep(fault: Option<StepFault>) returns (trained: Option<seq<Crop>>)
      requires Ok()
      modifies this, sampler
      ensures Ok()
      ensures trained.Some? <==> !(fault.Some? && Breaks(fault.value, physical))
      ensures trained.Some? ==>
        && BatchesRead(sampler.random, sampler.data, old(sampler.View()), Accumulation(physical), physical, sampler.View(), trained.value)
        && globalStep == old(globalStep) + 1
      ensures trained == None ==>
        && sampler.View() == After(sampler.random, sampler.data, old(sampler.View()), ReadBefore(fault.value, physical) * physical)
        && globalStep == old(globalStep)
      ensures trained == None ==> forall planned :: OnSchedule(old(globalStep), old(sampler.consumed), planned) ==>
        (OnSchedule(globalStep, sampler.consumed, planned) <==> ReadBefore(fault.value, physical) == 0)
    {
      ghost var start := sampler.View();
      var broken, crops := AccumulateAll(fault);
      if broken || (fault.Some? && fault.value.Updating?) {
        BrokenStepIsOff(sampler.random, sampler.data, start, globalStep, fault.value, physical);
        return None;
      }
      globalStep := globalStep + 1;
      trained := Some(crops);
    }

    /** The physical batches of a step, as far as the first that breaks. */
    method AccumulateAll(fault: Option<StepFault>) returns (broken: bool, crops: seq<Crop>)
      requires Ok()
      modifies sampler
      ensures sampler.Ok()
      ensures broken <==> fault.Some? && !fault.value.Updating? && Breaks(fault.value, physical)
      ensures broken ==>
        Moved(sampler.random, sampler.data, old(sampler.View()), ReadBefore(fault.value, physical), physical, sampler.View())
      ensures !broken ==>
        BatchesRead(sampler.random, sampler.data, old(sampler.View()), Accumulation(physical), physical, sampler.View(), crops)
    {
      var accumulation := Accumulation(physical);
      crops := [];
      ghost var start := sampler.View();
      for j := 0 to accumulation
        invariant sampler.Ok()
        invariant BatchesRead(sampler.random, sampler.data, start, j, physical, sampler.View(), crops)
        invariant forall i :: 0 <= i < j ==> !BreaksAt(fault, physical, i)
      {
        broken, crops := Accumulate(start, j, crops, fault);
        if broken {
          return;
        }
      }
      if fault.Some? && !fault.value.Updating? {
        assert fault.value.batch < accumulation ==> !BreaksAt(fault, physical, fault.value.batch);
      }
      broken := false;
    }

    /** One physical batch of a step. */
    method Accumulate(ghost start: State, j: nat, crops: seq<Crop>, fault: Option<StepFault>) returns (broken: bool, more: seq<Crop>)
      requires Ok() && j < Accumulation(physical)
      requires BatchesRead(sampler.random, sampler.data, start, j, physical, sampler.View(), crops)
      modifies sampler
      ensures sampler.Ok()
      ensures broken <==> BreaksAt(fault, physical, j)
      ensures broken ==> Moved(sampler.random, sampler.data, start, ReadBefore(fault.value, physical), physical, sampler.View())
      ensures !broken ==> BatchesRead(sampler.random, sampler.data, start, j + 1, physical, sampler.View(), more)
    {
      WhereItBreaks(fault, physical, j);
      var read;
      read, more := ReadBatch(start, j, crops, ReadingFault(fault, j));
      broken := !read || fault == Some(Computing(j));
    }

    /** The next batch, beside the crops before it; a batch that cannot be read leaves no trace. */
    method ReadBatch(ghost start: State, j: nat, crops: seq<Crop>, fault: Option<Fault>) returns (read: bool, more: seq<Crop>)
      requires Ok() && BatchesRead(sampler.random, sampler.data, start, j, physical, sampler.View(), crops)
      modifies sampler
      ensures sampler.Ok()
      ensures read <==> !(fault.Some? && fault.value.crop <= physical)
      ensures !read ==> Moved(sampler.random, sampler.data, start, j, physical, sampler.View())
      ensures read ==> BatchesRead(sampler.random, sampler.data, start, j + 1, physical, sampler.View(), more)
    {
      OneMoreBatch(sampler.random, sampler.data, start, j, physical, sampler.View(), crops);
      var batch := sampler.NextBatch(physical, fault);
      read, more := batch.Some?, crops + if batch.Some? then batch.value else [];
    }
  }

  /** A step that breaks while working on its batch number j. */
  predicate BreaksAt(fault: Option<StepFault>, physical: nat, j: nat)
    requires physical == 4 || physical == 8
  {
    fault.Some? && !fault.value.Updating? && fault.value.batch == j && Breaks(fault.value, physical)
  }

  function ReadingFault(fault: Option<StepFault>, batch: nat): Option<Fault> {
    if fault.Some? && fault.value.Reading? && fault.value.batch == batch then Some(fault.value.fault) else None
  }

  /** The sampler has moved on by n crops, and these are they. */
  ghost predicate Accumulated(r: Random, d: Data, start: State, n: nat, now: State, crops: seq<Crop>) {
    Ready(r, d, start) && now == After(r, d, start, n) && crops == Crops(r, d, start, n)
  }

  /** The sampler has moved on by whole batches. */
  ghost predicate Moved(r: Random, d: Data, start: State, batches: nat, physical: nat, now: State) {
    Ready(r, d, start) && now == After(r, d, start, batches * physical)
  }

  ghost predicate BatchesRead(r: Random, d: Data, start: State, batches: nat, physical: nat, now: State, crops: seq<Crop>) {
    Accumulated(r, d, start, batches * physical, now, crops)
  }

  /** A step breaks at its batch j when reading it fails, or when the work on it does. */
  lemma WhereItBreaks(fault: Option<StepFault>, physical: nat, j: nat)
    requires (physical == 4 || physical == 8) && j < Accumulation(physical)
    ensures var failed := ReadingFault(fault, j).Some? && ReadingFault(fault, j).value.crop <= physical;
      && (failed ==> BreaksAt(fault, physical, j) && ReadBefore(fault.value, physical) == j)
      && (!failed ==> (BreaksAt(fault, physical, j) <==> fault == Some(Computing(j))))
      && (fault == Some(Computing(j)) ==> ReadBefore(fault.value, physical) == j + 1)
  {
  }

  lemma OneMoreBatch(r: Random, d: Data, start: State, batches: nat, physical: nat, now: State, crops: seq<Crop>)
    requires Ready(r, d, now) && BatchesRead(r, d, start, batches, physical, now, crops)
    ensures BatchesRead(r, d, start, batches + 1, physical, After(r, d, now, physical), crops + Crops(r, d, now, physical))
  {
    assert batches * physical + physical == (batches + 1) * physical;
    DrawInTwo(r, d, start, batches * physical, physical);
  }

  /** The batches of a step are one draw of sixteen crops, as many as its effective batch size. */
  lemma StepIsOneDraw(r: Random, d: Data, start: State, physical: nat, n: nat, now: State, crops: seq<Crop>)
    requires (physical == 4 || physical == 8) && n == EFFECTIVE_BATCH_SIZE
    requires BatchesRead(r, d, start, Accumulation(physical), physical, now, crops)
    ensures Accumulation(physical) * physical == n == 16 && |crops| == n && now == After(r, d, start, n) && crops == Crops(r, d, start, n)
  {
    assert Accumulation(physical) * physical == n;
    AfterReady(r, d, start, n);
  }

  /** The check of a resumed or forked session against its schedule. */
  predicate OnSchedule(globalStep: nat, consumed: nat, planned: nat) {
    globalStep <= planned && consumed == globalStep * EFFECTIVE_BATCH_SIZE
  }

  /** What a broken step leaves of a session on schedule is off schedule exactly when a batch was consumed. */
  lemma BrokenStepIsOff(r: Random, d: Data, s: State, globalStep: nat, fault: StepFault, physical: nat)
    requires Ready(r, d, s) && (physical == 4 || physical == 8)
    ensures forall planned :: OnSchedule(globalStep, s.consumed, planned) ==>
      (OnSchedule(globalStep, After(r, d, s, ReadBefore(fault, physical) * physical).consumed, planned)
       <==> ReadBefore(fault, physical) == 0)
  {
    AfterReady(r, d, s, ReadBefore(fault, physical) * physical);
  }

  // Training across stops, crashes and resumptions.

  datatype Live = Live(globalStep: nat, state: State)

  datatype Checkpoint = Checkpoint(globalStep: nat, saved: Saved)

  /** What is on disk, and the session of the running process if there is one. */
  datatype Training = Training(checkpoints: seq<Checkpoint>, live: Option<Live>)

  datatype Event = Begin | Resume(index: nat) | StepDone | StepBroken | SaveNow | Stop

  /** The run being made: generator, data, seed and planned steps. */
  datatype Plan = Plan(random: Random, data: Data, seed: nat, steps: nat)

  ghost predicate SoundPlan(p: Plan) {
    SoundRandom(p.random) && ValidData(p.data) && p.seed < MAXIMUM_SEED
  }

  ghost predicate Possible(p: Plan, t: Training, e: Event)
    requires SoundPlan(p)
  {
    match e
    case Begin => t.live == None
    case Resume(i) => t.live == None && i < |t.checkpoints|
    case StepDone => t.live.Some? && t.live.value.globalStep < p.steps && Ready(p.random, p.data, t.live.value.state)
    case _ => t.live.Some?
  }

  /** A resumption that is refused leaves no session. */
  function Resumed(p: Plan, c: Checkpoint): Option<Live> {
    if Loadable(p.data, p.seed, c.saved) && OnSchedule(c.globalStep, Restored(c.saved).consumed, p.steps)
    then Some(Live(c.globalStep, Restored(c.saved)))
    else None
  }

  ghost function Happens(p: Plan, t: Training, e: Event): Training
    requires SoundPlan(p) && Possible(p, t, e)
  {
    match e
    case Begin => t.(live := Some(Live(0, Fresh(p.random, p.data, p.seed))))
    case Resume(i) => t.(live := Resumed(p, t.checkpoints[i]))
    case StepDone => t.(live := Some(Live(t.live.value.globalStep + 1, After(p.random, p.data, t.live.value.state, EFFECTIVE_BATCH_SIZE))))
    case StepBroken => t.(live := None)
    case SaveNow => t.(checkpoints := t.checkpoints + [Checkpoint(t.live.value.globalStep, Save(p.data, p.seed, t.live.value.state))])
    case Stop => t.(live := None)
  }

  ghost predicate CanHappen(p: Plan, t: Training, events: seq<Event>)
    requires SoundPlan(p)
    decreases |events|
  {
    events == [] || (Possible(p, t, events[0]) && CanHappen(p, Happens(p, t, events[0]), events[1..]))
  }

  ghost function AllHappen(p: Plan, t: Training, events: seq<Event>): Training
    requires SoundPlan(p) && CanHappen(p, t, events)
    decreases |events|
  {
    if events == [] then t else AllHappen(p, Happens(p, t, events[0]), events[1..])
  }

  /** The state an uninterrupted run has after some steps. */
  ghost function Uninterrupted(p: Plan, steps: nat): (s: State)
    requires SoundPlan(p)
    ensures Ready(p.random, p.data, s) && s.consumed == steps * EFFECTIVE_BATCH_SIZE
  {
    FreshValid(p.random, p.data, p.seed);
    AfterReady(p.random, p.data, Fresh(p.random, p.data, p.seed), steps * EFFECTIVE_BATCH_SIZE);
    After(p.random, p.data, Fresh(p.random, p.data, p.seed), steps * EFFECTIVE_BATCH_SIZE)
  }

  ghost predicate Faithful(p: Plan, t: Training)
    requires SoundPlan(p)
  {
    && (forall i :: 0 <= i < |t.checkpoints| ==>
          && t.checkpoints[i].globalStep <= p.steps
          && t.checkpoints[i].saved == Save(p.data, p.seed, Uninterrupted(p, t.checkpoints[i].globalStep)))
    && (t.live.Some? ==> t.live.value.globalStep <= p.steps && t.live.value.state == Uninterrupted(p, t.live.value.globalStep))
  }

  lemma UninterruptedStep(p: Plan, steps: nat)
    requires SoundPlan(p)
    ensures Uninterrupted(p, steps + 1) == After(p.random, p.data, Uninterrupted(p, steps), EFFECTIVE_BATCH_SIZE)
    ensures Uninterrupted(p, 0) == Fresh(p.random, p.data, p.seed)
  {
    FreshValid(p.random, p.data, p.seed);
    DrawInTwo(p.random, p.data, Fresh(p.random, p.data, p.seed), steps * EFFECTIVE_BATCH_SIZE, EFFECTIVE_BATCH_SIZE);
    assert (steps + 1) * EFFECTIVE_BATCH_SIZE == steps * EFFECTIVE_BATCH_SIZE + EFFECTIVE_BATCH_SIZE;
  }

  /** A checkpoint of an uninterrupted state is always accepted and restores it. */
  lemma CheckpointResumes(p: Plan, c: Checkpoint)
    requires SoundPlan(p) && c.globalStep <= p.steps && c.saved == Save(p.data, p.seed, Uninterrupted(p, c.globalStep))
    ensures Resumed(p, c) == Some(Live(c.globalStep, Uninterrupted(p, c.globalStep)))
  {
    LoadableExactly(p.data, p.seed, c.saved);
  }

  /** A checkpoint of what a broken step leaves is refused on resumption exactly when the step had consumed a
      batch; before its first batch it is accepted and is the state the step started from. */
  lemma BrokenStepIsRefused(p: Plan, steps: nat, fault: StepFault, physical: nat)
    requires SoundPlan(p) && steps <= p.steps && (physical == 4 || physical == 8) && Breaks(fault, physical)
    ensures
      var left := After(p.random, p.data, Uninterrupted(p, steps), ReadBefore(fault, physical) * physical);
      Resumed(p, Checkpoint(steps, Save(p.data, p.seed, left))) ==
        if ReadBefore(fault, physical) == 0 then Some(Live(steps, Uninterrupted(p, steps))) else None
  {
    var start := Uninterrupted(p, steps);
    var left := After(p.random, p.data, start, ReadBefore(fault, physical) * physical);
    AfterReady(p.random, p.data, start, ReadBefore(fault, physical) * physical);
    BrokenStepIsOff(p.random, p.data, start, steps, fault, physical);
    LoadableExactly(p.data, p.seed, Save(p.data, p.seed, left));
  }

  lemma EventFaithful(p: Plan, t: Training, e: Event)
    requires SoundPlan(p) && Faithful(p, t) && Possible(p, t, e)
    ensures Faithful(p, Happens(p, t, e))
  {
    match e
    case Begin => UninterruptedStep(p, 0);
    case Resume(i) => CheckpointResumes(p, t.checkpoints[i]);
    case StepDone => UninterruptedStep(p, t.live.value.globalStep);
    case _ =>
  }

  lemma {:induction false} RunFaithful(p: Plan, t: Training, events: seq<Event>)
    requires SoundPlan(p) && Faithful(p, t) && CanHappen(p, t, events)
    ensures Faithful(p, AllHappen(p, t, events))
    decreases |events|
  {
    if events != [] {
      EventFaithful(p, t, events[0]);
      RunFaithful(p, Happens(p, t, events[0]), events[1..]);
    }
  }

  /** However often training stops, breaks, crashes and resumes, each checkpoint and each session holds what
      training without any stop would hold at that step: sixteen samples a step, the same future samples,
      and a position every resumption accepts. */
  lemma StoppingChangesNothing(p: Plan, events: seq<Event>)
    requires SoundPlan(p) && CanHappen(p, Training([], None), events)
    ensures
      var t := AllHappen(p, Training([], None), events);
      && (forall i :: 0 <= i < |t.checkpoints| ==>
            && t.checkpoints[i].saved == Save(p.data, p.seed, Uninterrupted(p, t.checkpoints[i].globalStep))
            && Resumed(p, t.checkpoints[i]) == Some(Live(t.checkpoints[i].globalStep, Uninterrupted(p, t.checkpoints[i].globalStep))))
      && (t.live.Some? ==>
            && t.live.value.state == Uninterrupted(p, t.live.value.globalStep)
            && t.live.value.state.consumed == 16 * t.live.value.globalStep)
  {
    RunFaithful(p, Training([], None), events);
    var t := AllHappen(p, Training([], None), events);
    forall i | 0 <= i < |t.checkpoints|
      ensures Resumed(p, t.checkpoints[i]) == Some(Live(t.checkpoints[i].globalStep, Uninterrupted(p, t.checkpoints[i].globalStep)))
    {
      CheckpointResumes(p, t.checkpoints[i]);
    }
  }
}
