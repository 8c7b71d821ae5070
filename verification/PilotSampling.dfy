/** The resumable sampler: what it draws, as values. Shuffling and crop offsets come from a random generator
    this model does not see into; its state is the generator's list of words. */
module PilotSampling {
  import opened Repetition

  datatype Example = Example(identity: string, width: nat, height: nat)

  datatype Data = Data(revision: string, selection: string, examples: seq<Example>)

  /** The generator: its state for a seed, an in-place shuffle, and a number below a bound. */
  datatype Random = Random(
    seeded: nat -> seq<int>,
    shuffle: (seq<int>, seq<int>) -> (seq<int>, seq<int>),
    below: (seq<int>, nat) -> (seq<int>, nat))

  const MAXIMUM_EXAMPLES: nat := 200_000

  predicate ValidData(d: Data) {
    && 1 <= |d.examples| <= MAXIMUM_EXAMPLES
    && forall i :: 0 <= i < |d.examples| ==> 256 <= d.examples[i].width <= 8192 && 256 <= d.examples[i].height <= 8192
  }

  /** The words of a generator state, as saved and as restored. */
  predicate Words(w: seq<int>) {
    |w| == 625 && (forall i :: 0 <= i < 625 ==> 0 <= w[i] < 0x1_0000_0000) && w[624] <= 624
  }

  /** The generator's contract: states stay states, a shuffle permutes, and numbers stay below their bound. */
  ghost predicate SoundRandom(r: Random) {
    && (forall seed :: Words(r.seeded(seed)))
    && (forall w, order :: Words(w) ==> Words(r.shuffle(w, order).0) && multiset(r.shuffle(w, order).1) == multiset(order))
    && (forall w, n :: Words(w) && 0 < n ==> Words(r.below(w, n).0) && r.below(w, n).1 < n)
  }

  datatype State = State(order: seq<int>, epoch: nat, position: nat, consumed: nat, words: seq<int>)

  /** A crop that was read: the example's index and the crop's corner. */
  datatype Crop = Crop(index: int, left: nat, top: nat)

  datatype Sample = Sample(source: string, left: nat, top: nat)

  function Range(n: nat): (s: seq<int>)
    ensures |s| == n && forall i :: 0 <= i < n ==> s[i] == i
  {
    seq(n, i => i)
  }

  /** An order that names every example once. */
  predicate Permutes(order: seq<int>, n: nat) {
    multiset(order) == multiset(Range(n))
  }

  lemma PermutesInRange(order: seq<int>, n: nat)
    requires Permutes(order, n)
    ensures |order| == n && forall i :: 0 <= i < |order| ==> 0 <= order[i] < n
  {
    assert |multiset(order)| == |multiset(Range(n))|;
    forall i | 0 <= i < |order|
      ensures 0 <= order[i] < n
    {
      assert order[i] in multiset(order);
      assert order[i] in Range(n);
    }
  }

  /** What every reachable sampler state keeps. */
  predicate Valid(d: Data, s: State) {
    && Permutes(s.order, |d.examples|)
    && s.position <= |d.examples|
    && s.consumed == s.epoch * |d.examples| + s.position
    && Words(s.words)
  }

  /** A new sampler: the seeded generator has shuffled the first epoch. */
  function Fresh(r: Random, d: Data, seed: nat): State {
    var (words, order) := r.shuffle(r.seeded(seed), Range(|d.examples|));
    State(order, 0, 0, 0, words)
  }

  lemma FreshValid(r: Random, d: Data, seed: nat)
    requires SoundRandom(r) && ValidData(d)
    ensures Valid(d, Fresh(r, d, seed))
  {
  }

  /** At the end of an epoch the order is shuffled again; otherwise nothing happens. */
  function Renewed(r: Random, s: State): State {
    if s.position == |s.order| then
      var (words, order) := r.shuffle(s.words, s.order);
      State(order, s.epoch + 1, 0, s.consumed, words)
    else s
  }

  /** A sound generator, usable data and a valid state of them. */
  ghost predicate Ready(r: Random, d: Data, s: State) {
    SoundRandom(r) && ValidData(d) && Valid(d, s)
  }

  lemma RenewedReady(r: Random, d: Data, s: State)
    requires Ready(r, d, s)
    ensures Ready(r, d, Renewed(r, s))
    ensures var now := Renewed(r, s);
      now.position < |now.order| == |d.examples| && 0 <= now.order[now.position] < |d.examples|
  {
    PermutesInRange(s.order, |d.examples|);
    var now := Renewed(r, s);
    PermutesInRange(now.order, |d.examples|);
    assert (s.epoch + 1) * |d.examples| == s.epoch * |d.examples| + |d.examples|;
  }

  /** One crop: the next example of the order and two random offsets. */
  function Draw(r: Random, d: Data, s: State): (State, Crop)
    requires Ready(r, d, s)
  {
    RenewedReady(r, d, s);
    var now := Renewed(r, s);
    var index := now.order[now.position];
    var example := d.examples[index];
    var (words, left) := r.below(now.words, example.width - 256 + 1);
    var (last, top) := r.below(words, example.height - 256 + 1);
    (State(now.order, now.epoch, now.position + 1, now.consumed + 1, last), Crop(index, left, top))
  }

  /** A draw keeps a valid state, counts one crop, and stays inside the example. */
  lemma DrawReady(r: Random, d: Data, s: State)
    requires Ready(r, d, s)
    ensures Ready(r, d, Draw(r, d, s).0)
    ensures Draw(r, d, s).0.consumed == s.consumed + 1
    ensures
      var c := Draw(r, d, s).1;
      && 0 <= c.index < |d.examples|
      && c.left + 256 <= d.examples[c.index].width && c.top + 256 <= d.examples[c.index].height
  {
    RenewedReady(r, d, s);
  }

  ghost function Readiness(r: Random, d: Data): State -> bool {
    s => Ready(r, d, s)
  }

  /** Drawing as a step, defined on the valid states. */
  function Drawing(r: Random, d: Data): State --> (State, Crop) {
    s requires Ready(r, d, s) => Draw(r, d, s)
  }

  lemma DrawingCloses(r: Random, d: Data)
    ensures Closed(Drawing(r, d), Readiness(r, d))
  {
    forall s | Readiness(r, d)(s)
      ensures Drawing(r, d).requires(s) && Readiness(r, d)(Drawing(r, d)(s).0)
    {
      DrawReady(r, d, s);
    }
  }

  /** The state after drawing several crops in order. */
  function After(r: Random, d: Data, s: State, n: nat): State
    requires Ready(r, d, s)
  {
    DrawingCloses(r, d);
    Last(Drawing(r, d), Readiness(r, d), s, n)
  }

  /** The crops themselves. */
  function Crops(r: Random, d: Data, s: State, n: nat): seq<Crop>
    requires Ready(r, d, s)
  {
    DrawingCloses(r, d);
    Outputs(Drawing(r, d), Readiness(r, d), s, n)
  }

  /** One crop more at the front. */
  lemma DrawFirst(r: Random, d: Data, s: State, n: nat)
    requires Ready(r, d, s) && 0 < n
    ensures Ready(r, d, Draw(r, d, s).0)
    ensures After(r, d, s, n) == After(r, d, Draw(r, d, s).0, n - 1)
    ensures Crops(r, d, s, n) == [Draw(r, d, s).1] + Crops(r, d, Draw(r, d, s).0, n - 1)
  {
    DrawReady(r, d, s);
    DrawingCloses(r, d);
  }

  lemma {:induction false} AfterReady(r: Random, d: Data, s: State, n: nat)
    requires Ready(r, d, s)
    ensures Ready(r, d, After(r, d, s, n)) && After(r, d, s, n).consumed == s.consumed + n
    ensures |Crops(r, d, s, n)| == n
    decreases n
  {
    if n != 0 {
      DrawReady(r, d, s);
      DrawFirst(r, d, s, n);
      AfterReady(r, d, Draw(r, d, s).0, n - 1);
    }
  }

  /** Drawing a and then b crops draws the same crops as drawing a + b. */
  lemma DrawInTwo(r: Random, d: Data, s: State, a: nat, b: nat)
    requires Ready(r, d, s)
    ensures Ready(r, d, After(r, d, s, a)) && |Crops(r, d, s, a)| == a
    ensures After(r, d, s, a + b) == After(r, d, After(r, d, s, a), b)
    ensures Crops(r, d, s, a + b) == Crops(r, d, s, a) + Crops(r, d, After(r, d, s, a), b)
  {
    AfterReady(r, d, s, a);
    DrawingCloses(r, d);
    RepeatInTwo(Drawing(r, d), Readiness(r, d), s, a, b);
  }

  // Epochs.

  function Indices(crops: seq<Crop>): (s: seq<int>)
    ensures |s| == |crops| && forall i :: 0 <= i < |s| ==> s[i] == crops[i].index
  {
    seq(|crops|, i requires 0 <= i < |crops| => crops[i].index)
  }

  lemma DrawStep(r: Random, d: Data, s: State)
    requires Ready(r, d, s) && s.position < |d.examples|
    ensures |s.order| == |d.examples| && Ready(r, d, Draw(r, d, s).0)
    ensures
      var (after, crop) := Draw(r, d, s);
      crop.index == s.order[s.position] && after.order == s.order && after.epoch == s.epoch && after.position == s.position + 1
  {
    PermutesInRange(s.order, |d.examples|);
    DrawReady(r, d, s);
  }

  lemma {:induction false} AfterWithin(r: Random, d: Data, s: State, n: nat)
    requires Ready(r, d, s) && s.position + n <= |d.examples|
    ensures After(r, d, s, n).order == s.order && After(r, d, s, n).epoch == s.epoch
    ensures After(r, d, s, n).position == s.position + n
    decreases n
  {
    if n != 0 {
      DrawStep(r, d, s);
      DrawFirst(r, d, s, n);
      AfterWithin(r, d, Draw(r, d, s).0, n - 1);
    }
  }

  /** Within an epoch the crops follow the order. */
  lemma {:induction false} DrawWithin(r: Random, d: Data, s: State, n: nat)
    requires Ready(r, d, s) && s.position + n <= |d.examples| == |s.order|
    ensures |Crops(r, d, s, n)| == n && forall k :: 0 <= k < n ==> Crops(r, d, s, n)[k].index == s.order[s.position + k]
    decreases n
  {
    if n != 0 {
      DrawStep(r, d, s);
      DrawFirst(r, d, s, n);
      var next := Draw(r, d, s).0;
      DrawWithin(r, d, next, n - 1);
      var rest := Crops(r, d, next, n - 1);
      forall k | 0 < k < n
        ensures Crops(r, d, s, n)[k].index == s.order[s.position + k]
      {
        assert rest[k - 1].index == next.order[next.position + (k - 1)];
      }
    }
  }

  /** From the start or the end of an epoch, the next epoch visits every example exactly once. */
  lemma EpochVisitsAll(r: Random, d: Data, s: State)
    requires Ready(r, d, s) && (s.position == 0 || s.position == |d.examples|)
    ensures Permutes(Indices(Crops(r, d, s, |d.examples|)), |d.examples|)
    ensures After(r, d, s, |d.examples|).position == |d.examples|
  {
    var now := Renewed(r, s);
    PermutesInRange(s.order, |d.examples|);
    RenewedReady(r, d, s);
    PermutesInRange(now.order, |d.examples|);
    assert Draw(r, d, s) == Draw(r, d, now);
    DrawFirst(r, d, s, |d.examples|);
    DrawFirst(r, d, now, |d.examples|);
    AfterWithin(r, d, now, |d.examples|);
    DrawWithin(r, d, now, |d.examples|);
    assert Indices(Crops(r, d, now, |d.examples|)) == now.order;
  }

  lemma {:induction false} EpochEnds(r: Random, d: Data, s: State, epochs: nat)
    requires Ready(r, d, s) && s.position == 0
    ensures 0 <= epochs * |d.examples|
    ensures
      var after := After(r, d, s, epochs * |d.examples|);
      Ready(r, d, after) && (after.position == 0 || after.position == |d.examples|)
    decreases epochs
  {
    var n := |d.examples|;
    if epochs != 0 {
      EpochEnds(r, d, s, epochs - 1);
      assert epochs * n == (epochs - 1) * n + n;
      DrawInTwo(r, d, s, (epochs - 1) * n, n);
      var middle := After(r, d, s, (epochs - 1) * n);
      EpochVisitsAll(r, d, middle);
      AfterReady(r, d, middle, n);
    }
  }

  /** Each epoch of a new sampler visits every example exactly once. */
  lemma EveryEpochVisitsAll(r: Random, d: Data, seed: nat, epoch: nat)
    requires SoundRandom(r) && ValidData(d)
    ensures Ready(r, d, Fresh(r, d, seed)) && 0 <= epoch * |d.examples|
    ensures
      var drawn := Crops(r, d, Fresh(r, d, seed), epoch * |d.examples| + |d.examples|);
      epoch * |d.examples| <= |drawn| && Permutes(Indices(drawn[epoch * |d.examples|..]), |d.examples|)
  {
    var n := |d.examples|;
    var s := Fresh(r, d, seed);
    FreshValid(r, d, seed);
    EpochEnds(r, d, s, epoch);
    var before := epoch * n;
    DrawInTwo(r, d, s, before, n);
    EpochVisitsAll(r, d, After(r, d, s, before));
    assert (Crops(r, d, s, before) + Crops(r, d, After(r, d, s, before), n))[before..] == Crops(r, d, After(r, d, s, before), n);
  }

  // Saved states.

  /** A snapshot as it is stored: any values of the right shape may come back. */
  datatype Saved = Saved(
    revision: string, selection: string, seed: int, epoch: int, position: int, consumed: int, order: seq<int>, words: seq<int>)

  function Save(d: Data, seed: nat, s: State): Saved {
    Saved(d.revision, d.selection, seed, s.epoch, s.position, s.consumed, s.order, s.words)
  }

  /** The record's own bounds. */
  predicate WellFormed(v: Saved) {
    && 0 <= v.seed < 0x8000_0000_0000_0000
    && 0 <= v.epoch && 0 <= v.position <= MAXIMUM_EXAMPLES && 0 <= v.consumed
    && 1 <= |v.order| <= MAXIMUM_EXAMPLES
    && Words(v.words)
  }

  /** The checks against this sampler. */
  predicate Loadable(d: Data, seed: nat, v: Saved) {
    && WellFormed(v)
    && v.revision == d.revision && v.selection == d.selection && v.seed == seed
    && |v.order| == |d.examples| && Permutes(v.order, |d.examples|)
    && v.position <= |d.examples|
    && v.consumed == v.epoch * |d.examples| + v.position
  }

  function Restored(v: Saved): State
    requires WellFormed(v)
  {
    State(v.order, v.epoch, v.position, v.consumed, v.words)
  }

  /** Loading accepts exactly the snapshots of valid states of the same data and seed, and restores them. */
  lemma LoadableExactly(d: Data, seed: nat, v: Saved)
    requires ValidData(d) && seed < 0x8000_0000_0000_0000
    ensures Loadable(d, seed, v) <==> exists s :: Valid(d, s) && v == Save(d, seed, s)
    ensures forall s :: Valid(d, s) && v == Save(d, seed, s) ==> Restored(v) == s
  {
    if Loadable(d, seed, v) {
      assert Valid(d, Restored(v)) && v == Save(d, seed, Restored(v));
    }
    forall s | Valid(d, s) && v == Save(d, seed, s)
      ensures Loadable(d, seed, v) && Restored(v) == s
    {
      PermutesInRange(s.order, |d.examples|);
    }
  }
}
