/** The sampler's stream of crops, epoch by epoch: what a new sampler draws is what shuffling once and reading through
    the order gives, again and again, with one generator. */
module PilotEpochs {
  import opened PilotSampling

  /** Reading through an order from a place in it: for each example two offsets, the first across and the second down,
      such that the crop of 256 pixels stays inside. The generator's last state comes along. */
  function ReadThrough(r: Random, d: Data, order: seq<int>, from: nat, words: seq<int>): (seq<Crop>, seq<int>)
    requires ValidData(d) && from <= |order| && forall i :: 0 <= i < |order| ==> 0 <= order[i] < |d.examples|
    decreases |order| - from
  {
    if from == |order| then ([], words)
    else
      var example := d.examples[order[from]];
      var (next, left) := r.below(words, example.width - 255);
      var (last, top) := r.below(next, example.height - 255);
      var (rest, end) := ReadThrough(r, d, order, from + 1, last);
      ([Crop(order[from], left, top)] + rest, end)
  }

  /** Some epochs: each shuffles the order the one before it used and reads it through. */
  function Epochs(r: Random, d: Data, order: seq<int>, words: seq<int>, epochs: nat): seq<Crop>
    requires SoundRandom(r) && ValidData(d) && Permutes(order, |d.examples|) && Words(words)
    decreases epochs
  {
    if epochs == 0 then []
    else
      var (next, shuffled) := r.shuffle(words, order);
      PermutesInRange(shuffled, |d.examples|);
      var (crops, end) := ReadThrough(r, d, shuffled, 0, next);
      ReadThroughReady(r, d, shuffled, 0, next);
      crops + Epochs(r, d, shuffled, end, epochs - 1)
  }

  lemma {:induction false} ReadThroughReady(r: Random, d: Data, order: seq<int>, from: nat, words: seq<int>)
    requires SoundRandom(r) && ValidData(d) && Words(words)
    requires from <= |order| && forall i :: 0 <= i < |order| ==> 0 <= order[i] < |d.examples|
    ensures Words(ReadThrough(r, d, order, from, words).1) && |ReadThrough(r, d, order, from, words).0| == |order| - from
    decreases |order| - from
  {
    if from < |order| {
      var example := d.examples[order[from]];
      var (next, _) := r.below(words, example.width - 255);
      var (last, _) := r.below(next, example.height - 255);
      ReadThroughReady(r, d, order, from + 1, last);
    }
  }

  lemma DrawReads(r: Random, d: Data, s: State)
    requires Ready(r, d, s) && s.position < |d.examples|
    ensures |s.order| == |d.examples| && 0 <= s.order[s.position] < |d.examples|
    ensures
      var example := d.examples[s.order[s.position]];
      var (next, left) := r.below(s.words, example.width - 255);
      var (last, top) := r.below(next, example.height - 255);
      Draw(r, d, s) == (State(s.order, s.epoch, s.position + 1, s.consumed + 1, last), Crop(s.order[s.position], left, top))
  {
    PermutesInRange(s.order, |d.examples|);
  }

  /** Drawing to the end of an epoch reads its order through. */
  lemma {:induction false} DrawsToEnd(r: Random, d: Data, s: State, n: nat)
    requires Ready(r, d, s) && n == |d.examples| - s.position
    ensures |s.order| == |d.examples| && forall i :: 0 <= i < |s.order| ==> 0 <= s.order[i] < |d.examples|
    ensures (Crops(r, d, s, n), After(r, d, s, n).words) == ReadThrough(r, d, s.order, s.position, s.words)
    decreases n
  {
    PermutesInRange(s.order, |d.examples|);
    if n > 0 {
      DrawReads(r, d, s);
      DrawFirst(r, d, s, n);
      DrawsToEnd(r, d, Draw(r, d, s).0, n - 1);
    }
  }

  /** From its end, an epoch is shuffled and read through. */
  lemma OneEpoch(r: Random, d: Data, s: State)
    requires Ready(r, d, s) && s.position == |d.examples|
    ensures
      var n := |d.examples|;
      var (words, order) := r.shuffle(s.words, s.order);
      && Permutes(order, n) && Words(words) && |order| == n && (forall i :: 0 <= i < n ==> 0 <= order[i] < n)
      && var (crops, end) := ReadThrough(r, d, order, 0, words);
        && Crops(r, d, s, n) == crops
        && var after := After(r, d, s, n);
          Ready(r, d, after) && after.words == end && after.order == order && after.position == n
  {
    var n := |d.examples|;
    PermutesInRange(s.order, n);
    RenewedReady(r, d, s);
    var now := Renewed(r, s);
    PermutesInRange(now.order, n);
    assert Draw(r, d, s) == Draw(r, d, now);
    DrawFirst(r, d, s, n);
    DrawFirst(r, d, now, n);
    DrawsToEnd(r, d, now, n);
    AfterWithin(r, d, now, n);
    AfterReady(r, d, now, n);
  }

  lemma {:induction false} DrawsEpochs(r: Random, d: Data, s: State, epochs: nat, total: nat)
    requires Ready(r, d, s) && s.position == |d.examples| && total == epochs * |d.examples|
    ensures Crops(r, d, s, total) == Epochs(r, d, s.order, s.words, epochs)
    decreases epochs
  {
    if epochs > 0 {
      OneEpoch(r, d, s);
      OneLess(epochs, |d.examples|);
      var left := total - |d.examples|;
      DrawsEpochs(r, d, After(r, d, s, |d.examples|), epochs - 1, left);
      DrawInTwo(r, d, s, |d.examples|, left);
    } else {
      AfterReady(r, d, s, 0);
    }
  }

  lemma OneLess(epochs: nat, n: nat)
    requires epochs > 0
    ensures (epochs - 1) * n == epochs * n - n && epochs * n >= n
  {
    assert (epochs - 1) * n >= 0;
  }

  /** The first epoch, from the seeded generator. */
  lemma FirstEpoch(r: Random, d: Data, seed: nat)
    requires SoundRandom(r) && ValidData(d)
    ensures Ready(r, d, Fresh(r, d, seed))
    ensures
      var n := |d.examples|;
      var (words, order) := r.shuffle(r.seeded(seed), Range(n));
      && Permutes(order, n) && Words(words) && |order| == n && (forall i :: 0 <= i < n ==> 0 <= order[i] < n)
      && var (crops, end) := ReadThrough(r, d, order, 0, words);
        && Crops(r, d, Fresh(r, d, seed), n) == crops
        && var after := After(r, d, Fresh(r, d, seed), n);
          Ready(r, d, after) && after.words == end && after.order == order && after.position == n
  {
    var n := |d.examples|;
    var s := Fresh(r, d, seed);
    FreshValid(r, d, seed);
    PermutesInRange(s.order, n);
    DrawsToEnd(r, d, s, n);
    AfterWithin(r, d, s, n);
    AfterReady(r, d, s, n);
  }

  /** What a new sampler draws in its first epochs, from the seeded generator and the examples in their own order. */
  lemma StreamIsEpochs(r: Random, d: Data, seed: nat, epochs: nat, total: nat)
    requires SoundRandom(r) && ValidData(d) && total == epochs * |d.examples|
    ensures Ready(r, d, Fresh(r, d, seed))
    ensures Crops(r, d, Fresh(r, d, seed), total) == Epochs(r, d, Range(|d.examples|), r.seeded(seed), epochs)
  {
    FirstEpoch(r, d, seed);
    var s := Fresh(r, d, seed);
    if epochs > 0 {
      OneLess(epochs, |d.examples|);
      var left := total - |d.examples|;
      DrawsEpochs(r, d, After(r, d, s, |d.examples|), epochs - 1, left);
      DrawInTwo(r, d, s, |d.examples|, left);
    } else {
      AfterReady(r, d, s, 0);
    }
  }

  // Snapshots.

  /** A snapshot is loaded exactly when it is of this data and seed, names every example once, stands where its counts
      say, and holds 624 words of thirty-two bits and a position among them. */
  lemma LoadsExactly(d: Data, seed: nat, v: Saved)
    requires ValidData(d) && seed < 0x8000_0000_0000_0000
    ensures Loadable(d, seed, v) <==>
      && v.revision == d.revision && v.selection == d.selection && v.seed == seed
      && |v.order| == |d.examples| && (forall i :: 0 <= i < |d.examples| ==> i in v.order)
      && 0 <= v.epoch && 0 <= v.position && v.position <= |d.examples| && v.consumed == v.epoch * |d.examples| + v.position
      && |v.words| == 625 && 0 <= v.words[624] && v.words[624] < 625
      && forall i :: 0 <= i < 624 ==> 0 <= v.words[i] && v.words[i] <= 4_294_967_295
  {
    if |v.order| == |d.examples| {
      NamesAllIsPermutation(v.order, |d.examples|);
    }
    if 0 <= v.epoch {
      assert v.epoch * |d.examples| >= 0;
    }
  }

  /** A list of n that names every number below n names each once. */
  lemma NamesAllIsPermutation(order: seq<int>, n: nat)
    requires |order| == n
    ensures Permutes(order, n) <==> forall i :: 0 <= i < n ==> i in order
  {
    if Permutes(order, n) {
      forall i | 0 <= i < n
        ensures i in order
      {
        assert Range(n)[i] == i;
        assert i in multiset(Range(n));
        assert i in multiset(order);
      }
    }
    if forall i :: 0 <= i < n ==> i in order {
      AllNamed(order, n);
    }
  }

  lemma {:induction false} AllNamed(order: seq<int>, n: nat)
    requires |order| == n && forall i :: 0 <= i < n ==> i in order
    ensures multiset(order) == multiset(Range(n))
  {
    if n > 0 {
      assert n - 1 in order;
      var k :| 0 <= k < n && order[k] == n - 1;
      var rest := order[..k] + order[k + 1..];
      forall i | 0 <= i < n - 1
        ensures i in rest
      {
        assert i in order;
        var j :| 0 <= j < n && order[j] == i;
        assert rest[if j < k then j else j - 1] == i;
      }
      AllNamed(rest, n - 1);
      assert order == order[..k] + [n - 1] + order[k + 1..];
      assert Range(n) == Range(n - 1) + [n - 1];
    }
  }
}
