/** Which checkpoints a directory keeps: an online rule over the current index, and what it amounts to over
    the whole history of saves. */
module CheckpointRetention {
  import opened TextOrder
  import opened Wrappers

  datatype Metrics = Metrics(recovery: real, psnr: real, ssim: real)

  datatype Summary = Summary(identifier: string, globalStep: nat, metrics: Option<Metrics>, pinned: bool)

  datatype Index = Index(latest: Option<string>, checkpoints: seq<Summary>)

  /** The measured order: recovery, image error, structure, then the later step and the identifier. */
  predicate RankAtMost(a: Summary, b: Summary)
    requires a.metrics.Some? && b.metrics.Some?
  {
    var x, y := a.metrics.value, b.metrics.value;
    if x.recovery != y.recovery then x.recovery < y.recovery
    else if x.psnr != y.psnr then x.psnr < y.psnr
    else if x.ssim != y.ssim then x.ssim < y.ssim
    else if a.globalStep != b.globalStep then a.globalStep < b.globalStep
    else AtMost(a.identifier, b.identifier)
  }

  lemma RankOrders(a: Summary, b: Summary, c: Summary)
    requires a.metrics.Some? && b.metrics.Some? && c.metrics.Some?
    ensures RankAtMost(a, b) || RankAtMost(b, a)
    ensures RankAtMost(a, b) && RankAtMost(b, a) ==> a.identifier == b.identifier
    ensures RankAtMost(a, b) && RankAtMost(b, c) ==> RankAtMost(a, c)
  {
    Total(a.identifier, b.identifier);
    if AtMost(a.identifier, b.identifier) && AtMost(b.identifier, a.identifier) {
      Antisymmetric(a.identifier, b.identifier);
    }
    if AtMost(a.identifier, b.identifier) && AtMost(b.identifier, c.identifier) {
      Transitive(a.identifier, b.identifier, c.identifier);
    }
  }

  // The rule as the save applies it.

  function Measured(items: seq<Summary>): (m: seq<Summary>)
    ensures forall x :: x in m <==> x in items && x.metrics.Some?
  {
    if items == [] then []
    else if items[0].metrics.Some? then [items[0]] + Measured(items[1..])
    else Measured(items[1..])
  }

  predicate AllMeasured(items: seq<Summary>) {
    forall x :: x in items ==> x.metrics.Some?
  }

  function InsertRanked(s: seq<Summary>, x: Summary): (r: seq<Summary>)
    requires AllMeasured(s) && x.metrics.Some?
    ensures forall y :: y in r <==> y == x || y in s
    ensures |r| == |s| + 1
  {
    if s == [] then [x]
    else if RankAtMost(x, s[0]) then [x] + s
    else [s[0]] + InsertRanked(s[1..], x)
  }

  /** The measured candidates from worst to best. */
  function SortRanked(m: seq<Summary>): (r: seq<Summary>)
    requires AllMeasured(m)
    ensures forall y :: y in r <==> y in m
    ensures |r| == |m|
  {
    if m == [] then [] else InsertRanked(SortRanked(m[1..]), m[0])
  }

  function LastThree(s: seq<Summary>): seq<Summary> {
    if |s| <= 3 then s else s[|s| - 3..]
  }

  function Identifiers(items: seq<Summary>): set<string> {
    set x | x in items :: x.identifier
  }

  /** The items that are pinned or named, in order. */
  function Select(items: seq<Summary>, names: set<string>): seq<Summary> {
    if items == [] then []
    else if items[0].pinned || items[0].identifier in names then [items[0]] + Select(items[1..], names)
    else Select(items[1..], names)
  }

  /** The index after a save: the latest, the three best measured candidates, and everything pinned. */
  function Retained(index: Index, latest: Summary): Index {
    var candidates := index.checkpoints + [latest];
    var best := LastThree(SortRanked(Measured(candidates)));
    Index(Some(latest.identifier), Select(candidates, Identifiers(best) + {latest.identifier}))
  }

  // The rule over a whole history.

  predicate Distinct(items: seq<Summary>) {
    forall i, j :: 0 <= i < j < |items| ==> items[i].identifier != items[j].identifier
  }

  predicate Outranks(y: Summary, x: Summary) {
    y.metrics.Some? && x.metrics.Some? && y != x && RankAtMost(x, y)
  }

  function Outranking(items: seq<Summary>, x: Summary): set<Summary> {
    set y | y in items && Outranks(y, x)
  }

  /** One of the three best measured: fewer than three measured items outrank it. */
  predicate Best(items: seq<Summary>, x: Summary) {
    x.metrics.Some? && |Outranking(items, x)| < 3
  }

  predicate Keep(items: seq<Summary>, latest: string, x: Summary) {
    x.pinned || x.identifier == latest || Best(items, x)
  }

  /** What of some items a history of saves should keep, in order. */
  function Kept(history: seq<Summary>, latest: string, items: seq<Summary>): seq<Summary> {
    if items == [] then []
    else if Keep(history, latest, items[0]) then [items[0]] + Kept(history, latest, items[1..])
    else Kept(history, latest, items[1..])
  }

  /** The index that a history of saves leaves. */
  function Published(history: seq<Summary>): Index {
    if history == [] then Index(None, [])
    else Retained(Published(history[..|history| - 1]), history[|history| - 1])
  }

  // Sorted lists.

  predicate RankSorted(s: seq<Summary>) {
    AllMeasured(s) && forall i, j :: 0 <= i < j < |s| ==> RankAtMost(s[i], s[j])
  }

  lemma DistinctByItem(items: seq<Summary>, x: Summary, y: Summary)
    requires Distinct(items) && x in items && y in items && x.identifier == y.identifier
    ensures x == y
  {
  }

  lemma {:induction false} InsertKeepsSorted(s: seq<Summary>, x: Summary)
    requires RankSorted(s) && Distinct(s) && x.metrics.Some? && forall y :: y in s ==> y.identifier != x.identifier
    ensures RankSorted(InsertRanked(s, x)) && Distinct(InsertRanked(s, x))
  {
    if s == [] {
    } else if RankAtMost(x, s[0]) {
      forall j | 0 <= j < |s|
        ensures RankAtMost(x, s[j]) && s[j].identifier != x.identifier
      {
        RankOrders(x, s[0], s[j]);
        assert s[j] in s;
      }
    } else {
      InsertKeepsSorted(s[1..], x);
      RankOrders(x, s[0], x);
      var rest := InsertRanked(s[1..], x);
      forall j | 0 <= j < |rest|
        ensures RankAtMost(s[0], rest[j]) && rest[j].identifier != s[0].identifier
      {
        assert rest[j] in rest;
        assert s[0] in s;
      }
    }
  }

  lemma {:induction false} SortSorts(m: seq<Summary>)
    requires AllMeasured(m) && Distinct(m)
    ensures RankSorted(SortRanked(m)) && Distinct(SortRanked(m))
  {
    if m != [] {
      SortSorts(m[1..]);
      InsertKeepsSorted(SortRanked(m[1..]), m[0]);
    }
  }

  lemma {:induction false} MeasuredDistinct(items: seq<Summary>)
    requires Distinct(items)
    ensures Distinct(Measured(items))
  {
    if items != [] {
      MeasuredDistinct(items[1..]);
      if items[0].metrics.Some? {
        var rest := Measured(items[1..]);
        forall j | 0 <= j < |rest|
          ensures rest[j].identifier != items[0].identifier
        {
          assert rest[j] in rest && rest[j] in items[1..];
        }
      }
    }
  }

  function Elements(s: seq<Summary>): set<Summary> {
    set x | x in s
  }

  lemma {:induction false} DistinctCounts(s: seq<Summary>)
    requires Distinct(s)
    ensures |Elements(s)| == |s|
  {
    if s != [] {
      DistinctCounts(s[1..]);
      assert s[0] !in s[1..];
      assert Elements(s) == Elements(s[1..]) + {s[0]};
    }
  }

  /** In a sorted list an item is outranked by exactly those after it. */
  lemma SortedOutranking(s: seq<Summary>, i: nat)
    requires RankSorted(s) && Distinct(s) && i < |s|
    ensures Outranking(s, s[i]) == Elements(s[i + 1..]) && |Outranking(s, s[i])| == |s| - 1 - i
  {
    forall y | y in s
      ensures Outranks(y, s[i]) <==> y in s[i + 1..]
    {
      var j :| 0 <= j < |s| && s[j] == y;
      RankOrders(s[i], y, y);
      if j > i {
        assert y == s[i + 1..][j - i - 1];
      }
    }
    DistinctCounts(s[i + 1..]);
  }

  /** The last three of the sorted measured items are the three best, and each other item is outranked by them. */
  lemma LastThreeAreBest(items: seq<Summary>, x: Summary)
    requires Distinct(items) && x in items
    ensures
      var top := LastThree(SortRanked(Measured(items)));
      && (x in top <==> Best(items, x))
      && (x.metrics.Some? && !Best(items, x) ==> |Elements(top)| == 3 && Elements(top) <= Outranking(items, x))
  {
    MeasuredDistinct(items);
    SortSorts(Measured(items));
    var s := SortRanked(Measured(items));
    if x.metrics.Some? {
      var i :| 0 <= i < |s| && s[i] == x;
      SortedOutranking(s, i);
      assert Outranking(items, x) == Outranking(s, x);
      LastThreeAt(s, i);
    }
  }

  lemma LastThreeAt(s: seq<Summary>, i: nat)
    requires RankSorted(s) && Distinct(s) && i < |s|
    ensures s[i] in LastThree(s) <==> |s| - 3 <= i
    ensures i < |s| - 3 ==> |Elements(LastThree(s))| == 3 && Elements(LastThree(s)) <= Elements(s[i + 1..])
  {
    if i < |s| - 3 {
      DistinctCounts(s[|s| - 3..]);
      assert s[|s| - 3..] == s[i + 1..][|s| - 3 - (i + 1)..];
    } else if |s| > 3 {
      assert s[i] == s[|s| - 3..][i - (|s| - 3)];
    }
  }

  // The main result.

  /** The save's selection is the declarative rule over the candidates. */
  lemma RetainedKeeps(index: Index, latest: Summary)
    requires Distinct(index.checkpoints + [latest])
    ensures
      var candidates := index.checkpoints + [latest];
      Retained(index, latest).checkpoints == Kept(candidates, latest.identifier, candidates)
  {
    var candidates := index.checkpoints + [latest];
    var top := LastThree(SortRanked(Measured(candidates)));
    var names := Identifiers(top) + {latest.identifier};
    forall x | x in candidates
      ensures x.pinned || x.identifier in names <==> Keep(candidates, latest.identifier, x)
    {
      LastThreeAreBest(candidates, x);
      if x.identifier in Identifiers(top) {
        var y :| y in top && y.identifier == x.identifier;
        LastThreeInside(Measured(candidates), y);
        DistinctByItem(candidates, x, y);
      }
    }
    SelectIsKept(candidates, names, candidates, latest.identifier);
  }

  lemma LastThreeInside(m: seq<Summary>, y: Summary)
    requires AllMeasured(m) && y in LastThree(SortRanked(m))
    ensures y in m
  {
    assert y in SortRanked(m);
  }

  lemma {:induction false} SelectIsKept(items: seq<Summary>, names: set<string>, history: seq<Summary>, latest: string)
    requires forall x :: x in items ==> (x.pinned || x.identifier in names <==> Keep(history, latest, x))
    ensures Select(items, names) == Kept(history, latest, items)
  {
    if items != [] {
      assert items[0] in items;
      SelectIsKept(items[1..], names, history, latest);
    }
  }

  lemma {:induction false} KeptHas(history: seq<Summary>, latest: string, items: seq<Summary>, x: Summary)
    ensures x in Kept(history, latest, items) <==> x in items && Keep(history, latest, x)
  {
    if items != [] {
      KeptHas(history, latest, items[1..], x);
    }
  }

  lemma {:induction false} KeptDistinct(history: seq<Summary>, latest: string, items: seq<Summary>)
    requires Distinct(items)
    ensures Distinct(Kept(history, latest, items))
  {
    if items != [] {
      KeptDistinct(history, latest, items[1..]);
      var rest := Kept(history, latest, items[1..]);
      forall j | 0 <= j < |rest|
        ensures rest[j].identifier != items[0].identifier
      {
        KeptHas(history, latest, items[1..], rest[j]);
        assert rest[j] in rest;
      }
    }
  }

  lemma {:induction false} KeptOfConcatenation(history: seq<Summary>, latest: string, a: seq<Summary>, b: seq<Summary>)
    ensures Kept(history, latest, a + b) == Kept(history, latest, a) + Kept(history, latest, b)
  {
    if a == [] {
      assert a + b == b;
    } else {
      assert (a + b)[1..] == a[1..] + b;
      KeptOfConcatenation(history, latest, a[1..], b);
    }
  }

  /** Selecting among what was kept selects the same as selecting at once, when the rules agree. */
  lemma {:induction false} KeptTwice(h: seq<Summary>, z: string, g: seq<Summary>, y: string, c: seq<Summary>, items: seq<Summary>)
    requires forall x :: x in items ==> (Keep(h, z, x) <==> Keep(g, y, x) && Keep(c, z, x))
    ensures Kept(h, z, items) == Kept(c, z, Kept(g, y, items))
  {
    if items != [] {
      assert items[0] in items;
      KeptTwice(h, z, g, y, c, items[1..]);
    }
  }

  /** Whatever was dropped earlier could not matter: comparing with the candidates decides like comparing with
      the whole history. */
  lemma CandidatesDecide(g: seq<Summary>, last: string, z: Summary, x: Summary)
    requires Distinct(g + [z]) && x in g
    ensures
      var candidates := Kept(g, last, g) + [z];
      Keep(g + [z], z.identifier, x) <==> Keep(g, last, x) && Keep(candidates, z.identifier, x)
  {
    var h := g + [z];
    var candidates := Kept(g, last, g) + [z];
    assert x.identifier != z.identifier by {
      var i :| 0 <= i < |g| && g[i] == x;
      assert h[i] == x && h[|g|] == z;
    }
    forall y
      ensures y in Kept(g, last, g) <==> y in g && Keep(g, last, y)
    {
      KeptHas(g, last, g, y);
    }
    SubsetIsSmaller(Outranking(candidates, x), Outranking(h, x));
    SubsetIsSmaller(Outranking(g, x), Outranking(h, x));
    if Best(candidates, x) && !Best(h, x) {
      DroppedAreDominated(g, last, z, x);
    }
  }

  lemma OutranksTwice(items: seq<Summary>, t: Summary, y: Summary, x: Summary)
    requires Distinct(items) && x in items && y in items && Outranks(t, y) && Outranks(y, x)
    ensures Outranks(t, x)
  {
    RankOrders(x, y, t);
    if t == x {
      RankOrders(x, y, x);
      DistinctByItem(items, x, y);
    }
  }

  lemma DroppedAreDominated(g: seq<Summary>, last: string, z: Summary, x: Summary)
    requires Distinct(g + [z]) && x in g && x.metrics.Some? && |Outranking(g + [z], x)| >= 3
    requires forall y :: y in Kept(g, last, g) <==> y in g && Keep(g, last, y)
    ensures |Outranking(Kept(g, last, g) + [z], x)| >= 3
  {
    var h := g + [z];
    var candidates := Kept(g, last, g) + [z];
    assert Distinct(g) by {
      assert forall i :: 0 <= i < |g| ==> h[i] == g[i];
    }
    if Outranking(h, x) <= Outranking(candidates, x) {
      SubsetIsSmaller(Outranking(h, x), Outranking(candidates, x));
    } else {
      var y :| y in Outranking(h, x) && y !in Outranking(candidates, x);
      assert y in g && !Best(g, y);
      LastThreeAreBest(g, y);
      var top := LastThree(SortRanked(Measured(g)));
      forall t | t in Elements(top)
        ensures t in Outranking(candidates, x)
      {
        assert t in Outranking(g, y) && t in g;
        LastThreeAreBest(g, t);
        OutranksTwice(g, t, y, x);
      }
      SubsetIsSmaller(Elements(top), Outranking(candidates, x));
    }
  }

  /** After any sequence of saves the index is the history cut down to the latest checkpoint, the three best
      measured of the whole history, and the pinned ones, in order. */
  lemma {:induction false} PublishedIsKept(history: seq<Summary>)
    requires Distinct(history) && history != []
    ensures
      var latest := history[|history| - 1].identifier;
      Published(history) == Index(Some(latest), Kept(history, latest, history))
  {
    var n := |history| - 1;
    var g, z := history[..n], history[n];
    assert history == g + [z];
    if g == [] {
      RetainedKeeps(Index(None, []), z);
      assert [] + [z] == history;
    } else {
      PublishedIsKept(g);
      var last := g[n - 1].identifier;
      var c := Kept(g, last, g);
      KeptDistinct(g, last, g);
      forall i | 0 <= i < |c|
        ensures c[i].identifier != z.identifier
      {
        assert c[i] in c;
        KeptHas(g, last, g, c[i]);
      }
      RetainedKeeps(Published(g), z);
      forall x | x in g
        ensures Keep(history, z.identifier, x) <==> Keep(g, last, x) && Keep(c + [z], z.identifier, x)
      {
        CandidatesDecide(g, last, z, x);
      }
      KeptTwice(history, z.identifier, g, last, c + [z], g);
      KeptOfConcatenation(history, z.identifier, g, [z]);
      KeptOfConcatenation(c + [z], z.identifier, c, [z]);
    }
  }

  /** The index names exactly the latest, the pinned and the three best measured checkpoints of the history;
      at most four of them are not pinned. */
  lemma IndexHolds(history: seq<Summary>)
    requires Distinct(history) && history != []
    ensures
      var latest := history[|history| - 1];
      var index := Published(history);
      && index.latest == Some(latest.identifier)
      && (forall x :: x in index.checkpoints <==> x in history && (x.pinned || x == latest || Best(history, x)))
      && |Unpinned(index.checkpoints)| <= 4
  {
    var latest := history[|history| - 1];
    var index := Published(history);
    PublishedIsKept(history);
    forall x
      ensures x in index.checkpoints <==> x in history && (x.pinned || x == latest || Best(history, x))
    {
      KeptHas(history, latest.identifier, history, x);
    }
    var top := LastThree(SortRanked(Measured(history)));
    forall x | x in index.checkpoints && !x.pinned
      ensures x in Elements(top) + {latest}
    {
      LastThreeAreBest(history, x);
    }
    SubsetIsSmaller(Unpinned(index.checkpoints), Elements(top) + {latest});
    MeasuredDistinct(history);
    SortSorts(Measured(history));
    LastThreeShort(SortRanked(Measured(history)));
  }

  function Unpinned(items: seq<Summary>): set<Summary> {
    set x | x in items && !x.pinned
  }

  lemma LastThreeShort(s: seq<Summary>)
    requires Distinct(s)
    ensures |Elements(LastThree(s))| <= 3
  {
    DistinctCounts(LastThree(s));
  }

  /** A published index passes the index's own checks. */
  lemma IndexIsValid(history: seq<Summary>)
    requires Distinct(history) && history != []
    ensures Distinct(Published(history).checkpoints)
    ensures Published(history).latest.Some? && Published(history).latest.value in Identifiers(Published(history).checkpoints)
  {
    var latest := history[|history| - 1];
    PublishedIsKept(history);
    KeptDistinct(history, latest.identifier, history);
    KeptHas(history, latest.identifier, history, latest);
  }
}
