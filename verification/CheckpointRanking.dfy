/** Which checkpoints stay, said with their measurements: the three with the best recovery, and how ties are broken. */
module CheckpointRanking {
  import opened TextOrder
  import opened CheckpointRetention
  import opened Wrappers

  /** The first of these that differs decides: recovery, image error, structure, the step and the identifier, greater
      before smaller. */
  ghost predicate Above(y: Summary, x: Summary)
    requires y.metrics.Some? && x.metrics.Some?
  {
    var p, q := y.metrics.value, x.metrics.value;
    || p.recovery > q.recovery
    || (p.recovery == q.recovery && p.psnr > q.psnr)
    || (p.recovery == q.recovery && p.psnr == q.psnr && p.ssim > q.ssim)
    || (p == q && y.globalStep > x.globalStep)
    || (p == q && y.globalStep == x.globalStep && Precedes(x.identifier, y.identifier))
  }

  lemma OutranksIsAbove(y: Summary, x: Summary)
    requires y.metrics.Some? && x.metrics.Some? && y.identifier != x.identifier
    ensures Outranks(y, x) <==> Above(y, x)
  {
    AtMostIsLexicographic(x.identifier, y.identifier);
  }

  /** The measured checkpoints that go before one. */
  ghost function AllAbove(history: seq<Summary>, x: Summary): set<Summary>
    requires x.metrics.Some?
  {
    set y | y in history && y.metrics.Some? && Above(y, x)
  }

  lemma NotAboveItself(x: Summary)
    requires x.metrics.Some?
    ensures !Above(x, x)
  {
    if k: nat :| Differ(x.identifier, x.identifier, k) {
      assert false;
    }
  }

  lemma OutrankingIsAbove(history: seq<Summary>, x: Summary)
    requires Distinct(history) && x in history && x.metrics.Some?
    ensures Outranking(history, x) == AllAbove(history, x)
  {
    NotAboveItself(x);
    forall y | y in history && y.metrics.Some? && y != x
      ensures Outranks(y, x) <==> Above(y, x)
    {
      if y.identifier == x.identifier {
        DistinctByItem(history, x, y);
      }
      OutranksIsAbove(y, x);
    }
  }

  /** After any saves exactly the latest, the pinned, and the measured with fewer than three above them are kept. */
  lemma KeptExactly(history: seq<Summary>, x: Summary)
    requires Distinct(history) && x in history
    ensures x in Published(history).checkpoints <==>
      x.pinned || x == history[|history| - 1] || (x.metrics.Some? && |AllAbove(history, x)| < 3)
  {
    IndexHolds(history);
    if x.metrics.Some? {
      OutrankingIsAbove(history, x);
    }
  }

  /** The measured checkpoints, other than x, whose recovery is at least that of x. */
  function NoWorse(history: seq<Summary>, x: Summary): set<Summary>
    requires x.metrics.Some?
  {
    set y | y in history && y != x && y.metrics.Some? && y.metrics.value.recovery >= x.metrics.value.recovery
  }

  function Better(history: seq<Summary>, x: Summary): set<Summary>
    requires x.metrics.Some?
  {
    set y | y in history && y.metrics.Some? && y.metrics.value.recovery > x.metrics.value.recovery
  }

  /** A checkpoint is kept when fewer than three others recover at least as well, and dropped, unless it is pinned or
      the latest, when three recover better. */
  lemma BestRecoveryStays(history: seq<Summary>, x: Summary)
    requires Distinct(history) && x in history && x.metrics.Some?
    ensures |NoWorse(history, x)| < 3 ==> x in Published(history).checkpoints
    ensures |Better(history, x)| >= 3 && !x.pinned && x != history[|history| - 1] ==> x !in Published(history).checkpoints
  {
    KeptExactly(history, x);
    NotAboveItself(x);
    SubsetIsSmaller(AllAbove(history, x), NoWorse(history, x));
    SubsetIsSmaller(Better(history, x), AllAbove(history, x));
  }
}
