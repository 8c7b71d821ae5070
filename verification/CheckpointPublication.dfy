/** Publishing a checkpoint step by step, cut off anywhere by a crash or an exception. */
module CheckpointPublication {
  import opened CheckpointRetention
  import opened Wrappers

  /** The checkpoint directory: staged and completed directories by identifier, each with whether it is whole,
      and the published index. Writing the index and renaming a directory are atomic. */
  datatype Disk = Disk(pending: map<string, bool>, completed: map<string, bool>, index: Index)

  const STEPS_BEFORE_RENAME: nat := 2
  const STEPS_TO_INDEX: nat := 4

  /** Directories of the previous index that the new one no longer names go away one by one, each in two
      steps: its files, then the directory. */
  function Pruned(d: Disk, items: seq<Summary>, names: set<string>, steps: nat): Disk
    decreases |items|
  {
    if items == [] || steps == 0 then d
    else
      var id := items[0].identifier;
      if id in names then Pruned(d, items[1..], names, steps)
      else if steps == 1 then d.(completed := d.completed[id := false])
      else Pruned(d.(completed := d.completed - {id}), items[1..], names, steps - 2)
  }

  /** The disk once the index is written. */
  function Indexed(d: Disk, summary: Summary, retained: Index): Disk {
    Disk(d.pending - {summary.identifier}, d.completed[summary.identifier := true], retained)
  }

  /** The disk after some steps of a save that leads to an index: stage, write, rename, index, and then the
      removals. */
  function SavedUpTo(d: Disk, summary: Summary, retained: Index, steps: nat): Disk {
    var id := summary.identifier;
    if steps == 0 then d
    else if steps == 1 then d.(pending := d.pending[id := false])
    else if steps == 2 then d.(pending := d.pending[id := true])
    else if steps == 3 then d.(pending := d.pending - {id}, completed := d.completed[id := true])
    else Pruned(Indexed(d, summary, retained), d.index.checkpoints, Identifiers(retained.checkpoints), steps - STEPS_TO_INDEX)
  }

  /** One save: how far it came and whether an exception, not a crash, ended it there. */
  datatype Attempt = Attempt(summary: Summary, stop: nat, raised: bool)

  /** A save cut off after some steps; an exception also removes the stage. */
  function CutTo(d: Disk, a: Attempt, retained: Index): Disk {
    var after := SavedUpTo(d, a.summary, retained, a.stop);
    if a.raised && a.stop <= STEPS_BEFORE_RENAME then after.(pending := after.pending - {a.summary.identifier}) else after
  }

  function Cut(d: Disk, a: Attempt): Disk {
    CutTo(d, a, Retained(d.index, a.summary))
  }

  function CutAll(d: Disk, attempts: seq<Attempt>): Disk {
    if attempts == [] then d
    else Cut(CutAll(d, attempts[..|attempts| - 1]), attempts[|attempts| - 1])
  }

  /** The saves that came as far as the index. */
  function History(attempts: seq<Attempt>): seq<Summary> {
    if attempts == [] then []
    else History(attempts[..|attempts| - 1]) + Finished(attempts[|attempts| - 1])
  }

  /** Every entry of the index names a completed, whole directory. */
  predicate EntriesWhole(d: Disk) {
    forall x :: x in d.index.checkpoints ==> x.identifier in d.completed && d.completed[x.identifier]
  }

  /** Fresh identifiers: no two attempts share one. */
  predicate DistinctAttempts(attempts: seq<Attempt>) {
    forall i, j :: 0 <= i < j < |attempts| ==> attempts[i].summary.identifier != attempts[j].summary.identifier
  }

  /** However far the removals come, named directories stay whole and nothing else changes. */
  lemma {:induction false} PruningSpares(d: Disk, items: seq<Summary>, names: set<string>, steps: nat)
    ensures
      var after := Pruned(d, items, names, steps);
      && after.index == d.index && after.pending == d.pending
      && forall id :: id in names && id in d.completed ==> id in after.completed && after.completed[id] == d.completed[id]
    decreases |items|
  {
    if items != [] && steps != 0 {
      var id := items[0].identifier;
      if id in names {
        PruningSpares(d, items[1..], names, steps);
      } else if steps != 1 {
        PruningSpares(d.(completed := d.completed - {id}), items[1..], names, steps - 2);
      }
    }
  }

  /** What is retained was an entry before or is the new checkpoint. */
  lemma {:induction false} SelectInside(items: seq<Summary>, names: set<string>, x: Summary)
    requires x in Select(items, names)
    ensures x in items
  {
    if items != [] && x in Select(items[1..], names) {
      SelectInside(items[1..], names, x);
    }
  }

  /** The new index names only what was an entry before or is the new checkpoint. */
  ghost predicate Selects(before: Index, summary: Summary, after: Index) {
    forall x :: x in after.checkpoints ==> x in before.checkpoints || x == summary
  }

  lemma RetainedSelects(index: Index, summary: Summary)
    ensures Selects(index, summary, Retained(index, summary))
  {
    var candidates := index.checkpoints + [summary];
    var names := Identifiers(LastThree(SortRanked(Measured(candidates)))) + {summary.identifier};
    forall x | x in Retained(index, summary).checkpoints
      ensures x in index.checkpoints || x == summary
    {
      SelectInside(candidates, names, x);
    }
  }

  /** Wherever a save is cut, the index is the old or the new one, and every entry names a whole directory. */
  lemma CutToWhole(d: Disk, a: Attempt, retained: Index)
    requires EntriesWhole(d) && Selects(d.index, a.summary, retained)
    ensures EntriesWhole(CutTo(d, a, retained))
    ensures CutTo(d, a, retained).index == if a.stop >= STEPS_TO_INDEX then retained else d.index
  {
    if a.stop >= STEPS_TO_INDEX {
      PruningSpares(Indexed(d, a.summary, retained), d.index.checkpoints, Identifiers(retained.checkpoints), a.stop - STEPS_TO_INDEX);
    }
  }

  lemma PublishedStep(history: seq<Summary>, summary: Summary)
    ensures Published(history + [summary]) == Retained(Published(history), summary)
  {
    var longer := history + [summary];
    assert longer[..|longer| - 1] == history;
  }

  function Empty(): Disk {
    Disk(map[], map[], Index(None, []))
  }

  function Finished(a: Attempt): seq<Summary> {
    if a.stop >= STEPS_TO_INDEX then [a.summary] else []
  }

  lemma CutFollows(d: Disk, a: Attempt, history: seq<Summary>)
    requires d.index == Published(history) && EntriesWhole(d)
    ensures Cut(d, a).index == Published(history + Finished(a)) && EntriesWhole(Cut(d, a))
  {
    RetainedSelects(d.index, a.summary);
    CutToWhole(d, a, Retained(d.index, a.summary));
    PublishedStep(history, a.summary);
    assert history + [] == history;
  }

  /** Over any sequence of saves, each cut anywhere: the index is the one the finished index writes leave, and
      every entry still names a completed, whole directory. */
  lemma {:induction false} EveryEntryIsWhole(attempts: seq<Attempt>)
    ensures CutAll(Empty(), attempts).index == Published(History(attempts))
    ensures EntriesWhole(CutAll(Empty(), attempts))
  {
    if attempts != [] {
      var n := |attempts| - 1;
      EveryEntryIsWhole(attempts[..n]);
      CutFollows(CutAll(Empty(), attempts[..n]), attempts[n], History(attempts[..n]));
    }
  }

  lemma {:induction false} HistoryDistinct(attempts: seq<Attempt>)
    requires DistinctAttempts(attempts)
    ensures Distinct(History(attempts))
    ensures forall x :: x in History(attempts) ==> exists i :: 0 <= i < |attempts| && attempts[i].summary == x
  {
    if attempts != [] {
      var n := |attempts| - 1;
      HistoryDistinct(attempts[..n]);
      var before := History(attempts[..n]);
      forall x | x in before
        ensures x.identifier != attempts[n].summary.identifier && exists i :: 0 <= i < |attempts| && attempts[i].summary == x
      {
        var i :| 0 <= i < n && attempts[..n][i].summary == x;
        assert attempts[i].summary == x;
      }
      forall i, j | 0 <= i < j < |History(attempts)|
        ensures History(attempts)[i].identifier != History(attempts)[j].identifier
      {
        assert before[i] in before;
      }
    }
  }

  /** With fresh identifiers, the three best, the latest and the pinned checkpoints of all finished saves are
      loadable at every moment. */
  lemma BestStayLoadable(attempts: seq<Attempt>, x: Summary)
    requires DistinctAttempts(attempts) && x in History(attempts)
    requires x.pinned || x == History(attempts)[|History(attempts)| - 1] || Best(History(attempts), x)
    ensures
      var d := CutAll(Empty(), attempts);
      x in d.index.checkpoints && x.identifier in d.completed && d.completed[x.identifier]
  {
    EveryEntryIsWhole(attempts);
    HistoryDistinct(attempts);
    IndexHolds(History(attempts));
  }

  class CheckpointDirectory {
    var pending: map<string, bool>
    var completed: map<string, bool>
    var index: Index

    constructor ()
      ensures View() == Empty()
    {
      pending, completed, index := map[], map[], Index(None, []);
    }

    function View(): Disk
      reads this
    {
      Disk(pending, completed, index)
    }

    /** Publish a whole state before changing the index, and the index before pruning. */
    method SaveCheckpoint(summary: Summary, stop: nat, raised: bool)
      modifies this
      ensures View() == Cut(old(View()), Attempt(summary, stop, raised))
    {
      Publish(summary, Retained(index, summary), stop, raised);
    }

    method Publish(summary: Summary, retained: Index, stop: nat, raised: bool)
      modifies this
      ensures View() == CutTo(old(View()), Attempt(summary, stop, raised), retained)
    {
      var previous := index;
      var id := summary.identifier;
      if stop >= 1 {
        pending := pending[id := false];
      }
      if stop >= 2 {
        pending := pending[id := true];
      }
      if stop <= 2 {
        if raised {
          pending := pending - {id};
        }
        return;
      }
      completed := completed[id := pending[id]];
      pending := pending - {id};
      assert pending == old(pending) - {id};
      if stop == 3 {
        return;
      }
      index := retained;
      RemoveDropped(previous.checkpoints, Identifiers(retained.checkpoints), stop - 4);
    }

    /** Remove the directories the new index no longer names, as far as the save comes. */
    method RemoveDropped(items: seq<Summary>, names: set<string>, stop: nat)
      modifies this`completed
      ensures View() == Pruned(old(View()), items, names, stop)
    {
      var left := stop;
      for i := 0 to |items|
        invariant Pruned(old(View()), items, names, stop) == Pruned(View(), items[i..], names, left)
      {
        if left == 0 {
          return;
        }
        var id := items[i].identifier;
        if id !in names {
          label Before:
          completed := completed[id := false];
          if left == 1 {
            return;
          }
          completed := completed - {id};
          assert completed == old@Before(completed) - {id};
          left := left - 2;
        }
      }
    }
  }
}
