/** The durable tables of the job queue: snapshots, the append-only event log and accepted mutations. */
module JobStore {
  import opened TextOrder
  import opened Wrappers

  datatype Status = Queued | Running | Paused | Stopped | Completed | Cancelled | Failed | Interrupted

  datatype Action = Pause | Resume | Stop | Cancel | SupplyMissingInputs

  datatype Operation = Train | Evaluate | Export | PrepareDataset | Encode | Decode | FetchDataset

  datatype Job = Job(
    identifier: string,
    status: Status,
    phase: string,
    availableActions: seq<Action>,
    createdAt: nat,
    updatedAt: nat,
    operation: Operation,
    experiment: Option<string>,
    requestedAction: Option<Action>,
    error: Option<string>,
    latestEvent: nat)

  datatype Event = Event(identifier: nat, snapshot: Job)

  /** The digest of a request, taken to be free of collisions. The secrets of an encode or decode request are
      digested under a key that only the running process knows. */
  datatype Fingerprint =
    | OfRequest(operation: Operation, payload: string)
    | OfSecrets(operation: Operation, payload: string, key: nat, secret: string)
    | OfAction(job: string, action: Action)

  /** An accepted request: the fingerprint of its payload and the job it concerned. */
  datatype Mutation = Mutation(fingerprint: Fingerprint, job: string)

  datatype Tables = Tables(jobs: map<string, Job>, events: seq<Event>, mutations: map<string, Mutation>)

  function LatestEvent(events: seq<Event>): nat {
    if events == [] then 0 else events[|events| - 1].identifier
  }

  /** The job table that results from replaying events over a table. */
  function Replayed(table: map<string, Job>, events: seq<Event>): map<string, Job> {
    if events == [] then table
    else
      var last := events[|events| - 1].snapshot;
      Replayed(table, events[..|events| - 1])[last.identifier := last]
  }

  predicate Increasing(events: seq<Event>) {
    forall i, j :: 0 <= i < j < |events| ==> events[i].identifier < events[j].identifier
  }

  /** What every transaction keeps. */
  ghost predicate Consistent(t: Tables) {
    && t.jobs == Replayed(map[], t.events)
    && Increasing(t.events)
    && (forall i :: 0 <= i < |t.events| ==> 0 < t.events[i].identifier)
    && (forall id :: id in t.jobs ==> t.jobs[id].identifier == id)
    && (forall m :: m in t.mutations ==> t.mutations[m].job in t.jobs)
  }

  // Transactions.

  /** The snapshot as it is published, stamped with its event. */
  function Stamped(t: Tables, job: Job): Job {
    job.(latestEvent := LatestEvent(t.events) + 1)
  }

  /** A transaction is refused by the tables' keys: a new job must be new and a mutation unused. */
  predicate Storable(t: Tables, job: Job, isNew: bool, mutation: Option<(string, Fingerprint)>) {
    !(isNew && job.identifier in t.jobs) && !(mutation.Some? && mutation.value.0 in t.mutations)
  }

  /** Publish a snapshot, its event and an optional accepted mutation. */
  function Saved(t: Tables, job: Job, isNew: bool, mutation: Option<(string, Fingerprint)>): Tables {
    var snapshot := Stamped(t, job);
    Tables(
      if isNew || job.identifier in t.jobs then t.jobs[job.identifier := snapshot] else t.jobs,
      t.events + [Event(snapshot.latestEvent, snapshot)],
      if mutation.Some? then t.mutations[mutation.value.0 := Mutation(mutation.value.1, job.identifier)] else t.mutations)
  }

  lemma LatestIsGreatest(events: seq<Event>)
    requires Increasing(events)
    ensures forall i :: 0 <= i < |events| ==> events[i].identifier <= LatestEvent(events)
  {
  }

  /** Every transaction on known or new jobs keeps the tables consistent. */
  lemma SavedConsistent(t: Tables, job: Job, isNew: bool, mutation: Option<(string, Fingerprint)>)
    requires Consistent(t) && (isNew || job.identifier in t.jobs)
    ensures Consistent(Saved(t, job, isNew, mutation))
  {
    var after := Saved(t, job, isNew, mutation);
    LatestIsGreatest(t.events);
    assert after.events[..|after.events| - 1] == t.events;
  }

  // The event stream of a browser.

  const PAGE: nat := 200

  /** The events after a cursor, in order. */
  function After(events: seq<Event>, cursor: nat): seq<Event> {
    if events == [] then []
    else if events[|events| - 1].identifier <= cursor then After(events[..|events| - 1], cursor)
    else After(events[..|events| - 1], cursor) + [events[|events| - 1]]
  }

  /** One bounded page of them. */
  function Page(events: seq<Event>, cursor: nat): seq<Event> {
    var rest := After(events, cursor);
    if |rest| <= PAGE then rest else rest[..PAGE]
  }

  /** The events up to a cursor. */
  function UpTo(events: seq<Event>, cursor: nat): seq<Event> {
    if events == [] then []
    else if events[|events| - 1].identifier <= cursor then events
    else UpTo(events[..|events| - 1], cursor)
  }

  lemma {:induction false} SplitAt(events: seq<Event>, cursor: nat)
    requires Increasing(events)
    ensures UpTo(events, cursor) + After(events, cursor) == events
    ensures forall i :: 0 <= i < |UpTo(events, cursor)| ==> UpTo(events, cursor)[i].identifier <= cursor
    ensures forall i :: 0 <= i < |After(events, cursor)| ==> After(events, cursor)[i].identifier > cursor
  {
    if events != [] {
      var n := |events| - 1;
      SplitAt(events[..n], cursor);
      if events[n].identifier <= cursor {
        AfterNothing(events[..n], cursor);
      }
    }
  }

  lemma {:induction false} AfterNothing(events: seq<Event>, cursor: nat)
    requires forall i :: 0 <= i < |events| ==> events[i].identifier <= cursor
    ensures After(events, cursor) == [] && UpTo(events, cursor) == events
  {
    if events != [] {
      AfterNothing(events[..|events| - 1], cursor);
    }
  }

  /** A client's table and cursor. */
  datatype Client = Client(table: map<string, Job>, cursor: nat)

  /** The reset message: the whole table at the current position. */
  function Snapshot(t: Tables): Client {
    Client(t.jobs, LatestEvent(t.events))
  }

  /** Apply one page. */
  function ReadPage(c: Client, t: Tables): Client {
    var page := Page(t.events, c.cursor);
    Client(Replayed(c.table, page), if page == [] then c.cursor else page[|page| - 1].identifier)
  }

  /** A client that is up to date with the log up to its cursor. */
  ghost predicate Synchronized(c: Client, events: seq<Event>) {
    c.table == Replayed(map[], UpTo(events, c.cursor))
  }

  lemma SnapshotSynchronized(t: Tables)
    requires Consistent(t)
    ensures Synchronized(Snapshot(t), t.events)
  {
    LatestIsGreatest(t.events);
    AfterNothing(t.events, LatestEvent(t.events));
  }

  lemma {:induction false} ReplayedInTwo(table: map<string, Job>, a: seq<Event>, b: seq<Event>)
    ensures Replayed(table, a + b) == Replayed(Replayed(table, a), b)
  {
    if b == [] {
      assert a + b == a;
    } else {
      var n := |b| - 1;
      ReplayedInTwo(table, a, b[..n]);
      assert (a + b)[..|a + b| - 1] == a + b[..n];
    }
  }

  lemma {:induction false} UpToPrefix(a: seq<Event>, b: seq<Event>, cursor: nat)
    requires forall i :: 0 <= i < |a| ==> a[i].identifier <= cursor
    requires forall i :: 0 <= i < |b| ==> b[i].identifier > cursor
    ensures UpTo(a + b, cursor) == a
  {
    if b == [] {
      assert a + b == a;
      AfterNothing(a, cursor);
    } else {
      var n := |b| - 1;
      assert (a + b)[..|a + b| - 1] == a + b[..n];
      UpToPrefix(a, b[..n], cursor);
    }
  }

  /** Reading a page keeps a client synchronized, and moves it on while anything is left. */
  lemma ReadPageSynchronized(c: Client, t: Tables)
    requires Consistent(t) && Synchronized(c, t.events)
    ensures Synchronized(ReadPage(c, t), t.events)
    ensures |After(t.events, ReadPage(c, t).cursor)| == |After(t.events, c.cursor)| - |Page(t.events, c.cursor)|
    ensures ReadPage(c, t).cursor >= c.cursor
  {
    var seen, rest, page := UpTo(t.events, c.cursor), After(t.events, c.cursor), Page(t.events, c.cursor);
    SplitAt(t.events, c.cursor);
    if page != [] {
      var after := ReadPage(c, t);
      var left := rest[|page|..];
      assert rest == page + left;
      assert t.events == (seen + page) + left;
      forall i | 0 <= i < |seen + page|
        ensures (seen + page)[i].identifier <= after.cursor
      {
        assert (seen + page)[i] == t.events[i];
        assert t.events[|seen| + |page| - 1] == page[|page| - 1];
      }
      forall i | 0 <= i < |left|
        ensures left[i].identifier > after.cursor
      {
        assert left[i] == t.events[|seen| + |page| + i];
        assert t.events[|seen| + |page| - 1] == page[|page| - 1];
      }
      UpToPrefix(seen + page, left, after.cursor);
      SplitAt(t.events, after.cursor);
      ReplayedInTwo(map[], seen, page);
      assert |After(t.events, after.cursor)| == |left|;
    }
  }

  /** The first k events are those up to the cursor. */
  predicate CutAt(events: seq<Event>, cursor: nat, k: nat) {
    && k <= |events|
    && (forall i :: 0 <= i < k ==> events[i].identifier <= cursor) && (forall i :: k <= i < |events| ==> events[i].identifier > cursor)
  }

  lemma {:induction false} AfterCut(events: seq<Event>, cursor: nat, k: nat)
    requires CutAt(events, cursor, k)
    ensures After(events, cursor) == events[k..]
  {
    if k == |events| {
      AfterNothing(events, cursor);
    } else {
      var n := |events| - 1;
      AfterCut(events[..n], cursor, k);
      assert events[k..] == events[..n][k..] + [events[n]];
    }
  }

  /** A page is the next two hundred events after the cursor, or all of them if fewer are left. */
  lemma PageIs(events: seq<Event>, cursor: nat, k: nat)
    requires CutAt(events, cursor, k)
    ensures Page(events, cursor) == events[k..if |events| - k <= 200 then |events| else k + 200]
  {
    AfterCut(events, cursor, k);
  }

  /** Read page after page until nothing is left. */
  function CaughtUp(c: Client, t: Tables): Client
    requires Consistent(t) && Synchronized(c, t.events)
    decreases |After(t.events, c.cursor)|
  {
    if After(t.events, c.cursor) == [] then c
    else
      ReadPageSynchronized(c, t);
      CaughtUp(ReadPage(c, t), t)
  }

  /** A client that started from a snapshot, at any earlier time, and reads pages of 200 reaches the table. */
  lemma {:induction false} ClientReachesTable(c: Client, t: Tables)
    requires Consistent(t) && Synchronized(c, t.events)
    ensures CaughtUp(c, t).table == t.jobs
    decreases |After(t.events, c.cursor)|
  {
    SplitAt(t.events, c.cursor);
    if After(t.events, c.cursor) == [] {
      assert UpTo(t.events, c.cursor) == t.events;
    } else {
      ReadPageSynchronized(c, t);
      ClientReachesTable(ReadPage(c, t), t);
    }
  }

  // The store object.

  class WorkflowStore {
    var jobs: map<string, Job>
    var events: seq<Event>
    var mutations: map<string, Mutation>

    /** Open the database with the tables it holds. */
    constructor (saved: Tables)
      ensures View() == saved
    {
      jobs, events, mutations := saved.jobs, saved.events, saved.mutations;
    }

    function View(): Tables
      reads this
    {
      Tables(jobs, events, mutations)
    }

    /** The accepted job of a request identifier; a different payload under it is a conflict. */
    method Replay(identifier: string, fingerprint: Fingerprint) returns (previous: Option<Job>, conflict: bool)
      requires Consistent(View())
      ensures conflict <==> identifier in mutations && mutations[identifier].fingerprint != fingerprint
      ensures previous == if identifier in mutations && !conflict then Some(jobs[mutations[identifier].job]) else None
    {
      previous, conflict := None, false;
      if identifier in mutations {
        var row := mutations[identifier];
        if row.fingerprint != fingerprint {
          conflict := true;
        } else {
          previous := Some(jobs[row.job]);
        }
      }
    }

    /** One transaction, statement by statement; a violated key rolls everything back. */
    method Save(job: Job, isNew: bool, mutation: Option<(string, Fingerprint)>) returns (saved: Option<Job>)
      modifies this
      ensures Storable(old(View()), job, isNew, mutation) ==>
        saved == Some(Stamped(old(View()), job)) && View() == Saved(old(View()), job, isNew, mutation)
      ensures !Storable(old(View()), job, isNew, mutation) ==> saved == None && View() == old(View())
    {
      var jobs0, events0 := jobs, events;
      var identifier := LatestEvent(events) + 1;
      var snapshot := job.(latestEvent := identifier);
      if !isNew {
        if job.identifier in jobs {
          jobs := jobs[job.identifier := snapshot];
        }
      } else if job.identifier in jobs {
        return None;
      } else {
        jobs := jobs[job.identifier := snapshot];
      }
      events := events + [Event(identifier, snapshot)];
      if mutation.Some? {
        if mutation.value.0 in mutations {
          jobs, events := jobs0, events0;
          return None;
        }
        mutations := mutations[mutation.value.0 := Mutation(mutation.value.1, snapshot.identifier)];
      }
      saved := Some(snapshot);
    }

    /** Every job once, oldest first and by identifier among equals. */
    method ListJobs() returns (list: seq<Job>)
      requires Consistent(View())
      ensures forall job :: job in list <==> job in jobs.Values
      ensures forall i, j :: 0 <= i < j < |list| ==> Older(list[i], list[j]) && list[i] != list[j]
    {
      list := [];
      var left := jobs.Keys;
      while left != {}
        invariant left <= jobs.Keys
        invariant forall job :: job in list <==> exists id :: id in jobs.Keys - left && jobs[id] == job
        invariant forall i, j :: 0 <= i < j < |list| ==> Older(list[i], list[j]) && list[i] != list[j]
        decreases left
      {
        var id :| id in left;
        left := left - {id};
        assert jobs[id] !in list;
        InsertKeepsOrder(list, jobs[id]);
        forall job
          ensures job in Inserted(list, jobs[id]) <==> job in list || job == jobs[id]
        {
          InsertedHas(list, jobs[id], job);
        }
        list := Inserted(list, jobs[id]);
      }
    }
  }

  /** The order of `list_jobs`: creation time, then identifier. */
  predicate Older(a: Job, b: Job) {
    a.createdAt < b.createdAt || (a.createdAt == b.createdAt && AtMost(a.identifier, b.identifier))
  }

  lemma OlderOrders(a: Job, b: Job, c: Job)
    ensures Older(a, b) || Older(b, a)
    ensures Older(a, b) && Older(b, c) ==> Older(a, c)
  {
    Total(a.identifier, b.identifier);
    if AtMost(a.identifier, b.identifier) && AtMost(b.identifier, c.identifier) {
      Transitive(a.identifier, b.identifier, c.identifier);
    }
  }

  function Inserted(list: seq<Job>, job: Job): seq<Job> {
    if list == [] then [job]
    else if Older(job, list[0]) then [job] + list
    else [list[0]] + Inserted(list[1..], job)
  }

  lemma {:induction false} InsertedHas(list: seq<Job>, job: Job, x: Job)
    ensures x in Inserted(list, job) <==> x in list || x == job
  {
    if list != [] {
      assert list == [list[0]] + list[1..];
      InsertedHas(list[1..], job, x);
    }
  }

  lemma {:induction false} InsertKeepsOrder(list: seq<Job>, job: Job)
    requires forall i, j :: 0 <= i < j < |list| ==> Older(list[i], list[j]) && list[i] != list[j]
    requires job !in list
    ensures forall i, j :: 0 <= i < j < |Inserted(list, job)| ==>
      Older(Inserted(list, job)[i], Inserted(list, job)[j]) && Inserted(list, job)[i] != Inserted(list, job)[j]
  {
    if list != [] {
      if Older(job, list[0]) {
        forall j | 0 <= j < |list|
          ensures Older(job, list[j])
        {
          OlderOrders(job, list[0], list[j]);
        }
      } else {
        var rest := Inserted(list[1..], job);
        InsertKeepsOrder(list[1..], job);
        OlderOrders(job, list[0], job);
        forall j | 0 <= j < |rest|
          ensures Older(list[0], rest[j]) && list[0] != rest[j]
        {
          InsertedHas(list[1..], job, rest[j]);
          assert rest[j] in rest;
        }
      }
    }
  }
}
