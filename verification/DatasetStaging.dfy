/** The staging directory: names, ownership, and recovery of what crashed runs left, as values. */
module DatasetStaging {
  import opened TextOrder
  import opened Wrappers

  /** A directory entry; `owner` is what a complete ownership record says, if the file holds one. */
  datatype Entry = File(uid: nat, size: nat, owner: Option<(nat, string)>) | Directory(uid: nat) | Link

  type Entries = map<string, Entry>

  const MARKER_SUFFIX := ".owner.json"
  const PENDING_SUFFIX := ".owner.json.pending"
  const RUN_LENGTH: nat := 36
  const MAXIMUM_ENTRIES: nat := 200_000
  const MAXIMUM_RECORD: nat := 1024

  predicate Hexadecimal(c: char) {
    '0' <= c <= '9' || 'a' <= c <= 'f'
  }

  /** A run's name: "run-" and thirty-two hexadecimal digits. */
  predicate RunName(s: string) {
    |s| == RUN_LENGTH && s[..4] == "run-" && forall i :: 4 <= i < RUN_LENGTH ==> Hexadecimal(s[i])
  }

  function Marker(run: string): string {
    run + MARKER_SUFFIX
  }

  function Pending(run: string): string {
    run + PENDING_SUFFIX
  }

  predicate MarkerName(name: string) {
    |name| == RUN_LENGTH + |MARKER_SUFFIX| && RunName(name[..RUN_LENGTH]) && name[RUN_LENGTH..] == MARKER_SUFFIX
  }

  predicate PendingName(name: string) {
    |name| == RUN_LENGTH + |PENDING_SUFFIX| && RunName(name[..RUN_LENGTH]) && name[RUN_LENGTH..] == PENDING_SUFFIX
  }

  lemma NamesOf(run: string)
    requires RunName(run)
    ensures MarkerName(Marker(run)) && Marker(run)[..RUN_LENGTH] == run
    ensures PendingName(Pending(run)) && Pending(run)[..RUN_LENGTH] == run
    ensures !MarkerName(run) && !PendingName(run) && !PendingName(Marker(run)) && !MarkerName(Pending(run))
    ensures !RunName(Marker(run)) && !RunName(Pending(run))
  {
  }

  lemma NameIs(name: string)
    ensures MarkerName(name) ==> name == Marker(name[..RUN_LENGTH])
    ensures PendingName(name) ==> name == Pending(name[..RUN_LENGTH])
  {
  }

  /** A name that belongs to some run. */
  predicate Family(name: string) {
    RunName(name) || MarkerName(name) || PendingName(name)
  }

  /** Everything that belongs to nobody's run. */
  function Foreign(entries: Entries): Entries {
    map name | name in entries && !Family(name) :: entries[name]
  }

  predicate SmallFile(entry: Entry, me: nat) {
    entry.File? && entry.uid == me && entry.size <= MAXIMUM_RECORD
  }

  predicate OwnerRecord(entry: Entry, me: nat, run: string) {
    SmallFile(entry, me) && entry.owner == Some((me, run))
  }

  /** One run's entries: a stage only beside its marker, and never beside a pending marker. */
  ghost predicate OrderlyRun(entries: Entries, me: nat, run: string) {
    && (Pending(run) in entries ==> SmallFile(entries[Pending(run)], me) && run !in entries)
    && (Marker(run) in entries ==> OwnerRecord(entries[Marker(run)], me, run))
    && (run in entries ==> Marker(run) in entries && entries[run] == Directory(me))
  }

  ghost predicate Orderly(entries: Entries, me: nat) {
    forall run :: RunName(run) ==> OrderlyRun(entries, me, run)
  }

  // Recovery.

  /** Remove a marked stage and then its marker, if the marker is this user's record of it. */
  function RemovedOwned(entries: Entries, me: nat, run: string): Option<Entries> {
    if Marker(run) !in entries || !OwnerRecord(entries[Marker(run)], me, run) then None
    else if run in entries && entries[run] != Directory(me) then None
    else Some(entries - {run, Marker(run)})
  }

  /** What recovery does about one entry. */
  function RecoveredOne(entries: Entries, me: nat, name: string): Option<Entries> {
    if PendingName(name) then
      if name !in entries || !SmallFile(entries[name], me) || name[..RUN_LENGTH] in entries then None
      else Some(entries - {name})
    else if MarkerName(name) then RemovedOwned(entries, me, name[..RUN_LENGTH])
    else Some(entries)
  }

  /** Recovery over the entries in the order the directory lists them. */
  function Recovered(entries: Entries, me: nat, names: seq<string>): Option<Entries> {
    if names == [] then Some(entries)
    else
      match RecoveredOne(entries, me, names[0])
      case None => None
      case Some(next) => Recovered(next, me, names[1..])
  }

  predicate Distinct(names: seq<string>) {
    forall i, j :: 0 <= i < j < |names| ==> names[i] != names[j]
  }

  /** The names still to be visited include every marker and pending marker, and all of those exist. */
  ghost predicate LeftToVisit(entries: Entries, names: seq<string>) {
    && Distinct(names)
    && (forall name :: name in entries && (MarkerName(name) || PendingName(name)) ==> name in names)
    && (forall name :: name in names && (MarkerName(name) || PendingName(name)) ==> name in entries)
  }

  lemma OnePending(entries: Entries, me: nat, names: seq<string>)
    requires Orderly(entries, me) && names != [] && LeftToVisit(entries, names) && PendingName(names[0])
    ensures RecoveredOne(entries, me, names[0]) == Some(entries - {names[0]})
    ensures Orderly(entries - {names[0]}, me) && Foreign(entries - {names[0]}) == Foreign(entries)
    ensures LeftToVisit(entries - {names[0]}, names[1..])
  {
    NameIs(names[0]);
    var next := entries - {names[0]};
    assert OrderlyRun(entries, me, names[0][..RUN_LENGTH]);
    forall run | RunName(run)
      ensures OrderlyRun(next, me, run)
    {
      assert OrderlyRun(entries, me, run);
      NamesOf(run);
    }
  }

  lemma OneMarker(entries: Entries, me: nat, names: seq<string>)
    requires Orderly(entries, me) && names != [] && LeftToVisit(entries, names) && MarkerName(names[0])
    ensures
      var run := names[0][..RUN_LENGTH];
      var next := entries - {run, names[0]};
      && RecoveredOne(entries, me, names[0]) == Some(next)
      && Orderly(next, me) && Foreign(next) == Foreign(entries) && LeftToVisit(next, names[1..])
  {
    NameIs(names[0]);
    var gone := names[0][..RUN_LENGTH];
    var next := entries - {gone, names[0]};
    NamesOf(gone);
    assert OrderlyRun(entries, me, gone);
    forall run | RunName(run)
      ensures OrderlyRun(next, me, run)
    {
      assert OrderlyRun(entries, me, run);
      NamesOf(run);
    }
  }

  /** From any orderly directory, listed in any order, recovery never refuses, removes every run's leftovers
      and leaves everything else as it was. */
  lemma {:induction false} RecoveryClears(entries: Entries, me: nat, names: seq<string>)
    requires Orderly(entries, me) && LeftToVisit(entries, names)
    ensures Recovered(entries, me, names) == Some(Foreign(entries))
    decreases |names|
  {
    if names == [] {
      forall name | name in entries
        ensures !Family(name)
      {
        if RunName(name) {
          assert OrderlyRun(entries, me, name);
          NamesOf(name);
        }
      }
      assert Foreign(entries) == entries;
    } else if PendingName(names[0]) {
      OnePending(entries, me, names);
      RecoveryClears(entries - {names[0]}, me, names[1..]);
    } else if MarkerName(names[0]) {
      OneMarker(entries, me, names);
      RecoveryClears(entries - {names[0][..RUN_LENGTH], names[0]}, me, names[1..]);
    } else {
      assert LeftToVisit(entries, names[1..]);
      RecoveryClears(entries, me, names[1..]);
    }
  }

  // The order is what recovery rests on.

  /** Some listing of a set of names. */
  lemma {:induction false} ListSet(all: set<string>) returns (names: seq<string>)
    ensures Distinct(names) && forall name :: name in names <==> name in all
    decreases all
  {
    if all == {} {
      names := [];
    } else {
      var name :| name in all;
      var rest := ListSet(all - {name});
      names := [name] + rest;
    }
  }

  /** A directory may list any of its entries first. */
  lemma ListFirst(entries: Entries, first: string) returns (names: seq<string>)
    requires first in entries
    ensures LeftToVisit(entries, names) && names != [] && names[0] == first
  {
    var rest := ListSet(entries.Keys - {first});
    names := [first] + rest;
  }

  /** Recovery never removes a stage that has no marker. */
  lemma {:induction false} UnmarkedStageStays(entries: Entries, me: nat, names: seq<string>, run: string)
    requires RunName(run) && run in entries && Marker(run) !in entries
    ensures Recovered(entries, me, names).Some? ==> run in Recovered(entries, me, names).value
    decreases |names|
  {
    if names != [] {
      NamesOf(run);
      var next := RecoveredOne(entries, me, names[0]);
      if next.Some? {
        if MarkerName(names[0]) {
          NameIs(names[0]);
        }
        UnmarkedStageStays(next.value, me, names[1..], run);
      }
    }
  }

  /** Recovery clears a directory whatever order it is listed in. */
  ghost predicate AlwaysClears(entries: Entries, me: nat) {
    forall names :: LeftToVisit(entries, names) ==> Recovered(entries, me, names) == Some(Foreign(entries))
  }

  lemma DisorderShows(entries: Entries, me: nat, run: string)
    requires RunName(run) && !OrderlyRun(entries, me, run)
    ensures !AlwaysClears(entries, me)
  {
    NamesOf(run);
    if Pending(run) in entries && !(SmallFile(entries[Pending(run)], me) && run !in entries) {
      var names := ListFirst(entries, Pending(run));
      assert Recovered(entries, me, names) == None;
    } else if Marker(run) in entries {
      var names := ListFirst(entries, Marker(run));
      assert Recovered(entries, me, names) == None;
    } else {
      var names := ListFirst(entries, run);
      UnmarkedStageStays(entries, me, names, run);
      assert run !in Foreign(entries);
    }
  }

  /** Recovery clears exactly the orderly directories: a stage without its marker, or beside a pending one,
      would be left behind or stop it. */
  lemma RecoveryClearsExactly(entries: Entries, me: nat)
    ensures AlwaysClears(entries, me) <==> Orderly(entries, me)
  {
    if Orderly(entries, me) {
      forall names | LeftToVisit(entries, names)
        ensures Recovered(entries, me, names) == Some(Foreign(entries))
      {
        RecoveryClears(entries, me, names);
      }
    } else {
      var run :| RunName(run) && !OrderlyRun(entries, me, run);
      DisorderShows(entries, me, run);
    }
  }

  // Names.

  /** A run is "run-" and thirty-two hexadecimal digits; its marker and pending marker are named after it. */
  lemma NamesAre(name: string)
    ensures RunName(name) <==> exists digits ::
      |digits| == 32 && (forall c :: c in digits ==> c in DIGITS + "abcdef") && name == "run-" + digits
    ensures MarkerName(name) <==> exists run :: RunName(run) && name == run + ".owner.json"
    ensures PendingName(name) <==> exists run :: RunName(run) && name == run + ".owner.json.pending"
  {
    forall c
      ensures c in DIGITS + "abcdef" <==> Hexadecimal(c)
    {
      HexadecimalIs(c);
    }
    if RunName(name) {
      var digits := name[4..];
      assert name == "run-" + digits;
      forall c | c in digits
        ensures c in DIGITS + "abcdef"
      {
        var i :| 0 <= i < |digits| && digits[i] == c;
        assert name[i + 4] == c;
      }
    }
    forall run | RunName(run)
      ensures MarkerName(run + ".owner.json") && PendingName(run + ".owner.json.pending")
    {
      NamesOf(run);
    }
    NameIs(name);
  }

  lemma HexadecimalIs(c: char)
    ensures c in DIGITS + "abcdef" <==> Hexadecimal(c)
  {
    LettersAndDigits(c);
    assert c in "abcdef" <==> 'a' <= c <= 'f' by {
      if 'a' <= c <= 'f' {
        assert "abcdef"[c as int - 97] == c;
      }
    }
  }

  /** An ownership record is a file of this user, of at most 1024 bytes, that names the user and the run. */
  lemma OwnerRecordIs(entry: Entry, me: nat, run: string)
    ensures OwnerRecord(entry, me, run) <==> exists size: nat :: size <= 1024 && entry == File(me, size, Some((me, run)))
  {
  }
}
