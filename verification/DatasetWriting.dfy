/** The dataset writer on its storage. Every change of the storage is one atomic operation, recorded in a ghost
    history, so what holds of the whole history holds wherever a crash may come. */
module DatasetWriting {
  import opened DatasetStaging
  import opened Wrappers

  /** The staging directory and the published revisions, by path, with the run whose stage each was. */
  datatype Disk = Disk(entries: Entries, published: map<string, string>)

  /** Nobody else's entry and no published revision differs. */
  ghost predicate Calm(base: Disk, d: Disk) {
    && Foreign(d.entries) == Foreign(base.entries)
    && forall path :: path in base.published ==> path in d.published && d.published[path] == base.published[path]
  }

  predicate OfRun(name: string, run: string) {
    name == run || name == Marker(run) || name == Pending(run)
  }

  /** A change to one run's names that leaves them orderly leaves the directory orderly, and nothing foreign
      changes. */
  lemma ChangeOfRun(before: Entries, after: Entries, me: nat, run: string)
    requires Orderly(before, me) && RunName(run) && OrderlyRun(after, me, run)
    requires forall name :: !OfRun(name, run) ==> (name in after <==> name in before)
    requires forall name :: !OfRun(name, run) && name in after ==> after[name] == before[name]
    ensures Orderly(after, me) && Foreign(after) == Foreign(before)
  {
    NamesOf(run);
    forall other | RunName(other)
      ensures OrderlyRun(after, me, other)
    {
      assert OrderlyRun(before, me, other);
      NamesOf(other);
      if other != run {
        assert Marker(other)[..RUN_LENGTH] != Marker(run)[..RUN_LENGTH];
        assert Pending(other)[..RUN_LENGTH] != Pending(run)[..RUN_LENGTH];
      }
    }
    forall name | !Family(name)
      ensures !OfRun(name, run)
    {
    }
  }

  class Storage {
    const me: nat
    /** Whether operations that may succeed do; otherwise any of them may fail. */
    const reliable: bool
    var entries: Entries
    var published: map<string, string>
    ghost const base: Disk
    ghost var history: seq<Disk>

    constructor (me: nat, reliable: bool, disk: Disk)
      requires Orderly(disk.entries, me)
      ensures this.me == me && this.reliable == reliable && base == disk && Traced()
      ensures entries == disk.entries && published == disk.published
    {
      this.me, this.reliable, this.base := me, reliable, disk;
      entries, published, history := disk.entries, disk.published, [disk];
    }

    /** Every state so far was orderly, kept what is foreign, and kept every published revision. */
    ghost predicate Traced()
      reads this
    {
      && history != [] && history[|history| - 1] == Disk(entries, published)
      && forall i :: 0 <= i < |history| ==> Orderly(history[i].entries, me) && Calm(base, history[i])
    }

    ghost predicate Unchanged(before: Disk, past: seq<Disk>)
      reads this
    {
      entries == before.entries && published == before.published && history == past
    }

    /** Put one entry, exclusively; the caller shows that its run stays orderly. */
    method Put(name: string, entry: Entry, ghost run: string) returns (ok: bool)
      requires Traced() && RunName(run) && OfRun(name, run)
      requires name !in entries ==> OrderlyRun(entries[name := entry], me, run)
      modifies this
      ensures Traced()
      ensures ok ==> name !in old(entries) && entries == old(entries)[name := entry] && published == old(published)
      ensures !ok ==> Unchanged(old(Disk(entries, published)), old(history))
      ensures reliable && name !in old(entries) ==> ok
    {
      if name in entries {
        return false;
      }
      if !reliable {
        if * {
          return false;
        }
      }
      ChangeOfRun(entries, entries[name := entry], me, run);
      entries := entries[name := entry];
      history := history + [Disk(entries, published)];
      ok := true;
    }

    /** Write the bytes of a file that was just created. */
    method Write(name: string, entry: Entry, ghost run: string) returns (ok: bool)
      requires Traced() && RunName(run) && OfRun(name, run) && name in entries && OrderlyRun(entries[name := entry], me, run)
      modifies this
      ensures Traced()
      ensures ok ==> entries == old(entries)[name := entry] && published == old(published)
      ensures !ok ==> Unchanged(old(Disk(entries, published)), old(history))
      ensures reliable ==> ok
    {
      if !reliable {
        if * {
          return false;
        }
      }
      ChangeOfRun(entries, entries[name := entry], me, run);
      entries := entries[name := entry];
      history := history + [Disk(entries, published)];
      ok := true;
    }

    /** Remove one entry; a missing one fails. */
    method Remove(name: string, ghost run: string) returns (ok: bool)
      requires Traced() && RunName(run) && OfRun(name, run) && OrderlyRun(entries - {name}, me, run)
      modifies this
      ensures Traced()
      ensures ok ==> name in old(entries) && entries == old(entries) - {name} && published == old(published)
      ensures !ok ==> Unchanged(old(Disk(entries, published)), old(history))
      ensures reliable && name in old(entries) ==> ok
    {
      if name !in entries {
        return false;
      }
      if !reliable {
        if * {
          return false;
        }
      }
      ChangeOfRun(entries, entries - {name}, me, run);
      entries := entries - {name};
      history := history + [Disk(entries, published)];
      ok := true;
    }

    /** Rename a stage to a revision's path, never over an existing one. */
    method RenameOut(run: string, path: string) returns (ok: bool)
      requires Traced() && RunName(run) && run in entries && OrderlyRun(entries - {run}, me, run)
      modifies this
      ensures Traced()
      ensures ok ==> path !in old(published) && entries == old(entries) - {run} && published == old(published)[path := run]
      ensures !ok ==> Unchanged(old(Disk(entries, published)), old(history))
      ensures reliable && path !in old(published) ==> ok
    {
      if path in published {
        return false;
      }
      if !reliable {
        if * {
          return false;
        }
      }
      ChangeOfRun(entries, entries - {run}, me, run);
      assert forall p :: p in base.published ==> p in published && published[p] == base.published[p] by {
        assert Calm(base, history[|history| - 1]);
      }
      entries := entries - {run};
      published := published[path := run];
      history := history + [Disk(entries, published)];
      ok := true;
    }

    /** Remove only a marked stage of this user, then its marker. */
    method RemoveOwnedStage(run: string) returns (ok: bool)
      requires Traced() && RunName(run)
      modifies this
      ensures Traced() && published == old(published)
      ensures ok ==> RemovedOwned(old(entries), me, run) == Some(entries)
      ensures forall name :: name in entries ==> name in old(entries)
      ensures reliable ==> (ok <==> RemovedOwned(old(entries), me, run).Some?)
    {
      assert Orderly(history[|history| - 1].entries, me) && OrderlyRun(entries, me, run);
      NamesOf(run);
      if Marker(run) !in entries || !OwnerRecord(entries[Marker(run)], me, run) {
        return false;
      }
      if run in entries {
        if entries[run] != Directory(me) {
          return false;
        }
        var gone := Remove(run, run);
        if !gone {
          return false;
        }
      }
      ok := Remove(Marker(run), run);
      assert ok ==> entries == old(entries) - {run, Marker(run)};
    }

    /** Recover what crashed runs left, in the order the directory is listed. */
    method RecoverStaging(names: seq<string>) returns (ok: bool)
      requires Traced() && LeftToVisit(entries, names)
      modifies this
      ensures Traced() && published == old(published)
      ensures ok ==> entries == Foreign(old(entries)) && |names| <= 200_000
      ensures reliable && |names| <= 200_000 ==> ok
    {
      assert Orderly(history[|history| - 1].entries, me);
      RecoveryClears(entries, me, names);
      for number := 0 to |names|
        invariant Traced() && published == old(published) && LeftToVisit(entries, names[number..])
        invariant number <= MAXIMUM_ENTRIES
        invariant Recovered(entries, me, names[number..]) == Some(Foreign(old(entries)))
      {
        if number >= MAXIMUM_ENTRIES {
          return false;
        }
        assert names[number..][0] == names[number] && names[number..][1..] == names[number + 1..];
        ok := RecoverEntry(names[number], names[number..]);
        if !ok {
          return false;
        }
      }
      ok := true;
    }

    method RecoverEntry(name: string, ghost rest: seq<string>) returns (ok: bool)
      requires Traced() && rest != [] && rest[0] == name && LeftToVisit(entries, rest)
      modifies this
      ensures Traced() && published == old(published)
      ensures ok ==> RecoveredOne(old(entries), me, name) == Some(entries) && LeftToVisit(entries, rest[1..])
      ensures reliable ==> ok
    {
      assert Orderly(history[|history| - 1].entries, me);
      NameIs(name);
      if PendingName(name) {
        OnePending(entries, me, rest);
        NamesOf(name[..RUN_LENGTH]);
        assert OrderlyRun(entries - {name}, me, name[..RUN_LENGTH]);
        ok := Remove(name, name[..RUN_LENGTH]);
      } else if MarkerName(name) {
        OneMarker(entries, me, rest);
        ok := RemoveOwnedStage(name[..RUN_LENGTH]);
      } else {
        ok := true;
      }
    }
  }

  /** Wherever a run of the writer crashed, the next recovery, listing the directory in any order, succeeds and
      leaves exactly what belongs to nobody's run; published revisions are all still there. */
  lemma CrashRecovers(storage: Storage, moment: nat, names: seq<string>)
    requires storage.Traced() && moment < |storage.history| && LeftToVisit(storage.history[moment].entries, names)
    ensures Recovered(storage.history[moment].entries, storage.me, names) == Some(Foreign(storage.base.entries))
    ensures forall run :: RunName(run) && run in storage.history[moment].entries ==>
      Marker(run) in storage.history[moment].entries && Pending(run) !in storage.history[moment].entries
    ensures forall path :: path in storage.base.published ==>
      path in storage.history[moment].published && storage.history[moment].published[path] == storage.base.published[path]
  {
    var d := storage.history[moment];
    assert Orderly(d.entries, storage.me) && Calm(storage.base, d);
    RecoveryClears(d.entries, storage.me, names);
    forall run | RunName(run) && run in d.entries
      ensures Marker(run) in d.entries && Pending(run) !in d.entries
    {
      assert OrderlyRun(d.entries, storage.me, run);
    }
  }

  class DatasetWriter {
    const storage: Storage
    const run: string
    const maximumBytes: nat
    var authorizedBytes: nat
    var writtenBytes: nat
    var locked: bool
    var publishedOnce: bool

    constructor (storage: Storage, run: string, maximumBytes: nat)
      requires RunName(run)
      ensures this.storage == storage && this.run == run && this.maximumBytes == maximumBytes && Bounded() && Idle()
    {
      this.storage, this.run, this.maximumBytes := storage, run, maximumBytes;
      authorizedBytes, writtenBytes, locked, publishedOnce := 0, 0, false, false;
    }

    /** What was written was authorized, and that within the run's limit. */
    ghost predicate Bounded()
      reads this
    {
      RunName(run) && writtenBytes <= authorizedBytes <= maximumBytes
    }

    ghost predicate Idle()
      reads this
    {
      !locked && !publishedOnce && authorizedBytes == 0
    }

    /** The run's entries are all gone. */
    ghost predicate NothingLeft()
      reads storage
    {
      run !in storage.entries && Marker(run) !in storage.entries && Pending(run) !in storage.entries
    }

    /** Publish complete ownership bytes before a stage can exist. */
    method CreateOwnerMarker(recordSize: nat) returns (ok: bool)
      requires storage.Traced() && Bounded() && NothingLeft() && recordSize <= MAXIMUM_RECORD
      modifies storage
      ensures storage.Traced() && run !in storage.entries && storage.published == old(storage.published)
      ensures ok ==> Marker(run) in storage.entries && Pending(run) !in storage.entries
      ensures storage.reliable ==> ok
    {
      assert Orderly(storage.history[|storage.history| - 1].entries, storage.me);
      NamesOf(run);
      var me := storage.me;
      ok := storage.Put(Pending(run), File(me, 0, None), run);
      if !ok {
        return;
      }
      ok := storage.Write(Pending(run), File(me, recordSize, Some((me, run))), run);
      if ok {
        ok := storage.Put(Marker(run), storage.entries[Pending(run)], run);
      }
      var gone := storage.Remove(Pending(run), run);
      ok := ok && gone;
    }

    /** Lock, recover, mark and create the stage; a failure takes back what it can. */
    method Enter(names: seq<string>, space: bool, recordSize: nat) returns (ok: bool)
      requires storage.Traced() && Bounded() && Idle() && recordSize <= MAXIMUM_RECORD
      requires LeftToVisit(storage.entries, names)
      modifies this, storage
      ensures storage.Traced() && Bounded() && locked == ok && storage.published == old(storage.published)
      ensures ok ==> run in storage.entries && Marker(run) in storage.entries && Pending(run) !in storage.entries
      ensures ok ==> Foreign(storage.entries) == Foreign(old(storage.entries))
      ensures ok ==> space && |names| <= 200_000
      ensures storage.reliable && space && |names| <= 200_000 ==> ok
      ensures storage.reliable && !ok && |names| <= MAXIMUM_ENTRIES ==> NothingLeft()
      ensures !publishedOnce && authorizedBytes == 0 && writtenBytes == old(writtenBytes)
    {
      locked := true;
      NamesOf(run);
      ok := storage.RecoverStaging(names);
      if ok && space {
        assert NothingLeft();
        ok := CreateOwnerMarker(recordSize);
        if ok {
          assert OrderlyRun(storage.entries, storage.me, run) by {
            assert Orderly(storage.history[|storage.history| - 1].entries, storage.me);
          }
          ok := storage.Put(run, Directory(storage.me), run);
          if ok {
            CalmOnes();
            return;
          }
        }
      }
      ok := false;
      TakeBack();
      locked := false;
    }

    /** Both the first and the latest state keep what is foreign. */
    lemma CalmOnes()
      requires storage.Traced()
      ensures Foreign(storage.entries) == Foreign(storage.base.entries)
    {
      assert Calm(storage.base, storage.history[|storage.history| - 1]);
    }

    /** Remove this run's marked stage, if it is marked; there is never a stage without its marker. */
    method TakeBack()
      requires storage.Traced() && Bounded()
      modifies storage
      ensures storage.Traced() && storage.published == old(storage.published)
      ensures storage.reliable ==> run !in storage.entries && Marker(run) !in storage.entries
      ensures Pending(run) !in old(storage.entries) ==> Pending(run) !in storage.entries
    {
      NamesOf(run);
      assert Orderly(storage.history[|storage.history| - 1].entries, storage.me) && OrderlyRun(storage.entries, storage.me, run);
      if Marker(run) in storage.entries {
        var gone := storage.RemoveOwnedStage(run);
      }
    }

    /** Charge a bounded write before it reaches the disk. */
    method ReserveWrite(size: int, space: bool) returns (ok: bool)
      requires Bounded()
      modifies this`authorizedBytes
      ensures Bounded()
      ensures ok <==> locked && !publishedOnce && 0 <= size && old(authorizedBytes) + size <= maximumBytes && space
      ensures authorizedBytes == old(authorizedBytes) + (if ok then size else 0)
    {
      if !locked || publishedOnce {
        return false;
      }
      if size < 0 || authorizedBytes + size > maximumBytes || !space {
        return false;
      }
      authorizedBytes := authorizedBytes + size;
      ok := true;
    }

    /** Write a file in pieces of at most one mebibyte, each charged first. */
    method WriteBytes(size: nat, space: bool) returns (ok: bool)
      requires Bounded()
      modifies this`authorizedBytes, this`writtenBytes
      ensures Bounded()
      ensures ok <==> size == 0 || (locked && !publishedOnce && space && old(authorizedBytes) + size <= maximumBytes)
      ensures writtenBytes - old(writtenBytes) == authorizedBytes - old(authorizedBytes) <= size
      ensures ok ==> writtenBytes == old(writtenBytes) + size
    {
      var offset := 0;
      while offset < size
        invariant 0 <= offset <= size && Bounded()
        invariant authorizedBytes == old(authorizedBytes) + offset && writtenBytes == old(writtenBytes) + offset
        invariant offset > 0 ==> locked && !publishedOnce && space
      {
        var chunk := if size - offset < 0x10_0000 then size - offset else 0x10_0000;
        ok := ReserveWrite(chunk, space);
        if !ok {
          return;
        }
        writtenBytes := writtenBytes + chunk;
        offset := offset + chunk;
      }
      ok := true;
    }

    /** Publish this stage once, then drop its marker; no prior revision is replaced. */
    method Publish(path: string, space: bool) returns (ok: bool)
      requires storage.Traced() && Bounded() && (locked && !publishedOnce ==> run in storage.entries)
      modifies this`publishedOnce, storage
      ensures storage.Traced() && Bounded()
      ensures publishedOnce && !old(publishedOnce) ==> path !in old(storage.published) && storage.published == old(storage.published)[path := run]
      ensures publishedOnce == old(publishedOnce) ==> storage.published == old(storage.published)
      ensures old(publishedOnce) ==> publishedOnce && !ok
      ensures ok ==> publishedOnce && run !in storage.entries && Marker(run) !in storage.entries
      ensures storage.reliable && locked && !old(publishedOnce) && space ==> (ok <==> path !in old(storage.published))
    {
      if !locked || publishedOnce || !space {
        return false;
      }
      NamesOf(run);
      assert Orderly(storage.history[|storage.history| - 1].entries, storage.me) && OrderlyRun(storage.entries, storage.me, run);
      ok := storage.RenameOut(run, path);
      if !ok {
        return;
      }
      publishedOnce := true;
      assert Orderly(storage.history[|storage.history| - 1].entries, storage.me) && OrderlyRun(storage.entries, storage.me, run);
      ok := storage.Remove(Marker(run), run);
    }

    /** Keep what was published and remove only this run's marked stage. */
    method Exit()
      requires storage.Traced() && Bounded()
      modifies this`locked, storage
      ensures storage.Traced() && Bounded() && !locked && storage.published == old(storage.published)
      ensures storage.reliable ==> run !in storage.entries && Marker(run) !in storage.entries
    {
      TakeBack();
      locked := false;
    }
  }
}
