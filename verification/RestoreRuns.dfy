/** Whole histories of restores and recoveries on one data directory. */
module RestoreRuns {
  import opened Wrappers
  import opened RestoreDisk
  import opened RestoreProtocol

  datatype Command =
    | RestoreCommand(archive: Archive, fates: seq<Fate>)
    | RecoverCommand(confirmRollback: bool, confirmFinalize: bool, fates: seq<Fate>)

  /** The starting pair or the content of an archive some command restored. */
  ghost predicate Known(pair: Pair, initial: Pair, commands: seq<Command>) {
    || pair == initial
    || exists c :: c in commands && c.RestoreCommand? && Contents(c.archive) == pair
  }

  /** Nothing but whole pairs: in place without a marker, or owed under one. */
  ghost predicate Whole(d: Disk, initial: Pair, commands: seq<Command>,
                        sound: (Bytes, Tree) -> bool) {
    exists original, replacement ::
      && Known(original, initial, commands) && Known(replacement, initial, commands)
      && Tracked(d, original, replacement, sound)
  }

  /** What a prepared or committed disk owes, read off the disk itself. */
  function OwedOnDisk(d: Disk): Pair {
    if d.marker.Some? && d.marker.value.phase == Prepared then
      Pair(
        if !d.marker.value.hadDatabase then None
        else if Rollback in d.databases then Lookup(d.databases, Rollback)
        else Lookup(d.databases, Live),
        if !d.marker.value.hadEvidence then None
        else if Rollback in d.trees then Lookup(d.trees, Rollback)
        else Lookup(d.trees, Live))
    else
      PairAt(d, Live)
  }

  /** The disk alone determines the pair a recovery leaves. */
  lemma OwedIsOnDisk(d: Disk, original: Pair, replacement: Pair, sound: (Bytes, Tree) -> bool)
    requires Tracked(d, original, replacement, sound)
    ensures Owed(d, original, replacement) == OwedOnDisk(d)
  {
    if d.marker.Some? && d.marker.value.phase == Prepared {
      assert CanRollBack(d, original);
    }
  }

  /** A disk that settles without a marker holds a pair that was owed, never a mixture. */
  lemma MarkerlessDiskIsWhole(d: Disk, initial: Pair, commands: seq<Command>,
                              sound: (Bytes, Tree) -> bool)
    requires Whole(d, initial, commands, sound) && d.marker.None?
    ensures Known(PairAt(d, Live), initial, commands) && PairAt(d, Rollback) == NOTHING
  {
    var original, replacement :|
      && Known(original, initial, commands) && Known(replacement, initial, commands)
      && Tracked(d, original, replacement, sound);
  }

  /** Every state of every run is whole, wherever its commands crashed or failed. */
  method Operate(dir: DataDirectory, commands: seq<Command>, ghost initial: Pair)
    requires Settled(dir.Snapshot(), initial) && WellFormed(dir.Snapshot())
    modifies dir
    ensures Whole(dir.Snapshot(), initial, commands, dir.sound)
  {
    ghost var original, replacement := initial, initial;
    for i := 0 to |commands|
      invariant Known(original, initial, commands) && Known(replacement, initial, commands)
      invariant Tracked(dir.Snapshot(), original, replacement, dir.sound)
    {
      dir.fates := commands[i].fates;
      match commands[i]
      case RestoreCommand(archive, _) =>
        ghost var before := PairAt(dir.Snapshot(), Live);
        assert commands[i] in commands;
        var r := dir.Restore(archive);
        if r != Refused {
          original, replacement := before, Contents(archive);
        }
      case RecoverCommand(confirmRollback, confirmFinalize, _) =>
        var r := dir.Recover(confirmRollback, confirmFinalize, original, replacement);
    }
  }

  /**
   * From any interrupted restore: recoveries that may each be cut short, then one that is not.
   * They end on the pair the disk owed at the start, and close the restore exactly when it
   * was committed or that pair passes validation.
   */
  method RecoverToEnd(dir: DataDirectory, attempts: seq<seq<Fate>>, ghost original: Pair, ghost replacement: Pair)
    requires Tracked(dir.Snapshot(), original, replacement, dir.sound) && dir.marker.Some?
    modifies dir
    ensures PairAt(dir.Snapshot(), Live) == OwedOnDisk(old(dir.Snapshot()))
    ensures dir.marker.None? <==> old(dir.marker).value.phase == Committed
                                  || RollbackValid(OwedOnDisk(old(dir.Snapshot())), dir.sound)
    ensures dir.marker.None? ==> Settled(dir.Snapshot(), OwedOnDisk(old(dir.Snapshot()))) && !dir.staging
    ensures dir.marker.Some? ==> dir.marker == old(dir.marker)
  {
    OwedIsOnDisk(dir.Snapshot(), original, replacement, dir.sound);
    var phase := dir.marker.value.phase;
    ghost var owed := Owed(dir.Snapshot(), original, replacement);
    for i := 0 to |attempts|
      invariant Tracked(dir.Snapshot(), original, replacement, dir.sound)
      invariant Owed(dir.Snapshot(), original, replacement) == owed
      invariant dir.marker == None || dir.marker == old(dir.marker)
      invariant dir.marker == None ==> !dir.staging && (phase == Committed || RollbackValid(original, dir.sound))
    {
      dir.fates := attempts[i];
      var cut := dir.Recover(phase == Prepared, phase == Committed, original, replacement);
    }
    dir.fates := [];
    var last := dir.Recover(phase == Prepared, phase == Committed, original, replacement);
  }

  /**
   * A restore with any faults at all, and if it leaves its marker, recoveries to the end. What
   * the restore left decides everything after it: `after` is that disk.
   */
  method RestoreThenRecover(dir: DataDirectory, archive: Archive, attempts: seq<seq<Fate>>, ghost original: Pair)
    returns (r: RestoreResult, ghost after: Disk)
    requires Settled(dir.Snapshot(), original) && WellFormed(dir.Snapshot())
    requires original.evidence.Some? ==> original.database.Some?
    modifies dir
    ensures Tracked(after, original, Contents(archive), dir.sound) && r != Refused
    ensures old(dir.fates) == [] ==>
              r == if archive.verifies && LiveValid(Contents(archive), dir.sound, true) then Restored
                   else if RollbackValid(original, dir.sound) then RolledBack
                   else RollbackIncomplete
    ensures r == Restored ==> Settled(after, Contents(archive))
    ensures r == RolledBack ==> Settled(after, original)
    ensures r == CommitUncertain || r == CleanupIncomplete ==> OwedOnDisk(after) == Contents(archive)
    ensures r == FailedBeforeMarker ==> OwedOnDisk(after) == original
    ensures PairAt(dir.Snapshot(), Live) == OwedOnDisk(after)
    ensures after.marker.None? ==> dir.Snapshot() == after
    ensures after.marker.Some? ==>
              (dir.marker.None? <==> after.marker.value.phase == Committed || RollbackValid(original, dir.sound))
    ensures after.marker.Some? && dir.marker.None? ==>
              Settled(dir.Snapshot(), if after.marker.value.phase == Committed then Contents(archive) else original)
  {
    r := dir.Restore(archive);
    after := dir.Snapshot();
    OwedIsOnDisk(after, original, Contents(archive), dir.sound);
    if dir.marker.Some? {
      RecoverToEnd(dir, attempts, original, Contents(archive));
    }
  }

  /**
   * A recovery that cannot close: restoring an archive that does not verify over a database
   * that is not sound puts the old database back, and no recovery removes the marker.
   */
  method MarkerStays() returns (restore: RestoreResult, recovery: RecoverResult, marked: bool)
    ensures restore == RollbackIncomplete && recovery == RecoveryIncomplete && marked
  {
    var original := Pair(Some([]), None);
    var archive := Archive([1], map[], false);
    var dir := new DataDirectory((database, evidence) => |database| > 0, original);
    restore := dir.Restore(archive);
    recovery := dir.Recover(true, false, original, Contents(archive));
    marked := dir.marker.Some?;
  }
}
