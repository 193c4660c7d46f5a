/**
 * The restore and recovery commands, one file-system primitive at a time.
 *
 * Every primitive asks for its fate first, so a crash or an I/O error can be placed
 * between any two steps, inside a recursive deletion, and inside a recovery.
 */
module RestoreProtocol {
  import opened Wrappers
  import opened RestoreDisk

  /** What the operating system does with one primitive. */
  datatype Fate = Done | FailBefore | FailAfter | PowerLoss

  datatype Status = Success | Failure | Crash

  datatype RecoverResult =
    | NothingToRecover
    | Recovered
    | ConfirmationMissing
    | RecoveryIncomplete
    | RecoveryCrashed

  datatype RestoreResult =
    | Refused
    | Restored
    | FailedBeforeMarker
    | RolledBack
    | RollbackIncomplete
    | CommitUncertain
    | CleanupIncomplete
    | RestoreCrashed

  function StatusOf(fate: Fate): Status {
    match fate
    case Done => Success
    case FailBefore => Failure
    case FailAfter => Failure
    case PowerLoss => Crash
  }

  predicate TakesEffect(fate: Fate) {
    fate.Done? || fate.FailAfter?
  }

  /** Two tables of places that differ at most at one place. */
  predicate SameElsewhere<T(==)>(before: map<Place, T>, after: map<Place, T>, place: Place) {
    forall p: Place | p != place ::
      (p in after <==> p in before) && (p in after ==> after[p] == before[p])
  }

  /** A tree holding only files the other one holds, with the same bytes. */
  predicate PartOf(part: Tree, whole: Tree) {
    forall name | name in part :: name in whole && part[name] == whole[name]
  }

  /** The staged tree holds exactly these files of the archive. */
  predicate Holds(staged: Tree, whole: Tree, names: set<string>) {
    staged.Keys == names && PartOf(staged, whole)
  }

  lemma RemainsPart(tree: Tree, name: string)
    requires name in tree
    ensures |tree - {name}| < |tree| && PartOf(tree - {name}, tree)
  {
    assert (tree - {name}).Keys == tree.Keys - {name};
  }

  class DataDirectory {
    const sound: (Bytes, Tree) -> bool
    var databases: map<Place, Bytes>
    var trees: map<Place, Tree>
    var staging: bool
    var marker: Option<Marker>
    var abandoned: nat
    var fates: seq<Fate>

    constructor (sound: (Bytes, Tree) -> bool, pair: Pair)
      ensures this.sound == sound && fates == [] && !staging
      ensures Settled(Snapshot(), pair) && WellFormed(Snapshot())
    {
      this.sound := sound;
      databases := if pair.database.Some? then map[Live := pair.database.value] else map[];
      trees := if pair.evidence.Some? then map[Live := pair.evidence.value] else map[];
      staging, marker, abandoned, fates := false, None, 0, [];
    }

    function Snapshot(): Disk
      reads this
    {
      Disk(databases, trees, staging, marker)
    }

    // ---- primitives -------------------------------------------------------------

    method NextFate() returns (fate: Fate)
      modifies this`fates
      ensures old(fates) == [] ==> fate == Done && fates == []
    {
      if fates == [] {
        fate := Done;
      } else {
        fate := fates[0];
        fates := fates[1..];
      }
    }

    method ReplaceDatabase(source: Place, destination: Place) returns (s: Status)
      requires source in databases && source != destination
      modifies this`databases, this`fates
      ensures old(fates) == [] ==> s == Success && fates == []
      ensures s == Success ==>
                databases == old((databases - {source})[destination := databases[source]])
      ensures databases == old(databases) ||
              databases == old((databases - {source})[destination := databases[source]])
    {
      var fate := NextFate();
      if TakesEffect(fate) {
        databases := (databases - {source})[destination := databases[source]];
      }
      s := StatusOf(fate);
    }

    method ReplaceTree(source: Place, destination: Place) returns (s: Status)
      requires source in trees && destination !in trees
      modifies this`trees, this`fates
      ensures old(fates) == [] ==> s == Success && fates == []
      ensures s == Success ==> trees == old((trees - {source})[destination := trees[source]])
      ensures trees == old(trees) ||
              trees == old((trees - {source})[destination := trees[source]])
    {
      var fate := NextFate();
      if TakesEffect(fate) {
        trees := (trees - {source})[destination := trees[source]];
      }
      s := StatusOf(fate);
    }

    method UnlinkDatabase(place: Place) returns (s: Status)
      requires place in databases
      modifies this`databases, this`fates
      ensures old(fates) == [] ==> s == Success && fates == []
      ensures s == Success ==> databases == old(databases) - {place}
      ensures databases == old(databases) || databases == old(databases) - {place}
    {
      var fate := NextFate();
      if TakesEffect(fate) {
        databases := databases - {place};
      }
      s := StatusOf(fate);
    }

    /** Delete the files of one tree in any order, then its root. */
    method RemoveTree(place: Place) returns (s: Status)
      requires place in trees
      modifies this`trees, this`fates
      ensures old(fates) == [] ==> s == Success && fates == []
      ensures SameElsewhere(old(trees), trees, place)
      ensures s == Success ==> place !in trees
      ensures place in trees ==> PartOf(trees[place], old(trees[place]))
    {
      while trees[place] != map[]
        invariant place in trees
        invariant old(fates) == [] ==> fates == []
        invariant SameElsewhere(old(trees), trees, place)
        invariant PartOf(trees[place], old(trees[place]))
        decreases |trees[place]|
      {
        s := RemoveEntry(place);
        if s != Success {
          return;
        }
      }
      var fate := NextFate();
      if TakesEffect(fate) {
        trees := trees - {place};
      }
      s := StatusOf(fate);
    }

    /** Delete one file of a tree, whichever comes next. */
    method RemoveEntry(place: Place) returns (s: Status)
      requires place in trees && trees[place] != map[]
      modifies this`trees, this`fates
      ensures old(fates) == [] ==> s == Success && fates == []
      ensures SameElsewhere(old(trees), trees, place)
      ensures place in trees && PartOf(trees[place], old(trees[place]))
      ensures s == Success ==> |trees[place]| < |old(trees[place])|
    {
      assert trees[place].Keys != {};
      var name :| name in trees[place];
      var fate := NextFate();
      if TakesEffect(fate) {
        RemainsPart(trees[place], name);
        trees := trees[place := trees[place] - {name}];
      }
      s := StatusOf(fate);
    }

    /** Delete the staging directory: its database, its evidence, then its root. */
    method RemoveStaging() returns (s: Status)
      requires staging
      modifies this`databases, this`trees, this`staging, this`fates
      ensures old(fates) == [] ==> s == Success && fates == []
      ensures SameElsewhere(old(databases), databases, Staged)
      ensures SameElsewhere(old(trees), trees, Staged)
      ensures Staged !in old(databases) ==> Staged !in databases
      ensures Staged !in old(trees) ==> Staged !in trees
      ensures !staging ==> Staged !in databases && Staged !in trees
      ensures s == Success ==> !staging
    {
      var evidenceFirst: bool := *;
      if evidenceFirst && Staged in trees {
        s := RemoveTree(Staged);
        if s != Success {
          return;
        }
      }
      if Staged in databases {
        s := UnlinkDatabase(Staged);
        if s != Success {
          return;
        }
      }
      if Staged in trees {
        s := RemoveTree(Staged);
        if s != Success {
          return;
        }
      }
      var fate := NextFate();
      if TakesEffect(fate) {
        staging := false;
      }
      s := StatusOf(fate);
    }

    method UnlinkMarker() returns (s: Status)
      modifies this`marker, this`fates
      ensures old(fates) == [] ==> s == Success && fates == []
      ensures s == Success ==> marker == None
      ensures marker == old(marker) || marker == None
    {
      var fate := NextFate();
      if TakesEffect(fate) {
        marker := None;
      }
      s := StatusOf(fate);
    }

    method WriteMarker(document: Marker) returns (s: Status)
      modifies this`marker, this`fates
      ensures old(fates) == [] ==> s == Success && fates == []
      ensures s == Success ==> marker == Some(document)
      ensures marker == old(marker) || marker == Some(document)
    {
      var fate := NextFate();
      if TakesEffect(fate) {
        marker := Some(document);
      }
      s := StatusOf(fate);
    }

    /** Validate what is in place; reading it can fail as well. */
    method ValidateLive(requireEvidence: bool) returns (s: Status)
      modifies this`fates
      ensures old(fates) == [] ==> fates == [] && s != Crash
      ensures old(fates) == [] && LiveValid(PairAt(Snapshot(), Live), sound, requireEvidence) ==>
                s == Success
      ensures s == Success ==> LiveValid(PairAt(Snapshot(), Live), sound, requireEvidence)
    {
      var fate := NextFate();
      s := StatusOf(fate);
      if s == Success && !LiveValid(PairAt(Snapshot(), Live), sound, requireEvidence) {
        s := Failure;
      }
    }

    // ---- recovery ---------------------------------------------------------------

    /** Put the original evidence back, or remove evidence that was not there before. */
    method RollBackEvidence(ghost original: Pair) returns (s: Status)
      requires WellFormed(Snapshot()) && CanRollBack(Snapshot(), original)
      modifies this`trees, this`fates
      ensures old(fates) == [] ==> s == Success && fates == []
      ensures WellFormed(Snapshot()) && CanRollBack(Snapshot(), original)
      ensures Staged in trees ==> Staged in old(trees)
      ensures s == Success ==>
                Lookup(trees, Live) == original.evidence && Rollback !in trees
    {
      if Rollback in trees {
        if Live in trees {
          s := RemoveTree(Live);
          if s != Success {
            return;
          }
        }
        s := ReplaceTree(Rollback, Live);
      } else if !marker.value.hadEvidence && Staged !in trees && Live in trees {
        s := RemoveTree(Live);
      } else {
        s := Success;
      }
    }

    /** Put the original database back, or remove a database that was not there before. */
    method RollBackDatabase(ghost original: Pair) returns (s: Status)
      requires WellFormed(Snapshot()) && CanRollBack(Snapshot(), original)
      modifies this`databases, this`fates
      ensures old(fates) == [] ==> s == Success && fates == []
      ensures WellFormed(Snapshot()) && CanRollBack(Snapshot(), original)
      ensures s == Success ==>
                Lookup(databases, Live) == original.database && Rollback !in databases
    {
      if Rollback in databases {
        if Live in databases {
          s := UnlinkDatabase(Live);
          if s != Success {
            return;
          }
        }
        s := ReplaceDatabase(Rollback, Live);
      } else if !marker.value.hadDatabase && Staged !in databases && Live in databases {
        s := UnlinkDatabase(Live);
      } else {
        s := Success;
      }
    }

    /** The prepared branch of a recovery, up to the checks on what was put back. */
    method RollBack(ghost original: Pair) returns (s: Status)
      requires WellFormed(Snapshot()) && CanRollBack(Snapshot(), original)
      modifies this`databases, this`trees, this`fates
      ensures old(fates) == [] ==> fates == [] && s != Crash
      ensures old(fates) == [] ==> (s == Success <==> RollbackValid(original, sound))
      ensures WellFormed(Snapshot()) && CanRollBack(Snapshot(), original)
      ensures s == Success || old(fates) == [] ==>
                PairAt(Snapshot(), Live) == original && PairAt(Snapshot(), Rollback) == NOTHING
      ensures s == Success ==> RollbackValid(original, sound)
    {
      s := RollBackEvidence(original);
      if s != Success {
        return;
      }
      s := RollBackDatabase(original);
      if s != Success {
        return;
      }
      if marker.value.hadDatabase {
        s := ValidateLive(marker.value.hadEvidence);
      }
    }

    /** Discard the rollback copies of a committed restore. */
    method DiscardRollback(ghost replacement: Pair) returns (s: Status)
      requires WellFormed(Snapshot()) && CanFinalize(Snapshot(), replacement, sound)
      modifies this`databases, this`trees, this`fates
      ensures old(fates) == [] ==> s == Success && fates == []
      ensures WellFormed(Snapshot()) && CanFinalize(Snapshot(), replacement, sound)
      ensures s == Success ==> PairAt(Snapshot(), Rollback) == NOTHING
    {
      s := Success;
      if Rollback in databases {
        s := UnlinkDatabase(Rollback);
        if s != Success {
          return;
        }
      }
      if Rollback in trees {
        s := RemoveTree(Rollback);
      }
    }

    /** Remove the staging directory and then, last of all, the marker. */
    method CloseRestore(ghost pair: Pair) returns (s: Status)
      requires WellFormed(Snapshot()) && marker.Some?
      requires PairAt(Snapshot(), Live) == pair && PairAt(Snapshot(), Rollback) == NOTHING
      modifies this`databases, this`trees, this`staging, this`marker, this`fates
      ensures old(fates) == [] ==> s == Success && fates == []
      ensures WellFormed(Snapshot())
      ensures PairAt(Snapshot(), Live) == pair && PairAt(Snapshot(), Rollback) == NOTHING
      ensures marker == old(marker) || marker == None
      ensures s == Success ==> marker == None
      ensures marker == None ==> !staging
    {
      if staging {
        s := RemoveStaging();
        if s != Success {
          return;
        }
      }
      s := UnlinkMarker();
    }

    /**
     * One recovery command. The pair it ends on is the one the marker owes, and it ends
     * at all, when nothing interrupts it, exactly when that pair passes validation.
     */
    method Recover(confirmRollback: bool, confirmFinalize: bool,
                   ghost original: Pair, ghost replacement: Pair)
      returns (r: RecoverResult)
      requires Tracked(Snapshot(), original, replacement, sound)
      modifies this`databases, this`trees, this`staging, this`marker, this`fates
      ensures Tracked(Snapshot(), original, replacement, sound)
      ensures Owed(Snapshot(), original, replacement) == old(Owed(Snapshot(), original, replacement))
      ensures marker == old(marker) || marker == None
      ensures r == NothingToRecover <==> old(marker) == None
      ensures r == NothingToRecover || r == ConfirmationMissing ==> Snapshot() == old(Snapshot())
      ensures r == Recovered ==> marker == None
      ensures old(marker).Some? && marker == None ==> !staging
      ensures old(fates) == [] && old(marker).Some? ==>
                r == match old(marker).value.phase
                     case Prepared =>
                       if !confirmRollback then ConfirmationMissing
                       else if RollbackValid(original, sound) then Recovered
                       else RecoveryIncomplete
                     case Committed =>
                       if confirmFinalize then Recovered else ConfirmationMissing
      ensures old(fates) == [] ==> fates == []
      ensures old(fates) == [] && r == RecoveryIncomplete ==>
                marker == old(marker) &&
                PairAt(Snapshot(), Live) == Owed(Snapshot(), original, replacement)
      ensures old(marker).Some? && marker == None && old(marker).value.phase == Prepared ==>
                RollbackValid(original, sound)
    {
      if marker.None? {
        return NothingToRecover;
      }
      var s: Status;
      if marker.value.phase == Prepared {
        if !confirmRollback {
          return ConfirmationMissing;
        }
        s := RollBack(original);
      } else {
        if !confirmFinalize {
          return ConfirmationMissing;
        }
        s := ValidateLive(true);
        if s == Success {
          s := DiscardRollback(replacement);
        }
      }
      if s == Success {
        s := CloseRestore(PairAt(Snapshot(), Live));
      }
      r := match s
        case Success => Recovered
        case Failure => RecoveryIncomplete
        case Crash => RecoveryCrashed;
    }

    // ---- restore ----------------------------------------------------------------

    /** Extract one evidence file; an interrupted write leaves some prefix of it. */
    method StageEvidence(name: string, bytes: Bytes) returns (s: Status)
      requires staging
      modifies this`trees, this`fates
      ensures old(fates) == [] ==> s == Success && fates == []
      ensures SameElsewhere(old(trees), trees, Staged)
      ensures s == Success ==>
                Staged in trees &&
                trees[Staged] ==
                (if Staged in old(trees) then old(trees[Staged]) else map[])[name := bytes]
    {
      var staged := if Staged in trees then trees[Staged] else map[];
      var fate := NextFate();
      if TakesEffect(fate) {
        trees := trees[Staged := staged[name := []]];
      }
      s := StatusOf(fate);
      if s != Success {
        return;
      }
      fate := NextFate();
      var length: nat :| length <= |bytes| && (TakesEffect(fate) ==> length == |bytes|);
      trees := trees[Staged := staged[name := bytes[..length]]];
      s := StatusOf(fate);
      assert length == |bytes| ==> bytes[..length] == bytes;
    }

    /** Extract the database member in the same way. */
    method StageDatabase(bytes: Bytes) returns (s: Status)
      requires staging
      modifies this`databases, this`fates
      ensures old(fates) == [] ==> s == Success && fates == []
      ensures SameElsewhere(old(databases), databases, Staged)
      ensures s == Success ==> Lookup(databases, Staged) == Some(bytes)
    {
      var fate := NextFate();
      if TakesEffect(fate) {
        databases := databases[Staged := []];
      }
      s := StatusOf(fate);
      if s != Success {
        return;
      }
      fate := NextFate();
      var length: nat :| length <= |bytes| && (TakesEffect(fate) ==> length == |bytes|);
      databases := databases[Staged := bytes[..length]];
      s := StatusOf(fate);
      assert length == |bytes| ==> bytes[..length] == bytes;
    }

    /** Verify the archive and extract its members, in any order, into the staging directory. */
    method Extract(archive: Archive) returns (s: Status)
      requires staging && PairAt(Snapshot(), Staged) == NOTHING
      modifies this`databases, this`trees, this`fates
      ensures old(fates) == [] ==> fates == [] && s != Crash
      ensures old(fates) == [] && archive.verifies ==> s == Success
      ensures SameElsewhere(old(databases), databases, Staged)
      ensures SameElsewhere(old(trees), trees, Staged)
      ensures s == Success ==>
                archive.verifies && PairAt(Snapshot(), Staged) == Contents(archive)
    {
      var fate := NextFate();
      s := StatusOf(fate);
      if s != Success {
        return;
      }
      if !archive.verifies {
        return Failure;
      }
      var pending := archive.evidence.Keys;
      var written := false;
      while pending != {} || !written
        invariant old(fates) == [] ==> fates == []
        invariant pending <= archive.evidence.Keys
        invariant SameElsewhere(old(databases), databases, Staged)
        invariant SameElsewhere(old(trees), trees, Staged)
        invariant written ==> Lookup(databases, Staged) == Some(archive.database)
        invariant Staged !in trees ==> pending == archive.evidence.Keys
        invariant Staged in trees ==>
                    Holds(trees[Staged], archive.evidence, archive.evidence.Keys - pending)
        decreases |pending|, !written
      {
        var evidenceNext: bool := *;
        if pending != {} && (written || evidenceNext) {
          var name :| name in pending;
          s := StageEvidence(name, archive.evidence[name]);
          pending := pending - {name};
        } else {
          s := StageDatabase(archive.database);
          written := true;
        }
        if s != Success {
          return;
        }
      }
      fate := NextFate();
      if TakesEffect(fate) && Staged !in trees {
        trees := trees[Staged := map[]];
      }
      s := StatusOf(fate);
      if s == Success {
        assert trees[Staged] == archive.evidence;
      }
    }

    /** Move the current pair aside, database first. */
    method SetAside(ghost original: Pair) returns (s: Status)
      requires WellFormed(Snapshot()) && CanRollBack(Snapshot(), original)
      requires PairAt(Snapshot(), Live) == original && PairAt(Snapshot(), Rollback) == NOTHING
      modifies this`databases, this`trees, this`fates
      ensures old(fates) == [] ==> s == Success && fates == []
      ensures WellFormed(Snapshot()) && CanRollBack(Snapshot(), original)
      ensures PairAt(Snapshot(), Staged) == old(PairAt(Snapshot(), Staged))
      ensures s == Success ==>
                PairAt(Snapshot(), Live) == NOTHING && PairAt(Snapshot(), Rollback) == original
    {
      s := Success;
      if Live in databases {
        s := ReplaceDatabase(Live, Rollback);
        if s != Success {
          return;
        }
      }
      if Live in trees {
        s := ReplaceTree(Live, Rollback);
      }
    }

    /** Move the staged pair in, database first. */
    method MoveIn(ghost original: Pair) returns (s: Status)
      requires WellFormed(Snapshot()) && CanRollBack(Snapshot(), original)
      requires PairAt(Snapshot(), Live) == NOTHING && PairAt(Snapshot(), Rollback) == original
      requires Staged in databases && Staged in trees
      modifies this`databases, this`trees, this`fates
      ensures old(fates) == [] ==> s == Success && fates == []
      ensures WellFormed(Snapshot()) && CanRollBack(Snapshot(), original)
      ensures s == Success ==> PairAt(Snapshot(), Live) == old(PairAt(Snapshot(), Staged))
    {
      s := ReplaceDatabase(Staged, Live);
      if s != Success {
        return;
      }
      s := ReplaceTree(Staged, Live);
    }

    /** Swap the two pairs, validate what is now in place, and commit. */
    method Install(archive: Archive, ghost original: Pair) returns (s: Status)
      requires WellFormed(Snapshot()) && CanRollBack(Snapshot(), original)
      requires PairAt(Snapshot(), Live) == original && PairAt(Snapshot(), Rollback) == NOTHING
      requires PairAt(Snapshot(), Staged) == Contents(archive)
      modifies this`databases, this`trees, this`marker, this`fates
      ensures old(fates) == [] ==> fates == [] && s != Crash
      ensures old(fates) == [] && LiveValid(Contents(archive), sound, true) ==> s == Success
      ensures old(fates) == [] && s == Failure ==> CanRollBack(Snapshot(), original)
      ensures Tracked(Snapshot(), original, Contents(archive), sound) && marker.Some?
      ensures s == Success ==> CanFinalize(Snapshot(), Contents(archive), sound)
    {
      s := SetAside(original);
      if s == Success {
        s := MoveIn(original);
      }
      if s == Success {
        s := ValidateLive(true);
      }
      if s == Success {
        s := WriteMarker(marker.value.(phase := Committed));
      }
    }

    /** A new random token: whatever an older token still names is out of reach. */
    method FreshToken()
      requires marker == None && PairAt(Snapshot(), Rollback) == NOTHING
      modifies this`databases, this`trees, this`staging, this`abandoned
      ensures !staging && PairAt(Snapshot(), Staged) == NOTHING
      ensures SameElsewhere(old(databases), databases, Staged)
      ensures SameElsewhere(old(trees), trees, Staged)
      ensures abandoned == old(abandoned) + if old(staging) then 1 else 0
    {
      if staging {
        abandoned := abandoned + 1;
      }
      staging := false;
      databases := databases - {Staged};
      trees := trees - {Staged};
    }

    method MakeStaging() returns (s: Status)
      modifies this`staging, this`fates
      ensures old(fates) == [] ==> s == Success && fates == []
      ensures s == Success ==> staging
      ensures old(staging) ==> staging
    {
      var fate := NextFate();
      if TakesEffect(fate) {
        staging := true;
      }
      s := StatusOf(fate);
    }

    /** Create the staging directory and the prepared marker, or leave no staging behind. */
    method Begin(ghost original: Pair) returns (s: Status)
      requires WellFormed(Snapshot()) && marker == None
      requires PairAt(Snapshot(), Live) == original && PairAt(Snapshot(), Rollback) == NOTHING
      requires original.evidence.Some? ==> original.database.Some?
      modifies this
      ensures old(fates) == [] ==> s == Success && fates == []
      ensures WellFormed(Snapshot())
      ensures PairAt(Snapshot(), Live) == original && PairAt(Snapshot(), Rollback) == NOTHING
      ensures PairAt(Snapshot(), Staged) == NOTHING
      ensures marker == None || CanRollBack(Snapshot(), original)
      ensures s == Success ==> staging && marker.Some?
    {
      FreshToken();
      s := MakeStaging();
      if s == Success {
        s := WriteMarker(Marker(Prepared, Live in databases, Live in trees));
      }
      if s == Failure && staging {
        s := RemoveStaging();
        s := if s == Crash then Crash else Failure;
      }
    }

    /** The tail of a committed restore. */
    method Finish(ghost replacement: Pair) returns (r: RestoreResult)
      requires WellFormed(Snapshot()) && CanFinalize(Snapshot(), replacement, sound)
      modifies this`databases, this`trees, this`staging, this`marker, this`fates
      ensures old(fates) == [] ==> r == Restored
      ensures r in {Restored, CleanupIncomplete, RestoreCrashed}
      ensures WellFormed(Snapshot())
      ensures Settled(Snapshot(), replacement) || CanFinalize(Snapshot(), replacement, sound)
      ensures r == Restored ==> Settled(Snapshot(), replacement) && !staging
    {
      var s := DiscardRollback(replacement);
      if s == Success {
        s := CloseRestore(replacement);
      }
      r := match s
        case Success => Restored
        case Failure => CleanupIncomplete
        case Crash => RestoreCrashed;
    }

    /** The handler of a restore that failed after its marker was created. */
    method HandleFailure(ghost original: Pair, ghost replacement: Pair) returns (r: RestoreResult)
      requires Tracked(Snapshot(), original, replacement, sound) && marker.Some?
      modifies this`databases, this`trees, this`staging, this`marker, this`fates
      ensures Tracked(Snapshot(), original, replacement, sound)
      ensures Owed(Snapshot(), original, replacement) == old(Owed(Snapshot(), original, replacement))
      ensures r in {RolledBack, RollbackIncomplete, CommitUncertain, RestoreCrashed}
      ensures r == RolledBack ==> Settled(Snapshot(), original) && !staging
      ensures r == CommitUncertain ==> CanFinalize(Snapshot(), replacement, sound)
      ensures r == RollbackIncomplete ==> marker == None || marker == old(marker)
      ensures old(fates) == [] && CanRollBack(old(Snapshot()), original) ==>
                r == if RollbackValid(original, sound) then RolledBack else RollbackIncomplete
      ensures old(fates) == [] ==> fates == []
      ensures old(fates) == [] && r == RollbackIncomplete ==> marker == old(marker)
    {
      var fate := NextFate();
      if !fate.Done? {
        return if fate.PowerLoss? then RestoreCrashed else RollbackIncomplete;
      }
      if marker.value.phase == Committed {
        return CommitUncertain;
      }
      var recovery := Recover(true, false, original, replacement);
      r := match recovery
        case Recovered => RolledBack
        case RecoveryCrashed => RestoreCrashed
        case _ => RollbackIncomplete;
    }

    /** Extraction touches nothing but the staging directory. */
    method Stage(archive: Archive, ghost original: Pair) returns (s: Status)
      requires staging && WellFormed(Snapshot()) && CanRollBack(Snapshot(), original)
      requires PairAt(Snapshot(), Live) == original && PairAt(Snapshot(), Rollback) == NOTHING
      requires PairAt(Snapshot(), Staged) == NOTHING
      modifies this`databases, this`trees, this`fates
      ensures old(fates) == [] ==> fates == [] && s != Crash
      ensures old(fates) == [] && archive.verifies ==> s == Success
      ensures WellFormed(Snapshot()) && CanRollBack(Snapshot(), original)
      ensures PairAt(Snapshot(), Live) == original && PairAt(Snapshot(), Rollback) == NOTHING
      ensures s == Success ==>
                archive.verifies && PairAt(Snapshot(), Staged) == Contents(archive)
    {
      s := Extract(archive);
    }

    /** A restore from its prepared marker on. */
    method Replace(archive: Archive, ghost original: Pair) returns (r: RestoreResult)
      requires staging && WellFormed(Snapshot()) && CanRollBack(Snapshot(), original)
      requires PairAt(Snapshot(), Live) == original && PairAt(Snapshot(), Rollback) == NOTHING
      requires PairAt(Snapshot(), Staged) == NOTHING
      modifies this`databases, this`trees, this`staging, this`marker, this`fates
      ensures Tracked(Snapshot(), original, Contents(archive), sound)
      ensures r == Restored ==> Settled(Snapshot(), Contents(archive)) && !staging
      ensures r == RolledBack ==> Settled(Snapshot(), original) && !staging
      ensures r == CommitUncertain ==> CanFinalize(Snapshot(), Contents(archive), sound)
      ensures r == CleanupIncomplete ==>
                Owed(Snapshot(), original, Contents(archive)) == Contents(archive)
      ensures r in {Restored, RolledBack, RollbackIncomplete, CommitUncertain,
                    CleanupIncomplete, RestoreCrashed}
      ensures old(fates) == [] ==>
                r == if archive.verifies && LiveValid(Contents(archive), sound, true) then Restored
                     else if RollbackValid(original, sound) then RolledBack
                     else RollbackIncomplete
      ensures old(fates) == [] && r == RollbackIncomplete ==>
                fates == [] && marker.Some? && marker.value.phase == Prepared
    {
      var s := Stage(archive, original);
      if s == Success {
        s := Install(archive, original);
      }
      r := RestoreCrashed;
      if s == Failure {
        r := HandleFailure(original, Contents(archive));
      } else if s == Success {
        r := Finish(Contents(archive));
      }
    }

    /** One restore command. */
    method Restore(archive: Archive) returns (r: RestoreResult)
      requires WellFormed(Snapshot())
      requires marker == None ==> PairAt(Snapshot(), Rollback) == NOTHING
      modifies this
      ensures r == Refused <==> old(marker.Some? || (Live in trees && Live !in databases))
      ensures r == Refused ==> Snapshot() == old(Snapshot())
      ensures r != Refused ==>
                Tracked(Snapshot(), old(PairAt(Snapshot(), Live)), Contents(archive), sound)
      ensures r == Restored ==> Settled(Snapshot(), Contents(archive)) && !staging
      ensures r == RolledBack ==> Settled(Snapshot(), old(PairAt(Snapshot(), Live))) && !staging
      ensures r == FailedBeforeMarker ==>
                PairAt(Snapshot(), Live) == old(PairAt(Snapshot(), Live)) &&
                (marker.Some? ==> marker.value.phase == Prepared)
      ensures r == CommitUncertain || r == CleanupIncomplete ==>
                Owed(Snapshot(), old(PairAt(Snapshot(), Live)), Contents(archive))
                == Contents(archive)
      ensures old(fates) == [] && r != Refused ==>
                r == if archive.verifies && LiveValid(Contents(archive), sound, true) then Restored
                     else if RollbackValid(old(PairAt(Snapshot(), Live)), sound) then RolledBack
                     else RollbackIncomplete
      ensures old(fates) == [] && r == RollbackIncomplete ==>
                fates == [] && marker.Some? && marker.value.phase == Prepared
    {
      if marker.Some? || (Live in trees && Live !in databases) {
        return Refused;
      }
      ghost var original := PairAt(Snapshot(), Live);
      var s := Begin(original);
      r := match s
        case Success => Restored
        case Failure => FailedBeforeMarker
        case Crash => RestoreCrashed;
      if s == Success {
        r := Replace(archive, original);
      }
    }
  }
}
