/**
 * The data directory of an offline restore, as plain values.
 *
 * A restore replaces the database and the evidence tree, which are two paths, so no
 * single rename covers both. The values below name every place a copy can be in and
 * say, for each state of the marker, which pair the directory still owes its owner.
 */
module RestoreDisk {
  import opened Wrappers

  type Bytes = seq<bv8>
  type Tree = map<string, Bytes>

  /** Where a copy of the database, or of the evidence tree, can be. */
  datatype Place = Live | Rollback | Staged

  datatype Phase = Prepared | Committed

  datatype Marker = Marker(phase: Phase, hadDatabase: bool, hadEvidence: bool)

  /** A database with its evidence, either of which may be absent. */
  datatype Pair = Pair(database: Option<Bytes>, evidence: Option<Tree>)

  datatype Disk = Disk(
    databases: map<Place, Bytes>,
    trees: map<Place, Tree>,
    staging: bool,
    marker: Option<Marker>)

  datatype Archive = Archive(database: Bytes, evidence: Tree, verifies: bool)

  function PairAt(d: Disk, place: Place): Pair {
    Pair(Lookup(d.databases, place), Lookup(d.trees, place))
  }

  function Contents(archive: Archive): Pair {
    Pair(Some(archive.database), Some(archive.evidence))
  }

  const NOTHING := Pair(None, None)

  /** Staged copies live inside the staging directory. */
  predicate WellFormed(d: Disk) {
    !d.staging ==> PairAt(d, Staged) == NOTHING
  }

  /** No marker, nothing set aside, and exactly this pair in place. */
  predicate Settled(d: Disk, pair: Pair) {
    d.marker.None? && PairAt(d, Live) == pair && PairAt(d, Rollback) == NOTHING
  }

  /** The original database can be put back from where it is now. */
  predicate DatabaseRecoverable(d: Disk, original: Pair) {
    match original.database
    case Some(bytes) =>
      || Lookup(d.databases, Rollback) == Some(bytes)
      || (Rollback !in d.databases && Lookup(d.databases, Live) == Some(bytes))
    case None =>
      Rollback !in d.databases && (Live !in d.databases || Staged !in d.databases)
  }

  predicate EvidenceRecoverable(d: Disk, original: Pair) {
    match original.evidence
    case Some(tree) =>
      || Lookup(d.trees, Rollback) == Some(tree)
      || (Rollback !in d.trees && Lookup(d.trees, Live) == Some(tree))
    case None =>
      Rollback !in d.trees && (Live !in d.trees || Staged !in d.trees)
  }

  /** What live validation accepts: a database, evidence if required, and the two agreeing. */
  predicate LiveValid(pair: Pair, sound: (Bytes, Tree) -> bool, requireEvidence: bool) {
    && pair.database.Some?
    && (requireEvidence ==> pair.evidence.Some?)
    && sound(pair.database.value, if pair.evidence.Some? then pair.evidence.value else map[])
  }

  predicate CanRollBack(d: Disk, original: Pair) {
    && d.marker == Some(Marker(Prepared, original.database.Some?, original.evidence.Some?))
    && (original.evidence.Some? ==> original.database.Some?)
    && DatabaseRecoverable(d, original)
    && EvidenceRecoverable(d, original)
  }

  predicate CanFinalize(d: Disk, replacement: Pair, sound: (Bytes, Tree) -> bool) {
    && d.marker.Some? && d.marker.value.phase == Committed
    && (d.marker.value.hadEvidence ==> d.marker.value.hadDatabase)
    && PairAt(d, Live) == replacement
    && LiveValid(replacement, sound, true)
  }

  /** The one invariant of every crash point of a restore of `replacement` over `original`. */
  predicate Tracked(d: Disk, original: Pair, replacement: Pair, sound: (Bytes, Tree) -> bool) {
    && WellFormed(d)
    && (d.marker.None? ==> Settled(d, original) || Settled(d, replacement))
    && (d.marker.Some? ==> CanRollBack(d, original) || CanFinalize(d, replacement, sound))
  }

  /** The pair a completed recovery has to leave behind. */
  function Owed(d: Disk, original: Pair, replacement: Pair): Pair {
    if d.marker.None? then PairAt(d, Live)
    else if d.marker.value.phase == Prepared then original
    else replacement
  }

  /** The pair a rollback may end on: nothing was there before, or what was there is valid. */
  predicate RollbackValid(original: Pair, sound: (Bytes, Tree) -> bool) {
    original.database.Some? ==> LiveValid(original, sound, original.evidence.Some?)
  }
}
