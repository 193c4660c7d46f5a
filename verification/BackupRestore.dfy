/** From the archive to the data directory: restoring a backup puts back what it was made of. */
module BackupRestore {
  import opened Wrappers
  import opened AsciiText
  import opened BackupArchive
  import opened BackupRoundTrip
  import opened EvidenceWalk
  import opened Backups
  import Disk = RestoreDisk
  import Protocol = RestoreProtocol

  /** The evidence paths an archive records. */
  function EvidenceNames(records: seq<FileRecord>): (names: set<string>)
    ensures forall p :: p in names <==> exists r <- records :: r.path == EvidenceMember(p)
  {
    EvidencePrefix(records);
    set r | r in records && StartsWith(r.path, "evidence/") :: r.path[9..]
  }

  lemma EvidencePrefix(records: seq<FileRecord>)
    ensures forall r <- records :: StartsWith(r.path, "evidence/") ==> r.path == EvidenceMember(r.path[9..])
    ensures forall p: string :: StartsWith(EvidenceMember(p), "evidence/") && EvidenceMember(p)[9..] == p
  {
    forall r | r in records && StartsWith(r.path, "evidence/") ensures r.path == EvidenceMember(r.path[9..]) {
      assert r.path[..9] == "evidence/";
    }
  }

  predicate HasRecord(a: Archive, name: string) {
    exists r <- a.records :: r.path == name
  }

  /** What the restore protocol sees of a verified archive. */
  function ForRestore(a: Archive): Disk.Archive
    requires forall r <- a.records :: exists m <- a.members :: m.name == r.path
    requires HasRecord(a, DATABASE_MEMBER)
  {
    Disk.Archive(
      ContentOf(a.members, DATABASE_MEMBER),
      map p | p in EvidenceNames(a.records) :: ContentOf(a.members, EvidenceMember(p)),
      TreeShaped(a.records))
  }

  lemma VerifiedIsRestorable(f: Format, a: Archive)
    requires Verified(f, a)
    ensures forall r <- a.records :: exists m <- a.members :: m.name == r.path
    ensures HasRecord(a, DATABASE_MEMBER)
  {
    forall r | r in a.records ensures exists m <- a.members :: m.name == r.path {
      RecordHasMember(f, a, r);
    }
    var i :| 0 <= i < |a.records| && RecordedNames(a.records)[i] == DATABASE_MEMBER;
    assert a.records[i] in a.records;
  }

  lemma OneMember(f: Format, a: Archive, name: string, x: Bytes, y: Bytes)
    requires Verified(f, a) && Member(name, x) in a.members && Member(name, y) in a.members
    ensures x == y
  {
    var i :| 0 <= i < |a.members| && a.members[i] == Member(name, x);
    var j :| 0 <= j < |a.members| && a.members[j] == Member(name, y);
    assert NamesOf(a)[i] == NamesOf(a)[j];
  }

  ghost predicate Restorable(f: Format, a: Archive, files: Files) {
    && Verified(f, a) && Extracted(files, a.members, a.records)
    && (forall r <- a.records :: exists m <- a.members :: m.name == r.path)
    && HasRecord(a, DATABASE_MEMBER)
  }

  lemma MemberIsPlaced(f: Format, a: Archive, files: Files, name: string, content: Bytes)
    requires Restorable(f, a, files) && HasRecord(a, name) && Member(name, content) in a.members
    ensures PathOf(name) in files && files[PathOf(name)] == content
  {
    var r :| r in a.records && r.path == name;
    OneMember(f, a, name, files[PathOf(name)], content);
  }

  lemma EvidenceIsPlaced(f: Format, a: Archive, files: Files, p: string)
    requires Restorable(f, a, files) && p in EvidenceNames(a.records)
    ensures ["evidence"] + PathOf(p) in files
    ensures files[["evidence"] + PathOf(p)] == ForRestore(a).evidence[p]
  {
    EvidencePath(p);
    MemberIsPlaced(f, a, files, EvidenceMember(p), ForRestore(a).evidence[p]);
  }

  lemma RecordIsEvidence(f: Format, a: Archive, r: FileRecord)
    requires Verified(f, a) && r in a.records && r.path != DATABASE_MEMBER
    ensures StartsWith(r.path, "evidence/")
  {
    assert RecordOk(r);
  }

  lemma EvidenceIsNamed(records: seq<FileRecord>, r: FileRecord)
    requires r in records && StartsWith(r.path, "evidence/")
    ensures exists p <- EvidenceNames(records) :: PathOf(r.path) == ["evidence"] + PathOf(p)
  {
    EvidencePrefix(records);
    var p := r.path[9..];
    EvidencePath(p);
    assert p in EvidenceNames(records);
  }

  lemma PlacedIsRecorded(f: Format, a: Archive, files: Files, path: Path)
    requires Restorable(f, a, files) && path in files && path != PathOf(DATABASE_MEMBER)
    ensures exists p <- EvidenceNames(a.records) :: path == ["evidence"] + PathOf(p)
  {
    var r :| r in a.records && path == PathOf(r.path);
    RecordIsEvidence(f, a, r);
    EvidenceIsNamed(a.records, r);
  }

  /** What extraction leaves in the staging directory is what the restore protocol moves in. */
  lemma ExtractionIsRestored(f: Format, a: Archive, files: Files, place: Path)
    requires Restorable(f, a, files) && place == PathOf(DATABASE_MEMBER)
    ensures HoldsAt(files, place, ForRestore(a).database, ForRestore(a).evidence)
  {
    MemberIsPlaced(f, a, files, DATABASE_MEMBER, ForRestore(a).database);
    forall p | p in EvidenceNames(a.records)
      ensures ["evidence"] + PathOf(p) in files
              && files[["evidence"] + PathOf(p)] == ForRestore(a).evidence[p]
    {
      EvidenceIsPlaced(f, a, files, p);
    }
    forall path | path in files
      ensures path == place || exists p <- EvidenceNames(a.records) :: path == ["evidence"] + PathOf(p)
    {
      if path != place {
        PlacedIsRecorded(f, a, files, path);
      }
    }
  }

  /** Files hold one database and one evidence map only. */
  lemma FilesHoldOnePair(files: Files, place: Path, database: Bytes, evidence: map<string, Bytes>,
                         database': Bytes, evidence': map<string, Bytes>)
    requires HoldsAt(files, place, database, evidence) && HoldsAt(files, place, database', evidence')
    requires |place| > 0 && place[0] != "evidence"
    ensures database == database' && evidence == evidence'
  {
    forall p | p in evidence ensures p in evidence' && evidence'[p] == evidence[p] {
      SameEvidence(files, place, database', evidence', p);
    }
    forall p | p in evidence' ensures p in evidence {
      SameEvidence(files, place, database, evidence, p);
    }
  }

  lemma SameEvidence(files: Files, place: Path, database: Bytes, evidence: map<string, Bytes>, p: string)
    requires HoldsAt(files, place, database, evidence) && ["evidence"] + PathOf(p) in files
    requires |place| > 0 && place[0] != "evidence"
    ensures p in evidence && files[["evidence"] + PathOf(p)] == evidence[p]
  {
    var path := ["evidence"] + PathOf(p);
    assert path[0] == "evidence";
    var q :| q in evidence && path == ["evidence"] + PathOf(q);
    assert path[1..] == PathOf(p) && path[1..] == PathOf(q);
    PathsAreNames(p, q);
  }

  /** A backup, as the restore protocol sees it, is the data it was made of. */
  lemma BackupIsData(f: Format, a: Archive, files: Files, database: Bytes, evidence: map<string, Bytes>)
    requires Verified(f, a) && Extracted(files, a.members, a.records) && Holds(files, database, evidence)
    ensures Restorable(f, a, files)
    ensures ForRestore(a) == Disk.Archive(database, evidence, TreeShaped(a.records))
  {
    VerifiedIsRestorable(f, a);
    DatabaseIsApart();
    var place := PathOf(DATABASE_MEMBER);
    ExtractionIsRestored(f, a, files, place);
    FilesHoldOnePair(files, place, database, evidence, ForRestore(a).database, ForRestore(a).evidence);
  }

  /** Extract a backup that was just made. */
  method Reread(f: Format, a: Archive, database: Bytes, root: Root) returns (archive: Disk.Archive)
    requires WellNamed(EntriesOf(root)) && Verified(f, a)
    requires var members := MembersOf(database, root); a == Archive(members, Records(f, members))
    ensures archive == Disk.Archive(database, EvidenceOf(FilesOf(root)), true)
  {
    var files := FilesOf(root);
    TreeIsNamed(EntriesOf(root));
    ListingLists(files);
    SourcesAreTree(f, database, EvidenceOf(files), ListingOf(files));
    var extracted := Extract(f, a);
    ExtractedHolds(f, extracted.value, database, EvidenceOf(files), ListingOf(files));
    BackupIsData(f, a, extracted.value, database, EvidenceOf(files));
    archive := ForRestore(a);
  }

  /** A backup of sound data, restored over any settled directory without a fault, leaves that
      data in place and nothing beside it. */
  method BackupThenRestore(f: Format, database: Bytes, root: Root,
                           dir: Protocol.DataDirectory, ghost original: Disk.Pair)
    returns (r: Result<Protocol.RestoreResult, BackupError>)
    requires WellNamed(EntriesOf(root)) && dir.sound(database, EvidenceOf(FilesOf(root)))
    requires Disk.Settled(dir.Snapshot(), original) && Disk.WellFormed(dir.Snapshot()) && dir.fates == []
    requires original.evidence.Some? ==> original.database.Some?
    modifies dir
    ensures r.Ok? <==> Walkable(root) && Fits(f, MembersOf(database, root))
    ensures r.Ok? ==> r.value == Protocol.Restored
    ensures r.Ok? ==> Disk.Settled(dir.Snapshot(), Disk.Pair(Some(database), Some(EvidenceOf(FilesOf(root)))))
    ensures r.Err? ==> dir.Snapshot() == old(dir.Snapshot())
  {
    var backup := CreateBackup(f, database, root);
    if backup.Err? {
      return Err(backup.error);
    }
    var archive := Reread(f, backup.value, database, root);
    var result := dir.Restore(archive);
    r := Ok(result);
  }
}
