/** Backing up the data directory as it is: walk, write, verify, and get it all back. */
module Backups {
  import opened Wrappers
  import opened BackupArchive
  import opened BackupRoundTrip
  import opened EvidenceWalk

  /** The evidence files of a data directory. */
  function FilesOf(root: Root): seq<Found> { FilesIn(EntriesOf(root), []) }

  /** The members a backup of this data has, in their order. */
  function MembersOf(database: Bytes, root: Root): seq<Member> {
    Sources(database, EvidenceOf(FilesOf(root)), ListingOf(FilesOf(root)))
  }

  lemma {:induction false} FilesAreSafe(entries: seq<Entry>, at: Path, safe: Path -> bool)
    requires Regular(entries, at, safe)
    ensures forall f <- FilesIn(entries, at) :: safe(f.path)
    decreases entries
  {
    if entries != [] {
      FilesAreSafe(entries[1..], at, safe);
      if entries[0].Directory? {
        FilesAreSafe(entries[0].entries, at + [entries[0].name], safe);
      }
    }
  }

  lemma ListingLists(files: seq<Found>)
    requires Named(files)
    ensures Lists(ListingOf(files), EvidenceOf(files)) && IsTree(EvidenceOf(files))
  {
    NamesAreDistinct(files);
    forall p ensures p in ListingOf(files) <==> p in EvidenceOf(files) {
      if p in ListingOf(files) {
        var i :| 0 <= i < |files| && ListingOf(files)[i] == p;
        assert files[i] in files;
      }
      if p in EvidenceOf(files) {
        var f :| f in files && NameOf(f) == p;
        var i :| 0 <= i < |files| && files[i] == f;
        assert ListingOf(files)[i] == p;
      }
    }
    forall p, q | p in EvidenceOf(files) && q in EvidenceOf(files) && p != q ensures !(PathOf(p) <= PathOf(q)) {
      TwoNames(files, p, q);
    }
  }

  lemma TwoNames(files: seq<Found>, p: string, q: string)
    requires Named(files) && p in EvidenceOf(files) && q in EvidenceOf(files) && p != q
    ensures !(PathOf(p) <= PathOf(q))
  {
    var f :| f in files && NameOf(f) == p;
    var g :| g in files && NameOf(g) == q;
    var i :| 0 <= i < |files| && files[i] == f;
    var j :| 0 <= j < |files| && files[j] == g;
    NamesArePaths(f);
    NamesArePaths(g);
    assert !(files[i].path <= files[j].path);
  }

  lemma MembersAreSafe(database: Bytes, root: Root)
    requires Walkable(root) && Named(FilesOf(root))
    requires Lists(ListingOf(FilesOf(root)), EvidenceOf(FilesOf(root)))
    ensures forall m <- MembersOf(database, root)[1..] :: SafeMember(m.name)
  {
    var files, members := FilesOf(root), MembersOf(database, root);
    var paths := Sorted(ListingOf(files));
    FilesAreSafe(EntriesOf(root), [], SafePath);
    forall i | 1 <= i < |members| ensures SafeMember(members[i].name) {
      assert paths[i - 1] in paths && paths[i - 1] in ListingOf(files);
      var k :| 0 <= k < |files| && ListingOf(files)[k] == paths[i - 1];
      assert files[k] in files && SafePath(files[k].path);
      assert members[i].name == MemberAt(files[k].path);
    }
  }

  /** A backup is published exactly when the evidence can be walked and everything fits, and
      it is then what verification accepts. */
  method CreateBackup(f: Format, database: Bytes, root: Root) returns (r: Result<Archive, BackupError>)
    requires WellNamed(EntriesOf(root))
    ensures r.Ok? <==> Walkable(root) && Fits(f, MembersOf(database, root))
    ensures r.Ok? ==> Verified(f, r.value)
    ensures r.Ok? ==> var members := MembersOf(database, root); r.value == Archive(members, Records(f, members))
  {
    if |database| > MAX_DATABASE_BYTES {
      return Err(DatabaseTooLarge);
    }
    var found := EvidenceFiles(root);
    if found.Err? {
      return Err(found.error);
    }
    TreeIsNamed(EntriesOf(root));
    OrderIsNoMatter(FilesOf(root), found.value);
    ListingLists(FilesOf(root));
    ListingLists(found.value);
    MembersAreSafe(database, root);
    SameSources(database, EvidenceOf(found.value), ListingOf(found.value), ListingOf(FilesOf(root)));
    r := WriteBackup(f, database, EvidenceOf(found.value), ListingOf(found.value));
  }

  lemma SameSources(database: Bytes, evidence: map<string, Bytes>, listing: seq<string>, other: seq<string>)
    requires Lists(listing, evidence) && Lists(other, evidence) && Sorted(listing) == Sorted(other)
    ensures Sources(database, evidence, listing) == Sources(database, evidence, other)
  {
  }

  /** Whatever can be backed up is extracted byte for byte, and nothing else with it. */
  method BackupAndExtract(f: Format, database: Bytes, root: Root)
    returns (r: Result<Files, BackupError>, ghost archive: Archive)
    requires WellNamed(EntriesOf(root))
    ensures r.Ok? <==> Walkable(root) && Fits(f, MembersOf(database, root))
    ensures r.Ok? ==> Holds(r.value, database, EvidenceOf(FilesOf(root)))
    ensures r.Ok? ==> Verified(f, archive) && Extracted(r.value, archive.members, archive.records)
  {
    archive := Archive([], []);
    var backup := CreateBackup(f, database, root);
    if backup.Err? {
      return Err(backup.error), archive;
    }
    archive := backup.value;
    var files := FilesOf(root);
    TreeIsNamed(EntriesOf(root));
    ListingLists(files);
    SourcesAreTree(f, database, EvidenceOf(files), ListingOf(files));
    r := Extract(f, backup.value);
    ExtractedHolds(f, r.value, database, EvidenceOf(files), ListingOf(files));
  }
}
