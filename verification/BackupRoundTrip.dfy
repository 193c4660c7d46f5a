/** A backup restores to the very files it was made from. */
module BackupRoundTrip {
  import opened Wrappers
  import opened AsciiText
  import opened SetSizes
  import opened BackupArchive

  type Files = map<Path, Bytes>

  // ---- writing ----------------------------------------------------------------------

  function Recorded(f: Format, m: Member): FileRecord {
    FileRecord(m.name, |m.content|, f.hash(m.content))
  }

  function Records(f: Format, members: seq<Member>): (records: seq<FileRecord>)
    ensures |records| == |members| && forall i | 0 <= i < |records| :: records[i] == Recorded(f, members[i])
  {
    seq(|members|, i requires 0 <= i < |members| => Recorded(f, members[i]))
  }

  /** The members of a backup: the database, then the evidence in the order of its names. */
  function Sources(database: Bytes, evidence: map<string, Bytes>, listing: seq<string>): (members: seq<Member>)
    requires forall p <- listing :: p in evidence
    ensures |members| == 1 + |listing| && members[0] == Member(DATABASE_MEMBER, database)
    ensures forall i | 1 <= i < |members| :: members[i].name == EvidenceMember(Sorted(listing)[i - 1])
  {
    var paths := Sorted(listing);
    [Member(DATABASE_MEMBER, database)]
    + seq(|paths|, i requires 0 <= i < |paths| =>
        assert paths[i] in paths;
        Member(EvidenceMember(paths[i]), evidence[paths[i]]))
  }

  ghost predicate Lists(listing: seq<string>, evidence: map<string, Bytes>) {
    Distinct(listing) && forall p :: p in listing <==> p in evidence
  }

  /** What the source files must satisfy for a backup of them to be published. */
  predicate Fits(f: Format, members: seq<Member>) {
    && members != [] && |members[0].content| <= MAX_DATABASE_BYTES
    && (forall m <- members[1..] :: SafeMember(m.name))
    && !Aliased(Names(members[1..])) && |members| <= MAX_ENTRIES
    && TotalSize(Records(f, members)) <= MAX_UNCOMPRESSED_BYTES
    && f.manifestSize(Records(f, members)) <= MAX_MANIFEST_BYTES
  }

  function Names(members: seq<Member>): (names: seq<string>)
    ensures |names| == |members| && forall i | 0 <= i < |names| :: names[i] == members[i].name
  {
    seq(|members|, i requires 0 <= i < |members| => members[i].name)
  }

  lemma SourcesAscend(database: Bytes, evidence: map<string, Bytes>, listing: seq<string>)
    requires Lists(listing, evidence)
    ensures Ascending(Names(Sources(database, evidence, listing)))
  {
    var names := Names(Sources(database, evidence, listing));
    var paths := Sorted(listing);
    SortedIsAscending(listing);
    forall i, j | 0 <= i < j < |names| ensures Before(names[i], names[j]) {
      if i == 0 {
        assert names[0][0] == 'd' && names[j][0] == 'e';
      } else {
        SamePrefix("evidence/", paths[i - 1], paths[j - 1]);
      }
    }
  }

  lemma {:induction false} SamePrefix(prefix: string, a: string, b: string)
    requires Before(a, b)
    ensures Before(prefix + a, prefix + b)
    decreases |prefix|
  {
    if prefix == "" {
      assert prefix + a == a && prefix + b == b;
    } else {
      SamePrefix(prefix[1..], a, b);
      assert (prefix + a)[1..] == prefix[1..] + a && (prefix + b)[1..] == prefix[1..] + b;
    }
  }

  lemma DatabasePath()
    ensures PathOf(DATABASE_MEMBER) == ["database", "reddock.db"]
  {
    var parts := ["database", "reddock.db"];
    assert parts[1..] == ["reddock.db"];
    assert Join(parts, '/') == DATABASE_MEMBER;
    SplitOfJoin(parts, '/');
  }

  lemma DatabaseIsSafe()
    ensures SafeMember(DATABASE_MEMBER)
  {
    DatabasePath();
    DatabaseLetters(DATABASE_MEMBER);
    SafeFromPath(DATABASE_MEMBER);
  }

  predicate Plain(c: char) { 'a' <= c <= 'z' || c == '.' || c == '/' }

  lemma DatabaseLetters(name: string)
    requires name == DATABASE_MEMBER
    ensures |name| == 19 && forall i | 0 <= i < |name| :: Plain(name[i])
  {
    PlainJoined("database", "/");
    PlainJoined("database/", "reddock.db");
  }

  lemma PlainJoined(a: string, b: string)
    requires (forall i | 0 <= i < |a| :: Plain(a[i])) && (forall i | 0 <= i < |b| :: Plain(b[i]))
    ensures forall i | 0 <= i < |a + b| :: Plain((a + b)[i])
  {
  }

  lemma SafeFromPath(name: string)
    requires 1 <= |name| <= 1024 && PathOf(name) == ["database", "reddock.db"]
    requires forall i | 0 <= i < |name| :: Plain(name[i])
    ensures SafeMember(name)
  {
    PartIsSafe("database", 8);
    PartIsSafe("reddock.db", 7);
  }

  lemma PartIsSafe(part: string, stem: nat)
    requires (part == "database" && stem == 8) || (part == "reddock.db" && stem == 7)
    ensures SafePart(part)
  {
    IndexOfIs(part, {'.'}, stem);
    assert FoldAll(part[..stem])[0] == part[0];
  }

  lemma FoldedDiffer(s: string, t: string)
    requires s != "" && t != "" && Fold(s[0]) != Fold(t[0])
    ensures FoldAll(s) != FoldAll(t)
  {
    assert FoldAll(s)[0] != FoldAll(t)[0];
  }

  /** The database first, then evidence. */
  predicate Shaped(members: seq<Member>) {
    && members != [] && members[0].name == DATABASE_MEMBER
    && forall i | 1 <= i < |members| :: StartsWith(members[i].name, "evidence/")
  }

  lemma FirstLetters(members: seq<Member>)
    requires Shaped(members)
    ensures members[0].name[0] == 'd' && MANIFEST_NAME[0] == 'm'
    ensures forall i | 1 <= i < |members| :: members[i].name != "" && members[i].name[0] == 'e'
  {
    forall i | 1 <= i < |members| ensures members[i].name != "" && members[i].name[0] == 'e' {
      assert StartsWith(members[i].name, "evidence/") && "evidence/"[0] == 'e';
    }
  }

  /** The names in a backup never collide, given that the evidence names do not. */
  lemma NamesDoNotCollide(members: seq<Member>)
    requires Shaped(members) && !Aliased(Names(members[1..]))
    ensures !Aliased(Names(members) + [MANIFEST_NAME]) && !Aliased(Names(members))
  {
    var names := Names(members) + [MANIFEST_NAME];
    FirstLetters(members);
    forall i, j | 0 <= i < j < |names| ensures FoldAll(names[i]) != FoldAll(names[j]) {
      if i >= 1 && j < |members| {
        assert Names(members[1..])[i - 1] == names[i] && Names(members[1..])[j - 1] == names[j];
      } else {
        FoldedDiffer(names[i], names[j]);
      }
    }
    assert forall i | 0 <= i < |members| :: names[i] == Names(members)[i];
  }

  lemma RecordsAreOk(f: Format, members: seq<Member>)
    requires Shaped(members) && Fits(f, members)
    ensures forall m <- members :: SafeMember(m.name) && m.name != MANIFEST_NAME && RecordOk(Recorded(f, m))
  {
    FirstLetters(members);
    DatabaseIsSafe();
    forall i | 0 <= i < |members|
      ensures SafeMember(members[i].name) && members[i].name != MANIFEST_NAME && RecordOk(Recorded(f, members[i]))
    {
      if i > 0 {
        assert members[1..][i - 1] == members[i] && members[i] in members[1..];
      }
    }
  }

  lemma RecordsDescribe(f: Format, members: seq<Member>, r: FileRecord, m: Member)
    requires Distinct(Names(members)) && r in Records(f, members) && m in members && r.path == m.name
    ensures r == Recorded(f, m)
  {
    var i :| 0 <= i < |members| && Records(f, members)[i] == r;
    var j :| 0 <= j < |members| && members[j] == m;
    assert Names(members)[i] == Names(members)[j];
  }

  /** An archive as it is written passes verification. */
  lemma WrittenIsVerified(f: Format, members: seq<Member>)
    requires Shaped(members) && Fits(f, members) && Ascending(Names(members))
    ensures Verified(f, Archive(members, Records(f, members)))
  {
    var a := Archive(members, Records(f, members));
    var names := Names(members);
    assert NamesOf(a) == names && RecordedNames(a.records) == names;
    AscendingIsDistinct(names);
    NamesDoNotCollide(members);
    RecordsAreOk(f, members);
    SafeNames(f, members);
    forall r, m | r in a.records && m in members && r.path == m.name ensures r == Recorded(f, m) {
      RecordsDescribe(f, members, r, m);
    }
  }

  lemma SafeNames(f: Format, members: seq<Member>)
    requires Shaped(members)
    requires forall m <- members :: SafeMember(m.name) && m.name != MANIFEST_NAME && RecordOk(Recorded(f, m))
    ensures var names := Names(members);
            && (forall n <- names :: SafeMember(n)) && MANIFEST_NAME !in names && DATABASE_MEMBER in names
            && (forall r <- Records(f, members) :: RecordOk(r))
  {
    var names := Names(members);
    forall i | 0 <= i < |names| ensures SafeMember(names[i]) && names[i] != MANIFEST_NAME {
      assert members[i] in members;
    }
    forall i | 0 <= i < |names| ensures RecordOk(Records(f, members)[i]) {
      assert members[i] in members;
    }
    assert names[0] == DATABASE_MEMBER;
  }

  // ---- creating ---------------------------------------------------------------------

  lemma SourcesAreShaped(database: Bytes, evidence: map<string, Bytes>, listing: seq<string>)
    requires Lists(listing, evidence)
    ensures Shaped(Sources(database, evidence, listing))
    ensures forall m <- Sources(database, evidence, listing) ::
              m == Member(DATABASE_MEMBER, database)
              || exists p <- listing :: m == Member(EvidenceMember(p), evidence[p])
    ensures Member(DATABASE_MEMBER, database) in Sources(database, evidence, listing)
    ensures forall p <- listing :: Member(EvidenceMember(p), evidence[p]) in Sources(database, evidence, listing)
  {
    var members := Sources(database, evidence, listing);
    var paths := Sorted(listing);
    forall i | 0 <= i < |members|
      ensures members[i] == Member(DATABASE_MEMBER, database)
              || exists p <- listing :: members[i] == Member(EvidenceMember(p), evidence[p])
    {
      if i > 0 {
        assert paths[i - 1] in paths && paths[i - 1] in listing;
      }
    }
    assert members[0] == Member(DATABASE_MEMBER, database);
    forall p | p in listing ensures Member(EvidenceMember(p), evidence[p]) in members {
      assert p in paths;
      var i :| 0 <= i < |paths| && paths[i] == p;
      assert members[i + 1] == Member(EvidenceMember(p), evidence[p]);
    }
  }

  lemma {:induction false} TotalGrows(records: seq<FileRecord>, i: nat)
    requires i <= |records|
    ensures TotalSize(records[..i]) <= TotalSize(records)
  {
    if i < |records| {
      TotalGrows(records[..|records| - 1], i);
      assert records[..|records| - 1][..i] == records[..i];
    } else {
      assert records[..i] == records;
    }
  }

  /** Write each source within what is left of the size limit. */
  method WriteSources(f: Format, members: seq<Member>) returns (records: Option<seq<FileRecord>>)
    ensures records.Some? <==> TotalSize(Records(f, members)) <= MAX_UNCOMPRESSED_BYTES
    ensures records.Some? ==> records.value == Records(f, members)
  {
    var written: seq<FileRecord> := [];
    var total := 0;
    ghost var all := Records(f, members);
    for i := 0 to |members|
      invariant written == all[..i] && total == TotalSize(written) <= MAX_UNCOMPRESSED_BYTES
    {
      var record := Recorded(f, members[i]);
      assert all[..i + 1] == written + [record] && (written + [record])[..i] == written;
      if record.size > MAX_UNCOMPRESSED_BYTES - total {
        TotalGrows(all, i + 1);
        return None;
      }
      written := written + [record];
      total := total + record.size;
    }
    assert all[..|members|] == all;
    records := Some(written);
  }

  /** A backup is published exactly when its sources fit, and then it verifies. */
  method WriteBackup(f: Format, database: Bytes, evidence: map<string, Bytes>, listing: seq<string>)
    returns (r: Result<Archive, BackupError>)
    requires Lists(listing, evidence) && |database| <= MAX_DATABASE_BYTES
    requires forall m <- Sources(database, evidence, listing)[1..] :: SafeMember(m.name)
    ensures r.Ok? <==> Fits(f, Sources(database, evidence, listing))
    ensures r.Ok? ==> Verified(f, r.value)
    ensures r.Ok? ==> var members := Sources(database, evidence, listing);
                      r.value == Archive(members, Records(f, members))
  {
    var members := Sources(database, evidence, listing);
    if Aliased(Names(members[1..])) {
      return Err(Aliases);
    }
    if |members| > MAX_ENTRIES {
      return Err(TooManyFiles);
    }
    var records := WriteSources(f, members);
    if records.None? {
      return Err(TooLarge);
    }
    if f.manifestSize(records.value) > MAX_MANIFEST_BYTES {
      return Err(NotVerified);
    }
    SourcesAreVerified(f, database, evidence, listing);
    r := Ok(Archive(members, records.value));
  }

  lemma SourcesAreVerified(f: Format, database: Bytes, evidence: map<string, Bytes>, listing: seq<string>)
    requires Lists(listing, evidence) && Fits(f, Sources(database, evidence, listing))
    ensures var members := Sources(database, evidence, listing); Verified(f, Archive(members, Records(f, members)))
  {
    SourcesAscend(database, evidence, listing);
    SourcesAreShaped(database, evidence, listing);
    WrittenIsVerified(f, Sources(database, evidence, listing));
  }

  // ---- extracting -------------------------------------------------------------------

  /** No file where a file or one of its directories has to be. */
  predicate CanPlace(files: Files, path: Path) {
    forall q <- files :: !(q <= path) && !(path <= q)
  }

  /** No member's path runs through another member. */
  predicate TreeShaped(records: seq<FileRecord>) {
    forall j, k | 0 <= j < |records| && 0 <= k < |records| && j != k ::
      !(PathOf(records[j].path) <= PathOf(records[k].path))
  }

  function ContentOf(members: seq<Member>, name: string): (content: Bytes)
    requires exists m <- members :: m.name == name
    ensures Member(name, content) in members
  {
    if members[0].name == name then members[0].content
    else
      assert exists m <- members[1..] :: m.name == name;
      ContentOf(members[1..], name)
  }

  lemma RecordHasMember(f: Format, a: Archive, r: FileRecord)
    requires Verified(f, a) && r in a.records
    ensures exists m <- a.members :: m.name == r.path
  {
    var k :| 0 <= k < |a.records| && a.records[k] == r;
    assert RecordedNames(a.records)[k] in NamesOf(a);
    var i :| 0 <= i < |a.members| && NamesOf(a)[i] == r.path;
    assert a.members[i] in a.members;
  }

  ghost predicate Extracted(files: Files, members: seq<Member>, records: seq<FileRecord>) {
    && (forall path <- files :: exists r <- records :: path == PathOf(r.path))
    && (forall r <- records :: PathOf(r.path) in files && Member(r.path, files[PathOf(r.path)]) in members)
  }

  ghost predicate Described(members: seq<Member>, records: seq<FileRecord>) {
    forall r <- records :: exists m <- members :: m.name == r.path
  }

  /** Place one file, unless it runs into one that is already there. */
  method Place(placed: Files, members: seq<Member>, ghost records: seq<FileRecord>, record: FileRecord)
    returns (files: Option<Files>)
    requires Extracted(placed, members, records) && TreeShaped(records)
    requires exists m <- members :: m.name == record.path
    ensures files.Some? <==> TreeShaped(records + [record])
    ensures files.Some? ==> Extracted(files.value, members, records + [record])
  {
    if !CanPlace(placed, PathOf(record.path)) {
      CannotBeTree(placed, members, records, record);
      return None;
    }
    TreeGrows(placed, members, records, record);
    var content := ContentOf(members, record.path);
    ExtractedGrows(placed, members, records, record, content);
    files := Some(placed[PathOf(record.path) := content]);
  }

  lemma NextRecord(records: seq<FileRecord>, i: nat)
    requires i < |records|
    ensures records[i] in records && records[..i + 1] == records[..i] + [records[i]]
  {
  }

  /** Place each recorded file in turn. */
  method ExtractRecords(members: seq<Member>, records: seq<FileRecord>) returns (files: Option<Files>)
    requires Described(members, records)
    ensures files.Some? <==> TreeShaped(records)
    ensures files.Some? ==> Extracted(files.value, members, records)
  {
    files := Some(map[]);
    for i := 0 to |records|
      invariant files.Some? && Extracted(files.value, members, records[..i]) && TreeShaped(records[..i])
    {
      NextRecord(records, i);
      files := Place(files.value, members, records[..i], records[i]);
      if files.None? {
        NotTreeYet(records, i + 1);
        return;
      }
    }
    assert records[..|records|] == records;
  }

  /** A verified archive extracts exactly when its paths can be the files of one tree. */
  method Extract(f: Format, a: Archive) returns (r: Result<Files, BackupError>)
    requires Verified(f, a)
    ensures r.Ok? <==> TreeShaped(a.records)
    ensures r.Ok? ==> Extracted(r.value, a.members, a.records)
  {
    forall r | r in a.records ensures exists m <- a.members :: m.name == r.path {
      RecordHasMember(f, a, r);
    }
    var files := ExtractRecords(a.members, a.records);
    r := if files.None? then Err(Conflict) else Ok(files.value);
  }

  lemma NotTreeYet(records: seq<FileRecord>, i: nat)
    requires i <= |records| && !TreeShaped(records[..i])
    ensures !TreeShaped(records)
  {
    var front := records[..i];
    var j, k :| 0 <= j < i && 0 <= k < i && j != k && PathOf(front[j].path) <= PathOf(front[k].path);
    assert PathOf(records[j].path) <= PathOf(records[k].path);
  }

  lemma CannotBeTree(files: Files, members: seq<Member>, records: seq<FileRecord>, record: FileRecord)
    requires Extracted(files, members, records) && !CanPlace(files, PathOf(record.path))
    ensures !TreeShaped(records + [record])
  {
    var path := PathOf(record.path);
    var q :| q in files && (q <= path || path <= q);
    var r :| r in records && q == PathOf(r.path);
    var j :| 0 <= j < |records| && records[j] == r;
    var more := records + [record];
    assert more[j] == r && more[|records|] == record;
  }

  lemma TreeGrows(files: Files, members: seq<Member>, records: seq<FileRecord>, record: FileRecord)
    requires Extracted(files, members, records) && CanPlace(files, PathOf(record.path)) && TreeShaped(records)
    ensures TreeShaped(records + [record])
  {
    var more := records + [record];
    forall j | 0 <= j < |records|
      ensures !(PathOf(records[j].path) <= PathOf(record.path)) && !(PathOf(record.path) <= PathOf(records[j].path))
    {
      assert records[j] in records && PathOf(records[j].path) in files;
    }
    forall j, k | 0 <= j < |more| && 0 <= k < |more| && j != k
      ensures !(PathOf(more[j].path) <= PathOf(more[k].path))
    {
      assert j < |records| ==> more[j] == records[j];
      assert k < |records| ==> more[k] == records[k];
    }
  }

  lemma ExtractedGrows(files: Files, members: seq<Member>, records: seq<FileRecord>, record: FileRecord, content: Bytes)
    requires Extracted(files, members, records) && CanPlace(files, PathOf(record.path))
    requires Member(record.path, content) in members
    ensures Extracted(files[PathOf(record.path) := content], members, records + [record])
  {
    var more := files[PathOf(record.path) := content];
    assert record in records + [record];
    forall path | path in more ensures exists r <- records + [record] :: path == PathOf(r.path) {
      if path != PathOf(record.path) {
        var r :| r in records && path == PathOf(r.path);
        assert r in records + [record];
      }
    }
    forall r | r in records ensures PathOf(r.path) in more && Member(r.path, more[PathOf(r.path)]) in members {
      assert PathOf(r.path) in files && PathOf(r.path) != PathOf(record.path);
    }
  }

  // ---- the round trip ---------------------------------------------------------------

  /** Evidence paths as a directory holds them: none is a directory of another. */
  predicate IsTree(evidence: map<string, Bytes>) {
    forall p, q | p in evidence && q in evidence && p != q :: !(PathOf(p) <= PathOf(q))
  }

  /** A database at a path, the evidence under its own directory, and nothing else. */
  ghost predicate HoldsAt(files: Files, place: Path, database: Bytes, evidence: map<string, Bytes>) {
    && place in files && files[place] == database
    && (forall p <- evidence :: ["evidence"] + PathOf(p) in files && files[["evidence"] + PathOf(p)] == evidence[p])
    && (forall path <- files :: path == place || exists p <- evidence :: path == ["evidence"] + PathOf(p))
  }

  /** The database and the evidence, in the places the data directory gives them. */
  ghost predicate Holds(files: Files, database: Bytes, evidence: map<string, Bytes>) {
    HoldsAt(files, PathOf(DATABASE_MEMBER), database, evidence)
  }

  lemma ConsPrefix(x: string, a: Path, b: Path)
    ensures [x] + a <= [x] + b <==> a <= b
  {
    assert ([x] + a)[1..] == a && ([x] + b)[1..] == b;
  }

  lemma DatabaseIsApart()
    ensures |PathOf(DATABASE_MEMBER)| > 0 && PathOf(DATABASE_MEMBER)[0] != "evidence"
  {
    DatabasePath();
    assert "database"[0] != "evidence"[0];
  }

  /** The database's path and evidence paths do not run through each other. */
  lemma PathsApart(evidence: map<string, Bytes>, paths: seq<string>, database: Path, all: seq<Path>, j: nat, k: nat)
    requires Distinct(paths) && (forall p <- paths :: p in evidence) && IsTree(evidence)
    requires |database| > 0 && database[0] != "evidence"
    requires j < |all| == 1 + |paths| && k < |all| && j != k && all[0] == database
    requires forall i | 1 <= i < |all| :: all[i] == ["evidence"] + PathOf(paths[i - 1])
    ensures !(all[j] <= all[k])
  {
    if j > 0 && k > 0 {
      assert paths[j - 1] in paths && paths[k - 1] in paths;
      ConsPrefix("evidence", PathOf(paths[j - 1]), PathOf(paths[k - 1]));
    } else {
      assert |all[j]| > 0 && |all[k]| > 0 && all[j][0] != all[k][0];
    }
  }

  /** Records named like the sources of a backup form a tree. */
  lemma RecordsAreTree(evidence: map<string, Bytes>, paths: seq<string>, records: seq<FileRecord>, database: Path)
    requires Distinct(paths) && (forall p <- paths :: p in evidence) && IsTree(evidence)
    requires |records| == 1 + |paths| && PathOf(records[0].path) == database
    requires |database| > 0 && database[0] != "evidence"
    requires forall i | 1 <= i < |records| :: PathOf(records[i].path) == ["evidence"] + PathOf(paths[i - 1])
    ensures TreeShaped(records)
  {
    var all := seq(|records|, i requires 0 <= i < |records| => PathOf(records[i].path));
    forall j, k | 0 <= j < |records| && 0 <= k < |records| && j != k
      ensures !(PathOf(records[j].path) <= PathOf(records[k].path))
    {
      PathsApart(evidence, paths, database, all, j, k);
    }
  }

  lemma SourcesAreTree(f: Format, database: Bytes, evidence: map<string, Bytes>, listing: seq<string>)
    requires Lists(listing, evidence) && IsTree(evidence)
    ensures TreeShaped(Records(f, Sources(database, evidence, listing)))
  {
    var members := Sources(database, evidence, listing);
    var records := Records(f, members);
    var paths := Sorted(listing);
    SortedIsAscending(listing);
    AscendingIsDistinct(paths);
    forall i | 1 <= i < |records| ensures PathOf(records[i].path) == ["evidence"] + PathOf(paths[i - 1]) {
      EvidencePath(paths[i - 1]);
      assert records[i].path == members[i].name;
    }
    DatabaseIsApart();
    RecordsAreTree(evidence, paths, records, PathOf(DATABASE_MEMBER));
  }

  lemma MembersArePlaced(f: Format, files: Files, members: seq<Member>, m: Member)
    requires Extracted(files, members, Records(f, members)) && m in members
    ensures PathOf(m.name) in files && Member(m.name, files[PathOf(m.name)]) in members
  {
    var i :| 0 <= i < |members| && members[i] == m;
    assert Records(f, members)[i] in Records(f, members);
  }

  lemma PlacedAreMembers(f: Format, files: Files, members: seq<Member>, path: Path) returns (m: Member)
    requires Extracted(files, members, Records(f, members)) && path in files
    ensures m in members && path == PathOf(m.name)
  {
    var r :| r in Records(f, members) && path == PathOf(r.path);
    var i :| 0 <= i < |members| && Records(f, members)[i] == r;
    m := members[i];
  }

  lemma ExtractedHolds(f: Format, files: Files, database: Bytes, evidence: map<string, Bytes>, listing: seq<string>)
    requires Lists(listing, evidence)
    requires var members := Sources(database, evidence, listing); Extracted(files, members, Records(f, members))
    ensures Holds(files, database, evidence)
  {
    var members := Sources(database, evidence, listing);
    SourcesAreShaped(database, evidence, listing);
    MembersArePlaced(f, files, members, Member(DATABASE_MEMBER, database));
    OneContent(database, evidence, listing, DATABASE_MEMBER, files[PathOf(DATABASE_MEMBER)]);
    forall p | p in evidence
      ensures ["evidence"] + PathOf(p) in files && files[["evidence"] + PathOf(p)] == evidence[p]
    {
      EvidenceHolds(f, files, database, evidence, listing, p);
    }
    forall path | path in files
      ensures path == PathOf(DATABASE_MEMBER) || exists p <- evidence :: path == ["evidence"] + PathOf(p)
    {
      NothingElse(f, files, database, evidence, listing, path);
    }
  }

  lemma EvidenceHolds(f: Format, files: Files, database: Bytes, evidence: map<string, Bytes>, listing: seq<string>,
                      p: string)
    requires Lists(listing, evidence) && p in evidence
    requires var members := Sources(database, evidence, listing); Extracted(files, members, Records(f, members))
    ensures ["evidence"] + PathOf(p) in files && files[["evidence"] + PathOf(p)] == evidence[p]
  {
    SourcesAreShaped(database, evidence, listing);
    EvidencePath(p);
    MembersArePlaced(f, files, Sources(database, evidence, listing), Member(EvidenceMember(p), evidence[p]));
    OneContent(database, evidence, listing, EvidenceMember(p), files[PathOf(EvidenceMember(p))]);
  }

  lemma NothingElse(f: Format, files: Files, database: Bytes, evidence: map<string, Bytes>, listing: seq<string>,
                    path: Path)
    requires Lists(listing, evidence) && path in files
    requires var members := Sources(database, evidence, listing); Extracted(files, members, Records(f, members))
    ensures path == PathOf(DATABASE_MEMBER) || exists p <- evidence :: path == ["evidence"] + PathOf(p)
  {
    SourcesAreShaped(database, evidence, listing);
    var m := PlacedAreMembers(f, files, Sources(database, evidence, listing), path);
    if m.name != DATABASE_MEMBER {
      var p :| p in listing && m == Member(EvidenceMember(p), evidence[p]);
      EvidencePath(p);
      assert p in evidence && path == ["evidence"] + PathOf(p);
    }
  }

  lemma OneContent(database: Bytes, evidence: map<string, Bytes>, listing: seq<string>, name: string, content: Bytes)
    requires Lists(listing, evidence) && Member(name, content) in Sources(database, evidence, listing)
    ensures name == DATABASE_MEMBER ==> content == database
    ensures forall p | p in evidence && name == EvidenceMember(p) :: content == evidence[p]
  {
    SourcesAreShaped(database, evidence, listing);
    var m := Member(name, content);
    forall p | p in evidence && name == EvidenceMember(p) ensures content == evidence[p] {
      assert name[0] == 'e' && DATABASE_MEMBER[0] == 'd';
      var q :| q in listing && m == Member(EvidenceMember(q), evidence[q]);
      assert EvidenceMember(p)[9..] == p && EvidenceMember(q)[9..] == q;
    }
    if name == DATABASE_MEMBER {
      forall p | p in listing ensures EvidenceMember(p) != name {
        assert EvidenceMember(p)[0] == 'e' && DATABASE_MEMBER[0] == 'd';
      }
    }
  }
}
