/**
 * Writing a backup archive, verifying it and extracting it again.
 *
 * The archive is its members and the file records of its manifest. Hashing and the size of
 * the manifest's text are parameters; names are ASCII.
 */
module BackupArchive {
  import opened AsciiText
  import opened SetSizes

  type Bytes = seq<bv8>
  type Path = seq<string>

  datatype Member = Member(name: string, content: Bytes)
  datatype FileRecord = FileRecord(path: string, size: nat, digest: nat)
  datatype Archive = Archive(members: seq<Member>, records: seq<FileRecord>)
  datatype Format = Format(hash: Bytes -> nat, manifestSize: seq<FileRecord> -> nat)
  datatype BackupError =
    | DatabaseTooLarge
    | IrregularEntry | TooDeep | TooManyDirectories | TooManyFiles | UnsafeName | Aliases
    | TooLarge | NotVerified | Conflict

  const DATABASE_MEMBER := "database/reddock.db"
  const MANIFEST_NAME := "manifest.json"
  const MAX_ENTRIES: nat := 100_000
  const MAX_MANIFEST_BYTES: nat := 0x10_0000
  const MAX_UNCOMPRESSED_BYTES: nat := 0x1_0000_0000
  const MAX_DATABASE_BYTES: nat := 0x8000_0000

  // ---- names ------------------------------------------------------------------------

  const RESERVED: set<string> := {
    "aux", "con", "nul", "prn", "conin$", "conout$",
    "com1", "com2", "com3", "com4", "com5", "com6", "com7", "com8", "com9",
    "lpt1", "lpt2", "lpt3", "lpt4", "lpt5", "lpt6", "lpt7", "lpt8", "lpt9"}

  predicate SafePart(part: string) {
    && part !in {"", ".", ".."} && |part| <= 255 && part[|part| - 1] !in {' ', '.'}
    && FoldAll(part[..IndexOf(part, {'.'})]) !in RESERVED
    && forall c <- part :: c >= ' ' && c != 127 as char
  }

  predicate SafeMember(name: string) {
    && name != "" && |name| <= 1024
    && (forall c <- name :: c !in {'\\', ':', '<', '>', '"', '|', '?', '*'})
    && forall part <- PathOf(name) :: SafePart(part)
  }

  /** The parts of a member name, which are its path below the staging directory. */
  function PathOf(name: string): Path { SplitAt(name, '/') }

  /** Distinct names are distinct paths. */
  lemma PathsAreNames(name: string, other: string)
    ensures PathOf(name) == PathOf(other) <==> name == other
  {
    JoinOfSplit(name, '/');
    JoinOfSplit(other, '/');
  }

  /** Where a path leads when its parts are followed from a directory. */
  function Resolve(at: Path, parts: Path): Path
    decreases |parts|
  {
    if parts == [] then at
    else
      var next := if parts[0] == "" || parts[0] == "." then at
                  else if parts[0] == ".." then (if at == [] then [] else at[..|at| - 1])
                  else at + [parts[0]];
      Resolve(next, parts[1..])
  }

  lemma {:induction false} PlainPartsDescend(at: Path, parts: Path)
    requires forall part <- parts :: part !in {"", ".", ".."}
    ensures Resolve(at, parts) == at + parts
    decreases |parts|
  {
    if parts != [] {
      assert parts[0] in parts && forall part <- parts[1..] :: part in parts;
      PlainPartsDescend(at + [parts[0]], parts[1..]);
      assert at + [parts[0]] + parts[1..] == at + parts;
    }
  }

  /** A safe member leads to its own path below the staging directory, and nowhere else. */
  lemma SafeMemberStaysBelow(staging: Path, name: string)
    requires SafeMember(name)
    ensures Resolve(staging, PathOf(name)) == staging + PathOf(name) && PathOf(name) != []
  {
    PlainPartsDescend(staging, PathOf(name));
  }

  function EvidenceMember(path: string): string { "evidence/" + path }

  lemma EvidencePath(path: string)
    ensures PathOf(EvidenceMember(path)) == ["evidence"] + PathOf(path)
  {
    FirstPart("evidence", '/', path);
    assert EvidenceMember(path) == "evidence" + ['/'] + path;
  }

  // ---- order ------------------------------------------------------------------------

  /** By code point, a prefix first. */
  predicate Before(a: string, b: string) {
    b != "" && (a == "" || a[0] < b[0] || (a[0] == b[0] && Before(a[1..], b[1..])))
  }

  lemma {:induction false} OrderIsTotal(a: string, b: string)
    ensures a == b || Before(a, b) || Before(b, a)
    ensures !(Before(a, b) && Before(b, a)) && !Before(a, a)
    decreases |a|
  {
    if a != "" && b != "" {
      OrderIsTotal(a[1..], b[1..]);
      assert a == [a[0]] + a[1..] && b == [b[0]] + b[1..];
    }
    if a != "" {
      OrderIsTotal(a[1..], a[1..]);
    }
  }

  lemma {:induction false} OrderIsTransitive(a: string, b: string, c: string)
    requires Before(a, b) && Before(b, c)
    ensures Before(a, c)
    decreases |a|
  {
    if a != "" && a[0] == b[0] && b[0] == c[0] {
      OrderIsTransitive(a[1..], b[1..], c[1..]);
    }
  }

  predicate Ascending(names: seq<string>) {
    forall i, j | 0 <= i < j < |names| :: Before(names[i], names[j])
  }

  /** Names in ascending order are determined by which they are. */
  lemma {:induction false} AscendingIsUnique(names: seq<string>, others: seq<string>)
    requires Ascending(names) && Ascending(others) && forall n :: n in names <==> n in others
    ensures names == others
  {
    assert |names| > 0 ==> names[0] in names;
    assert |others| > 0 ==> others[0] in others;
    if names != [] {
      FirstIsLeast(names, others[0]);
      FirstIsLeast(others, names[0]);
      OrderIsTotal(names[0], others[0]);
      RestIsRest(names, others);
      RestIsRest(others, names);
      AscendingIsUnique(names[1..], others[1..]);
      assert names == [names[0]] + names[1..] && others == [others[0]] + others[1..];
    }
  }

  lemma FirstIsLeast(names: seq<string>, name: string)
    requires names != [] && Ascending(names) && name in names
    ensures names[0] == name || Before(names[0], name)
  {
  }

  lemma RestIsRest(names: seq<string>, others: seq<string>)
    requires names != [] && others != [] && names[0] == others[0] && Ascending(names)
    requires forall n <- names :: n in others
    ensures forall n <- names[1..] :: n in others[1..]
  {
    forall i | 1 <= i < |names| ensures names[i] in others[1..] {
      assert names[i] in others && Before(names[0], names[i]);
      OrderIsTotal(names[0], names[i]);
    }
  }

  lemma AscendingIsDistinct(names: seq<string>)
    requires Ascending(names)
    ensures Distinct(names)
  {
    forall i, j | 0 <= i < j < |names| ensures names[i] != names[j] {
      OrderIsTotal(names[i], names[i]);
    }
  }

  function Insert(name: string, names: seq<string>): (r: seq<string>)
    ensures forall n :: n in r <==> n == name || n in names
    ensures |r| == |names| + 1
  {
    if names == [] || Before(name, names[0]) then [name] + names
    else [names[0]] + Insert(name, names[1..])
  }

  function Sorted(names: seq<string>): (r: seq<string>)
    ensures forall n :: n in r <==> n in names
    ensures |r| == |names|
  {
    if names == [] then [] else Insert(names[0], Sorted(names[1..]))
  }

  lemma {:induction false} InsertSorts(name: string, names: seq<string>)
    requires Ascending(names) && name !in names
    ensures Ascending(Insert(name, names))
  {
    if names != [] {
      OrderIsTotal(name, names[0]);
      if Before(name, names[0]) {
        forall i | 1 <= i < |names| ensures Before(name, names[i]) {
          OrderIsTransitive(name, names[0], names[i]);
        }
      } else {
        var rest := Insert(name, names[1..]);
        InsertSorts(name, names[1..]);
        forall i | 0 <= i < |rest| ensures Before(names[0], rest[i]) {
          assert rest[i] in rest && (rest[i] == name || rest[i] in names[1..]);
        }
        assert Insert(name, names) == [names[0]] + rest;
      }
    }
  }

  lemma {:induction false} SortedIsAscending(names: seq<string>)
    requires Distinct(names)
    ensures Ascending(Sorted(names))
  {
    if names != [] {
      SortedIsAscending(names[1..]);
      InsertSorts(names[0], Sorted(names[1..]));
    }
  }

  // ---- verification -----------------------------------------------------------------

  predicate Aliased(names: seq<string>) {
    exists i, j | 0 <= i < j < |names| :: FoldAll(names[i]) == FoldAll(names[j])
  }

  function NamesOf(a: Archive): (names: seq<string>)
    ensures |names| == |a.members| && forall i | 0 <= i < |names| :: names[i] == a.members[i].name
  {
    seq(|a.members|, i requires 0 <= i < |a.members| => a.members[i].name)
  }

  function RecordedNames(records: seq<FileRecord>): (names: seq<string>)
    ensures |names| == |records| && forall i | 0 <= i < |names| :: names[i] == records[i].path
  {
    seq(|records|, i requires 0 <= i < |records| => records[i].path)
  }

  function TotalSize(records: seq<FileRecord>): nat {
    if records == [] then 0 else TotalSize(records[..|records| - 1]) + records[|records| - 1].size
  }

  predicate RecordOk(r: FileRecord) {
    && SafeMember(r.path) && (r.path == DATABASE_MEMBER || StartsWith(r.path, "evidence/"))
    && (r.path == DATABASE_MEMBER ==> r.size <= MAX_DATABASE_BYTES)
  }

  predicate ManifestOk(f: Format, a: Archive) {
    var names, recorded := NamesOf(a), RecordedNames(a.records);
    && |names| <= MAX_ENTRIES && MANIFEST_NAME !in names
    && Distinct(names) && !Aliased(names + [MANIFEST_NAME]) && (forall n <- names :: SafeMember(n))
    && f.manifestSize(a.records) <= MAX_MANIFEST_BYTES
    && 1 <= |a.records| <= MAX_ENTRIES && (forall r <- a.records :: RecordOk(r))
    && TotalSize(a.records) <= MAX_UNCOMPRESSED_BYTES
    && DATABASE_MEMBER in recorded && Ascending(recorded) && !Aliased(recorded)
    && (forall n <- names :: n in recorded) && (forall n <- recorded :: n in names)
  }

  /** Each record describes the member of its name. */
  ghost predicate Verified(f: Format, a: Archive) {
    && ManifestOk(f, a)
    && forall r, m | r in a.records && m in a.members && r.path == m.name ::
         r.size == |m.content| && r.digest == f.hash(m.content)
  }

  /** With a hash that never collides, the manifest alone decides the contents. */
  lemma ManifestDecidesContents(f: Format, a: Archive, b: Archive, m: Member)
    requires Verified(f, a) && Verified(f, b) && a.records == b.records
    requires forall x, y :: f.hash(x) == f.hash(y) ==> x == y
    ensures m in a.members <==> m in b.members
  {
    if m in a.members {
      SameMember(f, a, b, m);
    }
    if m in b.members {
      SameMember(f, b, a, m);
    }
  }

  lemma SameMember(f: Format, a: Archive, b: Archive, m: Member)
    requires Verified(f, a) && Verified(f, b) && a.records == b.records && m in a.members
    requires forall x, y :: f.hash(x) == f.hash(y) ==> x == y
    ensures m in b.members
  {
    var i :| 0 <= i < |a.members| && a.members[i] == m;
    assert NamesOf(a)[i] in NamesOf(a) && m.name in RecordedNames(a.records);
    var k :| 0 <= k < |a.records| && RecordedNames(a.records)[k] == m.name;
    assert m.name in NamesOf(b);
    var j :| 0 <= j < |b.members| && NamesOf(b)[j] == m.name;
    var n, r := b.members[j], a.records[k];
    assert n in b.members && r in a.records && r in b.records;
    assert f.hash(m.content) == f.hash(n.content);
  }
}
