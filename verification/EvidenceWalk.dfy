/** Finding the files of the evidence directory: a walk with a stack of directories to visit. */
module EvidenceWalk {
  import opened Wrappers
  import opened AsciiText
  import opened SetSizes
  import opened BackupArchive

  /** A directory entry; `Other` is a link or anything else that is no regular file. */
  datatype Entry =
    | File(name: string, content: Bytes)
    | Directory(name: string, entries: seq<Entry>)
    | Other(name: string)

  datatype Root = Missing | Tree(entries: seq<Entry>) | Unusable

  datatype Found = Found(path: Path, content: Bytes)

  const MAX_DEPTH: nat := 24
  const MAX_DIRECTORIES: nat := 20_000

  function MemberAt(path: Path): string
    requires path != []
  {
    EvidenceMember(Join(path, '/'))
  }

  // ---- what a walk should find --------------------------------------------------------

  function FilesIn(entries: seq<Entry>, at: Path): seq<Found>
    decreases entries
  {
    if entries == [] then [] else FilesAt(entries[0], at) + FilesIn(entries[1..], at)
  }

  function FilesAt(entry: Entry, at: Path): seq<Found>
    decreases entry
  {
    match entry
    case File(name, content) => [Found(at + [name], content)]
    case Directory(name, inner) => FilesIn(inner, at + [name])
    case Other(_) => []
  }

  function DirectoriesIn(entries: seq<Entry>): nat
    decreases entries
  {
    if entries == [] then 0
    else (if entries[0].Directory? then 1 + DirectoriesIn(entries[0].entries) else 0) + DirectoriesIn(entries[1..])
  }

  predicate SafePath(path: Path) { path != [] && SafeMember(MemberAt(path)) }

  /** Only regular files at safe paths, and directories not too deep. */
  predicate Regular(entries: seq<Entry>, at: Path, safe: Path -> bool)
    decreases entries
  {
    entries == [] || (RegularEntry(entries[0], at, safe) && Regular(entries[1..], at, safe))
  }

  predicate RegularEntry(entry: Entry, at: Path, safe: Path -> bool)
    decreases entry
  {
    match entry
    case File(name, _) => safe(at + [name])
    case Directory(name, inner) => |at| < MAX_DEPTH && Regular(inner, at + [name], safe)
    case Other(_) => false
  }

  function EntriesOf(root: Root): seq<Entry> { if root.Tree? then root.entries else [] }

  /** What the walk accepts. */
  predicate Walkable(root: Root) {
    && !root.Unusable? && Regular(EntriesOf(root), [], SafePath)
    && 1 + DirectoriesIn(EntriesOf(root)) <= MAX_DIRECTORIES
    && |FilesIn(EntriesOf(root), [])| < MAX_ENTRIES
  }

  // ---- the stack ----------------------------------------------------------------------

  /** A directory still to be read. */
  datatype Pending = Pending(entries: seq<Entry>, at: Path)

  function Nodes(entries: seq<Entry>): nat
    decreases entries
  {
    if entries == [] then 0
    else 1 + (if entries[0].Directory? then 1 + Nodes(entries[0].entries) else 0) + Nodes(entries[1..])
  }

  function NodesLeft(stack: seq<Pending>): nat {
    if stack == [] then 0 else NodesLeft(stack[..|stack| - 1]) + 1 + Nodes(stack[|stack| - 1].entries)
  }

  function FilesLeft(stack: seq<Pending>): multiset<Found> {
    if stack == [] then multiset{}
    else
      var top := stack[|stack| - 1];
      FilesLeft(stack[..|stack| - 1]) + multiset(FilesIn(top.entries, top.at))
  }

  function DirectoriesLeft(stack: seq<Pending>): nat {
    if stack == [] then 0
    else DirectoriesLeft(stack[..|stack| - 1]) + DirectoriesIn(stack[|stack| - 1].entries)
  }

  predicate RegularLeft(stack: seq<Pending>, safe: Path -> bool) {
    forall i | 0 <= i < |stack| :: Regular(stack[i].entries, stack[i].at, safe)
  }

  /** What was found and what is left make up the whole tree. */
  ghost predicate Whole(entries: seq<Entry>, safe: Path -> bool, found: seq<Found>, directories: nat,
                        stack: seq<Pending>) {
    && multiset(found) + FilesLeft(stack) == multiset(FilesIn(entries, []))
    && directories + DirectoriesLeft(stack) == 1 + DirectoriesIn(entries)
    && (RegularLeft(stack, safe) <==> Regular(entries, [], safe))
  }

  lemma Push(stack: seq<Pending>, p: Pending, safe: Path -> bool)
    ensures FilesLeft(stack + [p]) == FilesLeft(stack) + multiset(FilesIn(p.entries, p.at))
    ensures DirectoriesLeft(stack + [p]) == DirectoriesLeft(stack) + DirectoriesIn(p.entries)
    ensures NodesLeft(stack + [p]) == NodesLeft(stack) + 1 + Nodes(p.entries)
    ensures RegularLeft(stack + [p], safe) <==> RegularLeft(stack, safe) && Regular(p.entries, p.at, safe)
  {
    assert (stack + [p])[..|stack|] == stack;
    if RegularLeft(stack + [p], safe) {
      forall i | 0 <= i < |stack| ensures Regular(stack[i].entries, stack[i].at, safe) {
        assert (stack + [p])[i] == stack[i];
      }
      assert (stack + [p])[|stack|] == p;
    }
  }

  lemma FileRead(entries: seq<Entry>, safe: Path -> bool, found: seq<Found>, directories: nat,
                 stack: seq<Pending>, top: Pending)
    requires top.entries != [] && top.entries[0].File? && Whole(entries, safe, found, directories, stack + [top])
    ensures var file, rest := top.entries[0], Pending(top.entries[1..], top.at);
            var one := Found(top.at + [file.name], file.content);
            && (safe(one.path) ==> Whole(entries, safe, found + [one], directories, stack + [rest]))
            && (!safe(one.path) ==> !Regular(entries, [], safe))
            && |found| < |FilesIn(entries, [])|
  {
    var file, rest := top.entries[0], Pending(top.entries[1..], top.at);
    Push(stack, top, safe);
    Push(stack, rest, safe);
    var one := Found(top.at + [file.name], file.content);
    assert FilesIn(top.entries, top.at) == [one] + FilesIn(rest.entries, rest.at);
    assert Regular(top.entries, top.at, safe) <==> safe(one.path) && Regular(rest.entries, rest.at, safe);
    assert |multiset(found) + FilesLeft(stack + [top])| == |FilesIn(entries, [])|;
  }

  lemma DirectoryRead(entries: seq<Entry>, safe: Path -> bool, found: seq<Found>, directories: nat,
                      stack: seq<Pending>, top: Pending)
    requires top.entries != [] && top.entries[0].Directory?
    requires Whole(entries, safe, found, directories, stack + [top])
    ensures var inner, rest := Pending(top.entries[0].entries, top.at + [top.entries[0].name]),
                               Pending(top.entries[1..], top.at);
            && (|top.at| < MAX_DEPTH ==> Whole(entries, safe, found, directories + 1, stack + [inner] + [rest]))
            && (|top.at| >= MAX_DEPTH ==> !Regular(entries, [], safe))
            && directories < 1 + DirectoriesIn(entries)
            && NodesLeft(stack + [inner] + [rest]) < NodesLeft(stack + [top])
  {
    var directory := top.entries[0];
    var inner, rest := Pending(directory.entries, top.at + [directory.name]), Pending(top.entries[1..], top.at);
    Push(stack, top, safe);
    Push(stack, inner, safe);
    Push(stack + [inner], rest, safe);
    assert FilesIn(top.entries, top.at) == FilesIn(inner.entries, inner.at) + FilesIn(rest.entries, rest.at);
    assert Regular(top.entries, top.at, safe) <==>
           |top.at| < MAX_DEPTH && Regular(inner.entries, inner.at, safe) && Regular(rest.entries, rest.at, safe);
  }

  lemma OtherRead(entries: seq<Entry>, safe: Path -> bool, found: seq<Found>, directories: nat,
                  stack: seq<Pending>, top: Pending)
    requires top.entries != [] && top.entries[0].Other? && Whole(entries, safe, found, directories, stack + [top])
    ensures !Regular(entries, [], safe)
  {
    Push(stack, top, safe);
    assert !RegularEntry(top.entries[0], top.at, safe);
  }

  lemma EmptyRead(entries: seq<Entry>, safe: Path -> bool, found: seq<Found>, directories: nat,
                  stack: seq<Pending>, top: Pending)
    requires top.entries == [] && Whole(entries, safe, found, directories, stack + [top])
    ensures Whole(entries, safe, found, directories, stack)
  {
    Push(stack, top, safe);
  }

  // ---- the walk -----------------------------------------------------------------------

  /** Where a walk stands between two directories. */
  datatype Progress = Progress(found: seq<Found>, directories: nat, stack: seq<Pending>)

  /** Read one directory: keep its files, and put its directories on the stack. */
  method ReadDirectory(ghost entries: seq<Entry>, p: Progress, top: Pending)
    returns (r: Result<Progress, BackupError>)
    requires Whole(entries, SafePath, p.found, p.directories, p.stack + [top])
    requires p.directories <= MAX_DIRECTORIES && |p.found| < MAX_ENTRIES
    ensures r.Err? ==> !Walkable(Tree(entries))
    ensures r.Ok? ==> var q := r.value;
                      && Whole(entries, SafePath, q.found, q.directories, q.stack)
                      && NodesLeft(q.stack) < NodesLeft(p.stack + [top])
                      && q.directories <= MAX_DIRECTORIES && |q.found| < MAX_ENTRIES
  {
    var found, stack := p.found, p.stack;
    var directories: nat := p.directories;
    assert top.entries[0..] == top.entries;
    for i := 0 to |top.entries|
      invariant Whole(entries, SafePath, found, directories, stack + [Pending(top.entries[i..], top.at)])
      invariant NodesLeft(stack + [Pending(top.entries[i..], top.at)]) <= NodesLeft(p.stack + [top])
      invariant directories <= MAX_DIRECTORIES && |found| < MAX_ENTRIES
    {
      ghost var rest := Pending(top.entries[i..], top.at);
      NextEntry(top, i);
      match top.entries[i]
      case Other(_) =>
        OtherRead(entries, SafePath, found, directories, stack, rest);
        return Err(IrregularEntry);
      case Directory(name, inner) =>
        DirectoryRead(entries, SafePath, found, directories, stack, rest);
        if |top.at| >= MAX_DEPTH {
          return Err(TooDeep);
        }
        directories := directories + 1;
        if directories > MAX_DIRECTORIES {
          return Err(TooManyDirectories);
        }
        stack := stack + [Pending(inner, top.at + [name])];
      case File(name, content) =>
        FileRead(entries, SafePath, found, directories, stack, rest);
        FileShrinks(stack, rest);
        if |found| >= MAX_ENTRIES - 1 {
          return Err(TooManyFiles);
        }
        if !SafePath(top.at + [name]) {
          return Err(UnsafeName);
        }
        found := found + [Found(top.at + [name], content)];
    }
    ghost var last := Pending(top.entries[|top.entries|..], top.at);
    EmptyRead(entries, SafePath, found, directories, stack, last);
    Push(stack, last, SafePath);
    r := Ok(Progress(found, directories, stack));
  }

  lemma NextEntry(top: Pending, i: nat)
    requires i < |top.entries|
    ensures top.entries[i..] != [] && top.entries[i..][0] == top.entries[i]
    ensures top.entries[i..][1..] == top.entries[i + 1..]
  {
  }

  lemma FileShrinks(stack: seq<Pending>, top: Pending)
    requires top.entries != []
    ensures NodesLeft(stack + [Pending(top.entries[1..], top.at)]) <= NodesLeft(stack + [top])
  {
    Push(stack, top, SafePath);
    Push(stack, Pending(top.entries[1..], top.at), SafePath);
  }

  /** All files of the evidence directory, in no particular order, unless it is not walkable. */
  method EvidenceFiles(root: Root) returns (r: Result<seq<Found>, BackupError>)
    ensures r.Ok? <==> Walkable(root)
    ensures r.Ok? ==> multiset(r.value) == multiset(FilesIn(EntriesOf(root), []))
  {
    if root.Unusable? {
      return Err(IrregularEntry);
    }
    if root.Missing? {
      return Ok([]);
    }
    ghost var entries := root.entries;
    var p := Progress([], 1, [Pending(root.entries, [])]);
    StackStarts(entries);
    while p.stack != []
      invariant Whole(entries, SafePath, p.found, p.directories, p.stack)
      invariant p.directories <= MAX_DIRECTORIES && |p.found| < MAX_ENTRIES
      decreases NodesLeft(p.stack)
    {
      var top := p.stack[|p.stack| - 1];
      var below := p.(stack := p.stack[..|p.stack| - 1]);
      assert below.stack + [top] == p.stack;
      var read := ReadDirectory(entries, below, top);
      if read.Err? {
        return Err(read.error);
      }
      p := read.value;
    }
    WalkEnds(entries, p.found, p.directories);
    r := Ok(p.found);
  }

  lemma StackStarts(entries: seq<Entry>)
    ensures Whole(entries, SafePath, [], 1, [Pending(entries, [])])
  {
    Push([], Pending(entries, []), SafePath);
    assert [] + [Pending(entries, [])] == [Pending(entries, [])];
  }

  lemma WalkEnds(entries: seq<Entry>, found: seq<Found>, directories: nat)
    requires Whole(entries, SafePath, found, directories, [])
    requires directories <= MAX_DIRECTORIES && |found| < MAX_ENTRIES
    ensures Walkable(Tree(entries)) && multiset(found) == multiset(FilesIn(entries, []))
  {
    assert RegularLeft([], SafePath);
    assert |multiset(found)| == |multiset(FilesIn(entries, []))|;
  }

  // ---- the paths of a tree --------------------------------------------------------------

  /** Names as a file system gives them: distinct in one directory, and without a slash. */
  predicate WellNamed(entries: seq<Entry>)
    decreases entries
  {
    entries == [] ||
    (&& '/' !in entries[0].name
     && (forall e <- entries[1..] :: e.name != entries[0].name)
     && (entries[0].Directory? ==> WellNamed(entries[0].entries))
     && WellNamed(entries[1..]))
  }

  predicate Under(f: Found, at: Path, name: string) {
    |f.path| > |at| && f.path[..|at|] == at && f.path[|at|] == name
  }

  lemma UnderInner(f: Found, at: Path, name: string, inner: string)
    requires Under(f, at + [name], inner)
    ensures Under(f, at, name)
  {
    var below := at + [name];
    assert f.path[..|at|] == below[..|at|] && f.path[|at|] == below[|at|];
  }

  /** Every file is under its directory, by the name of some entry. */
  lemma {:induction false} FileIsUnder(entries: seq<Entry>, at: Path, f: Found) returns (e: Entry)
    requires f in FilesIn(entries, at)
    ensures e in entries && Under(f, at, e.name)
    ensures e == entries[0] || f in FilesIn(entries[1..], at)
    decreases entries
  {
    if f in FilesIn(entries[1..], at) {
      e := FileIsUnder(entries[1..], at, f);
    } else {
      e := entries[0];
      if e.Directory? {
        var inner := FileIsUnder(e.entries, at + [e.name], f);
        UnderInner(f, at, e.name, inner.name);
      }
    }
  }

  /** No file's path runs through another file. */
  predicate Apart(files: seq<Found>) {
    forall i, j | 0 <= i < |files| && 0 <= j < |files| && i != j :: !(files[i].path <= files[j].path)
  }

  lemma OtherNamesApart(f: Found, g: Found, at: Path, name: string, other: string)
    requires Under(f, at, name) && Under(g, at, other) && name != other
    ensures !(f.path <= g.path) && !(g.path <= f.path)
  {
  }

  lemma ApartJoins(first: seq<Found>, rest: seq<Found>)
    requires Apart(first) && Apart(rest)
    requires forall f, g | f in first && g in rest :: !(f.path <= g.path) && !(g.path <= f.path)
    ensures Apart(first + rest)
  {
    var all := first + rest;
    forall i, j | 0 <= i < |all| && 0 <= j < |all| && i != j ensures !(all[i].path <= all[j].path) {
      if i < |first| && j >= |first| {
        assert all[i] in first && all[j] in rest;
      } else if i >= |first| && j < |first| {
        assert all[i] in rest && all[j] in first;
      }
    }
  }

  lemma {:induction false} FilesAreApart(entries: seq<Entry>, at: Path)
    requires WellNamed(entries)
    ensures Apart(FilesIn(entries, at))
    decreases entries
  {
    if entries != [] {
      var first, rest := FilesAt(entries[0], at), FilesIn(entries[1..], at);
      FilesAreApart(entries[1..], at);
      if entries[0].Directory? {
        FilesAreApart(entries[0].entries, at + [entries[0].name]);
      }
      forall f, g | f in first && g in rest ensures !(f.path <= g.path) && !(g.path <= f.path) {
        FirstIsUnder(entries, at, f);
        var e := FileIsUnder(entries[1..], at, g);
        OtherNamesApart(f, g, at, entries[0].name, e.name);
      }
      ApartJoins(first, rest);
      assert FilesIn(entries, at) == first + rest;
    }
  }

  lemma FirstIsUnder(entries: seq<Entry>, at: Path, f: Found)
    requires entries != [] && f in FilesAt(entries[0], at)
    ensures Under(f, at, entries[0].name)
  {
    if entries[0].Directory? {
      var inner := FileIsUnder(entries[0].entries, at + [entries[0].name], f);
      UnderInner(f, at, entries[0].name, inner.name);
    }
  }

  predicate Slashless(path: Path) {
    forall part <- path :: '/' !in part
  }

  lemma {:induction false} FilesAreSlashless(entries: seq<Entry>, at: Path)
    requires WellNamed(entries) && Slashless(at)
    ensures forall f <- FilesIn(entries, at) :: Slashless(f.path)
    decreases entries
  {
    if entries != [] {
      FilesAreSlashless(entries[1..], at);
      assert Slashless(at + [entries[0].name]);
      if entries[0].Directory? {
        FilesAreSlashless(entries[0].entries, at + [entries[0].name]);
      }
    }
  }

  // ---- the files as a map ---------------------------------------------------------------

  function NameOf(f: Found): string {
    if f.path == [] then "" else Join(f.path, '/')
  }

  function ListingOf(files: seq<Found>): (listing: seq<string>)
    ensures |listing| == |files| && forall i | 0 <= i < |files| :: listing[i] == NameOf(files[i])
  {
    seq(|files|, i requires 0 <= i < |files| => NameOf(files[i]))
  }

  function EvidenceOf(files: seq<Found>): (evidence: map<string, Bytes>)
    ensures forall p :: p in evidence <==> exists f <- files :: NameOf(f) == p
  {
    if files == [] then map[]
    else
      var last := files[|files| - 1];
      assert files == files[..|files| - 1] + [last];
      EvidenceOf(files[..|files| - 1])[NameOf(last) := last.content]
  }

  /** Files whose names are their own. */
  predicate Named(files: seq<Found>) {
    && Apart(files)
    && forall f <- files :: f.path != [] && Slashless(f.path)
  }

  lemma NamesArePaths(f: Found)
    requires f.path != [] && Slashless(f.path)
    ensures PathOf(NameOf(f)) == f.path
  {
    SplitOfJoin(f.path, '/');
  }

  lemma NamesAreDistinct(files: seq<Found>)
    requires Named(files)
    ensures Distinct(ListingOf(files))
  {
    forall i, j | 0 <= i < j < |files| ensures NameOf(files[i]) != NameOf(files[j]) {
      NamesArePaths(files[i]);
      NamesArePaths(files[j]);
      assert !(files[i].path <= files[j].path);
    }
  }

  lemma {:induction false} EvidenceGives(files: seq<Found>, f: Found)
    requires Named(files) && f in files
    ensures EvidenceOf(files)[NameOf(f)] == f.content
  {
    var n := |files| - 1;
    var last, front := files[n], files[..n];
    assert files == front + [last];
    if f != last {
      assert f in front;
      FrontIsNamed(files);
      EvidenceGives(front, f);
      NamesAreDistinct(files);
      var i :| 0 <= i < n && front[i] == f;
      assert ListingOf(files)[i] != ListingOf(files)[n];
    }
  }

  lemma FrontIsNamed(files: seq<Found>)
    requires Named(files) && files != []
    ensures Named(files[..|files| - 1])
  {
    var front := files[..|files| - 1];
    forall i, j | 0 <= i < |front| && 0 <= j < |front| && i != j ensures !(front[i].path <= front[j].path) {
      assert !(files[i].path <= files[j].path);
    }
    forall f | f in front ensures f in files {
    }
  }

  /** The order in which files are found makes no difference to what they are. */
  lemma OrderIsNoMatter(files: seq<Found>, found: seq<Found>)
    requires Named(files) && multiset(found) == multiset(files)
    ensures Named(found) && EvidenceOf(found) == EvidenceOf(files)
    ensures Sorted(ListingOf(found)) == Sorted(ListingOf(files))
  {
    SameFiles(files, found);
    FoundIsNamed(files, found);
    SameMap(files, found);
    SameOrder(files, found);
  }

  lemma SameMap(files: seq<Found>, found: seq<Found>)
    requires Named(files) && Named(found) && forall f :: f in found <==> f in files
    ensures EvidenceOf(found) == EvidenceOf(files)
  {
    forall p | p in EvidenceOf(files) ensures p in EvidenceOf(found) && EvidenceOf(found)[p] == EvidenceOf(files)[p] {
      var f :| f in files && NameOf(f) == p;
      EvidenceGives(files, f);
      EvidenceGives(found, f);
    }
    forall p | p in EvidenceOf(found) ensures p in EvidenceOf(files) {
      var f :| f in found && NameOf(f) == p;
    }
  }

  lemma SameOrder(files: seq<Found>, found: seq<Found>)
    requires Named(files) && Named(found) && forall f :: f in found <==> f in files
    ensures Sorted(ListingOf(found)) == Sorted(ListingOf(files))
  {
    NamesAreDistinct(files);
    NamesAreDistinct(found);
    SortedIsAscending(ListingOf(files));
    SortedIsAscending(ListingOf(found));
    SameListing(files, found);
    AscendingIsUnique(Sorted(ListingOf(found)), Sorted(ListingOf(files)));
  }

  lemma SameFiles(files: seq<Found>, found: seq<Found>)
    requires multiset(found) == multiset(files)
    ensures forall f :: f in found <==> f in files
  {
    forall f ensures f in found <==> f in files {
      assert f in multiset(found) <==> f in multiset(files);
    }
  }

  lemma SameListing(files: seq<Found>, found: seq<Found>)
    requires forall f :: f in found <==> f in files
    ensures forall n :: n in ListingOf(found) <==> n in ListingOf(files)
  {
    forall n ensures n in ListingOf(found) <==> n in ListingOf(files) {
      if n in ListingOf(found) {
        var i :| 0 <= i < |found| && ListingOf(found)[i] == n;
        assert found[i] in files;
        var j :| 0 <= j < |files| && files[j] == found[i];
        assert ListingOf(files)[j] == n;
      }
      if n in ListingOf(files) {
        var i :| 0 <= i < |files| && ListingOf(files)[i] == n;
        assert files[i] in found;
        var j :| 0 <= j < |found| && found[j] == files[i];
        assert ListingOf(found)[j] == n;
      }
    }
  }

  lemma {:induction false} OnceInAll(files: seq<Found>, f: Found)
    requires forall i, j | 0 <= i < j < |files| :: files[i] != files[j]
    ensures multiset(files)[f] <= 1
  {
    if files != [] {
      var n := |files| - 1;
      OnceInAll(files[..n], f);
      assert files == files[..n] + [files[n]];
      if f == files[n] {
        assert f !in files[..n] && multiset(files[..n])[f] == 0;
      }
    }
  }

  lemma TwiceCounts(files: seq<Found>, i: nat, j: nat)
    requires i < j < |files| && files[i] == files[j]
    ensures multiset(files)[files[i]] >= 2
  {
    assert files == files[..j] + [files[j]] + files[j + 1..];
    assert files[i] in files[..j] && multiset(files[..j])[files[i]] >= 1;
  }

  lemma FoundIsNamed(files: seq<Found>, found: seq<Found>)
    requires Named(files) && multiset(found) == multiset(files)
    ensures Named(found)
  {
    SameFiles(files, found);
    forall i, j | 0 <= i < |found| && 0 <= j < |found| && i != j ensures !(found[i].path <= found[j].path) {
      assert found[i] in files && found[j] in files;
      if found[i] == found[j] {
        forall k, l | 0 <= k < l < |files| ensures files[k] != files[l] {
          assert !(files[k].path <= files[l].path);
        }
        OnceInAll(files, found[i]);
        TwiceCounts(found, if i < j then i else j, if i < j then j else i);
        assert false;
      }
      var k :| 0 <= k < |files| && files[k] == found[i];
      var l :| 0 <= l < |files| && files[l] == found[j];
      assert !(files[k].path <= files[l].path);
    }
  }

  /** A tree with proper names gives files with names of their own. */
  lemma TreeIsNamed(entries: seq<Entry>)
    requires WellNamed(entries)
    ensures Named(FilesIn(entries, []))
  {
    FilesAreApart(entries, []);
    FilesAreSlashless(entries, []);
    forall f | f in FilesIn(entries, []) ensures f.path != [] {
      var e := FileIsUnder(entries, [], f);
    }
  }
}
