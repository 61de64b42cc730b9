/**
 The tree that shows why backslashes matter: a package with one archive, a file whose name holds a
 backslash, and a file at the path that this name is recorded under.
 */
module HiddenFile {
  import opened Options
  import opened Text
  import opened Sequences
  import opened Sorting
  import opened FileTree
  import opened ReleaseArtifact
  import opened ArtifactFaithfulness

  /** The names in the tree: the archive, a directory and a file in it. */
  datatype Names = Names(archive: Text, dir: Text, file: Text)

  predicate IsArchive(path: Text) { EndsWith(path, Ascii(".tgz")) }

  /** The file that is not looked at: `dir\file` is one name. */
  function Hidden(n: Names): Text {
    n.dir + [BACKSLASH] + n.file
  }

  ghost predicate Suitable(n: Names) {
    && ValidName(n.archive) && ValidName(n.dir) && ValidName(n.file)
    && BACKSLASH !in n.archive && BACKSLASH !in n.dir && BACKSLASH !in n.file
    && n.archive != PACKAGE && n.archive != MANIFEST && n.archive != n.dir
    && n.dir != PACKAGE && n.dir != MANIFEST
    && IsArchive(n.archive) && !IsArchive(n.dir + [SLASH] + n.file)
  }

  function Inner(n: Names, b: Bytes): Entries { Entry(n.file, File(b), End) }

  function Folder(n: Names, b: Bytes): Entries { Entry(n.dir, Dir(Inner(n, b)), End) }

  function WithHidden(n: Names, b: Bytes): Entries { Entry(Hidden(n), File(b), Folder(n, b)) }

  function WithArchive(n: Names, b: Bytes): Entries { Entry(n.archive, File(b), WithHidden(n, b)) }

  /** The package file, the archive, the hidden file and the file in the directory. */
  function Tree(n: Names, package: Bytes, b: Bytes): Node {
    Dir(Entry(PACKAGE, File(package), WithArchive(n, b)))
  }

  lemma PackagePlain()
    ensures ValidName(PACKAGE) && BACKSLASH !in PACKAGE && SLASH !in PACKAGE && PACKAGE != MANIFEST && !IsArchive(PACKAGE)
  {
    assert |PACKAGE| == 12 && |MANIFEST| == 20 && |Ascii(".")| == 1 && |Ascii("..")| == 2;
    var suffix := Ascii(".tgz");
    assert |suffix| == 4 && suffix[3] == 122 && PACKAGE[11] == 110;
    assert PACKAGE[8..][3] == PACKAGE[11];
  }

  lemma HiddenName(n: Names)
    requires Suitable(n)
    ensures ValidName(Hidden(n)) && Hidden(n)[|n.dir|] == BACKSLASH && BACKSLASH in Hidden(n)
    ensures Hidden(n) != PACKAGE && Hidden(n) != MANIFEST && Hidden(n) != n.archive && Hidden(n) != n.dir
  {
    var h, k := Hidden(n), |n.dir|;
    assert h[k] == BACKSLASH && |h| > 2;
    assert |Ascii(".")| == 1 && |Ascii("..")| == 2;
    PackagePlain();
    ManifestPlain();
  }

  lemma InnerFacts(n: Names, b: Bytes)
    requires Suitable(n)
    ensures WellFormed(Dir(Inner(n, b))) && Locations(Inner(n, b), [n.dir]) == [[n.dir, n.file]]
  {
    assert WellFormed(File(b)) && WellFormedEntries(End) && Find(End, n.file).None?;
    assert WellFormedEntries(Inner(n, b));
    assert Locations(End, [n.dir]) == [];
    assert [n.dir] + [n.file] == [n.dir, n.file];
  }

  lemma FolderFacts(n: Names, b: Bytes)
    requires Suitable(n)
    ensures WellFormedEntries(Folder(n, b))
    ensures forall name :: Find(Folder(n, b), name) == if name == n.dir then Some(Dir(Inner(n, b))) else None
    ensures Locations(Folder(n, b), []) == [[n.dir, n.file]]
  {
    InnerFacts(n, b);
    assert WellFormedEntries(End) && Locations(End, []) == [];
    assert [] + [n.dir] == [n.dir];
  }

  lemma HiddenFacts(n: Names, b: Bytes)
    requires Suitable(n)
    ensures WellFormedEntries(WithHidden(n, b))
    ensures forall name :: Find(WithHidden(n, b), name) == if name == Hidden(n) then Some(File(b)) else Find(Folder(n, b), name)
    ensures Locations(WithHidden(n, b), []) == [[Hidden(n)], [n.dir, n.file]]
  {
    FolderFacts(n, b);
    HiddenName(n);
    assert [] + [Hidden(n)] == [Hidden(n)];
  }

  lemma ArchiveFacts(n: Names, b: Bytes)
    requires Suitable(n)
    ensures WellFormedEntries(WithArchive(n, b))
    ensures forall name :: Find(WithArchive(n, b), name) == if name == n.archive then Some(File(b)) else Find(WithHidden(n, b), name)
    ensures Locations(WithArchive(n, b), []) == [[n.archive], [Hidden(n)], [n.dir, n.file]]
  {
    FolderFacts(n, b);
    HiddenFacts(n, b);
    HiddenName(n);
    assert [] + [n.archive] == [n.archive];
  }

  function Places(n: Names): seq<Location> {
    [[PACKAGE], [n.archive], [Hidden(n)], [n.dir, n.file]]
  }

  lemma TreeFacts(n: Names, package: Bytes, b: Bytes)
    requires Suitable(n)
    ensures var fs := Tree(n, package, b);
            && Directory(fs, []) && Lookup(fs, ManifestAt([])).None? && Under(fs, []) == Places(n)
            && ReadFile(fs, [PACKAGE]) == Some(package)
  {
    var fs := Tree(n, package, b);
    FolderFacts(n, b);
    HiddenFacts(n, b);
    ArchiveFacts(n, b);
    HiddenName(n);
    PackagePlain();
    assert [] + [PACKAGE] == [PACKAGE];
    assert ManifestAt([]) == [MANIFEST];
    assert Find(WithArchive(n, b), PACKAGE).None?;
    assert WellFormed(File(package)) && WellFormedEntries(fs.entries);
    assert Find(fs.entries, MANIFEST).None?;
    assert Find(fs.entries, PACKAGE) == Some(File(package));
    assert Lookup(File(package), [PACKAGE][1..]) == Some(File(package));
  }

  lemma TwoNames(a: Text, b: Text)
    ensures Join([a, b], [SLASH]) == a + [SLASH] + b
  {
    var both := [a, b];
    assert both[1..] == [b];
    assert Join([b], [SLASH]) == b;
  }

  lemma HiddenUnslashed(a: Text, b: Text)
    requires BACKSLASH !in a && BACKSLASH !in b
    ensures Unslash(a + [BACKSLASH] + b) == a + [SLASH] + b
  {
  }

  /** The hidden file is recorded under the path of the other one. */
  lemma SamePath(n: Names)
    requires Suitable(n)
    ensures PathText([Hidden(n)]) == PathText([n.dir, n.file]) == n.dir + [SLASH] + n.file
  {
    TwoNames(n.dir, n.file);
    UnslashSame(n.dir + [SLASH] + n.file);
    HiddenUnslashed(n.dir, n.file);
  }

  lemma PlainPaths(n: Names)
    requires Suitable(n)
    ensures PathText([PACKAGE]) == PACKAGE && PathText([n.archive]) == n.archive
  {
    PackagePlain();
    UnslashSame(PACKAGE);
    UnslashSame(n.archive);
  }

  lemma CleanLeads(n: Names, package: Bytes, b: Bytes, at: Location)
    requires Suitable(n) && at in Places(n) && Clean(at)
    ensures ReadFile(Tree(n, package, b), Resolve([], PathText(at))).Some?
  {
    var fs := Tree(n, package, b);
    TreeFacts(n, package, b);
    UnderNamed(fs, [], at);
    UnderRead(fs, [], at);
    CleanResolves([], at);
  }

  /** The tree can be sealed: the hidden file's path leads to the other file. */
  lemma TreeSealable(t: Tools, n: Names, package: Bytes, b: Bytes)
    requires Suitable(n) && t.identity(package).Some?
    ensures Directory(Tree(n, package, b), []) && Sealable(t, Tree(n, package, b), [], MAIN, None)
  {
    var fs := Tree(n, package, b);
    TreeFacts(n, package, b);
    SamePath(n);
    KindsDiffer();
    PackagePlain();
    assert [] + [PACKAGE] == [PACKAGE];
    forall at | at in KeptAt(fs, []) ensures ReadFile(fs, Resolve([], PathText(at))).Some? {
      FilterMember(Under(fs, []), NotManifestAt, at);
      CleanLeads(n, package, b, if at == [Hidden(n)] then [n.dir, n.file] else at);
    }
  }

  /** The archives of a manifest are the recorded paths that end so, in whatever order. */
  lemma ArchivesCounted(t: Tools, fs: Node, root: Location, m: Manifest)
    requires Directory(fs, root) && Holds(t, fs, root, m)
    ensures Archives(m.files) == |Filter(PathTexts(KeptAt(fs, root)), IsArchive)|
  {
    var places := PathTexts(KeptAt(fs, root));
    KeptPaths(fs, root);
    LexOrder();
    SortSorts(places, LexLeq);
    FilterPermutation(Kept(fs, root), places, IsArchive);
    var a, b := Filter(Kept(fs, root), IsArchive), Filter(places, IsArchive);
    assert |a| == |multiset(a)| == |multiset(b)| == |b|;
    FilterMap(m.files, (f: ArtifactFile) => f.path, (f: ArtifactFile) => EndsWith(f.path, Ascii(".tgz")), IsArchive);
  }

  /** Files at the same places give the same number of archives. */
  lemma SameArchives(a: Node, b: Node, root: Location)
    requires Directory(a, root) && Directory(b, root) && SamePlaces(a, b, root)
    ensures |Filter(PathTexts(KeptAt(a, root)), IsArchive)| == |Filter(PathTexts(KeptAt(b, root)), IsArchive)|
  {
    var x, y := PathTexts(KeptAt(a, root)), PathTexts(KeptAt(b, root));
    KeptSame(a, b, root);
    KeptPaths(a, root);
    KeptPaths(b, root);
    SortTextsSame(x, y);
    FilterPermutation(x, y, IsArchive);
    var f, g := Filter(x, IsArchive), Filter(y, IsArchive);
    assert |f| == |multiset(f)| == |multiset(g)| == |g|;
  }

  lemma OneOfFour(pk: Text, archive: Text, path: Text)
    requires !IsArchive(pk) && IsArchive(archive) && !IsArchive(path)
    ensures |Filter([pk, archive, path, path], IsArchive)| == 1
  {
    assert [pk, archive, path, path] == [pk] + ([archive] + [path, path]);
    FilterAppend([pk], [archive] + [path, path], IsArchive);
    FilterAppend([archive], [path, path], IsArchive);
    FilterNone([pk], IsArchive);
    FilterAll([archive], IsArchive);
    FilterNone([path, path], IsArchive);
  }

  lemma PlacesKept(n: Names, package: Bytes, b: Bytes)
    requires Suitable(n)
    ensures IsDirectory(Tree(n, package, b), []) && KeptAt(Tree(n, package, b), []) == Places(n)
  {
    TreeFacts(n, package, b);
    HiddenName(n);
    PackagePlain();
    FilterAll(Places(n), NotManifestAt);
  }

  lemma FourTexts(s: seq<Location>)
    requires |s| == 4
    ensures PathTexts(s) == [PathText(s[0]), PathText(s[1]), PathText(s[2]), PathText(s[3])]
  {
  }

  lemma OneArchive(n: Names, package: Bytes, b: Bytes)
    requires Suitable(n)
    ensures IsDirectory(Tree(n, package, b), [])
    ensures |Filter(PathTexts(KeptAt(Tree(n, package, b), [])), IsArchive)| == 1
  {
    PlacesKept(n, package, b);
    SamePath(n);
    PlainPaths(n);
    PackagePlain();
    var path := n.dir + [SLASH] + n.file;
    OneOfFour(PACKAGE, n.archive, path);
    FourTexts(Places(n));
  }

  /** Such trees exist, for any suitable names: this one is sealed and verifies, and one of its files
      is not looked at. */
  lemma HiddenFileExists(t: Tools, n: Names, package: Bytes, b: Bytes) returns (fs: Node, m: Manifest)
    requires ReadsWritten(t) && PlainTargets(t) && t.identity(package).Some? && Suitable(n)
    ensures Directory(fs, []) && Accepts(t, fs, [], m) && !AllClean(fs, []) && ReadFile(fs, [Hidden(n)]).Some?
  {
    var before := Tree(n, package, b);
    TreeFacts(n, package, b);
    TreeSealable(t, n, package, b);
    KindsDiffer();
    SealsIff(t, before, [], MAIN, None);
    m := Sealed(t, before, [], MAIN, None).value;
    SealState(before, [], Some(t.write(m)));
    fs := SetFile(before, ManifestAt([]), Some(t.write(m)));
    SealedHolds(t, before, fs, [], MAIN, None, m);
    OneArchive(n, package, b);
    WrittenPlaces(t, before, fs, [], m);
    SameArchives(before, fs, []);
    ArchivesCounted(t, fs, [], m);
    SealThenVerify(t, before, fs, [], MAIN, None, m);
    StillHidden(n, before, fs);
  }

  /** So verification of a sealed tree can miss a change. */
  lemma DetectionFails(t: Tools, n: Names, package: Bytes, b: Bytes) returns (fs: Node, m: Manifest)
    requires Injective(t) && ReadsWritten(t) && PlainTargets(t) && t.identity(package).Some? && Suitable(n)
    ensures Directory(fs, []) && Accepts(t, fs, [], m) && !Detects(t, fs, [], m)
  {
    fs, m := HiddenFileExists(t, n, package, b);
    FaithfulIffClean(t, fs, [], m);
  }

  lemma StillHidden(n: Names, before: Node, fs: Node)
    requires Suitable(n) && Directory(before, []) && Directory(fs, []) && SamePlaces(before, fs, [])
    requires Under(before, []) == Places(n)
    ensures !AllClean(fs, []) && ReadFile(fs, [Hidden(n)]).Some?
  {
    var at := [Hidden(n)];
    HiddenName(n);
    assert at in Under(before, []);
    UnderRead(before, [], at);
    assert [] + at == at;
    KeptMember(fs, [], at);
    assert BACKSLASH in at[0];
  }

  /** Suitable names: an archive `x.tgz`, and a file `b` in a directory `a`. */
  lemma SuitableNames()
    ensures Suitable(Names([120] + Ascii(".tgz"), [97], [98]))
  {
    var suffix := Ascii(".tgz");
    assert |suffix| == 4 && |PACKAGE| == 12 && |MANIFEST| == 20 && |Ascii(".")| == 1 && |Ascii("..")| == 2;
    assert ([120] + suffix)[1..] == suffix;
    assert Ascii(".")[0] == 46 && suffix == [46, 116, 103, 122];
  }
}
