/**
 Sealing a release artifact with a manifest of checksums, and verifying it later. The promise is a
 change detector: verification succeeds on a sealed tree, and only on that tree.
 */
module ReleaseArtifact {
  import opened Options
  import opened Text
  import opened Sequences
  import opened Sorting
  import opened FileTree

  const MANIFEST: Text := Ascii("artifact-sha256.json")
  const RECEIPT: Text := Ascii("native-load-test.json")
  const PACKAGE: Text := Ascii("package.json")

  datatype Identity = Identity(name: Text, version: Text)

  datatype ArtifactFile = ArtifactFile(path: Text, bytes: nat, sha256: Text)

  datatype Manifest = Manifest(
    schemaVersion: int, kind: Text, target: Option<Text>, package: Identity, files: seq<ArtifactFile>)

  datatype Receipt = Receipt(schemaVersion: int, target: Text, binary: Text, binarySha256: Text, exports: seq<Text>)

  /** What is taken from outside: SHA-256, and the JSON documents as they are written and read. */
  datatype Tools = Tools(
    sha256: Bytes -> Text,
    identity: Bytes -> Option<Identity>,
    write: Manifest -> Bytes,
    read: Bytes -> Option<Manifest>,
    receipt: Bytes -> Option<Receipt>,
    targets: seq<Text>,
    exports: seq<Text>)

  /** JSON.parse after JSON.stringify gives the manifest back. */
  ghost predicate ReadsWritten(t: Tools) {
    forall m :: t.read(t.write(m)) == Some(m)
  }

  ghost predicate Injective(t: Tools) {
    forall a, b :: t.sha256(a) == t.sha256(b) ==> a == b
  }

  // ----- paths -----

  predicate Clean(at: Location) {
    forall i | 0 <= i < |at| :: BACKSLASH !in at[i]
  }

  function Unslash(t: Text): (r: Text)
    ensures |r| == |t| && forall i | 0 <= i < |t| :: r[i] == if t[i] == BACKSLASH then SLASH else t[i]
    ensures BACKSLASH !in r
  {
    if t == [] then [] else [if t[0] == BACKSLASH then SLASH else t[0]] + Unslash(t[1..])
  }

  /** The path of a file as it is recorded: every backslash becomes a slash. */
  function PathText(at: Location): Text {
    Unslash(Join(at, [SLASH]))
  }

  function PathTexts(s: seq<Location>): (r: seq<Text>)
    ensures |r| == |s| && forall i | 0 <= i < |s| :: r[i] == PathText(s[i])
  {
    Map(s, PathText)
  }

  /** One path component applied to a place: `.` and nothing stay, `..` goes up. */
  function Enter(place: Location, part: Text): Location {
    if part == [] || part == Ascii(".") then place
    else if part != Ascii("..") then place + [part]
    else if place == [] then []
    else place[..|place| - 1]
  }

  function EnterAll(place: Location, parts: seq<Text>): Location
    decreases |parts|
  {
    if parts == [] then place else EnterAll(Enter(place, parts[0]), parts[1..])
  }

  /** resolve(root, path): from the root directory, or from the top for an absolute path. */
  function Resolve(root: Location, path: Text): Location {
    EnterAll(if path != [] && path[0] == SLASH then [] else root, Split(path, SLASH))
  }

  lemma EnterOne(place: Location, part: Text, rest: seq<Text>)
    ensures EnterAll(place, [part] + rest) == EnterAll(Enter(place, part), rest)
  {
    assert ([part] + rest)[1..] == rest;
  }

  /** Empty components and single dots do nothing, double dots undo a name and go no further up than the
      top. */
  lemma DotsResolve(root: Location, name: Text)
    requires ValidName(name)
    ensures EnterAll(root, [[]] + ([Ascii(".")] + ([name] + ([Ascii("..")] + [])))) == root
    ensures EnterAll([], [Ascii("..")] + []) == []
  {
    EnterOne(root, [], [Ascii(".")] + ([name] + ([Ascii("..")] + [])));
    EnterOne(root, Ascii("."), [name] + ([Ascii("..")] + []));
    EnterOne(root, name, [Ascii("..")] + []);
    EnterOne(root + [name], Ascii(".."), []);
    EnterOne([], Ascii(".."), []);
  }

  lemma {:induction false} EnterNames(place: Location, parts: seq<Text>)
    requires forall i | 0 <= i < |parts| :: ValidName(parts[i])
    ensures EnterAll(place, parts) == place + parts
    decreases |parts|
  {
    if parts != [] {
      EnterNames(place + [parts[0]], parts[1..]);
      assert place + [parts[0]] + parts[1..] == place + parts;
    }
  }

  lemma {:induction false} JoinClean(at: Location)
    requires Clean(at)
    ensures BACKSLASH !in Join(at, [SLASH])
  {
    if |at| > 1 {
      JoinClean(at[1..]);
    }
  }

  lemma UnslashSame(t: Text)
    requires BACKSLASH !in t
    ensures Unslash(t) == t
  {
  }

  lemma JoinStarts(at: Location)
    requires at != [] && ValidName(at[0])
    ensures Join(at, [SLASH]) != [] && Join(at, [SLASH])[0] != SLASH
  {
  }

  /** A recorded path leads back to its file when no name on the way holds a backslash. */
  lemma CleanResolves(root: Location, at: Location)
    requires Clean(at) && at != [] && forall i | 0 <= i < |at| :: ValidName(at[i])
    ensures Resolve(root, PathText(at)) == root + at
  {
    JoinClean(at);
    UnslashSame(Join(at, [SLASH]));
    SplitJoin(at, SLASH);
    JoinStarts(at);
    EnterNames(root, at);
  }

  lemma {:induction false} EnterKeepsClean(place: Location, parts: seq<Text>, k: nat)
    requires forall i | k <= i < |place| :: BACKSLASH !in place[i]
    requires forall i | 0 <= i < |parts| :: BACKSLASH !in parts[i]
    ensures forall i | k <= i < |EnterAll(place, parts)| :: BACKSLASH !in EnterAll(place, parts)[i]
    decreases |parts|
  {
    if parts != [] {
      EnterKeepsClean(Enter(place, parts[0]), parts[1..], k);
    }
  }

  lemma {:induction false} SplitClean(t: Text)
    requires BACKSLASH !in t
    ensures forall i | 0 <= i < |Split(t, SLASH)| :: BACKSLASH !in Split(t, SLASH)[i]
    decreases |t|
  {
    var n := IndexOf(t, SLASH);
    if n < |t| {
      SplitClean(t[n + 1..]);
    }
  }

  /** No recorded path leads to a file with a backslash in its own path. */
  lemma UncleanMissed(root: Location, path: Text, at: Location)
    requires BACKSLASH !in path && !Clean(at)
    ensures Resolve(root, path) != root + at
  {
    var start := if path != [] && path[0] == SLASH then [] else root;
    SplitClean(path);
    EnterKeepsClean(start, Split(path, SLASH), |root|);
    var k :| 0 <= k < |at| && BACKSLASH in at[k];
    assert (root + at)[|root| + k] == at[k];
  }

  // ----- listing -----

  predicate IsDirectory(fs: Node, at: Location) {
    Lookup(fs, at).Some? && Lookup(fs, at).value.Dir?
  }

  /** The locations of the files under a directory, relative to it. */
  function Under(fs: Node, root: Location): seq<Location>
    requires IsDirectory(fs, root)
  {
    Locations(Lookup(fs, root).value.entries, [])
  }

  lemma UnderRead(fs: Node, root: Location, at: Location)
    requires WellFormed(fs) && IsDirectory(fs, root)
    ensures at in Under(fs, root) <==> ReadFile(fs, root + at).Some?
  {
    LookupWellFormed(fs, root);
    var e := Lookup(fs, root).value.entries;
    LocationsRead(e, [], at);
    assert [] + at == at;
    LookupAppend(fs, root, at);
  }

  lemma UnderNamed(fs: Node, root: Location, at: Location)
    requires WellFormed(fs) && IsDirectory(fs, root) && at in Under(fs, root)
    ensures at != [] && forall i | 0 <= i < |at| :: ValidName(at[i])
  {
    UnderRead(fs, root, at);
    LookupWellFormed(fs, root);
    LookupAppend(fs, root, at);
    LookupWellFormed(Lookup(fs, root).value, at);
  }

  function SortedPaths(fs: Node, root: Location): seq<Text>
    requires IsDirectory(fs, root)
  {
    SortTexts(PathTexts(Under(fs, root)))
  }

  lemma VisitStep(left: Entries, here: Location, files: seq<Text>)
    requires left.Entry?
    ensures files + PathTexts(Own(left.name, left.node, here)) + PathTexts(Locations(left.rest, here))
            == files + PathTexts(Locations(left, here))
  {
    var own, others := Own(left.name, left.node, here), Locations(left.rest, here);
    assert Locations(left, here) == own + others;
    assert PathTexts(own + others) == PathTexts(own) + PathTexts(others);
    Assoc(files, PathTexts(own), PathTexts(others));
  }

  lemma OwnPaths(name: Text, here: Location, bytes: Bytes)
    ensures PathTexts(Own(name, File(bytes), here)) == [PathText(here + [name])]
    ensures PathTexts(Own(name, Special, here)) == []
  {
  }

  /** Visits a directory, pushing the path of each file it meets. */
  method Visit(entries: Entries, here: Location, files: seq<Text>) returns (r: seq<Text>)
    ensures r == files + PathTexts(Locations(entries, here))
    decreases entries
  {
    r := files;
    var left := entries;
    while left.Entry?
      invariant r + PathTexts(Locations(left, here)) == files + PathTexts(Locations(entries, here))
      invariant left == entries || left < entries
      decreases left
    {
      ghost var before := r;
      match left.node {
        case Dir(inner) => r := Visit(inner, here + [left.name], r);
        case File(bytes) =>
          OwnPaths(left.name, here, bytes);
          r := r + [PathText(here + [left.name])];
        case Special => OwnPaths(left.name, here, []);
      }
      VisitStep(left, here, before);
      left := left.rest;
    }
  }

  method PathsUnder(fs: Node, root: Location) returns (files: Option<seq<Text>>)
    ensures files == if IsDirectory(fs, root) then Some(SortedPaths(fs, root)) else None
  {
    if IsDirectory(fs, root) {
      var found := Visit(Lookup(fs, root).value.entries, [], []);
      assert found == PathTexts(Under(fs, root));
      files := Some(SortTexts(found));
    } else {
      files := None;
    }
  }

  // ----- the recorded paths -----

  predicate NotManifest(path: Text) { path != MANIFEST }

  predicate NotManifestAt(at: Location) { at != [MANIFEST] }

  /** The sorted paths without the manifest's own: what verification compares. */
  function Kept(fs: Node, root: Location): seq<Text>
    requires IsDirectory(fs, root)
  {
    Filter(SortedPaths(fs, root), NotManifest)
  }

  function KeptAt(fs: Node, root: Location): seq<Location>
    requires IsDirectory(fs, root)
  {
    Filter(Under(fs, root), NotManifestAt)
  }

  lemma ManifestPlain()
    ensures BACKSLASH !in MANIFEST && SLASH !in MANIFEST && ValidName(MANIFEST)
  {
    assert |MANIFEST| == 20;
  }

  lemma LongPath(at: Location)
    requires |at| > 1
    ensures SLASH in PathText(at)
  {
    var t, k := Join(at, [SLASH]), |at[0]|;
    assert t == at[0] + [SLASH] + Join(at[1..], [SLASH]);
    assert t[k] == SLASH;
    assert Unslash(t)[k] == SLASH;
  }

  lemma NamePath(t: Text)
    requires SLASH !in Unslash(t)
    ensures Unslash(t) == t
  {
    forall k | 0 <= k < |t| ensures t[k] != BACKSLASH {
      assert Unslash(t)[k] != SLASH;
    }
    UnslashSame(t);
  }

  /** Only a file of that name at the top is recorded under a plain name. */
  lemma PlainPath(at: Location, name: Text)
    requires at != [] && BACKSLASH !in name && SLASH !in name
    ensures PathText(at) == name <==> at == [name]
  {
    UnslashSame(name);
    if |at| > 1 {
      LongPath(at);
    } else if PathText(at) == name {
      NamePath(at[0]);
    }
  }

  lemma KeptPaths(fs: Node, root: Location)
    requires WellFormed(fs) && IsDirectory(fs, root)
    ensures Kept(fs, root) == SortTexts(PathTexts(KeptAt(fs, root)))
    ensures Distinct(KeptAt(fs, root))
  {
    var under := Under(fs, root);
    ManifestPlain();
    forall i | 0 <= i < |under| ensures NotManifest(PathText(under[i])) == NotManifestAt(under[i]) {
      UnderNamed(fs, root, under[i]);
      PlainPath(under[i], MANIFEST);
    }
    FilterSortTexts(PathTexts(under), NotManifest);
    FilterMap(under, PathText, NotManifestAt, NotManifest);
    LookupWellFormed(fs, root);
    LocationsDistinct(Lookup(fs, root).value.entries, []);
    FilterDistinct(under, NotManifestAt);
  }

  lemma KeptMember(fs: Node, root: Location, at: Location)
    requires WellFormed(fs) && IsDirectory(fs, root)
    ensures at in KeptAt(fs, root) <==> at != [MANIFEST] && ReadFile(fs, root + at).Some?
  {
    FilterMember(Under(fs, root), NotManifestAt, at);
    UnderRead(fs, root, at);
  }

  ghost predicate SamePlaces(fs1: Node, fs2: Node, root: Location) {
    forall at | at != [MANIFEST] :: ReadFile(fs1, root + at).Some? <==> ReadFile(fs2, root + at).Some?
  }

  /** Two trees with files at the same places record the same paths. */
  lemma KeptSame(fs1: Node, fs2: Node, root: Location)
    requires WellFormed(fs1) && IsDirectory(fs1, root) && WellFormed(fs2) && IsDirectory(fs2, root)
    requires SamePlaces(fs1, fs2, root)
    ensures Kept(fs1, root) == Kept(fs2, root)
  {
    var a, b := KeptAt(fs1, root), KeptAt(fs2, root);
    KeptPaths(fs1, root);
    KeptPaths(fs2, root);
    forall at ensures at in a <==> at in b {
      KeptMember(fs1, root, at);
      KeptMember(fs2, root, at);
    }
    DistinctMultiset(a);
    DistinctMultiset(b);
    assert multiset(a) == multiset(b) by {
      assert (set x | x in a) == (set x | x in b);
    }
    MapPermutation(a, b, PathText);
    SortTextsSame(PathTexts(a), PathTexts(b));
  }

  lemma KeptTexts(fs: Node, root: Location, path: Text)
    requires WellFormed(fs) && IsDirectory(fs, root)
    ensures path in Kept(fs, root) <==> exists at :: at in KeptAt(fs, root) && PathText(at) == path
  {
    KeptPaths(fs, root);
    var at := KeptAt(fs, root);
    LexOrder();
    SortMember(PathTexts(at), LexLeq, path);
    if path in PathTexts(at) {
      var i :| 0 <= i < |at| && PathTexts(at)[i] == path;
      assert at[i] in at;
    }
  }

  // ----- sealing and verifying -----

  const MAIN: Text := Ascii("main")
  const NATIVE: Text := Ascii("native")

  predicate Kind(kind: Text) { kind == MAIN || kind == NATIVE }

  function ManifestAt(root: Location): Location { root + [MANIFEST] }

  function Measure(t: Tools, fs: Node, root: Location, path: Text): Option<ArtifactFile> {
    match ReadFile(fs, Resolve(root, path))
    case None => None
    case Some(b) => Some(ArtifactFile(path, |b|, t.sha256(b)))
  }

  /** All measurements, or none when one of the paths cannot be read. */
  function MeasureAll(t: Tools, fs: Node, root: Location, paths: seq<Text>): (r: Option<seq<ArtifactFile>>)
    ensures r.Some? ==> |r.value| == |paths| && forall i | 0 <= i < |paths| :: Measure(t, fs, root, paths[i]) == Some(r.value[i])
  {
    if paths == [] then Some([])
    else match (Measure(t, fs, root, paths[0]), MeasureAll(t, fs, root, paths[1..]))
      case (Some(first), Some(rest)) => Some([first] + rest)
      case _ => None
  }

  function PackageIdentity(t: Tools, fs: Node, root: Location): Option<Identity> {
    match ReadFile(fs, root + [PACKAGE]) case None => None case Some(b) => t.identity(b)
  }

  /** What sealing records of a tree from which the old manifest is gone. */
  function Sealed(t: Tools, fs: Node, root: Location, kind: Text, target: Option<Text>): Option<Manifest> {
    if (kind == NATIVE && target.None?) || (kind == MAIN && target.Some?) || !IsDirectory(fs, root) then None
    else match (MeasureAll(t, fs, root, SortedPaths(fs, root)), PackageIdentity(t, fs, root))
      case (Some(files), Some(package)) => Some(Manifest(1, kind, target, package, files))
      case _ => None
  }

  function BinaryName(target: Text): Text {
    Ascii("woml-core.") + target + Ascii(".node")
  }

  /** As a target's package names its binary. */
  lemma BinaryNamed()
    ensures BinaryName(Ascii("linux-x64-gnu")) == Ascii("woml-core.linux-x64-gnu.node")
  {
  }

  predicate ReceiptValid(t: Tools, fs: Node, root: Location, target: Option<Text>) {
    && target.Some? && target.value in t.targets
    && ReadFile(fs, root + [RECEIPT]).Some?
    && var r := t.receipt(ReadFile(fs, root + [RECEIPT]).value);
    && var binary := ReadFile(fs, Resolve(root, BinaryName(target.value)));
    && r.Some? && binary.Some?
    && r.value.schemaVersion == 1 && r.value.target == target.value && r.value.binary == BinaryName(target.value)
    && r.value.binarySha256 == t.sha256(binary.value) && r.value.exports == SortTexts(t.exports)
  }

  /** Of a known target with a binary in place exactly one receipt is valid. */
  lemma OneReceipt(t: Tools, fs: Node, root: Location, target: Text, receipt: Receipt, binary: Bytes)
    requires target in t.targets && ReadFile(fs, Resolve(root, BinaryName(target))) == Some(binary)
    requires ReadFile(fs, root + [RECEIPT]).Some? && t.receipt(ReadFile(fs, root + [RECEIPT]).value) == Some(receipt)
    ensures ReceiptValid(t, fs, root, Some(target))
            <==> receipt == Receipt(1, target, BinaryName(target), t.sha256(binary), SortTexts(t.exports))
  {
  }

  function Archives(files: seq<ArtifactFile>): nat {
    |Filter(files, (f: ArtifactFile) => EndsWith(f.path, Ascii(".tgz")))|
  }

  predicate EndsWith(t: Text, suffix: Text) {
    |t| >= |suffix| && t[|t| - |suffix|..] == suffix
  }

  function RecordedPaths(files: seq<ArtifactFile>): (r: seq<Text>)
    ensures |r| == |files| && forall i | 0 <= i < |files| :: r[i] == files[i].path
  {
    Map(files, (f: ArtifactFile) => f.path)
  }

  /** Everything that the manifest says of the tree is so. */
  ghost predicate Holds(t: Tools, fs: Node, root: Location, m: Manifest) {
    && IsDirectory(fs, root) && Kept(fs, root) == RecordedPaths(m.files)
    && (forall i | 0 <= i < |m.files| :: Measure(t, fs, root, m.files[i].path) == Some(m.files[i]))
    && PackageIdentity(t, fs, root) == Some(m.package)
  }

  ghost predicate Complete(t: Tools, fs: Node, root: Location, m: Manifest) {
    (m.kind == NATIVE ==> ReceiptValid(t, fs, root, m.target)) && Archives(m.files) == 1
  }

  /** The manifest that verification reads. */
  function ReadManifest(t: Tools, fs: Node, root: Location): Option<Manifest> {
    match ReadFile(fs, ManifestAt(root)) case None => None case Some(b) => t.read(b)
  }

  ghost predicate Accepts(t: Tools, fs: Node, root: Location, m: Manifest) {
    && ReadManifest(t, fs, root) == Some(m) && m.schemaVersion == 1 && Kind(m.kind)
    && Holds(t, fs, root, m) && Complete(t, fs, root, m)
  }

  /** File by file: whether each still measures as recorded. */
  method MatchFiles(t: Tools, fs: Node, root: Location, files: seq<ArtifactFile>) returns (ok: bool)
    ensures ok <==> forall i | 0 <= i < |files| :: Measure(t, fs, root, files[i].path) == Some(files[i])
  {
    for i := 0 to |files|
      invariant forall k | 0 <= k < i :: Measure(t, fs, root, files[k].path) == Some(files[k])
    {
      if Measure(t, fs, root, files[i].path) != Some(files[i]) {
        return false;
      }
    }
    ok := true;
  }

  class Workspace {
    const tools: Tools
    const root: Location
    var fs: Node

    constructor (tools: Tools, root: Location, fs: Node)
      ensures this.tools == tools && this.root == root && this.fs == fs
    {
      this.tools, this.root, this.fs := tools, root, fs;
    }

    /** Takes the old manifest away, measures every file and writes the new manifest. A sealed
        tree reads as before everywhere but at the manifest; a failure leaves no manifest. */
    method Seal(kind: Text, target: Option<Text>) returns (r: Option<Manifest>)
      requires WellFormed(fs) && Kind(kind)
      modifies this
      ensures WellFormed(fs) && (IsDirectory(fs, root) <==> old(IsDirectory(fs, root)))
      ensures !NoDirectory(old(fs), ManifestAt(root)) ==> r.None? && fs == old(fs)
      ensures NoDirectory(old(fs), ManifestAt(root)) ==>
                forall q :: ReadFile(fs, q) == if q != ManifestAt(root) then ReadFile(old(fs), q)
                                               else if r.Some? then Some(tools.write(r.value)) else None
      ensures NoDirectory(old(fs), ManifestAt(root)) && old(IsDirectory(fs, root)) ==>
                r == Sealed(tools, SetFile(old(fs), ManifestAt(root), None), root, kind, target)
      ensures r.Some? ==> old(IsDirectory(fs, root))
    {
      if Lookup(fs, ManifestAt(root)).Some? && Lookup(fs, ManifestAt(root)).value.Dir? {
        return None;
      }
      if !IsDirectory(fs, root) {
        Outside(fs, root);
        return None;
      }
      SealState(fs, root, None);
      fs := SetFile(fs, ManifestAt(root), None);
      if (kind == NATIVE && target.None?) || (kind == MAIN && target.Some?) {
        return None;
      }
      var paths := PathsUnder(fs, root);
      var files := MeasureAll(tools, fs, root, paths.value);
      var package := PackageIdentity(tools, fs, root);
      if files.None? || package.None? {
        return None;
      }
      r := Some(Manifest(1, kind, target, package.value, files.value));
      SealState(fs, root, Some(tools.write(r.value)));
      fs := SetFile(fs, ManifestAt(root), Some(tools.write(r.value)));
    }

    /** Answers with the manifest exactly when everything it says holds. */
    method Verify() returns (r: Option<Manifest>)
      ensures forall m :: r == Some(m) <==> Accepts(tools, fs, root, m)
    {
      r := None;
      var read := ReadManifest(tools, fs, root);
      if read.None? || read.value.schemaVersion != 1 || !Kind(read.value.kind) {
        return;
      }
      var m := read.value;
      var paths := PathsUnder(fs, root);
      if paths.None? || Filter(paths.value, NotManifest) != RecordedPaths(m.files) {
        return;
      }
      var measured := MatchFiles(tools, fs, root, m.files);
      if !measured {
        return;
      }
      if PackageIdentity(tools, fs, root) != Some(m.package) {
        return;
      }
      if m.kind == NATIVE && !ReceiptValid(tools, fs, root, m.target) {
        return;
      }
      if Archives(m.files) != 1 {
        return;
      }
      r := Some(m);
    }
  }

  lemma Outside(fs: Node, root: Location)
    requires !IsDirectory(fs, root)
    ensures ReadFile(fs, ManifestAt(root)).None?
  {
    NothingBelow(fs, root, ManifestAt(root));
  }

  /** Writing or removing the manifest keeps the tree well formed and changes nothing else. */
  lemma SealState(fs: Node, root: Location, bytes: Option<Bytes>)
    requires WellFormed(fs) && IsDirectory(fs, root) && NoDirectory(fs, ManifestAt(root))
    ensures var after := SetFile(fs, ManifestAt(root), bytes);
            && WellFormed(after) && IsDirectory(after, root) && NoDirectory(after, ManifestAt(root))
            && forall q :: ReadFile(after, q) == if q == ManifestAt(root) then bytes else ReadFile(fs, q)
  {
    var at := ManifestAt(root);
    var node := if bytes.Some? then Some(File(bytes.value)) else None;
    ManifestPlain();
    assert at[..|at| - 1] == root && at[|at| - 1] == MANIFEST;
    SetWellFormed(fs, at, node);
    SetThere(fs, at, node);
    SetKeepsDirectory(fs, root, MANIFEST, node);
    forall q ensures ReadFile(SetFile(fs, at, bytes), q) == if q == at then bytes else ReadFile(fs, q) {
      SetReads(fs, at, bytes, q);
    }
  }

  lemma {:induction false} SetKeepsDirectory(n: Node, dir: Location, name: Text, node: Option<Node>)
    requires WellFormed(n) && IsDirectory(n, dir) && ValidName(name)
    ensures IsDirectory(Set(n, dir + [name], node), dir)
    decreases |dir|
  {
    var at := dir + [name];
    if dir != [] {
      assert at[0] == dir[0] && at[1..] == dir[1..] + [name];
      var child := Find(n.entries, dir[0]).value;
      FindWellFormed(n.entries, dir[0]);
      SetKeepsDirectory(child, dir[1..], name, node);
      PutFind(n.entries, dir[0], Some(Set(child, at[1..], node)), dir[0]);
    }
  }
}
