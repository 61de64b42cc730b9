/**
 What sealing and verifying promise together: a sealed tree verifies, and a tree that verifies is
 the sealed one, exactly when no file name holds a backslash.
 */
module ArtifactFaithfulness {
  import opened Options
  import opened Text
  import opened Sequences
  import opened Sorting
  import opened FileTree
  import opened ReleaseArtifact

  ghost predicate Directory(fs: Node, root: Location) {
    WellFormed(fs) && IsDirectory(fs, root)
  }

  /** `after` is `before` with the manifest written. */
  ghost predicate ManifestWritten(t: Tools, before: Node, after: Node, root: Location, m: Manifest) {
    forall q :: ReadFile(after, q) == if q == ManifestAt(root) then Some(t.write(m)) else ReadFile(before, q)
  }

  /** The known targets are plain names. */
  ghost predicate PlainTargets(t: Tools) {
    forall x | x in t.targets :: SLASH !in x && BACKSLASH !in x
  }

  // ----- a sealed tree verifies -----

  lemma NoManifestKept(fs: Node, root: Location)
    requires Directory(fs, root) && ReadFile(fs, ManifestAt(root)).None?
    ensures Kept(fs, root) == SortedPaths(fs, root)
  {
    var under := Under(fs, root);
    UnderRead(fs, root, [MANIFEST]);
    FilterAll(under, NotManifestAt);
    KeptPaths(fs, root);
  }

  /** A path that could be read when there was no manifest does not lead to the manifest. */
  lemma MeasureUnchanged(t: Tools, before: Node, after: Node, root: Location, m: Manifest, path: Text)
    requires ManifestWritten(t, before, after, root, m) && ReadFile(before, ManifestAt(root)).None?
    requires Measure(t, before, root, path).Some?
    ensures Measure(t, after, root, path) == Measure(t, before, root, path)
  {
  }

  lemma TopNames(root: Location)
    ensures root + [PACKAGE] != ManifestAt(root) && root + [RECEIPT] != ManifestAt(root)
  {
    assert |PACKAGE| == 12 && |RECEIPT| == 21 && |MANIFEST| == 20;
    assert (root + [PACKAGE])[|root|] == PACKAGE && (root + [RECEIPT])[|root|] == RECEIPT;
    assert ManifestAt(root)[|root|] == MANIFEST;
  }

  lemma WrittenPlaces(t: Tools, before: Node, after: Node, root: Location, m: Manifest)
    requires ManifestWritten(t, before, after, root, m)
    ensures SamePlaces(before, after, root)
  {
    forall at | at != [MANIFEST] ensures ReadFile(before, root + at).Some? <==> ReadFile(after, root + at).Some? {
      assert (root + at)[|root|..] == at && ManifestAt(root)[|root|..] == [MANIFEST];
    }
  }

  lemma SealedHolds(t: Tools, before: Node, after: Node, root: Location, kind: Text, target: Option<Text>, m: Manifest)
    requires Directory(before, root) && Directory(after, root) && ReadFile(before, ManifestAt(root)).None?
    requires Sealed(t, before, root, kind, target) == Some(m) && ManifestWritten(t, before, after, root, m)
    ensures Holds(t, after, root, m)
  {
    var paths := SortedPaths(before, root);
    TopNames(root);
    NoManifestKept(before, root);
    WrittenPlaces(t, before, after, root, m);
    KeptSame(before, after, root);
    assert MeasureAll(t, before, root, paths) == Some(m.files);
    MeasuredAfter(t, before, after, root, m, paths);
  }

  lemma MeasuredAfter(t: Tools, before: Node, after: Node, root: Location, m: Manifest, paths: seq<Text>)
    requires ManifestWritten(t, before, after, root, m) && ReadFile(before, ManifestAt(root)).None?
    requires MeasureAll(t, before, root, paths) == Some(m.files)
    ensures RecordedPaths(m.files) == paths
    ensures forall i | 0 <= i < |m.files| :: Measure(t, after, root, m.files[i].path) == Some(m.files[i])
  {
    forall i | 0 <= i < |m.files| ensures m.files[i].path == paths[i] && Measure(t, after, root, m.files[i].path) == Some(m.files[i]) {
      assert Measure(t, before, root, paths[i]) == Some(m.files[i]);
      MeasureUnchanged(t, before, after, root, m, paths[i]);
    }
  }

  lemma ReceiptUnchanged(t: Tools, before: Node, after: Node, root: Location, m: Manifest)
    requires ManifestWritten(t, before, after, root, m) && ReadFile(before, ManifestAt(root)).None?
    requires PlainTargets(t)
    ensures ReceiptValid(t, after, root, m.target) <==> ReceiptValid(t, before, root, m.target)
  {
    TopNames(root);
    if m.target.Some? && m.target.value in t.targets {
      BinaryElsewhere(root, m.target.value);
    }
  }

  /** A target without slashes names a binary at the top. */
  lemma BinaryElsewhere(root: Location, target: Text)
    requires SLASH !in target
    ensures Resolve(root, BinaryName(target)) != ManifestAt(root)
  {
    var name := BinaryName(target);
    assert Ascii("woml-core.")[0] != MANIFEST[0];
    assert name[0] == Ascii("woml-core.")[0];
    assert SLASH !in Ascii("woml-core.") && SLASH !in Ascii(".node");
    assert |name| > 2 && |Ascii(".")| == 1 && |Ascii("..")| == 2;
    IndexOfAbsent(name, SLASH);
    assert Split(name, SLASH) == [name];
    EnterNames(root, [name]);
    assert (root + [name])[|root|] == name && ManifestAt(root)[|root|] == MANIFEST;
  }

  // ----- when a tree can be sealed -----

  lemma {:induction false} MeasureAllIff(t: Tools, fs: Node, root: Location, paths: seq<Text>)
    ensures MeasureAll(t, fs, root, paths).Some? <==> forall i | 0 <= i < |paths| :: Measure(t, fs, root, paths[i]).Some?
  {
    if paths != [] {
      MeasureAllIff(t, fs, root, paths[1..]);
      assert (forall i | 0 <= i < |paths| :: Measure(t, fs, root, paths[i]).Some?)
        <==> Measure(t, fs, root, paths[0]).Some? && forall i | 0 <= i < |paths[1..]| :: Measure(t, fs, root, paths[1..][i]).Some?;
    }
  }

  /** Every recorded path leads to some file, not always the one it was recorded for. */
  ghost predicate PathsLead(fs: Node, root: Location)
    requires IsDirectory(fs, root)
  {
    forall at | at in KeptAt(fs, root) :: ReadFile(fs, Resolve(root, PathText(at))).Some?
  }

  /** What sealing asks of a tree from which the old manifest is gone. */
  ghost predicate Sealable(t: Tools, fs: Node, root: Location, kind: Text, target: Option<Text>)
    requires IsDirectory(fs, root)
  {
    (kind == NATIVE <==> target.Some?) && PackageIdentity(t, fs, root).Some? && PathsLead(fs, root)
  }

  lemma MeasuredIff(t: Tools, fs: Node, root: Location)
    requires Directory(fs, root) && ReadFile(fs, ManifestAt(root)).None?
    ensures MeasureAll(t, fs, root, SortedPaths(fs, root)).Some? <==> PathsLead(fs, root)
  {
    var paths := SortedPaths(fs, root);
    NoManifestKept(fs, root);
    MeasureAllIff(t, fs, root, paths);
    if MeasureAll(t, fs, root, paths).Some? {
      forall at | at in KeptAt(fs, root) ensures ReadFile(fs, Resolve(root, PathText(at))).Some? {
        KeptTexts(fs, root, PathText(at));
        var i :| 0 <= i < |paths| && paths[i] == PathText(at);
        assert Measure(t, fs, root, paths[i]).Some?;
      }
    }
    if PathsLead(fs, root) {
      forall i | 0 <= i < |paths| ensures Measure(t, fs, root, paths[i]).Some? {
        KeptTexts(fs, root, paths[i]);
        var at :| at in KeptAt(fs, root) && PathText(at) == paths[i];
      }
    }
  }

  /** Sealing succeeds exactly when kind and target agree, the package names itself, and every
      recorded path leads to a file. */
  lemma SealsIff(t: Tools, fs: Node, root: Location, kind: Text, target: Option<Text>)
    requires Directory(fs, root) && ReadFile(fs, ManifestAt(root)).None? && Kind(kind)
    ensures Sealed(t, fs, root, kind, target).Some? <==> Sealable(t, fs, root, kind, target)
  {
    MeasuredIff(t, fs, root);
    KindsDiffer();
  }

  lemma KindsDiffer()
    ensures MAIN != NATIVE
  {
    assert |MAIN| == 4 && |NATIVE| == 6;
  }

  /** Without backslashes every recorded path leads back, so a package that names itself is sealed. */
  lemma CleanSeals(t: Tools, fs: Node, root: Location, kind: Text, target: Option<Text>)
    requires Directory(fs, root) && ReadFile(fs, ManifestAt(root)).None? && Kind(kind) && AllClean(fs, root)
    ensures Sealed(t, fs, root, kind, target).Some?
            <==> (kind == NATIVE <==> target.Some?) && PackageIdentity(t, fs, root).Some?
  {
    SealsIff(t, fs, root, kind, target);
    forall at | at in KeptAt(fs, root) ensures ReadFile(fs, Resolve(root, PathText(at))).Some? {
      KeptMember(fs, root, at);
      KeptNamed(fs, root, at);
      CleanResolves(root, at);
    }
  }

  /** A file with a backslash whose slashed path leads nowhere keeps the tree from being sealed. */
  lemma LostPathFails(t: Tools, fs: Node, root: Location, kind: Text, target: Option<Text>, at: Location)
    requires Directory(fs, root) && ReadFile(fs, ManifestAt(root)).None? && Kind(kind)
    requires at in KeptAt(fs, root) && ReadFile(fs, Resolve(root, PathText(at))).None?
    ensures Sealed(t, fs, root, kind, target).None?
  {
    SealsIff(t, fs, root, kind, target);
  }

  // ----- sealing, then verifying -----

  /** Verification of a freshly sealed tree succeeds, with the manifest just written, exactly when
      the tree has one archive and, if native, a known target with a valid load receipt. */
  lemma SealThenVerify(t: Tools, before: Node, after: Node, root: Location, kind: Text, target: Option<Text>, m: Manifest)
    requires ReadsWritten(t) && PlainTargets(t) && Kind(kind)
    requires Directory(before, root) && Directory(after, root) && ReadFile(before, ManifestAt(root)).None?
    requires Sealed(t, before, root, kind, target) == Some(m) && ManifestWritten(t, before, after, root, m)
    ensures Accepts(t, after, root, m)
            <==> Archives(m.files) == 1 && (kind == NATIVE ==> ReceiptValid(t, before, root, target))
  {
    SealedHolds(t, before, after, root, kind, target, m);
    assert m.kind == kind && m.target == target && m.schemaVersion == 1;
    ReceiptUnchanged(t, before, after, root, m);
    assert ReadManifest(t, after, root) == Some(m);
  }

  /** The tree without its manifest. */
  function Bare(fs: Node, root: Location): Node {
    SetFile(fs, ManifestAt(root), None)
  }

  /** The two commands one after the other. Sealing succeeds exactly on a directory, with no directory
      in the manifest's place, that can be sealed without its old manifest; verification then gives
      the same manifest exactly when there is one archive and, if native, a valid load receipt, and
      nothing when sealing failed. */
  method SealAndVerify(w: Workspace, kind: Text, target: Option<Text>)
    returns (sealed: Option<Manifest>, verified: Option<Manifest>)
    requires WellFormed(w.fs) && Kind(kind) && ReadsWritten(w.tools) && PlainTargets(w.tools)
    modifies w
    ensures old(IsDirectory(w.fs, w.root)) && NoDirectory(old(w.fs), ManifestAt(w.root)) ==>
              IsDirectory(Bare(old(w.fs), w.root), w.root)
    ensures sealed.Some?
            <==> && old(IsDirectory(w.fs, w.root)) && NoDirectory(old(w.fs), ManifestAt(w.root))
                 && Sealable(w.tools, Bare(old(w.fs), w.root), w.root, kind, target)
    ensures sealed.Some? ==>
              && IsDirectory(w.fs, w.root)
              && forall at | at in KeptAt(w.fs, w.root) && Clean(at) :: Records(w.tools, w.fs, w.root, sealed.value, at)
    ensures verified
            == if sealed.Some? && Archives(sealed.value.files) == 1
                  && (kind == NATIVE ==> ReceiptValid(w.tools, w.fs, w.root, target))
               then sealed else None
  {
    ghost var before := Bare(w.fs, w.root);
    if IsDirectory(w.fs, w.root) && !IsDirectory(w.fs, ManifestAt(w.root)) {
      SealState(w.fs, w.root, None);
      SealsIff(w.tools, before, w.root, kind, target);
    }
    sealed := w.Seal(kind, target);
    verified := w.Verify();
    if sealed.Some? {
      SealedHolds(w.tools, before, w.fs, w.root, kind, target, sealed.value);
      HoldsRecords(w.tools, w.fs, w.root, sealed.value);
      SealThenVerify(w.tools, before, w.fs, w.root, kind, target, sealed.value);
      ReceiptUnchanged(w.tools, before, w.fs, w.root, sealed.value);
      OneManifest(w.tools, w.fs, w.root, sealed.value, verified);
    } else {
      NoManifest(w.tools, w.fs, w.root, verified);
    }
  }

  lemma NoManifest(t: Tools, fs: Node, root: Location, r: Option<Manifest>)
    requires ReadFile(fs, ManifestAt(root)).None? && forall x :: r == Some(x) <==> Accepts(t, fs, root, x)
    ensures r.None?
  {
    if r.Some? {
      assert Accepts(t, fs, root, r.value);
    }
  }

  lemma OneManifest(t: Tools, fs: Node, root: Location, m: Manifest, r: Option<Manifest>)
    requires ReadManifest(t, fs, root) == Some(m) && forall x :: r == Some(x) <==> Accepts(t, fs, root, x)
    ensures r == if Accepts(t, fs, root, m) then Some(m) else None
  {
    if r.Some? {
      assert Accepts(t, fs, root, r.value);
    }
  }

  // ----- a tree that verifies is the sealed tree -----

  ghost predicate AllClean(fs: Node, root: Location)
    requires IsDirectory(fs, root)
  {
    forall at | at in KeptAt(fs, root) :: Clean(at)
  }

  /** What a manifest says of one clean file. */
  lemma CleanMeasured(t: Tools, fs: Node, root: Location, m: Manifest, at: Location) returns (i: nat)
    requires Directory(fs, root) && Holds(t, fs, root, m) && at in KeptAt(fs, root) && Clean(at)
    ensures i < |m.files| && m.files[i].path == PathText(at)
    ensures Resolve(root, PathText(at)) == root + at && ReadFile(fs, root + at).Some?
    ensures var b := ReadFile(fs, root + at).value; m.files[i] == ArtifactFile(PathText(at), |b|, t.sha256(b))
  {
    KeptMember(fs, root, at);
    UnderRead(fs, root, at);
    UnderNamed(fs, root, at);
    CleanResolves(root, at);
    KeptTexts(fs, root, PathText(at));
    assert PathText(at) in RecordedPaths(m.files);
    i :| 0 <= i < |m.files| && RecordedPaths(m.files)[i] == PathText(at);
    assert Measure(t, fs, root, m.files[i].path) == Some(m.files[i]);
  }

  /** The manifest has the file's path, size and digest. */
  ghost predicate Records(t: Tools, fs: Node, root: Location, m: Manifest, at: Location) {
    && ReadFile(fs, root + at).Some?
    && var b := ReadFile(fs, root + at).value;
    && ArtifactFile(PathText(at), |b|, t.sha256(b)) in m.files
  }

  /** A manifest that holds records every file without a backslash in its path as it is. */
  lemma HoldsRecords(t: Tools, fs: Node, root: Location, m: Manifest)
    requires Directory(fs, root) && Holds(t, fs, root, m)
    ensures forall at | at in KeptAt(fs, root) && Clean(at) :: Records(t, fs, root, m, at)
  {
    forall at | at in KeptAt(fs, root) && Clean(at) ensures Records(t, fs, root, m, at) {
      var i := CleanMeasured(t, fs, root, m, at);
      assert m.files[i] in m.files;
    }
  }

  /** The load receipt ties the binary down: one receipt is valid for one binary only. */
  lemma ReceiptBindsBinary(t: Tools, fs1: Node, fs2: Node, root: Location, target: Option<Text>)
    requires Injective(t) && ReceiptValid(t, fs1, root, target) && ReceiptValid(t, fs2, root, target)
    requires ReadFile(fs1, root + [RECEIPT]) == ReadFile(fs2, root + [RECEIPT])
    ensures ReadFile(fs1, Resolve(root, BinaryName(target.value))) == ReadFile(fs2, Resolve(root, BinaryName(target.value)))
  {
  }

  lemma SealedFileKept(t: Tools, fs1: Node, fs2: Node, root: Location, m: Manifest, at: Location)
    requires Injective(t) && Directory(fs1, root) && Directory(fs2, root)
    requires Holds(t, fs1, root, m) && Holds(t, fs2, root, m)
    requires at in KeptAt(fs1, root) && Clean(at)
    ensures ReadFile(fs2, root + at) == ReadFile(fs1, root + at) && at in KeptAt(fs2, root)
  {
    var i := CleanMeasured(t, fs1, root, m, at);
    assert Measure(t, fs2, root, m.files[i].path) == Some(m.files[i]);
    KeptMember(fs1, root, at);
    KeptMember(fs2, root, at);
  }

  lemma CleanPathsDistinct(fs: Node, root: Location)
    requires Directory(fs, root) && AllClean(fs, root)
    ensures Distinct(Kept(fs, root))
  {
    var places := KeptAt(fs, root);
    KeptPaths(fs, root);
    forall i, j | 0 <= i < j < |places| ensures PathTexts(places)[i] != PathTexts(places)[j] {
      CleanPathInjective(fs, root, places[i], places[j]);
    }
    LexOrder();
    SortSorts(PathTexts(places), LexLeq);
    DistinctOfPermutation(PathTexts(places), Kept(fs, root));
  }

  lemma CleanPathInjective(fs: Node, root: Location, a: Location, b: Location)
    requires Directory(fs, root) && a in KeptAt(fs, root) && b in KeptAt(fs, root) && Clean(a) && Clean(b)
    ensures PathText(a) == PathText(b) ==> a == b
  {
    KeptNamed(fs, root, a);
    KeptNamed(fs, root, b);
    CleanResolves([], a);
    CleanResolves([], b);
    assert [] + a == a && [] + b == b;
  }

  lemma KeptNamed(fs: Node, root: Location, at: Location)
    requires Directory(fs, root) && at in KeptAt(fs, root)
    ensures at != [] && forall i | 0 <= i < |at| :: ValidName(at[i])
  {
    KeptMember(fs, root, at);
    UnderRead(fs, root, at);
    UnderNamed(fs, root, at);
  }

  /** Where the recorded paths differ, two files do not share one. */
  lemma OnePlace(fs: Node, root: Location, a: Location, b: Location)
    requires Directory(fs, root) && Distinct(Kept(fs, root))
    requires a in KeptAt(fs, root) && b in KeptAt(fs, root) && PathText(a) == PathText(b)
    ensures a == b
  {
    var places := KeptAt(fs, root);
    KeptPaths(fs, root);
    LexOrder();
    SortSorts(PathTexts(places), LexLeq);
    DistinctOfPermutation(Kept(fs, root), PathTexts(places));
    var i :| 0 <= i < |places| && places[i] == a;
    var j :| 0 <= j < |places| && places[j] == b;
    SamePlace(PathTexts(places), i, j);
  }

  lemma NothingAdded(t: Tools, fs1: Node, fs2: Node, root: Location, m: Manifest, at: Location)
    requires Injective(t) && Directory(fs1, root) && Directory(fs2, root) && AllClean(fs1, root)
    requires Holds(t, fs1, root, m) && Holds(t, fs2, root, m)
    requires at in KeptAt(fs2, root)
    ensures at in KeptAt(fs1, root)
  {
    KeptTexts(fs2, root, PathText(at));
    KeptTexts(fs1, root, PathText(at));
    var first :| first in KeptAt(fs1, root) && PathText(first) == PathText(at);
    SealedFileKept(t, fs1, fs2, root, m, first);
    CleanPathsDistinct(fs1, root);
    OnePlace(fs2, root, first, at);
  }

  /** The two trees hold the same files with the same contents, the manifest apart. */
  ghost predicate SameContents(fs1: Node, fs2: Node, root: Location) {
    forall at | at != [MANIFEST] :: ReadFile(fs1, root + at) == ReadFile(fs2, root + at)
  }

  /** Two clean trees of which one manifest holds are the same tree. */
  lemma CleanDetects(t: Tools, fs1: Node, fs2: Node, root: Location, m: Manifest)
    requires Injective(t) && Directory(fs1, root) && Directory(fs2, root) && AllClean(fs1, root)
    requires Holds(t, fs1, root, m) && Holds(t, fs2, root, m)
    ensures SameContents(fs1, fs2, root)
  {
    forall at | at != [MANIFEST] ensures ReadFile(fs1, root + at) == ReadFile(fs2, root + at) {
      KeptMember(fs1, root, at);
      KeptMember(fs2, root, at);
      if at in KeptAt(fs2, root) {
        NothingAdded(t, fs1, fs2, root, m, at);
      }
      if at in KeptAt(fs1, root) {
        SealedFileKept(t, fs1, fs2, root, m, at);
      }
    }
  }

  // ----- a backslash hides a file -----

  lemma FileInDirectory(n: Node, at: Location)
    requires WellFormed(n) && at != [] && ReadFile(n, at).Some?
    ensures InDirectory(n, at) && NoDirectory(n, at)
  {
    var dir := at[..|at| - 1];
    LookupWellFormed(n, at);
    assert dir + [at[|at| - 1]] == at;
    if Lookup(n, dir).None? || !Lookup(n, dir).value.Dir? {
      NothingBelow(n, dir, at);
    }
  }

  ghost predicate Rewritten(fs: Node, after: Node, root: Location, at: Location, bytes: Bytes) {
    forall q :: ReadFile(after, q) == if q == root + at then Some(bytes) else ReadFile(fs, q)
  }

  /** The tree with other contents in one file. */
  lemma Overwrite(fs: Node, root: Location, at: Location, bytes: Bytes) returns (after: Node)
    requires Directory(fs, root) && at in KeptAt(fs, root)
    ensures Directory(after, root) && Rewritten(fs, after, root, at, bytes)
    ensures ReadFile(after, root + at) == Some(bytes)
  {
    KeptMember(fs, root, at);
    KeptNamed(fs, root, at);
    FileInDirectory(fs, root + at);
    after := SetFile(fs, root + at, Some(bytes));
    SetWellFormed(fs, root + at, Some(File(bytes)));
    forall q ensures ReadFile(after, q) == if q == root + at then Some(bytes) else ReadFile(fs, q) {
      SetReads(fs, root + at, Some(bytes), q);
    }
    StillDirectory(fs, root, at, bytes);
  }

  lemma StillDirectory(fs: Node, root: Location, at: Location, bytes: Bytes)
    requires Directory(fs, root) && at != [] && InDirectory(fs, root + at) && NoDirectory(fs, root + at)
    ensures IsDirectory(SetFile(fs, root + at, Some(bytes)), root)
  {
    var after := SetFile(fs, root + at, Some(bytes));
    SetReads(fs, root + at, Some(bytes), root + at);
    if !IsDirectory(after, root) {
      assert root + at != root by { assert |root + at| > |root|; }
      NothingBelow(after, root, root + at);
    }
  }

  lemma RecordedNoBackslash(t: Tools, fs: Node, root: Location, m: Manifest, i: nat)
    requires Directory(fs, root) && Holds(t, fs, root, m) && i < |m.files|
    ensures BACKSLASH !in m.files[i].path
  {
    var path := m.files[i].path;
    assert RecordedPaths(m.files)[i] == path;
    KeptTexts(fs, root, path);
    var at :| at in KeptAt(fs, root) && PathText(at) == path;
  }

  lemma PlainElsewhere(root: Location, name: Text, at: Location)
    requires BACKSLASH !in name && !Clean(at)
    ensures root + [name] != root + at
  {
    assert (root + at)[|root|..] == at && (root + [name])[|root|..] == [name];
  }

  lemma PlainNames()
    ensures BACKSLASH !in PACKAGE && BACKSLASH !in RECEIPT && BACKSLASH !in MANIFEST
    ensures BACKSLASH !in Ascii("woml-core.") && BACKSLASH !in Ascii(".node")
  {
    assert |PACKAGE| == 12 && |RECEIPT| == 21 && |MANIFEST| == 20;
  }

  lemma HoldsAnyway(t: Tools, fs: Node, after: Node, root: Location, m: Manifest, at: Location, bytes: Bytes)
    requires Directory(fs, root) && Directory(after, root) && Holds(t, fs, root, m)
    requires at in KeptAt(fs, root) && !Clean(at) && Rewritten(fs, after, root, at, bytes)
    ensures Holds(t, after, root, m)
  {
    IdentityMissed(t, fs, after, root, at, bytes);
    KeptRewritten(fs, after, root, at, bytes);
    forall i | 0 <= i < |m.files| ensures Measure(t, after, root, m.files[i].path) == Some(m.files[i]) {
      RecordedNoBackslash(t, fs, root, m, i);
      MeasureMissed(t, fs, after, root, at, bytes, m.files[i].path);
    }
  }

  lemma IdentityMissed(t: Tools, fs: Node, after: Node, root: Location, at: Location, bytes: Bytes)
    requires Rewritten(fs, after, root, at, bytes) && !Clean(at)
    ensures PackageIdentity(t, after, root) == PackageIdentity(t, fs, root)
  {
    PlainNames();
    PlainElsewhere(root, PACKAGE, at);
  }

  lemma KeptRewritten(fs: Node, after: Node, root: Location, at: Location, bytes: Bytes)
    requires Directory(fs, root) && Directory(after, root)
    requires at in KeptAt(fs, root) && Rewritten(fs, after, root, at, bytes)
    ensures Kept(after, root) == Kept(fs, root)
  {
    KeptMember(fs, root, at);
    RewrittenPlaces(fs, after, root, at, bytes);
    KeptSame(fs, after, root);
  }

  lemma MeasureMissed(t: Tools, fs: Node, after: Node, root: Location, at: Location, bytes: Bytes, path: Text)
    requires Rewritten(fs, after, root, at, bytes) && !Clean(at) && BACKSLASH !in path
    ensures Measure(t, after, root, path) == Measure(t, fs, root, path)
  {
    UncleanMissed(root, path, at);
  }

  lemma RewrittenPlaces(fs: Node, after: Node, root: Location, at: Location, bytes: Bytes)
    requires Rewritten(fs, after, root, at, bytes) && ReadFile(fs, root + at).Some?
    ensures SamePlaces(fs, after, root)
  {
  }

  lemma CompleteAnyway(t: Tools, fs: Node, after: Node, root: Location, m: Manifest, at: Location, bytes: Bytes)
    requires !Clean(at) && Rewritten(fs, after, root, at, bytes) && Complete(t, fs, root, m)
    requires PlainTargets(t)
    ensures Complete(t, after, root, m) && ReadManifest(t, after, root) == ReadManifest(t, fs, root)
  {
    PlainNames();
    PlainElsewhere(root, RECEIPT, at);
    PlainElsewhere(root, MANIFEST, at);
    if m.kind == NATIVE {
      UncleanMissed(root, BinaryName(m.target.value), at);
    }
  }

  /** Whatever a file with a backslash in its path holds, verification does not look at it. */
  lemma UncleanHidden(t: Tools, fs: Node, root: Location, m: Manifest, at: Location, bytes: Bytes) returns (after: Node)
    requires Directory(fs, root) && Accepts(t, fs, root, m) && at in KeptAt(fs, root) && !Clean(at)
    requires PlainTargets(t)
    ensures Directory(after, root) && Accepts(t, after, root, m) && ReadFile(after, root + at) == Some(bytes)
  {
    after := Overwrite(fs, root, at, bytes);
    HoldsAnyway(t, fs, after, root, m, at, bytes);
    CompleteAnyway(t, fs, after, root, m, at, bytes);
  }

  /** Any tree that verifies against the manifest has the sealed contents. */
  ghost predicate Detects(t: Tools, fs: Node, root: Location, m: Manifest) {
    forall other | Directory(other, root) && Accepts(t, other, root, m) :: SameContents(fs, other, root)
  }

  /** Verification detects every change to a verified tree exactly when no file in it has a
      backslash in its path. */
  lemma FaithfulIffClean(t: Tools, fs: Node, root: Location, m: Manifest)
    requires Injective(t) && Directory(fs, root) && Accepts(t, fs, root, m)
    requires PlainTargets(t)
    ensures Detects(t, fs, root, m) <==> AllClean(fs, root)
  {
    if AllClean(fs, root) {
      forall other | Directory(other, root) && Accepts(t, other, root, m) ensures SameContents(fs, other, root) {
        CleanDetects(t, fs, other, root, m);
      }
    } else {
      var at :| at in KeptAt(fs, root) && !Clean(at);
      KeptMember(fs, root, at);
      var bytes := ReadFile(fs, root + at).value;
      var other := UncleanHidden(t, fs, root, m, at, bytes + [0]);
      assert ReadFile(other, root + at) != ReadFile(fs, root + at);
      assert !SameContents(fs, other, root);
    }
  }
}
