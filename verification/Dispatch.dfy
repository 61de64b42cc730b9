/**
 Dispatch ids and package digests: SHA-256 of canonical JSON. The hash is a parameter; what is
 asked of it is that it has no collisions.
 */
module Dispatch {
  import opened Text
  import opened Sequences
  import opened JsonNumbers
  import opened Json
  import opened CanonicalJson
  import opened JsonRecords

  ghost predicate Injective(hash: Text -> Text) {
    forall x, y :: hash(x) == hash(y) ==> x == y
  }

  function Digest(hash: Text -> Text, value: Text): Text {
    Ascii("sha256:") + hash(value)
  }

  // ----- the dispatch id -----

  datatype Identity = Identity(
    domain: Text, attempt: Number, invocationId: Text, iterationIdentity: Text,
    nodeId: Text, runId: Text, target: Text, targetDigest: Text)

  function IdentityKeys(): seq<Text> {
    [Ascii("domain"), Ascii("attempt"), Ascii("invocationId"), Ascii("iterationIdentity"),
     Ascii("nodeId"), Ascii("runId"), Ascii("target"), Ascii("targetDigest")]
  }

  function IdentityValues(i: Identity): seq<Json> {
    [Str(i.domain), Num(i.attempt), Str(i.invocationId), Str(i.iterationIdentity),
     Str(i.nodeId), Str(i.runId), Str(i.target), Str(i.targetDigest)]
  }

  function IdentityJson(i: Identity): Json {
    Obj(Record(IdentityKeys(), IdentityValues(i)))
  }

  lemma IdentityKeysDistinct()
    ensures Distinct(IdentityKeys())
  {
    var k := IdentityKeys();
    assert k[0][0] == 100 && k[4][0] == 110 && k[6][0] == 116;
    assert k[2][0] == 105 && k[7][0] == 116;
  }

  lemma IdentityWellFormed(i: Identity)
    requires ValidNumber(i.attempt)
    ensures WellFormed(IdentityJson(i)) && NumbersValid(IdentityJson(i))
  {
    IdentityKeysDistinct();
    WellFormedRecord(IdentityKeys(), IdentityValues(i));
    WellFormedNumbers(IdentityJson(i));
  }

  /** `dispatch_` and the digest's hex part: the digest without its seven-unit prefix. */
  function DispatchId(hash: Text -> Text, i: Identity): Text
    requires ValidNumber(i.attempt)
  {
    IdentityWellFormed(i);
    Ascii("dispatch_") + Digest(hash, Canonical(IdentityJson(i)))[7..]
  }

  /** The eight members of an identity, each under its own name. */
  ghost predicate NamesIdentity(v: Json, i: Identity) {
    && v.Obj? && |v.fields| == 8
    && Get(v.fields, Ascii("domain")) == Str(i.domain) && Get(v.fields, Ascii("attempt")) == Num(i.attempt)
    && Get(v.fields, Ascii("invocationId")) == Str(i.invocationId)
    && Get(v.fields, Ascii("iterationIdentity")) == Str(i.iterationIdentity)
    && Get(v.fields, Ascii("nodeId")) == Str(i.nodeId) && Get(v.fields, Ascii("runId")) == Str(i.runId)
    && Get(v.fields, Ascii("target")) == Str(i.target) && Get(v.fields, Ascii("targetDigest")) == Str(i.targetDigest)
  }

  /** A dispatch id is `dispatch_` and the hash of a text that reads as the identity, member by member,
      with the keys in ascending order. */
  lemma DispatchIdReads(hash: Text -> Text, i: Identity) returns (text: Text, v: Json)
    requires ValidNumber(i.attempt)
    ensures DispatchId(hash, i) == Ascii("dispatch_") + hash(text)
    ensures ParseAll(text) == Done(v, []) && NamesIdentity(v, i)
    ensures forall a, b | 0 <= a < b < |v.fields| :: Precedes(v.fields[a].key, v.fields[b].key)
  {
    IdentityWellFormed(i);
    IdentityKeysDistinct();
    var fields := Record(IdentityKeys(), IdentityValues(i));
    text, v := Canonical(Obj(fields)), Canon(Obj(fields));
    CanonicalReadable(Obj(fields));
    assert Digest(hash, text)[7..] == hash(text);
    SortFieldsMember(CanonFields(fields));
    IdentityMembers(i, fields);
    forall a, b | 0 <= a < b < |v.fields| ensures Precedes(v.fields[a].key, v.fields[b].key) {
      KeysAscend(fields, a, b);
    }
  }

  lemma IdentityMembers(i: Identity, fields: seq<Field>)
    requires fields == Record(IdentityKeys(), IdentityValues(i)) && DistinctKeys(fields)
    ensures |Canon(Obj(fields)).fields| == 8 ==> NamesIdentity(Canon(Obj(fields)), i)
  {
    CanonGet(fields, 0);
    CanonGet(fields, 1);
    CanonGet(fields, 2);
    CanonGet(fields, 3);
    CanonGet(fields, 4);
    CanonGet(fields, 5);
    CanonGet(fields, 6);
    CanonGet(fields, 7);
  }

  lemma SameIdentity(i: Identity, j: Identity)
    ensures Same(IdentityJson(i), IdentityJson(j)) <==> i == j
  {
    IdentityKeysDistinct();
    SameRecords(IdentityKeys(), IdentityValues(i), IdentityValues(j));
    SameValues(i, j);
  }

  lemma SameValues(i: Identity, j: Identity)
    ensures (forall k | 0 <= k < 8 :: Same(IdentityValues(i)[k], IdentityValues(j)[k])) <==> i == j
  {
    var a, b := IdentityValues(i), IdentityValues(j);
    assert forall k | 0 <= k < 8 :: Same(a[k], b[k]) <==> a[k] == b[k];
    if forall k | 0 <= k < 8 :: a[k] == b[k] {
      assert a[0] == b[0] && a[1] == b[1] && a[2] == b[2] && a[3] == b[3];
      assert a[4] == b[4] && a[5] == b[5] && a[6] == b[6] && a[7] == b[7];
    }
  }

  /** Two identities share a dispatch id exactly when they agree in every field. */
  lemma DispatchIdDetermines(hash: Text -> Text, i: Identity, j: Identity)
    requires Injective(hash) && ValidNumber(i.attempt) && ValidNumber(j.attempt)
    ensures DispatchId(hash, i) == DispatchId(hash, j) <==> i == j
  {
    IdentityWellFormed(i);
    IdentityWellFormed(j);
    var a, b := Canonical(IdentityJson(i)), Canonical(IdentityJson(j));
    assert DispatchId(hash, i)[9..] == hash(a) && DispatchId(hash, j)[9..] == hash(b);
    UniqueReadability(IdentityJson(i), IdentityJson(j));
    SameIdentity(i, j);
  }

  // ----- the package digest -----

  const PACKAGE_DIGEST: Text := Ascii("packageDigest")

  predicate HasKey(fields: seq<Field>, key: Text) {
    exists i :: 0 <= i < |fields| && fields[i].key == key
  }

  /** Assignment to a property: in place where the key exists, at the end where it does not. */
  function Assign(fields: seq<Field>, key: Text, value: Json): (r: seq<Field>) {
    if HasKey(fields, key) then
      seq(|fields|, i requires 0 <= i < |fields| =>
        if fields[i].key == key then Field(key, value) else fields[i])
    else fields + [Field(key, value)]
  }

  lemma AssignKeys(fields: seq<Field>, key: Text, value: Json)
    requires HasKey(fields, key)
    ensures |Assign(fields, key, value)| == |fields| && HasKey(Assign(fields, key, value), key)
    ensures forall i | 0 <= i < |fields| :: Assign(fields, key, value)[i].key == fields[i].key
  {
    var i :| 0 <= i < |fields| && fields[i].key == key;
    assert Assign(fields, key, value)[i].key == key;
  }

  /** What was assigned is what is read, and every other key reads as before. */
  lemma AssignGet(fields: seq<Field>, key: Text, v: Json, other: Text)
    requires DistinctKeys(fields)
    ensures Get(Assign(fields, key, v), key) == v
    ensures other != key ==> Get(Assign(fields, key, v), other) == Get(fields, other)
  {
    var after := Assign(fields, key, v);
    if HasKey(fields, key) {
      AssignKeys(fields, key, v);
      var i :| 0 <= i < |fields| && fields[i].key == key;
      GetAt(after, i);
      if other != key {
        GetSame(fields, after, key, other);
      }
    } else {
      GetLast(fields, Field(key, v), key);
      GetLast(fields, Field(key, v), other);
      if exists i :: 0 <= i < |fields| && fields[i].key == key {
        assert HasKey(fields, key);
      }
    }
  }

  lemma {:induction false} GetSame(a: seq<Field>, b: seq<Field>, key: Text, other: Text)
    requires |a| == |b| && other != key
    requires forall i | 0 <= i < |a| :: a[i].key == b[i].key && (a[i].key != key ==> a[i] == b[i])
    ensures Get(a, other) == Get(b, other)
  {
    if a != [] {
      GetSame(a[1..], b[1..], key, other);
    }
  }

  lemma {:induction false} GetLast(fields: seq<Field>, f: Field, key: Text)
    requires key == f.key ==> forall i | 0 <= i < |fields| :: fields[i].key != key
    ensures Get(fields + [f], key) == if key == f.key then f.value else Get(fields, key)
  {
    if fields == [] {
      assert fields + [f] == [f];
    } else {
      assert (fields + [f])[0] == fields[0] && (fields + [f])[1..] == fields[1..] + [f];
      GetLast(fields[1..], f, key);
    }
  }

  lemma AssignTwice(fields: seq<Field>, key: Text, v: Json, w: Json)
    requires HasKey(fields, key)
    ensures Assign(Assign(fields, key, v), key, w) == Assign(fields, key, w)
  {
    AssignKeys(fields, key, v);
  }

  lemma AssignSame(fields: seq<Field>, key: Text)
    requires DistinctKeys(fields) && HasKey(fields, key)
    ensures Assign(fields, key, Get(fields, key)) == fields
  {
    forall i | 0 <= i < |fields| && fields[i].key == key ensures fields[i].value == Get(fields, key) {
      GetAt(fields, i);
    }
  }

  ghost predicate ValidPackage(p: seq<Field>) {
    WellFormed(Obj(p)) && HasKey(p, PACKAGE_DIGEST)
  }

  function Unsealed(p: seq<Field>): seq<Field> {
    Assign(p, PACKAGE_DIGEST, Str([]))
  }

  lemma AssignValid(p: seq<Field>, v: Json)
    requires ValidPackage(p) && WellFormed(v)
    ensures ValidPackage(Assign(p, PACKAGE_DIGEST, v)) && NumbersValid(Obj(Assign(p, PACKAGE_DIGEST, v)))
  {
    var r := Assign(p, PACKAGE_DIGEST, v);
    AssignKeys(p, PACKAGE_DIGEST, v);
    forall f | f in r ensures WellFormed(f.value) {
      var i :| 0 <= i < |r| && r[i] == f;
      assert p[i] in p;
    }
    WellFormedNumbers(Obj(r));
  }

  /** What the receiving worker recomputes: the digest of the package with a blank digest. */
  function ComputedDigest(hash: Text -> Text, p: seq<Field>): Text
    requires ValidPackage(p)
  {
    AssignValid(p, Str([]));
    Digest(hash, Canonical(Obj(Unsealed(p))))
  }

  /** The producer: digest the package as built, with the digest blank, then store the digest. */
  function Sealed(hash: Text -> Text, p: seq<Field>): seq<Field>
    requires ValidPackage(p) && Get(p, PACKAGE_DIGEST) == Str([])
  {
    WellFormedNumbers(Obj(p));
    Assign(p, PACKAGE_DIGEST, Str(Digest(hash, Canonical(Obj(p)))))
  }

  ghost predicate Intact(hash: Text -> Text, p: seq<Field>)
    requires ValidPackage(p)
  {
    Get(p, PACKAGE_DIGEST) == Str(ComputedDigest(hash, p))
  }

  /** What the producer seals, the receiver finds intact. */
  lemma SealedIsIntact(hash: Text -> Text, p: seq<Field>)
    requires ValidPackage(p) && Get(p, PACKAGE_DIGEST) == Str([])
    ensures ValidPackage(Sealed(hash, p)) && Intact(hash, Sealed(hash, p))
  {
    WellFormedNumbers(Obj(p));
    var d := Str(Digest(hash, Canonical(Obj(p))));
    AssignValid(p, d);
    AssignGet(p, PACKAGE_DIGEST, d, PACKAGE_DIGEST);
    AssignTwice(p, PACKAGE_DIGEST, d, Str([]));
    AssignSame(p, PACKAGE_DIGEST);
  }

  /** An intact package's digest fixes every field of it, up to field order. */
  lemma PackageDigestDetermines(hash: Text -> Text, p: seq<Field>, q: seq<Field>)
    requires Injective(hash) && ValidPackage(p) && ValidPackage(q)
    requires Intact(hash, p) && Intact(hash, q)
    ensures Get(p, PACKAGE_DIGEST) == Get(q, PACKAGE_DIGEST) <==> Same(Obj(p), Obj(q))
  {
    AssignValid(p, Str([]));
    AssignValid(q, Str([]));
    UniqueReadability(Obj(Unsealed(p)), Obj(Unsealed(q)));
    var x, y := Canonical(Obj(Unsealed(p))), Canonical(Obj(Unsealed(q)));
    assert Digest(hash, x)[7..] == hash(x) && Digest(hash, y)[7..] == hash(y);
    if Get(p, PACKAGE_DIGEST) == Get(q, PACKAGE_DIGEST) {
      SameSealed(p, q);
    }
    if Same(Obj(p), Obj(q)) {
      SameAssign(p, q, PACKAGE_DIGEST, Str([]));
    }
  }

  lemma Restored(p: seq<Field>)
    requires ValidPackage(p)
    ensures HasKey(Unsealed(p), PACKAGE_DIGEST)
    ensures Assign(Unsealed(p), PACKAGE_DIGEST, Get(p, PACKAGE_DIGEST)) == p
  {
    AssignKeys(p, PACKAGE_DIGEST, Str([]));
    AssignTwice(p, PACKAGE_DIGEST, Str([]), Get(p, PACKAGE_DIGEST));
    AssignSame(p, PACKAGE_DIGEST);
  }

  /** Putting one digest back into two packages that are otherwise the same. */
  lemma SameSealed(p: seq<Field>, q: seq<Field>)
    requires ValidPackage(p) && ValidPackage(q) && Get(p, PACKAGE_DIGEST).Str?
    requires Same(Obj(Unsealed(p)), Obj(Unsealed(q))) && Get(p, PACKAGE_DIGEST) == Get(q, PACKAGE_DIGEST)
    ensures Same(Obj(p), Obj(q))
  {
    Restored(p);
    Restored(q);
    SameAssign(Unsealed(p), Unsealed(q), PACKAGE_DIGEST, Get(p, PACKAGE_DIGEST));
  }

  /** Assigning one value under a shared key keeps objects equal up to field order. */
  lemma SameAssign(a: seq<Field>, b: seq<Field>, key: Text, v: Json)
    requires Same(Obj(a), Obj(b)) && HasKey(a, key) && HasKey(b, key) && v.Str?
    ensures Same(Obj(Assign(a, key, v)), Obj(Assign(b, key, v)))
  {
    var x, y := Assign(a, key, v), Assign(b, key, v);
    AssignKeys(a, key, v);
    AssignKeys(b, key, v);
    forall f | f in x ensures Matched(f, y) {
      var i :| 0 <= i < |x| && x[i] == f;
      assert Matched(a[i], b);
      var j :| 0 <= j < |b| && a[i].key == b[j].key && Same(a[i].value, b[j].value);
      assert Same(f.value, y[j].value);
    }
  }
}
