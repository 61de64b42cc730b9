/**
 The canonical printer behind dispatch ids and package digests: object keys are printed in
 code-unit order (the order of section 3.2.3 of RFC 8785), everything else as JSON.stringify
 prints it. Its text determines the value up to the order of object fields.
 */
module CanonicalJson {
  import opened Text
  import opened Sequences
  import opened Sorting
  import opened Json

  predicate FieldLeq(a: Field, b: Field) { LexLeq(a.key, b.key) }

  function SortFields(fields: seq<Field>): seq<Field> {
    Sort(fields, FieldLeq)
  }

  lemma FieldOrder()
    ensures TotalOrder(FieldLeq)
  {
    LexOrder();
    forall a, b ensures FieldLeq(a, b) || FieldLeq(b, a) {
      LexTotal(a.key, b.key);
    }
    forall a, b, c | FieldLeq(a, b) && FieldLeq(b, c) ensures FieldLeq(a, c) {
      LexTransitive(a.key, b.key, c.key);
    }
  }

  lemma SortFieldsMember(fields: seq<Field>)
    ensures |SortFields(fields)| == |fields|
    ensures forall f :: f in SortFields(fields) <==> f in fields
  {
    FieldOrder();
    SortSorts(fields, FieldLeq);
    forall f ensures f in SortFields(fields) <==> f in fields {
      SortMember(fields, FieldLeq, f);
    }
  }

  // ----- the printer, as written -----

  function Canonical(v: Json): Text
    requires NumbersValid(v)
    decreases v, 1, 0
  {
    match v
    case Arr(items) => [OPEN_ARRAY] + CanonicalItems(items, v) + [CLOSE_ARRAY]
    case Obj(fields) =>
      SortFieldsMember(fields);
      [OPEN_OBJECT] + CanonicalFields(SortFields(fields), v) + [CLOSE_OBJECT]
    case _ => Print(v)
  }

  function CanonicalItems(items: seq<Json>, ghost owner: Json): Text
    requires owner.Arr? && forall x | x in items :: x in owner.items && NumbersValid(x)
    decreases owner, 0, |items|
  {
    if items == [] then []
    else if |items| == 1 then Canonical(items[0])
    else Canonical(items[0]) + [COMMA] + CanonicalItems(items[1..], owner)
  }

  function CanonicalFields(fields: seq<Field>, ghost owner: Json): Text
    requires owner.Obj? && forall f | f in fields :: f in owner.fields && NumbersValid(f.value)
    decreases owner, 0, |fields|
  {
    if fields == [] then []
    else
      var first := Quoted(fields[0].key) + [COLON] + Canonical(fields[0].value);
      if |fields| == 1 then first else first + [COMMA] + CanonicalFields(fields[1..], owner)
  }

  // ----- the value whose plain text that is -----

  function Canon(v: Json): Json
    decreases v, 1
  {
    match v
    case Arr(items) => Arr(CanonItems(items))
    case Obj(fields) => Obj(SortFields(CanonFields(fields)))
    case _ => v
  }

  function CanonItems(items: seq<Json>): (r: seq<Json>)
    ensures |r| == |items| && forall i | 0 <= i < |items| :: r[i] == Canon(items[i])
    decreases items, 0
  {
    if items == [] then [] else [Canon(items[0])] + CanonItems(items[1..])
  }

  function CanonFields(fields: seq<Field>): (r: seq<Field>)
    ensures |r| == |fields|
    ensures forall i | 0 <= i < |fields| :: r[i] == Field(fields[i].key, Canon(fields[i].value))
    decreases fields, 0
  {
    if fields == [] then []
    else [Field(fields[0].key, Canon(fields[0].value))] + CanonFields(fields[1..])
  }

  lemma {:induction false} CanonValid(v: Json)
    requires NumbersValid(v)
    ensures NumbersValid(Canon(v))
  {
    match v
    case Arr(items) =>
      forall x | x in Canon(v).items ensures NumbersValid(x) {
        var i :| 0 <= i < |items| && CanonItems(items)[i] == x;
        CanonValid(items[i]);
      }
    case Obj(fields) =>
      SortFieldsMember(CanonFields(fields));
      forall f | f in Canon(v).fields ensures NumbersValid(f.value) {
        assert f in CanonFields(fields);
        var i :| 0 <= i < |fields| && CanonFields(fields)[i] == f;
        CanonValid(fields[i].value);
      }
    case _ =>
  }

  lemma {:induction false} CanonInsert(f: Field, fields: seq<Field>)
    ensures CanonFields(Insert(f, fields, FieldLeq))
            == Insert(Field(f.key, Canon(f.value)), CanonFields(fields), FieldLeq)
  {
    if fields != [] && !FieldLeq(f, fields[0]) {
      CanonInsert(f, fields[1..]);
      var rest := Insert(f, fields[1..], FieldLeq);
      assert ([fields[0]] + rest)[1..] == rest;
      assert CanonFields(fields)[1..] == CanonFields(fields[1..]);
    } else {
      assert Insert(f, fields, FieldLeq)[1..] == fields;
    }
  }

  lemma {:induction false} CanonSort(fields: seq<Field>)
    ensures CanonFields(SortFields(fields)) == SortFields(CanonFields(fields))
  {
    if fields != [] {
      CanonSort(fields[1..]);
      CanonInsert(fields[0], SortFields(fields[1..]));
      assert CanonFields(fields)[1..] == CanonFields(fields[1..]);
    }
  }

  lemma {:induction false} CanonicalItemsText(items: seq<Json>, owner: Json)
    requires owner.Arr? && forall x | x in items :: x in owner.items && NumbersValid(x)
    ensures forall x | x in CanonItems(items) :: NumbersValid(x)
    ensures CanonicalItems(items, owner) == PrintItems(CanonItems(items))
    decreases owner, 0, |items|
  {
    forall x | x in items ensures NumbersValid(Canon(x)) {
      CanonValid(x);
    }
    if items != [] {
      assert items[0] in owner.items;
      CanonicalText(items[0]);
      CanonicalItemsText(items[1..], owner);
      assert CanonItems(items)[1..] == CanonItems(items[1..]);
    }
  }

  lemma {:induction false} CanonicalFieldsText(fields: seq<Field>, owner: Json)
    requires owner.Obj? && forall f | f in fields :: f in owner.fields && NumbersValid(f.value)
    ensures forall f | f in CanonFields(fields) :: NumbersValid(f.value)
    ensures CanonicalFields(fields, owner) == PrintFields(CanonFields(fields))
    decreases owner, 0, |fields|
  {
    forall f | f in fields ensures NumbersValid(Canon(f.value)) {
      CanonValid(f.value);
    }
    if fields != [] {
      CanonicalText(fields[0].value);
      CanonicalFieldsText(fields[1..], owner);
      assert CanonFields(fields)[1..] == CanonFields(fields[1..]);
    }
  }

  /** Sorting while printing is printing the value with its fields sorted at every level. */
  lemma {:induction false} CanonicalText(v: Json)
    requires NumbersValid(v)
    ensures NumbersValid(Canon(v)) && Canonical(v) == Print(Canon(v))
    decreases v, 1, 0
  {
    CanonValid(v);
    match v
    case Arr(items) => CanonicalItemsText(items, v);
    case Obj(fields) =>
      SortFieldsMember(fields);
      CanonicalFieldsText(SortFields(fields), v);
      CanonSort(fields);
    case _ =>
  }

  // ----- equality up to the order of object fields -----

  ghost predicate Same(a: Json, b: Json)
    decreases a
  {
    match a
    case Arr(items) =>
      && b.Arr? && |items| == |b.items|
      && forall i | 0 <= i < |items| :: Same(items[i], b.items[i])
    case Obj(fields) =>
      && b.Obj? && |fields| == |b.fields|
      && forall f | f in fields :: Matched(f, b.fields)
    case _ => a == b
  }

  ghost predicate Matched(f: Field, others: seq<Field>)
    decreases f
  {
    exists j :: 0 <= j < |others| && f.key == others[j].key && Same(f.value, others[j].value)
  }

  lemma CanonKeys(fields: seq<Field>)
    requires DistinctKeys(fields)
    ensures DistinctKeys(CanonFields(fields)) && Distinct(CanonFields(fields))
  {
  }

  lemma SortFieldsOfPermutation(a: seq<Field>, b: seq<Field>)
    requires DistinctKeys(a) && multiset(a) == multiset(b)
    ensures SortFields(a) == SortFields(b)
  {
    FieldOrder();
    forall x, y | x in a && y in a && FieldLeq(x, y) && FieldLeq(y, x) ensures x == y {
      LexAntisymmetric(x.key, y.key);
    }
    SortOfPermutation(a, b, FieldLeq);
  }

  lemma {:induction false} SameCanon(a: Json, b: Json)
    requires WellFormed(a) && WellFormed(b) && Same(a, b)
    ensures Canon(a) == Canon(b)
    decreases a
  {
    match a
    case Arr(items) =>
      forall i | 0 <= i < |items| ensures Canon(items[i]) == Canon(b.items[i]) {
        SameCanon(items[i], b.items[i]);
      }
      assert CanonItems(items) == CanonItems(b.items);
    case Obj(fields) =>
      var x, y := CanonFields(fields), CanonFields(b.fields);
      forall f | f in x ensures f in y {
        var i :| 0 <= i < |fields| && x[i] == f;
        assert Matched(fields[i], b.fields);
        var j :| 0 <= j < |y| && fields[i].key == b.fields[j].key && Same(fields[i].value, b.fields[j].value);
        SameCanon(fields[i].value, b.fields[j].value);
        assert y[j] == f;
      }
      CanonKeys(fields);
      CanonKeys(b.fields);
      SameElements(x, y);
      SortFieldsOfPermutation(x, y);
    case _ =>
  }

  lemma {:induction false} CanonSame(a: Json, b: Json)
    requires WellFormed(a) && WellFormed(b) && Canon(a) == Canon(b)
    ensures Same(a, b)
    decreases a
  {
    match a
    case Arr(items) =>
      assert CanonItems(items) == CanonItems(b.items);
      forall i | 0 <= i < |items| ensures Same(items[i], b.items[i]) {
        assert CanonItems(items)[i] == CanonItems(b.items)[i];
        CanonSame(items[i], b.items[i]);
      }
    case Obj(fields) =>
      var x, y := CanonFields(fields), CanonFields(b.fields);
      SortFieldsMember(x);
      SortFieldsMember(y);
      forall f | f in fields ensures Matched(f, b.fields) {
        var i :| 0 <= i < |fields| && fields[i] == f;
        assert x[i] in SortFields(y);
        var j :| 0 <= j < |y| && y[j] == x[i];
        CanonSame(f.value, b.fields[j].value);
      }
    case _ =>
  }

  lemma {:induction false} WellFormedNumbers(v: Json)
    requires WellFormed(v)
    ensures NumbersValid(v)
  {
    match v
    case Arr(items) => forall x | x in items ensures NumbersValid(x) { WellFormedNumbers(x); }
    case Obj(fields) => forall f | f in fields ensures NumbersValid(f.value) { WellFormedNumbers(f.value); }
    case _ =>
  }

  /** The printer can be inverted: reading a canonical text gives the value, its fields sorted. */
  lemma CanonicalReadable(v: Json)
    requires WellFormed(v)
    ensures NumbersValid(v) && ParseAll(Canonical(v)) == Done(Canon(v), [])
    ensures Same(Canon(v), v)
  {
    WellFormedNumbers(v);
    CanonicalText(v);
    RoundTrip(Canon(v));
    CanonIdempotent(v);
    CanonWellFormed(v);
    CanonSame(Canon(v), v);
  }

  lemma {:induction false} CanonWellFormed(v: Json)
    requires WellFormed(v)
    ensures WellFormed(Canon(v))
  {
    match v
    case Arr(items) =>
      forall x | x in Canon(v).items ensures WellFormed(x) {
        var i :| 0 <= i < |items| && CanonItems(items)[i] == x;
        CanonWellFormed(items[i]);
      }
    case Obj(fields) =>
      var x := CanonFields(fields);
      SortFieldsMember(x);
      forall f | f in Canon(v).fields ensures WellFormed(f.value) {
        assert f in x;
        var i :| 0 <= i < |fields| && x[i] == f;
        CanonWellFormed(fields[i].value);
      }
      CanonKeys(fields);
      SortKeepsKeys(x);
    case _ =>
  }

  lemma SortKeepsKeys(fields: seq<Field>)
    requires DistinctKeys(fields)
    ensures DistinctKeys(SortFields(fields))
  {
    FieldOrder();
    SortSorts(fields, FieldLeq);
    var s := SortFields(fields);
    DistinctOfPermutation(fields, s);
    forall i, j | 0 <= i < j < |s| ensures s[i].key != s[j].key {
      assert s[i] in multiset(fields) && s[j] in multiset(fields);
    }
  }

  lemma {:induction false} CanonIdempotent(v: Json)
    requires WellFormed(v)
    ensures Canon(Canon(v)) == Canon(v)
  {
    match v
    case Arr(items) =>
      forall i | 0 <= i < |items| ensures Canon(Canon(items[i])) == Canon(items[i]) {
        CanonIdempotent(items[i]);
      }
      assert CanonItems(CanonItems(items)) == CanonItems(items);
    case Obj(fields) =>
      var x := CanonFields(fields);
      forall i | 0 <= i < |fields| ensures Canon(Canon(fields[i].value)) == Canon(fields[i].value) {
        CanonIdempotent(fields[i].value);
      }
      assert CanonFields(x) == x;
      CanonSort(x);
      CanonKeys(fields);
      FieldOrder();
      SortSorts(x, FieldLeq);
      SortFieldsOfPermutation(x, SortFields(x));
    case _ =>
  }

  /** Two values print the same canonical text exactly when they are equal up to field order. */
  lemma UniqueReadability(a: Json, b: Json)
    requires WellFormed(a) && WellFormed(b)
    ensures NumbersValid(a) && NumbersValid(b)
    ensures Canonical(a) == Canonical(b) <==> Same(a, b)
  {
    CanonicalReadable(a);
    CanonicalReadable(b);
    WellFormedNumbers(a);
    WellFormedNumbers(b);
    CanonicalText(a);
    CanonicalText(b);
    if Same(a, b) {
      SameCanon(a, b);
    }
    if Canonical(a) == Canonical(b) {
      CanonSame(a, b);
    }
  }

  /** Keys come out in ascending code-unit order. */
  lemma KeysAscend(fields: seq<Field>, i: nat, j: nat)
    requires DistinctKeys(fields) && i < j < |fields|
    ensures var c := Canon(Obj(fields)).fields;
            && |c| == |fields| && Precedes(c[i].key, c[j].key)
  {
    var plain := CanonFields(fields);
    var c := Canon(Obj(fields)).fields;
    FieldOrder();
    SortSorts(plain, FieldLeq);
    assert FieldLeq(c[i], c[j]);
    LexMeans(c[i].key, c[j].key);
    CanonKeys(fields);
    SortKeepsKeys(plain);
  }
}
