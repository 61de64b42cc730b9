/** JSON objects used as records: fixed keys, and access to a field by its key. */
module JsonRecords {
  import opened Text
  import opened Sequences
  import opened Json
  import opened CanonicalJson

  function Record(keys: seq<Text>, values: seq<Json>): (fields: seq<Field>)
    requires |keys| == |values|
    ensures |fields| == |keys| && forall i | 0 <= i < |keys| :: fields[i] == Field(keys[i], values[i])
  {
    seq(|keys|, i requires 0 <= i < |keys| => Field(keys[i], values[i]))
  }

  /** Records over the same keys are equal up to field order exactly when their values agree. */
  lemma SameRecords(keys: seq<Text>, a: seq<Json>, b: seq<Json>)
    requires Distinct(keys) && |keys| == |a| == |b|
    ensures Same(Obj(Record(keys, a)), Obj(Record(keys, b)))
            <==> forall i | 0 <= i < |keys| :: Same(a[i], b[i])
  {
    var x, y := Record(keys, a), Record(keys, b);
    if Same(Obj(x), Obj(y)) {
      forall i | 0 <= i < |keys| ensures Same(a[i], b[i]) {
        SameField(keys, a, b, i);
      }
    }
    if forall i | 0 <= i < |keys| :: Same(a[i], b[i]) {
      forall f | f in x ensures Matched(f, y) {
        var i :| 0 <= i < |x| && x[i] == f;
        assert Same(f.value, y[i].value);
      }
    }
  }

  lemma SameField(keys: seq<Text>, a: seq<Json>, b: seq<Json>, i: nat)
    requires Distinct(keys) && |keys| == |a| == |b| && i < |keys|
    requires Same(Obj(Record(keys, a)), Obj(Record(keys, b)))
    ensures Same(a[i], b[i])
  {
    var f, y := Record(keys, a)[i], Record(keys, b);
    assert Matched(f, y);
    var j :| 0 <= j < |y| && f.key == y[j].key && Same(f.value, y[j].value);
  }

  lemma WellFormedRecord(keys: seq<Text>, values: seq<Json>)
    requires Distinct(keys) && |keys| == |values| && forall v | v in values :: WellFormed(v)
    ensures WellFormed(Obj(Record(keys, values)))
  {
    var fields := Record(keys, values);
    forall f | f in fields ensures WellFormed(f.value) {
      var i :| 0 <= i < |fields| && fields[i] == f;
      assert values[i] in values;
    }
  }

  function Get(fields: seq<Field>, key: Text): Json {
    if fields == [] then Null
    else if fields[0].key == key then fields[0].value
    else Get(fields[1..], key)
  }

  lemma {:induction false} GetAt(fields: seq<Field>, i: nat)
    requires DistinctKeys(fields) && i < |fields|
    ensures Get(fields, fields[i].key) == fields[i].value
  {
    if i > 0 {
      GetAt(fields[1..], i - 1);
    }
  }

  /** Putting an object into canonical form moves its members and keeps them. */
  lemma CanonGet(fields: seq<Field>, i: nat)
    requires DistinctKeys(fields) && i < |fields|
    ensures Get(Canon(Obj(fields)).fields, fields[i].key) == Canon(fields[i].value)
  {
    var inner := CanonFields(fields);
    CanonKeys(fields);
    SortKeepsKeys(inner);
    SortFieldsMember(inner);
    assert inner[i] in SortFields(inner);
    var j :| 0 <= j < |inner| && SortFields(inner)[j] == inner[i];
    GetAt(SortFields(inner), j);
  }
}
