/**
 A file system: directories with named entries, what a location holds, and what is under a
 directory. Links are not part of it; a special node is one that cannot be read as a file.
 */
module FileTree {
  import opened Options
  import opened Text
  import opened Sequences

  type Bytes = seq<int>

  type Location = seq<Text>

  datatype Node = File(bytes: Bytes) | Dir(entries: Entries) | Special

  datatype Entries = End | Entry(name: Text, node: Node, rest: Entries)

  function Find(e: Entries, name: Text): Option<Node> {
    match e
    case End => None
    case Entry(n, node, rest) => if n == name then Some(node) else Find(rest, name)
  }

  function Lookup(n: Node, at: Location): Option<Node>
    decreases |at|
  {
    if at == [] then Some(n)
    else if !n.Dir? then None
    else match Find(n.entries, at[0]) case None => None case Some(child) => Lookup(child, at[1..])
  }

  function ReadFile(n: Node, at: Location): Option<Bytes> {
    match Lookup(n, at) case Some(File(b)) => Some(b) case _ => None
  }

  predicate ValidName(name: Text) {
    name != [] && name != Ascii(".") && name != Ascii("..") && SLASH !in name
  }

  predicate WellFormed(n: Node) {
    n.Dir? ==> WellFormedEntries(n.entries)
  }

  predicate WellFormedEntries(e: Entries) {
    e.Entry? ==> ValidName(e.name) && Find(e.rest, e.name).None? && WellFormed(e.node) && WellFormedEntries(e.rest)
  }

  lemma LookupAppend(n: Node, a: Location, b: Location)
    requires Lookup(n, a).Some?
    ensures Lookup(n, a + b) == Lookup(Lookup(n, a).value, b)
    decreases |a|
  {
    if a == [] {
      assert a + b == b;
    } else {
      assert (a + b)[1..] == a[1..] + b;
      LookupAppend(Find(n.entries, a[0]).value, a[1..], b);
    }
  }

  lemma {:induction false} FindWellFormed(e: Entries, name: Text)
    requires WellFormedEntries(e)
    ensures Find(e, name).Some? ==> ValidName(name) && WellFormed(Find(e, name).value)
  {
    if e.Entry? && e.name != name {
      FindWellFormed(e.rest, name);
    }
  }

  lemma {:induction false} LookupWellFormed(n: Node, at: Location)
    requires WellFormed(n)
    ensures Lookup(n, at).Some? ==> WellFormed(Lookup(n, at).value) && forall i | 0 <= i < |at| :: ValidName(at[i])
    decreases |at|
  {
    if at != [] && n.Dir? && Find(n.entries, at[0]).Some? {
      FindWellFormed(n.entries, at[0]);
      LookupWellFormed(Find(n.entries, at[0]).value, at[1..]);
    }
  }

  // ----- the files under a directory -----

  /** The locations of all files below, in the order in which they are met. */
  function Locations(e: Entries, here: Location): seq<Location> {
    match e
    case End => []
    case Entry(name, File(_), rest) => [here + [name]] + Locations(rest, here)
    case Entry(name, Dir(inner), rest) => Locations(inner, here + [name]) + Locations(rest, here)
    case Entry(name, Special, rest) => Locations(rest, here)
  }

  lemma {:induction false} LocationsBelow(e: Entries, here: Location, at: Location)
    requires at in Locations(e, here)
    ensures |at| > |here| && here <= at && Find(e, at[|here|]).Some?
  {
    match e
    case Entry(name, node, rest) =>
      if at in Locations(rest, here) {
        LocationsBelow(rest, here, at);
      } else if node.Dir? {
        LocationsBelow(node.entries, here + [name], at);
        assert at[..|here|] == at[..|here| + 1][..|here|] == here;
      }
  }

  /** A location is listed exactly when a file is there. */
  lemma {:induction false} LocationsRead(e: Entries, here: Location, at: Location)
    requires WellFormedEntries(e)
    ensures here + at in Locations(e, here) <==> ReadFile(Dir(e), at).Some?
    decreases e
  {
    match e
    case End =>
    case Entry(name, node, rest) =>
      LocationsRead(rest, here, at);
      if at != [] {
        ElsewhereListed(e, here, at);
        if at[0] == name {
          OwnListed(name, node, here, at);
        }
      } else {
        NotListed(e, here);
      }
  }

  lemma NotListed(e: Entries, here: Location)
    ensures here + [] !in Locations(e, here)
  {
    assert here + [] == here;
    if here in Locations(e, here) {
      LocationsBelow(e, here, here);
    }
  }

  /** The files that one entry contributes. */
  function Own(name: Text, node: Node, here: Location): seq<Location> {
    match node
    case File(_) => [here + [name]]
    case Dir(inner) => Locations(inner, here + [name])
    case Special => []
  }

  lemma OwnListed(name: Text, node: Node, here: Location, at: Location)
    requires at != [] && at[0] == name && WellFormed(node)
    ensures here + at in Own(name, node, here) <==> ReadFile(node, at[1..]).Some?
    decreases node
  {
    assert here + at == here + [name] + at[1..];
    match node
    case File(_) =>
      assert here + at == here + [name] <==> at[1..] == [];
    case Dir(inner) => LocationsRead(inner, here + [name], at[1..]);
    case Special =>
  }

  lemma OwnBelow(name: Text, node: Node, here: Location, at: Location)
    requires at in Own(name, node, here)
    ensures |at| > |here| && here <= at && at[|here|] == name
  {
    if node.Dir? {
      LocationsBelow(node.entries, here + [name], at);
      assert at[..|here| + 1] == here + [name];
      assert at[..|here|] == at[..|here| + 1][..|here|] == here;
    }
  }

  lemma ElsewhereListed(e: Entries, here: Location, at: Location)
    requires e.Entry? && at != [] && WellFormedEntries(e)
    ensures at[0] != e.name ==> here + at !in Own(e.name, e.node, here)
    ensures at[0] == e.name ==> here + at !in Locations(e.rest, here)
  {
    assert (here + at)[|here|] == at[0];
    if here + at in Own(e.name, e.node, here) {
      OwnBelow(e.name, e.node, here, here + at);
    }
    if here + at in Locations(e.rest, here) {
      LocationsBelow(e.rest, here, here + at);
    }
  }

  /** No file is listed twice. */
  lemma {:induction false} LocationsDistinct(e: Entries, here: Location)
    requires WellFormedEntries(e)
    ensures Distinct(Locations(e, here))
  {
    match e
    case End =>
    case Entry(name, node, rest) =>
      LocationsDistinct(rest, here);
      if node.Dir? {
        LocationsDistinct(node.entries, here + [name]);
      }
      var own, others := Own(name, node, here), Locations(rest, here);
      forall i, j | 0 <= i < |own| && 0 <= j < |others| ensures own[i] != others[j] {
        OwnBelow(name, node, here, own[i]);
        LocationsBelow(rest, here, others[j]);
      }
      assert Locations(e, here) == own + others;
  }

  // ----- changing one file -----

  function Put(e: Entries, name: Text, node: Option<Node>): Entries {
    match e
    case End => if node.Some? then Entry(name, node.value, End) else End
    case Entry(n, before, rest) =>
      if n != name then Entry(n, before, Put(rest, name, node))
      else if node.Some? then Entry(n, node.value, rest)
      else rest
  }

  /** Writes a file, or takes one away, at a location whose directory exists. */
  function Set(n: Node, at: Location, node: Option<Node>): Node
    decreases |at|
  {
    if at == [] || !n.Dir? then n
    else if |at| == 1 then Dir(Put(n.entries, at[0], node))
    else match Find(n.entries, at[0])
      case None => n
      case Some(child) => Dir(Put(n.entries, at[0], Some(Set(child, at[1..], node))))
  }

  lemma {:induction false} PutFind(e: Entries, name: Text, node: Option<Node>, other: Text)
    requires WellFormedEntries(e)
    ensures Find(Put(e, name, node), other) == if other == name then node else Find(e, other)
  {
    if e.Entry? {
      PutFind(e.rest, name, node, other);
    }
  }

  lemma {:induction false} PutWellFormed(e: Entries, name: Text, node: Option<Node>)
    requires WellFormedEntries(e) && (node.Some? ==> ValidName(name) && WellFormed(node.value))
    ensures WellFormedEntries(Put(e, name, node))
  {
    if e.Entry? {
      PutWellFormed(e.rest, name, node);
      PutFind(e.rest, name, node, e.name);
    }
  }

  ghost predicate InDirectory(n: Node, at: Location) {
    at != [] && ValidName(at[|at| - 1])
    && Lookup(n, at[..|at| - 1]).Some? && Lookup(n, at[..|at| - 1]).value.Dir?
  }

  lemma InnerDirectory(n: Node, at: Location)
    requires InDirectory(n, at) && |at| > 1
    ensures n.Dir? && Find(n.entries, at[0]).Some? && InDirectory(Find(n.entries, at[0]).value, at[1..])
  {
    var dir := at[..|at| - 1];
    assert dir[0] == at[0] && dir[1..] == at[1..][..|at[1..]| - 1];
  }

  lemma {:induction false} SetWellFormed(n: Node, at: Location, node: Option<Node>)
    requires WellFormed(n) && InDirectory(n, at) && (node.Some? ==> WellFormed(node.value))
    ensures WellFormed(Set(n, at, node))
    decreases |at|
  {
    if |at| == 1 {
      assert at[..0] == [];
      PutWellFormed(n.entries, at[0], node);
    } else {
      InnerDirectory(n, at);
      FindWellFormed(n.entries, at[0]);
      SetWellFormed(Find(n.entries, at[0]).value, at[1..], node);
      PutWellFormed(n.entries, at[0], Some(Set(Find(n.entries, at[0]).value, at[1..], node)));
    }
  }

  /** Looking somewhere that does not lead through the changed location finds what was there. */
  lemma {:induction false} SetElsewhere(n: Node, at: Location, node: Option<Node>, q: Location)
    requires WellFormed(n) && InDirectory(n, at) && !(at <= q)
    ensures ReadFile(Set(n, at, node), q) == ReadFile(n, q)
    decreases |at|
  {
    if |at| == 1 {
      assert at[..0] == [];
      if q != [] {
        PutFind(n.entries, at[0], node, q[0]);
      }
    } else {
      InnerDirectory(n, at);
      if q != [] {
        var child := Find(n.entries, at[0]).value;
        PutFind(n.entries, at[0], Some(Set(child, at[1..], node)), q[0]);
        if q[0] == at[0] {
          FindWellFormed(n.entries, at[0]);
          SetElsewhere(child, at[1..], node, q[1..]);
        }
      }
    }
  }

  lemma {:induction false} SetThere(n: Node, at: Location, node: Option<Node>)
    requires WellFormed(n) && InDirectory(n, at)
    ensures Lookup(Set(n, at, node), at) == node
    decreases |at|
  {
    if |at| == 1 {
      assert at[..0] == [];
      PutFind(n.entries, at[0], node, at[0]);
      if node.Some? {
        assert Lookup(node.value, at[1..]) == node;
      }
    } else {
      InnerDirectory(n, at);
      FindWellFormed(n.entries, at[0]);
      var child := Find(n.entries, at[0]).value;
      PutFind(n.entries, at[0], Some(Set(child, at[1..], node)), at[0]);
      SetThere(child, at[1..], node);
    }
  }

  /** Nothing can be read below a location that holds no directory. */
  lemma NothingBelow(n: Node, at: Location, q: Location)
    requires at <= q && at != q && (Lookup(n, at).Some? ==> !Lookup(n, at).value.Dir?)
    ensures ReadFile(n, q).None?
  {
    assert q == at + q[|at|..];
    if Lookup(n, at).Some? {
      LookupAppend(n, at, q[|at|..]);
    } else {
      MissingBelow(n, at, q);
    }
  }

  lemma {:induction false} MissingBelow(n: Node, at: Location, q: Location)
    requires at <= q && Lookup(n, at).None?
    ensures Lookup(n, q).None?
    decreases |at|
  {
    if n.Dir? && Find(n.entries, at[0]).Some? {
      MissingBelow(Find(n.entries, at[0]).value, at[1..], q[1..]);
    }
  }

  ghost predicate NoDirectory(n: Node, at: Location) {
    Lookup(n, at).Some? ==> !Lookup(n, at).value.Dir?
  }

  /** Writing or removing a file changes what is read at its location and nowhere else. */
  lemma SetReads(n: Node, at: Location, bytes: Option<Bytes>, q: Location)
    requires WellFormed(n) && InDirectory(n, at) && NoDirectory(n, at)
    ensures ReadFile(SetFile(n, at, bytes), q) == if q == at then bytes else ReadFile(n, q)
  {
    var node := if bytes.Some? then Some(File(bytes.value)) else None;
    SetThere(n, at, node);
    if q != at {
      if at <= q {
        NothingBelow(n, at, q);
        NothingBelow(Set(n, at, node), at, q);
      } else {
        SetElsewhere(n, at, node, q);
      }
    }
  }

  function SetFile(n: Node, at: Location, bytes: Option<Bytes>): Node {
    Set(n, at, if bytes.Some? then Some(File(bytes.value)) else None)
  }
}
