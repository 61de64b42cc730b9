/**
 Which nodes of a compiled workflow may start: the scan that answers from the definition and
 the projection alone, for the graphs the incremental frontier accepts.
 */
module Readiness {
  import opened Text
  import opened RunProjection

  datatype Feature =
    | Lifecycle | RuntimePolicy | ReusableDefinitions | Communication | Forks | Choices
    | ContextVisibility | Settlement | ForEach | Waits | Locks | Sagas

  datatype Node = Node(id: Text, handler: Text, remote: bool)

  /** `bound` holds when the edge belongs to a branch, a parallel group or an approval. */
  datatype Edge = Edge(id: Text, from: Text, to: Text, always: bool, bound: bool)

  datatype Definition = Definition(
    schemaVersion: nat, features: set<Feature>, nodes: seq<Node>, edges: seq<Edge>, entries: seq<Text>)

  const SCRIPT_HANDLER: Text := Ascii("runtime.script")
  const CHOICE_PREFIX: Text := Ascii("__woml_choice__")

  /** Ordinary script graphs: nothing but script nodes and unconditional edges. */
  predicate Ordinary(d: Definition) {
    && 1 <= d.schemaVersion <= 21
    && d.features == {}
    && (forall n | n in d.nodes :: n.handler == SCRIPT_HANDLER && !n.remote)
    && (forall e | e in d.edges :: e.always && !e.bound && !(CHOICE_PREFIX <= e.id))
  }

  /** What rules a definition out: an unknown schema, any special feature, a node that is no local script,
      an edge with a condition, with an owner, or out of a choice. */
  ghost predicate Extraordinary(d: Definition) {
    || d.schemaVersion == 0 || d.schemaVersion > 21 || (exists f :: f in d.features)
    || (exists i :: 0 <= i < |d.nodes| && (d.nodes[i].remote || d.nodes[i].handler != SCRIPT_HANDLER))
    || (exists i :: 0 <= i < |d.edges| && (!d.edges[i].always || d.edges[i].bound || exists rest :: d.edges[i].id == CHOICE_PREFIX + rest))
  }

  lemma RuledOut(d: Definition)
    ensures Extraordinary(d) ==> !Ordinary(d)
  {
    if Ordinary(d) {
      assert forall i | 0 <= i < |d.nodes| :: d.nodes[i] in d.nodes;
      assert forall i | 0 <= i < |d.edges| :: d.edges[i] in d.edges;
    }
  }

  ghost predicate DistinctIds(d: Definition) {
    forall i, j | 0 <= i < j < |d.nodes| :: d.nodes[i].id != d.nodes[j].id
  }

  predicate KnownId(d: Definition, id: Text) {
    exists i :: 0 <= i < |d.nodes| && d.nodes[i].id == id
  }

  ghost predicate KnownEndpoints(d: Definition) {
    && (forall e | e in d.edges :: KnownId(d, e.from) && KnownId(d, e.to))
    && (forall id | id in d.entries :: KnownId(d, id))
  }

  // ----- active nodes: those reached from an entry -----

  ghost predicate Linked(d: Definition, from: Text, to: Text) {
    exists e :: e in d.edges && e.from == from && e.to == to
  }

  ghost predicate EntryPath(d: Definition, p: seq<Text>) {
    && p != [] && p[0] in d.entries
    && forall i | 0 < i < |p| :: Linked(d, p[i - 1], p[i])
  }

  ghost predicate Active(d: Definition, id: Text) {
    exists p :: EntryPath(d, p) && p[|p| - 1] == id
  }

  lemma ActiveEntry(d: Definition, id: Text)
    requires id in d.entries
    ensures Active(d, id)
  {
    assert EntryPath(d, [id]);
  }

  lemma ActiveNext(d: Definition, e: Edge)
    requires e in d.edges && Active(d, e.from)
    ensures Active(d, e.to)
  {
    var p :| EntryPath(d, p) && p[|p| - 1] == e.from;
    var q := p + [e.to];
    forall i | 0 < i < |q| ensures Linked(d, q[i - 1], q[i]) {
      if i < |p| {
        assert Linked(d, p[i - 1], p[i]);
      }
    }
    assert EntryPath(d, q);
  }

  /** A set holding the entries and closed under edges holds every active node. */
  lemma ActiveWithin(d: Definition, s: set<Text>, id: Text)
    requires forall x | x in d.entries :: x in s
    requires forall e | e in d.edges && e.from in s :: e.to in s
    requires Active(d, id)
    ensures id in s
  {
    var p :| EntryPath(d, p) && p[|p| - 1] == id;
    PathWithin(d, s, p, |p| - 1);
  }

  lemma {:induction false} PathWithin(d: Definition, s: set<Text>, p: seq<Text>, i: nat)
    requires forall x | x in d.entries :: x in s
    requires forall e | e in d.edges && e.from in s :: e.to in s
    requires EntryPath(d, p) && i < |p|
    ensures p[i] in s
  {
    if i > 0 {
      PathWithin(d, s, p, i - 1);
      assert Linked(d, p[i - 1], p[i]);
    }
  }

  // ----- the scan -----

  predicate RetryDue(p: Projection, id: Text, now: int) {
    id in p.retries && p.retries[id].at <= now
  }

  predicate AttemptAllows(p: Projection, id: Text, now: int) {
    match NodeStatus(p, id)
    case None => true
    case Some(status) => status == Failed && RetryDue(p, id, now)
  }

  ghost predicate NodeReady(d: Definition, p: Projection, now: int, id: Text) {
    && Active(d, id)
    && id !in p.steps
    && AttemptAllows(p, id, now)
    && forall e | e in d.edges && e.to == id && Active(d, e.from) :: e.from in p.steps
  }

  /** The ready nodes in the order of the definition. */
  ghost function ReadyScan(d: Definition, p: Projection, now: int): seq<Text> {
    ReadyBefore(d, p, now, |d.nodes|)
  }

  ghost function ReadyBefore(d: Definition, p: Projection, now: int, k: nat): seq<Text>
    requires k <= |d.nodes|
  {
    if k == 0 then []
    else
      ReadyBefore(d, p, now, k - 1) +
      if NodeReady(d, p, now, d.nodes[k - 1].id) then [d.nodes[k - 1].id] else []
  }

  ghost function ReadyIn(d: Definition, p: Projection, now: int): seq<Text> {
    if p.status != Running then [] else ReadyScan(d, p, now)
  }

  // ----- topological numberings -----

  ghost predicate Numbering(d: Definition, rank: map<Text, nat>) {
    forall e | e in d.edges :: e.from in rank && e.to in rank && rank[e.from] < rank[e.to]
  }

  /** No cycles: the nodes can be numbered so that every edge goes up. */
  ghost predicate Acyclic(d: Definition) {
    exists rank :: Numbering(d, rank)
  }
}
