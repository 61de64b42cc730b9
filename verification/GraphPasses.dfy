/** The passes over a definition that prepare a frontier: numbering, wiring, cycle check, reach. */
module GraphPasses {
  import opened Text
  import opened Sequences
  import opened Readiness
  import opened EdgeCounts

  /** `ids` sends each node id to its place in the definition. */
  ghost predicate Numbers(ids: map<Text, nat>, d: Definition) {
    && (forall i | 0 <= i < |d.nodes| :: d.nodes[i].id in ids && ids[d.nodes[i].id] == i)
    && (forall id | id in ids :: ids[id] < |d.nodes| && d.nodes[ids[id]].id == id)
  }

  lemma NumbersKnown(ids: map<Text, nat>, d: Definition, id: Text)
    requires Numbers(ids, d)
    ensures id in ids <==> KnownId(d, id)
  {
  }

  ghost predicate DistinctBefore(d: Definition, k: nat)
    requires k <= |d.nodes|
  {
    forall i, j | 0 <= i < j < k :: d.nodes[i].id != d.nodes[j].id
  }

  /** The map of the first `k` ids, whose size tells whether one of them repeats. */
  ghost predicate NumbersBefore(ids: map<Text, nat>, d: Definition, k: nat) {
    && k <= |d.nodes| && |ids| <= k
    && (forall i | 0 <= i < k :: d.nodes[i].id in ids)
    && (forall id | id in ids :: ids[id] < k && d.nodes[ids[id]].id == id)
    && (|ids| == k <==> DistinctBefore(d, k))
  }

  lemma DistinctNext(ids: map<Text, nat>, d: Definition, k: nat)
    requires NumbersBefore(ids, d, k) && k < |d.nodes|
    ensures DistinctBefore(d, k + 1) <==> DistinctBefore(d, k) && d.nodes[k].id !in ids
  {
    var id := d.nodes[k].id;
    if id in ids {
      assert d.nodes[ids[id]].id == d.nodes[k].id;
    } else {
      assert forall i | 0 <= i < k :: d.nodes[i].id != id;
    }
  }

  lemma MapSize(m: map<Text, nat>, key: Text, value: nat)
    ensures |m[key := value]| == |m| + if key in m then 0 else 1
  {
    var next := m[key := value];
    assert next.Keys == m.Keys + {key};
    assert |next| == |next.Keys| && |m| == |m.Keys|;
    if key in m {
      assert next.Keys == m.Keys;
    }
  }

  lemma NumbersNext(ids: map<Text, nat>, d: Definition, k: nat)
    requires NumbersBefore(ids, d, k) && k < |d.nodes|
    ensures NumbersBefore(ids[d.nodes[k].id := k], d, k + 1)
  {
    DistinctNext(ids, d, k);
    MapSize(ids, d.nodes[k].id, k);
    var next := ids[d.nodes[k].id := k];
    forall i | 0 <= i < k + 1 ensures d.nodes[i].id in next {
      assert i < k ==> d.nodes[i].id in ids;
    }
    forall x | x in next ensures next[x] < k + 1 && d.nodes[next[x]].id == x {
      assert x != d.nodes[k].id ==> x in ids;
    }
  }

  /** A map of the ids has as many entries as there are nodes exactly when no id repeats. */
  method NumberNodes(d: Definition) returns (ids: map<Text, nat>)
    ensures |ids| == |d.nodes| <==> DistinctIds(d)
    ensures DistinctIds(d) ==> Numbers(ids, d)
  {
    ids := map[];
    for k := 0 to |d.nodes|
      invariant NumbersBefore(ids, d, k)
    {
      NumbersNext(ids, d, k);
      ids := ids[d.nodes[k].id := k];
    }
    assert DistinctIds(d) <==> DistinctBefore(d, |d.nodes|);
  }

  ghost predicate Wired(d: Definition, ids: map<Text, nat>, arcs: seq<Arc>) {
    && |arcs| == |d.edges|
    && forall k | 0 <= k < |arcs| ::
         && d.edges[k].from in ids && d.edges[k].to in ids
         && arcs[k] == Arc(ids[d.edges[k].from], ids[d.edges[k].to])
  }

  ghost function Universe(n: nat): (s: set<nat>)
    ensures |s| == n && forall v: nat :: v in s <==> v < n
  {
    if n == 0 then {} else Universe(n - 1) + {n - 1}
  }

  /** Ordinals of the edges, outgoing lists and in-degrees; fails on an unknown endpoint. */
  method Wire(d: Definition, ids: map<Text, nat>)
    returns (known: bool, arcs: seq<Arc>, outgoing: seq<seq<nat>>, indegree: seq<nat>)
    requires Numbers(ids, d)
    ensures known <==> forall e | e in d.edges :: KnownId(d, e.from) && KnownId(d, e.to)
    ensures known ==> Wired(d, ids, arcs)
    ensures known ==> |outgoing| == |d.nodes| && forall u: nat | u < |d.nodes| :: outgoing[u] == Targets(arcs, u)
    ensures known ==> |indegree| == |d.nodes| && Counted(indegree, arcs, Universe(|d.nodes|))
  {
    var n := |d.nodes|;
    known, arcs := true, [];
    outgoing, indegree := seq(n, _ => []), seq(n, _ => 0);
    for k := 0 to |d.edges|
      invariant |arcs| == k && |outgoing| == |indegree| == n
      invariant forall j | 0 <= j < k ::
          && d.edges[j].from in ids && d.edges[j].to in ids
          && arcs[j] == Arc(ids[d.edges[j].from], ids[d.edges[j].to])
      invariant forall u: nat | u < n :: outgoing[u] == Targets(arcs, u)
      invariant Counted(indegree, arcs, Universe(n))
    {
      var e := d.edges[k];
      NumbersKnown(ids, d, e.from);
      NumbersKnown(ids, d, e.to);
      if e.from !in ids || e.to !in ids {
        known := false;
        assert e in d.edges;
        return;
      }
      var a := Arc(ids[e.from], ids[e.to]);
      WireNext(arcs, a, n);
      outgoing := outgoing[a.from := outgoing[a.from] + [a.to]];
      indegree := indegree[a.to := indegree[a.to] + 1];
      arcs := arcs + [a];
    }
    forall e | e in d.edges ensures KnownId(d, e.from) && KnownId(d, e.to) {
      NumbersKnown(ids, d, e.from);
      NumbersKnown(ids, d, e.to);
    }
  }

  lemma WireNext(arcs: seq<Arc>, a: Arc, n: nat)
    requires a.from < n
    ensures forall u: nat :: Targets(arcs + [a], u) == Targets(arcs, u) + if a.from == u then [a.to] else []
    ensures forall v: nat :: Count(arcs + [a], v, Universe(n)) == Count(arcs, v, Universe(n)) + if a.to == v then 1 else 0
  {
    forall u: nat ensures Targets(arcs + [a], u) == Targets(arcs, u) + if a.from == u then [a.to] else [] {
      TargetsAppend(arcs, a, u);
    }
    forall v: nat ensures Count(arcs + [a], v, Universe(n)) == Count(arcs, v, Universe(n)) + if a.to == v then 1 else 0 {
      CountAppend(arcs, a, v, Universe(n));
    }
  }

  // ----- the cycle check -----

  /** Every arc goes up in `rank`. */
  ghost predicate Ranks(rank: seq<nat>, n: nat, arcs: seq<Arc>) {
    |rank| == n && forall a | a in arcs :: a.from < n && a.to < n && rank[a.from] < rank[a.to]
  }

  ghost predicate Preceded(s: set<nat>, arcs: seq<Arc>, v: nat) {
    exists u: nat :: u in s && Arc(u, v) in arcs
  }

  /** Nodes that all have a predecessor among themselves cannot be ranked. */
  lemma {:induction false} NoRanking(s: set<nat>, v: nat, rank: seq<nat>, n: nat, arcs: seq<Arc>)
    requires v in s && (forall w | w in s :: w < n && Preceded(s, arcs, w))
    requires Ranks(rank, n, arcs)
    ensures false
    decreases rank[v]
  {
    assert Preceded(s, arcs, v);
    var u: nat :| u in s && Arc(u, v) in arcs;
    NoRanking(s, u, rank, n, arcs);
  }

  /** What the queue holds: exactly the unvisited nodes with no unvisited predecessor. */
  ghost predicate QueueOk(queue: seq<nat>, done: set<nat>, indegree: seq<nat>) {
    && Distinct(queue)
    && (forall v | v in done :: v < |indegree| && indegree[v] == 0)
    && forall v: nat :: v in queue <==> v < |indegree| && v !in done && indegree[v] == 0
  }

  /** Visited nodes come after all their predecessors. */
  ghost predicate Ordered(rank: seq<nat>, done: set<nat>, n: nat, arcs: seq<Arc>) {
    && |rank| == n && (forall v | v in done :: v < n && rank[v] < |done|)
    && forall a | a in arcs && a.to in done :: a.from in done && rank[a.from] < rank[a.to]
  }

  lemma OrderedNext(rank: seq<nat>, done: set<nat>, n: nat, arcs: seq<Arc>, v: nat)
    requires Ordered(rank, done, n, arcs) && v < n && v !in done
    requires forall a | a in arcs :: a.from < n
    requires Count(arcs, v, Universe(n) - done) == 0
    ensures Ordered(rank[v := |done|], done + {v}, n, arcs)
  {
    CountZero(arcs, v, Universe(n) - done);
  }

  ghost predicate Visiting(queue: seq<nat>, done: set<nat>, indegree: seq<nat>, rank: seq<nat>, n: nat, arcs: seq<Arc>) {
    && |indegree| == n && done <= Universe(n)
    && Counted(indegree, arcs, Universe(n) - done)
    && QueueOk(queue, done, indegree)
    && Ordered(rank, done, n, arcs)
  }

  lemma VisitNext(queue: seq<nat>, done: set<nat>, indegree: seq<nat>, rank: seq<nat>, n: nat, arcs: seq<Arc>,
                  counts: seq<nat>, zeros: seq<nat>)
    requires Visiting(queue, done, indegree, rank, n, arcs) && queue != [] && |counts| == n
    requires forall a | a in arcs :: a.from < n
    requires forall v | 0 <= v < n :: counts[v] + multiset(Targets(arcs, queue[0]))[v] == indegree[v]
    requires forall v: nat :: v in zeros <==> v < n && indegree[v] > 0 && counts[v] == 0
    requires Distinct(zeros)
    ensures queue[0] < n && queue[0] !in done
    ensures Visiting(queue[1..] + zeros, done + {queue[0]}, counts, rank[queue[0] := |done|], n, arcs)
  {
    var node := queue[0];
    assert node in queue;
    OrderedNext(rank, done, n, arcs, node);
    CountedWithout(indegree, counts, arcs, Universe(n) - done, node);
    QueueNext(queue, done, indegree, counts, zeros, Targets(arcs, node));
    assert Universe(n) - done - {node} == Universe(n) - (done + {node});
  }

  method SourceNodes(degrees: seq<nat>) returns (queue: seq<nat>)
    ensures QueueOk(queue, {}, degrees)
  {
    queue := [];
    for v := 0 to |degrees|
      invariant Distinct(queue)
      invariant forall w: nat :: w in queue <==> w < v && degrees[w] == 0
    {
      if degrees[v] == 0 {
        queue := queue + [v];
      }
    }
  }

  lemma VisitedBound(done: set<nat>, n: nat)
    requires done <= Universe(n)
    ensures |done| <= n && (|done| == n ==> done == Universe(n))
  {
    assert |Universe(n) - done| == |Universe(n)| - |done|;
    if |done| == n {
      SubsetOfSameSize(done, Universe(n));
    }
  }

  /** Visiting nodes as their predecessors run out reaches all of them exactly when no cycle exists. */
  method VisitInOrder(n: nat, outgoing: seq<seq<nat>>, degrees: seq<nat>, ghost arcs: seq<Arc>)
    returns (visited: nat)
    requires |outgoing| == |degrees| == n && Counted(degrees, arcs, Universe(n))
    requires forall a | a in arcs :: a.from < n && a.to < n
    requires forall u: nat | u < n :: outgoing[u] == Targets(arcs, u)
    ensures visited == n <==> exists rank :: Ranks(rank, n, arcs)
  {
    var indegree := degrees;
    var queue := SourceNodes(degrees);
    visited := 0;
    ghost var done: set<nat>, rank: seq<nat> := {}, seq(n, _ => 0);
    assert Universe(n) - done == Universe(n);
    while queue != []
      invariant Visiting(queue, done, indegree, rank, n, arcs) && visited == |done| <= n
      decreases n - visited
    {
      var node := queue[0];
      assert node in queue;
      TargetsInRange(arcs, node, n);
      ReleaseAllowed(indegree, arcs, Universe(n) - done, node);
      var counts, zeros := Release(indegree, outgoing[node]);
      VisitNext(queue, done, indegree, rank, n, arcs, counts, zeros);
      rank, done := rank[node := |done|], done + {node};
      queue, indegree, visited := queue[1..] + zeros, counts, visited + 1;
      VisitedBound(done, n);
    }
    VisitedBound(done, n);
    if visited == n {
      assert Ranks(rank, n, arcs);
    } else {
      NotRanked(n, done, indegree, arcs);
    }
  }

  lemma TargetsInRange(arcs: seq<Arc>, u: nat, n: nat)
    requires forall a | a in arcs :: a.to < n
    ensures forall t | t in Targets(arcs, u) :: t < n
  {
    forall t | t in Targets(arcs, u) ensures t < n {
      TargetsMember(arcs, u, t);
    }
  }

  lemma ReleaseAllowed(counts: seq<nat>, arcs: seq<Arc>, live: set<nat>, u: nat)
    requires Counted(counts, arcs, live) && u in live
    ensures forall v | 0 <= v < |counts| :: multiset(Targets(arcs, u))[v] <= counts[v]
  {
    forall v | 0 <= v < |counts| ensures multiset(Targets(arcs, u))[v] <= counts[v] {
      CountWithout(arcs, v, live, u);
    }
  }

  lemma QueueNext(queue: seq<nat>, done: set<nat>, before: seq<nat>, after: seq<nat>, zeros: seq<nat>, targets: seq<nat>)
    requires queue != [] && QueueOk(queue, done, before) && |after| == |before|
    requires forall v | 0 <= v < |before| :: after[v] + multiset(targets)[v] == before[v]
    requires forall v: nat :: v in zeros <==> v < |before| && before[v] > 0 && after[v] == 0
    requires Distinct(zeros)
    ensures QueueOk(queue[1..] + zeros, done + {queue[0]}, after)
  {
    var node := queue[0];
    assert queue == [node] + queue[1..];
    assert node in queue;
    assert forall i | 1 <= i < |queue| :: queue[i] in queue;
  }

  lemma NotRanked(n: nat, done: set<nat>, indegree: seq<nat>, arcs: seq<Arc>)
    requires |indegree| == n && Counted(indegree, arcs, Universe(n) - done)
    requires forall v: nat | v < n && v !in done :: indegree[v] > 0
    requires done <= Universe(n) && |done| != n
    ensures !exists rank :: Ranks(rank, n, arcs)
  {
    var s := Universe(n) - done;
    assert |s| == n - |done|;
    var v :| v in s;
    forall w | w in s ensures w < n && Preceded(s, arcs, w) {
      CountZero(arcs, w, s);
      var a :| a in arcs && a.to == w && a.from in s;
      assert Arc(a.from, w) == a;
    }
    forall rank | Ranks(rank, n, arcs) ensures false {
      NoRanking(s, v, rank, n, arcs);
    }
  }

  // ----- reach -----

  ghost predicate Reaching(d: Definition, arcs: seq<Arc>, starts: seq<nat>, queue: seq<nat>, done: set<nat>) {
    && (forall v | v in queue || v in done :: v < |d.nodes| && Active(d, d.nodes[v].id))
    && (forall v | v in starts :: v in queue || v in done)
    && (forall a | a in arcs && a.from in done :: a.to in queue || a.to in done)
  }

  lemma ReachStart(d: Definition, arcs: seq<Arc>, starts: seq<nat>)
    requires forall v | v in starts :: v < |d.nodes| && d.nodes[v].id in d.entries
    ensures Reaching(d, arcs, starts, starts, {})
  {
    forall v | v in starts ensures Active(d, d.nodes[v].id) {
      ActiveEntry(d, d.nodes[v].id);
    }
  }

  lemma ReachSkip(d: Definition, arcs: seq<Arc>, starts: seq<nat>, queue: seq<nat>, done: set<nat>)
    requires Reaching(d, arcs, starts, queue, done) && queue != [] && queue[0] in done
    ensures Reaching(d, arcs, starts, queue[1..], done)
  {
    assert queue == [queue[0]] + queue[1..];
    assert forall v: nat :: v in queue <==> v == queue[0] || v in queue[1..];
  }

  lemma TargetsActive(d: Definition, ids: map<Text, nat>, arcs: seq<Arc>, node: nat, t: nat)
    requires Numbers(ids, d) && Wired(d, ids, arcs) && node < |d.nodes| && Active(d, d.nodes[node].id)
    requires t in Targets(arcs, node)
    ensures t < |d.nodes| && Active(d, d.nodes[t].id)
  {
    TargetsMember(arcs, node, t);
    var k :| 0 <= k < |arcs| && arcs[k] == Arc(node, t);
    assert d.nodes[node].id == d.edges[k].from && d.nodes[t].id == d.edges[k].to;
    ActiveNext(d, d.edges[k]);
  }

  lemma ReachNext(d: Definition, ids: map<Text, nat>, arcs: seq<Arc>, starts: seq<nat>, queue: seq<nat>, done: set<nat>)
    requires Numbers(ids, d) && Wired(d, ids, arcs) && queue != []
    requires Reaching(d, arcs, starts, queue, done)
    ensures Reaching(d, arcs, starts, queue[1..] + Targets(arcs, queue[0]), done + {queue[0]})
  {
    var node := queue[0];
    assert node in queue;
    forall t | t in Targets(arcs, node) ensures t < |d.nodes| && Active(d, d.nodes[t].id) {
      TargetsActive(d, ids, arcs, node, t);
    }
    forall a | a in arcs && a.from == node ensures a.to in Targets(arcs, node) {
      TargetsMember(arcs, node, a.to);
      assert a == Arc(node, a.to);
    }
    MoveOn(queue, Targets(arcs, node), done);
  }

  /** Taking the first of the queue and adding others: nothing queued or done is lost. */
  lemma MoveOn(queue: seq<nat>, more: seq<nat>, done: set<nat>)
    requires queue != []
    ensures forall v: nat :: v in queue[1..] + more || v in done + {queue[0]} <==> v in queue || v in done || v in more
  {
    assert queue == [queue[0]] + queue[1..];
  }

  lemma ReachComplete(d: Definition, ids: map<Text, nat>, arcs: seq<Arc>, starts: seq<nat>, done: set<nat>)
    requires Numbers(ids, d) && Wired(d, ids, arcs)
    requires Reaching(d, arcs, starts, [], done)
    requires forall id | id in d.entries :: id in ids && ids[id] in starts
    ensures forall v: nat | v < |d.nodes| :: v in done <==> Active(d, d.nodes[v].id)
  {
    var s := set id | id in ids && ids[id] in done;
    forall e | e in d.edges && e.from in s ensures e.to in s {
      var k :| 0 <= k < |d.edges| && d.edges[k] == e;
      assert arcs[k] in arcs;
    }
    forall v: nat | v < |d.nodes| && Active(d, d.nodes[v].id) ensures v in done {
      ActiveWithin(d, s, d.nodes[v].id);
    }
  }

  ghost predicate Marked(active: seq<bool>, done: set<nat>) {
    forall v: nat | v < |active| :: active[v] <==> v in done
  }

  lemma MarkNext(active: seq<bool>, done: set<nat>, node: nat)
    requires node < |active| && Marked(active, done) && !active[node]
    ensures Marked(active[node := true], done + {node}) && |done + {node}| == |done| + 1
  {
  }

  /** Marks exactly the nodes some entry leads to. */
  method Reach(d: Definition, ids: map<Text, nat>, outgoing: seq<seq<nat>>, starts: seq<nat>, ghost arcs: seq<Arc>)
    returns (active: seq<bool>)
    requires Numbers(ids, d) && Wired(d, ids, arcs) && |outgoing| == |d.nodes|
    requires forall u: nat | u < |d.nodes| :: outgoing[u] == Targets(arcs, u)
    requires forall id | id in d.entries :: id in ids && ids[id] in starts
    requires forall v | v in starts :: v < |d.nodes| && d.nodes[v].id in d.entries
    ensures |active| == |d.nodes|
    ensures forall v: nat | v < |active| :: active[v] <==> Active(d, d.nodes[v].id)
  {
    var n := |d.nodes|;
    active := seq(n, _ => false);
    var queue := starts;
    ghost var done: set<nat> := {};
    ReachStart(d, arcs, starts);
    while queue != []
      invariant |active| == n && Reaching(d, arcs, starts, queue, done)
      invariant Marked(active, done)
      invariant |done| <= n
      decreases n - |done|, |queue|
    {
      var node: nat := queue[0];
      assert node in queue;
      if active[node] {
        ReachSkip(d, arcs, starts, queue, done);
        queue := queue[1..];
      } else {
        ReachNext(d, ids, arcs, starts, queue, done);
        MarkNext(active, done, node);
        active := active[node := true];
        queue := queue[1..] + outgoing[node];
        done := done + {node};
        DoneBound(d, arcs, starts, queue, done);
      }
    }
    ReachComplete(d, ids, arcs, starts, done);
  }

  lemma DoneBound(d: Definition, arcs: seq<Arc>, starts: seq<nat>, queue: seq<nat>, done: set<nat>)
    requires Reaching(d, arcs, starts, queue, done)
    ensures |done| <= |d.nodes|
  {
    assert done <= Universe(|d.nodes|);
    VisitedBound(done, |d.nodes|);
  }

  /** Ordinals of the entries; fails on an unknown entry. */
  method Entries(d: Definition, ids: map<Text, nat>) returns (known: bool, starts: seq<nat>)
    requires Numbers(ids, d)
    ensures known <==> forall id | id in d.entries :: KnownId(d, id)
    ensures known ==> forall id | id in d.entries :: id in ids && ids[id] in starts
    ensures known ==> forall v | v in starts :: v < |d.nodes| && d.nodes[v].id in d.entries
  {
    known, starts := true, [];
    for k := 0 to |d.entries|
      invariant forall j | 0 <= j < k :: d.entries[j] in ids && ids[d.entries[j]] in starts
      invariant forall v | v in starts :: v < |d.nodes| && d.nodes[v].id in d.entries
    {
      var id := d.entries[k];
      NumbersKnown(ids, d, id);
      assert id in d.entries;
      if id !in ids {
        known := false;
        return;
      }
      starts := starts + [ids[id]];
    }
    forall id | id in d.entries ensures KnownId(d, id) {
      NumbersKnown(ids, d, id);
    }
  }

  /** Ranks of ordinals and numberings of ids say the same. */
  lemma RanksAcyclic(d: Definition, ids: map<Text, nat>, arcs: seq<Arc>)
    requires Numbers(ids, d) && Wired(d, ids, arcs)
    ensures Acyclic(d) <==> exists rank :: Ranks(rank, |d.nodes|, arcs)
  {
    var n := |d.nodes|;
    if Acyclic(d) {
      var m :| Numbering(d, m);
      var rank: seq<nat> := seq(n, i requires 0 <= i < n => if d.nodes[i].id in m then m[d.nodes[i].id] else 0);
      forall a | a in arcs ensures a.from < n && a.to < n && rank[a.from] < rank[a.to] {
        var k :| 0 <= k < |arcs| && arcs[k] == a;
        assert d.edges[k] in d.edges;
      }
      assert Ranks(rank, n, arcs);
    }
    if rank :| Ranks(rank, n, arcs) {
      var m := map id | id in ids :: rank[ids[id]];
      forall e | e in d.edges ensures e.from in m && e.to in m && m[e.from] < m[e.to] {
        var k :| 0 <= k < |d.edges| && d.edges[k] == e;
        assert arcs[k] in arcs;
      }
      assert Numbering(d, m);
    }
  }
}
