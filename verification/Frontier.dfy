/**
 The readiness frontier of a history cursor: per-node counts of unfinished predecessors, kept
 up to date event by event, that answer the readiness question without a scan.
 */
module Frontiers {
  import opened Options
  import opened Text
  import opened RunProjection
  import opened Readiness
  import opened EdgeCounts
  import opened GraphPasses

  /** Whether attempts allow a start at some time, and the deadline that then applies. */
  ghost predicate Eligible(p: Projection, id: Text) {
    && id !in p.steps
    && match NodeStatus(p, id)
       case None => true
       case Some(status) => status == Failed && id in p.retries
  }

  ghost function Deadline(p: Projection, id: Text): Option<int> {
    if id !in p.steps && NodeStatus(p, id) == Some(Failed) && id in p.retries
    then Some(p.retries[id].at) else None
  }

  predicate Due(deadline: Option<int>, now: int) {
    deadline.Some? ==> deadline.value <= now
  }

  ghost function Live(active: seq<bool>, complete: seq<bool>): set<nat>
    requires |active| == |complete|
  {
    set v: nat | v in Universe(|active|) && active[v] && !complete[v]
  }

  /** What the scan asks about attempts is: eligible, and due. */
  lemma EligibleDue(p: Projection, id: Text, now: int)
    ensures id !in p.steps && AttemptAllows(p, id, now) <==> Eligible(p, id) && Due(Deadline(p, id), now)
  {
  }

  class Frontier {
    const definition: Definition
    const ids: map<Text, nat>
    const arcs: seq<Arc>
    const outgoing: seq<seq<nat>>
    const active: seq<bool>
    var complete: seq<bool>
    var remaining: seq<nat>
    var eligible: seq<bool>
    var retryAt: seq<Option<int>>
    var candidates: set<nat>

    /** The immutable part is the definition, wired by ordinals. */
    ghost predicate Wiring() {
      && Numbers(ids, definition) && Wired(definition, ids, arcs)
      && |outgoing| == |active| == |definition.nodes|
      && (forall u: nat | u < |outgoing| :: outgoing[u] == Targets(arcs, u))
      && (forall v: nat | v < |active| :: active[v] <==> Active(definition, definition.nodes[v].id))
    }

    /** Node `v` is recorded as the projection has it. */
    ghost predicate TracksNode(p: Projection, v: nat)
      reads this
      requires v < |definition.nodes| == |complete| == |eligible| == |retryAt|
    {
      var id := definition.nodes[v].id;
      && (complete[v] <==> id in p.steps)
      && (eligible[v] <==> Eligible(p, id))
      && retryAt[v] == Deadline(p, id)
    }

    ghost predicate Shape()
      reads this
    {
      |definition.nodes| == |active| == |complete| == |remaining| == |eligible| == |retryAt|
    }

    ghost predicate CandidatesOk()
      reads this
      requires Shape()
    {
      forall v: nat :: v in candidates <==> v < |active| && active[v] && remaining[v] == 0 && eligible[v]
    }

    /** The frontier says of the projection exactly what a scan would find. */
    ghost predicate Tracks(p: Projection)
      reads this
    {
      && Wiring() && Shape()
      && (forall v: nat | v < |complete| :: TracksNode(p, v))
      && Counted(remaining, arcs, Live(active, complete))
      && CandidatesOk()
    }

    constructor (d: Definition, ids: map<Text, nat>, arcs: seq<Arc>, outgoing: seq<seq<nat>>, active: seq<bool>,
                 complete: seq<bool>, remaining: seq<nat>)
      requires |d.nodes| == |complete| == |remaining| == |active|
      ensures definition == d && this.ids == ids && this.arcs == arcs && this.outgoing == outgoing && this.active == active
      ensures this.complete == complete && this.remaining == remaining && candidates == {}
      ensures |eligible| == |retryAt| == |d.nodes|
      ensures forall v | 0 <= v < |d.nodes| :: !eligible[v] && retryAt[v] == None
    {
      definition, this.ids, this.arcs, this.outgoing, this.active := d, ids, arcs, outgoing, active;
      this.complete, this.remaining := complete, remaining;
      eligible, retryAt := seq(|d.nodes|, _ => false), seq(|d.nodes|, _ => None);
      candidates := {};
    }

    /** Recomputes one node from the projection; the other nodes are not touched. */
    method Refresh(v: nat, p: Projection, latest: map<Text, nat>)
      requires Shape() && v < |definition.nodes| && IndexesLatest(latest, p.attempts)
      requires complete[v] <==> definition.nodes[v].id in p.steps
      modifies this`eligible, this`retryAt, this`candidates
      ensures Shape() && TracksNode(p, v)
      ensures forall w | 0 <= w < |complete| && w != v :: eligible[w] == old(eligible[w]) && retryAt[w] == old(retryAt[w])
      ensures v in candidates <==> active[v] && remaining[v] == 0 && eligible[v]
      ensures forall w | w != v :: w in candidates <==> w in old(candidates)
    {
      var id := definition.nodes[v].id;
      IndexedLatest(latest, p.attempts, id);
      retryAt := retryAt[v := None];
      var allowed := true;
      if complete[v] {
        allowed := false;
      } else if id in latest {
        if p.attempts[latest[id]].status == Failed && id in p.retries {
          retryAt := retryAt[v := Some(p.retries[id].at)];
        } else {
          allowed := false;
        }
      }
      eligible := eligible[v := allowed];
      if active[v] && remaining[v] == 0 && eligible[v] {
        candidates := candidates + {v};
      } else {
        candidates := candidates - {v};
      }
    }

    /** An event about `node` took the run from `q` to `p`; false means the frontier gives up. */
    method Update(node: Text, p: Projection, latest: map<Text, nat>, ghost q: Projection) returns (ok: bool)
      requires Tracks(q) && IndexesLatest(latest, p.attempts)
      requires forall id | id != node :: AgreeOn(q, p, id)
      modifies this
      ensures ok <==> KnownId(definition, node) && (node in q.steps ==> node in p.steps)
      ensures ok ==> Tracks(p)
    {
      NumbersKnown(ids, definition, node);
      if node !in ids {
        return false;
      }
      var index := ids[node];
      assert TracksNode(q, index);
      if node !in p.steps && complete[index] {
        return false;
      }
      OthersAgree(q, p, index);
      if node in p.steps && !complete[index] {
        Complete(index, p);
      }
      Absorb(index, p, latest);
      ok := true;
    }

    /** Nodes the event is not about stay as recorded. */
    lemma OthersAgree(q: Projection, p: Projection, index: nat)
      requires Tracks(q) && index < |complete|
      requires forall id | id != definition.nodes[index].id :: AgreeOn(q, p, id)
      ensures forall v: nat | v < |complete| && v != index :: TracksNode(p, v)
    {
      forall v: nat | v < |complete| && v != index ensures TracksNode(p, v) {
        assert TracksNode(q, v);
        assert definition.nodes[v].id != definition.nodes[index].id;
        AgreeEligible(q, p, definition.nodes[v].id);
      }
    }

    /** Everything about the projection is recorded, but for what concerns `index`. */
    ghost predicate TracksBut(p: Projection, index: nat)
      reads this
    {
      && Wiring() && Shape() && CandidatesOk()
      && Counted(remaining, arcs, Live(active, complete))
      && index < |complete|
      && forall v: nat | v < |complete| && v != index :: TracksNode(p, v)
    }

    /** The first `k` nodes are recorded, and no later one is a candidate yet. */
    ghost predicate TracksBefore(p: Projection, k: nat)
      reads this
    {
      && Shape() && k <= |complete|
      && (forall w: nat | w < k :: TracksNode(p, w))
      && forall w: nat :: w in candidates <==> w < k && active[w] && remaining[w] == 0 && eligible[w]
    }

    method RefreshNext(v: nat, p: Projection, latest: map<Text, nat>)
      requires TracksBefore(p, v) && v < |complete| && IndexesLatest(latest, p.attempts)
      requires complete[v] <==> definition.nodes[v].id in p.steps
      modifies this`eligible, this`retryAt, this`candidates
      ensures TracksBefore(p, v + 1)
    {
      label before:
      Refresh(v, p, latest);
      forall w: nat | w < v ensures TracksNode(p, w) {
        assert old@before(TracksNode(p, w));
      }
    }

    method Absorb(index: nat, p: Projection, latest: map<Text, nat>)
      requires TracksBut(p, index) && IndexesLatest(latest, p.attempts)
      requires complete[index] <==> definition.nodes[index].id in p.steps
      modifies this`eligible, this`retryAt, this`candidates
      ensures Tracks(p)
    {
      label before:
      Refresh(index, p, latest);
      forall v: nat | v < |complete| ensures TracksNode(p, v) {
        if v != index {
          assert old@before(TracksNode(p, v));
        }
      }
    }

    method Complete(index: nat, p: Projection)
      requires TracksBut(p, index) && !complete[index]
      modifies this`complete, this`remaining, this`candidates
      ensures TracksBut(p, index) && complete[index]
    {
      label before:
      complete := complete[index := true];
      TargetsInRange(arcs, index, |remaining|);
      Settle(index, old(complete));
      forall v: nat | v < |complete| && v != index ensures TracksNode(p, v) {
        assert old@before(TracksNode(p, v));
      }
    }

    /** A node has just completed: if active, its successors wait for one predecessor less. */
    method Settle(index: nat, ghost was: seq<bool>)
      requires Shape() && CandidatesOk() && index < |active| == |outgoing|
      requires outgoing[index] == Targets(arcs, index) && forall t | t in outgoing[index] :: t < |remaining|
      requires |was| == |complete| && !was[index] && complete == was[index := true]
      requires Counted(remaining, arcs, Live(active, was))
      modifies this`remaining, this`candidates
      ensures Shape() && CandidatesOk()
      ensures Counted(remaining, arcs, Live(active, complete))
    {
      if !active[index] {
        LiveSame(active, was, index);
        return;
      }
      LiveWithout(active, was, index);
      var counts, zeros := ReleaseFrom(remaining, outgoing[index], arcs, Live(active, was), index);
      remaining := counts;
      candidates := candidates + set v | v in zeros && active[v] && eligible[v];
    }

    /** The candidates among the first `k` nodes that are due. */
    function DueBefore(now: int, k: nat): seq<Text>
      reads this
      requires k <= |definition.nodes| == |retryAt|
    {
      if k == 0 then []
      else DueBefore(now, k - 1) + if k - 1 in candidates && Due(retryAt[k - 1], now) then [definition.nodes[k - 1].id] else []
    }

    /** A node is a due candidate exactly when the scan finds it ready. */
    ghost predicate Agrees(p: Projection, now: int, v: nat)
      reads this
      requires v < |definition.nodes| == |retryAt|
    {
      NodeReady(definition, p, now, definition.nodes[v].id) <==> v in candidates && Due(retryAt[v], now)
    }

    lemma {:induction false} DueAreReady(p: Projection, now: int, k: nat)
      requires k <= |definition.nodes| == |retryAt| && forall v: nat | v < k :: Agrees(p, now, v)
      ensures DueBefore(now, k) == ReadyBefore(definition, p, now, k)
    {
      if k > 0 {
        DueAreReady(p, now, k - 1);
        assert Agrees(p, now, k - 1);
      }
    }

    /** Walks through the candidates in order. */
    method CollectDue(now: int) returns (ready: seq<Text>)
      requires |definition.nodes| == |retryAt|
      ensures ready == DueBefore(now, |definition.nodes|)
    {
      ready := [];
      for i := 0 to |definition.nodes|
        invariant ready == DueBefore(now, i)
      {
        if i in candidates && Due(retryAt[i], now) {
          ready := ready + [definition.nodes[i].id];
        }
      }
    }

    /** The ready nodes in definition order, read off the candidates. */
    method ReadyAt(now: int, ghost p: Projection) returns (ready: seq<Text>)
      requires Tracks(p)
      ensures ready == ReadyScan(definition, p, now)
    {
      forall v: nat | v < |definition.nodes| ensures Agrees(p, now, v) {
        CandidateIsReady(p, now, v);
      }
      DueAreReady(p, now, |definition.nodes|);
      ready := CollectDue(now);
    }

    /** Membership, without building the list. */
    method Contains(node: Text, now: int, ghost p: Projection) returns (ready: bool)
      requires Tracks(p)
      ensures ready <==> KnownId(definition, node) && NodeReady(definition, p, now, node)
    {
      NumbersKnown(ids, definition, node);
      if node !in ids {
        return false;
      }
      var i := ids[node];
      CandidateIsReady(p, now, i);
      ready := i in candidates && (retryAt[i].Some? ==> retryAt[i].value <= now);
    }

    /** Candidates that are due are exactly the nodes the scan finds ready. */
    lemma CandidateIsReady(p: Projection, now: int, v: nat)
      requires Tracks(p) && v < |definition.nodes|
      ensures NodeReady(definition, p, now, definition.nodes[v].id) <==> v in candidates && Due(retryAt[v], now)
    {
      var id := definition.nodes[v].id;
      assert TracksNode(p, v);
      EligibleDue(p, id, now);
      CountZero(arcs, v, Live(active, complete));
      PredecessorsDone(p, v);
    }

    lemma PredecessorsDone(p: Projection, v: nat)
      requires Tracks(p) && v < |definition.nodes|
      ensures (forall a | a in arcs && a.to == v :: a.from !in Live(active, complete))
              <==> forall e | e in definition.edges && e.to == definition.nodes[v].id && Active(definition, e.from) :: e.from in p.steps
    {
      var live := Live(active, complete);
      forall k | 0 <= k < |arcs|
        ensures arcs[k].from in live <==> Active(definition, definition.edges[k].from) && definition.edges[k].from !in p.steps
        ensures arcs[k].to == v <==> definition.edges[k].to == definition.nodes[v].id
      {
        assert TracksNode(p, arcs[k].from);
      }
      if forall a | a in arcs && a.to == v :: a.from !in live {
        forall e | e in definition.edges && e.to == definition.nodes[v].id && Active(definition, e.from)
          ensures e.from in p.steps
        {
          var k :| 0 <= k < |arcs| && definition.edges[k] == e;
          assert arcs[k] in arcs;
        }
      } else {
        var a :| a in arcs && a.to == v && a.from in live;
        var k :| 0 <= k < |arcs| && arcs[k] == a;
        assert definition.edges[k] in definition.edges;
      }
    }
  }

  /** Releasing the successors of a live node leaves the counts for the others. */
  method ReleaseFrom(remaining: seq<nat>, targets: seq<nat>, ghost arcs: seq<Arc>, ghost live: set<nat>, ghost u: nat)
    returns (counts: seq<nat>, zeros: seq<nat>)
    requires Counted(remaining, arcs, live) && u in live && targets == Targets(arcs, u)
    requires forall t | t in targets :: t < |remaining|
    ensures |counts| == |remaining| && Counted(counts, arcs, live - {u})
    ensures forall v: nat :: v in zeros <==> v < |remaining| && remaining[v] > 0 && counts[v] == 0
    ensures forall v: nat | v < |remaining| && remaining[v] == 0 :: counts[v] == 0
  {
    ReleaseAllowed(remaining, arcs, live, u);
    counts, zeros := Release(remaining, targets);
    CountedWithout(remaining, counts, arcs, live, u);
  }

  lemma LiveSame(active: seq<bool>, complete: seq<bool>, v: nat)
    requires |active| == |complete| && v < |active| && !active[v]
    ensures Live(active, complete[v := true]) == Live(active, complete)
  {
  }

  lemma LiveWithout(active: seq<bool>, complete: seq<bool>, v: nat)
    requires |active| == |complete| && v < |active| && active[v]
    ensures Live(active, complete[v := true]) == Live(active, complete) - {v}
  {
  }

  lemma AgreeEligible(q: Projection, p: Projection, id: Text)
    requires AgreeOn(q, p, id)
    ensures Eligible(q, id) <==> Eligible(p, id)
    ensures Deadline(q, id) == Deadline(p, id)
  {
  }

  // ----- building a frontier -----

  /** The definitions and attempt indexes a frontier is built for. */
  ghost predicate Admitted(d: Definition, latest: map<Text, nat>) {
    && Ordinary(d) && DistinctIds(d) && KnownEndpoints(d) && Acyclic(d)
    && forall id | id in latest :: KnownId(d, id)
  }

  method InitialCounts(active: seq<bool>, complete: seq<bool>, outgoing: seq<seq<nat>>, ghost arcs: seq<Arc>)
    returns (remaining: seq<nat>)
    requires |active| == |complete| == |outgoing|
    requires forall a | a in arcs :: a.to < |active|
    requires forall u: nat | u < |outgoing| :: outgoing[u] == Targets(arcs, u)
    ensures |remaining| == |active| && Counted(remaining, arcs, Live(active, complete))
  {
    var n := |active|;
    remaining := seq(n, _ => 0);
    ghost var live: set<nat> := {};
    forall v: nat | v < n ensures Count(arcs, v, {}) == 0 {
      CountZero(arcs, v, {});
    }
    for u := 0 to n
      invariant |remaining| == n && Counted(remaining, arcs, live)
      invariant forall v: nat :: v in live <==> v < u && active[v] && !complete[v]
    {
      if active[u] && !complete[u] {
        TargetsInRange(arcs, u, n);
        var counts := Charge(remaining, outgoing[u]);
        CountedWith(remaining, counts, arcs, live, u);
        remaining, live := counts, live + {u};
      }
    }
    assert live == Live(active, complete);
  }

  /** Numbers, wires and checks a definition; succeeds on acyclic graphs with sound ids. */
  method Prepare(d: Definition) returns (ok: bool, ids: map<Text, nat>, arcs: seq<Arc>, outgoing: seq<seq<nat>>)
    ensures ok <==> DistinctIds(d) && Acyclic(d) && forall e | e in d.edges :: KnownId(d, e.from) && KnownId(d, e.to)
    ensures ok ==> Numbers(ids, d) && Wired(d, ids, arcs) && |outgoing| == |d.nodes|
    ensures ok ==> forall u: nat | u < |outgoing| :: outgoing[u] == Targets(arcs, u)
  {
    arcs, outgoing := [], [];
    ids := NumberNodes(d);
    if |ids| != |d.nodes| {
      return false, ids, arcs, outgoing;
    }
    var degrees;
    ok, arcs, outgoing, degrees := Wire(d, ids);
    if ok {
      ArcsInRange(d, ids, arcs);
      var visited := VisitInOrder(|d.nodes|, outgoing, degrees, arcs);
      RanksAcyclic(d, ids, arcs);
      ok := visited == |d.nodes|;
    }
  }

  lemma LatestKnown(d: Definition, ids: map<Text, nat>, latest: map<Text, nat>)
    requires Numbers(ids, d)
    ensures (forall id | id in latest :: id in ids) <==> forall id | id in latest :: KnownId(d, id)
  {
    forall id | id in latest ensures id in ids <==> KnownId(d, id) {
      NumbersKnown(ids, d, id);
    }
  }

  /** A frontier of the projection for every admitted definition, and none for any other. */
  method Build(d: Definition, p: Projection, latest: map<Text, nat>) returns (f: Frontier?)
    requires IndexesLatest(latest, p.attempts)
    ensures f != null <==> Admitted(d, latest)
    ensures f != null ==> fresh(f) && f.definition == d && f.Tracks(p)
    ensures Extraordinary(d) ==> f == null
  {
    RuledOut(d);
    if !Ordinary(d) {
      return null;
    }
    var ok, ids, arcs, outgoing := Prepare(d);
    if ok {
      f := Activate(d, ids, arcs, outgoing, p, latest);
    } else {
      f := null;
    }
  }

  method Activate(d: Definition, ids: map<Text, nat>, arcs: seq<Arc>, outgoing: seq<seq<nat>>,
                  p: Projection, latest: map<Text, nat>) returns (f: Frontier?)
    requires Numbers(ids, d) && Wired(d, ids, arcs) && |outgoing| == |d.nodes|
    requires forall u: nat | u < |outgoing| :: outgoing[u] == Targets(arcs, u)
    requires IndexesLatest(latest, p.attempts)
    ensures f != null <==> (forall id | id in d.entries :: KnownId(d, id)) && forall id | id in latest :: KnownId(d, id)
    ensures f != null ==> fresh(f) && f.definition == d && f.Tracks(p)
  {
    LatestKnown(d, ids, latest);
    var found, starts := Entries(d, ids);
    if !found || exists id :: id in latest && id !in ids {
      return null;
    }
    var active := Reach(d, ids, outgoing, starts, arcs);
    f := Fill(d, ids, arcs, outgoing, active, p, latest);
  }

  lemma ArcsInRange(d: Definition, ids: map<Text, nat>, arcs: seq<Arc>)
    requires Numbers(ids, d) && Wired(d, ids, arcs)
    ensures forall a | a in arcs :: a.from < |d.nodes| && a.to < |d.nodes|
  {
  }

  method Fill(d: Definition, ids: map<Text, nat>, arcs: seq<Arc>, outgoing: seq<seq<nat>>, active: seq<bool>,
              p: Projection, latest: map<Text, nat>) returns (f: Frontier)
    requires Numbers(ids, d) && Wired(d, ids, arcs) && |outgoing| == |active| == |d.nodes|
    requires forall u: nat | u < |outgoing| :: outgoing[u] == Targets(arcs, u)
    requires forall v: nat | v < |active| :: active[v] <==> Active(d, d.nodes[v].id)
    requires IndexesLatest(latest, p.attempts)
    ensures fresh(f) && f.definition == d && f.Tracks(p)
  {
    var n := |d.nodes|;
    var complete := seq(n, i requires 0 <= i < n => d.nodes[i].id in p.steps);
    ArcsInRange(d, ids, arcs);
    var remaining := InitialCounts(active, complete, outgoing, arcs);
    f := new Frontier(d, ids, arcs, outgoing, active, complete, remaining);
    for v := 0 to n
      invariant f.complete == complete && f.remaining == remaining
      invariant f.TracksBefore(p, v)
    {
      f.RefreshNext(v, p, latest);
    }
  }
}
