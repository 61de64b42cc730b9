/** Counting a node's incoming edges from a set of nodes, edges given by ordinals. */
module EdgeCounts {

  datatype Arc = Arc(from: nat, to: nat)

  /** How many arcs into `v` start in `live`; parallel arcs count separately. */
  ghost function Count(arcs: seq<Arc>, v: nat, live: set<nat>): nat {
    if arcs == [] then 0
    else (if arcs[0].to == v && arcs[0].from in live then 1 else 0) + Count(arcs[1..], v, live)
  }

  /** Where the arcs out of `u` lead, in arc order. */
  ghost function Targets(arcs: seq<Arc>, u: nat): seq<nat> {
    if arcs == [] then []
    else (if arcs[0].from == u then [arcs[0].to] else []) + Targets(arcs[1..], u)
  }

  lemma {:induction false} CountZero(arcs: seq<Arc>, v: nat, live: set<nat>)
    ensures Count(arcs, v, live) == 0 <==> forall a | a in arcs && a.to == v :: a.from !in live
  {
    if arcs != [] {
      CountZero(arcs[1..], v, live);
      assert arcs == [arcs[0]] + arcs[1..];
    }
  }

  /** Taking `u` out of the set takes away exactly its arcs. */
  lemma {:induction false} CountWithout(arcs: seq<Arc>, v: nat, live: set<nat>, u: nat)
    requires u in live
    ensures Count(arcs, v, live) == Count(arcs, v, live - {u}) + multiset(Targets(arcs, u))[v]
  {
    if arcs != [] {
      CountWithout(arcs[1..], v, live, u);
      var head := if arcs[0].from == u then [arcs[0].to] else [];
      assert multiset(Targets(arcs, u)) == multiset(head) + multiset(Targets(arcs[1..], u));
    }
  }

  lemma {:induction false} CountAppend(arcs: seq<Arc>, a: Arc, v: nat, live: set<nat>)
    ensures Count(arcs + [a], v, live) == Count(arcs, v, live) + if a.to == v && a.from in live then 1 else 0
  {
    if arcs == [] {
      assert arcs + [a] == [a];
    } else {
      CountAppend(arcs[1..], a, v, live);
      assert (arcs + [a])[1..] == arcs[1..] + [a];
    }
  }

  lemma {:induction false} TargetsAppend(arcs: seq<Arc>, a: Arc, u: nat)
    ensures Targets(arcs + [a], u) == Targets(arcs, u) + if a.from == u then [a.to] else []
  {
    if arcs == [] {
      assert arcs + [a] == [a];
    } else {
      TargetsAppend(arcs[1..], a, u);
      assert (arcs + [a])[1..] == arcs[1..] + [a];
    }
  }

  lemma {:induction false} TargetsMember(arcs: seq<Arc>, u: nat, v: nat)
    ensures v in Targets(arcs, u) <==> Arc(u, v) in arcs
  {
    if arcs != [] {
      TargetsMember(arcs[1..], u, v);
      assert arcs == [arcs[0]] + arcs[1..];
    }
  }

  /** The counts are those of `live`, for every node. */
  ghost predicate Counted(counts: seq<nat>, arcs: seq<Arc>, live: set<nat>) {
    forall v | 0 <= v < |counts| :: counts[v] == Count(arcs, v, live)
  }

  lemma CountedWithout(counts: seq<nat>, counts': seq<nat>, arcs: seq<Arc>, live: set<nat>, u: nat)
    requires u in live && Counted(counts, arcs, live) && |counts'| == |counts|
    requires forall v | 0 <= v < |counts| :: counts'[v] + multiset(Targets(arcs, u))[v] == counts[v]
    ensures Counted(counts', arcs, live - {u})
  {
    forall v | 0 <= v < |counts| ensures counts'[v] == Count(arcs, v, live - {u}) {
      CountWithout(arcs, v, live, u);
    }
  }

  lemma CountedWith(counts: seq<nat>, counts': seq<nat>, arcs: seq<Arc>, live: set<nat>, u: nat)
    requires u !in live && Counted(counts, arcs, live) && |counts'| == |counts|
    requires forall v | 0 <= v < |counts| :: counts'[v] == counts[v] + multiset(Targets(arcs, u))[v]
    ensures Counted(counts', arcs, live + {u})
  {
    forall v | 0 <= v < |counts| ensures counts'[v] == Count(arcs, v, live + {u}) {
      CountWithout(arcs, v, live + {u}, u);
      assert live + {u} - {u} == live;
    }
  }

  lemma PrefixMultiset(s: seq<nat>, i: nat, v: nat)
    requires i < |s|
    ensures multiset(s[..i + 1])[v] == multiset(s[..i])[v] + if s[i] == v then 1 else 0
    ensures multiset(s[..i + 1])[v] <= multiset(s)[v]
  {
    assert s[..i + 1] == s[..i] + [s[i]];
    assert s == s[..i + 1] + s[i + 1..];
  }

  /** Lowers the count of each target once per arc and lists the nodes whose count runs out. */
  method Release(counts: seq<nat>, targets: seq<nat>) returns (r: seq<nat>, zeros: seq<nat>)
    requires forall t | t in targets :: t < |counts|
    requires forall v | 0 <= v < |counts| :: multiset(targets)[v] <= counts[v]
    ensures |r| == |counts|
    ensures forall v | 0 <= v < |counts| :: r[v] + multiset(targets)[v] == counts[v]
    ensures forall v: nat :: v in zeros <==> v < |counts| && counts[v] > 0 && r[v] == 0
    ensures forall i, j | 0 <= i < j < |zeros| :: zeros[i] != zeros[j]
  {
    r, zeros := counts, [];
    for i := 0 to |targets|
      invariant |r| == |counts|
      invariant forall v | 0 <= v < |counts| :: r[v] + multiset(targets[..i])[v] == counts[v]
      invariant forall v: nat :: v in zeros <==> v < |counts| && counts[v] > 0 && r[v] == 0
      invariant forall i, j | 0 <= i < j < |zeros| :: zeros[i] != zeros[j]
    {
      var t := targets[i];
      assert t in targets;
      forall v | 0 <= v < |counts|
        ensures multiset(targets[..i + 1])[v] == multiset(targets[..i])[v] + (if t == v then 1 else 0)
        ensures multiset(targets[..i + 1])[v] <= counts[v]
      {
        PrefixMultiset(targets, i, v);
      }
      r := r[t := r[t] - 1];
      if r[t] == 0 {
        zeros := zeros + [t];
      }
    }
    assert targets[..|targets|] == targets;
  }

  /** Raises the count of each target once per arc. */
  method Charge(counts: seq<nat>, targets: seq<nat>) returns (r: seq<nat>)
    requires forall t | t in targets :: t < |counts|
    ensures |r| == |counts|
    ensures forall v | 0 <= v < |counts| :: r[v] == counts[v] + multiset(targets)[v]
  {
    r := counts;
    for i := 0 to |targets|
      invariant |r| == |counts|
      invariant forall v | 0 <= v < |counts| :: r[v] == counts[v] + multiset(targets[..i])[v]
    {
      var t := targets[i];
      assert t in targets;
      assert targets[..i + 1] == targets[..i] + [t];
      r := r[t := r[t] + 1];
    }
    assert targets[..|targets|] == targets;
  }
}
