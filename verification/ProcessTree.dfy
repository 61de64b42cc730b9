/**
 Resident memory of a process tree, read from a snapshot of /proc. Two walks exist: one follows
 only the children of each process's main task, the other those of every task.
 */
module ProcessTree {
  import opened Sequences

  /** What can be read: the VmRSS line of a status file in kB, the entries of a task directory, and
      the whole numbers in the children file of a task of a process. A file that cannot be read is
      absent. */
  datatype Snapshot = Snapshot(
    status: map<int, nat>,
    tasks: map<int, seq<int>>,
    children: map<(int, int), seq<int>>)

  function RssBytes(p: Snapshot, pid: int): nat {
    if pid in p.status then p.status[pid] * 1024 else 0
  }

  /** The children of the main task, whether or not the status file is there. */
  function MainChildren(p: Snapshot, pid: int): seq<int> {
    if (pid, pid) in p.children then p.children[(pid, pid)] else []
  }

  /** The children of the first `k` tasks listed for a process. */
  function TaskChildren(p: Snapshot, pid: int, tasks: seq<int>): (r: seq<int>)
    ensures forall c :: c in r <==> c > 0 && exists t :: t in tasks && (pid, t) in p.children && c in p.children[(pid, t)]
  {
    if tasks == [] then []
    else
      var last := tasks[|tasks| - 1];
      var before := TaskChildren(p, pid, tasks[..|tasks| - 1]);
      assert forall t :: t in tasks <==> t == last || t in tasks[..|tasks| - 1];
      if (pid, last) in p.children then before + FilterPositive(p.children[(pid, last)]) else before
  }

  function FilterPositive(s: seq<int>): (r: seq<int>)
    ensures forall c :: c in r <==> c in s && c > 0
  {
    if s == [] then [] else (if s[0] > 0 then [s[0]] else []) + FilterPositive(s[1..])
  }

  /** The children of every task; nothing once the status file or the task directory is gone. */
  function AllChildren(p: Snapshot, pid: int): seq<int> {
    if pid in p.status && pid in p.tasks then TaskChildren(p, pid, p.tasks[pid]) else []
  }

  function Narrow(p: Snapshot): int -> seq<int> { pid => MainChildren(p, pid) }

  function Wide(p: Snapshot): int -> seq<int> { pid => AllChildren(p, pid) }

  function Bytes(p: Snapshot): int -> nat { pid => RssBytes(p, pid) }

  // ----- reachability -----

  ghost predicate Path(kids: int -> seq<int>, path: seq<int>) {
    path != [] && forall i | 0 <= i < |path| - 1 :: path[i + 1] in kids(path[i])
  }

  ghost predicate Reachable(kids: int -> seq<int>, root: int, v: int) {
    exists path :: Path(kids, path) && path[0] == root && path[|path| - 1] == v
  }

  lemma ReachRoot(kids: int -> seq<int>, root: int)
    ensures Reachable(kids, root, root)
  {
    assert Path(kids, [root]);
  }

  lemma ReachStep(kids: int -> seq<int>, root: int, u: int, v: int)
    requires Reachable(kids, root, u) && v in kids(u)
    ensures Reachable(kids, root, v)
  {
    var path :| Path(kids, path) && path[0] == root && path[|path| - 1] == u;
    var longer := path + [v];
    forall i | 0 <= i < |longer| - 1 ensures longer[i + 1] in kids(longer[i]) {
      if i < |path| - 1 {
        assert path[i + 1] in kids(path[i]);
      }
    }
    assert Path(kids, longer);
  }

  ghost predicate Closed(kids: int -> seq<int>, s: set<int>) {
    forall u, v | u in s && v in kids(u) :: v in s
  }

  lemma ClosedHolds(kids: int -> seq<int>, s: set<int>, root: int, v: int)
    requires Closed(kids, s) && root in s && Reachable(kids, root, v)
    ensures v in s
  {
    var path :| Path(kids, path) && path[0] == root && path[|path| - 1] == v;
    ClosedPath(kids, s, path);
  }

  lemma {:induction false} ClosedPath(kids: int -> seq<int>, s: set<int>, path: seq<int>)
    requires Closed(kids, s) && Path(kids, path) && path[0] in s
    ensures path[|path| - 1] in s
    decreases |path|
  {
    if |path| > 1 {
      assert path[0 + 1] in kids(path[0]);
      var u, v := path[0], path[1];
      assert u in s && v in kids(u);
      forall i | 0 <= i < |path[1..]| - 1 ensures path[1..][i + 1] in kids(path[1..][i]) {
        assert path[i + 1 + 1] in kids(path[i + 1]);
      }
      ClosedPath(kids, s, path[1..]);
    }
  }

  // ----- sums over the processes visited -----

  /** The sum over a list of processes. */
  function SumOver(order: seq<int>, f: int -> nat): nat {
    if order == [] then 0 else SumOver(order[..|order| - 1], f) + f(order[|order| - 1])
  }

  /** Any element may be taken out. */
  lemma {:induction false} SumTake(s: seq<int>, f: int -> nat, k: nat)
    requires k < |s|
    ensures SumOver(s, f) == SumOver(Without(s, k), f) + f(s[k])
  {
    var n := |s| - 1;
    if k == n {
      assert Without(s, k) == s[..n];
    } else {
      SumTake(s[..n], f, k);
      assert Without(s, k)[..n - 1] == Without(s[..n], k);
    }
  }

  /** Each process counts once, so a list that covers another has at least its sum. */
  lemma {:induction false} SumWithin(a: seq<int>, b: seq<int>, f: int -> nat)
    requires Distinct(a)
    requires forall i | 0 <= i < |a| && f(a[i]) > 0 :: a[i] in b
    ensures SumOver(a, f) <= SumOver(b, f)
    decreases |a|
  {
    if a != [] {
      var n := |a| - 1;
      var x := a[n];
      if f(x) == 0 {
        SumWithin(a[..n], b, f);
      } else {
        assert x in b;
        var k :| 0 <= k < |b| && b[k] == x;
        SumTake(b, f, k);
        forall i | 0 <= i < n && f(a[i]) > 0 ensures a[i] in Without(b, k) {
          assert a[i] in b;
          assert a[i] != x;
        }
        SumWithin(a[..n], Without(b, k), f);
      }
    }
  }

  /** The order of a walk does not matter. */
  lemma OrderIrrelevant(a: seq<int>, b: seq<int>, f: int -> nat)
    requires Distinct(a) && Distinct(b) && forall x :: x in a <==> x in b
    ensures SumOver(a, f) == SumOver(b, f)
  {
    SumWithin(a, b, f);
    SumWithin(b, a, f);
  }

  lemma {:induction false} SumZero(s: seq<int>, f: int -> nat)
    requires forall i | 0 <= i < |s| :: f(s[i]) == 0
    ensures SumOver(s, f) == 0
  {
    if s != [] {
      SumZero(s[..|s| - 1], f);
    }
  }

  // ----- the walks -----

  /** What a walk visits: every reachable process, once. */
  ghost predicate Walked(kids: int -> seq<int>, root: int, order: seq<int>) {
    Distinct(order) && forall v :: v in order <==> Reachable(kids, root, v)
  }

  /** What both loops keep: everything seen is reachable, nothing reachable has been lost. */
  ghost predicate Walking(kids: int -> seq<int>, root: int, pending: seq<int>, visited: seq<int>) {
    && (root in visited || root in pending)
    && (forall v | v in visited :: Reachable(kids, root, v))
    && (forall v | v in pending :: Reachable(kids, root, v))
    && forall u, v | u in visited && v in kids(u) :: v in visited || v in pending
  }

  lemma WalkSkip(kids: int -> seq<int>, root: int, pending: seq<int>, visited: seq<int>)
    requires Walking(kids, root, pending, visited) && pending != [] && pending[|pending| - 1] in visited
    ensures Walking(kids, root, pending[..|pending| - 1], visited)
  {
    var rest := pending[..|pending| - 1];
    assert forall v :: v in pending <==> v in rest || v == pending[|pending| - 1];
  }

  lemma WalkVisit(kids: int -> seq<int>, root: int, pending: seq<int>, visited: seq<int>)
    requires Walking(kids, root, pending, visited) && pending != []
    ensures var pid := pending[|pending| - 1];
            Walking(kids, root, pending[..|pending| - 1] + kids(pid), visited + [pid])
  {
    var rest, pid := pending[..|pending| - 1], pending[|pending| - 1];
    assert forall v :: v in pending <==> v in rest || v == pid;
    forall v | v in kids(pid) ensures Reachable(kids, root, v) {
      ReachStep(kids, root, pid, v);
    }
  }

  lemma WalkDone(kids: int -> seq<int>, root: int, visited: seq<int>)
    requires Walking(kids, root, [], visited)
    ensures forall v :: v in visited <==> Reachable(kids, root, v)
  {
    forall v | Reachable(kids, root, v) ensures v in visited {
      ClosedHolds(kids, (set u | u in visited), root, v);
    }
  }

  /** Every number a snapshot mentions as a child, and the root: a walk stays inside. */
  ghost function Universe(p: Snapshot, root: int): set<int> {
    {root} + set t, c | t in p.children && c in p.children[t] :: c
  }

  ghost predicate Inside(s: seq<int>, all: set<int>) {
    forall v | v in s :: v in all
  }

  lemma ChildrenInside(p: Snapshot, root: int, pid: int)
    ensures Inside(MainChildren(p, pid), Universe(p, root)) && Inside(AllChildren(p, pid), Universe(p, root))
  {
  }

  lemma InsideNext(pending: seq<int>, kids: seq<int>, all: set<int>)
    requires Inside(pending, all) && Inside(kids, all) && pending != []
    ensures Inside(pending[..|pending| - 1] + kids, all)
  {
  }

  lemma Room(visited: seq<int>, all: set<int>)
    requires Distinct(visited) && Inside(visited, all)
    ensures |visited| <= |all|
  {
    DistinctCard(visited);
    assert (set x | x in visited) <= all;
    if |visited| > |all| {
      Pigeonhole(visited, all);
    }
  }

  /** The whole state of a walk: no process twice, and the total so far. */
  ghost predicate Walk(kids: int -> seq<int>, f: int -> nat, root: int, all: set<int>,
                       pending: seq<int>, visited: seq<int>, total: nat)
  {
    && Walking(kids, root, pending, visited) && Inside(pending, all)
    && Distinct(visited) && Inside(visited, all)
    && total == SumOver(visited, f)
  }

  lemma Skip(kids: int -> seq<int>, f: int -> nat, root: int, all: set<int>, pending: seq<int>, visited: seq<int>, total: nat)
    requires Walk(kids, f, root, all, pending, visited, total)
    requires pending != [] && pending[|pending| - 1] in visited
    ensures Walk(kids, f, root, all, pending[..|pending| - 1], visited, total)
  {
    WalkSkip(kids, root, pending, visited);
  }

  lemma Visit(kids: int -> seq<int>, f: int -> nat, root: int, all: set<int>, pending: seq<int>, visited: seq<int>, total: nat)
    requires Walk(kids, f, root, all, pending, visited, total)
    requires pending != [] && pending[|pending| - 1] !in visited && Inside(kids(pending[|pending| - 1]), all)
    ensures var pid := pending[|pending| - 1];
            && Walk(kids, f, root, all, pending[..|pending| - 1] + kids(pid), visited + [pid], total + f(pid))
            && |visited| < |all|
  {
    var pid := pending[|pending| - 1];
    WalkVisit(kids, root, pending, visited);
    InsideNext(pending, kids(pid), all);
    assert (visited + [pid])[..|visited|] == visited;
    Room(visited + [pid], all);
  }

  /** The walk over main tasks ends, cyclic or not, and adds up every reachable process once. */
  method ProcessTreeRss(p: Snapshot, root: int) returns (total: nat, visited: seq<int>)
    ensures Walked(Narrow(p), root, visited) && total == SumOver(visited, Bytes(p))
  {
    ghost var all := Universe(p, root);
    var pending := [root];
    visited, total := [], 0;
    ReachRoot(Narrow(p), root);
    while pending != []
      invariant Walk(Narrow(p), Bytes(p), root, all, pending, visited, total)
      decreases |all| - |visited|, |pending|
    {
      pending, visited, total := NarrowStep(p, root, pending, visited, total);
    }
    WalkDone(Narrow(p), root, visited);
  }

  /** The last process on the list: passed over if it was visited, else visited. */
  method NarrowStep(p: Snapshot, ghost root: int, pending: seq<int>, visited: seq<int>, total: nat)
    returns (next: seq<int>, order: seq<int>, sum: nat)
    requires pending != [] && Walk(Narrow(p), Bytes(p), root, Universe(p, root), pending, visited, total)
    ensures Walk(Narrow(p), Bytes(p), root, Universe(p, root), next, order, sum)
    ensures |order| <= |visited| ==> |order| == |visited| && |next| < |pending|
    ensures |order| > |visited| ==> |visited| < |Universe(p, root)|
  {
    var pid := pending[|pending| - 1];
    if pid in visited {
      Skip(Narrow(p), Bytes(p), root, Universe(p, root), pending, visited, total);
      next, order, sum := pending[..|pending| - 1], visited, total;
    } else {
      ChildrenInside(p, root, pid);
      Visit(Narrow(p), Bytes(p), root, Universe(p, root), pending, visited, total);
      next, order, sum := pending[..|pending| - 1] + MainChildren(p, pid), visited + [pid], total + RssBytes(p, pid);
    }
  }

  /** One process of the other walk: its memory, and the children of each of its tasks. */
  method Inspect(p: Snapshot, pid: int) returns (rss: nat, found: seq<int>)
    ensures rss == RssBytes(p, pid) && found == AllChildren(p, pid)
  {
    rss, found := 0, [];
    if pid in p.status {
      rss := p.status[pid] * 1024;
      if pid in p.tasks {
        var tasks := p.tasks[pid];
        for i := 0 to |tasks|
          invariant found == TaskChildren(p, pid, tasks[..i])
        {
          assert tasks[..i + 1][..i] == tasks[..i];
          if (pid, tasks[i]) in p.children {
            found := found + FilterPositive(p.children[(pid, tasks[i])]);
          }
        }
        assert tasks[..|tasks|] == tasks;
      }
    }
  }

  /** The walk over every task: the same two promises for the wider notion of child. */
  method TreeRss(p: Snapshot, root: int) returns (total: nat, visited: seq<int>)
    ensures Walked(Wide(p), root, visited) && total == SumOver(visited, Bytes(p))
  {
    ghost var all := Universe(p, root);
    var pending := [root];
    visited, total := [], 0;
    ReachRoot(Wide(p), root);
    while pending != []
      invariant Walk(Wide(p), Bytes(p), root, all, pending, visited, total)
      decreases |all| - |visited|, |pending|
    {
      pending, visited, total := WideStep(p, root, pending, visited, total);
    }
    WalkDone(Wide(p), root, visited);
  }

  /** The last process on the list: passed over if it was visited, else visited. */
  method WideStep(p: Snapshot, ghost root: int, pending: seq<int>, visited: seq<int>, total: nat)
    returns (next: seq<int>, order: seq<int>, sum: nat)
    requires pending != [] && Walk(Wide(p), Bytes(p), root, Universe(p, root), pending, visited, total)
    ensures Walk(Wide(p), Bytes(p), root, Universe(p, root), next, order, sum)
    ensures |order| <= |visited| ==> |order| == |visited| && |next| < |pending|
    ensures |order| > |visited| ==> |visited| < |Universe(p, root)|
  {
    var pid := pending[|pending| - 1];
    if pid in visited {
      Skip(Wide(p), Bytes(p), root, Universe(p, root), pending, visited, total);
      next, order, sum := pending[..|pending| - 1], visited, total;
    } else {
      ChildrenInside(p, root, pid);
      Visit(Wide(p), Bytes(p), root, Universe(p, root), pending, visited, total);
      var own, found := Inspect(p, pid);
      next, order, sum := pending[..|pending| - 1] + found, visited + [pid], total + own;
    }
  }

  // ----- how the two totals compare -----

  /** A process that the main walk passes through lists its main task and can be read in full. */
  ghost predicate CoherentAt(p: Snapshot, pid: int) {
    MainChildren(p, pid) != [] ==>
      && pid in p.status && pid in p.tasks && pid in p.tasks[pid]
      && forall c | c in MainChildren(p, pid) :: c > 0
  }

  lemma CoherentChildren(p: Snapshot, pid: int, c: int)
    requires CoherentAt(p, pid) && c in MainChildren(p, pid)
    ensures c in AllChildren(p, pid)
  {
  }

  lemma {:induction false} CoherentPath(p: Snapshot, path: seq<int>)
    requires Path(Narrow(p), path)
    requires forall i | 0 <= i < |path| - 1 :: CoherentAt(p, path[i])
    ensures Path(Wide(p), path)
  {
    forall i | 0 <= i < |path| - 1 ensures path[i + 1] in AllChildren(p, path[i]) {
      var kids := Narrow(p);
      assert path[i + 1] in kids(path[i]);
      CoherentChildren(p, path[i], path[i + 1]);
    }
  }

  lemma {:induction false} PrefixReachable(kids: int -> seq<int>, path: seq<int>, i: nat)
    requires Path(kids, path) && i < |path|
    ensures Reachable(kids, path[0], path[i])
  {
    if i == 0 {
      ReachRoot(kids, path[0]);
    } else {
      PrefixReachable(kids, path, i - 1);
      assert path[i - 1 + 1] in kids(path[i - 1]);
      ReachStep(kids, path[0], path[i - 1], path[i]);
    }
  }

  /** On a coherent snapshot the wider walk reaches all that the narrow one does. */
  lemma CoherentReach(p: Snapshot, root: int, v: int)
    requires forall u | Reachable(Narrow(p), root, u) :: CoherentAt(p, u)
    requires Reachable(Narrow(p), root, v)
    ensures Reachable(Wide(p), root, v)
  {
    var kids := Narrow(p);
    var path :| Path(kids, path) && path[0] == root && path[|path| - 1] == v;
    forall i | 0 <= i < |path| - 1 ensures CoherentAt(p, path[i]) {
      PrefixReachable(kids, path, i);
    }
    CoherentPath(p, path);
  }

  /** Then the narrow total never exceeds the wide one. */
  lemma CoherentTotals(p: Snapshot, root: int, main: seq<int>, all: seq<int>)
    requires forall u | Reachable(Narrow(p), root, u) :: CoherentAt(p, u)
    requires Walked(Narrow(p), root, main) && Walked(Wide(p), root, all)
    ensures SumOver(main, Bytes(p)) <= SumOver(all, Bytes(p))
  {
    forall v | v in main ensures v in all {
      CoherentReach(p, root, v);
    }
    SumWithin(main, all, Bytes(p));
  }

  /** The snapshot with other readings in the same readable status files. */
  function WithReadings(p: Snapshot, f: int -> nat): Snapshot {
    p.(status := map pid | pid in p.status :: f(pid))
  }

  lemma SumsIff(p: Snapshot, main: seq<int>, all: seq<int>)
    requires Distinct(main)
    ensures (forall v | v in main && v in p.status :: v in all)
            <==> forall f: int -> nat :: SumOver(main, Bytes(WithReadings(p, f))) <= SumOver(all, Bytes(WithReadings(p, f)))
  {
    if forall v | v in main && v in p.status :: v in all {
      forall f: int -> nat ensures SumOver(main, Bytes(WithReadings(p, f))) <= SumOver(all, Bytes(WithReadings(p, f))) {
        SumWithin(main, all, Bytes(WithReadings(p, f)));
      }
    } else {
      var k :| 0 <= k < |main| && main[k] in p.status && main[k] !in all;
      var v := main[k];
      var f := (pid: int) => if pid == v then 1 else 0;
      SumTake(main, Bytes(WithReadings(p, f)), k);
      SumZero(all, Bytes(WithReadings(p, f)));
      assert SumOver(main, Bytes(WithReadings(p, f))) > SumOver(all, Bytes(WithReadings(p, f)));
    }
  }

  /** Every readable process that main tasks lead to is one that all tasks lead to. */
  ghost predicate Covered(p: Snapshot, root: int) {
    forall v | v in p.status && Reachable(Narrow(p), root, v) :: Reachable(Wide(p), root, v)
  }

  lemma SameKids(a: int -> seq<int>, b: int -> seq<int>, root: int, v: int)
    requires forall u :: a(u) == b(u)
    requires Reachable(a, root, v)
    ensures Reachable(b, root, v)
  {
    var path :| Path(a, path) && path[0] == root && path[|path| - 1] == v;
    forall i | 0 <= i < |path| - 1 ensures path[i + 1] in b(path[i]) {
      var u := path[i];
      assert path[i + 1] in a(u) && a(u) == b(u);
    }
    assert Path(b, path);
  }

  lemma SameWalk(a: int -> seq<int>, b: int -> seq<int>, root: int, order: seq<int>)
    requires (forall u :: a(u) == b(u)) && Walked(a, root, order)
    ensures Walked(b, root, order)
  {
    forall v ensures v in order <==> Reachable(b, root, v) {
      if Reachable(a, root, v) { SameKids(a, b, root, v); }
      if Reachable(b, root, v) { SameKids(b, a, root, v); }
    }
  }

  lemma WideSame(p: Snapshot, f: int -> nat, u: int)
    ensures AllChildren(WithReadings(p, f), u) == AllChildren(p, u)
  {
    if u in p.status && u in p.tasks {
      TaskChildrenSame(p, WithReadings(p, f), u, p.tasks[u]);
    }
  }

  /** Other readings do not change what the walks visit. */
  lemma ReadingsKeepWalks(p: Snapshot, f: int -> nat, root: int, main: seq<int>, all: seq<int>)
    requires Walked(Narrow(p), root, main) && Walked(Wide(p), root, all)
    ensures Walked(Narrow(WithReadings(p, f)), root, main) && Walked(Wide(WithReadings(p, f)), root, all)
  {
    var q := WithReadings(p, f);
    forall u ensures Narrow(p)(u) == Narrow(q)(u) && Wide(p)(u) == Wide(q)(u) {
      WideSame(p, f, u);
    }
    SameWalk(Narrow(p), Narrow(q), root, main);
    SameWalk(Wide(p), Wide(q), root, all);
  }

  lemma {:induction false} TaskChildrenSame(p: Snapshot, q: Snapshot, pid: int, tasks: seq<int>)
    requires p.children == q.children
    ensures TaskChildren(p, pid, tasks) == TaskChildren(q, pid, tasks)
  {
    if tasks != [] {
      TaskChildrenSame(p, q, pid, tasks[..|tasks| - 1]);
    }
  }

  /** The main-task total stays within the all-task total for all readings of the status files if and
      only if the snapshot is covered. */
  lemma TotalsIff(p: Snapshot, root: int, main: seq<int>, all: seq<int>)
    requires Walked(Narrow(p), root, main) && Walked(Wide(p), root, all)
    ensures Covered(p, root)
            <==> forall f: int -> nat :: SumOver(main, Bytes(WithReadings(p, f))) <= SumOver(all, Bytes(WithReadings(p, f)))
    ensures forall f: int -> nat ::
              Walked(Narrow(WithReadings(p, f)), root, main) && Walked(Wide(WithReadings(p, f)), root, all)
  {
    SumsIff(p, main, all);
    forall f: int -> nat
      ensures Walked(Narrow(WithReadings(p, f)), root, main) && Walked(Wide(WithReadings(p, f)), root, all)
    {
      ReadingsKeepWalks(p, f, root, main, all);
    }
  }

  /** Where coverage breaks, some process that all tasks lead to has a main child that they miss:
      its status or its task list cannot be read, its main task is not listed, or the child is no
      positive number. */
  lemma CoverageBreaks(p: Snapshot, root: int) returns (u: int)
    requires !Covered(p, root)
    ensures Reachable(Narrow(p), root, u) && Reachable(Wide(p), root, u) && !CoherentAt(p, u)
  {
    var v :| v in p.status && Reachable(Narrow(p), root, v) && !Reachable(Wide(p), root, v);
    var path :| Path(Narrow(p), path) && path[0] == root && path[|path| - 1] == v;
    ReachRoot(Wide(p), root);
    var k := Leaves(path, w => Reachable(Wide(p), root, w));
    PrefixReachable(Narrow(p), path, k);
    assert path[k + 1] in Narrow(p)(path[k]);
    u := path[k];
    if CoherentAt(p, u) {
      CoherentChildren(p, u, path[k + 1]);
      ReachStep(Wide(p), root, u, path[k + 1]);
    }
  }

  /** Somewhere along a path that starts inside and ends outside, it leaves. */
  lemma {:induction false} Leaves(path: seq<int>, inside: int -> bool) returns (k: nat)
    requires path != [] && inside(path[0]) && !inside(path[|path| - 1])
    ensures k + 1 < |path| && inside(path[k]) && !inside(path[k + 1])
    decreases |path|
  {
    k := |path| - 2;
    if !inside(path[k]) {
      k := Leaves(path[..|path| - 1], inside);
    }
  }

  /** A root whose status file is gone while its children file is still there: the wide walk stops
      at once, the narrow one goes on. */
  function Vanishing(rss: nat): Snapshot {
    Snapshot(map[2 := rss], map[1 := [1], 2 := [2]], map[(1, 1) := [2]])
  }

  lemma VanishingNarrow(rss: nat, main: seq<int>)
    requires forall v | Reachable(Narrow(Vanishing(rss)), 1, v) :: v in main
    ensures 2 in main
  {
    var narrow := Narrow(Vanishing(rss));
    ReachRoot(narrow, 1);
    assert narrow(1) == [2];
    ReachStep(narrow, 1, 1, 2);
  }

  lemma VanishingWide(rss: nat, v: int)
    requires Reachable(Wide(Vanishing(rss)), 1, v)
    ensures v == 1
  {
    var wide := Wide(Vanishing(rss));
    assert wide(1) == [];
    ClosedHolds(wide, {1}, 1, v);
  }

  lemma NarrowCanExceedWide(rss: nat, main: seq<int>, all: seq<int>)
    requires rss > 0
    requires forall v | Reachable(Narrow(Vanishing(rss)), 1, v) :: v in main
    requires forall v | v in all :: Reachable(Wide(Vanishing(rss)), 1, v)
    ensures SumOver(main, Bytes(Vanishing(rss))) > SumOver(all, Bytes(Vanishing(rss)))
  {
    var bytes := Bytes(Vanishing(rss));
    VanishingNarrow(rss, main);
    var k :| 0 <= k < |main| && main[k] == 2;
    SumTake(main, bytes, k);
    forall i | 0 <= i < |all| ensures bytes(all[i]) == 0 {
      VanishingWide(rss, all[i]);
    }
    SumZero(all, bytes);
  }
}
