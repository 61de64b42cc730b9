/** Order statistics of samples: what sorting and picking a place means for the decisions on top. */
module OrderStatistics {
  import opened Options
  import opened Sequences
  import opened Sorting

  predicate RealLeq(x: real, y: real) { x <= y }

  function SortReals(s: seq<real>): (r: seq<real>) {
    Sort(s, RealLeq)
  }

  lemma SortRealsSorts(s: seq<real>)
    ensures |SortReals(s)| == |s| && multiset(SortReals(s)) == multiset(s)
    ensures forall i, j | 0 <= i <= j < |s| :: SortReals(s)[i] <= SortReals(s)[j]
  {
    SortSorts(s, RealLeq);
    assert forall i, j | 0 <= i < j < |s| :: RealLeq(SortReals(s)[i], SortReals(s)[j]);
  }

  /** The middle of a sorted sequence. */
  function Middle(sorted: seq<real>): real
    requires sorted != []
  {
    var m := |sorted| / 2;
    if |sorted| % 2 == 0 then (sorted[m - 1] + sorted[m]) / 2.0 else sorted[m]
  }

  function Median(s: seq<real>): real
    requires s != []
  {
    SortRealsSorts(s);
    Middle(SortReals(s))
  }

  // ----- counting -----

  /** How many samples are at most `t`. */
  function CountLeq(s: seq<real>, t: real): (n: nat)
    ensures n <= |s|
  {
    if s == [] then 0 else (if s[0] <= t then 1 else 0) + CountLeq(s[1..], t)
  }

  lemma {:induction false} CountWithout(s: seq<real>, j: nat, t: real)
    requires j < |s|
    ensures CountLeq(s, t) == CountLeq(Without(s, j), t) + if s[j] <= t then 1 else 0
  {
    if j == 0 {
      assert Without(s, 0) == s[1..];
    } else {
      CountWithout(s[1..], j - 1, t);
      assert Without(s, j)[1..] == Without(s[1..], j - 1);
    }
  }

  lemma {:induction false} CountOfPermutation(a: seq<real>, b: seq<real>, t: real)
    requires multiset(a) == multiset(b)
    ensures CountLeq(a, t) == CountLeq(b, t)
    decreases |a|
  {
    assert |a| == |multiset(a)| == |multiset(b)| == |b|;
    if a != [] {
      assert a[0] in multiset(b);
      var j :| 0 <= j < |b| && b[j] == a[0];
      WithoutMultiset(a, 0);
      WithoutMultiset(b, j);
      CountOfPermutation(Without(a, 0), Without(b, j), t);
      CountWithout(a, 0, t);
      CountWithout(b, j, t);
    }
  }

  ghost predicate Ascending(s: seq<real>) {
    forall i, j | 0 <= i <= j < |s| :: s[i] <= s[j]
  }

  /** In a sorted sequence the place of an element is the number of elements up to it. */
  lemma {:induction false} PlaceByCount(s: seq<real>, k: nat, t: real)
    requires Ascending(s) && k < |s|
    ensures s[k] <= t <==> CountLeq(s, t) >= k + 1
  {
    if k > 0 {
      PlaceByCount(s[1..], k - 1, t);
      assert s[0] <= s[k];
    } else if s[0] > t {
      CountNone(s, t);
    }
  }

  lemma {:induction false} CountNone(s: seq<real>, t: real)
    requires forall i | 0 <= i < |s| :: s[i] > t
    ensures CountLeq(s, t) == 0
  {
    if s != [] {
      CountNone(s[1..], t);
    }
  }

  lemma {:induction false} CountDominated(a: seq<real>, b: seq<real>, t: real)
    requires |a| == |b| && forall i | 0 <= i < |a| :: a[i] <= b[i]
    ensures CountLeq(a, t) >= CountLeq(b, t)
  {
    if a != [] {
      CountDominated(a[1..], b[1..], t);
    }
  }

  // ----- monotone, scale-equivariant, blind to order -----

  /** Pointwise smaller samples are smaller place by place once sorted, whatever their order. */
  lemma SortDominated(a: seq<real>, b: seq<real>, k: nat)
    requires |a| == |b| && k < |a| && forall i | 0 <= i < |a| :: a[i] <= b[i]
    ensures |SortReals(a)| == |SortReals(b)| == |a| && SortReals(a)[k] <= SortReals(b)[k]
  {
    SortRealsSorts(a);
    SortRealsSorts(b);
    var t := SortReals(b)[k];
    PlaceByCount(SortReals(b), k, t);
    CountOfPermutation(SortReals(b), b, t);
    CountDominated(a, b, t);
    CountOfPermutation(a, SortReals(a), t);
    PlaceByCount(SortReals(a), k, t);
  }

  lemma MedianMonotone(a: seq<real>, b: seq<real>)
    requires |a| == |b| && a != [] && forall i | 0 <= i < |a| :: a[i] <= b[i]
    ensures Median(a) <= Median(b)
  {
    var m := |a| / 2;
    SortDominated(a, b, m);
    if |a| % 2 == 0 {
      SortDominated(a, b, m - 1);
    }
  }

  lemma MedianOfPermutation(a: seq<real>, b: seq<real>)
    requires multiset(a) == multiset(b) && a != []
    ensures b != [] && Median(a) == Median(b)
  {
    assert |a| == |multiset(a)| == |multiset(b)| == |b|;
    SortRealsSorts(a);
    SortRealsSorts(b);
    SortedUnique(SortReals(a), SortReals(b), RealLeq);
  }

  function Scaled(s: seq<real>, c: real): (r: seq<real>)
    ensures |r| == |s| && forall i | 0 <= i < |s| :: r[i] == c * s[i]
  {
    Map(s, x => c * x)
  }

  lemma ScaleLeq(c: real, x: real, y: real)
    requires c >= 0.0 && x <= y
    ensures c * x <= c * y
  {
    assert c * y - c * x == c * (y - x);
  }

  lemma ScaledSorted(t: seq<real>, c: real)
    requires c >= 0.0 && Ascending(t)
    ensures Sorted(Scaled(t, c), RealLeq)
  {
    forall i, j | 0 <= i < j < |t| ensures RealLeq(Scaled(t, c)[i], Scaled(t, c)[j]) {
      ScaleLeq(c, t[i], t[j]);
    }
  }

  lemma SortScaled(s: seq<real>, c: real)
    requires c >= 0.0
    ensures SortReals(Scaled(s, c)) == Scaled(SortReals(s), c)
  {
    var a, b := SortReals(Scaled(s, c)), Scaled(SortReals(s), c);
    SortRealsSorts(s);
    SortRealsSorts(Scaled(s, c));
    ScaledSorted(SortReals(s), c);
    assert Sorted(a, RealLeq);
    MapPermutation(SortReals(s), s, x => c * x);
    SortedUnique(a, b, RealLeq);
  }

  predicate IsScaled(x: real, c: real, y: real) { y == c * x }

  lemma HalfSum(c: real, x: real, y: real)
    ensures IsScaled((x + y) / 2.0, c, (c * x + c * y) / 2.0)
  {
    var half := (x + y) / 2.0;
    assert c * x + c * y == c * (x + y);
    assert x + y == half + half;
    assert c * (half + half) == c * half + c * half;
  }

  lemma MiddleScaled(t: seq<real>, c: real)
    requires t != []
    ensures IsScaled(Middle(t), c, Middle(Scaled(t, c)))
  {
    var m := |t| / 2;
    if |t| % 2 == 0 {
      HalfSum(c, t[m - 1], t[m]);
    }
  }

  lemma MedianIsScaled(s: seq<real>, c: real)
    requires c >= 0.0 && s != []
    ensures IsScaled(Median(s), c, Median(Scaled(s, c)))
  {
    SortRealsSorts(s);
    MiddleScaled(SortReals(s), c);
    SortScaled(s, c);
  }

  lemma MedianScaled(s: seq<real>, c: real)
    requires c >= 0.0 && s != []
    ensures Median(Scaled(s, c)) == c * Median(s)
  {
    MedianIsScaled(s, c);
  }

  /** The median lies between any two bounds of the samples. */
  lemma MedianBetween(s: seq<real>, low: real, high: real)
    requires s != [] && forall i | 0 <= i < |s| :: low <= s[i] <= high
    ensures low <= Median(s) <= high
  {
    SortRealsSorts(s);
    forall i | 0 <= i < |s| ensures low <= SortReals(s)[i] <= high {
      assert SortReals(s)[i] in multiset(SortReals(s));
      assert SortReals(s)[i] in s;
    }
  }

  lemma MedianPositive(s: seq<real>)
    requires s != [] && forall i | 0 <= i < |s| :: s[i] > 0.0
    ensures Median(s) > 0.0
  {
    SortRealsSorts(s);
    forall i | 0 <= i < |s| ensures SortReals(s)[i] > 0.0 {
      assert SortReals(s)[i] in multiset(SortReals(s));
      assert SortReals(s)[i] in s;
    }
  }

  // ----- the summary -----

  datatype Summary = Summary(
    count: nat, minimumMs: real, medianMs: real, p95Ms: real, maximumMs: real, madMs: real)

  predicate Summarizable(s: seq<real>) {
    s != [] && forall i | 0 <= i < |s| :: s[i] >= 0.0
  }

  /** The place of the 95th percentile: the exact ceiling of 95 n / 100, counted from zero. */
  function P95Place(n: nat): (k: nat)
    requires n > 0
    ensures k < n && 100 * k < 95 * n <= 100 * (k + 1)
  {
    (95 * n + 99) / 100 - 1
  }

  function Abs(x: real): real { if x < 0.0 then -x else x }

  function Deviations(s: seq<real>, center: real): (r: seq<real>)
    ensures |r| == |s|
    ensures forall i | 0 <= i < |s| :: r[i] == if s[i] <= center then center - s[i] else s[i] - center
  {
    var r := Map(s, x => Abs(x - center));
    assert forall i | 0 <= i < |s| :: r[i] == Abs(s[i] - center);
    r
  }

  function Summarize(s: seq<real>): Summary
    requires Summarizable(s)
  {
    SortRealsSorts(s);
    var sorted := SortReals(s);
    var median := Middle(sorted);
    Summary(|s|, sorted[0], median, sorted[P95Place(|s|)], sorted[|s| - 1], Median(Deviations(sorted, median)))
  }

  /** A list without samples, or with a negative one, is refused. */
  function SummarizeSamples(s: seq<real>): (r: Option<Summary>)
    ensures r.None? <==> s == [] || exists i :: 0 <= i < |s| && s[i] < 0.0
    ensures r.Some? ==> Summarizable(s) && r.value == Summarize(s)
  {
    if Summarizable(s) then Some(Summarize(s)) else None
  }

  /** Nearest rank: the least sample that 95 in 100 of the samples do not exceed. */
  lemma P95IsNearestRank(s: seq<real>, v: real)
    requires Summarizable(s)
    ensures Summarize(s).p95Ms in s
    ensures v >= Summarize(s).p95Ms <==> 100 * CountLeq(s, v) >= 95 * |s|
  {
    SortRealsSorts(s);
    var sorted, k := SortReals(s), P95Place(|s|);
    assert sorted[k] in multiset(sorted);
    PlaceByCount(sorted, k, v);
    CountOfPermutation(sorted, s, v);
  }

  /** Minimum and maximum are samples and bound all of them; the median is between. */
  lemma SummaryBounds(s: seq<real>)
    requires Summarizable(s)
    ensures var r := Summarize(s);
            && r.minimumMs in s && r.maximumMs in s
            && (forall i | 0 <= i < |s| :: r.minimumMs <= s[i] <= r.maximumMs)
            && r.minimumMs <= r.medianMs <= r.maximumMs && r.medianMs == Median(s)
  {
    SortRealsSorts(s);
    var sorted := SortReals(s);
    assert sorted[0] in multiset(sorted) && sorted[|s| - 1] in multiset(sorted);
    forall i | 0 <= i < |s| ensures sorted[0] <= s[i] <= sorted[|s| - 1] {
      assert s[i] in multiset(s);
      assert s[i] in sorted;
    }
    MedianBetween(s, sorted[0], sorted[|s| - 1]);
  }

  /** Half the samples lie within one deviation of the median. */
  lemma MadCovers(s: seq<real>)
    requires Summarizable(s)
    ensures var r := Summarize(s); 2 * CountLeq(Deviations(s, r.medianMs), r.madMs) >= |s|
  {
    SortRealsSorts(s);
    var sorted := SortReals(s);
    var center := Middle(sorted);
    var d := Deviations(sorted, center);
    MapPermutation(sorted, s, x => Abs(x - center));
    CountOfPermutation(d, Deviations(s, center), Median(d));
    HalfBelowMedian(d);
  }

  lemma HalfBelowMedian(s: seq<real>)
    requires s != []
    ensures 2 * CountLeq(s, Median(s)) >= |s|
  {
    SortRealsSorts(s);
    var sorted, m := SortReals(s), |s| / 2;
    CountOfPermutation(sorted, s, Median(s));
    if |s| % 2 == 0 {
      assert sorted[m - 1] <= sorted[m];
      PlaceByCount(sorted, m - 1, Median(s));
    } else {
      PlaceByCount(sorted, m, Median(s));
    }
  }

  // ----- what the median is -----

  /** Samples mirrored at half of `c`. */
  function Reflected(s: seq<real>, c: real): (r: seq<real>)
    ensures |r| == |s| && forall i | 0 <= i < |s| :: r[i] == c - s[i]
  {
    Map(s, x => c - x)
  }

  function Backwards(s: seq<real>): (r: seq<real>)
    ensures |r| == |s| && forall i | 0 <= i < |s| :: r[i] == s[|s| - 1 - i]
  {
    seq(|s|, i requires 0 <= i < |s| => s[|s| - 1 - i])
  }

  lemma {:induction false} BackwardsSame(s: seq<real>)
    ensures multiset(Backwards(s)) == multiset(s)
  {
    if s == [] {
      assert Backwards(s) == [];
    } else {
      BackwardsSame(s[1..]);
      assert Backwards(s) == Backwards(s[1..]) + [s[0]];
      assert s == [s[0]] + s[1..];
    }
  }

  lemma SortReflected(s: seq<real>, c: real)
    ensures SortReals(Reflected(s, c)) == Backwards(Reflected(SortReals(s), c))
  {
    var a, b := SortReals(Reflected(s, c)), Backwards(Reflected(SortReals(s), c));
    SortRealsSorts(s);
    SortRealsSorts(Reflected(s, c));
    MapPermutation(SortReals(s), s, x => c - x);
    BackwardsSame(Reflected(SortReals(s), c));
    forall i, j | 0 <= i < j < |b| ensures RealLeq(b[i], b[j]) {
      assert SortReals(s)[|b| - 1 - j] <= SortReals(s)[|b| - 1 - i];
    }
    assert Sorted(a, RealLeq);
    SortedUnique(a, b, RealLeq);
  }

  /** The median of mirrored samples is the mirrored median: it favours neither end. */
  lemma MedianReflected(s: seq<real>, c: real)
    requires s != []
    ensures Median(Reflected(s, c)) == c - Median(s)
  {
    SortRealsSorts(s);
    SortRealsSorts(Reflected(s, c));
    SortReflected(s, c);
    var t, m := SortReals(s), |s| / 2;
    var u := Backwards(Reflected(t, c));
    assert u[m] == c - t[|s| - 1 - m];
    if |s| % 2 == 0 {
      assert u[m - 1] == c - t[m] && u[m] == c - t[m - 1];
    }
  }

  /** How many samples are `t` or more. */
  function CountGeq(s: seq<real>, t: real): (n: nat)
    ensures n <= |s|
  {
    if s == [] then 0 else (if s[0] >= t then 1 else 0) + CountGeq(s[1..], t)
  }

  lemma {:induction false} CountReflected(s: seq<real>, c: real, t: real)
    ensures CountLeq(Reflected(s, c), c - t) == CountGeq(s, t)
  {
    if s != [] {
      CountReflected(s[1..], c, t);
      assert Reflected(s, c)[1..] == Reflected(s[1..], c);
    }
  }

  lemma AboveByReflection(s: seq<real>, t: real, u: real)
    requires u == 0.0 - t && 2 * CountLeq(Reflected(s, 0.0), u) >= |s|
    ensures 2 * CountGeq(s, t) >= |s|
  {
    CountReflected(s, 0.0, t);
  }

  /** At least half of the samples are no less than the median. */
  lemma HalfAboveMedian(s: seq<real>)
    requires s != []
    ensures 2 * CountGeq(s, Median(s)) >= |s|
  {
    MedianReflected(s, 0.0);
    HalfBelowMedian(Reflected(s, 0.0));
    AboveByReflection(s, Median(s), Median(Reflected(s, 0.0)));
  }

  /** `x` is the sample of rank `k`: exactly from `x` on, at least `k` samples are covered. */
  ghost predicate HasRank(s: seq<real>, x: real, k: nat) {
    x in s && forall v :: v >= x <==> CountLeq(s, v) >= k
  }

  lemma RankOf(s: seq<real>, k: nat)
    requires 1 <= k <= |s|
    ensures |SortReals(s)| == |s| && HasRank(s, SortReals(s)[k - 1], k)
  {
    SortRealsSorts(s);
    var sorted := SortReals(s);
    assert sorted[k - 1] in multiset(sorted);
    forall v ensures v >= sorted[k - 1] <==> CountLeq(s, v) >= k {
      PlaceByCount(sorted, k - 1, v);
      CountOfPermutation(sorted, s, v);
    }
  }

  /** An odd number of samples has its median at the middle rank; an even number has it half way
      between the two middle ranks. */
  lemma MedianByRank(s: seq<real>) returns (low: real, high: real)
    requires s != []
    ensures HasRank(s, low, (|s| + 1) / 2) && HasRank(s, high, |s| / 2 + 1)
    ensures Median(s) == (low + high) / 2.0
    ensures |s| % 2 == 1 ==> Median(s) == low == high
  {
    SortRealsSorts(s);
    low, high := SortReals(s)[(|s| + 1) / 2 - 1], SortReals(s)[|s| / 2];
    RankOf(s, (|s| + 1) / 2);
    RankOf(s, |s| / 2 + 1);
  }

  /** The reported deviation is the median distance of the samples from their median. */
  lemma MadIsMedian(s: seq<real>)
    requires Summarizable(s)
    ensures Summarize(s).medianMs == Median(s) && Summarize(s).madMs == Median(Deviations(s, Median(s)))
  {
    SortRealsSorts(s);
    var sorted, center := SortReals(s), Median(s);
    MapPermutation(sorted, s, x => Abs(x - center));
    MedianOfPermutation(Deviations(sorted, center), Deviations(s, center));
  }
}
