/**
 Baseline against candidate: medians of process medians, the improvement between them, and the
 primary acceptance decision. A measurement that is not available is null, never zero.
 */
module ValidatedState {
  import opened Options
  import opened Sequences
  import opened OrderStatistics

  datatype Timing = Timing(wallMs: real, threadCpuMs: Option<real>)

  datatype CaptureRow = CaptureRow(events: nat, warmup: bool, miss: Timing, structuralFold: Timing, hits: seq<Timing>)

  type Capture = seq<CaptureRow>

  datatype Operation = Miss | Hits | StructuralFold

  datatype Metric = ThreadCpuMs | WallMs

  function Reading(t: Timing, metric: Metric): Option<real> {
    match metric case ThreadCpuMs => t.threadCpuMs case WallMs => Some(t.wallMs)
  }

  function RowReadings(row: CaptureRow, operation: Operation, metric: Metric): seq<Option<real>> {
    match operation
    case Miss => [Reading(row.miss, metric)]
    case StructuralFold => [Reading(row.structuralFold, metric)]
    case Hits => Map(row.hits, (t: Timing) => Reading(t, metric))
  }

  predicate Measured(row: CaptureRow, events: nat) { row.events == events && !row.warmup }

  /** The measured readings of one process: warm-up rows and other fixtures are left out. */
  function Readings(capture: Capture, events: nat, operation: Operation, metric: Metric): seq<Option<real>> {
    if capture == [] then []
    else
      (if Measured(capture[0], events) then RowReadings(capture[0], operation, metric) else [])
      + Readings(capture[1..], events, operation, metric)
  }

  lemma {:induction false} ReadingsJoin(a: Capture, b: Capture, events: nat, operation: Operation, metric: Metric)
    ensures Readings(a + b, events, operation, metric) == Readings(a, events, operation, metric) + Readings(b, events, operation, metric)
  {
    if a == [] {
      assert a + b == b;
    } else {
      ReadingsJoin(a[1..], b, events, operation, metric);
      assert (a + b)[0] == a[0] && (a + b)[1..] == a[1..] + b;
      var own := if Measured(a[0], events) then RowReadings(a[0], operation, metric) else [];
      Assoc(own, Readings(a[1..], events, operation, metric), Readings(b, events, operation, metric));
    }
  }

  /** What one row gives: nothing unless it is measured and of the fixture, else its reading of the
      operation on the clock asked for; every hit is a reading of its own. */
  lemma RowMeans(row: CaptureRow, events: nat, operation: Operation, metric: Metric)
    ensures var own := Readings([row], events, operation, metric);
            && (row.events != events || row.warmup ==> own == [])
            && (row.events == events && !row.warmup && operation == Miss ==> own == [if metric == WallMs then Some(row.miss.wallMs) else row.miss.threadCpuMs])
            && (row.events == events && !row.warmup && operation == StructuralFold ==>
                  own == [if metric == WallMs then Some(row.structuralFold.wallMs) else row.structuralFold.threadCpuMs])
            && (row.events == events && !row.warmup && operation == Hits ==>
                  && |own| == |row.hits|
                  && forall i | 0 <= i < |row.hits| :: own[i] == if metric == WallMs then Some(row.hits[i].wallMs) else row.hits[i].threadCpuMs)
  {
    assert Readings([row][1..], events, operation, metric) == [];
  }

  /** Each row of a capture adds its own readings, whatever stands around it. */
  lemma ReadingsMean(a: Capture, row: CaptureRow, b: Capture, events: nat, operation: Operation, metric: Metric)
    ensures Readings(a + [row] + b, events, operation, metric)
            == Readings(a, events, operation, metric) + Readings([row], events, operation, metric) + Readings(b, events, operation, metric)
  {
    ReadingsJoin(a, [row], events, operation, metric);
    ReadingsJoin(a + [row], b, events, operation, metric);
  }

  function Values(s: seq<Option<real>>): (r: seq<real>)
    requires forall i | 0 <= i < |s| :: s[i].Some?
    ensures |r| == |s| && forall i | 0 <= i < |s| :: r[i] == s[i].value
  {
    if s == [] then [] else [s[0].value] + Values(s[1..])
  }

  predicate Available(s: seq<Option<real>>) {
    s != [] && forall i | 0 <= i < |s| :: s[i].Some? && s[i].value >= 0.0
  }

  predicate HasNull(s: seq<Option<real>>) {
    exists i :: 0 <= i < |s| && s[i].None?
  }

  predicate Readable(s: seq<Option<real>>) {
    HasNull(s) || Available(s)
  }

  /** Readings can be summarized when one is null, or when there are some and none is negative. */
  lemma ReadableIff(s: seq<Option<real>>)
    ensures Readable(s) <==> None in s || (s != [] && forall x | x in s :: x.value >= 0.0)
  {
    if Readable(s) {
      assert forall i | 0 <= i < |s| :: s[i] in s;
    }
    if None in s {
      var i :| 0 <= i < |s| && s[i] == None;
    }
  }

  /** Null in, null out; otherwise the median, which asks for a nonempty list of durations. */
  function MedianOrNull(s: seq<Option<real>>): (r: Option<real>)
    requires Readable(s)
  {
    if HasNull(s) then None else Some(Median(Values(s)))
  }

  /** Each process's readings of one kind. */
  function CohortReadings(cohort: seq<Capture>, events: nat, operation: Operation, metric: Metric): (r: seq<seq<Option<real>>>)
    ensures |r| == |cohort| && forall i | 0 <= i < |cohort| :: r[i] == Readings(cohort[i], events, operation, metric)
  {
    if cohort == [] then []
    else [Readings(cohort[0], events, operation, metric)] + CohortReadings(cohort[1..], events, operation, metric)
  }

  function ProcessMedians(readings: seq<seq<Option<real>>>): (r: seq<Option<real>>)
    requires forall i | 0 <= i < |readings| :: Readable(readings[i])
    ensures |r| == |readings| && forall i | 0 <= i < |readings| :: r[i] == MedianOrNull(readings[i])
  {
    if readings == [] then [] else [MedianOrNull(readings[0])] + ProcessMedians(readings[1..])
  }

  function ImprovementPercent(baseline: Option<real>, candidate: Option<real>): Option<real> {
    if baseline.None? || candidate.None? || baseline.value == 0.0 then None
    else Some((baseline.value - candidate.value) / baseline.value * 100.0)
  }

  predicate PrimaryAccepted(improvement: Option<real>, minimum: real) {
    improvement.Some? && improvement.value >= minimum
  }

  /** The primary row: medians of process medians for both cohorts and the improvement. */
  function PrimaryImprovement(baseline: seq<Capture>, candidate: seq<Capture>, events: nat, metric: Metric): Option<real>
    requires forall i | 0 <= i < |baseline| :: Readable(Readings(baseline[i], events, Miss, metric))
    requires forall i | 0 <= i < |candidate| :: Readable(Readings(candidate[i], events, Miss, metric))
    requires Readable(ProcessMedians(CohortReadings(baseline, events, Miss, metric)))
    requires Readable(ProcessMedians(CohortReadings(candidate, events, Miss, metric)))
  {
    ImprovementPercent(
      MedianOrNull(ProcessMedians(CohortReadings(baseline, events, Miss, metric))),
      MedianOrNull(ProcessMedians(CohortReadings(candidate, events, Miss, metric))))
  }

  // ----- when the primary decision passes -----

  /** Acceptance is the candidate median being at most the required fraction of a positive baseline. */
  lemma AcceptedIffBelow(baseline: real, candidate: real, minimum: real)
    requires baseline > 0.0
    ensures PrimaryAccepted(ImprovementPercent(Some(baseline), Some(candidate)), minimum)
            <==> candidate <= (1.0 - minimum / 100.0) * baseline
  {
    var gain := (baseline - candidate) / baseline;
    assert gain * baseline == baseline - candidate;
    if gain * 100.0 >= minimum {
      MulLeq(minimum / 100.0, gain, baseline);
    }
    if candidate <= (1.0 - minimum / 100.0) * baseline {
      assert minimum / 100.0 * baseline <= gain * baseline;
      Cancel(minimum / 100.0, gain, baseline);
    }
  }

  lemma MulLeq(x: real, y: real, k: real)
    requires x <= y && k >= 0.0
    ensures x * k <= y * k
  {
    assert y * k - x * k == (y - x) * k;
  }

  lemma Cancel(x: real, y: real, k: real)
    requires x * k <= y * k && k > 0.0
    ensures x <= y
  {
    assert (y - x) * k >= 0.0;
  }

  predicate AtMost(c: real, factor: real, b: real) { c <= factor * b }

  predicate PairBelow(b: Option<real>, c: Option<real>, factor: real) {
    b.Some? && c.Some? && b.value > 0.0 && c.value >= 0.0 && AtMost(c.value, factor, b.value)
  }

  /** Paired readings: everything measured, positive baselines, each candidate within the fraction. */
  ghost predicate PairedBelow(b: seq<Option<real>>, c: seq<Option<real>>, factor: real) {
    |b| == |c| && b != [] && forall i | 0 <= i < |b| :: PairBelow(b[i], c[i], factor)
  }

  lemma PairedAvailable(b: seq<Option<real>>, c: seq<Option<real>>, factor: real)
    requires PairedBelow(b, c, factor)
    ensures Available(b) && Available(c) && !HasNull(b) && !HasNull(c)
  {
    forall i | 0 <= i < |b| ensures b[i].Some? && c[i].Some? && b[i].value >= 0.0 && c[i].value >= 0.0 {
      assert PairBelow(b[i], c[i], factor);
    }
  }

  lemma MedianBelow(b: seq<real>, c: seq<real>, factor: real)
    requires |b| == |c| && b != [] && factor >= 0.0
    requires forall i | 0 <= i < |b| :: b[i] > 0.0 && AtMost(c[i], factor, b[i])
    ensures AtMost(Median(c), factor, Median(b)) && Median(b) > 0.0
  {
    var scaled := Scaled(b, factor);
    forall i | 0 <= i < |b| ensures c[i] <= scaled[i] {
      assert AtMost(c[i], factor, b[i]);
    }
    MedianMonotone(c, scaled);
    MedianScaled(b, factor);
    MedianPositive(b);
  }

  lemma ProcessMedianBelow(b: seq<Option<real>>, c: seq<Option<real>>, factor: real)
    requires PairedBelow(b, c, factor) && factor >= 0.0
    ensures Readable(b) && Readable(c) && PairBelow(MedianOrNull(b), MedianOrNull(c), factor)
  {
    PairedAvailable(b, c, factor);
    var x, y := Values(b), Values(c);
    forall i | 0 <= i < |x| ensures x[i] > 0.0 && y[i] >= 0.0 && AtMost(y[i], factor, x[i]) {
      assert PairBelow(b[i], c[i], factor);
    }
    MedianBelow(x, y, factor);
    MedianNonNegative(y);
  }

  lemma MedianNonNegative(s: seq<real>)
    requires s != [] && forall i | 0 <= i < |s| :: s[i] >= 0.0
    ensures Median(s) >= 0.0
  {
    SortRealsSorts(s);
    forall i | 0 <= i < |s| ensures SortReals(s)[i] >= 0.0 {
      assert SortReals(s)[i] in multiset(SortReals(s));
      assert SortReals(s)[i] in s;
    }
  }

  /** If every measured primary sample of the candidate is at most (1 - minimum) of its positive
      baseline counterpart, in every process, the primary decision passes. */
  lemma PrimaryPasses(baseline: seq<Capture>, candidate: seq<Capture>, events: nat, metric: Metric, minimum: real)
    requires |baseline| == |candidate| > 0 && 0.0 <= minimum <= 100.0
    requires forall i | 0 <= i < |baseline| ::
               PairedBelow(Readings(baseline[i], events, Miss, metric), Readings(candidate[i], events, Miss, metric),
                           1.0 - minimum / 100.0)
    ensures forall i | 0 <= i < |baseline| ::
              Readable(Readings(baseline[i], events, Miss, metric)) && Readable(Readings(candidate[i], events, Miss, metric))
    ensures Readable(ProcessMedians(CohortReadings(baseline, events, Miss, metric)))
    ensures Readable(ProcessMedians(CohortReadings(candidate, events, Miss, metric)))
    ensures PrimaryAccepted(PrimaryImprovement(baseline, candidate, events, metric), minimum)
  {
    var factor := 1.0 - minimum / 100.0;
    var rb, rc := CohortReadings(baseline, events, Miss, metric), CohortReadings(candidate, events, Miss, metric);
    MediansPaired(rb, rc, factor);
    CohortPasses(ProcessMedians(rb), ProcessMedians(rc), minimum);
  }

  lemma CohortPasses(b: seq<Option<real>>, c: seq<Option<real>>, minimum: real)
    requires 0.0 <= minimum <= 100.0 && PairedBelow(b, c, 1.0 - minimum / 100.0)
    ensures Readable(b) && Readable(c)
    ensures PrimaryAccepted(ImprovementPercent(MedianOrNull(b), MedianOrNull(c)), minimum)
  {
    var factor := 1.0 - minimum / 100.0;
    assert factor >= 0.0 by {
      Cancel(0.0, factor, 100.0);
    }
    ProcessMedianBelow(b, c, factor);
    var x, y := MedianOrNull(b), MedianOrNull(c);
    assert PairBelow(x, y, factor);
    AcceptedIffBelow(x.value, y.value, minimum);
    assert x == Some(x.value) && y == Some(y.value);
  }

  lemma MediansPaired(rb: seq<seq<Option<real>>>, rc: seq<seq<Option<real>>>, factor: real)
    requires |rb| == |rc| > 0 && factor >= 0.0
    requires forall i | 0 <= i < |rb| :: PairedBelow(rb[i], rc[i], factor)
    ensures forall i | 0 <= i < |rb| :: Readable(rb[i]) && Readable(rc[i])
    ensures PairedBelow(ProcessMedians(rb), ProcessMedians(rc), factor)
  {
    forall i | 0 <= i < |rb| ensures Readable(rb[i]) && Readable(rc[i]) && PairBelow(MedianOrNull(rb[i]), MedianOrNull(rc[i]), factor) {
      ProcessMedianBelow(rb[i], rc[i], factor);
    }
  }

  /** A null anywhere in the primary readings of either side makes the decision fail, not pass. */
  lemma {:induction false} NullNeverPasses(baseline: seq<Capture>, candidate: seq<Capture>, events: nat, metric: Metric, minimum: real, p: nat)
    requires forall i | 0 <= i < |baseline| :: Readable(Readings(baseline[i], events, Miss, metric))
    requires forall i | 0 <= i < |candidate| :: Readable(Readings(candidate[i], events, Miss, metric))
    requires Readable(ProcessMedians(CohortReadings(baseline, events, Miss, metric)))
    requires Readable(ProcessMedians(CohortReadings(candidate, events, Miss, metric)))
    requires (p < |baseline| && HasNull(Readings(baseline[p], events, Miss, metric)))
             || (p < |candidate| && HasNull(Readings(candidate[p], events, Miss, metric)))
    ensures !PrimaryAccepted(PrimaryImprovement(baseline, candidate, events, metric), minimum)
  {
    var b := ProcessMedians(CohortReadings(baseline, events, Miss, metric));
    var c := ProcessMedians(CohortReadings(candidate, events, Miss, metric));
    assert (p < |b| && b[p].None?) || (p < |c| && c[p].None?);
  }
}
