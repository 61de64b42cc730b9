/**
 The startup comparison: which processes are run in which order, why no observation can be
 missing, and what a met target says about every single measurement.
 */
module StartupComparison {
  import opened Options
  import opened Text
  import opened Sequences
  import opened OrderStatistics

  datatype Variant = Baseline | Candidate

  function Other(v: Variant): Variant { if v == Baseline then Candidate else Baseline }

  datatype Scenario = Scenario(id: Text, activated: bool)

  datatype Entry = Entry(variant: Variant, scenario: Scenario, batch: nat)

  ghost predicate DistinctIds(scenarios: seq<Scenario>) {
    forall i, j | 0 <= i < j < |scenarios| :: scenarios[i].id != scenarios[j].id
  }

  // ----- the schedule -----

  /** Odd batches run the scenarios backwards. */
  function OrderedScenario(scenarios: seq<Scenario>, batch: nat, index: nat): Scenario
    requires index < |scenarios|
  {
    if batch % 2 == 1 then scenarios[|scenarios| - 1 - index] else scenarios[index]
  }

  function FirstAt(batch: nat, index: nat): Variant {
    if (batch + index) % 2 == 1 then Candidate else Baseline
  }

  /** The baseline leads the first pair of the first batch; along a batch and from batch to batch the
      lead changes. */
  lemma LeadChanges(batch: nat, index: nat)
    ensures FirstAt(0, 0) == Baseline
    ensures FirstAt(batch, index + 1) == Other(FirstAt(batch, index)) == FirstAt(batch + 1, index)
  {
  }

  /** Pair `index` of a batch: both variants of one scenario, one right after the other. */
  function PairAt(scenarios: seq<Scenario>, batch: nat, index: nat): seq<Entry>
    requires index < |scenarios|
  {
    var scenario, first := OrderedScenario(scenarios, batch, index), FirstAt(batch, index);
    [Entry(first, scenario, batch), Entry(Other(first), scenario, batch)]
  }

  function BatchSchedule(scenarios: seq<Scenario>, batch: nat, pairs: nat): (s: seq<Entry>)
    requires pairs <= |scenarios|
    ensures |s| == 2 * pairs
  {
    if pairs == 0 then [] else BatchSchedule(scenarios, batch, pairs - 1) + PairAt(scenarios, batch, pairs - 1)
  }

  function ComparisonSchedule(scenarios: seq<Scenario>, batches: nat): (s: seq<Entry>)
    ensures |s| == 2 * |scenarios| * batches
  {
    if batches == 0 then []
    else ComparisonSchedule(scenarios, batches - 1) + BatchSchedule(scenarios, batches - 1, |scenarios|)
  }

  lemma {:induction false} BatchEntries(scenarios: seq<Scenario>, batch: nat, pairs: nat, i: nat)
    requires pairs <= |scenarios| && i < pairs
    ensures BatchSchedule(scenarios, batch, pairs)[2 * i..2 * i + 2] == PairAt(scenarios, batch, i)
  {
    var before := BatchSchedule(scenarios, batch, pairs - 1);
    if i < pairs - 1 {
      BatchEntries(scenarios, batch, pairs - 1, i);
      assert BatchSchedule(scenarios, batch, pairs)[2 * i..2 * i + 2] == before[2 * i..2 * i + 2];
    } else {
      assert BatchSchedule(scenarios, batch, pairs)[2 * i..2 * i + 2] == PairAt(scenarios, batch, i);
    }
  }

  /** Whether a pair's scenario is among the first `pairs` of a batch. */
  ghost predicate InPairs(scenarios: seq<Scenario>, batch: nat, pairs: nat, s: Scenario)
    requires pairs <= |scenarios|
  {
    exists i :: 0 <= i < pairs && OrderedScenario(scenarios, batch, i) == s
  }

  lemma {:induction false} BatchMember(scenarios: seq<Scenario>, batch: nat, pairs: nat, e: Entry)
    requires pairs <= |scenarios|
    ensures e in BatchSchedule(scenarios, batch, pairs) <==> e.batch == batch && InPairs(scenarios, batch, pairs, e.scenario)
  {
    if pairs > 0 {
      BatchMember(scenarios, batch, pairs - 1, e);
      var s := OrderedScenario(scenarios, batch, pairs - 1);
      assert e in PairAt(scenarios, batch, pairs - 1) <==> e.batch == batch && e.scenario == s by {
        var p, first := PairAt(scenarios, batch, pairs - 1), FirstAt(batch, pairs - 1);
        assert p[0] == Entry(first, s, batch) && p[1] == Entry(Other(first), s, batch);
        assert e.variant == first || e.variant == Other(first);
      }
      assert InPairs(scenarios, batch, pairs, e.scenario) <==> InPairs(scenarios, batch, pairs - 1, e.scenario) || e.scenario == s;
    }
  }

  lemma AllScenarios(scenarios: seq<Scenario>, batch: nat, s: Scenario)
    ensures InPairs(scenarios, batch, |scenarios|, s) <==> s in scenarios
  {
    if s in scenarios {
      var j :| 0 <= j < |scenarios| && scenarios[j] == s;
      var i := if batch % 2 == 1 then |scenarios| - 1 - j else j;
      assert OrderedScenario(scenarios, batch, i) == s;
    }
  }

  lemma {:induction false} ScheduleMember(scenarios: seq<Scenario>, batches: nat, e: Entry)
    ensures e in ComparisonSchedule(scenarios, batches) <==> e.batch < batches && e.scenario in scenarios
  {
    if batches > 0 {
      var before, last := ComparisonSchedule(scenarios, batches - 1), BatchSchedule(scenarios, batches - 1, |scenarios|);
      assert e in before + last <==> e in before || e in last;
      ScheduleMember(scenarios, batches - 1, e);
      BatchMember(scenarios, batches - 1, |scenarios|, e);
      AllScenarios(scenarios, batches - 1, e.scenario);
    }
  }

  lemma {:induction false} BatchDistinct(scenarios: seq<Scenario>, batch: nat, pairs: nat)
    requires DistinctIds(scenarios) && pairs <= |scenarios|
    ensures Distinct(BatchSchedule(scenarios, batch, pairs))
  {
    if pairs > 0 {
      BatchDistinct(scenarios, batch, pairs - 1);
      var before, pair := BatchSchedule(scenarios, batch, pairs - 1), PairAt(scenarios, batch, pairs - 1);
      forall i, j | 0 <= i < |before| && 0 <= j < 2 ensures before[i] != pair[j] {
        BatchMember(scenarios, batch, pairs - 1, before[i]);
        var k :| 0 <= k < pairs - 1 && OrderedScenario(scenarios, batch, k) == before[i].scenario;
        assert OrderedScenario(scenarios, batch, k).id != OrderedScenario(scenarios, batch, pairs - 1).id;
      }
    }
  }

  lemma {:induction false} ScheduleDistinct(scenarios: seq<Scenario>, batches: nat)
    requires DistinctIds(scenarios)
    ensures Distinct(ComparisonSchedule(scenarios, batches))
  {
    if batches > 0 {
      ScheduleDistinct(scenarios, batches - 1);
      BatchDistinct(scenarios, batches - 1, |scenarios|);
      var before, last := ComparisonSchedule(scenarios, batches - 1), BatchSchedule(scenarios, batches - 1, |scenarios|);
      forall i, j | 0 <= i < |before| && 0 <= j < |last| ensures before[i] != last[j] {
        ScheduleMember(scenarios, batches - 1, before[i]);
        BatchMember(scenarios, batches - 1, |scenarios|, last[j]);
      }
      DistinctConcat(before, last);
    }
  }

  /** Every (batch, scenario, variant) is scheduled exactly once. */
  lemma ScheduleComplete(scenarios: seq<Scenario>, batches: nat)
    requires DistinctIds(scenarios)
    ensures Distinct(ComparisonSchedule(scenarios, batches))
    ensures forall e :: e in ComparisonSchedule(scenarios, batches) <==> e.batch < batches && e.scenario in scenarios
  {
    ScheduleDistinct(scenarios, batches);
    forall e ensures e in ComparisonSchedule(scenarios, batches) <==> e.batch < batches && e.scenario in scenarios {
      ScheduleMember(scenarios, batches, e);
    }
  }

  // ----- who goes first -----

  /** The variant that runs first for scenario `i` of `n` in a batch. */
  function FirstVariant(n: nat, batch: nat, i: nat): Variant
    requires i < n
  {
    FirstAt(batch, PlaceOf(n, batch, i))
  }

  lemma FirstByParity(n: nat, batch: nat, i: nat)
    requires i < n
    ensures n % 2 == 1 ==> FirstVariant(n, batch, i) == FirstAt(batch, i)
    ensures n % 2 == 0 ==> FirstVariant(n, batch, i) == FirstAt(0, i)
  {
  }

  /** Which variant a schedule runs first for a scenario in a batch. */
  function Leader(schedule: seq<Entry>, batch: nat, s: Scenario): Option<Variant> {
    if schedule == [] then None
    else if schedule[0].batch == batch && schedule[0].scenario == s then Some(schedule[0].variant)
    else Leader(schedule[1..], batch, s)
  }

  lemma {:induction false} LeaderAppend(a: seq<Entry>, b: seq<Entry>, batch: nat, s: Scenario)
    ensures Leader(a + b, batch, s) == if Leader(a, batch, s).Some? then Leader(a, batch, s) else Leader(b, batch, s)
  {
    if a == [] {
      assert a + b == b;
    } else {
      LeaderAppend(a[1..], b, batch, s);
      assert (a + b)[1..] == a[1..] + b;
    }
  }

  lemma {:induction false} NoLeader(schedule: seq<Entry>, batch: nat, s: Scenario)
    requires forall k | 0 <= k < |schedule| :: schedule[k].batch != batch || schedule[k].scenario != s
    ensures Leader(schedule, batch, s).None?
  {
    if schedule != [] {
      NoLeader(schedule[1..], batch, s);
    }
  }

  /** The place of scenario `i` of `n` in a batch. */
  function PlaceOf(n: nat, batch: nat, i: nat): (p: nat)
    requires i < n
    ensures p < n
  {
    if batch % 2 == 1 then n - 1 - i else i
  }

  lemma OtherPlaces(scenarios: seq<Scenario>, batch: nat, i: nat, place: nat)
    requires DistinctIds(scenarios) && i < |scenarios| && place < |scenarios|
    ensures OrderedScenario(scenarios, batch, place) == scenarios[i] <==> place == PlaceOf(|scenarios|, batch, i)
  {
  }

  lemma {:induction false} BatchLeader(scenarios: seq<Scenario>, batch: nat, pairs: nat, i: nat)
    requires DistinctIds(scenarios) && pairs <= |scenarios| && i < |scenarios|
    ensures Leader(BatchSchedule(scenarios, batch, pairs), batch, scenarios[i])
            == if PlaceOf(|scenarios|, batch, i) < pairs then Some(FirstVariant(|scenarios|, batch, i)) else None
  {
    if pairs > 0 {
      BatchLeader(scenarios, batch, pairs - 1, i);
      var before, pair := BatchSchedule(scenarios, batch, pairs - 1), PairAt(scenarios, batch, pairs - 1);
      LeaderAppend(before, pair, batch, scenarios[i]);
      OtherPlaces(scenarios, batch, i, pairs - 1);
      if PlaceOf(|scenarios|, batch, i) != pairs - 1 {
        NoLeader(pair, batch, scenarios[i]);
      }
    }
  }

  /** Each scenario is led, in each batch of the schedule, by the variant that parity gives. */
  lemma {:induction false} ScheduleLeader(scenarios: seq<Scenario>, batches: nat, batch: nat, i: nat)
    requires DistinctIds(scenarios) && i < |scenarios| && batch < batches
    ensures Leader(ComparisonSchedule(scenarios, batches), batch, scenarios[i]) == Some(FirstVariant(|scenarios|, batch, i))
  {
    var last := BatchSchedule(scenarios, batches - 1, |scenarios|);
    var before := ComparisonSchedule(scenarios, batches - 1);
    LeaderAppend(before, last, batch, scenarios[i]);
    if batch < batches - 1 {
      ScheduleLeader(scenarios, batches - 1, batch, i);
    } else {
      BatchLeader(scenarios, batch, |scenarios|, i);
      forall k | 0 <= k < |before| ensures before[k].batch != batch {
        ScheduleMember(scenarios, batches - 1, before[k]);
      }
      NoLeader(before, batch, scenarios[i]);
    }
  }

  lemma FirstAtFlips(batch: nat, i: nat)
    ensures FirstAt(batch + 1, i) == Other(FirstAt(batch, i))
  {
  }

  lemma VariantFlips(n: nat, batch: nat, i: nat)
    requires i < n
    ensures FirstVariant(n, batch + 1, i) == Other(FirstVariant(n, batch, i)) <==> n % 2 == 1
  {
    FirstByParity(n, batch, i);
    FirstByParity(n, batch + 1, i);
    FirstAtFlips(batch, i);
  }

  /** In a schedule of so many batches, the leader of scenario `i` changes after batch `batch`. */
  ghost predicate Alternates(scenarios: seq<Scenario>, batches: nat, batch: nat, i: nat)
    requires i < |scenarios|
  {
    var schedule := ComparisonSchedule(scenarios, batches);
    && Leader(schedule, batch, scenarios[i]).Some? && Leader(schedule, batch + 1, scenarios[i]).Some?
    && Leader(schedule, batch + 1, scenarios[i]).value == Other(Leader(schedule, batch, scenarios[i]).value)
  }

  lemma AlternatesOdd(scenarios: seq<Scenario>, batches: nat, batch: nat, i: nat)
    requires DistinctIds(scenarios) && i < |scenarios| && batch + 1 < batches
    ensures Alternates(scenarios, batches, batch, i) <==> |scenarios| % 2 == 1
  {
    ScheduleLeader(scenarios, batches, batch, i);
    ScheduleLeader(scenarios, batches, batch + 1, i);
    VariantFlips(|scenarios|, batch, i);
  }

  /** In every schedule, and after every batch of it, a scenario's first variant changes if the number
      of scenarios is odd; if it is even, it never does. */
  lemma AlternatesIffOdd(scenarios: seq<Scenario>, i: nat)
    requires DistinctIds(scenarios) && i < |scenarios|
    ensures |scenarios| % 2 == 1
            <==> forall batches: nat, batch: nat | batch + 1 < batches :: Alternates(scenarios, batches, batch, i)
    ensures |scenarios| % 2 == 0
            <==> forall batches: nat, batch: nat | batch + 1 < batches :: !Alternates(scenarios, batches, batch, i)
  {
    forall batches: nat, batch: nat | batch + 1 < batches
      ensures Alternates(scenarios, batches, batch, i) <==> |scenarios| % 2 == 1
    {
      AlternatesOdd(scenarios, batches, batch, i);
    }
    assert 0 + 1 < 2 && (Alternates(scenarios, 2, 0, i) <==> |scenarios| % 2 == 1);
  }

  function FirstCount(n: nat, batches: nat, i: nat, v: Variant): (c: nat)
    requires i < n
  {
    if batches == 0 then 0
    else FirstCount(n, batches - 1, i, v) + if FirstVariant(n, batches - 1, i) == v then 1 else 0
  }

  lemma {:induction false} FirstCountsOdd(n: nat, batches: nat, i: nat)
    requires i < n && n % 2 == 1
    ensures FirstCount(n, batches, i, FirstAt(0, i)) == (batches + 1) / 2
    ensures FirstCount(n, batches, i, Other(FirstAt(0, i))) == batches / 2
  {
    if batches > 0 {
      FirstCountsOdd(n, batches - 1, i);
      FirstByParity(n, batches - 1, i);
      assert FirstAt(batches - 1, i) == if (batches - 1) % 2 == 0 then FirstAt(0, i) else Other(FirstAt(0, i));
    }
  }

  lemma {:induction false} FirstCountsEven(n: nat, batches: nat, i: nat)
    requires i < n && n % 2 == 0
    ensures FirstCount(n, batches, i, FirstAt(0, i)) == batches && FirstCount(n, batches, i, Other(FirstAt(0, i))) == 0
  {
    if batches > 0 {
      FirstCountsEven(n, batches - 1, i);
      FirstByParity(n, batches - 1, i);
    }
  }

  /** How many batches of a schedule a variant leads for a scenario. */
  function FirstPlaces(schedule: seq<Entry>, batches: nat, s: Scenario, v: Variant): nat {
    if batches == 0 then 0
    else FirstPlaces(schedule, batches - 1, s, v) + if Leader(schedule, batches - 1, s) == Some(v) then 1 else 0
  }

  lemma {:induction false} FirstPlacesCounted(scenarios: seq<Scenario>, all: nat, batches: nat, i: nat, v: Variant)
    requires DistinctIds(scenarios) && i < |scenarios| && batches <= all
    ensures FirstPlaces(ComparisonSchedule(scenarios, all), batches, scenarios[i], v) == FirstCount(|scenarios|, batches, i, v)
  {
    if batches > 0 {
      FirstPlacesCounted(scenarios, all, batches - 1, i, v);
      ScheduleLeader(scenarios, all, batches - 1, i);
    }
  }

  /** Over the two or more batches of a schedule first places are shared evenly, up to one, exactly for
      an odd number of scenarios; for an even number one variant leads every batch. */
  lemma FirstPlacesBalanced(scenarios: seq<Scenario>, batches: nat, i: nat)
    requires DistinctIds(scenarios) && i < |scenarios| && batches >= 2
    ensures var schedule := ComparisonSchedule(scenarios, batches);
            var b, c := FirstPlaces(schedule, batches, scenarios[i], Baseline), FirstPlaces(schedule, batches, scenarios[i], Candidate);
            && b + c == batches
            && (|scenarios| % 2 == 1 <==> -1 <= b - c <= 1)
            && (|scenarios| % 2 == 0 <==> b == batches || c == batches)
  {
    var n := |scenarios|;
    FirstPlacesCounted(scenarios, batches, batches, i, Baseline);
    FirstPlacesCounted(scenarios, batches, batches, i, Candidate);
    if n % 2 == 1 {
      FirstCountsOdd(n, batches, i);
    } else {
      FirstCountsEven(n, batches, i);
    }
  }

  // ----- the observations of a cohort -----

  datatype Session = Session(definitionHash: Text, modelVersion: int, durations: seq<real>, eventCounts: seq<nat>)

  datatype Observation = Observation(entry: Entry, result: Session)

  datatype Limits = Limits(scenarios: seq<Scenario>, batches: nat, runs: nat)

  predicate SessionValid(result: Session, runs: nat) {
    && |result.durations| == |result.eventCounts| == runs
    && (forall i | 0 <= i < runs :: result.durations[i] > 0.0)
    && forall i | 0 <= i < runs :: result.eventCounts[i] > 0
  }

  predicate ValidObservation(l: Limits, row: Observation) {
    row.entry.scenario in l.scenarios && row.entry.batch < l.batches && SessionValid(row.result, l.runs)
  }

  function VariantText(v: Variant): Text {
    if v == Baseline then Ascii("baseline") else Ascii("candidate")
  }

  function Key(e: Entry): Text {
    NatText(e.batch) + [SLASH] + (e.scenario.id + [SLASH] + VariantText(e.variant))
  }

  /** The key as the comparison writes it. */
  lemma KeyText(e: Entry)
    ensures Key(e) == NatText(e.batch) + Ascii("/") + e.scenario.id
                      + if e.variant == Baseline then Ascii("/baseline") else Ascii("/candidate")
  {
    assert Ascii("/") == [SLASH] && Ascii("/baseline") == [SLASH] + Ascii("baseline");
    assert Ascii("/candidate") == [SLASH] + Ascii("candidate");
    Assoc(NatText(e.batch) + [SLASH], e.scenario.id, [SLASH] + VariantText(e.variant));
    Assoc(e.scenario.id, [SLASH], VariantText(e.variant));
  }

  /** A key names one batch, one scenario identifier and one variant, whatever the identifier holds. */
  lemma KeyInjective(a: Entry, b: Entry)
    requires Key(a) == Key(b)
    ensures a.batch == b.batch && a.scenario.id == b.scenario.id && a.variant == b.variant
  {
    var x, y := a.scenario.id + [SLASH] + VariantText(a.variant), b.scenario.id + [SLASH] + VariantText(b.variant);
    CutUnique(NatText(a.batch), x, NatText(b.batch), y, SLASH);
    NatTextInjective(a.batch, b.batch);
    assert x[|x| - 2] == VariantText(a.variant)[|VariantText(a.variant)| - 2];
    assert y[|y| - 2] == VariantText(b.variant)[|VariantText(b.variant)| - 2];
    assert a.scenario.id == x[..|a.scenario.id|] && b.scenario.id == y[..|b.scenario.id|];
  }

  /** An accepted session has the required number of runs, every one of which took time and left facts. */
  lemma ValidSessions(l: Limits, rows: seq<Observation>, i: nat)
    requires Complete(l, rows) && i < |rows|
    ensures var r := rows[i].result;
            && |r.durations| == l.runs && (forall d | d in r.durations :: d > 0.0)
            && |r.eventCounts| == l.runs && (forall n | n in r.eventCounts :: n > 0)
  {
    assert ValidObservation(l, rows[i]);
    SessionMeans(rows[i].result, l.runs);
  }

  lemma SessionMeans(r: Session, runs: nat)
    ensures SessionValid(r, runs) <==>
              && |r.durations| == runs && (forall d | d in r.durations :: d > 0.0)
              && |r.eventCounts| == runs && (forall n | n in r.eventCounts :: n > 0)
  {
    if |r.durations| == |r.eventCounts| == runs {
      assert forall i | 0 <= i < runs :: r.durations[i] in r.durations && r.eventCounts[i] in r.eventCounts;
    }
  }

  ghost predicate DistinctKeys(rows: seq<Observation>) {
    forall i, j | 0 <= i < j < |rows| :: Key(rows[i].entry) != Key(rows[j].entry)
  }

  /** What the comparison asks of a cohort before it reads any of it. */
  ghost predicate Complete(l: Limits, rows: seq<Observation>) {
    && |rows| == |ComparisonSchedule(l.scenarios, l.batches)|
    && DistinctKeys(rows)
    && forall i | 0 <= i < |rows| :: ValidObservation(l, rows[i])
  }

  function Entries(rows: seq<Observation>): (r: seq<Entry>)
    ensures |r| == |rows| && forall i | 0 <= i < |rows| :: r[i] == rows[i].entry
  {
    Map(rows, (row: Observation) => row.entry)
  }

  lemma SameId(scenarios: seq<Scenario>, a: Scenario, b: Scenario)
    requires DistinctIds(scenarios) && a in scenarios && b in scenarios && a.id == b.id
    ensures a == b
  {
  }

  /** Passing the three checks is being the schedule itself, in some order, with valid results. */
  lemma CompleteIsSchedule(l: Limits, rows: seq<Observation>)
    requires DistinctIds(l.scenarios)
    ensures Complete(l, rows)
            <==> multiset(Entries(rows)) == multiset(ComparisonSchedule(l.scenarios, l.batches))
                 && forall i | 0 <= i < |rows| :: SessionValid(rows[i].result, l.runs)
  {
    var entries, schedule := Entries(rows), ComparisonSchedule(l.scenarios, l.batches);
    ScheduleComplete(l.scenarios, l.batches);
    if Complete(l, rows) {
      assert forall i | 0 <= i < |entries| :: entries[i] in schedule;
      SameElements(entries, schedule);
    }
    if multiset(entries) == multiset(schedule) && forall i | 0 <= i < |rows| :: SessionValid(rows[i].result, l.runs) {
      ScheduleOrderComplete(l, rows);
    }
  }

  lemma ScheduleOrderComplete(l: Limits, rows: seq<Observation>)
    requires DistinctIds(l.scenarios)
    requires multiset(Entries(rows)) == multiset(ComparisonSchedule(l.scenarios, l.batches))
    requires forall i | 0 <= i < |rows| :: SessionValid(rows[i].result, l.runs)
    ensures Complete(l, rows)
  {
    var entries, schedule := Entries(rows), ComparisonSchedule(l.scenarios, l.batches);
    ScheduleComplete(l.scenarios, l.batches);
    assert |entries| == |multiset(entries)| == |multiset(schedule)| == |schedule|;
    DistinctOfPermutation(schedule, entries);
    forall i | 0 <= i < |rows| ensures ValidObservation(l, rows[i]) {
      assert entries[i] in multiset(entries);
      assert entries[i] in schedule;
    }
    forall i, j | 0 <= i < j < |rows| ensures Key(rows[i].entry) != Key(rows[j].entry) {
      assert entries[i] != entries[j];
      if Key(rows[i].entry) == Key(rows[j].entry) {
        KeyInjective(rows[i].entry, rows[j].entry);
        assert ValidObservation(l, rows[i]) && ValidObservation(l, rows[j]);
        SameId(l.scenarios, rows[i].entry.scenario, rows[j].entry.scenario);
      }
    }
  }

  predicate Matches(row: Observation, e: Entry) {
    row.entry.variant == e.variant && row.entry.batch == e.batch && row.entry.scenario.id == e.scenario.id
  }

  /** In a complete cohort the search for one scheduled process finds it, and there is no other. */
  method FindObservation(l: Limits, rows: seq<Observation>, e: Entry) returns (k: nat)
    requires DistinctIds(l.scenarios) && Complete(l, rows)
    requires e.batch < l.batches && e.scenario in l.scenarios
    ensures k < |rows| && rows[k].entry == e
    ensures forall i | 0 <= i < |rows| :: Matches(rows[i], e) <==> i == k
  {
    ghost var at := Placed(l, rows, e);
    k := 0;
    while !Matches(rows[k], e)
      invariant k <= at
      decreases at - k
    {
      k := k + 1;
    }
  }

  lemma Placed(l: Limits, rows: seq<Observation>, e: Entry) returns (k: nat)
    requires DistinctIds(l.scenarios) && Complete(l, rows)
    requires e.batch < l.batches && e.scenario in l.scenarios
    ensures k < |rows| && rows[k].entry == e
    ensures forall i | 0 <= i < |rows| :: Matches(rows[i], e) <==> i == k
  {
    var entries := Entries(rows);
    CompleteIsSchedule(l, rows);
    ScheduleComplete(l.scenarios, l.batches);
    assert e in ComparisonSchedule(l.scenarios, l.batches);
    assert e in multiset(entries);
    k :| 0 <= k < |entries| && entries[k] == e;
    forall i | 0 <= i < |rows| && i != k ensures !Matches(rows[i], e) {
      assert Key(rows[i].entry) != Key(rows[k].entry);
    }
  }

  // ----- the target decision -----

  /** Median of the requests after the first. */
  function LaterMs(result: Session): (m: real)
    requires |result.durations| >= 2
  {
    Median(result.durations[1..])
  }

  datatype Status = Inconclusive | Met | NotMet

  function IncreasePercent(baseline: real, candidate: real): real
    requires baseline != 0.0
  {
    (candidate / baseline - 1.0) * 100.0
  }

  predicate Overlap(baseline: Summary, candidate: Summary) {
    baseline.minimumMs <= candidate.maximumMs && candidate.minimumMs <= baseline.maximumMs
  }

  ghost predicate Positive(s: seq<real>) {
    s != [] && forall i | 0 <= i < |s| :: s[i] > 0.0
  }

  function TargetStatus(baseline: seq<real>, candidate: seq<real>): Status
    requires Positive(baseline) && Positive(candidate)
  {
    MedianPositive(baseline);
    var b, c := Summarize(baseline), Summarize(candidate);
    if Overlap(b, c) then Inconclusive
    else if -IncreasePercent(b.medianMs, c.medianMs) >= 10.0 then Met
    else NotMet
  }

  ghost predicate AllBelow(a: seq<real>, b: seq<real>) {
    forall i, j | 0 <= i < |a| && 0 <= j < |b| :: a[i] < b[j]
  }

  lemma TenPercent(baseline: real, candidate: real)
    requires baseline > 0.0
    ensures -IncreasePercent(baseline, candidate) >= 10.0 <==> candidate <= 0.9 * baseline
  {
    var ratio := candidate / baseline;
    assert ratio * baseline == candidate;
    if ratio <= 0.9 {
      ScaleLeq(baseline, ratio, 0.9);
    } else {
      ScaleLeq(baseline, 0.9, ratio);
      assert (ratio - 0.9) * baseline > 0.0;
    }
  }

  /** Ranges that do not overlap are apart, in one direction or the other. */
  lemma Apart(a: seq<real>, b: seq<real>)
    requires Summarizable(a) && Summarizable(b)
    ensures Summarize(a).maximumMs < Summarize(b).minimumMs <==> AllBelow(a, b)
  {
    SummaryBounds(a);
    SummaryBounds(b);
    var i :| 0 <= i < |a| && a[i] == Summarize(a).maximumMs;
    var j :| 0 <= j < |b| && b[j] == Summarize(b).minimumMs;
  }

  /** The target is met exactly when every candidate value lies below every baseline value and the
      candidate median is at least a tenth lower. */
  lemma MetIff(baseline: seq<real>, candidate: seq<real>)
    requires Positive(baseline) && Positive(candidate)
    ensures TargetStatus(baseline, candidate) == Met
            <==> AllBelow(candidate, baseline) && Median(candidate) <= 0.9 * Median(baseline)
    ensures TargetStatus(baseline, candidate) == Inconclusive
            <==> !AllBelow(candidate, baseline) && !AllBelow(baseline, candidate)
  {
    MedianPositive(baseline);
    SummaryBounds(baseline);
    SummaryBounds(candidate);
    Apart(candidate, baseline);
    Apart(baseline, candidate);
    TenPercent(Median(baseline), Median(candidate));
  }

  /** Each process of the scenario and variant has its value at its batch. */
  ghost predicate ValuesOf(rows: seq<Observation>, s: Scenario, v: Variant, values: seq<real>) {
    forall i | 0 <= i < |rows| && rows[i].entry.scenario == s && rows[i].entry.variant == v ::
      rows[i].entry.batch < |values| && |rows[i].result.durations| >= 2
      && values[rows[i].entry.batch] == LaterMs(rows[i].result)
  }

  /** The values that the target compares: one per batch, from the process the search finds. */
  method LaterValues(l: Limits, rows: seq<Observation>, s: Scenario, v: Variant) returns (values: seq<real>)
    requires DistinctIds(l.scenarios) && Complete(l, rows) && l.runs >= 2 && s in l.scenarios
    ensures |values| == l.batches && ValuesOf(rows, s, v, values)
    ensures forall b | 0 <= b < l.batches :: values[b] > 0.0
  {
    values := [];
    for batch := 0 to l.batches
      invariant |values| == batch
      invariant forall b | 0 <= b < batch :: values[b] > 0.0
      invariant forall i | 0 <= i < |rows| && rows[i].entry.scenario == s && rows[i].entry.variant == v
                           && rows[i].entry.batch < batch ::
                  |rows[i].result.durations| >= 2 && values[rows[i].entry.batch] == LaterMs(rows[i].result)
    {
      var k := FindObservation(l, rows, Entry(v, s, batch));
      assert ValidObservation(l, rows[k]);
      MedianPositive(rows[k].result.durations[1..]);
      values := values + [LaterMs(rows[k].result)];
    }
    forall i | 0 <= i < |rows| && rows[i].entry.scenario == s && rows[i].entry.variant == v
      ensures rows[i].entry.batch < l.batches
    {
      assert ValidObservation(l, rows[i]);
    }
  }

  predicate SameIdentity(a: Session, b: Session) {
    a.definitionHash == b.definitionHash && a.modelVersion == b.modelVersion && a.eventCounts == b.eventCounts
  }

  /** Both processes of one batch ran the same definition and left as many facts behind. */
  predicate Undrifted(a: Observation, b: Observation) {
    a.entry.scenario == b.entry.scenario && a.entry.batch == b.entry.batch ==> SameIdentity(a.result, b.result)
  }

  ghost predicate UndriftedTo(l: Limits, rows: seq<Observation>, s: Scenario, batches: nat) {
    forall i, j | 0 <= i < |rows| && 0 <= j < |rows| && rows[i].entry.scenario == s && rows[i].entry.batch < batches ::
      Undrifted(rows[i], rows[j])
  }

  /** The pair of one batch is all that has to be compared for it. */
  lemma PairDecides(l: Limits, rows: seq<Observation>, s: Scenario, batch: nat, b: nat, c: nat)
    requires DistinctIds(l.scenarios) && Complete(l, rows) && s in l.scenarios && batch < l.batches
    requires b < |rows| && c < |rows|
    requires rows[b].entry == Entry(Baseline, s, batch) && rows[c].entry == Entry(Candidate, s, batch)
    ensures SameIdentity(rows[c].result, rows[b].result) && UndriftedTo(l, rows, s, batch)
            <==> UndriftedTo(l, rows, s, batch + 1)
  {
    if UndriftedTo(l, rows, s, batch + 1) {
      assert Undrifted(rows[c], rows[b]);
    }
    var kb := Placed(l, rows, Entry(Baseline, s, batch));
    var kc := Placed(l, rows, Entry(Candidate, s, batch));
    if SameIdentity(rows[c].result, rows[b].result) && UndriftedTo(l, rows, s, batch) {
      forall i, j | 0 <= i < |rows| && 0 <= j < |rows| && rows[i].entry.scenario == s && rows[i].entry.batch < batch + 1
        ensures Undrifted(rows[i], rows[j])
      {
        if rows[i].entry.batch == rows[j].entry.batch == batch && rows[j].entry.scenario == s {
          assert Matches(rows[i], Entry(rows[i].entry.variant, s, batch));
          assert Matches(rows[j], Entry(rows[j].entry.variant, s, batch));
        }
      }
    }
  }

  /** A scenario passes the drift checks exactly when no two of its processes of one batch differ in
      definition, model version or fact counts. */
  method CheckDrift(l: Limits, rows: seq<Observation>, s: Scenario) returns (ok: bool)
    requires DistinctIds(l.scenarios) && Complete(l, rows) && s in l.scenarios
    ensures ok <==> forall i, j | 0 <= i < |rows| && 0 <= j < |rows| && rows[i].entry.scenario == s :: Undrifted(rows[i], rows[j])
  {
    ok := true;
    for batch := 0 to l.batches
      invariant ok <==> UndriftedTo(l, rows, s, batch)
    {
      var b := FindObservation(l, rows, Entry(Baseline, s, batch));
      var c := FindObservation(l, rows, Entry(Candidate, s, batch));
      PairDecides(l, rows, s, batch, b, c);
      ok := ok && SameIdentity(rows[c].result, rows[b].result);
    }
    forall i | 0 <= i < |rows| ensures rows[i].entry.batch < l.batches {
      assert ValidObservation(l, rows[i]);
    }
  }

  /** On a complete cohort the target is decided, and met means that no candidate process of the
      target scenario was as slow as any baseline process. */
  method CompareTarget(l: Limits, rows: seq<Observation>, s: Scenario)
    returns (status: Status, baseline: seq<real>, candidate: seq<real>)
    requires DistinctIds(l.scenarios) && Complete(l, rows) && l.runs >= 2 && l.batches > 0 && s in l.scenarios
    ensures |baseline| == |candidate| == l.batches
    ensures ValuesOf(rows, s, Baseline, baseline) && ValuesOf(rows, s, Candidate, candidate)
    ensures status == Met <==> AllBelow(candidate, baseline) && Median(candidate) <= 0.9 * Median(baseline)
    ensures status == Inconclusive <==> !AllBelow(candidate, baseline) && !AllBelow(baseline, candidate)
    ensures status == Met ==> forall i, j | 0 <= i < |rows| && 0 <= j < |rows|
              && rows[i].entry.scenario == s && rows[j].entry.scenario == s
              && rows[i].entry.variant == Candidate && rows[j].entry.variant == Baseline ::
              |rows[i].result.durations| >= 2 && |rows[j].result.durations| >= 2
              && LaterMs(rows[i].result) < LaterMs(rows[j].result)
  {
    baseline := LaterValues(l, rows, s, Baseline);
    candidate := LaterValues(l, rows, s, Candidate);
    status := TargetStatus(baseline, candidate);
    MetIff(baseline, candidate);
  }
}
