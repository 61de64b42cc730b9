/**
 One cohort of the invocation measurement: the requests it issues, the row it reports, and the
 independently written validator of such rows.
 */
module InvocationCapture {
  import opened Text
  import opened Sequences
  import opened HostCorrelation

  datatype Mode = Timing | Trace | Smoke

  /** The counts the contract and the fixture fix; `digests` are those of the modules to register. */
  datatype Spec = Spec(
    cohort: Text, count: nat, concurrency: nat, digests: seq<Text>,
    warmupBatches: nat, measuredBatches: nat, controlCount: nat)

  function SampleCount(spec: Spec, mode: Mode): nat {
    if mode == Timing then spec.warmupBatches + spec.measuredBatches else 1
  }

  /** Invocations per batch, as the measuring process computes them. */
  function ProducerCount(spec: Spec, mode: Mode): nat {
    match mode
    case Smoke => if spec.count < 4 then spec.count else 4
    case Trace => spec.controlCount
    case Timing => spec.count
  }

  /** Invocations per batch, as the validator expects them. */
  function ValidatorCount(spec: Spec, mode: Mode): nat {
    match mode
    case Timing => spec.count
    case Smoke => 4
    case Trace => spec.controlCount
  }

  // ----- the requests -----

  const FIRST: Text := Ascii("first")

  function SampleBatch(sample: nat): Text {
    Ascii("sample") + NatText(sample)
  }

  function Range(batch: Text, index: nat, end: nat): (rs: seq<Request>)
    decreases end - index
  {
    if index >= end then [] else [Invoke(batch, index)] + Range(batch, index + 1, end)
  }

  function Min(a: nat, b: nat): nat { if a < b then a else b }

  /** One batch: windows of at most `concurrency` invocations. */
  function BatchWindows(batch: Text, index: nat, count: nat, concurrency: nat): seq<seq<Request>>
    requires concurrency > 0
    decreases count - index
  {
    if index >= count then []
    else
      [Range(batch, index, Min(index + concurrency, count))]
      + BatchWindows(batch, index + concurrency, count, concurrency)
  }

  function SampleWindows(samples: nat, count: nat, concurrency: nat): seq<seq<Request>>
    requires concurrency > 0
  {
    if samples == 0 then []
    else SampleWindows(samples - 1, count, concurrency) + BatchWindows(SampleBatch(samples - 1), 0, count, concurrency)
  }

  function Registrations(digests: seq<Text>): seq<seq<Request>> {
    Map(digests, (d: Text) => [Register(d)])
  }

  /** Registrations one at a time, one first invocation, then the batches. */
  function CohortPlan(spec: Spec, samples: nat, count: nat): Plan
    requires spec.concurrency > 0
  {
    Plan(spec.cohort, spec.concurrency,
         Registrations(spec.digests) + [[Invoke(FIRST, 0)]] + SampleWindows(samples, count, spec.concurrency))
  }

  /** The same requests without the windows. */
  function SampleRequests(samples: nat, count: nat): seq<Request> {
    if samples == 0 then [] else SampleRequests(samples - 1, count) + Range(SampleBatch(samples - 1), 0, count)
  }

  lemma {:induction false} RangeSplit(batch: Text, a: nat, b: nat, c: nat)
    requires a <= b <= c
    ensures Range(batch, a, c) == Range(batch, a, b) + Range(batch, b, c)
    decreases b - a
  {
    if a < b {
      RangeSplit(batch, a + 1, b, c);
    }
  }

  lemma {:induction false} RangeShape(batch: Text, a: nat, b: nat)
    requires a <= b
    ensures |Range(batch, a, b)| == b - a
    ensures forall i | 0 <= i < b - a :: Range(batch, a, b)[i] == Invoke(batch, a + i)
    decreases b - a
  {
    if a < b {
      RangeShape(batch, a + 1, b);
    }
  }

  lemma {:induction false} BatchRequests(batch: Text, index: nat, count: nat, concurrency: nat)
    requires concurrency > 0
    ensures Flatten(BatchWindows(batch, index, count, concurrency)) == Range(batch, index, count)
    ensures forall w | w in BatchWindows(batch, index, count, concurrency) :: 0 < |w| <= concurrency
    decreases count - index
  {
    if index < count {
      var end := Min(index + concurrency, count);
      var first, rest := Range(batch, index, end), BatchWindows(batch, index + concurrency, count, concurrency);
      BatchRequests(batch, index + concurrency, count, concurrency);
      RangeShape(batch, index, end);
      RangeSplit(batch, index, end, count);
      assert Range(batch, index + concurrency, count) == Range(batch, end, count);
      assert BatchWindows(batch, index, count, concurrency) == [first] + rest;
      FlattenHead(first, rest);
    }
  }

  lemma {:induction false} SamplesFlatten(samples: nat, count: nat, concurrency: nat)
    requires concurrency > 0
    ensures Flatten(SampleWindows(samples, count, concurrency)) == SampleRequests(samples, count)
    ensures forall w | w in SampleWindows(samples, count, concurrency) :: 0 < |w| <= concurrency
  {
    if samples > 0 {
      SamplesFlatten(samples - 1, count, concurrency);
      BatchRequests(SampleBatch(samples - 1), 0, count, concurrency);
      AppendWindows(SampleWindows(samples - 1, count, concurrency),
                    BatchWindows(SampleBatch(samples - 1), 0, count, concurrency), concurrency);
    }
  }

  lemma AppendWindows(a: seq<seq<Request>>, b: seq<seq<Request>>, concurrency: nat)
    requires (forall w | w in a :: 0 < |w| <= concurrency) && forall w | w in b :: 0 < |w| <= concurrency
    ensures Flatten(a + b) == Flatten(a) + Flatten(b)
    ensures forall w | w in a + b :: 0 < |w| <= concurrency
  {
    FlattenAppend(a, b);
  }

  lemma {:induction false} RegistrationsFlatten(digests: seq<Text>)
    ensures Flatten(Registrations(digests)) == Map(digests, (d: Text) => Register(d))
    ensures InvokesOf(Flatten(Registrations(digests))) == [] && Invocations(Flatten(Registrations(digests))) == 0
  {
    if digests != [] {
      RegistrationsFlatten(digests[1..]);
      assert Registrations(digests)[1..] == Registrations(digests[1..]);
      var all := Map(digests, (d: Text) => Register(d));
      assert all == [Register(digests[0])] + Map(digests[1..], (d: Text) => Register(d));
      assert all[1..] == Map(digests[1..], (d: Text) => Register(d));
    }
  }

  lemma {:induction false} InvokesAppend(a: seq<Request>, b: seq<Request>)
    ensures InvokesOf(a + b) == InvokesOf(a) + InvokesOf(b)
    ensures Invocations(a + b) == Invocations(a) + Invocations(b)
  {
    if a == [] {
      assert a + b == b;
    } else {
      InvokesAppend(a[1..], b);
      assert (a + b)[1..] == a[1..] + b;
      Assoc(if a[0].Invoke? then [a[0]] else [], InvokesOf(a[1..]), InvokesOf(b));
    }
  }

  lemma {:induction false} InvokesOnly(rs: seq<Request>)
    requires forall i | 0 <= i < |rs| :: rs[i].Invoke?
    ensures InvokesOf(rs) == rs && Invocations(rs) == |rs|
  {
    if rs != [] {
      InvokesOnly(rs[1..]);
      assert rs == [rs[0]] + rs[1..];
    }
  }

  ghost predicate FromSample(r: Request, samples: nat, count: nat) {
    r.Invoke? && r.index < count && exists s: nat :: s < samples && r.batch == SampleBatch(s)
  }

  lemma {:induction false} SampleLength(samples: nat, count: nat)
    ensures |SampleRequests(samples, count)| == samples * count
  {
    if samples > 0 {
      SampleLength(samples - 1, count);
      RangeShape(SampleBatch(samples - 1), 0, count);
      assert samples * count == (samples - 1) * count + count;
    }
  }

  lemma {:induction false} SampleShape(samples: nat, count: nat)
    ensures |SampleRequests(samples, count)| == samples * count
    ensures forall r | r in SampleRequests(samples, count) :: FromSample(r, samples, count)
  {
    SampleLength(samples, count);
    if samples > 0 {
      SampleShape(samples - 1, count);
      var before, last := SampleRequests(samples - 1, count), Range(SampleBatch(samples - 1), 0, count);
      RangeShape(SampleBatch(samples - 1), 0, count);
      forall r | r in SampleRequests(samples, count) ensures FromSample(r, samples, count) {
        if r in before {
          var s: nat :| s < samples - 1 && r.batch == SampleBatch(s);
          assert s < samples;
        } else {
          var i :| 0 <= i < |last| && last[i] == r;
        }
      }
    }
  }

  function ExpectedRequests(samples: nat, count: nat): seq<Request> {
    [Invoke(FIRST, 0)] + SampleRequests(samples, count)
  }

  function PlanRequests(spec: Spec, samples: nat, count: nat): seq<Request> {
    Map(spec.digests, (d: Text) => Register(d)) + ExpectedRequests(samples, count)
  }

  /** Windows aside, a cohort issues its registrations, one first invocation and all (sample, index). */
  lemma PlanFlattens(spec: Spec, samples: nat, count: nat)
    requires spec.concurrency > 0
    ensures AllRequests(CohortPlan(spec, samples, count)) == PlanRequests(spec, samples, count)
    ensures InvokesOf(AllRequests(CohortPlan(spec, samples, count))) == ExpectedRequests(samples, count)
    ensures Invocations(AllRequests(CohortPlan(spec, samples, count))) == 1 + samples * count
  {
    var a, b, c := Registrations(spec.digests), [[Invoke(FIRST, 0)]], SampleWindows(samples, count, spec.concurrency);
    FlattenAppend(a + b, c);
    FlattenLast(a, [Invoke(FIRST, 0)]);
    RegistrationsFlatten(spec.digests);
    SamplesFlatten(samples, count, spec.concurrency);
    SampleShape(samples, count);
    Assoc(Flatten(a), [Invoke(FIRST, 0)], SampleRequests(samples, count));
    InvokesAppend(Flatten(a), ExpectedRequests(samples, count));
    ExpectedInvokes(samples, count);
  }

  lemma ExpectedInvokes(samples: nat, count: nat)
    ensures InvokesOf(ExpectedRequests(samples, count)) == ExpectedRequests(samples, count)
    ensures Invocations(ExpectedRequests(samples, count)) == 1 + samples * count
  {
    SampleShape(samples, count);
    var rs := ExpectedRequests(samples, count);
    forall i | 0 <= i < |rs| ensures rs[i].Invoke? {
      assert i > 0 ==> rs[i] in SampleRequests(samples, count);
    }
    InvokesOnly(rs);
  }

  // ----- the id scheme is injective -----

  /** Module digests look like digests; batch names hold no underscore. */
  ghost predicate Named(r: Request) {
    match r
    case Register(digest) => Ascii("sha256:") <= digest
    case Invoke(batch, _) => UNDERSCORE !in batch
  }

  lemma DigitsNotUnderscore(n: nat)
    ensures UNDERSCORE !in NatText(n)
  {
    assert AllDigits(NatText(n));
  }

  lemma KeyInjective(cohort: Text, r: Request, q: Request)
    requires Named(r) && Named(q) && KeyOf(cohort, r) == KeyOf(cohort, q)
    ensures r == q
  {
    var prefix := Ascii("inv_isr_") + cohort + [UNDERSCORE];
    if r.Invoke? && q.Invoke? {
      InvokeKey(cohort, r, prefix);
      InvokeKey(cohort, q, prefix);
      assert (prefix + BatchIndex(r.batch, r.index))[|prefix|..] == BatchIndex(r.batch, r.index);
      assert (prefix + BatchIndex(q.batch, q.index))[|prefix|..] == BatchIndex(q.batch, q.index);
      CutUnique(r.batch, NatText(r.index), q.batch, NatText(q.index), UNDERSCORE);
      NatTextInjective(r.index, q.index);
    } else if r.Register? != q.Register? {
      KeyStarts(cohort, r);
      KeyStarts(cohort, q);
    }
  }

  lemma InvokeKey(cohort: Text, r: Request, prefix: Text)
    requires r.Invoke? && prefix == Ascii("inv_isr_") + cohort + [UNDERSCORE]
    ensures KeyOf(cohort, r) == prefix + BatchIndex(r.batch, r.index)
  {
  }

  lemma KeyStarts(cohort: Text, r: Request)
    requires Named(r)
    ensures KeyOf(cohort, r) != [] && KeyOf(cohort, r)[0] == if r.Register? then 115 else 105
  {
    assert Ascii("sha256:")[0] == 115 && Ascii("inv_isr_")[0] == 105;
    if r.Register? {
      assert r.digest[0] == Ascii("sha256:")[0];
    }
  }

  lemma SampleBatchNamed(sample: nat)
    ensures UNDERSCORE !in SampleBatch(sample) && SampleBatch(sample) != FIRST
  {
    DigitsNotUnderscore(sample);
    var name := Ascii("sample");
    assert name == [115, 97, 109, 112, 108, 101];
    assert SampleBatch(sample)[0] == 115 && FIRST[0] == 102;
    assert UNDERSCORE !in name;
  }

  lemma SampleBatchInjective(s: nat, t: nat)
    requires SampleBatch(s) == SampleBatch(t)
    ensures s == t
  {
    assert SampleBatch(s)[6..] == NatText(s) && SampleBatch(t)[6..] == NatText(t);
    NatTextInjective(s, t);
  }

  lemma {:induction false} SamplesDistinct(samples: nat, count: nat)
    ensures Distinct(SampleRequests(samples, count))
  {
    if samples > 0 {
      SamplesDistinct(samples - 1, count);
      SampleShape(samples - 1, count);
      var before, last := SampleRequests(samples - 1, count), Range(SampleBatch(samples - 1), 0, count);
      RangeShape(SampleBatch(samples - 1), 0, count);
      forall i, j | 0 <= i < |before| && 0 <= j < |last| ensures before[i] != last[j] {
        assert before[i] in before && FromSample(before[i], samples - 1, count);
        var s: nat :| s < samples - 1 && before[i].batch == SampleBatch(s);
        if before[i].batch == last[j].batch {
          SampleBatchInjective(s, samples - 1);
        }
      }
      DistinctConcat(before, last);
    }
  }

  lemma ExpectedDistinct(samples: nat, count: nat)
    ensures Distinct(ExpectedRequests(samples, count))
    ensures forall r | r in ExpectedRequests(samples, count) :: r.Invoke? && Named(r)
  {
    SamplesDistinct(samples, count);
    SampleShape(samples, count);
    var rs := SampleRequests(samples, count);
    assert FIRST == [102, 105, 114, 115, 116];
    forall r | r in rs ensures Named(r) && r.batch != FIRST {
      assert FromSample(r, samples, count);
      var s: nat :| s < samples && r.batch == SampleBatch(s);
      SampleBatchNamed(s);
    }
    forall j | 0 <= j < |rs| ensures Invoke(FIRST, 0) != rs[j] {
      assert rs[j] in rs;
    }
    DistinctConcat([Invoke(FIRST, 0)], rs);
  }

  /** Every cohort's plan is one the correlation loop can rely on. */
  lemma CohortPlanValid(spec: Spec, samples: nat, count: nat)
    requires spec.concurrency > 0 && Distinct(spec.digests)
    requires forall d | d in spec.digests :: Ascii("sha256:") <= d
    ensures ValidPlan(CohortPlan(spec, samples, count))
  {
    var p, rs := CohortPlan(spec, samples, count), PlanRequests(spec, samples, count);
    PlanFlattens(spec, samples, count);
    SamplesFlatten(samples, count, spec.concurrency);
    RequestsDistinct(spec, samples, count);
    forall i, j | 0 <= i < j < |rs| ensures Keys(spec.cohort, rs)[i] != Keys(spec.cohort, rs)[j] {
      assert rs[i] in rs && rs[j] in rs;
      if KeyOf(spec.cohort, rs[i]) == KeyOf(spec.cohort, rs[j]) {
        KeyInjective(spec.cohort, rs[i], rs[j]);
      }
    }
    WindowSizes(spec, samples, count);
  }

  lemma WindowSizes(spec: Spec, samples: nat, count: nat)
    requires spec.concurrency > 0
    ensures forall w | w in CohortPlan(spec, samples, count).windows :: 0 < |w| <= spec.concurrency
  {
    SamplesFlatten(samples, count, spec.concurrency);
    forall w | w in Registrations(spec.digests) ensures |w| == 1 {
      var i :| 0 <= i < |spec.digests| && Registrations(spec.digests)[i] == w;
    }
  }

  lemma RequestsDistinct(spec: Spec, samples: nat, count: nat)
    requires Distinct(spec.digests) && forall d | d in spec.digests :: Ascii("sha256:") <= d
    ensures Distinct(PlanRequests(spec, samples, count))
    ensures forall r | r in PlanRequests(spec, samples, count) :: Named(r)
  {
    var a, b := Map(spec.digests, (d: Text) => Register(d)), ExpectedRequests(samples, count);
    ExpectedDistinct(samples, count);
    forall r | r in a ensures Named(r) && r.Register? {
      var i :| 0 <= i < |a| && a[i] == r;
      assert spec.digests[i] in spec.digests;
    }
    forall i, j | 0 <= i < |a| && 0 <= j < |b| ensures a[i] != b[j] {
      assert a[i] in a && b[j] in b;
    }
    DistinctConcat(a, b);
  }

  // ----- the row and its validator -----

  datatype Batch = Batch(sample: nat, warmup: bool, invocations: nat, wallMs: real)

  datatype RequestRow = RequestRow(request: Request, wallMs: real, hostDurationMs: real)

  datatype CohortRow = CohortRow(
    concurrency: nat, readyMs: real, registrationMs: real, firstInvocationMs: real, batches: seq<Batch>,
    requestRows: seq<RequestRow>, teardownMs: real, lifetimeMs: real, completed: nat)

  /** The `batch:index` label of a request row. */
  function RowLabel(r: Request): Text {
    match r
    case Invoke(batch, index) => batch + [COLON] + NatText(index)
    case Register(digest) => digest
  }

  function Labels(rs: seq<Request>): seq<Text> {
    Map(rs, RowLabel)
  }

  /** The rows that a run of the loop leaves: its requests with their times. */
  function RowsOf(s: State): (rows: seq<RequestRow>)
    requires |s.times| == |s.rows|
    ensures |rows| == |s.rows|
  {
    seq(|s.rows|, i requires 0 <= i < |s.rows| => RequestRow(s.rows[i], s.times[i].wallMs, s.times[i].hostDurationMs))
  }

  function RequestsOf(rows: seq<RequestRow>): seq<Request> {
    Map(rows, (r: RequestRow) => r.request)
  }

  predicate BatchAccepted(spec: Spec, mode: Mode, index: nat, b: Batch) {
    && b.sample == index && b.invocations == ValidatorCount(spec, mode)
    && b.warmup == (mode == Timing && index < spec.warmupBatches) && b.wallMs >= 0.0
  }

  predicate Accepted(spec: Spec, mode: Mode, row: CohortRow) {
    var samples, count := SampleCount(spec, mode), ValidatorCount(spec, mode);
    && row.concurrency == spec.concurrency
    && row.readyMs >= 0.0 && row.registrationMs >= 0.0 && row.firstInvocationMs >= 0.0
    && row.teardownMs >= 0.0 && row.lifetimeMs >= 0.0
    && |row.batches| == samples
    && (forall i | 0 <= i < samples :: BatchAccepted(spec, mode, i, row.batches[i]))
    && row.completed == 1 + samples * count && |row.requestRows| == row.completed
    && SortTexts(Labels(RequestsOf(row.requestRows))) == SortTexts(Labels(ExpectedRequests(samples, count)))
    && forall r | r in row.requestRows :: r.wallMs >= 0.0 && r.hostDurationMs >= 0.0
  }

  /** A label names one request. */
  lemma LabelInjective(r: Request, q: Request)
    requires r.Invoke? && q.Invoke? && RowLabel(r) == RowLabel(q)
    ensures r == q
  {
    assert AllDigits(NatText(r.index)) && AllDigits(NatText(q.index));
    CutLastUnique(r.batch, NatText(r.index), q.batch, NatText(q.index), COLON);
    NatTextInjective(r.index, q.index);
  }

  /** The rows of an accepted capture are those of the expected invocations, each exactly once. */
  lemma AcceptedRowsAre(spec: Spec, mode: Mode, row: CohortRow)
    requires Accepted(spec, mode, row) && forall r | r in row.requestRows :: r.request.Invoke?
    ensures multiset(RequestsOf(row.requestRows)) == multiset(ExpectedRequests(SampleCount(spec, mode), ValidatorCount(spec, mode)))
  {
    var a, b := RequestsOf(row.requestRows), ExpectedRequests(SampleCount(spec, mode), ValidatorCount(spec, mode));
    SortTextsSame(Labels(a), Labels(b));
    ExpectedDistinct(SampleCount(spec, mode), ValidatorCount(spec, mode));
    forall x, y | x in a && y in b && RowLabel(x) == RowLabel(y) ensures x == y {
      var i :| 0 <= i < |a| && a[i] == x;
      assert row.requestRows[i] in row.requestRows;
      LabelInjective(x, y);
    }
    MapInjective(a, b, RowLabel);
  }

  function Warmups(batches: seq<Batch>): nat {
    if batches == [] then 0 else Warmups(batches[..|batches| - 1]) + if batches[|batches| - 1].warmup then 1 else 0
  }

  lemma {:induction false} WarmupsWithin(spec: Spec, mode: Mode, row: CohortRow, k: nat)
    requires Accepted(spec, mode, row) && k <= |row.batches|
    ensures Warmups(row.batches[..k]) == if mode == Timing then Min(k, spec.warmupBatches) else 0
  {
    if k > 0 {
      WarmupsWithin(spec, mode, row, k - 1);
      assert row.batches[..k][..k - 1] == row.batches[..k - 1];
      assert BatchAccepted(spec, mode, k - 1, row.batches[k - 1]);
    }
  }

  /** An accepted timing capture has all its warm-up batches and all its measured ones; any other has
      one measured batch. */
  lemma AcceptedBatches(spec: Spec, mode: Mode, row: CohortRow)
    requires Accepted(spec, mode, row)
    ensures Warmups(row.batches) == if mode == Timing then spec.warmupBatches else 0
    ensures |row.batches| - Warmups(row.batches) == if mode == Timing then spec.measuredBatches else 1
  {
    WarmupsWithin(spec, mode, row, |row.batches|);
    assert row.batches[..|row.batches|] == row.batches;
  }

  // ----- the clock -----

  ghost predicate Monotone(clock: seq<real>) {
    forall i, j | 0 <= i <= j < |clock| :: clock[i] <= clock[j]
  }

  function WallTotal(batches: seq<Batch>): real {
    if batches == [] then 0.0 else WallTotal(batches[..|batches| - 1]) + batches[|batches| - 1].wallMs
  }

  /** The phases and batches a review adds up. */
  function Accounted(row: CohortRow): real {
    row.readyMs + row.registrationMs + row.firstInvocationMs + row.teardownMs + WallTotal(row.batches)
  }

  predicate BatchProduced(spec: Spec, mode: Mode, index: nat, b: Batch) {
    && b.sample == index && b.invocations == ProducerCount(spec, mode)
    && b.warmup == (mode == Timing && index < spec.warmupBatches) && b.wallMs >= 0.0
  }

  lemma ClockRuns(clock: seq<real>, at: nat)
    requires Monotone(clock) && 0 < at && at + 1 < |clock|
    ensures clock[at - 1] <= clock[at] <= clock[at + 1]
  {
  }

  /** The time before each of `n` pairs of reads and after the pair before it. */
  function Gaps(clock: seq<real>, start: nat, n: nat): real
    requires start > 0 && (n > 0 ==> start + 2 * n <= |clock| + 1)
  {
    if n == 0 then 0.0 else Gaps(clock, start, n - 1) + (clock[start + 2 * n - 2] - clock[start + 2 * n - 3])
  }

  lemma {:induction false} GapsPositive(clock: seq<real>, start: nat, n: nat)
    requires Monotone(clock) && start > 0 && (n > 0 ==> start + 2 * n <= |clock| + 1)
    ensures Gaps(clock, start, n) >= 0.0
  {
    if n > 0 {
      GapsPositive(clock, start, n - 1);
      assert clock[start + 2 * n - 3] <= clock[start + 2 * n - 2];
    }
  }

  lemma {:induction false} GapsJoin(clock: seq<real>, start: nat, m: nat, n: nat)
    requires start > 0 && (m + n > 0 ==> start + 2 * (m + n) <= |clock| + 1)
    ensures Gaps(clock, start, m + n) == Gaps(clock, start, m) + Gaps(clock, start + 2 * m, n)
  {
    if n > 0 {
      GapsJoin(clock, start, m, n - 1);
    }
  }

  /** Times of batches and the times before them add up to what passed. */
  lemma {:induction false} WallAndGaps(batches: seq<Batch>, clock: seq<real>, start: nat)
    requires start > 0 && start + 2 * |batches| <= |clock|
    requires forall i | 0 <= i < |batches| :: batches[i].wallMs == clock[start + 2 * i + 1] - clock[start + 2 * i]
    ensures WallTotal(batches) + Gaps(clock, start, |batches|) == clock[start + 2 * |batches| - 1] - clock[start - 1]
  {
    if batches != [] {
      WallAndGaps(batches[..|batches| - 1], clock, start);
    }
  }

  /** The batch loop: two clock reads around each batch. */
  method MeasureBatches(spec: Spec, mode: Mode, clock: seq<real>, start: nat) returns (batches: seq<Batch>)
    requires Monotone(clock) && start + 2 * SampleCount(spec, mode) <= |clock| && start > 0
    ensures |batches| == SampleCount(spec, mode)
    ensures forall i | 0 <= i < |batches| :: BatchProduced(spec, mode, i, batches[i])
    ensures forall i | 0 <= i < |batches| :: batches[i].wallMs == clock[start + 2 * i + 1] - clock[start + 2 * i]
    ensures WallTotal(batches) + Gaps(clock, start, |batches|) == clock[start + 2 * |batches| - 1] - clock[start - 1]
  {
    batches := [];
    for sample := 0 to SampleCount(spec, mode)
      invariant |batches| == sample
      invariant forall i | 0 <= i < sample :: BatchProduced(spec, mode, i, batches[i])
      invariant forall i | 0 <= i < sample :: batches[i].wallMs == clock[start + 2 * i + 1] - clock[start + 2 * i]
    {
      var at := start + 2 * sample;
      var before, after := clock[at], clock[at + 1];
      ClockRuns(clock, at);
      var batch := Batch(sample, mode == Timing && sample < spec.warmupBatches, ProducerCount(spec, mode), after - before);
      batches := batches + [batch];
    }
    WallAndGaps(batches, clock, start);
  }

  /** The clock is read before and after each phase, in this order: readiness, registration, the first
      invocation, each batch, teardown; the lifetime runs from the first read to the last. */
  ghost predicate PhasesTimed(row: CohortRow, clock: seq<real>) {
    var n := |row.batches|;
    && |clock| == 9 + 2 * n
    && row.readyMs == clock[1] - clock[0] && row.registrationMs == clock[3] - clock[2]
    && row.firstInvocationMs == clock[5] - clock[4]
    && (forall i | 0 <= i < n :: row.batches[i].wallMs == clock[6 + 2 * i + 1] - clock[6 + 2 * i])
    && row.teardownMs == clock[6 + 2 * n + 1] - clock[6 + 2 * n]
    && row.lifetimeMs == clock[6 + 2 * n + 2] - clock[0]
  }

  /** A cohort whose loop drained cleanly reports a row the validator accepts, except where the two
      disagree on how many invocations a smoke batch has; and the row's lifetime covers its parts. */
  method MeasureCohort(spec: Spec, mode: Mode, clock: seq<real>, ghost drained: State, rows: seq<RequestRow>)
    returns (row: CohortRow)
    requires spec.concurrency > 0 && Distinct(spec.digests)
    requires forall d | d in spec.digests :: Ascii("sha256:") <= d
    requires Monotone(clock) && |clock| == 9 + 2 * SampleCount(spec, mode)
    requires var plan := CohortPlan(spec, SampleCount(spec, mode), ProducerCount(spec, mode));
             Reachable(plan, drained) && CleanDrain(plan, drained)
    requires |drained.times| == |drained.rows| && rows == RowsOf(drained)
    ensures Accepted(spec, mode, row) <==> (mode == Smoke ==> spec.count >= 4)
    ensures PhasesTimed(row, clock)
    ensures row.lifetimeMs == Accounted(row) + Gaps(clock, 2, 4 + |row.batches|) >= Accounted(row)
    ensures row.requestRows == rows && row.completed == |drained.completed|
  {
    var samples := SampleCount(spec, mode);
    assert clock[0] <= clock[1] <= clock[2] <= clock[3] <= clock[4] <= clock[5];
    var batches := MeasureBatches(spec, mode, clock, 6);
    var end := 6 + 2 * samples;
    assert clock[end - 1] <= clock[end] <= clock[end + 1] <= clock[end + 2];
    row := CohortRow(spec.concurrency, clock[1] - clock[0], clock[3] - clock[2], clock[5] - clock[4], batches,
                     rows, clock[end + 1] - clock[end], clock[end + 2] - clock[0], |rows|);
    LifetimeCovers(row, clock);
    TimesReachable(CohortPlan(spec, samples, ProducerCount(spec, mode)), drained);
    assert RequestsOf(rows) == drained.rows;
    DrainedRow(spec, mode, drained, rows);
    RowAccepted(spec, mode, row);
  }

  /** Phases, batches and the time between them add up to the lifetime. */
  lemma LifetimeCovers(row: CohortRow, clock: seq<real>)
    requires Monotone(clock) && PhasesTimed(row, clock)
    requires var n := |row.batches|; WallTotal(row.batches) + Gaps(clock, 6, n) == clock[6 + 2 * n - 1] - clock[5]
    ensures row.lifetimeMs == Accounted(row) + Gaps(clock, 2, 4 + |row.batches|) >= Accounted(row)
  {
    var n := |row.batches|;
    GapsJoin(clock, 2, 2, n);
    GapsPositive(clock, 2, 4 + n);
    assert Gaps(clock, 2, 1) == clock[2] - clock[1];
    assert Gaps(clock, 2, 2) == clock[2] - clock[1] + (clock[4] - clock[3]);
    assert Gaps(clock, 2, 3 + n) == Gaps(clock, 2, 2 + n) + (clock[6 + 2 * n] - clock[5 + 2 * n]);
    assert Gaps(clock, 2, 4 + n) == Gaps(clock, 2, 3 + n) + (clock[8 + 2 * n] - clock[7 + 2 * n]);
  }

  /** Producer and validator agree on a row unless they count the invocations of a batch differently. */
  lemma RowAccepted(spec: Spec, mode: Mode, row: CohortRow)
    requires row.concurrency == spec.concurrency && row.readyMs >= 0.0 && row.registrationMs >= 0.0 && row.firstInvocationMs >= 0.0
    requires row.teardownMs >= 0.0 && row.lifetimeMs >= 0.0 && |row.batches| == SampleCount(spec, mode)
    requires forall i | 0 <= i < |row.batches| :: BatchProduced(spec, mode, i, row.batches[i])
    requires |row.requestRows| == row.completed == 1 + SampleCount(spec, mode) * ProducerCount(spec, mode)
    requires SortTexts(Labels(RequestsOf(row.requestRows))) == SortTexts(Labels(ExpectedRequests(SampleCount(spec, mode), ProducerCount(spec, mode))))
    requires forall r | r in row.requestRows :: r.wallMs >= 0.0 && r.hostDurationMs >= 0.0
    ensures Accepted(spec, mode, row) <==> (mode == Smoke ==> spec.count >= 4)
  {
    if mode == Smoke && spec.count < 4 {
      assert !BatchAccepted(spec, mode, 0, row.batches[0]);
    } else {
      assert forall i | 0 <= i < |row.batches| ::
          BatchProduced(spec, mode, i, row.batches[i]) ==> BatchAccepted(spec, mode, i, row.batches[i]);
    }
  }

  /** Completions in any order leave the validator the same labels and the same number of rows. */
  lemma DrainedRow(spec: Spec, mode: Mode, drained: State, rows: seq<RequestRow>)
    requires spec.concurrency > 0 && Distinct(spec.digests)
    requires forall d | d in spec.digests :: Ascii("sha256:") <= d
    requires var plan := CohortPlan(spec, SampleCount(spec, mode), ProducerCount(spec, mode));
             Reachable(plan, drained) && CleanDrain(plan, drained)
    requires RequestsOf(rows) == drained.rows
    ensures |rows| == |drained.completed| == 1 + SampleCount(spec, mode) * ProducerCount(spec, mode)
    ensures SortTexts(Labels(RequestsOf(rows)))
            == SortTexts(Labels(ExpectedRequests(SampleCount(spec, mode), ProducerCount(spec, mode))))
  {
    var samples, count := SampleCount(spec, mode), ProducerCount(spec, mode);
    var plan := CohortPlan(spec, samples, count);
    CohortPlanValid(spec, samples, count);
    DrainComplete(plan, drained);
    PlanFlattens(spec, samples, count);
    var expected := ExpectedRequests(samples, count);
    assert |drained.rows| == |multiset(drained.rows)| == |multiset(expected)| == |expected|;
    SampleShape(samples, count);
    MapPermutation(drained.rows, expected, RowLabel);
    SortTextsSame(Labels(drained.rows), Labels(expected));
  }

  /** Every cohort can be drained, in every mode and of every size, so the disagreement about small
      smoke cohorts is met whenever one is measured. */
  lemma CohortDrains(spec: Spec, mode: Mode) returns (drained: State)
    requires spec.concurrency > 0 && Distinct(spec.digests)
    requires forall d | d in spec.digests :: Ascii("sha256:") <= d
    ensures var plan := CohortPlan(spec, SampleCount(spec, mode), ProducerCount(spec, mode));
            Reachable(plan, drained) && CleanDrain(plan, drained) && |drained.times| == |drained.rows|
  {
    var plan := CohortPlan(spec, SampleCount(spec, mode), ProducerCount(spec, mode));
    CohortPlanValid(spec, SampleCount(spec, mode), ProducerCount(spec, mode));
    drained := Drains(plan);
    TimesReachable(plan, drained);
  }
}
