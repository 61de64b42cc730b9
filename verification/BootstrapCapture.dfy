/**
 The bootstrap diagnostic's producer loop and its validator, written apart from each other:
 every complete capture the producer makes is one the validator accepts.
 */
module BootstrapCapture {
  import opened Options
  import opened Text
  import opened Sequences
  import H = Handshake

  datatype Contract = Contract(
    cases: seq<Text>, processes: nat, warmupSamples: nat, measuredSamples: nat, concurrentWorkers: nat)

  function Samples(k: Contract): nat { k.warmupSamples + k.measuredSamples }

  const EMPTY_CASE: Text := Ascii("wrapped-empty")
  const CONCURRENT_CASE: Text := Ascii("wrapped-concurrent")
  const RAW_PREFIX: Text := Ascii("raw-")

  predicate IsRaw(name: Text)
    ensures IsRaw(name) <==> exists rest :: name == RAW_PREFIX + rest
  {
    assert RAW_PREFIX <= name ==> name == RAW_PREFIX + name[|RAW_PREFIX|..];
    RAW_PREFIX <= name
  }

  // ----- the order of cases -----

  function Reversed<T>(s: seq<T>): (r: seq<T>)
    ensures |r| == |s| && forall i | 0 <= i < |s| :: r[i] == s[|s| - 1 - i]
  {
    seq(|s|, i requires 0 <= i < |s| => s[|s| - 1 - i])
  }

  /** The remainder of `k` by `n`. */
  function Wrap(k: nat, n: nat): (r: nat)
    requires n > 0
    ensures r < n
  {
    if k < n then k else Wrap(k - n, n)
  }

  lemma {:induction false} WrapIsRemainder(k: nat, n: nat)
    requires n > 0
    ensures Wrap(k, n) == k % n
  {
    if k >= n {
      WrapIsRemainder(k - n, n);
      ModUnique(k, (k - n) / n + 1, (k - n) % n, n);
    } else {
      ModUnique(k, 0, k, n);
    }
  }

  function Rotated<T>(s: seq<T>, shift: nat): (r: seq<T>)
    ensures |r| == |s|
  {
    seq(|s|, i requires 0 <= i < |s| => s[Wrap(i + shift, |s|)])
  }

  function Arranged<T>(cases: seq<T>, reverse: bool, shift: nat): (r: seq<T>)
    ensures |r| == |cases|
  {
    if reverse then Reversed(Rotated(cases, shift)) else Rotated(cases, shift)
  }

  function BootstrapOrder<T>(cases: seq<T>, sample: nat, processIndex: nat): (r: seq<T>)
    ensures |r| == |cases|
  {
    Arranged(cases, processIndex % 2 == 1, sample + processIndex)
  }

  /** Which case sits in a slot: the slot, counted from either end, shifted. */
  function CaseInSlot(n: nat, reverse: bool, shift: nat, slot: nat): (c: nat)
    requires slot < n
    ensures c < n
  {
    Wrap((if reverse then n - 1 - slot else slot) + shift, n)
  }

  lemma ArrangedAt<T>(cases: seq<T>, reverse: bool, shift: nat, slot: nat)
    requires slot < |cases|
    ensures Arranged(cases, reverse, shift)[slot] == cases[CaseInSlot(|cases|, reverse, shift, slot)]
  {
    var rotated, from := Rotated(cases, shift), if reverse then |cases| - 1 - slot else slot;
    RotatedAt(cases, shift, from);
    assert reverse ==> Reversed(rotated)[slot] == rotated[from];
  }

  lemma RotatedAt<T>(s: seq<T>, shift: nat, i: nat)
    requires i < |s|
    ensures Rotated(s, shift)[i] == s[Wrap(i + shift, |s|)]
  {
  }

  lemma ModShift(a: int, b: int, n: nat)
    requires n > 0 && a % n == b % n
    ensures (a - b) % n == 0
  {
    assert a == a / n * n + a % n && b == b / n * n + b % n;
    assert a - b == (a / n - b / n) * n;
    ModMultiple(a / n - b / n, n);
  }

  lemma ModMultiple(q: int, n: nat)
    requires n > 0
    ensures q * n % n == 0
  {
    ModUnique(q * n, q, 0, n);
  }

  /** Quotient and remainder are determined by what they add up to. */
  lemma ModUnique(a: int, q: int, r: int, n: nat)
    requires n > 0 && a == q * n + r && 0 <= r < n
    ensures a / n == q && a % n == r
  {
    var q', r' := a / n, a % n;
    assert a == q' * n + r';
    if q' > q {
      MulMonotone(q + 1, q', n);
    } else if q' < q {
      MulMonotone(q' + 1, q, n);
    }
  }

  lemma MulMonotone(a: int, b: int, n: nat)
    requires a <= b
    ensures a * n <= b * n
  {
  }

  /** Numbers less than `n` apart with the same remainder are equal. */
  lemma SameResidue(a: int, b: int, n: nat)
    requires n > 0 && a % n == b % n && a - b < n && b - a < n
    ensures a == b
  {
    ModShift(a, b, n);
    var d := a - b;
    assert d == d / n * n;
    if d / n >= 1 {
      MulMonotone(1, d / n, n);
    } else if d / n <= -1 {
      MulMonotone(d / n, -1, n);
    }
  }

  /** Within one order no case is repeated. */
  lemma SlotsDiffer(n: nat, reverse: bool, shift: nat, i: nat, j: nat)
    requires i < j < n
    ensures CaseInSlot(n, reverse, shift, i) != CaseInSlot(n, reverse, shift, j)
  {
    var x := if reverse then n - 1 - i else i;
    var y := if reverse then n - 1 - j else j;
    WrapIsRemainder(x + shift, n);
    WrapIsRemainder(y + shift, n);
    if (x + shift) % n == (y + shift) % n {
      SameResidue(x + shift, y + shift, n);
    }
  }

  /** Within a slot, samples less than a full round apart hold different cases. */
  lemma ShiftsDiffer(n: nat, reverse: bool, s: nat, t: nat, i: nat)
    requires i < n && s < t < s + n
    ensures CaseInSlot(n, reverse, s, i) != CaseInSlot(n, reverse, t, i)
  {
    var x := if reverse then n - 1 - i else i;
    WrapIsRemainder(x + s, n);
    WrapIsRemainder(x + t, n);
    if (x + s) % n == (x + t) % n {
      SameResidue(x + s, x + t, n);
    }
  }

  lemma ArrangedDistinct<T>(cases: seq<T>, reverse: bool, shift: nat)
    requires Distinct(cases)
    ensures Distinct(Arranged(cases, reverse, shift))
  {
    var order := Arranged(cases, reverse, shift);
    forall i, j | 0 <= i < j < |order| ensures order[i] != order[j] {
      ArrangedAt(cases, reverse, shift, i);
      ArrangedAt(cases, reverse, shift, j);
      SlotsDiffer(|cases|, reverse, shift, i, j);
    }
  }

  /** Every order is a permutation of the cases. */
  lemma OrderIsPermutation<T>(cases: seq<T>, sample: nat, processIndex: nat)
    requires Distinct(cases)
    ensures multiset(BootstrapOrder(cases, sample, processIndex)) == multiset(cases)
  {
    var reverse, shift := processIndex % 2 == 1, sample + processIndex;
    var order := Arranged(cases, reverse, shift);
    ArrangedDistinct(cases, reverse, shift);
    forall x | x in order ensures x in cases {
      var i :| 0 <= i < |order| && order[i] == x;
      ArrangedAt(cases, reverse, shift, i);
    }
    SameElements(order, cases);
  }

  /** The first sample of the first process takes the cases as they come. */
  lemma OrderStarts<T>(cases: seq<T>)
    ensures BootstrapOrder(cases, 0, 0) == cases
  {
    forall i | 0 <= i < |cases| ensures BootstrapOrder(cases, 0, 0)[i] == cases[i] {
      OrderAt(cases, 0, 0, i);
    }
  }

  /** From one sample to the next the order turns by one: forward in processes of even index, back in
      the others. */
  lemma OrderTurns<T>(cases: seq<T>, sample: nat, processIndex: nat, slot: nat)
    requires slot + 1 < |cases|
    ensures var now, next := BootstrapOrder(cases, sample, processIndex), BootstrapOrder(cases, sample + 1, processIndex);
            if processIndex % 2 == 0 then next[slot] == now[slot + 1] else next[slot + 1] == now[slot]
  {
    OrderAt(cases, sample, processIndex, slot);
    OrderAt(cases, sample, processIndex, slot + 1);
    OrderAt(cases, sample + 1, processIndex, slot);
    OrderAt(cases, sample + 1, processIndex, slot + 1);
  }

  /** A process of odd index runs the order of the process before it, one sample on, backwards. */
  lemma OrderMirrors<T>(cases: seq<T>, sample: nat, processIndex: nat, slot: nat)
    requires slot < |cases| && processIndex % 2 == 0
    ensures BootstrapOrder(cases, sample, processIndex + 1)[slot] == BootstrapOrder(cases, sample + 1, processIndex)[|cases| - 1 - slot]
  {
    OrderAt(cases, sample, processIndex + 1, slot);
    OrderAt(cases, sample + 1, processIndex, |cases| - 1 - slot);
  }

  /** What one slot holds over |cases| consecutive samples. */
  function Column<T>(cases: seq<T>, start: nat, processIndex: nat, slot: nat): (column: seq<T>)
    requires slot < |cases|
    ensures |column| == |cases|
  {
    seq(|cases|, k requires 0 <= k < |cases| => BootstrapOrder(cases, start + k, processIndex)[slot])
  }

  lemma OrderAt<T>(cases: seq<T>, sample: nat, processIndex: nat, slot: nat)
    requires slot < |cases|
    ensures BootstrapOrder(cases, sample, processIndex)[slot]
            == cases[CaseInSlot(|cases|, processIndex % 2 == 1, sample + processIndex, slot)]
  {
    ArrangedAt(cases, processIndex % 2 == 1, sample + processIndex, slot);
  }

  lemma ColumnAt<T>(cases: seq<T>, start: nat, processIndex: nat, slot: nat, k: nat)
    requires slot < |cases| && k < |cases|
    ensures Column(cases, start, processIndex, slot)[k]
            == cases[CaseInSlot(|cases|, processIndex % 2 == 1, start + k + processIndex, slot)]
  {
    OrderAt(cases, start + k, processIndex, slot);
  }

  lemma ColumnDistinct<T>(cases: seq<T>, start: nat, processIndex: nat, slot: nat)
    requires Distinct(cases) && slot < |cases|
    ensures Distinct(Column(cases, start, processIndex, slot))
  {
    var column := Column(cases, start, processIndex, slot);
    forall i, j | 0 <= i < j < |column| ensures column[i] != column[j] {
      ColumnAt(cases, start, processIndex, slot, i);
      ColumnAt(cases, start, processIndex, slot, j);
      ShiftsDiffer(|cases|, processIndex % 2 == 1, start + i + processIndex, start + j + processIndex, slot);
    }
  }

  /** Over any |cases| consecutive samples each slot sees each case exactly once. */
  lemma SlotsBalanced<T>(cases: seq<T>, start: nat, processIndex: nat, slot: nat)
    requires Distinct(cases) && slot < |cases|
    ensures multiset(Column(cases, start, processIndex, slot)) == multiset(cases)
  {
    var column := Column(cases, start, processIndex, slot);
    ColumnDistinct(cases, start, processIndex, slot);
    forall x | x in column ensures x in cases {
      var k :| 0 <= k < |column| && column[k] == x;
      ColumnAt(cases, start, processIndex, slot, k);
    }
    SameElements(column, cases);
  }

  // ----- captures -----

  datatype WorkerRow = WorkerRow(
    name: Text, sample: nat, warmup: bool, fixture: Text, observer: nat, executedProductionCode: bool,
    constructorMs: real, requestRoundTripMs: real, journeyMs: real,
    realm: Option<nat>, enteredMs: Option<real>, readyMs: Option<real>,
    importMs: Option<real>, executionMs: Option<real>)

  datatype BatchRow = BatchRow(name: Text, sample: nat, warmup: bool, batchMs: real, workers: seq<WorkerRow>)

  function Workers(rows: seq<BatchRow>): seq<WorkerRow> {
    if rows == [] then [] else Workers(rows[..|rows| - 1]) + rows[|rows| - 1].workers
  }

  function Observers(ws: seq<WorkerRow>): seq<nat> {
    Map(ws, (w: WorkerRow) => w.observer)
  }

  function Realms(ws: seq<WorkerRow>): seq<nat> {
    if ws == [] then []
    else
      var last := ws[|ws| - 1];
      Realms(ws[..|ws| - 1]) + if last.realm.Some? then [last.realm.value] else []
  }

  predicate NonNegative(t: Option<real>) { t.Some? && t.value >= 0.0 }

  /** The checks on one worker of a batch that do not look at other workers. */
  predicate WorkerAccepted(w: WorkerRow, row: BatchRow, fixture: Text -> Text) {
    && w.name == row.name && w.sample == row.sample && w.warmup == row.warmup
    && w.fixture == fixture(row.name)
    && w.executedProductionCode == (row.name != EMPTY_CASE)
    && w.constructorMs >= 0.0 && w.requestRoundTripMs >= 0.0 && w.journeyMs >= 0.0
    && if IsRaw(row.name) then
         w.realm.None? && w.enteredMs.None? && w.readyMs.None? && w.importMs.None? && w.executionMs.None?
       else
         && w.realm.Some? && NonNegative(w.enteredMs) && NonNegative(w.readyMs) && NonNegative(w.executionMs)
         && w.enteredMs.value <= w.readyMs.value <= w.journeyMs
         && if row.name == EMPTY_CASE then w.importMs.None? else NonNegative(w.importMs)
  }

  function WorkerCount(k: Contract, name: Text): nat {
    if name == CONCURRENT_CASE then k.concurrentWorkers else 1
  }

  predicate RowAccepted(k: Contract, processIndex: nat, sample: nat, slot: nat, row: BatchRow, fixture: Text -> Text)
    requires slot < |k.cases|
  {
    && row.name == BootstrapOrder(k.cases, sample, processIndex)[slot]
    && row.sample == sample && row.warmup == (sample < k.warmupSamples)
    && row.batchMs >= 0.0 && |row.workers| == WorkerCount(k, row.name)
    && forall w | w in row.workers :: WorkerAccepted(w, row, fixture)
  }

  /** The first `n` rows are in order: a row's position divides into its sample and its slot. */
  ghost predicate RowsAccepted(k: Contract, processIndex: nat, rows: seq<BatchRow>, n: nat, fixture: Text -> Text)
    requires |k.cases| > 0 && n <= |rows|
  {
    forall position | 0 <= position < n :: PositionAccepted(k, processIndex, rows, position, fixture)
  }

  /** What the validator demands of a capture. */
  ghost predicate Accepted(k: Contract, processIndex: nat, rows: seq<BatchRow>, fixture: Text -> Text)
    requires |k.cases| > 0
  {
    && processIndex < k.processes && |rows| == |k.cases| * Samples(k)
    && RowsAccepted(k, processIndex, rows, |rows|, fixture)
    && Unique(Workers(rows))
  }

  /** Every row of an accepted capture: its workers, one unless the case is the concurrent one, and what
      is known of the times of each. */
  lemma AcceptedTimes(k: Contract, processIndex: nat, rows: seq<BatchRow>, fixture: Text -> Text, i: nat, j: nat)
    requires |k.cases| > 0 && Accepted(k, processIndex, rows, fixture) && i < |rows| && j < |rows[i].workers|
    ensures |rows[i].workers| == if rows[i].name == Ascii("wrapped-concurrent") then k.concurrentWorkers else 1
    ensures rows[i].batchMs >= 0.0 && (rows[i].warmup <==> rows[i].sample < k.warmupSamples)
    ensures var w := rows[i].workers[j];
            && w.constructorMs >= 0.0 && w.requestRoundTripMs >= 0.0 && w.journeyMs >= 0.0
            && (w.executedProductionCode <==> rows[i].name != Ascii("wrapped-empty"))
            && (w.realm.Some? ==>
                  && w.enteredMs.Some? && w.readyMs.Some? && 0.0 <= w.enteredMs.value <= w.readyMs.value <= w.journeyMs
                  && w.executionMs.Some? && w.executionMs.value >= 0.0
                  && (w.importMs.None? <==> rows[i].name == Ascii("wrapped-empty")))
  {
    assert PositionAccepted(k, processIndex, rows, i, fixture);
    assert rows[i].workers[j] in rows[i].workers;
  }

  /** The names of the rows of one sample. */
  function SampleNames(k: Contract, rows: seq<BatchRow>, sample: nat): seq<Text>
    requires Base(sample + 1, |k.cases|) <= |rows|
  {
    BaseNext(sample, |k.cases|);
    seq(|k.cases|, i requires 0 <= i < |k.cases| => rows[Base(sample, |k.cases|) + i].name)
  }

  /** Every sample of an accepted capture has each case once. */
  lemma AcceptedSample(k: Contract, processIndex: nat, rows: seq<BatchRow>, fixture: Text -> Text, sample: nat)
    requires |k.cases| > 0 && Distinct(k.cases) && Accepted(k, processIndex, rows, fixture) && sample < Samples(k)
    ensures Base(sample + 1, |k.cases|) <= |rows| && multiset(SampleNames(k, rows, sample)) == multiset(k.cases)
  {
    var n := |k.cases|;
    MulMonotone(sample + 1, Samples(k), n);
    BaseNext(sample, n);
    var names, order := SampleNames(k, rows, sample), BootstrapOrder(k.cases, sample, processIndex);
    forall i | 0 <= i < n ensures names[i] == order[i] {
      PositionOf(sample, i, n, Samples(k));
      assert PositionAccepted(k, processIndex, rows, Base(sample, n) + i, fixture);
    }
    assert names == order;
    OrderIsPermutation(k.cases, sample, processIndex);
  }

  lemma DistinctAppend(s: seq<nat>, seen: set<nat>, x: nat)
    requires Distinct(s) && seen == set y | y in s
    ensures Distinct(s + [x]) <==> x !in seen
  {
    if x in seen {
      var i :| 0 <= i < |s| && s[i] == x;
      assert (s + [x])[i] == (s + [x])[|s|];
    }
  }

  lemma DistinctPrefix(s: seq<nat>, t: seq<nat>)
    requires !Distinct(s)
    ensures !Distinct(s + t)
  {
    var i, j :| 0 <= i < j < |s| && s[i] == s[j];
    assert (s + t)[i] == (s + t)[j];
  }

  lemma WorkersNext(rows: seq<BatchRow>, i: nat)
    requires i < |rows|
    ensures Workers(rows[..i + 1]) == Workers(rows[..i]) + rows[i].workers
  {
    assert rows[..i + 1][..i] == rows[..i];
  }

  lemma ObserversNext(ws: seq<WorkerRow>, w: WorkerRow)
    ensures Observers(ws + [w]) == Observers(ws) + [w.observer]
    ensures Realms(ws + [w]) == Realms(ws) + if w.realm.Some? then [w.realm.value] else []
  {
    assert (ws + [w])[..|ws|] == ws;
  }

  lemma {:induction false} SeenExtends(ws: seq<WorkerRow>, more: seq<WorkerRow>)
    ensures Unique(ws + more) ==> Unique(ws)
    decreases |more|
  {
    if more == [] {
      assert ws + more == ws;
    } else {
      ObserversNext(ws, more[0]);
      if !Distinct(Observers(ws)) {
        DistinctPrefix(Observers(ws), [more[0].observer]);
      }
      if !Distinct(Realms(ws)) {
        DistinctPrefix(Realms(ws), if more[0].realm.Some? then [more[0].realm.value] else []);
      }
      SeenExtends(ws + [more[0]], more[1..]);
      assert ws + [more[0]] + more[1..] == ws + more;
    }
  }

  lemma {:induction false} WorkersPrefix(rows: seq<BatchRow>, i: nat)
    requires i <= |rows|
    ensures Unique(Workers(rows)) ==> Unique(Workers(rows[..i]))
    decreases |rows| - i
  {
    if i == |rows| {
      assert rows[..i] == rows;
    } else {
      WorkersNext(rows, i);
      SeenExtends(Workers(rows[..i]), rows[i].workers);
      WorkersPrefix(rows, i + 1);
    }
  }

  /** The ids of these workers are distinct, and the sets hold exactly them. */
  ghost predicate Seen(ws: seq<WorkerRow>, observers: set<nat>, realms: set<nat>) {
    && Unique(ws)
    && observers == (set x | x in Observers(ws)) && realms == (set x | x in Realms(ws))
  }

  ghost predicate Unique(ws: seq<WorkerRow>) {
    Distinct(Observers(ws)) && Distinct(Realms(ws))
  }

  lemma SeenNext(ws: seq<WorkerRow>, observers: set<nat>, realms: set<nat>, w: WorkerRow)
    requires Seen(ws, observers, realms)
    ensures Unique(ws + [w]) <==> w.observer !in observers && (w.realm.Some? ==> w.realm.value !in realms)
    ensures Unique(ws + [w]) ==>
              Seen(ws + [w], observers + {w.observer}, if w.realm.Some? then realms + {w.realm.value} else realms)
  {
    ObserversNext(ws, w);
    GrowsBy(Observers(ws), observers, w.observer);
    if w.realm.Some? {
      GrowsBy(Realms(ws), realms, w.realm.value);
    } else {
      assert Realms(ws + [w]) == Realms(ws);
    }
  }

  lemma GrowsBy(s: seq<nat>, seen: set<nat>, x: nat)
    requires Distinct(s) && seen == set y | y in s
    ensures Distinct(s + [x]) <==> x !in seen
    ensures (set y | y in s + [x]) == seen + {x}
  {
    DistinctAppend(s, seen, x);
  }

  lemma OneMore(before: seq<WorkerRow>, ws: seq<WorkerRow>, i: nat)
    requires i < |ws|
    ensures before + ws[..i + 1] == before + ws[..i] + [ws[i]]
    ensures before + ws[..i + 1] + ws[i + 1..] == before + ws
  {
  }

  /** One batch of the validator: its workers' ids are new, and the sets grow by them. */
  method SeeWorkers(ws: seq<WorkerRow>, before: seq<WorkerRow>, observers: set<nat>, realms: set<nat>)
    returns (isNew: bool, observers': set<nat>, realms': set<nat>)
    requires Seen(before, observers, realms)
    ensures isNew <==> Unique(before + ws)
    ensures isNew ==> Seen(before + ws, observers', realms')
  {
    isNew, observers', realms' := true, observers, realms;
    assert before + ws[..0] == before;
    for i := 0 to |ws|
      invariant Seen(before + ws[..i], observers', realms')
    {
      var w := ws[i];
      OneMore(before, ws, i);
      SeenNext(before + ws[..i], observers', realms', w);
      if w.observer in observers' || (w.realm.Some? && w.realm.value in realms') {
        SeenExtends(before + ws[..i + 1], ws[i + 1..]);
        return false, observers', realms';
      }
      observers' := observers' + {w.observer};
      realms' := if w.realm.Some? then realms' + {w.realm.value} else realms';
    }
    assert ws[..|ws|] == ws;
  }

  predicate PositionAccepted(k: Contract, processIndex: nat, rows: seq<BatchRow>, position: nat, fixture: Text -> Text)
    requires |k.cases| > 0 && position < |rows|
  {
    RowAccepted(k, processIndex, position / |k.cases|, position % |k.cases|, rows[position], fixture)
  }

  lemma RowsNext(k: Contract, processIndex: nat, rows: seq<BatchRow>, n: nat, fixture: Text -> Text)
    requires |k.cases| > 0 && n < |rows|
    ensures RowsAccepted(k, processIndex, rows, n + 1, fixture)
            <==> RowsAccepted(k, processIndex, rows, n, fixture) && PositionAccepted(k, processIndex, rows, n, fixture)
  {
  }

  lemma RowsRefused(k: Contract, processIndex: nat, rows: seq<BatchRow>, n: nat, fixture: Text -> Text)
    requires |k.cases| > 0 && n < |rows| && !PositionAccepted(k, processIndex, rows, n, fixture)
    ensures !RowsAccepted(k, processIndex, rows, |rows|, fixture)
  {
  }

  /** The validator's loop: batch by batch, with the ids seen so far in two sets. */
  method ValidateRows(k: Contract, processIndex: nat, rows: seq<BatchRow>, fixture: Text -> Text) returns (ok: bool)
    requires |k.cases| > 0
    ensures ok <==> RowsAccepted(k, processIndex, rows, |rows|, fixture) && Unique(Workers(rows))
  {
    var observers: set<nat>, realms: set<nat> := {}, {};
    for position := 0 to |rows|
      invariant RowsAccepted(k, processIndex, rows, position, fixture)
      invariant Seen(Workers(rows[..position]), observers, realms)
    {
      RowsNext(k, processIndex, rows, position, fixture);
      if !PositionAccepted(k, processIndex, rows, position, fixture) {
        RowsRefused(k, processIndex, rows, position, fixture);
        return false;
      }
      WorkersNext(rows, position);
      var isNew;
      isNew, observers, realms := SeeWorkers(rows[position].workers, Workers(rows[..position]), observers, realms);
      if !isNew {
        WorkersPrefix(rows, position + 1);
        return false;
      }
    }
    assert rows[..|rows|] == rows;
    ok := true;
  }

  method ValidateBootstrap(k: Contract, processIndex: nat, rows: seq<BatchRow>, fixture: Text -> Text) returns (ok: bool)
    requires |k.cases| > 0
    ensures ok <==> Accepted(k, processIndex, rows, fixture)
  {
    if processIndex >= k.processes || |rows| != |k.cases| * Samples(k) {
      return false;
    }
    ok := ValidateRows(k, processIndex, rows, fixture);
  }

  // ----- the producer -----

  /** What one observation leaves: a raw worker's clock readings, in the order they are taken, or the
      row with which a handshake resolved. */
  datatype Observation =
    | RawObserved(observer: nat, began: real, constructed: real, requested: real, answered: real, ended: real)
    | WrappedObserved(row: H.Row)

  /** The clock before and after the observations of a batch. */
  datatype Batch = Batch(before: real, after: real, seen: seq<Observation>)

  function ToWorker(k: Contract, name: Text, sample: nat, fixture: Text -> Text, o: Observation): WorkerRow {
    match o
    case RawObserved(observer, began, constructed, requested, answered, ended) =>
      WorkerRow(name, sample, sample < k.warmupSamples, fixture(name), observer, name != EMPTY_CASE,
                constructed - began, answered - requested, ended - began, None, None, None, None, None)
    case WrappedObserved(row) =>
      WorkerRow(name, sample, sample < k.warmupSamples, fixture(name), row.observer, name != EMPTY_CASE,
                row.constructorMs, row.requestRoundTripMs, row.journeyMs, Some(row.realm),
                Some(row.enteredMs), Some(row.readyMs), row.importMs, Some(row.executionMs))
  }

  function ToRow(k: Contract, name: Text, sample: nat, fixture: Text -> Text, b: Batch): BatchRow {
    BatchRow(name, sample, sample < k.warmupSamples, b.after - b.before,
             Map(b.seen, (o: Observation) => ToWorker(k, name, sample, fixture, o)))
  }

  /** A raw worker's times are the differences of its own readings; a wrapped worker's are those of its
      handshake. */
  ghost predicate TimesOf(w: WorkerRow, o: Observation) {
    match o
    case RawObserved(observer, began, constructed, requested, answered, ended) =>
      && w.observer == observer && w.constructorMs == constructed - began
      && w.requestRoundTripMs == answered - requested && w.journeyMs == ended - began
    case WrappedObserved(row) =>
      && w.observer == row.observer && w.realm == Some(row.realm) && w.constructorMs == row.constructorMs
      && w.enteredMs == Some(row.enteredMs) && w.readyMs == Some(row.readyMs) && w.importMs == row.importMs
      && w.executionMs == Some(row.executionMs) && w.requestRoundTripMs == row.requestRoundTripMs && w.journeyMs == row.journeyMs
  }

  ghost predicate BatchTimes(row: BatchRow, b: Batch) {
    && row.batchMs == b.after - b.before && |row.workers| == |b.seen|
    && forall i | 0 <= i < |b.seen| :: TimesOf(row.workers[i], b.seen[i])
  }

  /** Some run of the handshake resolved with this row. */
  ghost predicate Handshaken(row: H.Row, empty: bool) {
    exists s :: H.Reachable(s) && s.parent.outcome == H.Resolved(row) && s.parent.empty == empty
  }

  /** A raw worker is read off a clock that never runs back; a wrapped one comes out of a handshake. */
  ghost predicate Observed(name: Text, o: Observation) {
    if IsRaw(name) then o.RawObserved? && o.began <= o.constructed <= o.requested <= o.answered <= o.ended
    else o.WrappedObserved? && Handshaken(o.row, name == EMPTY_CASE)
  }

  ghost predicate Genuine(k: Contract, name: Text, b: Batch) {
    && b.before <= b.after && |b.seen| == WorkerCount(k, name)
    && forall i | 0 <= i < |b.seen| :: Observed(name, b.seen[i])
  }

  /** What is observed passes the validator, by the theorem about resolved handshakes. */
  lemma ObservedAccepted(k: Contract, name: Text, sample: nat, fixture: Text -> Text, b: Batch, i: nat)
    requires i < |b.seen| && Observed(name, b.seen[i])
    ensures WorkerAccepted(ToWorker(k, name, sample, fixture, b.seen[i]), ToRow(k, name, sample, fixture, b), fixture)
  {
    var o := b.seen[i];
    if !IsRaw(name) {
      var s :| H.Reachable(s) && s.parent.outcome == H.Resolved(o.row) && s.parent.empty == (name == EMPTY_CASE);
      H.ResolvedRowAccepted(s);
    }
  }

  lemma GenuineAccepted(k: Contract, processIndex: nat, sample: nat, slot: nat, fixture: Text -> Text, b: Batch)
    requires slot < |k.cases|
    requires Genuine(k, BootstrapOrder(k.cases, sample, processIndex)[slot], b)
    ensures RowAccepted(k, processIndex, sample, slot,
                        ToRow(k, BootstrapOrder(k.cases, sample, processIndex)[slot], sample, fixture, b), fixture)
  {
    var name := BootstrapOrder(k.cases, sample, processIndex)[slot];
    var row := ToRow(k, name, sample, fixture, b);
    forall w | w in row.workers ensures WorkerAccepted(w, row, fixture) {
      var i :| 0 <= i < |row.workers| && row.workers[i] == w;
      ObservedAccepted(k, name, sample, fixture, b, i);
    }
  }

  /** A flat position taken apart again. */
  lemma FlatPosition(sample: nat, slot: nat, n: nat)
    requires slot < n
    ensures (sample * n + slot) / n == sample && (sample * n + slot) % n == slot
  {
    ModUnique(sample * n + slot, sample, slot, n);
  }

  /** The batch at a position is a genuine observation of the case whose turn it is. */
  ghost predicate GenuineAt(k: Contract, processIndex: nat, batches: seq<Batch>, position: nat)
    requires |k.cases| > 0 && position < |batches|
  {
    Genuine(k, BootstrapOrder(k.cases, position / |k.cases|, processIndex)[position % |k.cases|], batches[position])
  }

  /** The main loop: every complete capture with fresh ids is one the validator accepts. */
  method Produce(k: Contract, processIndex: nat, batches: seq<Batch>, fixture: Text -> Text) returns (rows: seq<BatchRow>)
    requires |k.cases| > 0 && processIndex < k.processes && |batches| == |k.cases| * Samples(k)
    requires forall i | 0 <= i < |batches| :: GenuineAt(k, processIndex, batches, i)
    ensures Unique(Workers(rows)) ==> Accepted(k, processIndex, rows, fixture)
    ensures |rows| == |batches| && RowsAccepted(k, processIndex, rows, |rows|, fixture)
    ensures forall i | 0 <= i < |rows| :: rows[i] == ToRow(k, rows[i].name, rows[i].sample, fixture, batches[i])
    ensures forall i | 0 <= i < |rows| :: BatchTimes(rows[i], batches[i])
  {
    var n := |k.cases|;
    rows := [];
    for sample := 0 to Samples(k)
      invariant |rows| == Base(sample, n) && Filled(k, processIndex, rows, batches, fixture)
    {
      rows := ProduceSample(k, processIndex, sample, rows, batches, fixture);
    }
  }

  /** Where a sample's rows begin. */
  function Base(sample: nat, n: nat): nat { sample * n }

  lemma BaseNext(sample: nat, n: nat)
    ensures Base(sample + 1, n) == Base(sample, n) + n
  {
  }

  lemma PositionOf(sample: nat, slot: nat, n: nat, samples: nat)
    requires slot < n && sample < samples
    ensures var at := Base(sample, n) + slot; at < n * samples && at / n == sample && at % n == slot
  {
    FlatPosition(sample, slot, n);
    MulMonotone(sample + 1, samples, n);
  }

  /** One sample: every case once, in the order of this sample. */
  method ProduceSample(k: Contract, processIndex: nat, sample: nat, rows: seq<BatchRow>, batches: seq<Batch>, fixture: Text -> Text)
    returns (next: seq<BatchRow>)
    requires |k.cases| > 0 && sample < Samples(k) && |batches| == |k.cases| * Samples(k)
    requires |rows| == Base(sample, |k.cases|) && Filled(k, processIndex, rows, batches, fixture)
    requires forall i | 0 <= i < |batches| :: GenuineAt(k, processIndex, batches, i)
    ensures |next| == Base(sample + 1, |k.cases|) && Filled(k, processIndex, next, batches, fixture)
  {
    var n := |k.cases|;
    next := rows;
    for slot := 0 to n
      invariant |next| == Base(sample, n) + slot && Filled(k, processIndex, next, batches, fixture)
    {
      PositionOf(sample, slot, n, Samples(k));
      assert GenuineAt(k, processIndex, batches, |next|);
      next := PushRow(k, processIndex, sample, slot, next, batches, fixture);
    }
    BaseNext(sample, n);
  }

  ghost predicate Filled(k: Contract, processIndex: nat, rows: seq<BatchRow>, batches: seq<Batch>, fixture: Text -> Text)
    requires |k.cases| > 0
  {
    && |rows| <= |batches| && RowsAccepted(k, processIndex, rows, |rows|, fixture)
    && forall i | 0 <= i < |rows| :: rows[i] == ToRow(k, rows[i].name, rows[i].sample, fixture, batches[i])
  }

  method PushRow(k: Contract, processIndex: nat, sample: nat, slot: nat, rows: seq<BatchRow>, batches: seq<Batch>, fixture: Text -> Text)
    returns (next: seq<BatchRow>)
    requires |k.cases| > 0 && |rows| < |batches| && |rows| / |k.cases| == sample && |rows| % |k.cases| == slot
    requires Filled(k, processIndex, rows, batches, fixture)
    requires GenuineAt(k, processIndex, batches, |rows|)
    ensures |next| == |rows| + 1 && Filled(k, processIndex, next, batches, fixture)
  {
    var name := BootstrapOrder(k.cases, sample, processIndex)[slot];
    var row := ToRow(k, name, sample, fixture, batches[|rows|]);
    next := rows + [row];
    GenuineAccepted(k, processIndex, sample, slot, fixture, batches[|rows|]);
    forall i | 0 <= i < |next| ensures PositionAccepted(k, processIndex, next, i, fixture) {
      assert i < |rows| ==> PositionAccepted(k, processIndex, rows, i, fixture);
    }
  }

  // ----- captures exist -----

  /** One observation of a case, under an id of its own. */
  lemma CanObserve(name: Text, id: nat) returns (o: Observation)
    ensures Observed(name, o)
    ensures o == if IsRaw(name) then RawObserved(id, 0.0, 0.0, 0.0, 0.0, 0.0) else WrappedObserved(o.row)
    ensures o.WrappedObserved? ==> o.row.observer == id && o.row.realm == id
  {
    if IsRaw(name) {
      o := RawObserved(id, 0.0, 0.0, 0.0, 0.0, 0.0);
    } else {
      var s := H.HandshakeResolves(id, id, name == EMPTY_CASE);
      o := WrappedObserved(s.parent.outcome.row);
    }
  }

  /** The ids of the observations are `from`, `from + 1` and so on. */
  ghost predicate Numbered(seen: seq<Observation>, from: nat) {
    forall i | 0 <= i < |seen| :: IdOf(seen[i]) == from + i && (seen[i].WrappedObserved? ==> seen[i].row.realm == from + i)
  }

  function IdOf(o: Observation): nat {
    match o case RawObserved(observer, _, _, _, _, _) => observer case WrappedObserved(row) => row.observer
  }

  lemma {:induction false} CanObserveAll(name: Text, from: nat, n: nat) returns (seen: seq<Observation>)
    ensures |seen| == n && Numbered(seen, from) && forall i | 0 <= i < n :: Observed(name, seen[i])
  {
    if n == 0 {
      seen := [];
    } else {
      var before := CanObserveAll(name, from, n - 1);
      var o := CanObserve(name, from + n - 1);
      seen := before + [o];
    }
  }

  /** How many workers the first batches have. */
  function Observations(batches: seq<Batch>): nat {
    if batches == [] then 0 else Observations(batches[..|batches| - 1]) + |batches[|batches| - 1].seen|
  }

  ghost predicate NumberedAll(batches: seq<Batch>) {
    forall i | 0 <= i < |batches| :: Numbered(batches[i].seen, Observations(batches[..i]))
  }

  /** A genuine batch for every turn, the ids counting on from batch to batch. */
  lemma {:induction false} CanCapture(k: Contract, processIndex: nat, n: nat) returns (batches: seq<Batch>)
    requires |k.cases| > 0
    ensures |batches| == n && NumberedAll(batches)
    ensures forall i | 0 <= i < n :: GenuineAt(k, processIndex, batches, i)
  {
    if n == 0 {
      batches := [];
    } else {
      var before := CanCapture(k, processIndex, n - 1);
      var name := BootstrapOrder(k.cases, (n - 1) / |k.cases|, processIndex)[(n - 1) % |k.cases|];
      var seen := CanObserveAll(name, Observations(before), WorkerCount(k, name));
      batches := before + [Batch(0.0, 0.0, seen)];
      CaptureNext(k, processIndex, before, Batch(0.0, 0.0, seen));
    }
  }

  lemma CaptureNext(k: Contract, processIndex: nat, before: seq<Batch>, b: Batch)
    requires |k.cases| > 0 && NumberedAll(before) && Numbered(b.seen, Observations(before))
    requires forall i | 0 <= i < |before| :: GenuineAt(k, processIndex, before, i)
    requires Genuine(k, BootstrapOrder(k.cases, |before| / |k.cases|, processIndex)[|before| % |k.cases|], b)
    ensures NumberedAll(before + [b])
    ensures forall i | 0 <= i < |before + [b]| :: GenuineAt(k, processIndex, before + [b], i)
  {
    var batches := before + [b];
    forall i | 0 <= i < |batches|
      ensures Numbered(batches[i].seen, Observations(batches[..i])) && GenuineAt(k, processIndex, batches, i)
    {
      if i < |before| {
        assert batches[..i] == before[..i] && GenuineAt(k, processIndex, before, i);
      } else {
        assert batches[..i] == before;
      }
    }
  }

  /** Rows made of numbered batches. */
  ghost predicate RowsFrom(k: Contract, rows: seq<BatchRow>, batches: seq<Batch>, fixture: Text -> Text) {
    |rows| == |batches| && forall i | 0 <= i < |rows| :: rows[i] == ToRow(k, rows[i].name, rows[i].sample, fixture, batches[i])
  }

  /** Counting ids are distinct, and so are the realms among them. */
  ghost predicate Counting(ws: seq<WorkerRow>) {
    forall i | 0 <= i < |ws| :: ws[i].observer == i && (ws[i].realm.Some? ==> ws[i].realm.value == i)
  }

  lemma {:induction false} RowsCount(k: Contract, rows: seq<BatchRow>, batches: seq<Batch>, fixture: Text -> Text)
    requires RowsFrom(k, rows, batches, fixture) && NumberedAll(batches)
    ensures |Workers(rows)| == Observations(batches) && Counting(Workers(rows))
    decreases |rows|
  {
    if rows != [] {
      var n := |rows| - 1;
      PrefixNumbered(batches, n);
      RowsCount(k, rows[..n], batches[..n], fixture);
      assert Numbered(batches[n].seen, Observations(batches[..n]));
      CountOn(k, Workers(rows[..n]), rows[n], batches[n], fixture);
    }
  }

  lemma PrefixNumbered(batches: seq<Batch>, n: nat)
    requires NumberedAll(batches) && n <= |batches|
    ensures NumberedAll(batches[..n])
  {
    forall i | 0 <= i < n ensures Numbered(batches[..n][i].seen, Observations(batches[..n][..i])) {
      assert batches[..n][..i] == batches[..i];
    }
  }

  lemma CountOn(k: Contract, ws: seq<WorkerRow>, row: BatchRow, b: Batch, fixture: Text -> Text)
    requires Counting(ws) && Numbered(b.seen, |ws|) && row == ToRow(k, row.name, row.sample, fixture, b)
    ensures Counting(ws + row.workers)
  {
  }

  lemma {:induction false} RealmsBelow(ws: seq<WorkerRow>)
    requires Counting(ws)
    ensures Distinct(Realms(ws)) && forall i | 0 <= i < |Realms(ws)| :: Realms(ws)[i] < |ws|
  {
    if ws != [] {
      RealmsBelow(ws[..|ws| - 1]);
    }
  }

  /** Every contract has a capture that the validator accepts. */
  lemma AcceptedCaptureExists(k: Contract, processIndex: nat, fixture: Text -> Text)
    requires |k.cases| > 0 && processIndex < k.processes
    ensures exists rows :: Accepted(k, processIndex, rows, fixture)
  {
    var batches := CanCapture(k, processIndex, |k.cases| * Samples(k));
    var rows := MadeRows(k, processIndex, batches, |batches|, fixture);
    RowsCount(k, rows, batches, fixture);
    RealmsBelow(Workers(rows));
    assert Unique(Workers(rows));
    assert Accepted(k, processIndex, rows, fixture);
  }

  lemma {:induction false} MadeRows(k: Contract, processIndex: nat, batches: seq<Batch>, n: nat, fixture: Text -> Text)
    returns (rows: seq<BatchRow>)
    requires |k.cases| > 0 && n <= |batches| && forall i | 0 <= i < |batches| :: GenuineAt(k, processIndex, batches, i)
    ensures RowsFrom(k, rows, batches[..n], fixture) && RowsAccepted(k, processIndex, rows, |rows|, fixture)
    ensures n == |batches| ==> RowsFrom(k, rows, batches, fixture)
  {
    if n == 0 {
      rows := [];
    } else {
      var before := MadeRows(k, processIndex, batches, n - 1, fixture);
      var sample, slot := (n - 1) / |k.cases|, (n - 1) % |k.cases|;
      var name := BootstrapOrder(k.cases, sample, processIndex)[slot];
      assert GenuineAt(k, processIndex, batches, n - 1);
      GenuineAccepted(k, processIndex, sample, slot, fixture, batches[n - 1]);
      rows := before + [ToRow(k, name, sample, fixture, batches[n - 1])];
      forall i | 0 <= i < |rows| ensures PositionAccepted(k, processIndex, rows, i, fixture) {
        assert i < |before| ==> PositionAccepted(k, processIndex, before, i, fixture);
      }
      assert forall i | 0 <= i < n :: batches[..n][i] == batches[i];
    }
    assert n == |batches| ==> batches[..n] == batches;
  }
}
