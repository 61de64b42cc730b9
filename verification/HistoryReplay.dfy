/**
 The cost model of history validation: which prefixes the validator asks for, what replaying
 each of them costs, and what one forward cursor costs.
 */
module HistoryReplay {
  import opened Text
  import opened Sequences

  datatype WorkEvent = WorkEvent(kind: Text, scoped: bool, outcomeSucceeded: bool)

  datatype Work = Work(
    inputEvents: nat, prefixRequests: nat, currentFullFoldCalls: nat, currentEventVisits: nat,
    replayedPrefixEventVisits: nat, proposedEventVisits: nat, cursorEventVisits: nat)

  const EXCLUSIVE_KINDS: set<Text> := {
    Ascii("choice_selected"), Ascii("fork_opened"), Ascii("fork_join_settled"), Ascii("saga_started"),
    Ascii("correction_attempt_started"), Ascii("saga_correction_completed"), Ascii("run_outcome_decided"),
    Ascii("parallel_group_started"), Ascii("step_attempt_started"), Ascii("approval_requested"),
    Ascii("approval_review_requested"), Ascii("wait_registered"), Ascii("lifecycle_action_attempt_started"),
    Ascii("lifecycle_hook_completed")
  }

  predicate AsksExclusive(e: WorkEvent) {
    e.kind in EXCLUSIVE_KINDS || (e.kind == Ascii("fork_branch_settled") && e.outcomeSucceeded)
  }

  predicate AsksInclusive(e: WorkEvent) {
    !AsksExclusive(e) && e.kind == Ascii("run_succeeded")
  }

  /** What the event at a position asks for. */
  function Asked(e: WorkEvent, index: nat): seq<nat> {
    if e.scoped then []
    else if AsksExclusive(e) then [index]
    else if AsksInclusive(e) then [index + 1]
    else []
  }

  /** The prefix lengths the validator asks for, in order. */
  function Requests(events: seq<WorkEvent>): seq<nat> {
    if events == [] then []
    else Requests(events[..|events| - 1]) + Asked(events[|events| - 1], |events| - 1)
  }

  ghost predicate NonDecreasing(s: seq<nat>) {
    forall i, j | 0 <= i < j < |s| :: s[i] <= s[j]
  }

  ghost predicate Within(s: seq<nat>, low: nat, high: nat) {
    forall i | 0 <= i < |s| :: low <= s[i] <= high
  }

  function Last(s: seq<nat>): nat {
    if s == [] then 0 else s[|s| - 1]
  }

  /** Prefixes are asked for in the order of their lengths, and lie within the history. */
  lemma {:induction false} RequestsGrow(events: seq<WorkEvent>)
    ensures NonDecreasing(Requests(events))
    ensures Within(Requests(events), 0, |events|)
    ensures |Requests(events)| <= |events|
  {
    if events != [] {
      var before := events[..|events| - 1];
      RequestsGrow(before);
      var more := Asked(events[|before|], |before|);
      assert |more| <= 1 && Within(more, |before|, |before| + 1);
      GrowBy(Requests(before), more, |before|);
    }
  }

  lemma GrowBy(lengths: seq<nat>, more: seq<nat>, n: nat)
    requires NonDecreasing(lengths) && Within(lengths, 0, n) && |more| <= 1 && Within(more, n, n + 1)
    ensures NonDecreasing(lengths + more) && Within(lengths + more, 0, n + 1)
  {
  }

  /** The positions of the events that ask for a prefix. */
  function Askers(events: seq<WorkEvent>): (r: seq<nat>)
    ensures forall i | 0 <= i < |r| :: r[i] < |events|
  {
    if events == [] then []
    else Askers(events[..|events| - 1]) + if Asks(events[|events| - 1]) then [|events| - 1] else []
  }

  /** The events outside every loop whose kind is exclusive, a successful branch of a fork, or the
      success of the run. */
  predicate Asks(e: WorkEvent) {
    && !e.scoped
    && (e.kind in EXCLUSIVE_KINDS || e.kind == Ascii("run_succeeded") || (e.kind == Ascii("fork_branch_settled") && e.outcomeSucceeded))
  }

  lemma AskedBy(e: WorkEvent, k: nat)
    ensures Asked(e, k) == if !Asks(e) then [] else if AsksExclusive(e) then [k] else [k + 1]
  {
  }

  /** The askers are all the events that ask, once each and in order. */
  lemma {:induction false} AskersAre(events: seq<WorkEvent>)
    ensures forall i, j | 0 <= i < j < |Askers(events)| :: Askers(events)[i] < Askers(events)[j]
    ensures forall k :: k in Askers(events) <==> 0 <= k < |events| && Asks(events[k])
  {
    if events != [] {
      AskersAre(events[..|events| - 1]);
    }
  }

  /** Each request is made by one event: for the events before it, or, when a run has succeeded, for
      those up to and including it. */
  lemma {:induction false} RequestsMean(events: seq<WorkEvent>)
    ensures |Requests(events)| == |Askers(events)|
    ensures forall i | 0 <= i < |Requests(events)| ::
              Requests(events)[i] == Askers(events)[i] + if AsksExclusive(events[Askers(events)[i]]) then 0 else 1
  {
    if events != [] {
      var before := events[..|events| - 1];
      RequestsMean(before);
      AskedBy(events[|before|], |before|);
      forall i | 0 <= i < |Requests(events)|
        ensures Requests(events)[i] == Askers(events)[i] + if AsksExclusive(events[Askers(events)[i]]) then 0 else 1
      {
        if i < |Requests(before)| {
          assert Askers(events)[i] == Askers(before)[i] && before[Askers(before)[i]] == events[Askers(before)[i]];
        }
      }
    }
  }

  // ----- the histories of sequential runs -----

  /** What the elements of a list ask for, each by its position. */
  function Collect<E>(events: seq<E>, asked: (E, nat) -> seq<nat>): seq<nat> {
    if events == [] then []
    else Collect(events[..|events| - 1], asked) + asked(events[|events| - 1], |events| - 1)
  }

  lemma {:induction false} RequestsCollect(events: seq<WorkEvent>)
    ensures Requests(events) == Collect(events, Asked)
  {
    if events != [] {
      RequestsCollect(events[..|events| - 1]);
    }
  }

  /** Of a pair in a row the first asks for what precedes it, the second for nothing. */
  ghost predicate FirstAsks<E>(a: E, b: E, asked: (E, nat) -> seq<nat>) {
    forall k: nat :: asked(a, k) == [k] && asked(b, k) == []
  }

  lemma {:induction false} CollectPair<E>(events: seq<E>, a: E, b: E, asked: (E, nat) -> seq<nat>)
    requires FirstAsks(a, b, asked)
    ensures Collect(events + [a, b], asked) == Collect(events, asked) + [|events|]
  {
    assert (events + [a, b])[..|events| + 1] == events + [a];
    assert (events + [a])[..|events|] == events;
  }

  /** A head, then `n` times the same pair. */
  function Repeated<E>(head: seq<E>, a: E, b: E, n: nat): (events: seq<E>)
    ensures |events| == |head| + 2 * n
  {
    if n == 0 then head else Repeated(head, a, b, n - 1) + [a, b]
  }

  /** One request before each of `n` steps. */
  function Starts(n: nat): (r: seq<nat>)
    ensures |r| == n && forall i | 0 <= i < n :: r[i] == 2 * i + 2
  {
    if n == 0 then [] else Starts(n - 1) + [2 * n]
  }

  lemma {:induction false} SumStarts(n: nat)
    ensures Sum(Starts(n)) == n * n + n
  {
    if n > 0 {
      SumStarts(n - 1);
      SumAppend(Starts(n - 1), [2 * n]);
      assert n * n == (n - 1) * (n - 1) + 2 * n - 1;
    }
  }

  lemma {:induction false} CollectRepeated<E>(head: seq<E>, a: E, b: E, n: nat, asked: (E, nat) -> seq<nat>)
    requires |head| == 2 && Collect(head, asked) == [] && FirstAsks(a, b, asked)
    ensures Collect(Repeated(head, a, b, n), asked) == Starts(n)
  {
    if n > 0 {
      var before := Repeated(head, a, b, n - 1);
      CollectRepeated(head, a, b, n - 1, asked);
      CollectPair(before, a, b, asked);
      assert Repeated(head, a, b, n) == before + [a, b] && |before| == 2 * n;
    }
  }

  function Plain(kind: Text): WorkEvent { WorkEvent(kind, false, false) }

  const BEGIN: seq<WorkEvent> := [Plain(Ascii("run_admitted")), Plain(Ascii("run_execution_started"))]
  const STARTED: WorkEvent := Plain(Ascii("step_attempt_started"))
  const SUCCEEDED: WorkEvent := Plain(Ascii("step_attempt_succeeded"))
  const DECIDED: WorkEvent := Plain(Ascii("run_outcome_decided"))
  const FINALIZED: WorkEvent := Plain(Ascii("run_finalized"))

  /** A policy-managed run of `n` steps, each of which starts and succeeds. */
  function Sequential(n: nat): seq<WorkEvent> {
    Repeated(BEGIN, STARTED, SUCCEEDED, n) + [DECIDED, FINALIZED]
  }

  lemma KindsAsk()
    ensures Asked(BEGIN[0], 0) == [] && Asked(BEGIN[1], 1) == []
    ensures FirstAsks(STARTED, SUCCEEDED, Asked) && FirstAsks(DECIDED, FINALIZED, Asked)
  {
    assert Ascii("run_admitted")[0] != Ascii("saga_started")[0];
    assert Ascii("step_attempt_succeeded")[0] != Ascii("parallel_group_started")[0];
    assert Ascii("run_finalized")[4] != Ascii("run_succeeded")[4];
  }

  lemma BeginQuiet<E>(head: seq<E>, asked: (E, nat) -> seq<nat>)
    requires |head| == 2 && asked(head[0], 0) == [] && asked(head[1], 1) == []
    ensures Collect(head, asked) == []
  {
    assert head[..1][..0] == [];
    assert Collect(head[..1], asked) == [];
  }

  /** A run of `n` steps in sequence asks for `n + 1` prefixes. Replaying them visits quadratically
      many events, the cursor no event twice. */
  lemma SequentialWork(n: nat)
    ensures |Sequential(n)| == 2 * n + 4
    ensures Requests(Sequential(n)) == Starts(n) + [2 * n + 2]
    ensures Sum(Requests(Sequential(n))) == n * n + 3 * n + 2
    ensures Last(Requests(Sequential(n))) == 2 * n + 2
  {
    KindsAsk();
    BeginQuiet(BEGIN, Asked);
    CollectRepeated(BEGIN, STARTED, SUCCEEDED, n, Asked);
    CollectPair(Repeated(BEGIN, STARTED, SUCCEEDED, n), DECIDED, FINALIZED, Asked);
    RequestsCollect(Sequential(n));
    SumStarts(n);
    SumAppend(Starts(n), [2 * n + 2]);
  }

  // ----- the two strategies, for any fold -----

  function FoldEvents<S, E>(state: S, events: seq<E>, step: (S, E) -> S): S {
    if events == [] then state
    else step(FoldEvents(state, events[..|events| - 1], step), events[|events| - 1])
  }

  /** A state and how often a step has been applied. */
  datatype Meter<S> = Meter(state: S, steps: nat)

  /** A step that also counts how often it is applied. */
  function Metered<S, E>(step: (S, E) -> S): (Meter<S>, E) -> Meter<S> {
    (m: Meter<S>, e: E) => Meter(step(m.state, e), m.steps + 1)
  }

  /** Each request folds its whole prefix again: the states reached, and the meter at the end. */
  function Replay<S, E>(init: S, meter: nat, events: seq<E>, step: (S, E) -> S, lengths: seq<nat>): (r: (seq<S>, nat))
    requires Within(lengths, 0, |events|)
    decreases |lengths|
  {
    if lengths == [] then ([], meter)
    else
      var Meter(here, after) := FoldEvents(Meter(init, meter), events[..lengths[0]], Metered(step));
      var (states, total) := Replay(init, after, events, step, lengths[1..]);
      ([here] + states, total)
  }

  /** One cursor moves forward from request to request. */
  function Cursor<S, E>(state: S, meter: nat, pos: nat, events: seq<E>, step: (S, E) -> S, lengths: seq<nat>): (r: (seq<S>, nat))
    requires Within(lengths, pos, |events|)
    requires NonDecreasing(lengths)
    decreases |lengths|
  {
    if lengths == [] then ([], meter)
    else
      assert pos <= lengths[0] <= |events|;
      var Meter(here, after) := FoldEvents(Meter(state, meter), events[pos..lengths[0]], Metered(step));
      assert forall i | 0 <= i < |lengths[1..]| :: lengths[1..][i] == lengths[i + 1];
      var (states, total) := Cursor(here, after, lengths[0], events, step, lengths[1..]);
      ([here] + states, total)
  }

  /** A fold applies its step once per event, and the meter changes nothing else. */
  lemma {:induction false} FoldSteps<S, E>(state: S, meter: nat, events: seq<E>, step: (S, E) -> S)
    ensures FoldEvents(Meter(state, meter), events, Metered(step)) == Meter(FoldEvents(state, events, step), meter + |events|)
  {
    if events != [] {
      FoldSteps(state, meter, events[..|events| - 1], step);
    }
  }

  lemma {:induction false} FoldSplit<S, E>(state: S, events: seq<E>, step: (S, E) -> S, pos: nat, n: nat)
    requires pos <= n <= |events|
    ensures FoldEvents(FoldEvents(state, events[..pos], step), events[pos..n], step)
            == FoldEvents(state, events[..n], step)
    decreases n
  {
    if pos < n {
      FoldSplit(state, events, step, pos, n - 1);
      assert events[pos..n][..n - pos - 1] == events[pos..n - 1];
      assert events[..n][..n - 1] == events[..n - 1];
    } else {
      assert events[pos..n] == [];
    }
  }

  /** At every request the cursor is in the state a fresh replay of that prefix reaches, and over
      all requests it applies the step once per event up to the last. */
  lemma {:induction false} CursorRefinesReplay<S, E>(
    init: S, meter: nat, other: nat, events: seq<E>, step: (S, E) -> S, pos: nat, lengths: seq<nat>)
    requires Within(lengths, pos, |events|)
    requires NonDecreasing(lengths) && pos <= |events|
    ensures Cursor(FoldEvents(init, events[..pos], step), meter, pos, events, step, lengths).0
            == Replay(init, other, events, step, lengths).0
    ensures Cursor(FoldEvents(init, events[..pos], step), meter, pos, events, step, lengths).1
            == if lengths == [] then meter else meter + Last(lengths) - pos
    decreases |lengths|
  {
    if lengths != [] {
      var n, rest := lengths[0], lengths[1..];
      assert forall i | 0 <= i < |rest| :: rest[i] == lengths[i + 1];
      FoldSplit(init, events, step, pos, n);
      FoldSteps(FoldEvents(init, events[..pos], step), meter, events[pos..n], step);
      FoldSteps(init, other, events[..n], step);
      CursorRefinesReplay(init, meter + n - pos, other + n, events, step, n, rest);
      assert rest != [] ==> Last(rest) == Last(lengths);
    }
  }

  /** Replaying applies the step as often as the requested lengths add up to. */
  lemma {:induction false} ReplaySteps<S, E>(init: S, meter: nat, events: seq<E>, step: (S, E) -> S, lengths: seq<nat>)
    requires Within(lengths, 0, |events|)
    ensures Replay(init, meter, events, step, lengths).1 == meter + Sum(lengths)
    decreases |lengths|
  {
    if lengths != [] {
      FoldSteps(init, meter, events[..lengths[0]], step);
      ReplaySteps(init, meter + lengths[0], events, step, lengths[1..]);
    }
  }

  /** After a first full fold, answering the requests by replay brings the step applications to
      `current`, by cursor to `proposed`, and both reach the same states. */
  ghost predicate StepsTaken<S, E>(init: S, events: seq<E>, step: (S, E) -> S, lengths: seq<nat>, current: nat, proposed: nat) {
    && Within(lengths, 0, |events|) && NonDecreasing(lengths)
    && var gate := FoldEvents(Meter(init, 0), events, Metered(step)).steps;
    && Replay(init, gate, events, step, lengths).1 == current
    && Cursor(init, gate, 0, events, step, lengths).1 == proposed
    && Cursor(init, gate, 0, events, step, lengths).0 == Replay(init, gate, events, step, lengths).0
  }

  lemma StrategySteps<S, E>(init: S, events: seq<E>, step: (S, E) -> S, lengths: seq<nat>)
    requires Within(lengths, 0, |events|) && NonDecreasing(lengths)
    ensures Sum(lengths) >= 0
    ensures StepsTaken(init, events, step, lengths, |events| + Sum(lengths), |events| + Last(lengths))
  {
    LastWithinSum(lengths);
    FoldSteps(init, 0, events, step);
    ReplaySteps(init, |events|, events, step, lengths);
    assert FoldEvents(init, events[..0], step) == init;
    CursorRefinesReplay(init, |events|, |events|, events, step, 0, lengths);
  }

  lemma {:induction false} LastWithinSum(lengths: seq<nat>)
    ensures Last(lengths) <= Sum(lengths) && Sum(lengths) >= 0
  {
    if lengths != [] {
      LastWithinSum(lengths[1..]);
    }
  }

  // ----- the analysis -----

  method AnalyzeHistoryWork(events: seq<WorkEvent>) returns (work: Work)
    ensures work.inputEvents == |events|
    ensures work.prefixRequests == |Requests(events)| && work.currentFullFoldCalls == 1 + |Requests(events)|
    ensures work.replayedPrefixEventVisits == Sum(Requests(events))
    ensures work.cursorEventVisits == Last(Requests(events))
    ensures Counts(events, work)
    ensures work.proposedEventVisits <= work.currentEventVisits && work.proposedEventVisits <= 2 * |events|
  {
    var prefixRequests, replayed, cursor := 0, 0, 0;
    for index := 0 to |events|
      invariant prefixRequests == |Requests(events[..index])|
      invariant replayed == Sum(Requests(events[..index]))
      invariant cursor == Last(Requests(events[..index])) && cursor <= index
    {
      var event := events[index];
      assert events[..index + 1][..index] == events[..index];
      if event.scoped {
        assert Requests(events[..index + 1]) == Requests(events[..index]);
        continue;
      }
      var length := if AsksExclusive(event) then index
                    else if event.kind == Ascii("run_succeeded") then index + 1 else -1;
      if length < 0 {
        assert Requests(events[..index + 1]) == Requests(events[..index]);
        continue;
      }
      assert Requests(events[..index + 1]) == Requests(events[..index]) + [length];
      SumAppend(Requests(events[..index]), [length]);
      prefixRequests := prefixRequests + 1;
      replayed := replayed + length;
      cursor := if cursor < length then length else cursor;
    }
    assert events[..|events|] == events;
    LastWithinSum(Requests(events));
    work := Work(|events|, prefixRequests, 1 + prefixRequests, |events| + replayed, replayed, |events| + cursor, cursor);
  }

  /** What the analysis reports: the sum of the requested lengths, and the last of them. */
  ghost predicate Counts(events: seq<WorkEvent>, work: Work) {
    && work.currentEventVisits == |events| + Sum(Requests(events))
    && work.proposedEventVisits == |events| + Last(Requests(events))
  }

  /** The reported counters are the step applications of the two strategies, the first full fold
      included, whatever is folded; and the two reach the same states. */
  lemma CountersAreSteps<S>(events: seq<WorkEvent>, work: Work, init: S, step: (S, WorkEvent) -> S)
    requires Counts(events, work)
    ensures StepsTaken(init, events, step, Requests(events), work.currentEventVisits, work.proposedEventVisits)
  {
    RequestsGrow(events);
    StrategySteps(init, events, step, Requests(events));
  }
}
