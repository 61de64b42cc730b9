/**
 The observer of terminal callbacks. A callback may arrive before or after its run is awaited; the
 run's observer gets it either way, unless its time runs out first.
 */
module TerminalObserver {
  import opened Options
  import opened Text
  import opened Sequences

  datatype Terminal = Terminal(status: Text, at: real)

  datatype Progress = RunTerminal(runId: Text, status: Text) | OtherProgress

  datatype Settlement = Resolved(value: Terminal) | TimedOut

  // ----- the observer as a state machine -----

  /** Each observer's promise is pending or settled; `waiting` names the promise that a run's
      callback will settle. `settled` counts how often each promise was settled. */
  datatype State = State(
    completed: map<Text, Terminal>,
    waiting: map<Text, nat>,
    awaited: seq<Text>,
    promises: seq<Option<Settlement>>,
    settled: seq<nat>)

  function Initial(): State { State(map[], map[], [], [], []) }

  datatype Step = Record(progress: Progress, now: real) | Wait(runId: Text) | Timeout(runId: Text)

  datatype Answer = Done | Now(value: Terminal) | Promised(index: nat) | Thrown

  function Settle(s: State, index: nat, outcome: Settlement): State
    requires index < |s.promises| && index < |s.settled|
  {
    s.(promises := s.promises[index := Some(outcome)], settled := s.settled[index := s.settled[index] + 1])
  }

  ghost predicate Valid(s: State) {
    && |s.promises| == |s.settled| == |s.awaited|
    && (forall id | id in s.waiting :: s.waiting[id] < |s.promises| && s.awaited[s.waiting[id]] == id)
    && (forall id | id in s.waiting :: s.promises[s.waiting[id]].None? && id !in s.completed)
    && (forall i | 0 <= i < |s.promises| :: s.settled[i] == if s.promises[i].Some? then 1 else 0)
    && (forall i | 0 <= i < |s.promises| && s.promises[i].None? ::
          s.awaited[i] in s.waiting && s.waiting[s.awaited[i]] == i)
    && forall i | 0 <= i < |s.promises| && s.promises[i].Some? && s.promises[i].value.Resolved? ::
         s.awaited[i] in s.completed && s.completed[s.awaited[i]] == s.promises[i].value.value
  }

  function Apply(s: State, step: Step): (State, Answer)
    requires Valid(s)
  {
    match step
    case Record(OtherProgress, _) => (s, Done)
    case Record(RunTerminal(id, status), now) =>
      if id in s.completed then (s, Thrown)
      else
        var value := Terminal(status, now);
        var noted := s.(completed := s.completed[id := value]);
        if id !in s.waiting then (noted, Done)
        else (Settle(noted.(waiting := s.waiting - {id}), s.waiting[id], Resolved(value)), Done)
    case Wait(id) =>
      if id in s.completed then (s, Now(s.completed[id]))
      else if id in s.waiting then (s, Thrown)
      else
        var index := |s.promises|;
        (State(s.completed, s.waiting[id := index], s.awaited + [id], s.promises + [None], s.settled + [0]), Promised(index))
    case Timeout(id) =>
      if id !in s.waiting then (s, Done)
      else (Settle(s.(waiting := s.waiting - {id}), s.waiting[id], TimedOut), Done)
  }

  lemma StepValid(s: State, step: Step)
    requires Valid(s)
    ensures Valid(Apply(s, step).0)
  {
    match step
    case Record(RunTerminal(id, status), now) => RecordValid(s, id, status, now);
    case Wait(id) =>
    case Timeout(id) => TimeoutValid(s, id);
    case Record(OtherProgress, _) =>
  }

  lemma RecordValid(s: State, id: Text, status: Text, now: real)
    requires Valid(s)
    ensures Valid(Apply(s, Record(RunTerminal(id, status), now)).0)
  {
  }

  lemma TimeoutValid(s: State, id: Text)
    requires Valid(s)
    ensures Valid(Apply(s, Timeout(id)).0)
  {
  }

  // ----- whole runs -----

  function Run(steps: seq<Step>): (s: State)
    ensures Valid(s)
  {
    if steps == [] then Initial()
    else
      var before := Run(steps[..|steps| - 1]);
      StepValid(before, steps[|steps| - 1]);
      Apply(before, steps[|steps| - 1]).0
  }

  lemma RunNext(steps: seq<Step>, step: Step)
    ensures Run(steps + [step]) == Apply(Run(steps), step).0
  {
    assert (steps + [step])[..|steps|] == steps;
  }

  lemma ValueStays(s: State, step: Step, id: Text)
    requires Valid(s) && id in s.completed
    ensures id in Apply(s, step).0.completed && Apply(s, step).0.completed[id] == s.completed[id]
  {
  }

  lemma RecordSettles(s: State, index: nat, status: Text, now: real)
    requires Valid(s) && index < |s.promises| && s.awaited[index] !in s.completed
    ensures var t := Apply(s, Record(RunTerminal(s.awaited[index], status), now)).0;
            && index < |t.promises|
            && t.promises[index] == Some(if s.promises[index].None? then Resolved(Terminal(status, now)) else TimedOut)
  {
  }

  /** Once a run has completed, its value never changes. */
  lemma {:induction false} CompletedStays(steps: seq<Step>, more: seq<Step>, id: Text)
    requires id in Run(steps).completed
    ensures id in Run(steps + more).completed && Run(steps + more).completed[id] == Run(steps).completed[id]
    decreases |more|
  {
    if more == [] {
      assert steps + more == steps;
    } else {
      var front, last := more[..|more| - 1], more[|more| - 1];
      CompletedStays(steps, front, id);
      AppendLast(steps, more);
      RunNext(steps + front, last);
      ValueStays(Run(steps + front), last, id);
    }
  }

  /** Once a promise is settled, it stays as it is. */
  lemma {:induction false} SettledStays(steps: seq<Step>, more: seq<Step>, index: nat)
    requires index < |Run(steps).promises|
    ensures index < |Run(steps + more).promises| && Run(steps + more).awaited[index] == Run(steps).awaited[index]
    ensures Run(steps).promises[index].Some? ==> Run(steps + more).promises[index] == Run(steps).promises[index]
    decreases |more|
  {
    if more == [] {
      assert steps + more == steps;
    } else {
      var front, last := more[..|more| - 1], more[|more| - 1];
      SettledStays(steps, front, index);
      AppendLast(steps, more);
      RunNext(steps + front, last);
      PromiseStays(Run(steps + front), last, index);
    }
  }

  lemma PromiseStays(s: State, step: Step, index: nat)
    requires Valid(s) && index < |s.promises|
    ensures var t := Apply(s, step).0;
            && index < |t.promises| == |t.awaited| && t.awaited[index] == s.awaited[index]
            && (s.promises[index].Some? ==> t.promises[index] == s.promises[index])
  {
  }

  /** No run is ever both awaited and completed, and no promise is settled twice. */
  lemma NeverBoth(steps: seq<Step>, id: Text, index: nat)
    ensures !(id in Run(steps).waiting && id in Run(steps).completed)
    ensures index < |Run(steps).promises| ==> Run(steps).settled[index] <= 1
  {
  }

  /** A terminal that arrives first is handed over at once, whatever happens in between. */
  lemma RecordedThenAwaited(steps: seq<Step>, id: Text, status: Text, now: real, more: seq<Step>)
    requires id !in Run(steps).completed
    ensures var later := Run(steps + [Record(RunTerminal(id, status), now)] + more);
            Apply(later, Wait(id)).1 == Now(Terminal(status, now))
  {
    var recorded := steps + [Record(RunTerminal(id, status), now)];
    RunNext(steps, Record(RunTerminal(id, status), now));
    CompletedStays(recorded, more, id);
  }

  /** A terminal that arrives later settles the promise with the same value, and for good, unless
      the promise had timed out: then it stays timed out. */
  lemma AwaitedThenRecorded(steps: seq<Step>, index: nat, status: Text, now: real, more: seq<Step>)
    requires index < |Run(steps).promises|
    requires Run(steps).awaited[index] !in Run(steps).completed
    ensures var id := Run(steps).awaited[index];
            var later := Run(steps + [Record(RunTerminal(id, status), now)] + more);
            && index < |later.promises|
            && later.promises[index] == Some(
                 if Run(steps).promises[index].None? then Resolved(Terminal(status, now)) else TimedOut)
  {
    var id := Run(steps).awaited[index];
    var step := Record(RunTerminal(id, status), now);
    RunNext(steps, step);
    RecordSettles(Run(steps), index, status, now);
    SettledStays(steps + [step], more, index);
  }

  // ----- the observer itself -----

  class Observer {
    var completed: map<Text, Terminal>
    var waiting: map<Text, nat>
    ghost var awaited: seq<Text>
    ghost var settled: seq<nat>
    var promises: seq<Option<Settlement>>

    ghost function View(): State
      reads this
    {
      State(completed, waiting, awaited, promises, settled)
    }

    constructor ()
      ensures View() == Initial()
    {
      completed, waiting, awaited, promises, settled := map[], map[], [], [], [];
    }

    method OnProgress(progress: Progress, now: real) returns (answer: Answer)
      requires Valid(View())
      modifies this
      ensures (View(), answer) == Apply(old(View()), Record(progress, now)) && Valid(View())
    {
      StepValid(View(), Record(progress, now));
      if progress.OtherProgress? {
        return Done;
      }
      if progress.runId in completed {
        return Thrown;
      }
      var value := Terminal(progress.status, now);
      completed := completed[progress.runId := value];
      if progress.runId in waiting {
        SettleWaiting(progress.runId, Resolved(value));
      }
      answer := Done;
    }

    /** The stored callback, and the timer: both take the run out and settle its promise. */
    method SettleWaiting(runId: Text, outcome: Settlement)
      requires runId in waiting && waiting[runId] < |promises| == |settled|
      modifies this
      ensures View() == Settle(old(View()).(waiting := old(waiting) - {runId}), old(waiting[runId]), outcome)
    {
      var index := waiting[runId];
      waiting := waiting - {runId};
      promises := promises[index := Some(outcome)];
      settled := settled[index := settled[index] + 1];
    }

    method WaitFor(runId: Text) returns (answer: Answer)
      requires Valid(View())
      modifies this
      ensures (View(), answer) == Apply(old(View()), Wait(runId)) && Valid(View())
    {
      StepValid(View(), Wait(runId));
      if runId in completed {
        return Now(completed[runId]);
      }
      if runId in waiting {
        return Thrown;
      }
      answer := Promised(|promises|);
      waiting := waiting[runId := |promises|];
      awaited, promises, settled := awaited + [runId], promises + [None], settled + [0];
    }

    method OnTimeout(runId: Text)
      requires Valid(View())
      modifies this
      ensures View() == Apply(old(View()), Timeout(runId)).0 && Valid(View())
    {
      StepValid(View(), Timeout(runId));
      if runId in waiting {
        SettleWaiting(runId, TimedOut);
      }
    }
  }

  /** Any sequence of callbacks, waits and timeouts: the object ends where the machine does. */
  method Play(steps: seq<Step>) returns (observer: Observer)
    ensures fresh(observer) && observer.View() == Run(steps)
  {
    observer := new Observer();
    for k := 0 to |steps|
      invariant fresh(observer) && observer.View() == Run(steps[..k])
    {
      RunNext(steps[..k], steps[k]);
      assert steps[..k + 1] == steps[..k] + [steps[k]];
      match steps[k] {
        case Record(progress, now) => var _ := observer.OnProgress(progress, now);
        case Wait(runId) => var _ := observer.WaitFor(runId);
        case Timeout(runId) => observer.OnTimeout(runId);
      }
    }
    assert steps[..|steps|] == steps;
  }
}
