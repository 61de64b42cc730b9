/**
 Where the times in a resolved row come from: each is the difference of two clock reads that the
 run itself names, and the reads nest in the order of the handshake.
 */
module HandshakeTiming {
  import opened Options
  import opened Handshake

  /** The steps of a run that a row's times are read at. */
  datatype Reads = Reads(
    entered: nat, configure: nat, imported: nat, ready: nat, execute: nat, posted: nat, completed: nat)

  predicate Hears(s: System, a: Action) { a.DeliverToParent? && s.toParent != [] }

  predicate Obeys(s: System, a: Action) { a.DeliverToWorker? && s.toWorker != [] }

  function ParentRank(stage: ParentStage): nat {
    match stage case AwaitEntered => 0 case AwaitReady => 1 case AwaitCompleted => 2 case Settled => 3
  }

  function WorkerRank(stage: WorkerStage): nat {
    match stage case Configuring => 0 case Importing => 1 case Ready => 2 case Executing => 3 case Finished => 4
  }

  // ----- what one step may change -----

  /** When a step ends. */
  function Ends(s: System, a: Action): real {
    if a.DeliverToParent? || a.DeliverToWorker? then a.t2 else s.now
  }

  predicate ClockForward(s: System, a: Action, t: System) {
    && s.now <= t.now == (if a.Tick? then a.to else Ends(s, a))
    && (a.DeliverToParent? || a.DeliverToWorker? ==> s.now <= a.t1 <= a.t2)
  }

  predicate StagesForward(s: System, t: System) {
    && ParentRank(s.parent.stage) <= ParentRank(t.parent.stage)
    && WorkerRank(s.worker.stage) <= WorkerRank(t.worker.stage)
    && t.parent.began == s.parent.began && t.parent.constructorMs == s.parent.constructorMs && t.parent.empty == s.parent.empty
  }

  /** The time of entry is noted once, with an `entered` message. */
  predicate NotesEntry(s: System, a: Action, t: System) {
    if s.parent.stage != AwaitEntered then t.parent.enteredMs == s.parent.enteredMs
    else t.parent.stage != AwaitEntered ==> Hears(s, a) && s.toParent[0].EnteredMsg? && t.parent.enteredMs == a.t1 - s.parent.began
  }

  predicate NotesReady(s: System, a: Action, t: System) {
    if ParentRank(s.parent.stage) >= 2 then t.parent.readyMs == s.parent.readyMs && t.parent.requestStarted == s.parent.requestStarted
    else
      ParentRank(t.parent.stage) >= 2 ==>
        && Hears(s, a) && s.parent.stage == AwaitReady && s.toParent[0].ReadyMsg?
        && t.parent.readyMs == a.t1 - s.parent.began && t.parent.requestStarted == a.t2
  }

  predicate NotesRow(s: System, a: Action, t: System) {
    if s.parent.outcome.Resolved? then t.parent.outcome == s.parent.outcome
    else
      t.parent.outcome.Resolved? ==>
        && Hears(s, a) && s.parent.stage == AwaitCompleted && s.toParent[0].CompletedMsg? && s.toParent[0].expected
        && t.parent.outcome.row ==
           Row(s.parent.observer, s.toParent[0].realm, s.parent.constructorMs, s.parent.enteredMs, s.parent.readyMs, s.parent.importMs,
               a.t1 - s.parent.requestStarted, a.t2 - s.parent.began, s.toParent[0].executionMs, !s.parent.empty)
  }

  /** The worker reads its clock when it is configured with code to import. */
  predicate NotesImport(s: System, a: Action, t: System) {
    && (if s.worker.overridden then t.worker.overridden && t.worker.importStarted == s.worker.importStarted
        else
          t.worker.overridden ==>
            && Obeys(s, a) && s.worker.stage == Configuring && s.toWorker[0].Configure? && t.worker.importStarted == a.t1)
    && (if a.FinishImport? then
          s.worker.stage == Importing && s.worker.overridden && t.worker.importMs == Some(s.now - s.worker.importStarted)
        else t.worker.importMs == s.worker.importMs)
  }

  predicate NotesExecution(s: System, a: Action, t: System) {
    if s.worker.stage == Executing then t.worker.executionStarted == s.worker.executionStarted
    else
      t.worker.stage == Executing ==>
        Obeys(s, a) && s.worker.stage == Ready && s.toWorker[0].Execute? && t.worker.executionStarted == a.t1
  }

  /** A completion is posted by production code that was executing, or by an empty worker at once. */
  predicate Completes(s: System, a: Action, m: Message)
    requires m.CompletedMsg?
  {
    if a.Post? then
      s.worker.stage == Executing && a == Post(true, m.expected) && m.executionMs == s.now - s.worker.executionStarted
    else
      && Obeys(s, a) && s.worker.stage == Ready && s.toWorker[0].Execute? && !s.worker.production
      && m.executionMs == a.t2 - a.t1 && m.expected
  }

  ghost predicate NotesCompletion(s: System, a: Action, t: System) {
    forall m | m in t.toParent && m.CompletedMsg? && m !in s.toParent :: Completes(s, a, m)
  }

  lemma StepClock(s: System, a: Action)
    requires Enabled(s, a)
    ensures ClockForward(s, a, Step(s, a))
  {
  }

  lemma StepStages(s: System, a: Action)
    requires Inv(s) && Enabled(s, a)
    ensures StagesForward(s, Step(s, a))
  {
  }

  lemma StepNotesParent(s: System, a: Action)
    requires Inv(s) && Enabled(s, a)
    ensures var t := Step(s, a); NotesEntry(s, a, t) && NotesReady(s, a, t)
  {
  }

  lemma StepNotesRow(s: System, a: Action)
    requires Inv(s) && Enabled(s, a)
    ensures NotesRow(s, a, Step(s, a))
  {
  }

  lemma StepNotesWorker(s: System, a: Action)
    requires Inv(s) && Enabled(s, a) && (s.worker.importing ==> s.worker.overridden)
    ensures var t := Step(s, a); NotesImport(s, a, t) && (t.worker.importing ==> t.worker.overridden)
  {
  }

  lemma StepNotesExecution(s: System, a: Action)
    requires Inv(s) && Enabled(s, a)
    ensures NotesExecution(s, a, Step(s, a))
  {
  }

  lemma StepNotesCompletion(s: System, a: Action)
    requires Inv(s) && Enabled(s, a)
    ensures NotesCompletion(s, a, Step(s, a))
  {
  }

  /** Where the two sides stand when a message is due. */
  predicate Staged(s: System) {
    && (s.toWorker != [] && s.toWorker[0].Execute? ==> s.parent.stage == AwaitCompleted)
    && (s.toWorker != [] && s.worker.stage == Configuring ==> s.parent.stage == AwaitReady)
    && (s.toParent != [] && s.toParent[0].ReadyMsg? && s.parent.stage == AwaitReady ==> s.worker.stage == Ready)
    && (s.toParent != [] && s.toParent[0].CompletedMsg? ==> s.worker.stage == Finished)
    && (s.parent.stage == AwaitCompleted ==> s.parent.importMs == s.worker.importMs)
  }

  lemma InvStaged(s: System)
    requires Inv(s)
    ensures Staged(s)
  {
    if s.toParent != [] {
      NextMessage(s);
    }
  }

  // ----- whole runs -----

  ghost predicate Notes(s: System, a: Action, t: System) {
    && ClockForward(s, a, t) && StagesForward(s, t) && NotesEntry(s, a, t) && NotesReady(s, a, t) && NotesRow(s, a, t)
    && NotesImport(s, a, t) && NotesExecution(s, a, t) && NotesCompletion(s, a, t)
  }

  predicate Fresh(s: System) {
    && s.parent.stage == AwaitEntered && s.parent.outcome.Pending? && s.toParent == []
    && s.worker.stage == Configuring && s.worker.importMs.None? && !s.worker.overridden
  }

  ghost predicate Trace(states: seq<System>, actions: seq<Action>) {
    && |states| == |actions| + 1 && Fresh(states[0])
    && (forall i | 0 <= i < |states| :: Staged(states[i]))
    && forall i | 0 <= i < |actions| :: Notes(states[i], actions[i], states[i + 1])
  }

  lemma {:induction false} LoadsOverridden(states: seq<System>, actions: seq<Action>, n: nat)
    requires Run(states, actions) && n < |states|
    ensures states[n].worker.importing ==> states[n].worker.overridden
  {
    if n > 0 {
      LoadsOverridden(states, actions, n - 1);
      InvRun(states, actions, n - 1);
      StepNotesWorker(states[n - 1], actions[n - 1]);
    }
  }

  lemma StepNotes(s: System, a: Action)
    requires Inv(s) && Enabled(s, a) && (s.worker.importing ==> s.worker.overridden)
    ensures Notes(s, a, Step(s, a))
  {
    StepClock(s, a);
    StepStages(s, a);
    StepNotesParent(s, a);
    StepNotesRow(s, a);
    StepNotesWorker(s, a);
    StepNotesExecution(s, a);
    StepNotesCompletion(s, a);
  }

  lemma RunTraces(states: seq<System>, actions: seq<Action>)
    requires Run(states, actions)
    ensures Trace(states, actions)
  {
    forall i | 0 <= i < |states| ensures Staged(states[i]) {
      InvRun(states, actions, i);
      InvStaged(states[i]);
    }
    forall i | 0 <= i < |actions| ensures Notes(states[i], actions[i], states[i + 1]) {
      InvRun(states, actions, i);
      LoadsOverridden(states, actions, i);
      StepNotes(states[i], actions[i]);
    }
  }

  lemma {:induction false} TraceForward(states: seq<System>, actions: seq<Action>, i: nat, j: nat)
    requires Trace(states, actions) && i <= j < |states|
    ensures states[i].now <= states[j].now
    ensures ParentRank(states[i].parent.stage) <= ParentRank(states[j].parent.stage)
    ensures WorkerRank(states[i].worker.stage) <= WorkerRank(states[j].worker.stage)
    ensures states[j].parent.began == states[i].parent.began && states[j].parent.constructorMs == states[i].parent.constructorMs
    ensures states[j].parent.empty == states[i].parent.empty
  {
    if i < j {
      TraceForward(states, actions, i, j - 1);
      assert Notes(states[j - 1], actions[j - 1], states[j]);
    }
  }

  // ----- the parent's reads -----

  ghost predicate HeardEntered(states: seq<System>, actions: seq<Action>, i: nat) {
    i < |actions| < |states| && Hears(states[i], actions[i]) && states[i].parent.stage == AwaitEntered && states[i].toParent[0].EnteredMsg?
  }

  ghost predicate HeardReady(states: seq<System>, actions: seq<Action>, j: nat) {
    j < |actions| < |states| && Hears(states[j], actions[j]) && states[j].parent.stage == AwaitReady && states[j].toParent[0].ReadyMsg?
  }

  ghost predicate HeardCompleted(states: seq<System>, actions: seq<Action>, k: nat) {
    k < |actions| < |states| && Hears(states[k], actions[k]) && states[k].parent.stage == AwaitCompleted && states[k].toParent[0].CompletedMsg?
  }

  lemma {:induction false} EnteredAt(states: seq<System>, actions: seq<Action>, n: nat) returns (i: nat)
    requires Trace(states, actions) && n < |states| && states[n].parent.stage != AwaitEntered
    ensures i < n && HeardEntered(states, actions, i)
    ensures states[n].parent.enteredMs == actions[i].t1 - states[0].parent.began
  {
    assert Notes(states[n - 1], actions[n - 1], states[n]);
    if states[n - 1].parent.stage == AwaitEntered {
      i := n - 1;
      TraceForward(states, actions, 0, i);
    } else {
      i := EnteredAt(states, actions, n - 1);
    }
  }

  lemma {:induction false} ReadyAt(states: seq<System>, actions: seq<Action>, n: nat) returns (j: nat)
    requires Trace(states, actions) && n < |states| && ParentRank(states[n].parent.stage) >= 2
    ensures j < n && HeardReady(states, actions, j)
    ensures states[n].parent.readyMs == actions[j].t1 - states[0].parent.began
    ensures states[n].parent.requestStarted == actions[j].t2
  {
    assert Notes(states[n - 1], actions[n - 1], states[n]);
    if ParentRank(states[n - 1].parent.stage) < 2 {
      j := n - 1;
      TraceForward(states, actions, 0, j);
    } else {
      j := ReadyAt(states, actions, n - 1);
    }
  }

  /** The row is built in one step, from what the parent has noted and the completion it hears. */
  lemma {:induction false} CompletedAt(states: seq<System>, actions: seq<Action>, n: nat) returns (k: nat)
    requires Trace(states, actions) && n < |states| && states[n].parent.outcome.Resolved?
    ensures k < n && HeardCompleted(states, actions, k) && states[k].toParent[0].expected
    ensures var p, m := states[k].parent, states[k].toParent[0];
            states[n].parent.outcome.row
            == Row(p.observer, m.realm, p.constructorMs, p.enteredMs, p.readyMs, p.importMs,
                   actions[k].t1 - p.requestStarted, actions[k].t2 - p.began, m.executionMs, !p.empty)
  {
    assert Notes(states[n - 1], actions[n - 1], states[n]);
    if states[n - 1].parent.outcome.Resolved? {
      k := CompletedAt(states, actions, n - 1);
    } else {
      k := n - 1;
    }
  }

  // ----- the worker's reads -----

  ghost predicate Configured(states: seq<System>, actions: seq<Action>, c: nat) {
    c < |actions| < |states| && Obeys(states[c], actions[c]) && states[c].worker.stage == Configuring && states[c].toWorker[0].Configure?
  }

  ghost predicate Imported(states: seq<System>, actions: seq<Action>, f: nat) {
    f < |actions| < |states| && actions[f].FinishImport? && states[f].worker.stage == Importing
  }

  ghost predicate ToldToExecute(states: seq<System>, actions: seq<Action>, x: nat) {
    x < |actions| < |states| && Obeys(states[x], actions[x]) && states[x].worker.stage == Ready && states[x].toWorker[0].Execute?
  }

  lemma {:induction false} ConfiguredAt(states: seq<System>, actions: seq<Action>, n: nat) returns (c: nat)
    requires Trace(states, actions) && n < |states| && states[n].worker.overridden
    ensures c < n && Configured(states, actions, c) && states[n].worker.importStarted == actions[c].t1
  {
    assert Notes(states[n - 1], actions[n - 1], states[n]);
    if states[n - 1].worker.overridden {
      c := ConfiguredAt(states, actions, n - 1);
    } else {
      c := n - 1;
    }
  }

  lemma {:induction false} ImportedAt(states: seq<System>, actions: seq<Action>, n: nat) returns (c: nat, f: nat)
    requires Trace(states, actions) && n < |states| && states[n].worker.importMs.Some?
    ensures c < f < n && Configured(states, actions, c) && Imported(states, actions, f)
    ensures states[n].worker.importMs.value == states[f].now - actions[c].t1
  {
    assert Notes(states[n - 1], actions[n - 1], states[n]);
    if actions[n - 1].FinishImport? {
      f := n - 1;
      c := ConfiguredAt(states, actions, f);
    } else {
      c, f := ImportedAt(states, actions, n - 1);
    }
  }

  lemma {:induction false} ExecutingAt(states: seq<System>, actions: seq<Action>, n: nat) returns (x: nat)
    requires Trace(states, actions) && n < |states| && states[n].worker.stage == Executing
    ensures x < n && ToldToExecute(states, actions, x) && states[n].worker.executionStarted == actions[x].t1
  {
    assert Notes(states[n - 1], actions[n - 1], states[n]);
    if states[n - 1].worker.stage == Executing {
      x := ExecutingAt(states, actions, n - 1);
    } else {
      x := n - 1;
    }
  }

  /** The reads behind a completion: production code is timed until it posts, an empty worker within
      the delivery of `execute`. */
  ghost predicate Executed(states: seq<System>, actions: seq<Action>, x: nat, y: nat, m: Message)
    requires m.CompletedMsg?
  {
    && ToldToExecute(states, actions, x) && x <= y < |actions|
    && (if x == y then !states[x].worker.production && m.executionMs == actions[x].t2 - actions[x].t1 && m.expected
        else
          && states[y].worker.stage == Executing && actions[y] == Post(true, m.expected)
          && m.executionMs == states[y].now - actions[x].t1)
  }

  lemma {:induction false} ExecutedAt(states: seq<System>, actions: seq<Action>, n: nat, m: Message) returns (x: nat, y: nat)
    requires Trace(states, actions) && n < |states| && m in states[n].toParent && m.CompletedMsg?
    ensures y < n && Executed(states, actions, x, y, m)
  {
    assert Notes(states[n - 1], actions[n - 1], states[n]);
    if m in states[n - 1].toParent {
      x, y := ExecutedAt(states, actions, n - 1, m);
    } else {
      assert Completes(states[n - 1], actions[n - 1], m);
      y := n - 1;
      if actions[y].Post? {
        x := ExecutingAt(states, actions, y);
      } else {
        x := y;
      }
    }
  }

  // ----- the theorem -----

  ghost predicate ParentReads(states: seq<System>, actions: seq<Action>, row: Row, at: Reads) {
    && HeardEntered(states, actions, at.entered) && HeardReady(states, actions, at.ready) && HeardCompleted(states, actions, at.completed)
    && row.constructorMs == states[0].parent.constructorMs
    && row.enteredMs == actions[at.entered].t1 - states[0].parent.began
    && row.readyMs == actions[at.ready].t1 - states[0].parent.began
    && row.requestRoundTripMs == actions[at.completed].t1 - actions[at.ready].t2
    && row.journeyMs == actions[at.completed].t2 - states[0].parent.began
  }

  ghost predicate WorkerReads(states: seq<System>, actions: seq<Action>, row: Row, at: Reads) {
    && HeardCompleted(states, actions, at.completed)
    && var m := states[at.completed].toParent[0];
       && Executed(states, actions, at.execute, at.posted, m) && m.expected && row.executionMs == m.executionMs
       && (row.importMs.Some? ==>
             && Configured(states, actions, at.configure) && Imported(states, actions, at.imported)
             && row.importMs.value == states[at.imported].now - actions[at.configure].t1)
  }

  ghost predicate Ordered(row: Row, at: Reads) {
    && at.entered < at.ready < at.execute <= at.posted < at.completed
    && (row.importMs.Some? ==> at.entered < at.configure < at.imported < at.ready)
  }

  lemma ParentTimed(states: seq<System>, actions: seq<Action>, n: nat) returns (i: nat, j: nat, k: nat)
    requires Trace(states, actions) && n < |states| && states[n].parent.outcome.Resolved?
    ensures i < j < k < n
    ensures ParentReads(states, actions, states[n].parent.outcome.row, Reads(i, 0, 0, j, 0, 0, k))
    ensures states[k].toParent[0].expected && states[n].parent.outcome.row.executionMs == states[k].toParent[0].executionMs
    ensures states[n].parent.outcome.row.importMs == states[k].parent.importMs
  {
    k := CompletedAt(states, actions, n);
    j := ReadyAt(states, actions, k);
    i := EnteredAt(states, actions, k);
    TraceForward(states, actions, 0, k);
    if j <= i {
      TraceForward(states, actions, j, i);
    }
  }

  lemma ExecutesAfterReady(states: seq<System>, actions: seq<Action>, j: nat, x: nat)
    requires Trace(states, actions) && HeardReady(states, actions, j) && ToldToExecute(states, actions, x)
    ensures j < x
  {
    assert Staged(states[x]);
    if x <= j {
      TraceForward(states, actions, x, j);
    }
  }

  lemma ImportsBeforeReady(states: seq<System>, actions: seq<Action>, i: nat, c: nat, f: nat, j: nat)
    requires Trace(states, actions) && HeardEntered(states, actions, i) && HeardReady(states, actions, j)
    requires Configured(states, actions, c) && Imported(states, actions, f)
    ensures i < c && f < j
  {
    assert Staged(states[c]) && Staged(states[j]);
    if c <= i {
      TraceForward(states, actions, c, i);
    }
    if j <= f {
      TraceForward(states, actions, j, f);
    }
  }

  /** Every time in a resolved row is the difference of the two clock reads that the row is for, and
      the reads come in the order of the handshake. */
  lemma ResolvedRowTimed(states: seq<System>, actions: seq<Action>, n: nat) returns (at: Reads)
    requires Run(states, actions) && n < |states| && states[n].parent.outcome.Resolved?
    ensures at.completed < n
    ensures ParentReads(states, actions, states[n].parent.outcome.row, at)
    ensures WorkerReads(states, actions, states[n].parent.outcome.row, at)
    ensures Ordered(states[n].parent.outcome.row, at)
  {
    RunTraces(states, actions);
    at := TraceTimed(states, actions, n);
  }

  lemma TraceTimed(states: seq<System>, actions: seq<Action>, n: nat) returns (at: Reads)
    requires Trace(states, actions) && n < |states| && states[n].parent.outcome.Resolved?
    ensures at.completed < n
    ensures ParentReads(states, actions, states[n].parent.outcome.row, at)
    ensures WorkerReads(states, actions, states[n].parent.outcome.row, at)
    ensures Ordered(states[n].parent.outcome.row, at)
  {
    var i, j, k := ParentTimed(states, actions, n);
    var x, y := ExecutedAt(states, actions, k, states[k].toParent[0]);
    ExecutesAfterReady(states, actions, j, x);
    at := Reads(i, 0, 0, j, x, y, k);
    assert Staged(states[k]);
    if states[k].worker.importMs.Some? {
      var c, f := ImportedAt(states, actions, k);
      ImportsBeforeReady(states, actions, i, c, f, j);
      at := Reads(i, c, f, j, x, y, k);
    }
  }

  /** A delivery reads the clock after every earlier step has ended. */
  lemma ReadsApart(states: seq<System>, actions: seq<Action>, i: nat, j: nat)
    requires Trace(states, actions) && i < j < |actions| && (actions[j].DeliverToParent? || actions[j].DeliverToWorker?)
    requires !actions[i].Tick?
    ensures Ends(states[i], actions[i]) <= actions[j].t1 <= actions[j].t2
  {
    TraceForward(states, actions, i + 1, j);
    assert Notes(states[i], actions[i], states[i + 1]) && Notes(states[j], actions[j], states[j + 1]);
  }

  /** The intervals nest: the constructor ends before the entry, the import lies between entry and
      readiness, the execution within the request, and the request within the rest of the journey. */
  lemma ResolvedRowNests(states: seq<System>, actions: seq<Action>, n: nat)
    requires Run(states, actions) && n < |states| && states[n].parent.outcome.Resolved?
    ensures var row := states[n].parent.outcome.row;
            && row.constructorMs <= row.enteredMs
            && (row.importMs.Some? ==> row.importMs.value <= row.readyMs - row.enteredMs)
            && row.executionMs <= row.requestRoundTripMs <= row.journeyMs - row.readyMs
  {
    RunTraces(states, actions);
    var p := states[0].parent;
    assert p.began + p.constructorMs <= states[0].now;
    TraceNests(states, actions, n);
  }

  lemma TraceNests(states: seq<System>, actions: seq<Action>, n: nat)
    requires Trace(states, actions) && n < |states| && states[n].parent.outcome.Resolved?
    requires states[0].parent.began + states[0].parent.constructorMs <= states[0].now
    ensures var row := states[n].parent.outcome.row;
            && row.constructorMs <= row.enteredMs
            && (row.importMs.Some? ==> row.importMs.value <= row.readyMs - row.enteredMs)
            && row.executionMs <= row.requestRoundTripMs <= row.journeyMs - row.readyMs
  {
    var at := TraceTimed(states, actions, n);
    var row := states[n].parent.outcome.row;
    TraceForward(states, actions, 0, at.entered);
    assert Notes(states[at.entered], actions[at.entered], states[at.entered + 1]);
    assert Notes(states[at.ready], actions[at.ready], states[at.ready + 1]);
    ReadsApart(states, actions, at.ready, at.execute);
    ReadsApart(states, actions, at.posted, at.completed);
    if row.importMs.Some? {
      ReadsApart(states, actions, at.entered, at.configure);
      ReadsApart(states, actions, at.imported, at.ready);
    }
  }
}
