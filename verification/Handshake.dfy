/**
 The bootstrap handshake between a parent and a diagnostic worker. The worker swaps its message
 handler and its `postMessage` while it imports production code; that code is an adversary that
 may assign the handler during the import and post anything at any time after the swap.
 */
module Handshake {
  import opened Options
  import opened Sequences

  type Id = nat

  // What `self.onmessage` holds in the worker.
  datatype Handler = Diagnostic | Imported | Missing

  datatype WorkerStage = Configuring | Importing | Ready | Executing | Finished

  datatype Worker = Worker(
    started: bool, realm: Id, stage: WorkerStage, observer: Option<Id>,
    importMs: Option<real>, importStarted: real, executionStarted: real,
    onmessage: Handler, production: bool, overridden: bool, importing: bool)

  datatype Command = Configure(observer: Id, empty: bool) | Execute(observer: Id)

  datatype Message =
    | EnteredMsg(realm: Id)
    | ReadyMsg(realm: Id, observer: Option<Id>, importMs: Option<real>)
    | CompletedMsg(realm: Id, observer: Option<Id>, importMs: Option<real>, executionMs: real, expected: bool)
    | FailureMsg(realm: Id, observer: Option<Id>)

  datatype ParentStage = AwaitEntered | AwaitReady | AwaitCompleted | Settled

  datatype Reason = WrongRealm | WrongStage | WrongObserver | NotCompleted | ImportDrift | WrongResponse | Watchdog | WorkerFailed

  datatype Row = Row(
    observer: Id, realm: Id, constructorMs: real, enteredMs: real, readyMs: real, importMs: Option<real>,
    requestRoundTripMs: real, journeyMs: real, executionMs: real, executedProductionCode: bool)

  datatype Outcome = Pending | Resolved(row: Row) | Rejected(reason: Reason)

  datatype Parent = Parent(
    stage: ParentStage, observer: Id, empty: bool, realm: Option<Id>, began: real, constructorMs: real,
    enteredMs: real, readyMs: real, importMs: Option<real>, requestStarted: real, outcome: Outcome)

  // ----- the worker -----

  function Fail(w: Worker): seq<Message> {
    [FailureMsg(w.realm, w.observer)]
  }

  /** The diagnostic handler on one command, up to where it waits for an import; `t1`, `t2` are clock reads. */
  function Receive(w: Worker, c: Command, t1: real, t2: real): (Worker, seq<Message>) {
    if w.stage == Configuring && c.Configure? then
      var w := w.(stage := Importing, observer := Some(c.observer));
      if c.empty then
        var w := w.(onmessage := Diagnostic, stage := Ready);
        (w, [ReadyMsg(w.realm, w.observer, w.importMs)])
      else
        (w.(overridden := true, importStarted := t1, importing := true), [])
    else if w.stage != Ready || !c.Execute? || w.observer != Some(c.observer) then
      (w, Fail(w))
    else if !w.production then
      (w.(stage := Finished, executionStarted := t1),
       [CompletedMsg(w.realm, w.observer, None, t2 - t1, true)])
    else
      (w.(stage := Executing, executionStarted := t1), [])
  }

  /** The rest of the configure branch, once the import has succeeded. */
  function ImportDone(w: Worker, now: real): (Worker, seq<Message>) {
    var w := w.(importing := false, importMs := Some(now - w.importStarted));
    if w.onmessage != Imported then (w, Fail(w))
    else
      var w := w.(production := true, onmessage := Diagnostic, stage := Ready);
      (w, [ReadyMsg(w.realm, w.observer, w.importMs)])
  }

  function ImportFailed(w: Worker): (Worker, seq<Message>) {
    (w.(importing := false), Fail(w))
  }

  /** The replaced `postMessage`, called by production code with any message. */
  function Intercept(w: Worker, completed: bool, expected: bool, now: real): (Worker, seq<Message>) {
    if w.stage != Executing || !completed then (w, Fail(w))
    else
      (w.(stage := Finished),
       [CompletedMsg(w.realm, w.observer, w.importMs, now - w.executionStarted, expected)])
  }

  // ----- the parent -----

  function Reject(p: Parent, reason: Reason): (Parent, seq<Command>) {
    (p.(outcome := Rejected(reason)), [])
  }

  /** The parent's handler; `t1` and `t2` are its clock reads, in order. */
  function Observe(p: Parent, m: Message, t1: real, t2: real): (Parent, seq<Command>) {
    if p.realm.Some? && m.realm != p.realm.value then Reject(p, WrongRealm)
    else if m.EnteredMsg? then
      if p.stage != AwaitEntered then Reject(p, WrongStage)
      else
        (p.(realm := Some(m.realm), enteredMs := t1 - p.began, stage := AwaitReady),
         [Configure(p.observer, p.empty)])
    else if m.observer != Some(p.observer) then Reject(p, WrongObserver)
    else if m.ReadyMsg? then
      if p.stage != AwaitReady then Reject(p, WrongStage)
      else
        (p.(importMs := m.importMs, readyMs := t1 - p.began, stage := AwaitCompleted, requestStarted := t2),
         [Execute(p.observer)])
    else if !m.CompletedMsg? then Reject(p, NotCompleted)
    else if m.importMs != p.importMs then Reject(p, ImportDrift)
    else if p.stage != AwaitCompleted then Reject(p, WrongStage)
    else if !m.expected then Reject(p.(stage := Settled), WrongResponse)
    else
      (p.(stage := Settled, outcome := Resolved(
            Row(p.observer, m.realm, p.constructorMs, p.enteredMs, p.readyMs, p.importMs,
                t1 - p.requestStarted, t2 - p.began, m.executionMs, !p.empty))), [])
  }

  // ----- the system -----

  /** `log` is everything the worker ever posted; `calls` counts runs of the production handler. */
  datatype System = System(
    parent: Parent, worker: Worker, toWorker: seq<Command>, toParent: seq<Message>,
    now: real, log: seq<Message>, calls: nat, strayCalls: nat)

  datatype Action =
    | StartWorker
    | DeliverToParent(t1: real, t2: real)
    | DeliverToWorker(t1: real, t2: real)
    | AssignHandler(handler: Handler)
    | FinishImport
    | FailImport
    | Post(completed: bool, expected: bool)
    | Throw
    | Expire
    | WorkerError
    | Tick(to: real)

  predicate Enabled(s: System, a: Action) {
    match a
    case StartWorker => !s.worker.started
    case DeliverToParent(t1, t2) => s.toParent != [] && s.parent.outcome.Pending? && s.now <= t1 <= t2
    case DeliverToWorker(t1, t2) => s.worker.started && s.toWorker != [] && s.now <= t1 <= t2
    case AssignHandler(_) => s.worker.importing
    case FinishImport => s.worker.importing
    case FailImport => s.worker.importing
    case Post(_, _) => s.worker.overridden
    case Throw => s.calls > 0
    case Expire => s.parent.outcome.Pending?
    case WorkerError => s.parent.outcome.Pending?
    case Tick(to) => s.now <= to
  }

  function Posted(s: System, w: Worker, posts: seq<Message>): System {
    s.(worker := w, toParent := s.toParent + posts, log := s.log + posts)
  }

  function Step(s: System, a: Action): System
    requires Enabled(s, a)
  {
    match a
    case StartWorker =>
      Posted(s, s.worker.(started := true), [EnteredMsg(s.worker.realm)])
    case DeliverToParent(t1, t2) =>
      var (p, commands) := Observe(s.parent, s.toParent[0], t1, t2);
      s.(parent := p, toParent := s.toParent[1..], toWorker := s.toWorker + commands, now := t2)
    case DeliverToWorker(t1, t2) =>
      var rest := s.(toWorker := s.toWorker[1..], now := t2);
      // Whatever the handler in force is, it gets the message.
      if s.worker.onmessage == Diagnostic then
        var (w, posts) := Receive(s.worker, s.toWorker[0], t1, t2);
        var called := w.stage == Executing && s.worker.stage != Executing;
        Posted(rest, w, posts).(calls := s.calls + if called then 1 else 0)
      else if s.worker.onmessage == Imported then
        rest.(calls := s.calls + 1, strayCalls := s.strayCalls + 1)
      else rest
    case AssignHandler(handler) => s.(worker := s.worker.(onmessage := handler))
    case FinishImport =>
      var (w, posts) := ImportDone(s.worker, s.now);
      Posted(s, w, posts)
    case FailImport =>
      var (w, posts) := ImportFailed(s.worker);
      Posted(s, w, posts)
    case Post(completed, expected) =>
      var (w, posts) := Intercept(s.worker, completed, expected, s.now);
      Posted(s, w, posts)
    case Throw => Posted(s, s.worker, Fail(s.worker))
    case Expire => s.(parent := s.parent.(outcome := Rejected(Watchdog)))
    case WorkerError => s.(parent := s.parent.(outcome := Rejected(WorkerFailed)))
    case Tick(to) => s.(now := to)
  }

  predicate Initial(s: System) {
    && s.worker == Worker(false, s.worker.realm, Configuring, None, None, 0.0, 0.0, Diagnostic, false, false, false)
    && s.parent.stage == AwaitEntered && s.parent.realm.None? && s.parent.importMs.None?
    && s.parent.outcome.Pending? && s.parent.constructorMs >= 0.0
    && s.parent.began + s.parent.constructorMs <= s.now
    && s.toWorker == [] && s.toParent == [] && s.log == [] && s.calls == 0 && s.strayCalls == 0
  }

  ghost predicate Run(states: seq<System>, actions: seq<Action>) {
    && |states| == |actions| + 1 && Initial(states[0])
    && forall i | 0 <= i < |actions| :: Enabled(states[i], actions[i]) && states[i + 1] == Step(states[i], actions[i])
  }

  ghost predicate Reachable(s: System) {
    exists states, actions :: Run(states, actions) && states[|states| - 1] == s
  }

  // ----- what every step keeps -----

  predicate IsFailure(m: Message) { m.FailureMsg? }

  function Protocol(ms: seq<Message>): seq<Message> {
    if ms == [] then []
    else (if IsFailure(ms[0]) then [] else [ms[0]]) + Protocol(ms[1..])
  }

  lemma {:induction false} ProtocolAppend(a: seq<Message>, b: seq<Message>)
    ensures Protocol(a + b) == Protocol(a) + Protocol(b)
  {
    if a == [] {
      assert a + b == b;
    } else {
      ProtocolAppend(a[1..], b);
      assert (a + b)[1..] == a[1..] + b;
      Assoc(if IsFailure(a[0]) then [] else [a[0]], Protocol(a[1..]), Protocol(b));
    }
  }

  /** What the two stages leave in flight: commands to the worker, protocol messages to the parent. */
  ghost predicate Lockstep(s: System) {
    var p, w := s.parent, s.worker;
    var flying := Protocol(s.toParent);
    match (p.stage, w.stage)
    case (AwaitEntered, Configuring) =>
      s.toWorker == [] && s.toParent == if w.started then [EnteredMsg(w.realm)] else []
    case (AwaitReady, Configuring) => w.started && s.toWorker == [Configure(p.observer, p.empty)] && s.toParent == []
    case (AwaitReady, Importing) => s.toWorker == [] && flying == []
    case (AwaitReady, Ready) => s.toWorker == [] && flying == [ReadyMsg(w.realm, w.observer, w.importMs)]
    case (AwaitCompleted, Ready) => s.toWorker == [Execute(p.observer)] && flying == []
    case (AwaitCompleted, Executing) => s.toWorker == [] && flying == []
    case (AwaitCompleted, Finished) => s.toWorker == [] && |flying| == 1 && CompletedBy(w, flying[0])
    case (Settled, Finished) => s.toWorker == [] && flying == []
    case _ => false
  }

  ghost predicate CompletedBy(w: Worker, m: Message) {
    && m.CompletedMsg? && m.realm == w.realm && m.observer == w.observer && m.importMs == w.importMs
    && m.executionMs >= 0.0
  }

  ghost predicate WorkerOk(s: System) {
    var p, w := s.parent, s.worker;
    && (w.stage == Configuring <==> w.observer.None?)
    && (w.observer.Some? ==> w.observer.value == p.observer && w.started)
    && (w.stage != Importing ==> w.onmessage == Diagnostic && !w.importing)
    && (w.stage == Configuring ==> w.importMs.None? && !w.production && !w.overridden)
    && (w.stage == Importing ==> !p.empty)
    && (w.stage == Ready || w.stage == Finished ==> w.production == !p.empty && (w.importMs.Some? <==> !p.empty))
    && (w.stage == Executing ==> w.production && !p.empty && w.importMs.Some?)
    && (w.importMs.Some? ==> w.importMs.value >= 0.0)
    && (w.importing ==> w.importStarted <= s.now)
    && (w.stage == Executing ==> w.executionStarted <= s.now)
  }

  ghost predicate MessagesOk(s: System) {
    && (forall m | m in s.toParent :: m.realm == s.worker.realm)
    && (forall m | m in s.toParent && m.FailureMsg? :: m.observer == Some(s.parent.observer))
  }

  /** The worker's whole output, failures aside: one `entered`, one `ready`, one `completed`. */
  ghost predicate LogOk(s: System) {
    var w, said := s.worker, Protocol(s.log);
    match w.stage
    case Configuring => said == if w.started then [EnteredMsg(w.realm)] else []
    case Importing => said == [EnteredMsg(w.realm)]
    case Ready => said == [EnteredMsg(w.realm), ReadyMsg(w.realm, w.observer, w.importMs)]
    case Executing => said == [EnteredMsg(w.realm), ReadyMsg(w.realm, w.observer, w.importMs)]
    case Finished =>
      |said| == 3 && said[..2] == [EnteredMsg(w.realm), ReadyMsg(w.realm, w.observer, w.importMs)] && CompletedBy(w, said[2])
  }

  ghost predicate CallsOk(s: System) {
    && s.strayCalls == 0
    && s.calls == if s.worker.production && (s.worker.stage == Executing || s.worker.stage == Finished) then 1 else 0
  }

  /** The validator's checks on one wrapped worker. */
  predicate RowAccepted(r: Row, empty: bool) {
    && r.constructorMs >= 0.0 && r.requestRoundTripMs >= 0.0 && r.journeyMs >= 0.0
    && r.enteredMs >= 0.0 && r.readyMs >= 0.0 && r.executionMs >= 0.0
    && r.enteredMs <= r.readyMs <= r.journeyMs
    && (if empty then r.importMs.None? else r.importMs.Some? && r.importMs.value >= 0.0)
    && r.executedProductionCode == !empty
  }

  ghost predicate ParentOk(s: System) {
    var p, w := s.parent, s.worker;
    && p.constructorMs >= 0.0 && p.began + p.constructorMs <= s.now
    && (p.realm == if p.stage == AwaitEntered then None else Some(w.realm))
    && (p.stage != AwaitEntered ==> 0.0 <= p.enteredMs <= s.now - p.began)
    && (p.stage == AwaitCompleted || p.stage == Settled ==>
          p.enteredMs <= p.readyMs <= s.now - p.began && p.requestStarted <= s.now && p.importMs == w.importMs)
    && (p.outcome.Resolved? ==> p.stage == Settled && RowAccepted(p.outcome.row, p.empty))
    && (p.outcome.Resolved? ==> p.outcome.row.observer == p.observer && p.outcome.row.realm == w.realm)
    && (p.outcome.Rejected? ==> p.outcome.reason in {NotCompleted, WrongResponse, Watchdog, WorkerFailed})
    && (p.outcome == Rejected(WrongResponse) ==> p.stage == Settled)
    && (p.stage == Settled ==> !p.outcome.Pending?)
  }

  ghost predicate Inv(s: System) {
    Lockstep(s) && WorkerOk(s) && MessagesOk(s) && LogOk(s) && CallsOk(s) && ParentOk(s)
  }

  lemma InvInitial(s: System)
    requires Initial(s)
    ensures Inv(s)
  {
  }

  /** A failure changes nothing the invariant counts. */
  lemma InvFailure(s: System, w: Worker)
    requires Inv(s) && w.observer == Some(s.parent.observer) && w.realm == s.worker.realm
    ensures Protocol(s.toParent + Fail(w)) == Protocol(s.toParent)
    ensures Protocol(s.log + Fail(w)) == Protocol(s.log)
    ensures forall m | m in s.toParent + Fail(w) :: m.realm == w.realm && (m.FailureMsg? ==> m.observer == Some(s.parent.observer))
  {
    ProtocolAppend(s.toParent, Fail(w));
    ProtocolAppend(s.log, Fail(w));
    assert Protocol(Fail(w)) == [];
  }

  /** One protocol message posted is one more in flight and one more said. */
  lemma PostedProtocol(s: System, m: Message)
    requires !m.FailureMsg?
    ensures Protocol(s.toParent + [m]) == Protocol(s.toParent) + [m]
    ensures Protocol(s.log + [m]) == Protocol(s.log) + [m]
  {
    ProtocolAppend(s.toParent, [m]);
    ProtocolAppend(s.log, [m]);
    assert Protocol([m]) == [m];
  }

  lemma InvStart(s: System)
    requires Inv(s) && Enabled(s, StartWorker)
    ensures Inv(Step(s, StartWorker))
  {
    PostedProtocol(s, EnteredMsg(s.worker.realm));
  }

  /** The oldest message to the parent is a failure or the one protocol message in flight. */
  lemma NextMessage(s: System)
    requires s.toParent != []
    ensures var m, rest := s.toParent[0], Protocol(s.toParent[1..]);
            Protocol(s.toParent) == (if m.FailureMsg? then rest else [m] + rest)
            && (!m.FailureMsg? ==> Protocol(s.toParent)[0] == m && Protocol(s.toParent)[1..] == rest)
    ensures s.toParent[0] in s.toParent
    ensures forall x | x in s.toParent[1..] :: x in s.toParent
  {
  }

  lemma FailureRejects(s: System, t1: real, t2: real)
    requires Inv(s) && Enabled(s, DeliverToParent(t1, t2)) && s.toParent[0].FailureMsg?
    ensures Step(s, DeliverToParent(t1, t2))
            == s.(parent := s.parent.(outcome := Rejected(NotCompleted)), toParent := s.toParent[1..], now := t2)
  {
    assert s.toParent[0] in s.toParent;
    assert Observe(s.parent, s.toParent[0], t1, t2) == Reject(s.parent, NotCompleted);
    assert s.toWorker + [] == s.toWorker;
  }

  lemma InvParentFailure(s: System, t1: real, t2: real)
    requires Inv(s) && Enabled(s, DeliverToParent(t1, t2)) && s.toParent[0].FailureMsg?
    ensures Inv(Step(s, DeliverToParent(t1, t2)))
  {
    NextMessage(s);
    FailureRejects(s, t1, t2);
  }

  lemma InvParentEntered(s: System, t1: real, t2: real)
    requires Inv(s) && Enabled(s, DeliverToParent(t1, t2))
    requires !s.toParent[0].FailureMsg? && s.parent.stage == AwaitEntered
    ensures Inv(Step(s, DeliverToParent(t1, t2)))
  {
    assert s.toParent == [EnteredMsg(s.worker.realm)];
    assert s.toWorker + [Configure(s.parent.observer, s.parent.empty)] == [Configure(s.parent.observer, s.parent.empty)];
  }

  lemma InvParentReady(s: System, t1: real, t2: real)
    requires Inv(s) && Enabled(s, DeliverToParent(t1, t2))
    requires !s.toParent[0].FailureMsg? && s.parent.stage == AwaitReady
    ensures Inv(Step(s, DeliverToParent(t1, t2)))
  {
    NextMessage(s);
    var w := s.worker;
    assert s.toParent[0] == ReadyMsg(w.realm, w.observer, w.importMs);
    assert s.toWorker + [Execute(s.parent.observer)] == [Execute(s.parent.observer)];
  }

  /** The message that is due settles the parent, with an acceptable row or a wrong response. */
  lemma CompletionSettles(s: System, t1: real, t2: real)
    requires ParentOk(s) && WorkerOk(s) && s.worker.stage == Finished && s.parent.stage == AwaitCompleted
    requires s.toParent != [] && CompletedBy(s.worker, s.toParent[0])
    requires s.parent.outcome.Pending? && s.now <= t1 <= t2
    ensures var (p, commands) := Observe(s.parent, s.toParent[0], t1, t2);
            && commands == [] && p.stage == Settled && p.observer == s.parent.observer && p.empty == s.parent.empty
            && ParentOk(s.(parent := p, now := t2))
  {
  }

  lemma InvParentCompleted(s: System, t1: real, t2: real)
    requires Inv(s) && Enabled(s, DeliverToParent(t1, t2))
    requires !s.toParent[0].FailureMsg? && s.parent.stage == AwaitCompleted
    ensures Inv(Step(s, DeliverToParent(t1, t2)))
  {
    NextMessage(s);
    CompletionSettles(s, t1, t2);
    assert s.toWorker + [] == s.toWorker;
  }

  lemma InvToParent(s: System, t1: real, t2: real)
    requires Inv(s) && Enabled(s, DeliverToParent(t1, t2))
    ensures Inv(Step(s, DeliverToParent(t1, t2)))
  {
    if s.toParent[0].FailureMsg? {
      InvParentFailure(s, t1, t2);
    } else {
      match s.parent.stage
      case AwaitEntered => InvParentEntered(s, t1, t2);
      case AwaitReady => InvParentReady(s, t1, t2);
      case AwaitCompleted => InvParentCompleted(s, t1, t2);
      case Settled =>
    }
  }

  lemma InvConfigure(s: System, t1: real, t2: real)
    requires Inv(s) && Enabled(s, DeliverToWorker(t1, t2)) && s.worker.stage == Configuring
    ensures Inv(Step(s, DeliverToWorker(t1, t2)))
  {
    var (w, posts) := Receive(s.worker, s.toWorker[0], t1, t2);
    assert s.parent.stage == AwaitReady && s.toParent == [];
    if s.parent.empty {
      assert posts == [ReadyMsg(w.realm, w.observer, w.importMs)];
      ReadyPosted(s, posts[0]);
    } else {
      assert posts == [] && s.toParent + [] == s.toParent && s.log + [] == s.log;
    }
  }

  lemma InvExecute(s: System, t1: real, t2: real)
    requires Inv(s) && Enabled(s, DeliverToWorker(t1, t2)) && s.worker.stage != Configuring
    ensures Inv(Step(s, DeliverToWorker(t1, t2)))
  {
    var (w, posts) := Receive(s.worker, s.toWorker[0], t1, t2);
    assert s.parent.stage == AwaitCompleted && s.worker.stage == Ready;
    if s.parent.empty {
      assert posts == [CompletedMsg(w.realm, w.observer, None, t2 - t1, true)];
      PostedProtocol(s, posts[0]);
    } else {
      assert posts == [] && s.toParent + [] == s.toParent && s.log + [] == s.log;
    }
  }

  lemma InvToWorker(s: System, t1: real, t2: real)
    requires Inv(s) && Enabled(s, DeliverToWorker(t1, t2))
    ensures Inv(Step(s, DeliverToWorker(t1, t2)))
  {
    if s.worker.stage == Configuring {
      InvConfigure(s, t1, t2);
    } else {
      InvExecute(s, t1, t2);
    }
  }

  /** What the end of an import does not need the queues for. */
  lemma ImportedEnds(s: System)
    requires Inv(s) && Enabled(s, FinishImport)
    ensures var t := Step(s, FinishImport); WorkerOk(t) && CallsOk(t) && ParentOk(t)
  {
  }

  /** The protocol message that a ready worker posts is the only one in flight, and its second. */
  lemma ReadyPosted(s: System, m: Message)
    requires Protocol(s.toParent) == [] && Protocol(s.log) == [EnteredMsg(s.worker.realm)] && m.ReadyMsg?
    ensures Protocol(s.toParent + [m]) == [m] && Protocol(s.log + [m]) == [EnteredMsg(s.worker.realm), m]
  {
    PostedProtocol(s, m);
  }

  lemma ImportedReady(s: System)
    requires Inv(s) && Enabled(s, FinishImport) && s.worker.onmessage == Imported
    ensures var t := Step(s, FinishImport); Lockstep(t) && MessagesOk(t) && LogOk(t)
  {
    var (w, posts) := ImportDone(s.worker, s.now);
    var m := ReadyMsg(w.realm, w.observer, w.importMs);
    assert s.worker.stage == Importing && s.parent.stage == AwaitReady;
    ReadyPosted(s, m);
    var t := Posted(s, w, posts);
    assert posts == [m] && t.toParent == s.toParent + [m] && t.log == s.log + [m];
    forall x | x in t.toParent ensures x == m || x in s.toParent {
    }
  }

  lemma ImportedMissing(s: System)
    requires Inv(s) && Enabled(s, FinishImport) && s.worker.onmessage != Imported
    ensures var t := Step(s, FinishImport); Lockstep(t) && MessagesOk(t) && LogOk(t)
  {
    InvFailure(s, ImportDone(s.worker, s.now).0);
  }

  lemma InvFinishImport(s: System)
    requires Inv(s) && Enabled(s, FinishImport)
    ensures Inv(Step(s, FinishImport))
  {
    ImportedEnds(s);
    if s.worker.onmessage == Imported {
      ImportedReady(s);
    } else {
      ImportedMissing(s);
    }
  }

  lemma InvFailImport(s: System)
    requires Inv(s) && Enabled(s, FailImport)
    ensures Inv(Step(s, FailImport))
  {
    InvFailure(s, s.worker);
  }

  lemma InvPost(s: System, completed: bool, expected: bool)
    requires Inv(s) && Enabled(s, Post(completed, expected))
    ensures Inv(Step(s, Post(completed, expected)))
  {
    var (w, posts) := Intercept(s.worker, completed, expected, s.now);
    if w.stage == Finished && s.worker.stage == Executing {
      PostedProtocol(s, posts[0]);
    } else {
      InvFailure(s, w);
    }
  }

  lemma InvThrow(s: System)
    requires Inv(s) && Enabled(s, Throw)
    ensures Inv(Step(s, Throw))
  {
    InvFailure(s, s.worker);
  }

  /** Steps that say nothing: a handler assigned, time passing, the parent giving up. */
  lemma InvQuiet(s: System, a: Action)
    requires Inv(s) && Enabled(s, a) && (a.AssignHandler? || a.Expire? || a.WorkerError? || a.Tick?)
    ensures Inv(Step(s, a))
  {
  }

  lemma InvStep(s: System, a: Action)
    requires Inv(s) && Enabled(s, a)
    ensures Inv(Step(s, a))
  {
    match a
    case StartWorker => InvStart(s);
    case DeliverToParent(t1, t2) => InvToParent(s, t1, t2);
    case DeliverToWorker(t1, t2) => InvToWorker(s, t1, t2);
    case FinishImport => InvFinishImport(s);
    case FailImport => InvFailImport(s);
    case Post(completed, expected) => InvPost(s, completed, expected);
    case Throw => InvThrow(s);
    case _ => InvQuiet(s, a);
  }

  lemma {:induction false} InvRun(states: seq<System>, actions: seq<Action>, i: nat)
    requires Run(states, actions) && i < |states|
    ensures Inv(states[i])
  {
    if i == 0 {
      InvInitial(states[0]);
    } else {
      InvRun(states, actions, i - 1);
      InvStep(states[i - 1], actions[i - 1]);
    }
  }

  lemma InvReachable(s: System)
    requires Reachable(s)
    ensures Inv(s)
  {
    var states, actions :| Run(states, actions) && states[|states| - 1] == s;
    InvRun(states, actions, |states| - 1);
  }

  // ----- the theorems -----

  function Completions(ms: seq<Message>): nat {
    if ms == [] then 0 else (if ms[0].CompletedMsg? then 1 else 0) + Completions(ms[1..])
  }

  lemma {:induction false} ProtocolCompletions(ms: seq<Message>)
    ensures Completions(Protocol(ms)) == Completions(ms)
  {
    if ms != [] {
      ProtocolCompletions(ms[1..]);
      if IsFailure(ms[0]) {
        assert Protocol(ms) == Protocol(ms[1..]);
      } else {
        assert Protocol(ms)[0] == ms[0] && Protocol(ms)[1..] == Protocol(ms[1..]);
      }
    }
  }

  /** The number of completions is the worker's stage. */
  lemma CompletionsByStage(s: System)
    requires Inv(s)
    ensures Completions(s.log) == if s.worker.stage == Finished then 1 else 0
    ensures s.worker.stage == Finished ==> Protocol(s.log)[0].EnteredMsg? && Protocol(s.log)[1].ReadyMsg?
  {
    ProtocolCompletions(s.log);
    var said := Protocol(s.log);
    if s.worker.stage == Finished {
      assert said[0] == said[..2][0] && said[1] == said[..2][1];
      assert said[1..][0] == said[1] && said[1..][1..] == said[2..];
      assert said[2..][0] == said[2] && said[2..][1..] == [];
      assert Completions(said[2..]) == 1;
    } else if |said| == 2 {
      assert said[1].ReadyMsg? && said[1..][0] == said[1] && said[1..][1..] == [];
      assert Completions(said[1..]) == 0;
    } else if |said| == 1 {
      assert said[1..] == [];
    }
  }

  /** Failures aside, at most one message is on its way, counting both directions. */
  lemma OneInFlight(s: System)
    requires Reachable(s)
    ensures |s.toWorker| + |Protocol(s.toParent)| <= 1
  {
    InvReachable(s);
  }

  function Failures(ms: seq<Message>): nat {
    if ms == [] then 0 else (if IsFailure(ms[0]) then 1 else 0) + Failures(ms[1..])
  }

  predicate HasFailure(ms: seq<Message>) {
    exists i :: 0 <= i < |ms| && IsFailure(ms[i])
  }

  lemma {:induction false} FailuresCounted(ms: seq<Message>)
    ensures |ms| == |Protocol(ms)| + Failures(ms)
    ensures Failures(ms) > 0 <==> HasFailure(ms)
  {
    if ms != [] {
      FailuresCounted(ms[1..]);
      if HasFailure(ms) && !IsFailure(ms[0]) {
        var i :| 0 <= i < |ms| && IsFailure(ms[i]);
        assert IsFailure(ms[1..][i - 1]);
      }
      if HasFailure(ms[1..]) {
        var i :| 0 <= i < |ms[1..]| && IsFailure(ms[1..][i]);
        assert IsFailure(ms[i + 1]);
      }
    }
  }

  /** Counting failures too, the bound of one message holds exactly while there is no failure in
      flight, or a single failure and nothing else. */
  lemma AllInFlight(s: System)
    requires Reachable(s)
    ensures |s.toWorker| + |s.toParent| <= 1 + Failures(s.toParent)
    ensures |s.toWorker| + |s.toParent| <= 1
            <==> Failures(s.toParent) == 0 || (Failures(s.toParent) == 1 && s.toWorker == [] && Protocol(s.toParent) == [])
  {
    InvReachable(s);
    FailuresCounted(s.toParent);
  }

  function InFlight(s: System): nat { |s.toWorker| + |s.toParent| }

  /** The steps in which a worker speaks without having been spoken to. */
  predicate Unprompted(a: Action) {
    a.FinishImport? || a.FailImport? || a.Post? || a.Throw?
  }

  lemma DeliveryKeepsCount(s: System, a: Action)
    requires Inv(s) && Enabled(s, a) && InFlight(s) <= 1 && (a.DeliverToParent? || a.DeliverToWorker?)
    ensures InFlight(Step(s, a)) <= 1
  {
    FailuresCounted(s.toParent);
  }

  lemma UnpromptedAddsOne(s: System, a: Action)
    requires Inv(s) && Enabled(s, a) && Unprompted(a)
    ensures InFlight(Step(s, a)) == InFlight(s) + 1
  {
  }

  /** The bound of one message is lost in one way only: the worker speaks unprompted, by an import
      that ends or by production code, while a message is in flight. */
  lemma BoundLostBy(s: System, a: Action)
    requires Reachable(s) && Enabled(s, a) && InFlight(s) <= 1
    ensures InFlight(Step(s, a)) <= 1 <==> !(InFlight(s) == 1 && Unprompted(a))
  {
    InvReachable(s);
    if Unprompted(a) {
      UnpromptedAddsOne(s, a);
    } else if a.DeliverToParent? || a.DeliverToWorker? {
      DeliveryKeepsCount(s, a);
    }
  }

  /** What is in flight was said, and a failure that the parent saw was said. */
  ghost predicate Logged(s: System) {
    && (HasFailure(s.toParent) ==> HasFailure(s.log))
    && (s.parent.outcome == Rejected(NotCompleted) ==> HasFailure(s.log))
  }

  lemma FailureAppend(a: seq<Message>, b: seq<Message>)
    ensures HasFailure(a + b) <==> HasFailure(a) || HasFailure(b)
  {
    if HasFailure(a) {
      var i :| 0 <= i < |a| && IsFailure(a[i]);
      assert IsFailure((a + b)[i]);
    }
    if HasFailure(b) {
      var i :| 0 <= i < |b| && IsFailure(b[i]);
      assert IsFailure((a + b)[|a| + i]);
    }
  }

  lemma LoggedPost(s: System, w: Worker, posts: seq<Message>)
    requires Logged(s)
    ensures Logged(Posted(s, w, posts))
  {
    FailureAppend(s.toParent, posts);
    FailureAppend(s.log, posts);
  }

  lemma LoggedDeliver(s: System, t1: real, t2: real)
    requires Inv(s) && Logged(s) && Enabled(s, DeliverToParent(t1, t2))
    ensures Logged(Step(s, DeliverToParent(t1, t2)))
  {
    assert s.toParent == [s.toParent[0]] + s.toParent[1..];
    FailureAppend([s.toParent[0]], s.toParent[1..]);
    if s.toParent[0].FailureMsg? {
      FailureRejects(s, t1, t2);
      assert IsFailure([s.toParent[0]][0]);
    } else {
      NotRejected(s, t1, t2);
    }
  }

  lemma NotRejected(s: System, t1: real, t2: real)
    requires Inv(s) && Enabled(s, DeliverToParent(t1, t2)) && !s.toParent[0].FailureMsg?
    ensures Step(s, DeliverToParent(t1, t2)).parent.outcome != Rejected(NotCompleted)
  {
    NextMessage(s);
  }

  lemma LoggedStep(s: System, a: Action)
    requires Inv(s) && Logged(s) && Enabled(s, a)
    ensures Logged(Step(s, a))
  {
    match a
    case StartWorker => LoggedPost(s, s.worker.(started := true), [EnteredMsg(s.worker.realm)]);
    case DeliverToParent(t1, t2) => LoggedDeliver(s, t1, t2);
    case DeliverToWorker(t1, t2) =>
      var rest := s.(toWorker := s.toWorker[1..], now := t2);
      var (w, posts) := Receive(s.worker, s.toWorker[0], t1, t2);
      LoggedPost(rest, w, posts);
    case FinishImport =>
      var (w, posts) := ImportDone(s.worker, s.now);
      LoggedPost(s, w, posts);
    case FailImport =>
      var (w, posts) := ImportFailed(s.worker);
      LoggedPost(s, w, posts);
    case Post(completed, expected) =>
      var (w, posts) := Intercept(s.worker, completed, expected, s.now);
      LoggedPost(s, w, posts);
    case Throw => LoggedPost(s, s.worker, Fail(s.worker));
    case _ =>
  }

  lemma {:induction false} LoggedRun(states: seq<System>, actions: seq<Action>, i: nat)
    requires Run(states, actions) && i < |states|
    ensures Logged(states[i])
  {
    if i > 0 {
      LoggedRun(states, actions, i - 1);
      InvRun(states, actions, i - 1);
      LoggedStep(states[i - 1], actions[i - 1]);
    }
  }

  lemma LoggedReachable(s: System)
    requires Reachable(s)
    ensures Logged(s)
  {
    var states, actions :| Run(states, actions) && states[|states| - 1] == s;
    LoggedRun(states, actions, |states| - 1);
  }

  /** As long as the worker has reported no failure, one message is in flight at most. */
  lemma NoFailureOneInFlight(s: System)
    requires Reachable(s) && !HasFailure(s.log)
    ensures InFlight(s) <= 1
  {
    LoggedReachable(s);
    FailuresCounted(s.toParent);
    AllInFlight(s);
  }

  /** Imported code that posts twice during its import puts two failures in flight. */
  lemma TwoInFlight()
    ensures exists s :: Reachable(s) && InFlight(s) == 2
  {
    var w := Worker(false, 1, Configuring, None, None, 0.0, 0.0, Diagnostic, false, false, false);
    var p := Parent(AwaitEntered, 2, false, None, 0.0, 0.0, 0.0, 0.0, None, 0.0, Pending);
    var s0 := System(p, w, [], [], 0.0, [], 0, 0);
    var s1 := Step(s0, StartWorker);
    var s2 := Step(s1, DeliverToParent(0.0, 0.0));
    var s3 := Step(s2, DeliverToWorker(0.0, 0.0));
    var s4 := Step(s3, Post(false, false));
    var s5 := Step(s4, Post(false, false));
    var states := [s0, s1, s2, s3, s4, s5];
    var actions := [StartWorker, DeliverToParent(0.0, 0.0), DeliverToWorker(0.0, 0.0), Post(false, false), Post(false, false)];
    assert Run(states, actions);
    assert states[|states| - 1] == s5 && Reachable(s5);
    assert |s5.toWorker| == 0 && |s5.toParent| == 2 && InFlight(s5) == 2;
  }

  /** Nothing is delivered to a loading worker, so no message ever meets an imported handler. */
  lemma NoDeliveryWhileLoading(s: System)
    requires Reachable(s)
    ensures s.worker.stage == Importing ==> s.toWorker == []
    ensures s.toWorker != [] ==> s.worker.onmessage == Diagnostic
    ensures s.calls <= 1 && s.strayCalls == 0
  {
    InvReachable(s);
  }

  /** Whatever production code posts, the worker forwards at most one completion, after `execute`. */
  lemma OneCompletion(s: System)
    requires Reachable(s)
    ensures Completions(s.log) <= 1
    ensures Completions(s.log) == 1 ==> s.parent.stage == AwaitCompleted || s.parent.stage == Settled
    ensures Completions(s.log) == 1 ==>
              var said := Protocol(s.log);
              && |said| == 3 && said[1].ReadyMsg? && said[2].CompletedMsg?
              && said[2].realm == said[1].realm == said[0].realm
              && said[2].importMs == said[1].importMs && said[2].observer == said[1].observer
  {
    InvReachable(s);
    CompletionsByStage(s);
    assert s.worker.stage == Finished ==> Protocol(s.log)[..2][1] == Protocol(s.log)[1];
  }

  /** The parent's own assertions never fire: it gives up on a reported failure, a wrong response, the
      watchdog or an error event of the worker. */
  lemma RejectionsExplained(s: System)
    requires Reachable(s) && s.parent.outcome.Rejected?
    ensures s.parent.outcome.reason in {NotCompleted, WrongResponse, Watchdog, WorkerFailed}
    ensures s.parent.outcome.reason == WrongResponse ==> Completions(s.log) == 1
    ensures s.parent.outcome.reason == NotCompleted ==> HasFailure(s.log)
  {
    InvReachable(s);
    CompletionsByStage(s);
    LoggedReachable(s);
  }

  /** Every row the parent resolves with passes the validator's checks on a wrapped worker. */
  lemma ResolvedRowAccepted(s: System)
    requires Reachable(s) && s.parent.outcome.Resolved?
    ensures RowAccepted(s.parent.outcome.row, s.parent.empty)
    ensures s.parent.outcome.row.observer == s.parent.observer && s.parent.outcome.row.realm == s.worker.realm
    ensures s.calls == if s.parent.empty then 0 else 1
  {
    InvReachable(s);
  }

  lemma ReachNext(s: System, a: Action)
    requires Reachable(s) && Enabled(s, a)
    ensures Reachable(Step(s, a))
  {
    var states, actions :| Run(states, actions) && states[|states| - 1] == s;
    var longer, all := states + [Step(s, a)], actions + [a];
    forall i | 0 <= i < |all| ensures Enabled(longer[i], all[i]) && longer[i + 1] == Step(longer[i], all[i]) {
      if i < |actions| {
        assert longer[i] == states[i] && longer[i + 1] == states[i + 1] && all[i] == actions[i];
      }
    }
    assert Run(longer, all);
  }

  lemma ReachInitial(s: System)
    requires Initial(s)
    ensures Reachable(s)
  {
    assert Run([s], []);
  }

  /** Where a handshake with these ids begins. */
  function Beginning(observer: Id, realm: Id, empty: bool): System {
    System(Parent(AwaitEntered, observer, empty, None, 0.0, 0.0, 0.0, 0.0, None, 0.0, Pending),
           Worker(false, realm, Configuring, None, None, 0.0, 0.0, Diagnostic, false, false, false),
           [], [], 0.0, [], 0, 0)
  }

  /** The worker has its configuration in front of it. */
  lemma Configured(observer: Id, realm: Id, empty: bool) returns (s: System)
    ensures Reachable(s) && s.worker.started && s.parent.stage == AwaitReady && s.worker.stage == Configuring
    ensures s.parent.observer == observer && s.worker.realm == realm && s.parent.empty == empty
    ensures s.parent.outcome.Pending? && s.now == 0.0
  {
    s := Beginning(observer, realm, empty);
    ReachInitial(s);
    ReachNext(s, StartWorker);
    s := Step(s, StartWorker);
    ReachNext(s, DeliverToParent(0.0, 0.0));
    s := Step(s, DeliverToParent(0.0, 0.0));
  }

  /** Two ends that have not given up, at time zero. */
  ghost predicate Underway(s: System, observer: Id, realm: Id, empty: bool) {
    && Reachable(s) && s.parent.outcome.Pending? && s.now == 0.0
    && s.parent.observer == observer && s.worker.realm == realm && s.parent.empty == empty
  }

  /** An import that installs a handler makes the worker ready. */
  lemma ImportEnds(s0: System) returns (s: System)
    requires Reachable(s0) && s0.worker.importing && s0.toParent == []
    ensures Reachable(s) && s.parent == s0.parent && s.now == s0.now && s.worker.realm == s0.worker.realm
    ensures s.worker.stage == Ready && s.worker.overridden == s0.worker.overridden
    ensures |s.toParent| == 1 && s.toParent[0].ReadyMsg?
  {
    ReachNext(s0, AssignHandler(Imported));
    s := Step(s0, AssignHandler(Imported));
    ReachNext(s, FinishImport);
    s := Step(s, FinishImport);
  }

  /** The worker has announced that it is ready. */
  lemma MadeReady(observer: Id, realm: Id, empty: bool) returns (s: System)
    ensures Underway(s, observer, realm, empty) && s.worker.stage == Ready && s.parent.stage == AwaitReady
    ensures |s.toParent| == 1 && s.toParent[0].ReadyMsg? && (!empty ==> s.worker.overridden)
  {
    s := Configured(observer, realm, empty);
    InvReachable(s);
    ReachNext(s, DeliverToWorker(0.0, 0.0));
    s := Step(s, DeliverToWorker(0.0, 0.0));
    if !empty {
      s := ImportEnds(s);
    }
  }

  /** The parent has asked for the execution. */
  lemma Asked(observer: Id, realm: Id, empty: bool) returns (s: System)
    ensures Underway(s, observer, realm, empty) && s.worker.stage == Ready && s.parent.stage == AwaitCompleted
    ensures s.toParent == [] && (!empty ==> s.worker.overridden)
  {
    s := MadeReady(observer, realm, empty);
    InvReachable(s);
    NextMessage(s);
    ReachNext(s, DeliverToParent(0.0, 0.0));
    s := Step(s, DeliverToParent(0.0, 0.0));
  }

  /** The completion is on its way, with the expected response. */
  lemma Executed(observer: Id, realm: Id, empty: bool) returns (s: System)
    ensures Underway(s, observer, realm, empty) && s.worker.stage == Finished && s.parent.stage == AwaitCompleted
    ensures |s.toParent| == 1 && s.toParent[0].CompletedMsg? && s.toParent[0].expected
  {
    s := Asked(observer, realm, empty);
    InvReachable(s);
    ReachNext(s, DeliverToWorker(0.0, 0.0));
    s := Step(s, DeliverToWorker(0.0, 0.0));
    if !empty {
      ReachNext(s, Post(true, true));
      s := Step(s, Post(true, true));
    }
  }

  /** Production code that throws where it is called fails the handshake. */
  lemma ThrowRejects(observer: Id, realm: Id) returns (s: System)
    ensures Reachable(s) && s.parent.outcome == Rejected(NotCompleted) && s.calls == 1 && Completions(s.log) == 0
  {
    s := Asked(observer, realm, false);
    InvReachable(s);
    ReachNext(s, DeliverToWorker(0.0, 0.0));
    s := Step(s, DeliverToWorker(0.0, 0.0));
    ReachNext(s, Throw);
    s := Step(s, Throw);
    InvReachable(s);
    FailureRejects(s, 0.0, 0.0);
    ReachNext(s, DeliverToParent(0.0, 0.0));
    s := Step(s, DeliverToParent(0.0, 0.0));
    InvReachable(s);
    CompletionsByStage(s);
  }

  /** A handshake can resolve, for every pair of ids, with and without production code. */
  lemma HandshakeResolves(observer: Id, realm: Id, empty: bool) returns (s: System)
    ensures Reachable(s) && s.parent.outcome.Resolved? && s.parent.empty == empty
    ensures s.parent.outcome.row.observer == observer && s.parent.outcome.row.realm == realm
  {
    s := Executed(observer, realm, empty);
    InvReachable(s);
    NextMessage(s);
    ReachNext(s, DeliverToParent(0.0, 0.0));
    s := Step(s, DeliverToParent(0.0, 0.0));
  }
}
