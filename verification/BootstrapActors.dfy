/** The two ends of the bootstrap handshake as the source has them: state changed per message. */
module BootstrapActors {
  import opened Options
  import opened Handshake

  class BootstrapWorker {
    const realm: Id
    var started: bool
    var stage: WorkerStage
    var observer: Option<Id>
    var importMs: Option<real>
    var importStarted: real
    var executionStarted: real
    var onmessage: Handler
    var production: bool
    var overridden: bool
    var importing: bool

    ghost function View(): Worker
      reads this
    {
      Worker(started, realm, stage, observer, importMs, importStarted, executionStarted,
             onmessage, production, overridden, importing)
    }

    /** The module body: everything unset, the diagnostic handler installed. */
    constructor (realm: Id)
      ensures View() == Worker(false, realm, Configuring, None, None, 0.0, 0.0, Diagnostic, false, false, false)
    {
      this.realm := realm;
      started, stage, observer, importMs := false, Configuring, None, None;
      importStarted, executionStarted := 0.0, 0.0;
      onmessage, production, overridden, importing := Diagnostic, false, false, false;
    }

    method OnMessage(c: Command, t1: real, t2: real) returns (posts: seq<Message>)
      modifies this
      ensures (View(), posts) == Receive(old(View()), c, t1, t2)
    {
      if stage == Configuring && c.Configure? {
        stage, observer := Importing, Some(c.observer);
        if !c.empty {
          overridden, importStarted, importing := true, t1, true;
          return [];
        }
        onmessage := Diagnostic;
        stage := Ready;
        return [ReadyMsg(realm, observer, importMs)];
      }
      if stage != Ready || !c.Execute? || observer != Some(c.observer) {
        return [FailureMsg(realm, observer)];
      }
      stage, executionStarted := Executing, t1;
      if !production {
        stage := Finished;
        return [CompletedMsg(realm, observer, None, t2 - executionStarted, true)];
      }
      posts := [];
    }

    method ImportResolved(now: real) returns (posts: seq<Message>)
      modifies this
      ensures (View(), posts) == ImportDone(old(View()), now)
    {
      importing := false;
      importMs := Some(now - importStarted);
      if onmessage != Imported {
        return [FailureMsg(realm, observer)];
      }
      production := true;
      onmessage := Diagnostic;
      stage := Ready;
      posts := [ReadyMsg(realm, observer, importMs)];
    }

    method ImportRejected() returns (posts: seq<Message>)
      modifies this
      ensures (View(), posts) == ImportFailed(old(View()))
    {
      importing := false;
      posts := [FailureMsg(realm, observer)];
    }

    /** The replacement installed over `self.postMessage`. */
    method PostMessage(completed: bool, expected: bool, now: real) returns (posts: seq<Message>)
      modifies this
      ensures (View(), posts) == Intercept(old(View()), completed, expected, now)
    {
      if stage != Executing || !completed {
        return [FailureMsg(realm, observer)];
      }
      var executionMs := now - executionStarted;
      stage := Finished;
      posts := [CompletedMsg(realm, observer, importMs, executionMs, expected)];
    }
  }

  class BootstrapObserver {
    const observer: Id
    const empty: bool
    const began: real
    const constructorMs: real
    var stage: ParentStage
    var realm: Option<Id>
    var enteredMs: real
    var readyMs: real
    var importMs: Option<real>
    var requestStarted: real
    var outcome: Outcome

    ghost function View(): Parent
      reads this
    {
      Parent(stage, observer, empty, realm, began, constructorMs, enteredMs, readyMs, importMs, requestStarted, outcome)
    }

    constructor (observer: Id, empty: bool, began: real, constructorMs: real)
      ensures View() == Parent(AwaitEntered, observer, empty, None, began, constructorMs, 0.0, 0.0, None, 0.0, Pending)
    {
      this.observer, this.empty, this.began, this.constructorMs := observer, empty, began, constructorMs;
      stage, realm, enteredMs, readyMs := AwaitEntered, None, 0.0, 0.0;
      importMs, requestStarted, outcome := None, 0.0, Pending;
    }

    method OnMessage(m: Message, t1: real, t2: real) returns (commands: seq<Command>)
      modifies this
      ensures (View(), commands) == Observe(old(View()), m, t1, t2)
    {
      commands := [];
      if realm.Some? && m.realm != realm.value {
        outcome := Rejected(WrongRealm);
        return;
      }
      if m.EnteredMsg? {
        if stage != AwaitEntered {
          outcome := Rejected(WrongStage);
          return;
        }
        realm, enteredMs, stage := Some(m.realm), t1 - began, AwaitReady;
        return [Configure(observer, empty)];
      }
      if m.observer != Some(observer) {
        outcome := Rejected(WrongObserver);
        return;
      }
      if m.ReadyMsg? {
        if stage != AwaitReady {
          outcome := Rejected(WrongStage);
          return;
        }
        importMs, readyMs := m.importMs, t1 - began;
        stage, requestStarted := AwaitCompleted, t2;
        return [Execute(observer)];
      }
      if !m.CompletedMsg? {
        outcome := Rejected(NotCompleted);
      } else if m.importMs != importMs {
        outcome := Rejected(ImportDrift);
      } else if stage != AwaitCompleted {
        outcome := Rejected(WrongStage);
      } else {
        stage := Settled;
        if !m.expected {
          outcome := Rejected(WrongResponse);
          return;
        }
        outcome := Resolved(
          Row(observer, m.realm, constructorMs, enteredMs, readyMs, importMs,
              t1 - requestStarted, t2 - began, m.executionMs, !empty));
      }
    }
  }

  /** Both ends and what is on its way between them. `log` and the two call counters are kept for
      the theorems about runs. */
  class Bootstrap {
    const worker: BootstrapWorker
    const parent: BootstrapObserver
    var toWorker: seq<Command>
    var toParent: seq<Message>
    var now: real
    ghost var log: seq<Message>
    var calls: nat
    ghost var strayCalls: nat

    ghost function View(): System
      reads this, worker, parent
    {
      System(parent.View(), worker.View(), toWorker, toParent, now, log, calls, strayCalls)
    }

    constructor (realm: Id, observer: Id, empty: bool, began: real, now: real)
      requires began <= now
      ensures Initial(View()) && fresh(worker) && fresh(parent)
    {
      worker := new BootstrapWorker(realm);
      parent := new BootstrapObserver(observer, empty, began, now - began);
      toWorker, toParent, this.now, log, calls, strayCalls := [], [], now, [], 0, 0;
    }

    method Post(posts: seq<Message>)
      modifies this`toParent, this`log
      ensures toParent == old(toParent) + posts && log == old(log) + posts
    {
      toParent, log := toParent + posts, log + posts;
    }

    /** The worker gets the oldest command, through whatever handler is in force. */
    method DeliverCommand(t1: real, t2: real)
      requires Enabled(View(), DeliverToWorker(t1, t2))
      modifies this, worker
      ensures View() == Step(old(View()), DeliverToWorker(t1, t2))
    {
      var c := toWorker[0];
      toWorker, now := toWorker[1..], t2;
      if worker.onmessage == Diagnostic {
        var before := worker.stage;
        var posts := worker.OnMessage(c, t1, t2);
        Post(posts);
        calls := if worker.stage == Executing && before != Executing then calls + 1 else calls;
      } else if worker.onmessage == Imported {
        calls, strayCalls := calls + 1, strayCalls + 1;
      }
    }

    /** The parent gets the oldest message, and its answer goes to the worker. */
    method DeliverMessage(t1: real, t2: real)
      requires Enabled(View(), DeliverToParent(t1, t2))
      modifies this`toParent, this`now, this`toWorker, parent
      ensures View() == Step(old(View()), DeliverToParent(t1, t2))
    {
      var m := toParent[0];
      toParent, now := toParent[1..], t2;
      var commands := parent.OnMessage(m, t1, t2);
      toWorker := toWorker + commands;
    }

    /** Any other step of the worker: it starts, its import ends, or production code does something. */
    method WorkerStep(a: Action)
      requires Enabled(View(), a)
      requires a.StartWorker? || a.AssignHandler? || a.FinishImport? || a.FailImport? || a.Post? || a.Throw?
      modifies this`toParent, this`log, worker
      ensures View() == Step(old(View()), a)
    {
      var posts: seq<Message> := [];
      if a.StartWorker? {
        worker.started := true;
        posts := [EnteredMsg(worker.realm)];
      } else if a.AssignHandler? {
        worker.onmessage := a.handler;
        return;
      } else if a.FinishImport? {
        posts := worker.ImportResolved(now);
      } else if a.FailImport? {
        posts := worker.ImportRejected();
      } else if a.Post? {
        posts := worker.PostMessage(a.completed, a.expected, now);
      } else {
        posts := [FailureMsg(worker.realm, worker.observer)];
      }
      Post(posts);
    }

    /** Any step, by the objects; the lockstep invariant holds of them afterwards. */
    method Perform(a: Action)
      requires Inv(View()) && Enabled(View(), a)
      modifies this, worker, parent
      ensures View() == Step(old(View()), a) && Inv(View())
    {
      InvStep(View(), a);
      match a {
        case DeliverToParent(t1, t2) => DeliverMessage(t1, t2);
        case DeliverToWorker(t1, t2) => DeliverCommand(t1, t2);
        case Expire => parent.outcome := Rejected(Watchdog);
        case WorkerError => parent.outcome := Rejected(WorkerFailed);
        case Tick(to) => now := to;
        case _ => WorkerStep(a);
      }
    }
  }
}
