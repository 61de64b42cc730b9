/**
 The closed measuring loop: the driver triggers one run, waits for its terminal signal, and only
 then triggers the next; the child matches terminal presentations to request ids first in,
 first out.
 */
module ClosedLoop {
  import opened Options
  import opened Sequences

  // ----- the child's queue -----

  datatype Presentation = Presentation(runId: nat, terminal: bool, succeeded: bool)

  datatype Signal = RunTerminal(requestId: nat, runId: nat, succeeded: bool) | Unmatched(runId: nat)

  function Terminals(ps: seq<Presentation>): seq<Presentation> {
    Filter(ps, (p: Presentation) => p.terminal)
  }

  /** First in, first out: the oldest request takes the next terminal run, a run without one is an error. */
  function Matched(pending: seq<nat>, runs: seq<Presentation>): (signals: seq<Signal>)
    ensures |signals| == |runs|
    ensures forall i | 0 <= i < |runs| ::
              signals[i] == if i < |pending| then RunTerminal(pending[i], runs[i].runId, runs[i].succeeded)
                            else Unmatched(runs[i].runId)
  {
    seq(|runs|, i requires 0 <= i < |runs| =>
      if i < |pending| then RunTerminal(pending[i], runs[i].runId, runs[i].succeeded) else Unmatched(runs[i].runId))
  }

  class ControlledInput {
    var pendingRequestIds: seq<nat>

    constructor ()
      ensures pendingRequestIds == []
    {
      pendingRequestIds := [];
    }

    /** The start of a trigger; what follows is the runtime's business. */
    method Push(requestId: nat)
      modifies this
      ensures pendingRequestIds == old(pendingRequestIds) + [requestId]
    {
      pendingRequestIds := pendingRequestIds + [requestId];
    }

    /** A trigger whose line handler threw takes its id back. */
    method Pop()
      modifies this
      ensures pendingRequestIds == Popped(old(pendingRequestIds))
    {
      if pendingRequestIds != [] {
        pendingRequestIds := pendingRequestIds[..|pendingRequestIds| - 1];
      }
    }

    /** Presentations in the order they are written; running ones are passed over. */
    method InspectPresentation(ps: seq<Presentation>) returns (signals: seq<Signal>)
      modifies this
      ensures signals == Matched(old(pendingRequestIds), Terminals(ps))
      ensures pendingRequestIds == Dropped(old(pendingRequestIds), |Terminals(ps)|)
    {
      signals := [];
      ghost var start := pendingRequestIds;
      for i := 0 to |ps|
        invariant signals == Matched(start, Terminals(ps[..i]))
        invariant pendingRequestIds == Dropped(start, |Terminals(ps[..i])|)
      {
        var p := ps[i];
        ghost var runs := Terminals(ps[..i]);
        assert ps[..i + 1] == ps[..i] + [p];
        FilterAppend(ps[..i], [p], (p: Presentation) => p.terminal);
        if !p.terminal {
          assert Terminals([p]) == [] && runs + [] == runs;
          continue;
        }
        assert Terminals([p]) == [p];
        if pendingRequestIds == [] {
          signals := signals + [Unmatched(p.runId)];
        } else {
          signals := signals + [RunTerminal(pendingRequestIds[0], p.runId, p.succeeded)];
          pendingRequestIds := pendingRequestIds[1..];
        }
      }
      assert ps[..|ps|] == ps;
    }
  }

  function Popped(s: seq<nat>): seq<nat> {
    if s == [] then [] else s[..|s| - 1]
  }

  function Dropped(s: seq<nat>, n: nat): seq<nat> {
    if n <= |s| then s[n..] else []
  }

  // ----- driver and child together -----

  /** A line handler in progress: its request, and whether the runtime has admitted the run. */
  datatype Call = Call(id: nat, admitted: bool)

  /** `next` counts the requests the driver sent; `emitted` lists the ids of terminal signals; an
      id is `pushed` when its trigger begins and `taken` back when its line handler throws. A run
      is orphaned when the line handler throws between admitting it and its terminal. */
  datatype System = System(
    next: nat, waiting: bool, halted: bool, controls: seq<nat>, pending: seq<nat>, call: Option<Call>,
    running: nat, emitted: seq<nat>, inbox: seq<Signal>, pushed: nat, taken: nat,
    dead: bool, orphaned: bool)

  const START := System(0, false, false, [], [], None, 0, [], [], 0, 0, false, false)

  datatype Action =
    | SendTrigger            // the driver writes a control line
    | BeginTrigger           // the child takes a control line and calls the line handler
    | Admit                  // the runtime admits a run for the line
    | ResolveLine            // the line handler returns, with or without a run admitted
    | RejectLine             // the line handler throws
    | Settle(runId: nat, succeeded: bool)  // an admitted run writes its terminal presentation
    | Receive                // the driver finds the signal it waits for, or an error

  predicate IsError(s: Signal) { s.Unmatched? }

  predicate Awaited(s: System, m: Signal) { m.RunTerminal? && m.requestId + 1 == s.next }

  predicate Enabled(s: System, a: Action) {
    match a
    case SendTrigger => !s.waiting && !s.halted
    case BeginTrigger => !s.dead && s.call.None? && s.controls != []
    case Admit => s.call.Some? && !s.call.value.admitted
    case ResolveLine => s.call.Some?
    case RejectLine => s.call.Some?
    case Settle(_, _) => s.running > 0
    case Receive => s.waiting && !s.halted && exists m :: m in s.inbox && (IsError(m) || Awaited(s, m))
  }

  function FirstAwaited(s: System, inbox: seq<Signal>): (i: nat)
    ensures i <= |inbox| && (i < |inbox| ==> Awaited(s, inbox[i]))
  {
    if inbox == [] || Awaited(s, inbox[0]) then 0 else 1 + FirstAwaited(s, inbox[1..])
  }

  function Step(s: System, a: Action): System
    requires Enabled(s, a)
  {
    match a
    case SendTrigger => s.(controls := s.controls + [s.next], next := s.next + 1, waiting := true)
    case BeginTrigger =>
      s.(controls := s.controls[1..], pending := s.pending + [s.controls[0]],
         call := Some(Call(s.controls[0], false)), pushed := s.pushed + 1)
    case Admit => s.(call := Some(Call(s.call.value.id, true)), running := s.running + 1)
    case ResolveLine => s.(call := None)
    case RejectLine =>
      s.(call := None, pending := Popped(s.pending), taken := if s.pending == [] then s.taken else s.taken + 1,
         dead := true, orphaned := s.orphaned || (s.call.value.admitted && s.running > 0))
    case Settle(runId, succeeded) =>
      var s := s.(running := s.running - 1);
      if s.pending == [] then s.(inbox := s.inbox + [Unmatched(runId)])
      else
        s.(inbox := s.inbox + [RunTerminal(s.pending[0], runId, succeeded)],
           emitted := s.emitted + [s.pending[0]], pending := s.pending[1..])
    case Receive => Received(s)
  }

  /** An error stops the driver; otherwise it takes the first signal it waits for. */
  function Received(s: System): System {
    if exists m :: m in s.inbox && IsError(m) then s.(halted := true)
    else
      var i := FirstAwaited(s, s.inbox);
      if i == |s.inbox| then s
      else s.(inbox := s.inbox[..i] + s.inbox[i + 1..], waiting := false, halted := !s.inbox[i].succeeded)
  }

  ghost predicate Run(states: seq<System>, actions: seq<Action>) {
    && |states| == |actions| + 1 && states[0] == START
    && forall i | 0 <= i < |actions| :: Enabled(states[i], actions[i]) && states[i + 1] == Step(states[i], actions[i])
  }

  ghost predicate Reachable(s: System) {
    exists states, actions :: Run(states, actions) && states[|states| - 1] == s
  }

  // ----- what every step keeps -----

  ghost predicate UpTo(ids: seq<nat>, n: nat) {
    |ids| == n && forall i | 0 <= i < n :: ids[i] == i
  }

  /** The line handler is idle, or busy with a run that is already settled or about to be. */
  predicate CallDone(s: System) {
    s.call.Some? ==> s.call.value.admitted
  }

  /** Nothing outstanding: every request sent has its signal, and the driver may send again. */
  predicate Idle(s: System) {
    s.controls == [] && s.pending == [] && s.running == 0 && s.inbox == [] && CallDone(s)
  }

  /** The line handler returned without admitting a run: the request stays, and nothing will answer it. */
  predicate Unanswered(s: System, k: nat) {
    s.controls == [] && s.pending == [k] && s.running == 0 && s.inbox == [] && s.call.None?
  }

  /** One request outstanding, on its way from control line to terminal signal. */
  ghost predicate InProgress(s: System, k: nat) {
    || (s.controls == [k] && s.pending == [] && s.running == 0 && s.inbox == [] && CallDone(s))
    || (s.controls == [] && s.pending == [k] && s.running == 0 && s.inbox == [] && s.call == Some(Call(k, false)))
    || Unanswered(s, k)
    || (s.controls == [] && s.pending == [k] && s.running == 1 && s.inbox == [] && CallDone(s))
    || (s.controls == [] && s.pending == [] && s.running == 0 && CallDone(s)
        && |s.inbox| == 1 && s.inbox[0].RunTerminal? && s.inbox[0].requestId == k)
  }

  /** The last request was refused before a run was admitted; the child reads no further. */
  predicate Refused(s: System) {
    s.dead && s.controls == [] && s.pending == [] && s.running == 0 && s.inbox == [] && s.call.None?
  }

  /** A run was admitted, and its request is gone: the child reads no further. */
  predicate Orphaned(s: System) {
    s.orphaned && s.dead && s.pending == [] && s.call.None?
  }

  ghost predicate Correlated(s: System) {
    && !s.orphaned
    && (if s.waiting then s.next > 0 && (InProgress(s, s.next - 1) || Refused(s)) else Idle(s))
    && s.pushed - s.taken == |s.emitted| + |s.pending|
    && UpTo(s.emitted, |s.emitted|) && |s.emitted| <= s.next
    && (s.pending != [] ==> s.pending == [|s.emitted|])
    && (!s.waiting ==> |s.emitted| == s.next)
    && (s.waiting && !Refused(s) ==> |s.emitted| + (if s.inbox == [] then 1 else 0) == s.next)
  }

  ghost predicate Inv(s: System) {
    Orphaned(s) || Correlated(s)
  }

  lemma InvSend(s: System)
    requires Correlated(s) && Enabled(s, SendTrigger)
    ensures Correlated(Step(s, SendTrigger))
  {
  }

  lemma InvBegin(s: System)
    requires Correlated(s) && Enabled(s, BeginTrigger)
    ensures Correlated(Step(s, BeginTrigger))
  {
    assert InProgress(s, s.next - 1);
  }

  lemma InvAdmit(s: System)
    requires Correlated(s) && Enabled(s, Admit)
    ensures Correlated(Step(s, Admit))
  {
  }

  lemma InvResolve(s: System)
    requires Correlated(s) && Enabled(s, ResolveLine)
    ensures Correlated(Step(s, ResolveLine))
  {
  }

  lemma InvReject(s: System)
    requires Correlated(s) && Enabled(s, RejectLine)
    ensures Inv(Step(s, RejectLine))
  {
  }

  lemma InvSettle(s: System, runId: nat, succeeded: bool)
    requires Correlated(s) && Enabled(s, Settle(runId, succeeded))
    ensures Correlated(Step(s, Settle(runId, succeeded)))
  {
    assert InProgress(s, s.next - 1);
    assert s.pending == [s.next - 1];
  }

  lemma InvReceive(s: System)
    requires Correlated(s) && Enabled(s, Receive)
    ensures Correlated(Step(s, Receive))
  {
    assert InProgress(s, s.next - 1) && |s.inbox| == 1;
    assert forall m | m in s.inbox :: m == s.inbox[0];
  }

  lemma InvStep(s: System, a: Action)
    requires Inv(s) && Enabled(s, a)
    ensures Inv(Step(s, a))
  {
    if Correlated(s) {
      match a
      case SendTrigger => InvSend(s);
      case BeginTrigger => InvBegin(s);
      case Admit => InvAdmit(s);
      case ResolveLine => InvResolve(s);
      case RejectLine => InvReject(s);
      case Settle(runId, succeeded) => InvSettle(s, runId, succeeded);
      case Receive => InvReceive(s);
    } else {
      assert Orphaned(Step(s, a));
    }
  }

  lemma {:induction false} InvRun(states: seq<System>, actions: seq<Action>, i: nat)
    requires Run(states, actions) && i < |states|
    ensures Inv(states[i])
  {
    if i > 0 {
      InvRun(states, actions, i - 1);
      InvStep(states[i - 1], actions[i - 1]);
    }
  }

  lemma InvReachable(s: System)
    requires Reachable(s)
    ensures Inv(s)
  {
    var states, actions :| Run(states, actions) && states[|states| - 1] == s;
    InvRun(states, actions, |states| - 1);
  }

  predicate HasError(inbox: seq<Signal>) {
    exists i :: 0 <= i < |inbox| && inbox[i].Unmatched?
  }

  /** A waiting driver goes on exactly when there is an error or the answer to its last request. */
  lemma DriverGoesOn(s: System)
    requires s.waiting && !s.halted
    ensures Enabled(s, Receive) <==>
              || HasError(s.inbox)
              || exists i :: 0 <= i < |s.inbox| && s.inbox[i].RunTerminal? && s.inbox[i].requestId == s.next - 1
  {
    forall i | 0 <= i < |s.inbox| ensures s.inbox[i] in s.inbox {
    }
    if exists m :: m in s.inbox && (IsError(m) || Awaited(s, m)) {
      var m :| m in s.inbox && (IsError(m) || Awaited(s, m));
      var i :| 0 <= i < |s.inbox| && s.inbox[i] == m;
    }
  }

  /** An error stops it. Otherwise, in every run without orphans, what it receives is the one signal
      there is, the answer to its last request; it goes on if the run succeeded and stops if not. */
  lemma DriverReceives(s: System)
    requires Reachable(s) && Enabled(s, Receive)
    ensures HasError(s.inbox) ==> Step(s, Receive) == s.(halted := true)
    ensures !s.orphaned ==>
              && |s.inbox| == 1 && s.inbox[0].RunTerminal? && s.inbox[0].requestId == s.next - 1
              && Step(s, Receive) == s.(inbox := [], waiting := false, halted := !s.inbox[0].succeeded)
  {
    InvReachable(s);
    if HasError(s.inbox) {
      var i :| 0 <= i < |s.inbox| && s.inbox[i].Unmatched?;
      assert s.inbox[i] in s.inbox && IsError(s.inbox[i]);
    }
    if !s.orphaned {
      assert InProgress(s, s.next - 1) && |s.inbox| == 1;
      assert forall m | m in s.inbox :: m == s.inbox[0];
      assert s.inbox[..0] + s.inbox[1..] == [];
    }
  }

  // ----- the loop with the child's real queue -----

  /** Driver and child, the queue being the child's own. */
  class Loop {
    const input: ControlledInput
    var rest: System

    ghost function View(): System
      reads this, input
    {
      rest.(pending := input.pendingRequestIds)
    }

    constructor ()
      ensures View() == START && fresh(input)
    {
      input := new ControlledInput();
      rest := START;
    }

    /** One step of driver or child; the queue is pushed, popped and shifted as the child does it. */
    method Perform(a: Action)
      requires Inv(View()) && Enabled(View(), a)
      modifies this`rest, input
      ensures View() == Step(old(View()), a) && Inv(View())
    {
      InvStep(View(), a);
      match a {
        case SendTrigger =>
          rest := rest.(controls := rest.controls + [rest.next], next := rest.next + 1, waiting := true);
        case BeginTrigger =>
          var id := rest.controls[0];
          input.Push(id);
          rest := rest.(controls := rest.controls[1..], call := Some(Call(id, false)), pushed := rest.pushed + 1);
        case Admit =>
          rest := rest.(call := Some(Call(rest.call.value.id, true)), running := rest.running + 1);
        case ResolveLine =>
          rest := rest.(call := None);
        case RejectLine =>
          var had := input.pendingRequestIds != [];
          input.Pop();
          rest := rest.(call := None, taken := if had then rest.taken + 1 else rest.taken, dead := true,
            orphaned := rest.orphaned || (rest.call.value.admitted && rest.running > 0));
        case Settle(runId, succeeded) =>
          OnePresentation(input.pendingRequestIds, runId, succeeded);
          var signals := input.InspectPresentation([Presentation(runId, true, succeeded)]);
          rest := rest.(running := rest.running - 1, inbox := rest.inbox + signals,
            emitted := if signals[0].RunTerminal? then rest.emitted + [signals[0].requestId] else rest.emitted);
        case Receive =>
          ReceivedElsewhere(rest, input.pendingRequestIds);
          rest := Received(rest);
      }
    }
  }

  /** What one terminal presentation does to the queue. */
  lemma OnePresentation(pending: seq<nat>, runId: nat, succeeded: bool)
    ensures var runs := Terminals([Presentation(runId, true, succeeded)]);
            && |runs| == 1
            && Matched(pending, runs)
               == [if pending == [] then Unmatched(runId) else RunTerminal(pending[0], runId, succeeded)]
            && Dropped(pending, |runs|) == if pending == [] then [] else pending[1..]
  {
    var p := Presentation(runId, true, succeeded);
    assert Terminals([p]) == [p] + Terminals([p][1..]);
  }

  lemma {:induction false} FirstAwaitedSame(s: System, t: System, inbox: seq<Signal>)
    requires s.next == t.next
    ensures FirstAwaited(s, inbox) == FirstAwaited(t, inbox)
  {
    if inbox != [] {
      FirstAwaitedSame(s, t, inbox[1..]);
    }
  }

  /** The driver does not look at the child's queue. */
  lemma ReceivedElsewhere(s: System, pending: seq<nat>)
    ensures Received(s.(pending := pending)) == Received(s).(pending := pending)
  {
    FirstAwaitedSame(s, s.(pending := pending), s.inbox);
  }

  /** The driver plays any script of enabled steps; whatever it is, the correlation holds at the end. */
  method Play(script: seq<Action>) returns (loop: Loop, played: nat)
    ensures fresh(loop) && fresh(loop.input) && played <= |script| && Inv(loop.View())
    ensures played < |script| ==> !Enabled(loop.View(), script[played])
    ensures Reachable(loop.View())
  {
    loop := new Loop();
    played := 0;
    ghost var states := [START];
    while played < |script| && Permits(loop.rest, loop.input.pendingRequestIds, script[played])
      invariant 0 <= played <= |script| && Inv(loop.View()) && fresh(loop) && fresh(loop.input)
      invariant Run(states, script[..played]) && states[played] == loop.View()
    {
      loop.Perform(script[played]);
      RunNext(states, script[..played], script[played]);
      assert script[..played + 1] == script[..played] + [script[played]];
      states := states + [loop.View()];
      played := played + 1;
    }
  }

  predicate Permits(rest: System, pending: seq<nat>, a: Action) {
    Enabled(rest.(pending := pending), a)
  }

  lemma RunNext(states: seq<System>, actions: seq<Action>, a: Action)
    requires Run(states, actions) && Enabled(states[|actions|], a)
    ensures Run(states + [Step(states[|actions|], a)], actions + [a])
  {
  }

  // ----- the theorems -----

  /** While no run is orphaned: at most one id is outstanding, signals come in submission order,
      requests balance, and a run's terminal always finds its request waiting. */
  lemma LoopCorrelates(s: System)
    requires Reachable(s) && !s.orphaned
    ensures |s.pending| <= 1 && |s.controls| <= 1 && s.running <= 1
    ensures forall i | 0 <= i < |s.emitted| :: s.emitted[i] == i
    ensures s.pushed - s.taken == |s.emitted| + |s.pending|
    ensures s.running > 0 ==> s.pending == [s.next - 1]
    ensures forall m | m in s.inbox :: !IsError(m)
    ensures !s.waiting ==> |s.emitted| == s.next
  {
    InvReachable(s);
  }

  /** A run's terminal finds no request exactly when a line handler threw after admitting a run
      that had not settled, however long ago that was. */
  lemma TerminalUnmatchedIff(s: System, runId: nat, succeeded: bool)
    requires Reachable(s) && Enabled(s, Settle(runId, succeeded))
    ensures s.pending == [] <==> s.orphaned
    ensures s.orphaned ==> Step(s, Settle(runId, succeeded)).inbox == s.inbox + [Unmatched(runId)]
    ensures !s.orphaned ==>
              s.next > 0 && Step(s, Settle(runId, succeeded)).inbox == s.inbox + [RunTerminal(s.next - 1, runId, succeeded)]
  {
    InvReachable(s);
    assert Correlated(s) ==> InProgress(s, s.next - 1);
  }

  /** An orphan comes about in one way only, and then stays one. */
  lemma OrphanedBy(s: System, a: Action)
    requires Reachable(s) && Enabled(s, a)
    ensures Step(s, a).orphaned <==> s.orphaned || (a == RejectLine && s.running > 0)
  {
    InvReachable(s);
  }

  /** A line handler may return without a run: then no step of driver or child answers the request,
      and the driver is left to its deadline. */
  lemma UnansweredStays(s: System, a: Action)
    requires Reachable(s) && !s.orphaned && s.waiting && s.next > 0 && Unanswered(s, s.next - 1)
    ensures !Enabled(s, a)
  {
  }

  /** That comes about in one way only: the line handler returns before a run was admitted. */
  lemma UnansweredBy(s: System, a: Action)
    requires Reachable(s) && !s.orphaned && Enabled(s, a)
    ensures var t := Step(s, a);
            t.waiting && t.next > 0 && Unanswered(t, t.next - 1) <==> a == ResolveLine && !s.call.value.admitted
  {
    InvReachable(s);
    assert Correlated(s);
    if a == ResolveLine && !s.call.value.admitted {
      assert InProgress(s, s.next - 1);
    }
  }

  /** Send a request, begin it, and let its line handler return at once. */
  lemma UnansweredReachable()
    ensures exists s :: Reachable(s) && s.waiting && s.next > 0 && Unanswered(s, s.next - 1)
  {
    var s0 := START;
    var s1 := Step(s0, SendTrigger);
    var s2 := Step(s1, BeginTrigger);
    var s3 := Step(s2, ResolveLine);
    var states := [s0, s1, s2, s3];
    assert Run(states, [SendTrigger, BeginTrigger, ResolveLine]);
    assert states[|states| - 1] == s3;
  }

  /** Such a run exists: admit, throw, settle. */
  lemma OrphanReachable()
    ensures exists s :: Reachable(s) && s.orphaned && Unmatched(0) in s.inbox
  {
    var s0 := START;
    var s1 := Step(s0, SendTrigger);
    var s2 := Step(s1, BeginTrigger);
    var s3 := Step(s2, Admit);
    var s4 := Step(s3, RejectLine);
    var s5 := Step(s4, Settle(0, true));
    var states := [s0, s1, s2, s3, s4, s5];
    var actions := [SendTrigger, BeginTrigger, Admit, RejectLine, Settle(0, true)];
    assert Run(states, actions);
    assert states[|states| - 1] == s5;
    assert s5.inbox[0] == Unmatched(0);
  }
}
