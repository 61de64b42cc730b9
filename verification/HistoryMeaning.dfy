/**
 What a history of ordinary events means, read off the events themselves: which nodes have
 published an output, how each node's last attempt stands, which retry is pending, and which event
 may come next. The fold computes exactly this.
 */
module HistoryMeaning {
  import opened Options
  import opened Text
  import opened RunProjection
  import opened Readiness

  /** Histories of an ordinary script graph. */
  predicate Supported(es: seq<Event>) {
    forall i | 0 <= i < |es| :: !es[i].payload.Other?
  }

  // ----- the meaning of a history -----

  predicate Publishes(e: Event, n: Text) {
    e.payload.AttemptSucceeded? && e.payload.node == n
  }

  ghost predicate Published(es: seq<Event>, n: Text) {
    exists i :: 0 <= i < |es| && Publishes(es[i], n)
  }

  /** How the last event about an attempt of the node left it. */
  function LastOutcome(es: seq<Event>, n: Text): Option<AttemptStatus> {
    if es == [] then None
    else
      var before := LastOutcome(es[..|es| - 1], n);
      match es[|es| - 1].payload
      case AttemptStarted(m, _, _, _) => if m == n then Some(Started) else before
      case AttemptSucceeded(m, _, _) => if m == n then Some(Succeeded) else before
      case AttemptFailed(m, _, _, _) => if m == n then Some(Failed) else before
      case _ => before
  }

  datatype Start = Start(number: nat, invocation: Text, key: Option<Text>)

  function LastStart(es: seq<Event>, n: Text): Option<Start> {
    if es == [] then None
    else
      match es[|es| - 1].payload
      case AttemptStarted(m, number, invocation, key) =>
        if m == n then Some(Start(number, invocation, key)) else LastStart(es[..|es| - 1], n)
      case _ => LastStart(es[..|es| - 1], n)
  }

  function FirstStart(es: seq<Event>, n: Text): Option<Start> {
    if es == [] then None
    else
      match (FirstStart(es[..|es| - 1], n), es[|es| - 1].payload)
      case (None, AttemptStarted(m, number, invocation, key)) => if m == n then Some(Start(number, invocation, key)) else None
      case (first, _) => first
  }

  /** The idempotency key that the node's first attempt set, if it set one. */
  function StableKey(es: seq<Event>, n: Text): Option<Text> {
    match FirstStart(es, n) case None => None case Some(first) => first.key
  }

  /** The retry scheduled last, unless an attempt of schema 6 or later has started since. */
  function PendingRetry(es: seq<Event>, n: Text): Option<Retry> {
    if es == [] then None
    else
      var before := PendingRetry(es[..|es| - 1], n);
      match es[|es| - 1].payload
      case RetryScheduled(m, failedAttempt, nextAttempt, at) => if m == n then Some(Retry(failedAttempt, nextAttempt, at)) else before
      case AttemptStarted(m, _, _, _) => if m == n && es[|es| - 1].schemaVersion >= 6 then None else before
      case _ => before
  }

  predicate Uses(e: Event, invocation: Text) {
    e.payload.AttemptStarted? && e.payload.invocation == invocation
  }

  ghost predicate Used(es: seq<Event>, invocation: Text) {
    exists i :: 0 <= i < |es| && Uses(es[i], invocation)
  }

  // ----- which event may come next -----

  /** A first attempt has no retry before it; a later one starts the pending retry, and not early. */
  predicate RetryAllows(es: seq<Event>, n: Text, number: nat, occurredAt: int) {
    match (LastStart(es, n), PendingRetry(es, n))
    case (None, None) => true
    case (Some(last), Some(retry)) =>
      && LastOutcome(es, n) == Some(Failed) && retry.failedAttempt == last.number
      && retry.nextAttempt == number && occurredAt >= retry.at
    case _ => false
  }

  /** The attempt is the node's last one, and is still open. */
  predicate Open(es: seq<Event>, n: Text, number: nat, invocation: Text) {
    && LastOutcome(es, n) == Some(Started)
    && LastStart(es, n).Some? && LastStart(es, n).value.number == number && LastStart(es, n).value.invocation == invocation
  }

  ghost predicate Admits(es: seq<Event>, e: Event) {
    e.sound &&
    match e.payload
    case RunStarted => es == []
    case AttemptStarted(n, number, invocation, key) =>
      && es != [] && !Used(es, invocation) && LastOutcome(es, n) != Some(Started)
      && (e.schemaVersion >= 6 ==>
            && number == (if LastStart(es, n).Some? then LastStart(es, n).value.number + 1 else 1)
            && (StableKey(es, n).Some? ==> key == StableKey(es, n))
            && RetryAllows(es, n, number, e.occurredAt))
    case AttemptSucceeded(n, number, invocation) =>
      es != [] && Open(es, n, number, invocation) && !Published(es, n)
    case AttemptFailed(n, number, invocation, _) =>
      es != [] && Open(es, n, number, invocation)
    case RetryScheduled(n, failedAttempt, nextAttempt, _) =>
      && es != [] && es[|es| - 1].payload.AttemptFailed? && es[|es| - 1].payload.scriptThrew
      && es[|es| - 1].payload.node == n && es[|es| - 1].payload.number == failedAttempt
      && nextAttempt == failedAttempt + 1 && PendingRetry(es, n).None?
    case Other(_) => false
  }

  // ----- the fold computes the meaning -----

  function LatestStart(p: Projection, n: Text): Option<Start> {
    match LatestAttempt(p.attempts, n) case None => None case Some(a) => Some(Start(a.number, a.invocation, a.key))
  }

  function RetryOf(p: Projection, n: Text): Option<Retry> {
    if n in p.retries then Some(p.retries[n]) else None
  }

  /** The projection says of one node what the history says of it. */
  ghost predicate Means(p: Projection, es: seq<Event>, n: Text) {
    && (n in p.steps <==> Published(es, n))
    && NodeStatus(p, n) == LastOutcome(es, n)
    && LatestStart(p, n) == LastStart(es, n)
    && FirstKey(p.attempts, n) == StableKey(es, n)
    && RetryOf(p, n) == PendingRetry(es, n)
  }

  ghost predicate OnlyLastOpen(attempts: seq<Attempt>) {
    forall i, j | 0 <= i < j < |attempts| && attempts[i].node == attempts[j].node :: attempts[i].status != Started
  }

  ghost predicate OwnInvocations(attempts: seq<Attempt>) {
    forall i, j | 0 <= i < j < |attempts| :: attempts[i].invocation != attempts[j].invocation
  }

  ghost predicate HasInvocation(attempts: seq<Attempt>, invocation: Text) {
    exists a :: a in attempts && a.invocation == invocation
  }

  ghost predicate Whole(s: FoldState, es: seq<Event>) {
    && OnlyLastOpen(s.projection.attempts) && OwnInvocations(s.projection.attempts)
    && (forall x :: HasInvocation(s.projection.attempts, x) <==> Used(es, x))
    && s.projection.status == (if es == [] then NotStarted else Running)
    && s.previous == (if es == [] then None else Some(es[|es| - 1].payload))
  }

  lemma PublishedNext(es: seq<Event>, e: Event, n: Text)
    ensures Published(es + [e], n) <==> Published(es, n) || Publishes(e, n)
  {
    if Published(es, n) {
      var i :| 0 <= i < |es| && Publishes(es[i], n);
      assert Publishes((es + [e])[i], n);
    }
    if Publishes(e, n) {
      assert Publishes((es + [e])[|es|], n);
    }
  }

  lemma UsedNext(es: seq<Event>, e: Event, x: Text)
    ensures Used(es + [e], x) <==> Used(es, x) || Uses(e, x)
  {
    if Used(es, x) {
      var i :| 0 <= i < |es| && Uses(es[i], x);
      assert Uses((es + [e])[i], x);
    }
    if Uses(e, x) {
      assert Uses((es + [e])[|es|], x);
    }
  }

  lemma {:induction false} FirstKeyAppend(attempts: seq<Attempt>, a: Attempt, n: Text)
    ensures FirstKey(attempts + [a], n)
            == if LatestAttempt(attempts, n).None? && a.node == n then a.key else FirstKey(attempts, n)
  {
    if attempts == [] {
      assert attempts + [a] == [a];
    } else {
      assert (attempts + [a])[0] == attempts[0] && (attempts + [a])[1..] == attempts[1..] + [a];
      FirstKeyAppend(attempts[1..], a, n);
      LatestHead(attempts, n);
    }
  }

  /** Whether a node has an attempt does not depend on where one looks first. */
  lemma LatestHead(attempts: seq<Attempt>, n: Text)
    requires attempts != []
    ensures LatestAttempt(attempts, n).None? <==> attempts[0].node != n && LatestAttempt(attempts[1..], n).None?
  {
    assert attempts == [attempts[0]] + attempts[1..];
    if LatestAttempt(attempts[1..], n).Some? {
      assert LatestAttempt(attempts[1..], n).value in attempts;
    }
    if LatestAttempt(attempts, n).Some? {
      assert LatestAttempt(attempts, n).value in [attempts[0]] + attempts[1..];
    }
  }

  lemma {:induction false} FirstKeyUpdate(attempts: seq<Attempt>, i: nat, status: AttemptStatus, n: Text)
    requires i < |attempts|
    ensures FirstKey(attempts[i := attempts[i].(status := status)], n) == FirstKey(attempts, n)
  {
    var after := attempts[i := attempts[i].(status := status)];
    if i == 0 {
      assert after[1..] == attempts[1..];
    } else {
      assert after[0] == attempts[0] && after[1..] == attempts[1..][i - 1 := attempts[1..][i - 1].(status := status)];
      FirstKeyUpdate(attempts[1..], i - 1, status, n);
    }
  }

  lemma LatestAppended(attempts: seq<Attempt>, a: Attempt, n: Text)
    ensures LatestAttempt(attempts + [a], n) == if a.node == n then Some(a) else LatestAttempt(attempts, n)
  {
    assert (attempts + [a])[..|attempts|] == attempts;
  }

  /** The event's view of a history one event longer. */
  lemma Longer(es: seq<Event>, e: Event)
    ensures (es + [e])[..|es + [e]| - 1] == es && (es + [e])[|es + [e]| - 1] == e
  {
  }

  /** What a start adds to the list of attempts, read node by node. */
  lemma StartedLast(p: Projection, es: seq<Event>, a: Attempt, e: Event, n: Text)
    requires e.payload == AttemptStarted(a.node, a.number, a.invocation, a.key) && a.status == Started && Means(p, es, n)
    ensures var q := p.(attempts := p.attempts + [a]);
            && NodeStatus(q, n) == LastOutcome(es + [e], n) && LatestStart(q, n) == LastStart(es + [e], n)
            && FirstKey(q.attempts, n) == StableKey(es + [e], n)
  {
    Longer(es, e);
    LatestAppended(p.attempts, a, n);
    FirstKeyAppend(p.attempts, a, n);
    FirstOrLast(es, n);
  }

  lemma StartedMeans(s: FoldState, es: seq<Event>, e: Event, n: Text)
    requires e.payload.AttemptStarted? && Means(s.projection, es, n) && ApplyStarted(s.projection, e).Some?
    ensures Means(ApplyStarted(s.projection, e).value, es + [e], n)
  {
    var AttemptStarted(m, number, invocation, key) := e.payload;
    Longer(es, e);
    PublishedNext(es, e, n);
    StartedLast(s.projection, es, Attempt(m, number, invocation, key, Started), e, n);
  }

  lemma {:induction false} FirstOrLast(es: seq<Event>, n: Text)
    ensures FirstStart(es, n).None? <==> LastStart(es, n).None?
  {
    if es != [] {
      FirstOrLast(es[..|es| - 1], n);
    }
  }

  /** The open attempt that a settling event finds is the node's last. */
  lemma FoundIsLast(attempts: seq<Attempt>, i: nat)
    requires OnlyLastOpen(attempts) && i < |attempts| && attempts[i].status == Started
    ensures LatestAttempt(attempts, attempts[i].node) == Some(attempts[i])
  {
    LatestAt(attempts, i);
  }

  lemma UpdatedLatest(attempts: seq<Attempt>, i: nat, status: AttemptStatus, n: Text)
    requires OnlyLastOpen(attempts) && i < |attempts| && attempts[i].status == Started
    ensures LatestAttempt(attempts[i := attempts[i].(status := status)], n)
            == if n == attempts[i].node then Some(attempts[i].(status := status)) else LatestAttempt(attempts, n)
  {
    var after := attempts[i := attempts[i].(status := status)];
    if n == attempts[i].node {
      forall j | i < j < |after| ensures after[j].node != n {
        assert attempts[j].node != n;
      }
      LatestAt(after, i);
    } else {
      LatestAfterUpdate(attempts, i, attempts[i].(status := status), n);
    }
  }

  predicate Settles(e: Event, m: Text, to: AttemptStatus) {
    || (to == Succeeded && e.payload.AttemptSucceeded? && e.payload.node == m)
    || (to == Failed && e.payload.AttemptFailed? && e.payload.node == m)
  }

  /** What settling an open attempt changes in the list of attempts, read node by node. */
  lemma SettledLast(p: Projection, es: seq<Event>, e: Event, i: nat, to: AttemptStatus, n: Text)
    requires OnlyLastOpen(p.attempts) && i < |p.attempts| && p.attempts[i].status == Started && Means(p, es, n)
    requires Settles(e, p.attempts[i].node, to)
    ensures var q := p.(attempts := p.attempts[i := p.attempts[i].(status := to)]);
            && NodeStatus(q, n) == LastOutcome(es + [e], n) && LatestStart(q, n) == LastStart(es + [e], n)
            && FirstKey(q.attempts, n) == StableKey(es + [e], n)
  {
    Longer(es, e);
    UpdatedLatest(p.attempts, i, to, n);
    FirstKeyUpdate(p.attempts, i, to, n);
    FoundIsLast(p.attempts, i);
  }

  lemma SettledMeans(s: FoldState, es: seq<Event>, e: Event, m: Text, number: nat, invocation: Text, to: AttemptStatus, n: Text)
    requires Settles(e, m, to) && Means(s.projection, es, n) && OnlyLastOpen(s.projection.attempts)
    requires ApplySettled(s.projection, m, number, invocation, to).Some?
    ensures Means(ApplySettled(s.projection, m, number, invocation, to).value, es + [e], n)
  {
    Longer(es, e);
    PublishedNext(es, e, n);
    SettledLast(s.projection, es, e, FindAttempt(s.projection.attempts, m, number, invocation), to, n);
  }

  lemma RetryMeans(s: FoldState, es: seq<Event>, e: Event, n: Text)
    requires e.payload.RetryScheduled? && Means(s.projection, es, n) && ApplyRetry(s, e).Some?
    ensures Means(ApplyRetry(s, e).value, es + [e], n)
  {
    Longer(es, e);
    PublishedNext(es, e, n);
  }

  lemma MeansNext(s: FoldState, es: seq<Event>, e: Event, n: Text)
    requires Means(s.projection, es, n) && Whole(s, es) && !e.payload.Other? && Apply(s, e).Some?
    ensures Means(Apply(s, e).value.projection, es + [e], n)
  {
    match e.payload
    case RunStarted =>
      Longer(es, e);
      PublishedNext(es, e, n);
    case AttemptStarted(_, _, _, _) => StartedMeans(s, es, e, n);
    case AttemptSucceeded(m, number, invocation) => SettledMeans(s, es, e, m, number, invocation, Succeeded, n);
    case AttemptFailed(m, number, invocation, _) => SettledMeans(s, es, e, m, number, invocation, Failed, n);
    case RetryScheduled(_, _, _, _) => RetryMeans(s, es, e, n);
  }

  lemma WholeStarted(s: FoldState, es: seq<Event>, e: Event)
    requires Whole(s, es) && e.payload.AttemptStarted? && ApplyStarted(s.projection, e).Some?
    ensures var q := ApplyStarted(s.projection, e).value.attempts;
            OnlyLastOpen(q) && OwnInvocations(q) && forall x :: HasInvocation(q, x) <==> Used(es + [e], x)
  {
    var attempts := s.projection.attempts;
    var AttemptStarted(m, number, invocation, key) := e.payload;
    var a := Attempt(m, number, invocation, key, Started);
    var q := attempts + [a];
    forall i | 0 <= i < |attempts| && attempts[i].node == m ensures attempts[i].status != Started {
      if attempts[i].status == Started {
        FoundIsLast(attempts, i);
      }
    }
    forall i | 0 <= i < |attempts| ensures attempts[i].invocation != invocation {
      assert attempts[i] in attempts;
    }
    forall x ensures HasInvocation(q, x) <==> Used(es + [e], x) {
      UsedNext(es, e, x);
      assert HasInvocation(q, x) <==> HasInvocation(attempts, x) || a.invocation == x by {
        assert a in q && forall b | b in attempts :: b in q;
      }
    }
  }

  lemma SameInvocations(p: seq<Attempt>, q: seq<Attempt>, x: Text)
    requires |p| == |q| && forall i | 0 <= i < |p| :: p[i].invocation == q[i].invocation
    ensures HasInvocation(p, x) ==> HasInvocation(q, x)
  {
    if HasInvocation(p, x) {
      var a :| a in p && a.invocation == x;
      var i :| 0 <= i < |p| && p[i] == a;
      assert q[i] in q;
    }
  }

  lemma WholeSettled(s: FoldState, es: seq<Event>, e: Event, m: Text, number: nat, invocation: Text, to: AttemptStatus)
    requires Whole(s, es) && Settles(e, m, to) && ApplySettled(s.projection, m, number, invocation, to).Some?
    ensures var q := ApplySettled(s.projection, m, number, invocation, to).value.attempts;
            OnlyLastOpen(q) && OwnInvocations(q) && forall x :: HasInvocation(q, x) <==> Used(es + [e], x)
  {
    var p, q := s.projection.attempts, ApplySettled(s.projection, m, number, invocation, to).value.attempts;
    forall x ensures HasInvocation(q, x) <==> Used(es + [e], x) {
      UsedNext(es, e, x);
      SameInvocations(p, q, x);
      SameInvocations(q, p, x);
    }
  }

  lemma WholeNext(s: FoldState, es: seq<Event>, e: Event)
    requires Whole(s, es) && !e.payload.Other? && Apply(s, e).Some?
    ensures Whole(Apply(s, e).value, es + [e])
  {
    match e.payload
    case AttemptStarted(_, _, _, _) => WholeStarted(s, es, e);
    case AttemptSucceeded(m, number, invocation) => WholeSettled(s, es, e, m, number, invocation, Succeeded);
    case AttemptFailed(m, number, invocation, _) => WholeSettled(s, es, e, m, number, invocation, Failed);
    case RunStarted => UsesNothing(es, e);
    case RetryScheduled(_, _, _, _) => UsesNothing(es, e);
  }

  lemma UsesNothing(es: seq<Event>, e: Event)
    requires !e.payload.AttemptStarted?
    ensures forall x :: Used(es + [e], x) <==> Used(es, x)
  {
    forall x ensures Used(es + [e], x) <==> Used(es, x) {
      UsedNext(es, e, x);
    }
  }

  lemma {:induction false} FoldWhole(es: seq<Event>)
    requires Supported(es) && Fold(es).Some?
    ensures Whole(Fold(es).value, es)
  {
    if es != [] {
      var before, e := es[..|es| - 1], es[|es| - 1];
      FoldWhole(before);
      WholeNext(Fold(before).value, before, e);
      assert es == before + [e];
    }
  }

  /** Of every node the fold of an accepted history says what the events say. */
  lemma {:induction false} FoldMeans(es: seq<Event>, n: Text)
    requires Supported(es) && Fold(es).Some?
    ensures Means(Fold(es).value.projection, es, n)
  {
    if es != [] {
      var before, e := es[..|es| - 1], es[|es| - 1];
      assert es == before + [e];
      FoldMeans(before, n);
      FoldWhole(before);
      MeansNext(Fold(before).value, before, e, n);
    }
  }

  // ----- acceptance -----

  lemma {:induction false} FindsOwn(attempts: seq<Attempt>, node: Text, number: nat, invocation: Text)
    ensures var i := FindAttempt(attempts, node, number, invocation);
            && (i < |attempts| ==> attempts[i].number == number && attempts[i].invocation == invocation)
            && forall j | 0 <= j < |attempts| && attempts[j].node == node && attempts[j].number == number && attempts[j].invocation == invocation :: i <= j
  {
    if attempts != [] {
      FindsOwn(attempts[1..], node, number, invocation);
    }
  }

  /** A settling event finds an open attempt exactly when the node's last attempt is open and its own. */
  lemma FindsOpen(s: FoldState, es: seq<Event>, n: Text, number: nat, invocation: Text)
    requires Whole(s, es) && Means(s.projection, es, n)
    ensures var i := FindAttempt(s.projection.attempts, n, number, invocation);
            i < |s.projection.attempts| && s.projection.attempts[i].status == Started <==> Open(es, n, number, invocation)
  {
    var attempts := s.projection.attempts;
    var i := FindAttempt(attempts, n, number, invocation);
    FindsOwn(attempts, n, number, invocation);
    if i < |attempts| && attempts[i].status == Started {
      FoundIsLast(attempts, i);
    }
    if Open(es, n, number, invocation) {
      var a := LatestAttempt(attempts, n).value;
      var j :| 0 <= j < |attempts| && attempts[j] == a;
      assert i <= j;
    }
  }

  lemma StartAdmits(s: FoldState, es: seq<Event>, e: Event)
    requires Whole(s, es) && e.payload.AttemptStarted? && Means(s.projection, es, e.payload.node)
    ensures e.sound ==> (ApplyStarted(s.projection, e).Some? <==> Admits(es, e))
  {
    var p, n := s.projection, e.payload.node;
    assert HasInvocation(p.attempts, e.payload.invocation) <==> exists a | a in p.attempts :: a.invocation == e.payload.invocation;
    assert LatestAttempt(p.attempts, n).Some? <==> LastStart(es, n).Some?;
    assert RetryMatches(p, e) <==> RetryAllows(es, n, e.payload.number, e.occurredAt);
  }

  /** After an accepted history exactly the admitted events are accepted. */
  lemma {:induction false} AcceptsIff(es: seq<Event>, e: Event)
    requires Supported(es) && Fold(es).Some? && !e.payload.Other?
    ensures Apply(Fold(es).value, e).Some? <==> Admits(es, e)
  {
    var s := Fold(es).value;
    FoldWhole(es);
    match e.payload
    case RunStarted =>
    case AttemptStarted(n, _, _, _) =>
      FoldMeans(es, n);
      StartAdmits(s, es, e);
    case AttemptSucceeded(n, number, invocation) =>
      FoldMeans(es, n);
      FindsOpen(s, es, n, number, invocation);
    case AttemptFailed(n, number, invocation, _) =>
      FoldMeans(es, n);
      FindsOpen(s, es, n, number, invocation);
    case RetryScheduled(n, _, _, _) =>
      FoldMeans(es, n);
      if es != [] && es[|es| - 1].payload.AttemptFailed? && es[|es| - 1].payload.node == n {
        FailedLast(es);
      }
  }

  /** The attempt that a last failure is about is the node's last attempt. */
  lemma {:induction false} FailedLast(es: seq<Event>)
    requires Supported(es) && Fold(es).Some? && es != [] && es[|es| - 1].payload.AttemptFailed?
    ensures var e := es[|es| - 1].payload;
            LastStart(es, e.node).Some? && LastStart(es, e.node).value.number == e.number
  {
    var before, e := es[..|es| - 1], es[|es| - 1];
    FoldMeans(before, e.payload.node);
    FoldWhole(before);
    FindsOpen(Fold(before).value, before, e.payload.node, e.payload.number, e.payload.invocation);
  }

  ghost predicate Lawful(es: seq<Event>) {
    forall k | 0 <= k < |es| :: Admits(es[..k], es[k])
  }

  lemma LawfulNext(es: seq<Event>, e: Event)
    ensures Lawful(es + [e]) <==> Lawful(es) && Admits(es, e)
  {
    var longer := es + [e];
    assert longer[..|es|] == es && longer[|es|] == e;
    assert forall k | 0 <= k < |es| :: longer[..k] == es[..k] && longer[k] == es[k];
    if Lawful(longer) {
      assert Admits(longer[..|es|], longer[|es|]);
      forall k | 0 <= k < |es| ensures Admits(es[..k], es[k]) {
        assert Admits(longer[..k], longer[k]);
      }
    }
  }

  /** A history is accepted exactly when each event is admitted by the events before it. */
  lemma {:induction false} HistoryAccepted(es: seq<Event>)
    requires Supported(es)
    ensures Fold(es).Some? <==> Lawful(es)
  {
    if es != [] {
      var before, e := es[..|es| - 1], es[|es| - 1];
      assert es == before + [e];
      HistoryAccepted(before);
      LawfulNext(before, e);
      if Fold(before).Some? {
        AcceptsIff(before, e);
      }
    }
  }

  // ----- readiness -----

  /** A node is ready: reached from an entry, nothing published, never tried or failed with a retry
      that is due, and every predecessor that is reached has published. */
  ghost predicate ReadyAfter(d: Definition, es: seq<Event>, now: int, n: Text) {
    && Active(d, n) && !Published(es, n)
    && (LastOutcome(es, n).None?
        || (LastOutcome(es, n) == Some(Failed) && PendingRetry(es, n).Some? && PendingRetry(es, n).value.at <= now))
    && forall e | e in d.edges && e.to == n && Active(d, e.from) :: Published(es, e.from)
  }

  /** The scan of a folded history finds a node ready exactly when its events say so. */
  lemma {:induction false} ReadyMeans(d: Definition, es: seq<Event>, now: int, n: Text)
    requires Supported(es) && Fold(es).Some?
    ensures NodeReady(d, Fold(es).value.projection, now, n) <==> ReadyAfter(d, es, now, n)
  {
    var p := Fold(es).value.projection;
    FoldMeans(es, n);
    forall e | e in d.edges && e.to == n && Active(d, e.from) ensures e.from in p.steps <==> Published(es, e.from) {
      FoldMeans(es, e.from);
    }
  }

  /** The ready nodes of a history, in the order of the definition. */
  ghost function ReadyList(d: Definition, es: seq<Event>, now: int, k: nat): seq<Text>
    requires k <= |d.nodes|
  {
    if k == 0 then []
    else ReadyList(d, es, now, k - 1) + if ReadyAfter(d, es, now, d.nodes[k - 1].id) then [d.nodes[k - 1].id] else []
  }

  lemma {:induction false} ScanMeans(d: Definition, p: Projection, es: seq<Event>, now: int, k: nat)
    requires k <= |d.nodes|
    requires forall n :: NodeReady(d, p, now, n) <==> ReadyAfter(d, es, now, n)
    ensures ReadyBefore(d, p, now, k) == ReadyList(d, es, now, k)
  {
    if k > 0 {
      ScanMeans(d, p, es, now, k - 1);
      assert NodeReady(d, p, now, d.nodes[k - 1].id) <==> ReadyAfter(d, es, now, d.nodes[k - 1].id);
    }
  }

  /** What a full replay answers, said of the events: nothing is ready before the run starts. */
  lemma {:induction false} ReplayMeans(d: Definition, es: seq<Event>, now: int)
    requires Supported(es)
    ensures Fold(es).Some? <==> Lawful(es)
    ensures Fold(es).Some? ==>
              ReadyIn(d, Fold(es).value.projection, now) == if es == [] then [] else ReadyList(d, es, now, |d.nodes|)
  {
    HistoryAccepted(es);
    if Fold(es).Some? {
      FoldWhole(es);
      forall n ensures NodeReady(d, Fold(es).value.projection, now, n) <==> ReadyAfter(d, es, now, n) {
        ReadyMeans(d, es, now, n);
      }
      ScanMeans(d, Fold(es).value.projection, es, now, |d.nodes|);
    }
  }
}
