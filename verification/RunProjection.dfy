/**
 The part of a run's projection that readiness depends on, and the fold step for the events
 an ordinary script graph produces.
 */
module RunProjection {
  import opened Options
  import opened Text

  // `Held` stands for queued, waiting and finalizing; `Ended` for the three terminal states.
  datatype Status = NotStarted | Held | Running | Cancelling | Ended

  datatype AttemptStatus = Started | Succeeded | Failed

  datatype Attempt = Attempt(node: Text, number: nat, invocation: Text, key: Option<Text>, status: AttemptStatus)

  datatype Retry = Retry(failedAttempt: nat, nextAttempt: nat, at: int)

  datatype Projection = Projection(
    status: Status, steps: set<Text>, attempts: seq<Attempt>, retries: map<Text, Retry>)

  datatype Payload =
    | RunStarted
    | AttemptStarted(node: Text, number: nat, invocation: Text, key: Option<Text>)
    | AttemptSucceeded(node: Text, number: nat, invocation: Text)
    | AttemptFailed(node: Text, number: nat, invocation: Text, scriptThrew: bool)
    | RetryScheduled(node: Text, failedAttempt: nat, nextAttempt: nat, at: int)
    // Every other kind of event, loop-scoped events included, with the projection it leads to.
    | Other(result: Projection)

  /** `sound` stands for the checks on identifiers, sequence numbers and managed operations. */
  datatype Event = Event(schemaVersion: nat, occurredAt: int, sound: bool, payload: Payload)

  datatype FoldState = FoldState(projection: Projection, previous: Option<Payload>)

  const INITIAL := FoldState(Projection(NotStarted, {}, [], map[]), None)

  // ----- latest attempts -----

  function LatestAttempt(attempts: seq<Attempt>, node: Text): (r: Option<Attempt>)
    ensures r.Some? ==> r.value in attempts && r.value.node == node
    ensures r.None? ==> forall a | a in attempts :: a.node != node
  {
    if attempts == [] then None
    else
      var last := |attempts| - 1;
      assert attempts == attempts[..last] + [attempts[last]];
      if attempts[last].node == node then Some(attempts[last]) else LatestAttempt(attempts[..last], node)
  }

  /** The index map of a history cursor: each node's last attempt, and nothing else. */
  ghost predicate IndexesLatest(latest: map<Text, nat>, attempts: seq<Attempt>) {
    && (forall n | n in latest ::
          latest[n] < |attempts| && attempts[latest[n]].node == n
          && forall i | latest[n] < i < |attempts| :: attempts[i].node != n)
    && (forall i | 0 <= i < |attempts| :: attempts[i].node in latest)
  }

  lemma IndexedLatest(latest: map<Text, nat>, attempts: seq<Attempt>, node: Text)
    requires IndexesLatest(latest, attempts)
    ensures LatestAttempt(attempts, node)
            == if node in latest then Some(attempts[latest[node]]) else None
  {
    if node in latest {
      LatestAt(attempts, latest[node]);
    }
  }

  lemma {:induction false} LatestAt(attempts: seq<Attempt>, i: nat)
    requires i < |attempts|
    requires forall j | i < j < |attempts| :: attempts[j].node != attempts[i].node
    ensures LatestAttempt(attempts, attempts[i].node) == Some(attempts[i])
  {
    if i < |attempts| - 1 {
      LatestAt(attempts[..|attempts| - 1], i);
    }
  }

  // ----- the fold step -----

  function FindAttempt(attempts: seq<Attempt>, node: Text, number: nat, invocation: Text): (i: nat)
    ensures i <= |attempts|
    ensures i < |attempts| ==> attempts[i].node == node
  {
    if attempts == [] || (attempts[0].node == node && attempts[0].number == number && attempts[0].invocation == invocation)
    then 0 else 1 + FindAttempt(attempts[1..], node, number, invocation)
  }

  function FirstKey(attempts: seq<Attempt>, node: Text): Option<Text> {
    if attempts == [] then None
    else if attempts[0].node == node then attempts[0].key
    else FirstKey(attempts[1..], node)
  }

  predicate RetryMatches(p: Projection, e: Event)
    requires e.payload.AttemptStarted?
  {
    var node, number := e.payload.node, e.payload.number;
    var previous := LatestAttempt(p.attempts, node);
    if node in p.retries then
      && previous.Some? && previous.value.status == Failed
      && p.retries[node].failedAttempt == previous.value.number
      && p.retries[node].nextAttempt == number
      && e.occurredAt >= p.retries[node].at
    else previous.None?
  }

  function ApplyStarted(p: Projection, e: Event): Option<Projection>
    requires e.payload.AttemptStarted?
  {
    var AttemptStarted(node, number, invocation, key) := e.payload;
    var previous := LatestAttempt(p.attempts, node);
    if p.status != Running then None
    else if exists a | a in p.attempts :: a.invocation == invocation then None
    else if previous.Some? && previous.value.status == Started then None
    else if e.schemaVersion >= 6 &&
            (|| number != (if previous.Some? then previous.value.number + 1 else 1)
             || (FirstKey(p.attempts, node).Some? && key != FirstKey(p.attempts, node))
             || !RetryMatches(p, e)) then None
    else
      Some(p.(attempts := p.attempts + [Attempt(node, number, invocation, key, Started)],
              retries := if e.schemaVersion >= 6 then p.retries - {node} else p.retries))
  }

  function ApplySettled(p: Projection, node: Text, number: nat, invocation: Text, to: AttemptStatus): Option<Projection> {
    var i := FindAttempt(p.attempts, node, number, invocation);
    if i == |p.attempts| || p.attempts[i].status != Started then None
    else if to == Succeeded && node in p.steps then None
    else
      Some(p.(attempts := p.attempts[i := p.attempts[i].(status := to)],
              steps := if to == Succeeded then p.steps + {node} else p.steps))
  }

  function ApplyRetry(s: FoldState, e: Event): Option<Projection>
    requires e.payload.RetryScheduled?
  {
    var RetryScheduled(node, failedAttempt, nextAttempt, at) := e.payload;
    var p := s.projection;
    var latest := LatestAttempt(p.attempts, node);
    if && p.status == Running
       && s.previous.Some? && s.previous.value.AttemptFailed?
       && s.previous.value.node == node && s.previous.value.number == failedAttempt
       && s.previous.value.scriptThrew
       && latest.Some? && latest.value.number == failedAttempt && latest.value.status == Failed
       && nextAttempt == failedAttempt + 1 && node !in p.retries
    then Some(p.(retries := p.retries[node := Retry(failedAttempt, nextAttempt, at)]))
    else None
  }

  /** Attempts already recorded keep their nodes, or the list gets shorter. */
  predicate KeepsAttempts(p: Projection, q: Projection) {
    |q.attempts| >= |p.attempts| ==> forall i | 0 <= i < |p.attempts| :: q.attempts[i].node == p.attempts[i].node
  }

  function ApplyPayload(s: FoldState, e: Event): Option<Projection> {
    var p := s.projection;
    match e.payload
    case RunStarted => if p.status == NotStarted then Some(p.(status := Running)) else None
    case AttemptStarted(_, _, _, _) => ApplyStarted(p, e)
    case AttemptSucceeded(node, number, invocation) =>
      if p.status != Running then None else ApplySettled(p, node, number, invocation, Succeeded)
    case AttemptFailed(node, number, invocation, _) =>
      if p.status != Running && p.status != Cancelling then None
      else ApplySettled(p, node, number, invocation, Failed)
    case RetryScheduled(_, _, _, _) => ApplyRetry(s, e)
    case Other(q) => if KeepsAttempts(p, q) then Some(q) else None
  }

  function Apply(s: FoldState, e: Event): Option<FoldState> {
    if !e.sound || s.projection.status == Ended then None
    else
      match ApplyPayload(s, e)
      case None => None
      case Some(p) => Some(FoldState(p, Some(e.payload)))
  }

  /** The full replay of a history: the fold of all its events, or a rejection. */
  function Fold(events: seq<Event>): Option<FoldState> {
    if events == [] then Some(INITIAL)
    else
      match Fold(events[..|events| - 1])
      case None => None
      case Some(s) => Apply(s, events[|events| - 1])
  }

  /** Once a history is rejected, every longer history is. */
  lemma {:induction false} FoldRejects(events: seq<Event>, k: nat)
    requires k <= |events| && Fold(events[..k]).None?
    ensures Fold(events).None?
    decreases |events|
  {
    if k == |events| {
      assert events[..k] == events;
    } else {
      assert events[..|events| - 1][..k] == events[..k];
      FoldRejects(events[..|events| - 1], k);
    }
  }

  // ----- one event touches one node -----

  function NodeStatus(p: Projection, node: Text): Option<AttemptStatus> {
    match LatestAttempt(p.attempts, node) case None => None case Some(a) => Some(a.status)
  }

  /** Everything readiness asks of `node` has the same answer in both projections. */
  ghost predicate AgreeOn(p: Projection, q: Projection, node: Text) {
    && (node in p.steps <==> node in q.steps)
    && NodeStatus(p, node) == NodeStatus(q, node)
    && (node in p.retries <==> node in q.retries)
    && (node in p.retries ==> p.retries[node].at == q.retries[node].at)
  }

  /** The node a supported event is about; an unsupported event ends the frontier. */
  datatype Change = Unsupported | Nothing | Node(node: Text)

  function ChangedNode(e: Event): Change {
    match e.payload
    case RunStarted => Nothing
    case AttemptStarted(node, _, _, _) => Node(node)
    case AttemptSucceeded(node, _, _) => Node(node)
    case AttemptFailed(node, _, _, _) => Node(node)
    case RetryScheduled(node, _, _, _) => Node(node)
    case Other(_) => Unsupported
  }

  lemma LatestAfterAppend(attempts: seq<Attempt>, a: Attempt, node: Text)
    requires a.node != node
    ensures LatestAttempt(attempts + [a], node) == LatestAttempt(attempts, node)
  {
    assert (attempts + [a])[..|attempts|] == attempts;
  }

  lemma {:induction false} LatestAfterUpdate(attempts: seq<Attempt>, i: nat, a: Attempt, node: Text)
    requires i < |attempts| && a.node == attempts[i].node && node != a.node
    ensures LatestAttempt(attempts[i := a], node) == LatestAttempt(attempts, node)
  {
    var last := |attempts| - 1;
    if i < last {
      assert attempts[i := a][..last] == attempts[..last][i := a];
      LatestAfterUpdate(attempts[..last], i, a, node);
    } else {
      assert attempts[i := a][..last] == attempts[..last];
    }
  }

  /** A supported event leaves every node but its own as it was. */
  lemma EventIsLocal(s: FoldState, e: Event, node: Text)
    requires Apply(s, e).Some? && !ChangedNode(e).Unsupported?
    requires ChangedNode(e) != Node(node)
    ensures AgreeOn(s.projection, Apply(s, e).value.projection, node)
    ensures KeepsAttempts(s.projection, Apply(s, e).value.projection)
    ensures |s.projection.attempts| <= |Apply(s, e).value.projection.attempts|
  {
    var p := s.projection;
    match e.payload
    case AttemptStarted(n, number, invocation, key) =>
      LatestAfterAppend(p.attempts, Attempt(n, number, invocation, key, Started), node);
    case AttemptSucceeded(n, number, invocation) =>
      var i := FindAttempt(p.attempts, n, number, invocation);
      LatestAfterUpdate(p.attempts, i, p.attempts[i].(status := Succeeded), node);
    case AttemptFailed(n, number, invocation, _) =>
      var i := FindAttempt(p.attempts, n, number, invocation);
      LatestAfterUpdate(p.attempts, i, p.attempts[i].(status := Failed), node);
    case _ =>
  }

  /** Attempts recorded before any event stay attempts of the same nodes. */
  lemma EventKeepsAttempts(s: FoldState, e: Event)
    requires Apply(s, e).Some?
    ensures KeepsAttempts(s.projection, Apply(s, e).value.projection)
  {
  }

  /** A published output is never taken back by a supported event. */
  lemma OutputsStay(s: FoldState, e: Event)
    requires Apply(s, e).Some? && !ChangedNode(e).Unsupported?
    ensures s.projection.steps <= Apply(s, e).value.projection.steps
  {
  }
}
