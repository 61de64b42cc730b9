/**
 The request/response loop against a script host: requests go out in windows, any response may
 come back at any time, and one map correlates the two.
 */
module HostCorrelation {
  import opened Text
  import opened Sequences

  datatype Request = Register(digest: Text) | Invoke(batch: Text, index: nat)

  datatype Response =
    | HostReady
    | Registered(digest: Text, accepted: bool)
    | Completed(invocationId: Text, expected: bool, durationMs: real)
    | Unexpected(invocationId: Text)

  /** The key a request is filed under; the cohort is part of an invocation's id. */
  datatype Plan = Plan(cohort: Text, concurrency: nat, windows: seq<seq<Request>>)

  function BatchIndex(batch: Text, index: nat): Text {
    batch + [UNDERSCORE] + NatText(index)
  }

  function KeyOf(cohort: Text, r: Request): Text {
    match r
    case Register(digest) => digest
    case Invoke(batch, index) => Ascii("inv_isr_") + cohort + [UNDERSCORE] + BatchIndex(batch, index)
  }

  function Keys(cohort: Text, rs: seq<Request>): (keys: seq<Text>)
    ensures |keys| == |rs| && forall i | 0 <= i < |rs| :: keys[i] == KeyOf(cohort, rs[i])
  {
    Map(rs, (r: Request) => KeyOf(cohort, r))
  }

  function AllRequests(p: Plan): seq<Request> {
    Flatten(p.windows)
  }

  /** What the driver's program guarantees: windows no wider than the concurrency, no key twice. */
  ghost predicate ValidPlan(p: Plan) {
    && (forall w | w in p.windows :: 0 < |w| <= p.concurrency)
    && Distinct(Keys(p.cohort, AllRequests(p)))
  }

  function Invocations(rs: seq<Request>): nat {
    if rs == [] then 0 else (if rs[0].Invoke? then 1 else 0) + Invocations(rs[1..])
  }

  // ----- the loop -----

  /** A row's times: from sending to answer, and what the host reported. */
  datatype Times = Times(wallMs: real, hostDurationMs: real)

  /** `started` has the clock at each send, `times` the times of `rows`, position by position. */
  datatype State = State(
    window: nat, issued: nat, sent: seq<Request>,
    pending: map<Text, Request>, completed: set<Text>, rows: seq<Request>,
    readySeen: bool, ending: bool, failed: bool,
    now: real, started: map<Text, real>, times: seq<Times>)

  const START := State(0, 0, [], map[], {}, [], false, false, false, 0.0, map[], [])

  datatype Action = Send | NextWindow | Receive(response: Response) | End | Tick(to: real)

  predicate Enabled(p: Plan, s: State, a: Action) {
    match a
    case Send => !s.failed && s.readySeen && s.window < |p.windows| && s.issued < |p.windows[s.window]|
    case NextWindow =>
      && !s.failed && s.readySeen && s.window < |p.windows|
      && s.issued == |p.windows[s.window]| && s.pending == map[]
    case Receive(_) => !s.failed
    case End => !s.failed && s.window == |p.windows| && !s.ending
    case Tick(to) => s.now <= to
  }

  /** What a row records when its answer is handled. */
  function Took(s: State, key: Text, durationMs: real): Times {
    Times(if key in s.started then s.now - s.started[key] else 0.0, durationMs)
  }

  function Answer(p: Plan, s: State, key: Text, response: Response): State {
    if key !in s.pending then s.(failed := true)
    else
      var request := s.pending[key];
      var s := s.(pending := s.pending - {key});
      if response.Completed? then
        if key in s.completed then s.(failed := true)
        else
          var s := s.(completed := s.completed + {key});
          if !response.expected || (request.Invoke? && response.durationMs < 0.0) then s.(failed := true)
          else if request.Invoke? then s.(rows := s.rows + [request], times := s.times + [Took(s, key, response.durationMs)])
          else s
      else if response.Registered? && response.accepted && request.Register? then s
      // A registration reply carries no duration, so an invocation cannot take it for its own.
      else s.(failed := true)
  }

  function Step(p: Plan, s: State, a: Action): State
    requires Enabled(p, s, a)
  {
    match a
    case Send =>
      var request := p.windows[s.window][s.issued];
      var key := KeyOf(p.cohort, request);
      if key in s.pending || key in s.completed then s.(failed := true)
      else
        s.(pending := s.pending[key := request], sent := s.sent + [request], issued := s.issued + 1,
           started := s.started[key := s.now])
    case NextWindow => s.(window := s.window + 1, issued := 0)
    case Receive(response) =>
      (match response
       case HostReady => if s.readySeen then s.(failed := true) else s.(readySeen := true)
       case Registered(digest, _) => Answer(p, s, digest, response)
       case Completed(id, _, _) => Answer(p, s, id, response)
       case Unexpected(id) => Answer(p, s, id, response))
    case End => s.(ending := true)
    case Tick(to) => s.(now := to)
  }

  /** The closing assertions: nothing failed, nothing outstanding, as many completions as invocations. */
  predicate CleanDrain(p: Plan, s: State) {
    !s.failed && s.ending && s.pending == map[] && |s.completed| == Invocations(AllRequests(p))
  }

  ghost predicate Run(p: Plan, states: seq<State>, actions: seq<Action>) {
    && |states| == |actions| + 1 && states[0] == START
    && forall i | 0 <= i < |actions| :: Enabled(p, states[i], actions[i]) && states[i + 1] == Step(p, states[i], actions[i])
  }

  ghost predicate Reachable(p: Plan, s: State) {
    exists states, actions :: Run(p, states, actions) && states[|states| - 1] == s
  }

  // ----- what every step keeps -----

  /** The requests handed out so far: whole windows, then part of the current one. */
  function Issued(p: Plan, s: State): seq<Request>
    requires s.window <= |p.windows|
    requires s.window < |p.windows| ==> s.issued <= |p.windows[s.window]|
  {
    Flatten(p.windows[..s.window]) + if s.window < |p.windows| then p.windows[s.window][..s.issued] else []
  }

  ghost predicate SentOk(p: Plan, s: State) {
    && s.window <= |p.windows|
    && (s.window < |p.windows| ==> s.issued <= |p.windows[s.window]|)
    && (s.window == |p.windows| ==> s.issued == 0)
    && (s.ending ==> s.window == |p.windows|)
    && s.sent == Issued(p, s)
  }

  ghost predicate Sent(p: Plan, s: State, key: Text) {
    exists i :: 0 <= i < |s.sent| && KeyOf(p.cohort, s.sent[i]) == key
  }

  ghost predicate InWindow(p: Plan, s: State, key: Text) {
    s.window < |p.windows| && exists i :: 0 <= i < s.issued <= |p.windows[s.window]| && KeyOf(p.cohort, p.windows[s.window][i]) == key
  }

  /** Correlation: what is outstanding was sent and is not completed, and belongs to the window. */
  ghost predicate Correlated(p: Plan, s: State) {
    && (forall key | key in s.pending :: s.pending[key] in s.sent && KeyOf(p.cohort, s.pending[key]) == key)
    && (forall key | key in s.pending :: InWindow(p, s, key))
    && (forall key | key in s.completed :: Sent(p, s, key))
    && s.pending.Keys !! s.completed
  }

  /** Answered invocations are completed and have exactly one row. */
  ghost predicate Answered(p: Plan, s: State) {
    && (forall r | r in s.rows :: r.Invoke? && r in s.sent && KeyOf(p.cohort, r) in s.completed)
    && Distinct(s.rows)
    && (!s.failed ==> forall r | r in s.sent && r.Invoke? && KeyOf(p.cohort, r) !in s.pending :: r in s.rows)
  }

  ghost predicate Inv(p: Plan, s: State) {
    SentOk(p, s) && Correlated(p, s) && Answered(p, s)
  }

  lemma FlattenPrefix<T>(ss: seq<seq<T>>, w: nat)
    requires w < |ss|
    ensures Flatten(ss[..w + 1]) == Flatten(ss[..w]) + ss[w]
  {
    assert ss[..w + 1] == ss[..w] + [ss[w]];
    FlattenLast(ss[..w], ss[w]);
  }

  lemma FlattenAt<T>(ss: seq<seq<T>>, w: nat)
    requires w < |ss|
    ensures Flatten(ss) == Flatten(ss[..w]) + ss[w] + Flatten(ss[w + 1..])
    ensures Flatten(ss[..w + 1]) == Flatten(ss[..w]) + ss[w]
  {
    FlattenPrefix(ss, w);
    FlattenCut(ss, w + 1);
  }

  /** The next request follows the ones already sent in the plan. */
  lemma NextInPlan(p: Plan, s: State)
    requires SentOk(p, s) && s.window < |p.windows| && s.issued < |p.windows[s.window]|
    ensures |s.sent| < |AllRequests(p)| && AllRequests(p)[..|s.sent|] == s.sent
    ensures AllRequests(p)[|s.sent|] == p.windows[s.window][s.issued]
  {
    var w := p.windows[s.window];
    FlattenAt(p.windows, s.window);
    var before, after := Flatten(p.windows[..s.window]), Flatten(p.windows[s.window + 1..]);
    assert AllRequests(p) == before + w + after;
    assert w == w[..s.issued] + w[s.issued..];
    assert AllRequests(p) == s.sent + (w[s.issued..] + after);
  }

  lemma KeyFresh(p: Plan, s: State)
    requires ValidPlan(p) && SentOk(p, s) && s.window < |p.windows| && s.issued < |p.windows[s.window]|
    ensures !Sent(p, s, KeyOf(p.cohort, p.windows[s.window][s.issued]))
    ensures p.windows[s.window][s.issued] !in s.sent
  {
    NextInPlan(p, s);
    var all := AllRequests(p);
    var keys := Keys(p.cohort, all);
    forall i | 0 <= i < |s.sent| ensures KeyOf(p.cohort, s.sent[i]) != KeyOf(p.cohort, all[|s.sent|]) {
      assert s.sent[i] == all[i];
      assert keys[i] != keys[|s.sent|];
    }
  }

  lemma SentIssued(p: Plan, s: State)
    requires SentOk(p, s) && s.window < |p.windows| && s.issued < |p.windows[s.window]|
    ensures Issued(p, s.(issued := s.issued + 1)) == s.sent + [p.windows[s.window][s.issued]]
  {
    var w := p.windows[s.window];
    assert w[..s.issued + 1] == w[..s.issued] + [w[s.issued]];
    Assoc(Flatten(p.windows[..s.window]), w[..s.issued], [w[s.issued]]);
  }

  /** The driver's own assertion before sending never fires. */
  lemma SendNeverRepeats(p: Plan, s: State)
    requires ValidPlan(p) && Inv(p, s) && Enabled(p, s, Send)
    ensures !Step(p, s, Send).failed
  {
    KeyFresh(p, s);
  }

  lemma SendCorrelated(p: Plan, s: State)
    requires ValidPlan(p) && Inv(p, s) && Enabled(p, s, Send)
    ensures Correlated(p, Step(p, s, Send))
  {
    SendNeverRepeats(p, s);
    var t := Step(p, s, Send);
    var request := p.windows[s.window][s.issued];
    assert t.sent[|s.sent|] == request;
    forall key | key in t.pending ensures InWindow(p, t, key) {
      if key in s.pending {
        assert InWindow(p, s, key);
        var i :| 0 <= i < s.issued <= |p.windows[s.window]| && KeyOf(p.cohort, p.windows[s.window][i]) == key;
        assert KeyOf(p.cohort, p.windows[t.window][i]) == key;
      } else {
        assert KeyOf(p.cohort, p.windows[t.window][s.issued]) == key;
      }
    }
    forall key | key in t.completed ensures Sent(p, t, key) {
      var i :| 0 <= i < |s.sent| && KeyOf(p.cohort, s.sent[i]) == key;
      assert t.sent[i] == s.sent[i];
    }
  }

  lemma InvSend(p: Plan, s: State)
    requires ValidPlan(p) && Inv(p, s) && Enabled(p, s, Send)
    ensures Inv(p, Step(p, s, Send))
  {
    SendNeverRepeats(p, s);
    SendCorrelated(p, s);
    SentIssued(p, s);
  }

  lemma InvNextWindow(p: Plan, s: State)
    requires Inv(p, s) && Enabled(p, s, NextWindow)
    ensures Inv(p, Step(p, s, NextWindow))
  {
    FlattenAt(p.windows, s.window);
    var w := p.windows[s.window];
    assert w[..|w|] == w;
    var t := Step(p, s, NextWindow);
    assert t.window < |p.windows| ==> p.windows[t.window][..0] == [];
    assert Issued(p, t) == Flatten(p.windows[..t.window]);
    forall key | key in t.completed ensures Sent(p, t, key) {
      assert Sent(p, s, key);
    }
  }

  /** Taking a key out of `pending`, and perhaps into `completed`, keeps the correlation. */
  lemma CorrelatedAnswer(p: Plan, s: State, t: State, key: Text)
    requires SentOk(p, s) && Correlated(p, s) && key in s.pending
    requires t.window == s.window && t.issued == s.issued && t.sent == s.sent && t.ending == s.ending
    requires t.pending == s.pending - {key}
    requires t.completed == s.completed || t.completed == s.completed + {key}
    ensures SentOk(p, t) && Correlated(p, t)
  {
    forall k | k in t.pending ensures InWindow(p, t, k) {
      assert InWindow(p, s, k);
    }
    var i :| 0 <= i < |s.sent| && s.sent[i] == s.pending[key];
    assert KeyOf(p.cohort, t.sent[i]) == key;
    forall k | k in t.completed ensures Sent(p, t, k) {
      assert k == key || Sent(p, s, k);
    }
  }

  lemma AnswerCorrelated(p: Plan, s: State, key: Text, response: Response)
    requires SentOk(p, s) && Correlated(p, s) && key in s.pending
    ensures Correlated(p, Answer(p, s, key, response)) && SentOk(p, Answer(p, s, key, response))
  {
    CorrelatedAnswer(p, s, Answer(p, s, key, response), key);
  }

  lemma AnswerAnswered(p: Plan, s: State, key: Text, response: Response)
    requires ValidPlan(p) && Inv(p, s) && !s.failed && key in s.pending
    ensures Answered(p, Answer(p, s, key, response))
  {
    AnsweredRows(p, s, key, response);
    if !Answer(p, s, key, response).failed {
      AnsweredAll(p, s, Answer(p, s, key, response), key);
    }
  }

  lemma AnsweredAll(p: Plan, s: State, t: State, key: Text)
    requires ValidPlan(p) && Inv(p, s) && !s.failed && key in s.pending
    requires t.sent == s.sent && t.pending == s.pending - {key}
    requires t.rows == if s.pending[key].Invoke? then s.rows + [s.pending[key]] else s.rows
    ensures forall r | r in t.sent && r.Invoke? && KeyOf(p.cohort, r) !in t.pending :: r in t.rows
  {
    forall r | r in t.sent && r.Invoke? && KeyOf(p.cohort, r) !in t.pending ensures r in t.rows {
      AnsweredRow(p, s, t, key, r);
    }
  }

  lemma AnsweredRows(p: Plan, s: State, key: Text, response: Response)
    requires ValidPlan(p) && Inv(p, s) && !s.failed && key in s.pending
    ensures var t := Answer(p, s, key, response);
            Distinct(t.rows) && forall r | r in t.rows :: r.Invoke? && r in t.sent && KeyOf(p.cohort, r) in t.completed
  {
    var request := s.pending[key];
    assert request !in s.rows;
  }

  lemma AnsweredRow(p: Plan, s: State, t: State, key: Text, r: Request)
    requires ValidPlan(p) && Inv(p, s) && !s.failed && key in s.pending
    requires t.pending == s.pending - {key}
    requires t.rows == if s.pending[key].Invoke? then s.rows + [s.pending[key]] else s.rows
    requires r in s.sent && r.Invoke? && KeyOf(p.cohort, r) !in t.pending
    ensures r in t.rows
  {
    if KeyOf(p.cohort, r) == key {
      SameKey(p, s, r, s.pending[key]);
    }
  }

  /** Two requests sent under one key are one request. */
  lemma SameKey(p: Plan, s: State, r: Request, q: Request)
    requires ValidPlan(p) && SentOk(p, s) && r in s.sent && q in s.sent
    requires KeyOf(p.cohort, r) == KeyOf(p.cohort, q)
    ensures r == q
  {
    var i :| 0 <= i < |s.sent| && s.sent[i] == r;
    var j :| 0 <= j < |s.sent| && s.sent[j] == q;
    SentPrefix(p, s);
    var keys := Keys(p.cohort, AllRequests(p));
    assert s.sent[i] == AllRequests(p)[i] && s.sent[j] == AllRequests(p)[j];
    assert keys[i] == keys[j];
  }

  lemma SentPrefix(p: Plan, s: State)
    requires SentOk(p, s)
    ensures |s.sent| <= |AllRequests(p)| && AllRequests(p)[..|s.sent|] == s.sent
  {
    if s.window == |p.windows| {
      assert p.windows[..s.window] == p.windows;
    } else {
      FlattenAt(p.windows, s.window);
      var w := p.windows[s.window];
      assert w == w[..s.issued] + w[s.issued..];
      assert AllRequests(p) == s.sent + (w[s.issued..] + Flatten(p.windows[s.window + 1..]));
    }
  }

  lemma InvStep(p: Plan, s: State, a: Action)
    requires ValidPlan(p) && Inv(p, s) && Enabled(p, s, a)
    ensures Inv(p, Step(p, s, a))
  {
    match a
    case Send => InvSend(p, s);
    case NextWindow => InvNextWindow(p, s);
    case Receive(response) =>
      var key := match response
                 case HostReady => [] case Registered(digest, _) => digest
                 case Completed(id, _, _) => id case Unexpected(id) => id;
      if !response.HostReady? && key in s.pending {
        AnswerCorrelated(p, s, key, response);
        AnswerAnswered(p, s, key, response);
      } else {
        InvFlags(p, s, Step(p, s, a));
      }
    case End => InvFlags(p, s, Step(p, s, a));
    case Tick(_) => InvFlags(p, s, Step(p, s, a));
  }

  /** The clock and the flags for readiness, ending and failure do not take part in correlation. */
  lemma InvFlags(p: Plan, s: State, t: State)
    requires Inv(p, s) && t == s.(readySeen := t.readySeen, ending := t.ending, failed := t.failed, now := t.now)
    requires (s.failed ==> t.failed) && (t.ending ==> s.window == |p.windows|)
    ensures Inv(p, t)
  {
    forall key | key in t.pending ensures InWindow(p, t, key) {
      assert InWindow(p, s, key);
    }
    forall key | key in t.completed ensures Sent(p, t, key) {
      assert Sent(p, s, key);
    }
  }

  lemma {:induction false} InvRun(p: Plan, states: seq<State>, actions: seq<Action>, i: nat)
    requires ValidPlan(p) && Run(p, states, actions) && i < |states|
    ensures Inv(p, states[i])
  {
    if i == 0 {
      assert Issued(p, START) == [];
    } else {
      InvRun(p, states, actions, i - 1);
      InvStep(p, states[i - 1], actions[i - 1]);
    }
  }

  lemma InvReachable(p: Plan, s: State)
    requires ValidPlan(p) && Reachable(p, s)
    ensures Inv(p, s)
  {
    var states, actions :| Run(p, states, actions) && states[|states| - 1] == s;
    InvRun(p, states, actions, |states| - 1);
  }

  // ----- the theorems -----

  lemma SubsetSize(a: set<Text>, b: set<Text>)
    requires a <= b
    ensures |a| <= |b|
  {
    assert |b - a| == |b| - |a|;
  }

  /** In every run: nothing is both outstanding and completed, no key is sent twice, and no more
      requests are in flight than the concurrency allows. */
  lemma CorrelationSafe(p: Plan, s: State)
    requires ValidPlan(p) && Reachable(p, s)
    ensures s.pending.Keys !! s.completed
    ensures Distinct(Keys(p.cohort, s.sent))
    ensures |s.pending| <= p.concurrency
  {
    InvReachable(p, s);
    SentPrefix(p, s);
    var all := Keys(p.cohort, AllRequests(p));
    assert forall i | 0 <= i < |s.sent| :: Keys(p.cohort, s.sent)[i] == all[i];
    PendingBound(p, s);
  }

  lemma PendingBound(p: Plan, s: State)
    requires ValidPlan(p) && Correlated(p, s)
    ensures |s.pending| <= p.concurrency
  {
    if s.window < |p.windows| {
      var w := p.windows[s.window];
      var keys := set x | x in Keys(p.cohort, w);
      forall key | key in s.pending.Keys ensures key in keys {
        assert InWindow(p, s, key);
        var i :| 0 <= i < s.issued <= |w| && KeyOf(p.cohort, w[i]) == key;
        assert Keys(p.cohort, w)[i] == key;
      }
      SetSize(Keys(p.cohort, w));
      SubsetSize(s.pending.Keys, keys);
      assert |s.pending| == |s.pending.Keys|;
    } else {
      assert s.pending.Keys == {};
      assert |s.pending| == |s.pending.Keys|;
    }
  }

  function InvokesOf(rs: seq<Request>): (r: seq<Request>) {
    if rs == [] then [] else (if rs[0].Invoke? then [rs[0]] else []) + InvokesOf(rs[1..])
  }

  lemma {:induction false} InvokesMember(rs: seq<Request>, r: Request)
    ensures r in InvokesOf(rs) <==> r in rs && r.Invoke?
  {
    if rs != [] {
      InvokesMember(rs[1..], r);
      assert rs == [rs[0]] + rs[1..];
    }
  }

  lemma {:induction false} InvokesDistinct(cohort: Text, rs: seq<Request>)
    requires Distinct(Keys(cohort, rs))
    ensures |InvokesOf(rs)| == Invocations(rs) && Distinct(Keys(cohort, InvokesOf(rs)))
  {
    if rs != [] {
      var keys, tail := Keys(cohort, rs), Keys(cohort, rs[1..]);
      assert forall i | 0 <= i < |tail| :: tail[i] == keys[i + 1];
      InvokesDistinct(cohort, rs[1..]);
      var rest := InvokesOf(rs[1..]);
      forall j | 0 <= j < |rest| ensures KeyOf(cohort, rest[j]) != KeyOf(cohort, rs[0]) {
        InvokesMember(rs[1..], rest[j]);
        var i :| 0 <= i < |rs[1..]| && rs[1..][i] == rest[j];
        assert keys[i + 1] != keys[0];
      }
    }
  }

  /** A clean drain has completed exactly the issued invocations, and has one row for each. */
  lemma DrainComplete(p: Plan, s: State)
    requires ValidPlan(p) && Reachable(p, s) && CleanDrain(p, s)
    ensures s.sent == AllRequests(p)
    ensures s.completed == set key | key in Keys(p.cohort, InvokesOf(AllRequests(p)))
    ensures multiset(s.rows) == multiset(InvokesOf(AllRequests(p)))
  {
    InvReachable(p, s);
    assert p.windows[..s.window] == p.windows;
    var invokes := InvokesOf(AllRequests(p));
    var ids := Keys(p.cohort, invokes);
    InvokesDistinct(p.cohort, AllRequests(p));
    DistinctCard(ids);
    forall i | 0 <= i < |invokes| ensures ids[i] in s.completed && invokes[i] in s.rows {
      InvokesMember(AllRequests(p), invokes[i]);
    }
    SubsetOfSameSize((set key | key in ids), s.completed);
    RowsAreInvokes(p, s, invokes);
  }

  lemma RowsAreInvokes(p: Plan, s: State, invokes: seq<Request>)
    requires Distinct(s.rows) && Distinct(Keys(p.cohort, invokes))
    requires forall r | r in s.rows :: r.Invoke? && r in AllRequests(p)
    requires forall i | 0 <= i < |invokes| :: invokes[i] in s.rows
    requires invokes == InvokesOf(AllRequests(p))
    ensures multiset(s.rows) == multiset(invokes)
  {
    forall i, j | 0 <= i < j < |invokes| ensures invokes[i] != invokes[j] {
      assert Keys(p.cohort, invokes)[i] != Keys(p.cohort, invokes)[j];
    }
    forall r ensures r in invokes <==> r in s.rows {
      InvokesMember(AllRequests(p), r);
    }
    DistinctMultiset(invokes);
    DistinctMultiset(s.rows);
    assert (set r | r in invokes) == set r | r in s.rows;
  }

  // ----- the times of the rows -----

  /** One pair of times per row, none of them negative; every send lies in the past. */
  ghost predicate TimesOk(s: State) {
    && |s.times| == |s.rows|
    && (forall i | 0 <= i < |s.times| :: s.times[i].wallMs >= 0.0 && s.times[i].hostDurationMs >= 0.0)
    && forall key | key in s.started :: s.started[key] <= s.now
  }

  lemma TimesAnswer(p: Plan, s: State, key: Text, response: Response)
    requires TimesOk(s)
    ensures TimesOk(Answer(p, s, key, response))
  {
  }

  lemma TimesStep(p: Plan, s: State, a: Action)
    requires TimesOk(s) && Enabled(p, s, a)
    ensures TimesOk(Step(p, s, a))
  {
    match a
    case Receive(Registered(digest, accepted)) => TimesAnswer(p, s, digest, a.response);
    case Receive(Completed(id, _, _)) => TimesAnswer(p, s, id, a.response);
    case Receive(Unexpected(id)) => TimesAnswer(p, s, id, a.response);
    case _ =>
  }

  lemma {:induction false} TimesRun(p: Plan, states: seq<State>, actions: seq<Action>, i: nat)
    requires Run(p, states, actions) && i < |states|
    ensures TimesOk(states[i])
  {
    if i > 0 {
      TimesRun(p, states, actions, i - 1);
      TimesStep(p, states[i - 1], actions[i - 1]);
    }
  }

  /** In every run each row has its times, read off a clock that never runs back. */
  lemma TimesReachable(p: Plan, s: State)
    requires Reachable(p, s)
    ensures TimesOk(s)
  {
    var states, actions :| Run(p, states, actions) && states[|states| - 1] == s;
    TimesRun(p, states, actions, |states| - 1);
  }

  /** A row is added only with its own completion, and takes the request from the map. */
  predicate NotesRow(p: Plan, s: State, a: Action, t: State) {
    || (t.rows == s.rows && t.times == s.times)
    || (&& a.Receive? && a.response.Completed? && a.response.expected && a.response.invocationId in s.pending
        && t.rows == s.rows + [s.pending[a.response.invocationId]]
        && t.times == s.times + [Took(s, a.response.invocationId, a.response.durationMs)])
  }

  /** The clock at a send is kept while the request is outstanding. */
  ghost predicate NotesSend(p: Plan, s: State, a: Action, t: State) {
    forall key | key in t.pending ::
      key in t.started &&
      if key in s.pending then key in s.started && t.pending[key] == s.pending[key] && t.started[key] == s.started[key]
      else Sends(p, s, a, t.pending[key]) && key == KeyOf(p.cohort, t.pending[key]) && t.started[key] == s.now
  }

  predicate Sends(p: Plan, s: State, a: Action, r: Request) {
    a.Send? && s.window < |p.windows| && s.issued < |p.windows[s.window]| && p.windows[s.window][s.issued] == r
  }

  lemma StepNotesRow(p: Plan, s: State, a: Action)
    requires Enabled(p, s, a)
    ensures NotesRow(p, s, a, Step(p, s, a))
  {
  }

  lemma AnswerKeepsSends(p: Plan, s: State, key: Text, response: Response)
    ensures var t := Answer(p, s, key, response);
            t.started == s.started && forall k | k in t.pending :: k in s.pending && t.pending[k] == s.pending[k]
  {
  }

  lemma StepNotesSend(p: Plan, s: State, a: Action)
    requires Enabled(p, s, a) && (forall key | key in s.pending :: key in s.started)
    ensures NotesSend(p, s, a, Step(p, s, a))
  {
    match a
    case Receive(Registered(digest, accepted)) => AnswerKeepsSends(p, s, digest, a.response);
    case Receive(Completed(id, _, _)) => AnswerKeepsSends(p, s, id, a.response);
    case Receive(Unexpected(id)) => AnswerKeepsSends(p, s, id, a.response);
    case _ =>
  }

  ghost predicate Noted(p: Plan, states: seq<State>, actions: seq<Action>) {
    && |states| == |actions| + 1 && states[0] == START
    && forall i | 0 <= i < |actions| :: NotesRow(p, states[i], actions[i], states[i + 1]) && NotesSend(p, states[i], actions[i], states[i + 1])
  }

  lemma {:induction false} PendingStarted(p: Plan, states: seq<State>, actions: seq<Action>, n: nat)
    requires Run(p, states, actions) && n < |states|
    ensures forall key | key in states[n].pending :: key in states[n].started
  {
    if n > 0 {
      PendingStarted(p, states, actions, n - 1);
      StepNotesSend(p, states[n - 1], actions[n - 1]);
    }
  }

  lemma RunNoted(p: Plan, states: seq<State>, actions: seq<Action>)
    requires Run(p, states, actions)
    ensures Noted(p, states, actions)
  {
    forall i | 0 <= i < |actions|
      ensures NotesRow(p, states[i], actions[i], states[i + 1]) && NotesSend(p, states[i], actions[i], states[i + 1])
    {
      PendingStarted(p, states, actions, i);
      StepNotesRow(p, states[i], actions[i]);
      StepNotesSend(p, states[i], actions[i]);
    }
  }

  lemma {:induction false} SentAt(p: Plan, states: seq<State>, actions: seq<Action>, n: nat, key: Text) returns (a: nat)
    requires Noted(p, states, actions) && n < |states| && key in states[n].pending
    ensures a < n && key in states[n].started && states[n].started[key] == states[a].now
    ensures Sends(p, states[a], actions[a], states[n].pending[key]) && key == KeyOf(p.cohort, states[n].pending[key])
  {
    assert NotesSend(p, states[n - 1], actions[n - 1], states[n]);
    if key in states[n - 1].pending {
      a := SentAt(p, states, actions, n - 1, key);
    } else {
      a := n - 1;
    }
  }

  /** The row comes from a completion of its request: the wall time runs from the send of the request
      to that answer, and the host's duration is the one in the answer. */
  ghost predicate RowTimed(p: Plan, states: seq<State>, actions: seq<Action>, row: Request, times: Times, a: nat, b: nat) {
    && a < b < |actions| < |states| && Sends(p, states[a], actions[a], row)
    && actions[b] == Receive(Completed(KeyOf(p.cohort, row), true, times.hostDurationMs))
    && times.wallMs == states[b].now - states[a].now
  }

  lemma {:induction false} TracedAt(p: Plan, states: seq<State>, actions: seq<Action>, n: nat, q: nat) returns (a: nat, b: nat)
    requires Noted(p, states, actions) && n < |states| && q < |states[n].rows| == |states[n].times|
    ensures b < n && RowTimed(p, states, actions, states[n].rows[q], states[n].times[q], a, b)
  {
    var s, t := states[n - 1], states[n];
    assert NotesRow(p, s, actions[n - 1], t);
    if |s.times| == |s.rows| && q < |s.rows| {
      a, b := TracedAt(p, states, actions, n - 1, q);
    } else {
      b := n - 1;
      a := SentAt(p, states, actions, b, actions[b].response.invocationId);
    }
  }

  /** Every row of every run is timed by its own send and its own answer. */
  lemma RowsTimed(p: Plan, states: seq<State>, actions: seq<Action>, n: nat, q: nat) returns (a: nat, b: nat)
    requires Run(p, states, actions) && n < |states| && q < |states[n].rows|
    ensures |states[n].times| == |states[n].rows|
    ensures b < n && RowTimed(p, states, actions, states[n].rows[q], states[n].times[q], a, b)
  {
    TimesRun(p, states, actions, n);
    RunNoted(p, states, actions);
    a, b := TracedAt(p, states, actions, n, q);
  }

  // ----- a clean drain exists -----

  lemma RunNext(p: Plan, states: seq<State>, actions: seq<Action>, a: Action, t: State)
    requires Run(p, states, actions) && Enabled(p, states[|actions|], a) && t == Step(p, states[|actions|], a)
    ensures Run(p, states + [t], actions + [a])
  {
    var longer, all := states + [t], actions + [a];
    forall i | 0 <= i < |all| ensures Enabled(p, longer[i], all[i]) && longer[i + 1] == Step(p, longer[i], all[i]) {
      if i < |actions| {
        assert longer[i] == states[i] && longer[i + 1] == states[i + 1] && all[i] == actions[i];
      } else {
        assert longer[i] == states[i] && longer[i + 1] == t && all[i] == a;
      }
    }
  }

  lemma ReachNext(p: Plan, s: State, a: Action)
    requires Reachable(p, s) && Enabled(p, s, a)
    ensures Reachable(p, Step(p, s, a))
  {
    var states, actions :| Run(p, states, actions) && states[|states| - 1] == s;
    RunNext(p, states, actions, a, Step(p, s, a));
    var longer := states + [Step(p, s, a)];
    assert longer[|longer| - 1] == Step(p, s, a);
  }

  /** The answer that a well-behaved host gives. */
  function Reply(p: Plan, r: Request): Response {
    match r
    case Register(digest) => Registered(digest, true)
    case Invoke(_, _) => Completed(KeyOf(p.cohort, r), true, 0.0)
  }

  /** Everything sent so far is answered, and the completions are counted. */
  ghost predicate Level(p: Plan, s: State) {
    && Reachable(p, s) && !s.failed && s.readySeen && !s.ending && s.pending == map[]
    && |s.completed| == Invocations(s.sent)
  }

  lemma {:induction false} InvocationsNext(rs: seq<Request>, r: Request)
    ensures Invocations(rs + [r]) == Invocations(rs) + if r.Invoke? then 1 else 0
  {
    if rs == [] {
      assert rs + [r] == [r];
    } else {
      InvocationsNext(rs[1..], r);
      assert (rs + [r])[1..] == rs[1..] + [r];
    }
  }

  /** What sending a request and having it answered does to a state with nothing outstanding. */
  lemma SentAndAnswered(p: Plan, s: State, r: Request, sent: State)
    requires !s.failed && s.pending == map[]
    requires sent.pending == map[KeyOf(p.cohort, r) := r] && sent.completed == s.completed && !sent.failed
    requires KeyOf(p.cohort, r) !in s.completed
    ensures var t := Step(p, sent, Receive(Reply(p, r)));
            && !t.failed && t.pending == map[]
            && t.completed == (if r.Invoke? then s.completed + {KeyOf(p.cohort, r)} else s.completed)
            && t.window == sent.window && t.issued == sent.issued && t.sent == sent.sent
            && t.readySeen == sent.readySeen && t.ending == sent.ending
  {
    assert sent.pending - {KeyOf(p.cohort, r)} == map[];
  }

  /** One request sent and answered. */
  lemma OneAnswered(p: Plan, s: State) returns (t: State)
    requires ValidPlan(p) && Level(p, s) && s.window < |p.windows| && s.issued < |p.windows[s.window]|
    ensures Level(p, t) && t.window == s.window && t.issued == s.issued + 1
  {
    var r := p.windows[s.window][s.issued];
    ReachNext(p, s, Send);
    var sent := Step(p, s, Send);
    NotRefused(p, s);
    ReachNext(p, sent, Receive(Reply(p, r)));
    t := Step(p, sent, Receive(Reply(p, r)));
    SentAndAnswered(p, s, r, sent);
    InvocationsNext(s.sent, r);
  }

  lemma NotRefused(p: Plan, s: State)
    requires ValidPlan(p) && Level(p, s) && Enabled(p, s, Send)
    ensures !Step(p, s, Send).failed && KeyOf(p.cohort, p.windows[s.window][s.issued]) !in s.completed
  {
    InvReachable(p, s);
    SendNeverRepeats(p, s);
  }

  /** One window after the other, down to the end of the input. */
  lemma {:induction false} DrainFrom(p: Plan, s: State) returns (t: State)
    requires ValidPlan(p) && Level(p, s)
    ensures Reachable(p, t) && CleanDrain(p, t)
    decreases |p.windows| - s.window, if s.window < |p.windows| then |p.windows[s.window]| - s.issued else 0
  {
    InvReachable(p, s);
    if s.window == |p.windows| {
      assert p.windows[..s.window] == p.windows;
      assert s.sent == AllRequests(p);
      ReachNext(p, s, End);
      t := Step(p, s, End);
    } else if s.issued < |p.windows[s.window]| {
      var next := OneAnswered(p, s);
      InvReachable(p, next);
      t := DrainFrom(p, next);
    } else {
      ReachNext(p, s, NextWindow);
      t := DrainFrom(p, Step(p, s, NextWindow));
    }
  }

  /** Every plan can be drained: the host only has to answer. */
  lemma Drains(p: Plan) returns (t: State)
    requires ValidPlan(p)
    ensures Reachable(p, t) && CleanDrain(p, t)
  {
    assert Run(p, [START], []);
    assert [START][|[START]| - 1] == START;
    assert Reachable(p, START);
    ReachNext(p, START, Receive(HostReady));
    t := DrainFrom(p, Step(p, START, Receive(HostReady)));
  }

  // ----- the loop as an object -----

  /** The maps and flags of the measuring process, changed in place. */
  class HostClient {
    const plan: Plan
    var window: nat
    var issued: nat
    ghost var sent: seq<Request>
    var pending: map<Text, Request>
    var completed: set<Text>
    var rows: seq<Request>
    var readySeen: bool
    var ending: bool
    var failed: bool
    var now: real
    var started: map<Text, real>
    var times: seq<Times>

    ghost function View(): State
      reads this
    {
      State(window, issued, sent, pending, completed, rows, readySeen, ending, failed, now, started, times)
    }

    constructor (plan: Plan)
      ensures this.plan == plan && View() == START
    {
      this.plan := plan;
      window, issued, sent, pending, completed, rows := 0, 0, [], map[], {}, [];
      readySeen, ending, failed := false, false, false;
      now, started, times := 0.0, map[], [];
    }

    method SendNext()
      requires Enabled(plan, View(), Send)
      modifies this
      ensures View() == Step(plan, old(View()), Send)
    {
      var request := plan.windows[window][issued];
      var key := KeyOf(plan.cohort, request);
      if key in pending || key in completed {
        failed := true;
        return;
      }
      pending := pending[key := request];
      started := started[key := now];
      sent := sent + [request];
      issued := issued + 1;
    }

    method OnMessage(response: Response)
      requires Enabled(plan, View(), Receive(response))
      modifies this
      ensures View() == Step(plan, old(View()), Receive(response))
    {
      if response.HostReady? {
        if readySeen {
          failed := true;
        }
        readySeen := true;
        return;
      }
      OnAnswer(if response.Registered? then response.digest else response.invocationId, response);
    }

    /** A response that answers a request, or should. */
    method OnAnswer(key: Text, response: Response)
      modifies this`pending, this`completed, this`rows, this`times, this`failed
      requires !failed && !response.HostReady?
      ensures View() == Answer(plan, old(View()), key, response)
    {
      if key !in pending {
        failed := true;
        return;
      }
      var request := pending[key];
      pending := pending - {key};
      if response.Completed? {
        if key in completed {
          failed := true;
          return;
        }
        completed := completed + {key};
        if !response.expected {
          failed := true;
          return;
        }
      } else if !response.Registered? || !response.accepted {
        failed := true;
        return;
      }
      if request.Invoke? {
        if !response.Completed? || response.durationMs < 0.0 {
          failed := true;
          return;
        }
        rows := rows + [request];
        times := times + [Times(if key in started then now - started[key] else 0.0, response.durationMs)];
      }
    }

    /** Any step, by the object; the correlation invariant holds of it afterwards. */
    method Perform(a: Action)
      requires ValidPlan(plan) && Inv(plan, View()) && Enabled(plan, View(), a)
      modifies this
      ensures View() == Step(plan, old(View()), a) && Inv(plan, View())
    {
      InvStep(plan, View(), a);
      match a {
        case Send => SendNext();
        case NextWindow => window, issued := window + 1, 0;
        case Receive(response) => OnMessage(response);
        case End => ending := true;
        case Tick(to) => now := to;
      }
    }

    /** Whether a step can be taken now. */
    method Permits(a: Action) returns (ok: bool)
      ensures ok <==> Enabled(plan, View(), a)
    {
      match a {
        case Send => ok := !failed && readySeen && window < |plan.windows| && issued < |plan.windows[window]|;
        case NextWindow =>
          ok := !failed && readySeen && window < |plan.windows| && issued == |plan.windows[window]| && pending == map[];
        case Receive(_) => ok := !failed;
        case End => ok := !failed && window == |plan.windows| && !ending;
        case Tick(to) => ok := now <= to;
      }
    }
  }

  /** A run that ends in `s`. */
  ghost predicate Trace(p: Plan, states: seq<State>, actions: seq<Action>, s: State) {
    Run(p, states, actions) && states[|actions|] == s && Inv(p, s)
  }

  lemma TraceNext(p: Plan, states: seq<State>, script: seq<Action>, k: nat, s: State)
    requires ValidPlan(p) && k < |script| && Trace(p, states, script[..k], s) && Enabled(p, s, script[k])
    ensures Trace(p, states + [Step(p, s, script[k])], script[..k + 1], Step(p, s, script[k]))
  {
    InvStep(p, s, script[k]);
    RunNext(p, states, script[..k], script[k], Step(p, s, script[k]));
    assert script[..k + 1] == script[..k] + [script[k]];
  }

  /** Whatever the host answers and in whatever order steps are taken, keys stay apart, no more than
      the allowed number is in flight, and a clean drain has exactly what was planned. */
  method Play(plan: Plan, script: seq<Action>) returns (client: HostClient, played: nat)
    requires ValidPlan(plan)
    ensures fresh(client) && client.plan == plan && played <= |script|
    ensures played < |script| ==> !Enabled(plan, client.View(), script[played])
    ensures client.pending.Keys !! client.completed && |client.pending| <= plan.concurrency
    ensures CleanDrain(plan, client.View()) ==>
              && client.completed == (set key | key in Keys(plan.cohort, InvokesOf(AllRequests(plan))))
              && multiset(client.rows) == multiset(InvokesOf(AllRequests(plan)))
  {
    client := new HostClient(plan);
    played := 0;
    ghost var states := [START];
    InvRun(plan, states, [], 0);
    assert script[..0] == [];
    while played < |script|
      invariant fresh(client) && client.plan == plan && 0 <= played <= |script|
      invariant Trace(plan, states, script[..played], client.View())
    {
      var ok := client.Permits(script[played]);
      if !ok {
        break;
      }
      TraceNext(plan, states, script, played, client.View());
      states := states + [Step(plan, client.View(), script[played])];
      client.Perform(script[played]);
      played := played + 1;
    }
    Played(plan, states, script[..played], client.View());
  }

  lemma Played(p: Plan, states: seq<State>, actions: seq<Action>, s: State)
    requires ValidPlan(p) && Trace(p, states, actions, s)
    ensures s.pending.Keys !! s.completed && |s.pending| <= p.concurrency
    ensures CleanDrain(p, s) ==>
              && s.completed == (set key | key in Keys(p.cohort, InvokesOf(AllRequests(p))))
              && multiset(s.rows) == multiset(InvokesOf(AllRequests(p)))
  {
    assert states[|states| - 1] == s;
    CorrelationSafe(p, s);
    if CleanDrain(p, s) {
      DrainComplete(p, s);
    }
  }
}
