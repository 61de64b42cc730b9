/**
 The cursor of the history validator: one forward pass over a fixed event list that answers
 every prefix query a full replay would answer, and readiness queries from a frontier.
 */
module HistoryPrefixes {
  import opened Options
  import opened Text
  import opened RunProjection
  import opened Readiness
  import opened Frontiers
  import opened HistoryMeaning

  /** A readiness answer; `Scan` means no frontier is available and the graph is scanned. */
  datatype Answer = Rejected | Unbound | Scan | Ready(nodes: seq<Text>)

  ghost predicate Admissible(d: Definition) {
    Ordinary(d) && DistinctIds(d) && KnownEndpoints(d) && Acyclic(d)
  }

  /** Every event is one the frontier follows, about a node of the definition. */
  ghost predicate Followed(events: seq<Event>, d: Definition) {
    forall i | 0 <= i < |events| ::
      match ChangedNode(events[i])
      case Unsupported => false
      case Nothing => true
      case Node(node) => KnownId(d, node)
  }

  /** The entry a new attempt makes in the index of latest attempts. */
  lemma IndexNext(latest: map<Text, nat>, attempts: seq<Attempt>, k: nat)
    requires k < |attempts| && IndexesLatest(latest, attempts[..k])
    ensures IndexesLatest(latest[attempts[k].node := k], attempts[..k + 1])
  {
    var next := latest[attempts[k].node := k];
    forall n | n in next
      ensures next[n] < k + 1 && attempts[next[n]].node == n
      ensures forall i | next[n] < i < k + 1 :: attempts[i].node != n
    {
      if n != attempts[k].node {
        assert forall i | latest[n] < i < k :: attempts[..k][i].node != n;
      }
    }
    forall i | 0 <= i < k + 1 ensures attempts[i].node in next {
      assert i < k ==> attempts[..k][i].node in latest;
    }
  }

  lemma IndexKept(latest: map<Text, nat>, before: seq<Attempt>, after: seq<Attempt>)
    requires IndexesLatest(latest, before) && |before| <= |after|
    requires forall i | 0 <= i < |before| :: after[i].node == before[i].node
    ensures IndexesLatest(latest, after[..|before|])
  {
  }

  /** Extends an index by the attempts from `k` on. */
  method IndexFrom(start: map<Text, nat>, attempts: seq<Attempt>, k: nat) returns (latest: map<Text, nat>)
    requires k <= |attempts| && IndexesLatest(start, attempts[..k])
    ensures IndexesLatest(latest, attempts)
  {
    latest := start;
    for i := k to |attempts|
      invariant IndexesLatest(latest, attempts[..i])
    {
      IndexNext(latest, attempts, i);
      latest := latest[attempts[i].node := i];
    }
    assert attempts[..|attempts|] == attempts;
  }

  lemma FoldNext(events: seq<Event>, k: nat)
    requires k < |events| && Fold(events[..k]).Some?
    ensures Fold(events[..k + 1]) == Apply(Fold(events[..k]).value, events[k])
  {
    assert events[..k + 1][..k] == events[..k];
  }

  /** A rejected prefix rejects every longer one. */
  lemma RejectedBy(events: seq<Event>, k: nat, end: nat)
    requires k <= end <= |events| && Fold(events[..k]).None?
    ensures Fold(events[..end]).None?
  {
    assert events[..end][..k] == events[..k];
    FoldRejects(events[..end], k);
  }

  /** Followed events never shorten the list of attempts. */
  lemma EventGrows(s: FoldState, e: Event)
    requires Apply(s, e).Some?
    ensures !ChangedNode(e).Unsupported? ==> |s.projection.attempts| <= |Apply(s, e).value.projection.attempts|
  {
  }

  /** While every event is followed, every attempt is of a node of the definition. */
  lemma KnownNext(s: FoldState, e: Event, d: Definition)
    requires Apply(s, e).Some? && Followed([e], d)
    requires forall a | a in s.projection.attempts :: KnownId(d, a.node)
    ensures forall a | a in Apply(s, e).value.projection.attempts :: KnownId(d, a.node)
  {
    assert ChangedNode([e][0]) == ChangedNode(e);
    var p, q := s.projection, Apply(s, e).value.projection;
    forall i | 0 <= i < |q.attempts| ensures KnownId(d, q.attempts[i].node) {
      if i < |p.attempts| {
        assert p.attempts[i] in p.attempts;
        assert q.attempts[i].node == p.attempts[i].node;
      }
    }
  }

  class HistoryPrefix {
    const events: seq<Event>
    const definition: Definition
    const bound: bool
    var state: FoldState
    var next: nat
    var requests: nat
    var latest: Option<map<Text, nat>>
    var poisoned: bool
    var enabled: bool
    var frontier: Frontier?

    ghost predicate FrontierOk()
      reads this, frontier
    {
      frontier != null ==>
        && enabled && latest.Some?
        && frontier.definition == definition && frontier.Tracks(state.projection)
    }

    /** On followed events of an admissible definition the frontier is never given up. */
    ghost predicate Staying()
      reads this
    {
      !poisoned && next <= |events| && Followed(events[..next], definition) ==>
        && (Admissible(definition) ==> enabled)
        && forall a | a in state.projection.attempts :: KnownId(definition, a.node)
    }

    ghost predicate Valid()
      reads this, frontier
    {
      && next <= |events|
      && (if poisoned then next < |events| && Fold(events[..next + 1]).None?
          else Fold(events[..next]) == Some(state))
      && (latest.Some? ==> IndexesLatest(latest.value, state.projection.attempts))
      && FrontierOk() && Staying()
    }

    constructor (events: seq<Event>, definition: Definition, bound: bool)
      ensures Valid() && !poisoned && next == 0 && requests == 0
      ensures this.events == events && this.definition == definition && this.bound == bound
    {
      this.events, this.definition, this.bound := events, definition, bound;
      state, next, requests, latest := INITIAL, 0, 0, None;
      poisoned, enabled, frontier := false, true, null;
    }

    method Invalidate()
      modifies this`enabled, this`frontier
      ensures !enabled && frontier == null
    {
      enabled, frontier := false, null;
    }

    /** The frontier's share of one accepted event. */
    method Follow(e: Event, ghost before: FoldState)
      requires Apply(before, e) == Some(state) && IndexesState()
      requires frontier != null ==> enabled && latest.Some? && frontier.definition == definition && frontier.Tracks(before.projection)
      requires ChangedNode(e).Unsupported? || |before.projection.attempts| <= |state.projection.attempts|
      modifies this`enabled, this`frontier, frontier
      ensures FrontierOk()
      ensures old(enabled) && Followed([e], definition) ==> enabled
      ensures frontier == old(frontier) || frontier == null
    {
      if !enabled {
        return;
      }
      assert ChangedNode([e][0]) == ChangedNode(e);
      match ChangedNode(e)
      case Unsupported => Invalidate();
      case Nothing =>
        if frontier != null {
          StillTracks(frontier, before.projection, state.projection, before, e);
        }
      case Node(node) =>
        if frontier != null && latest.Some? {
          forall id | id != node ensures AgreeOn(before.projection, state.projection, id) {
            EventIsLocal(before, e, id);
          }
          OutputsStay(before, e);
          var ok := frontier.Update(node, state.projection, latest.value, before.projection);
          if !ok {
            Invalidate();
          }
        }
    }

    ghost predicate IndexesState()
      reads this
    {
      latest.Some? ==> IndexesLatest(latest.value, state.projection.attempts)
    }

    /** Applies the next event, or poisons the cursor when the fold rejects it. */
    method Advance()
      requires Valid() && !poisoned && next < |events|
      modifies this, frontier
      ensures Valid() && requests == old(requests)
      ensures frontier == old(frontier) || frontier == null
      ensures if poisoned then next == old(next) else next == old(next) + 1
    {
      var e := events[next];
      FoldNext(events, next);
      var r := Apply(state, e);
      if r.None? {
        Invalidate();
        latest, state, poisoned := None, INITIAL, true;
        return;
      }
      Accept(e, r.value);
    }

    method Accept(e: Event, s: FoldState)
      requires Valid() && !poisoned && next < |events| && e == events[next] && Apply(state, e) == Some(s)
      requires Fold(events[..next + 1]) == Some(s)
      modifies this, frontier
      ensures Valid() && requests == old(requests) && !poisoned && next == old(next) + 1
      ensures frontier == old(frontier) || frontier == null
    {
      ghost var before := state;
      EventKeepsAttempts(state, e);
      EventGrows(state, e);
      Adopt(e, s);
      next := next + 1;
      StayNext(before, e);
    }

    /** State, index and frontier after one accepted event. */
    method Adopt(e: Event, s: FoldState)
      requires IndexesState() && FrontierOk() && Apply(state, e) == Some(s) && KeepsAttempts(state.projection, s.projection)
      requires ChangedNode(e).Unsupported? || |state.projection.attempts| <= |s.projection.attempts|
      modifies this`state, this`latest, this`enabled, this`frontier, frontier
      ensures state == s && IndexesState() && FrontierOk()
      ensures frontier == old(frontier) || frontier == null
      ensures old(enabled) && Followed([e], definition) ==> enabled
    {
      ghost var before := state;
      assert Followed([e], definition) ==> !ChangedNode([e][0]).Unsupported?;
      Record(s);
      Follow(e, before);
    }

    lemma StayNext(before: FoldState, e: Event)
      requires 0 < next <= |events| && e == events[next - 1] && !poisoned
      requires Apply(before, e) == Some(state)
      requires Followed(events[..next - 1], definition) ==>
                 forall a | a in before.projection.attempts :: KnownId(definition, a.node)
      requires Followed(events[..next - 1], definition) && Followed([e], definition) && Admissible(definition) ==> enabled
      ensures Staying()
    {
      if Followed(events[..next], definition) {
        assert events[..next][next - 1] == e;
        assert forall i | 0 <= i < next - 1 :: events[..next][i] == events[..next - 1][i];
        KnownNext(before, e, definition);
      }
    }

    /** Stores the new fold state and brings the index of latest attempts up to date. */
    method Record(s: FoldState)
      requires IndexesState() && KeepsAttempts(state.projection, s.projection)
      modifies this`state, this`latest, this`enabled, this`frontier
      ensures state == s && IndexesState()
      ensures if |s.projection.attempts| < |old(state).projection.attempts|
              then latest.None? && !enabled && frontier == null
              else latest.Some? == old(latest.Some?) && enabled == old(enabled) && frontier == old(frontier)
    {
      var before := state.projection.attempts;
      state := s;
      if |s.projection.attempts| < |before| {
        latest := None;
        Invalidate();
      }
      if latest.Some? {
        IndexKept(latest.value, before, s.projection.attempts);
        var grown := IndexFrom(latest.value, s.projection.attempts, |before|);
        latest := Some(grown);
      }
    }

    /** Where a full replay of the prefix arrives, the cursor arrives, each event applied once. */
    method At(end: nat) returns (ok: bool)
      requires Valid()
      modifies this, frontier
      ensures Valid()
      ensures frontier == old(frontier) || frontier == null
      ensures old(poisoned) ==> !ok && poisoned
      ensures requests == old(requests) + if !old(poisoned) && old(next) <= end <= |events| then 1 else 0
      ensures !old(poisoned) && !(old(next) <= end <= |events|) ==> !ok && !poisoned && next == old(next)
      ensures !old(poisoned) && old(next) <= end <= |events| ==>
                && (ok <==> Fold(events[..end]).Some?)
                && (ok ==> !poisoned && next == end && Fold(events[..end]) == Some(state))
    {
      if poisoned || end < next || end > |events| {
        return false;
      }
      requests := requests + 1;
      while next < end && !poisoned
        invariant Valid() && old(next) <= next <= end
        invariant poisoned ==> next < end
        invariant requests == old(requests) + 1
        invariant frontier == old(frontier) || frontier == null
        decreases end - next, !poisoned
      {
        Advance();
      }
      if poisoned {
        RejectedBy(events, next + 1, end);
      }
      ok := !poisoned;
    }

    /** Builds the index and the frontier the first time a running, bound run is asked about. */
    method Prime()
      requires Valid() && !poisoned && state.projection.status == Running && bound
      modifies this`latest, this`frontier, this`enabled
      ensures Valid() && !poisoned && next == old(next) && state == old(state)
      ensures frontier != null || !enabled
      ensures frontier == null || frontier == old(frontier) || fresh(frontier)
    {
      if latest.None? {
        var index := IndexFrom(map[], state.projection.attempts, 0);
        latest := Some(index);
      }
      if frontier == null && enabled {
        var built := Build(definition, state.projection, latest.value);
        frontier := built;
        if built == null {
          IndexKnown();
          enabled := false;
        }
      }
    }

    lemma IndexKnown()
      requires latest.Some? && IndexesLatest(latest.value, state.projection.attempts)
      ensures (forall a | a in state.projection.attempts :: KnownId(definition, a.node)) ==>
                forall id | id in latest.value :: KnownId(definition, id)
    {
      if forall a | a in state.projection.attempts :: KnownId(definition, a.node) {
        forall id | id in latest.value ensures KnownId(definition, id) {
          assert state.projection.attempts[latest.value[id]] in state.projection.attempts;
        }
      }
    }

    /** A readiness query after `end` events: what the scan of the replayed prefix would answer. */
    method Query(end: nat, now: int) returns (answer: Answer)
      requires Valid()
      modifies this, frontier
      ensures Valid()
      ensures !old(poisoned) && old(next) <= end <= |events| ==>
                && (answer.Rejected? <==> Fold(events[..end]).None?)
                && (answer.Ready? ==> answer.nodes == ReadyIn(definition, Fold(events[..end]).value.projection, now))
                && (bound && Admissible(definition) && Followed(events[..end], definition)
                    ==> !answer.Scan? && !answer.Unbound?)
      ensures !old(poisoned) && old(next) <= end <= |events| && Supported(events[..end]) ==>
                && (answer.Rejected? <==> !Lawful(events[..end]))
                && (answer.Ready? ==> answer.nodes
                                      == if end == 0 then [] else ReadyList(definition, events[..end], now, |definition.nodes|))
    {
      if end <= |events| && Supported(events[..end]) {
        ReplayMeans(definition, events[..end], now);
      }
      var ok := At(end);
      if !ok {
        return Rejected;
      }
      if state.projection.status != Running {
        return Ready([]);
      }
      if !bound {
        return Unbound;
      }
      Prime();
      if frontier == null {
        return Scan;
      }
      var nodes := frontier.ReadyAt(now, state.projection);
      answer := Ready(nodes);
    }
  }

  /** A run start changes nothing a frontier records. */
  lemma StillTracks(f: Frontier, p: Projection, q: Projection, s: FoldState, e: Event)
    requires f.Tracks(p) && s.projection == p && e.payload.RunStarted?
    requires Apply(s, e).Some? && Apply(s, e).value.projection == q
    ensures f.Tracks(q)
  {
    forall v: nat | v < |f.complete| ensures f.TracksNode(q, v) {
      assert f.TracksNode(p, v);
    }
  }
}
