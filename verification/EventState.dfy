/** The replay-tolerant reducer `reduceRuntimeEvent`. */
module EventState {
  import opened Sequences
  import opened RuntimeEvents

  datatype EventState = EventState(events: seq<RuntimeEvent>, cursor: int, phase: string, pending: seq<string>)

  const EMPTY := EventState([], 0, "idle", [])

  predicate Requests(e: RuntimeEvent, id: string) {
    e.kind == "permission.requested" && e.payload.toolUseId == Some(id)
  }

  predicate Resolves(e: RuntimeEvent, id: string) {
    e.kind == "permission.resolved" && e.payload.toolUseId == Some(id)
  }

  /** `filter(item => item !== id)`. */
  function Without(pending: seq<string>, id: string): seq<string> {
    Filter(item => item != id, pending)
  }

  function Reduce(s: EventState, e: RuntimeEvent): EventState {
    if e.number <= s.cursor || HasNumber(s.events, e.number) then s else Accept(s, e)
  }

  function Accept(s: EventState, e: RuntimeEvent): EventState {
    var phase := if e.kind == "run.phase_changed" && e.payload.phase.Some? then e.payload.phase.value else s.phase;
    var pending := match e.payload.toolUseId
      case None => s.pending
      case Some(id) =>
        if e.kind == "permission.requested" then Dedup(s.pending + [id])
        else if e.kind == "permission.resolved" then Without(s.pending, id)
        else s.pending;
    EventState(s.events + [e], e.number, phase, pending)
  }

  function Fold(s: EventState, events: seq<RuntimeEvent>): EventState
    decreases events
  {
    if events == [] then s else Fold(Reduce(s, events[0]), events[1..])
  }

  function AcceptAll(s: EventState, events: seq<RuntimeEvent>): EventState
    decreases events
  {
    if events == [] then s else AcceptAll(Accept(s, events[0]), events[1..])
  }

  /** The stored events ascend and the cursor is at (or beyond) the last. */
  ghost predicate Valid(s: EventState) {
    Ascending(s.events) && forall i :: 0 <= i < |s.events| ==> s.events[i].number <= s.cursor
  }

  /** Above the cursor the stored-already check never fires. */
  lemma StoredCheckIsRedundant(s: EventState, e: RuntimeEvent)
    requires Valid(s)
    ensures Reduce(s, e) == if e.number <= s.cursor then s else Accept(s, e)
    ensures Valid(Reduce(s, e))
  {}

  /** Any replay folds to the unconditional fold over its left-to-right strict
      maxima above the cursor, and those are exactly what is stored. */
  lemma {:induction false} FoldIsMaxima(s: EventState, events: seq<RuntimeEvent>)
    requires Valid(s)
    ensures Fold(s, events) == AcceptAll(s, Maxima(events, s.cursor)) == Fold(s, Maxima(events, s.cursor))
    ensures Fold(s, events).events == s.events + Maxima(events, s.cursor)
    ensures Fold(s, events).cursor == Highest(events, s.cursor)
    ensures Valid(Fold(s, events))
    decreases events
  {
    if events == [] {
      assert s.events + [] == s.events;
    } else {
      StoredCheckIsRedundant(s, events[0]);
      FoldIsMaxima(Reduce(s, events[0]), events[1..]);
      if events[0].number > s.cursor {
        var m := Maxima(events[1..], events[0].number);
        assert ([events[0]] + m)[1..] == m;
        Reassociate(s.events, [events[0]], m);
      }
    }
  }

  /** Replaying any events already covered by the cursor changes nothing. */
  lemma {:induction false} ReplayIsIdle(s: EventState, events: seq<RuntimeEvent>)
    requires Valid(s)
    requires forall i :: 0 <= i < |events| ==> events[i].number <= s.cursor
    ensures Fold(s, events) == s
  {
    if events != [] {
      ReplayIsIdle(s, events[1..]);
    }
  }

  // ----- pending permissions -----

  /** A request at i that no later event resolves. */
  ghost predicate OpenAt(events: seq<RuntimeEvent>, id: string, i: int) {
    0 <= i < |events| && Requests(events[i], id) && (forall j :: i < j < |events| ==> !Resolves(events[j], id))
  }

  ghost predicate Open(events: seq<RuntimeEvent>, id: string) {
    exists i :: OpenAt(events, id, i)
  }

  /** id has been waiting since before other has. */
  ghost predicate WaitsLonger(events: seq<RuntimeEvent>, id: string, other: string) {
    exists i :: OpenAt(events, id, i) && forall k :: OpenAt(events, other, k) ==> i < k
  }

  /** pending lists exactly the open ids, once each, longest waiting first. */
  ghost predicate ListsOpen(pending: seq<string>, events: seq<RuntimeEvent>) {
    && Distinct(pending)
    && (forall id :: id in pending <==> Open(events, id))
    && (forall a, b :: 0 <= a < b < |pending| ==> WaitsLonger(events, pending[a], pending[b]))
  }

  lemma OpenAtSnoc(events: seq<RuntimeEvent>, e: RuntimeEvent, id: string, i: int)
    ensures OpenAt(events + [e], id, i) <==>
            (OpenAt(events, id, i) && !Resolves(e, id)) || (i == |events| && Requests(e, id))
  {
    var more := events + [e];
    assert more[|events|] == e;
    if OpenAt(more, id, i) && i < |events| {
      assert more[i] == events[i];
      forall j | i < j < |events| ensures !Resolves(events[j], id) { assert more[j] == events[j]; }
    }
  }

  lemma OpenSnoc(events: seq<RuntimeEvent>, e: RuntimeEvent, id: string)
    ensures Open(events + [e], id) <==> (Open(events, id) && !Resolves(e, id)) || Requests(e, id)
  {
    if i :| OpenAt(events + [e], id, i) { OpenAtSnoc(events, e, id, i); }
    if i :| OpenAt(events, id, i) { OpenAtSnoc(events, e, id, i); }
    OpenAtSnoc(events, e, id, |events|);
  }

  lemma WaitsLongerSnoc(events: seq<RuntimeEvent>, e: RuntimeEvent, id: string, other: string)
    requires WaitsLonger(events, id, other) && !Resolves(e, id)
    ensures WaitsLonger(events + [e], id, other)
  {
    var i :| OpenAt(events, id, i) && forall k :: OpenAt(events, other, k) ==> i < k;
    OpenAtSnoc(events, e, id, i);
    forall k | OpenAt(events + [e], other, k) ensures i < k { OpenAtSnoc(events, e, other, k); }
  }

  lemma NewestWaits(events: seq<RuntimeEvent>, e: RuntimeEvent, id: string, other: string)
    requires Open(events, id) && !Open(events, other) && !Resolves(e, id)
    ensures WaitsLonger(events + [e], id, other)
  {
    var i :| OpenAt(events, id, i);
    OpenAtSnoc(events, e, id, i);
    forall k | OpenAt(events + [e], other, k) ensures i < k { OpenAtSnoc(events, e, other, k); }
  }

  lemma DedupKnown(xs: seq<string>, x: string)
    requires Distinct(xs)
    ensures Dedup(xs + [x]) == if x in xs then xs else xs + [x]
  {
    assert (xs + [x])[..|xs|] == xs;
    DedupDistinct(xs);
  }

  lemma {:induction false} WithoutOrdered(pending: seq<string>, id: string, events: seq<RuntimeEvent>, e: RuntimeEvent)
    requires Distinct(pending) && Resolves(e, id)
    requires forall a, b :: 0 <= a < b < |pending| ==> WaitsLonger(events, pending[a], pending[b])
    ensures var r := Without(pending, id);
            && Distinct(r) && (forall x :: x in r <==> x in pending && x != id)
            && (forall a, b :: 0 <= a < b < |r| ==> WaitsLonger(events + [e], r[a], r[b]))
  {
    FilterMembers(item => item != id, pending);
    if pending != [] {
      var rest := pending[1..];
      WithoutOrdered(rest, id, events, e);
      FilterMembers(item => item != id, rest);
      var r := Without(pending, id);
      if pending[0] != id {
        var q := Without(rest, id);
        assert r == [pending[0]] + q;
        forall b | 1 <= b < |r| ensures r[b] != r[0] && WaitsLonger(events + [e], r[0], r[b]) {
          assert r[b] == q[b - 1] && q[b - 1] in rest;
          var k :| 0 <= k < |rest| && rest[k] == q[b - 1];
          assert pending[k + 1] == r[b];
          WaitsLongerSnoc(events, e, pending[0], pending[k + 1]);
        }
        forall a, b | 0 <= a < b < |r| ensures r[a] != r[b] && WaitsLonger(events + [e], r[a], r[b]) {
          if a > 0 { assert r[a] == q[a - 1] && r[b] == q[b - 1]; }
        }
      }
    }
  }

  /** The listed ids stay in order when e resolves none of them. */
  lemma OrderKept(pending: seq<string>, events: seq<RuntimeEvent>, e: RuntimeEvent)
    requires ListsOpen(pending, events) && forall id :: !Resolves(e, id)
    ensures forall a, b :: 0 <= a < b < |pending| ==> WaitsLonger(events + [e], pending[a], pending[b])
  {
    forall a, b | 0 <= a < b < |pending| ensures WaitsLonger(events + [e], pending[a], pending[b]) {
      WaitsLongerSnoc(events, e, pending[a], pending[b]);
    }
  }

  lemma PendingRequested(pending: seq<string>, events: seq<RuntimeEvent>, e: RuntimeEvent, id: string)
    requires ListsOpen(pending, events) && Requests(e, id)
    ensures ListsOpen(Dedup(pending + [id]), events + [e])
  {
    var more := Dedup(pending + [id]);
    DedupKnown(pending, id);
    OrderKept(pending, events, e);
    forall x ensures x in more <==> Open(events + [e], x) {
      OpenSnoc(events, e, x);
    }
    if id !in pending {
      forall a | 0 <= a < |pending| ensures WaitsLonger(events + [e], pending[a], id) {
        assert pending[a] in pending;
        NewestWaits(events, e, pending[a], id);
      }
    }
  }

  lemma PendingResolved(pending: seq<string>, events: seq<RuntimeEvent>, e: RuntimeEvent, id: string)
    requires ListsOpen(pending, events) && Resolves(e, id)
    ensures ListsOpen(Without(pending, id), events + [e])
  {
    WithoutOrdered(pending, id, events, e);
    forall x ensures x in Without(pending, id) <==> Open(events + [e], x) {
      OpenSnoc(events, e, x);
    }
  }

  lemma PendingUntouched(pending: seq<string>, events: seq<RuntimeEvent>, e: RuntimeEvent)
    requires ListsOpen(pending, events) && forall id :: !Requests(e, id) && !Resolves(e, id)
    ensures ListsOpen(pending, events + [e])
  {
    OrderKept(pending, events, e);
    forall x ensures x in pending <==> Open(events + [e], x) {
      OpenSnoc(events, e, x);
    }
  }

  lemma PendingStep(s: EventState, e: RuntimeEvent)
    requires ListsOpen(s.pending, s.events)
    ensures ListsOpen(Accept(s, e).pending, s.events + [e])
  {
    match e.payload.toolUseId
    case None => PendingUntouched(s.pending, s.events, e);
    case Some(id) =>
      if e.kind == "permission.requested" {
        PendingRequested(s.pending, s.events, e, id);
      } else if e.kind == "permission.resolved" {
        PendingResolved(s.pending, s.events, e, id);
      } else {
        PendingUntouched(s.pending, s.events, e);
      }
  }

  lemma {:induction false} PendingOfAccepted(s: EventState, events: seq<RuntimeEvent>)
    requires ListsOpen(s.pending, s.events)
    ensures ListsOpen(AcceptAll(s, events).pending, AcceptAll(s, events).events)
    decreases events
  {
    if events != [] {
      PendingStep(s, events[0]);
      PendingOfAccepted(Accept(s, events[0]), events[1..]);
    }
  }

  /** The phase last announced by the stored events. */
  function PhaseOf(events: seq<RuntimeEvent>, initial: string): string {
    if events == [] then initial else
      var e := events[|events| - 1];
      if e.kind == "run.phase_changed" && e.payload.phase.Some? then e.payload.phase.value
      else PhaseOf(events[..|events| - 1], initial)
  }

  lemma {:induction false} PhaseOfAccepted(s: EventState, events: seq<RuntimeEvent>, initial: string)
    requires s.phase == PhaseOf(s.events, initial)
    ensures AcceptAll(s, events).phase == PhaseOf(AcceptAll(s, events).events, initial)
    decreases events
  {
    if events != [] {
      assert (s.events + [events[0]])[..|s.events|] == s.events;
      PhaseOfAccepted(Accept(s, events[0]), events[1..], initial);
    }
  }

  lemma {:induction false} ReducedEvents(events: seq<RuntimeEvent>)
    ensures Fold(EMPTY, events) == AcceptAll(EMPTY, Maxima(events, 0))
    ensures Fold(EMPTY, events).events == Maxima(events, 0) && Fold(EMPTY, events).cursor == Highest(events, 0)
  {
    FoldIsMaxima(EMPTY, events);
    assert [] + Maxima(events, 0) == Maxima(events, 0);
  }

  lemma {:induction false} ReducedPhase(events: seq<RuntimeEvent>)
    ensures Fold(EMPTY, events).phase == PhaseOf(Fold(EMPTY, events).events, "idle")
  {
    ReducedEvents(events);
    PhaseOfAccepted(EMPTY, Maxima(events, 0), "idle");
  }

  lemma {:induction false} ReducedPending(events: seq<RuntimeEvent>)
    ensures ListsOpen(Fold(EMPTY, events).pending, Fold(EMPTY, events).events)
  {
    ReducedEvents(events);
    PendingOfAccepted(EMPTY, Maxima(events, 0));
  }

  /** From the empty state every field is a function of the accepted events. */
  lemma {:induction false} ReducedState(events: seq<RuntimeEvent>)
    ensures var r := Fold(EMPTY, events);
            && r.events == Maxima(events, 0)
            && r.cursor == Highest(events, 0)
            && (r.events != [] ==> r.cursor == r.events[|r.events| - 1].number)
            && r.phase == PhaseOf(r.events, "idle")
            && ListsOpen(r.pending, r.events)
  {
    ReducedEvents(events);
    ReducedPhase(events);
    ReducedPending(events);
    CursorAtLast(events, 0);
  }

  /** The cursor stands at the last event that passed. */
  lemma {:induction false} CursorAtLast(events: seq<RuntimeEvent>, cursor: int)
    ensures var m := Maxima(events, cursor);
            Highest(events, cursor) == if m == [] then cursor else m[|m| - 1].number
  {
    MaximaAscend(events, cursor);
    HighestOfMaxima(events, cursor);
    MaximaOfAscending(Maxima(events, cursor), cursor);
  }

  // ----- the phase -----

  /** The i-th event announces the phase. */
  predicate Announces(events: seq<RuntimeEvent>, i: int, phase: string) {
    0 <= i < |events| && events[i].kind == "run.phase_changed" && events[i].payload.phase == Some(phase)
  }

  /** The phase of any replay is the one announced last among the stored events, or
      "idle" before any is. */
  lemma PhaseMeaning(events: seq<RuntimeEvent>, phase: string)
    ensures var r := Fold(EMPTY, events);
            r.phase == phase <==>
              || (exists i :: Announces(r.events, i, phase) && forall j, p :: Announces(r.events, j, p) ==> j <= i)
              || (phase == "idle" && forall j, p :: !Announces(r.events, j, p))
  {
    ReducedPhase(events);
    LastAnnounced(Fold(EMPTY, events).events, "idle", phase);
  }

  /** Announced, and not announced otherwise afterwards. */
  ghost predicate AnnouncedLast(events: seq<RuntimeEvent>, phase: string) {
    exists i :: Announces(events, i, phase) && forall j, p :: Announces(events, j, p) ==> j <= i
  }

  lemma {:induction false} LastAnnounced(events: seq<RuntimeEvent>, initial: string, phase: string)
    ensures PhaseOf(events, initial) == phase <==>
              AnnouncedLast(events, phase) || (phase == initial && forall j, p :: !Announces(events, j, p))
  {
    if events != [] {
      var init, e := events[..|events| - 1], events[|events| - 1];
      assert events == init + [e];
      if e.kind == "run.phase_changed" && e.payload.phase.Some? {
        assert Announces(events, |init|, e.payload.phase.value);
      } else {
        LastAnnounced(init, initial, phase);
        forall j, p ensures Announces(events, j, p) <==> Announces(init, j, p) {}
        SameAnnounced(init, events, phase);
      }
    }
  }

  lemma SameAnnounced(a: seq<RuntimeEvent>, b: seq<RuntimeEvent>, phase: string)
    requires forall j, p :: Announces(a, j, p) <==> Announces(b, j, p)
    ensures AnnouncedLast(a, phase) <==> AnnouncedLast(b, phase)
  {
    if i :| Announces(a, i, phase) && forall j, p :: Announces(a, j, p) ==> j <= i { assert Announces(b, i, phase); }
    if i :| Announces(b, i, phase) && forall j, p :: Announces(b, j, p) ==> j <= i { assert Announces(a, i, phase); }
  }

  // ----- the pending permissions -----

  /** The i-th event requests the permission and no later one resolves it. */
  predicate RequestedAndOpen(events: seq<RuntimeEvent>, id: string, i: int) {
    && 0 <= i < |events| && events[i].kind == "permission.requested" && events[i].payload.toolUseId == Some(id)
    && forall j :: i < j < |events| && events[j].kind == "permission.resolved" ==>
         events[j].payload.toolUseId != Some(id)
  }

  /** Of any replay the pending permissions are, once each, those that a stored event
      requested and no later stored event resolved. */
  lemma PendingExactly(events: seq<RuntimeEvent>)
    ensures var r := Fold(EMPTY, events);
            && Distinct(r.pending)
            && forall id :: id in r.pending <==> exists i :: RequestedAndOpen(r.events, id, i)
  {
    ReducedPending(events);
    var r := Fold(EMPTY, events);
    forall id, i ensures OpenAt(r.events, id, i) <==> RequestedAndOpen(r.events, id, i) {}
    forall id ensures id in r.pending <==> exists i :: RequestedAndOpen(r.events, id, i) {
      if i :| OpenAt(r.events, id, i) { assert RequestedAndOpen(r.events, id, i); }
      if i :| RequestedAndOpen(r.events, id, i) { assert OpenAt(r.events, id, i); }
    }
  }
}
