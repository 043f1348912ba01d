/** Runtime events and the one filter every consumer applies to them: a cursor
    that lets an event through only when its sequence number exceeds it. */
module RuntimeEvents {
  import opened Sequences

  /** The payload fields the reducer looks at; a field is None when it is absent
      or not a string. */
  datatype Payload = Payload(phase: Option<string>, toolUseId: Option<string>)

  datatype RuntimeEvent = RuntimeEvent(number: int, kind: string, payload: Payload)

  /** The left-to-right strict maxima of the events above a cursor. */
  function Maxima(events: seq<RuntimeEvent>, cursor: int): seq<RuntimeEvent> {
    if events == [] then []
    else if events[0].number > cursor then [events[0]] + Maxima(events[1..], events[0].number)
    else Maxima(events[1..], cursor)
  }

  predicate HasNumber(events: seq<RuntimeEvent>, n: int) {
    exists i :: 0 <= i < |events| && events[i].number == n
  }

  function Max(a: int, b: int): int {
    if a < b then b else a
  }

  /** The largest of the cursor and all sequence numbers. */
  function Highest(events: seq<RuntimeEvent>, cursor: int): int {
    if events == [] then cursor else Highest(events[1..], Max(cursor, events[0].number))
  }

  ghost predicate Ascending(events: seq<RuntimeEvent>) {
    forall i, j :: 0 <= i < j < |events| ==> events[i].number < events[j].number
  }

  ghost predicate Above(events: seq<RuntimeEvent>, cursor: int) {
    forall i :: 0 <= i < |events| ==> events[i].number > cursor
  }

  lemma {:induction false} HighestBounds(events: seq<RuntimeEvent>, cursor: int)
    ensures Highest(events, cursor) >= cursor
    ensures forall i :: 0 <= i < |events| ==> events[i].number <= Highest(events, cursor)
    ensures Highest(events, cursor) == cursor
         || exists i :: 0 <= i < |events| && events[i].number == Highest(events, cursor)
  {
    if events != [] {
      HighestBounds(events[1..], Max(cursor, events[0].number));
      assert events == [events[0]] + events[1..];
      var h := Highest(events, cursor);
      if h != Max(cursor, events[0].number) {
        var i :| 0 <= i < |events[1..]| && events[1..][i].number == h;
        assert events[i + 1].number == h;
      }
    }
  }

  lemma {:induction false} MaximaConcat(xs: seq<RuntimeEvent>, ys: seq<RuntimeEvent>, cursor: int)
    ensures Maxima(xs + ys, cursor) == Maxima(xs, cursor) + Maxima(ys, Highest(xs, cursor))
    ensures Highest(xs + ys, cursor) == Highest(ys, Highest(xs, cursor))
  {
    if xs == [] {
      assert xs + ys == ys;
    } else {
      assert (xs + ys)[1..] == xs[1..] + ys;
      MaximaConcat(xs[1..], ys, Max(cursor, xs[0].number));
    }
  }

  lemma {:induction false} MaximaAscend(events: seq<RuntimeEvent>, cursor: int)
    ensures Ascending(Maxima(events, cursor)) && Above(Maxima(events, cursor), cursor)
    ensures forall e :: e in Maxima(events, cursor) ==> e in events
  {
    if events != [] {
      MaximaAscend(events[1..], Max(cursor, events[0].number));
      assert events == [events[0]] + events[1..];
    }
  }

  /** An event passes exactly when it exceeds the cursor and everything before it. */
  lemma {:induction false} MaximaMembers(events: seq<RuntimeEvent>, cursor: int, e: RuntimeEvent)
    ensures e in Maxima(events, cursor) <==>
            exists i :: 0 <= i < |events| && events[i] == e && e.number > Highest(events[..i], cursor)
  {
    if events != [] {
      var rest, c := events[1..], Max(cursor, events[0].number);
      MaximaMembers(rest, c, e);
      forall i | 0 <= i < |rest| ensures Highest(rest[..i], c) == Highest(events[..i + 1], cursor) {
        assert events[..i + 1][1..] == rest[..i];
      }
      if e in Maxima(rest, c) {
        var i :| 0 <= i < |rest| && rest[i] == e && e.number > Highest(rest[..i], c);
        assert events[i + 1] == e && e.number > Highest(events[..i + 1], cursor);
      }
      if i :| 0 <= i < |events| && events[i] == e && e.number > Highest(events[..i], cursor) {
        if i == 0 {
          assert events[..0] == [];
        } else {
          assert rest[i - 1] == e && e.number > Highest(rest[..i - 1], c);
          assert e in Maxima(rest, c);
        }
      }
      assert events[..0] == [];
      assert e == events[0] && e.number > cursor ==> events[0] == e && e.number > Highest(events[..0], cursor);
    }
  }

  /** Ascending events above the cursor all pass. */
  lemma {:induction false} MaximaOfAscending(events: seq<RuntimeEvent>, cursor: int)
    requires Ascending(events) && Above(events, cursor)
    ensures Maxima(events, cursor) == events
    ensures Highest(events, cursor) == if events == [] then cursor else events[|events| - 1].number
  {
    if events != [] {
      assert Above(events[1..], events[0].number);
      MaximaOfAscending(events[1..], events[0].number);
    }
  }

  /** What passed reaches as high as everything that arrived. */
  lemma {:induction false} HighestOfMaxima(events: seq<RuntimeEvent>, cursor: int)
    ensures Highest(Maxima(events, cursor), cursor) == Highest(events, cursor)
  {
    if events != [] {
      HighestOfMaxima(events[1..], Max(cursor, events[0].number));
    }
  }
}
