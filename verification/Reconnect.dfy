/** The server's frames and the reconnect loop that consumes them: what comes out
    of a durable event log after any number of cut and repeated connections. */
module Reconnect {
  import opened Sequences
  import opened RuntimeEvents
  import opened EventStream
  import opened EventCache
  import Text

  // ----- what the server writes -----

  /** JSON as an abstract codec, and the decimal text of the `id:` line. */
  datatype Wire = Wire(
    idText: int -> string,
    encode: RuntimeEvent -> string,
    decode: string -> Option<RuntimeEvent>)

  predicate SingleLine(s: string) {
    Text.Without('\n', s) && Text.Without('\r', s)
  }

  /** JSON text is one non-empty line without white space at its ends, and parses back. */
  ghost predicate GoodWire(w: Wire) {
    && (forall n :: SingleLine(w.idText(n)))
    && (forall e :: SingleLine(w.encode(e)) && w.encode(e) != "" && Text.Trimmed(Text.JsSpace, w.encode(e))
          && w.decode(w.encode(e)) == Some(e))
  }

  /** One write of the server: an event, or the comment it sends while idle. */
  datatype Item = Event(event: RuntimeEvent) | KeepAlive

  function ServerFrame(w: Wire, item: Item): string {
    match item
    case Event(e) => "id: " + w.idText(e.number) + "\n" + ("event: " + e.kind + "\n" + ("data: " + w.encode(e)))
    case KeepAlive => ": keepalive"
  }

  function ServerFrames(w: Wire, items: seq<Item>): seq<string> {
    if items == [] then [] else [ServerFrame(w, items[0])] + ServerFrames(w, items[1..])
  }

  function ServerText(w: Wire, items: seq<Item>): string {
    Render(ServerFrames(w, items))
  }

  function EventsOf(items: seq<Item>): seq<RuntimeEvent> {
    if items == [] then []
    else if items[0].Event? then [items[0].event] + EventsOf(items[1..])
    else EventsOf(items[1..])
  }

  /** Event kinds are dotted names, never broken over lines. */
  predicate Servable(items: seq<Item>) {
    forall i :: 0 <= i < |items| && items[i].Event? ==> SingleLine(items[i].event.kind)
  }

  // ----- a server frame on the wire -----

  lemma BlankAfterBreak(s: string)
    requires s != "" && s[0] != '\n'
    ensures BlankLine("\n" + s) == if BlankLine(s) < 0 then -1 else 1 + BlankLine(s)
  {
    assert ("\n" + s)[1..] == s;
  }

  lemma LineThen(line: string, s: string)
    requires Text.Without('\n', line) && s != "" && s[0] != '\n'
    ensures BlankLine(line + "\n" + s) == if BlankLine(s) < 0 then -1 else |line| + 1 + BlankLine(s)
  {
    var t := "\n" + s;
    Reassociate(line, "\n", s);
    assert t[0] == '\n';
    BlankAfterBreak(s);
    NoBlankBefore(line, t);
  }

  lemma LastLine(line: string)
    requires Text.Without('\n', line)
    ensures Closed(line)
  {
    NoBlankBefore(line, "\n\n");
  }

  lemma ServerFrameCloses(w: Wire, item: Item)
    requires GoodWire(w) && Servable([item])
    ensures Closed(ServerFrame(w, item))
  {
    match item
    case KeepAlive =>
      LastLine(": keepalive");
    case Event(e) =>
      assert [item][0] == item;
      var id, kind, data := "id: " + w.idText(e.number), "event: " + e.kind, "data: " + w.encode(e);
      LastLine(data);
      LineThen(kind, data + "\n\n");
      var tail := kind + "\n" + data;
      assert tail + "\n\n" == kind + "\n" + (data + "\n\n");
      LineThen(id, tail + "\n\n");
      assert ServerFrame(w, item) + "\n\n" == id + "\n" + (tail + "\n\n");
  }

  lemma TrimTrimmed(s: string)
    requires Text.Trimmed(Text.JsSpace, s)
    ensures Text.Trim(Text.JsSpace, s) == s && Text.Trim(Text.JsSpace, " " + s) == s
  {
    assert (" " + s)[1..] == s;
  }

  lemma DataOfThree(client: Client, id: string, kind: string, data: string, json: string)
    requires id != "" && id[0] == 'i' && kind != "" && kind[0] == 'e'
    requires data == "data: " + json && Text.Trim(Text.JsSpace, " " + json) == json
    ensures Text.JoinLines(DataLines(client, [id] + ([kind] + [data]))) == json
  {
    var lines := [id] + ([kind] + [data]);
    assert lines[1..] == [kind] + [data] && lines[1..][1..] == [data];
    assert DataLine(client, id) == None && DataLine(client, kind) == None;
    assert data[6..] == json && data[5..] == " " + json;
    assert DataLine(client, data) == Some(json);
    assert DataLines(client, [data]) == [json];
  }

  /** Both clients read exactly the encoded event out of a server frame, and
      nothing out of a keep-alive. */
  lemma ServerFrameData(client: Client, w: Wire, item: Item)
    requires GoodWire(w) && Servable([item])
    ensures FrameData(client, ServerFrame(w, item)) == if item.Event? then w.encode(item.event) else ""
  {
    match item
    case KeepAlive =>
      Text.OneLine(": keepalive");
      assert [": keepalive"][1..] == [];
    case Event(e) =>
      assert [item][0] == item;
      var id, kind, data := "id: " + w.idText(e.number), "event: " + e.kind, "data: " + w.encode(e);
      Text.FirstLine(id, kind + "\n" + data);
      Text.FirstLine(kind, data);
      Text.OneLine(data);
      TrimTrimmed(w.encode(e));
      DataOfThree(client, id, kind, data, w.encode(e));
  }

  lemma {:induction false} ServerDecodes(client: Client, w: Wire, items: seq<Item>)
    requires GoodWire(w) && Servable(items)
    ensures Decode(client, w.decode, ServerFrames(w, items)) == Decoded(EventsOf(items), true)
    ensures forall f :: f in ServerFrames(w, items) ==> Closed(f)
  {
    if items != [] {
      assert Servable([items[0]]) && Servable(items[1..]);
      ServerFrameData(client, w, items[0]);
      ServerFrameCloses(w, items[0]);
      ServerDecodes(client, w, items[1..]);
      var frames := ServerFrames(w, items);
      assert frames[1..] == ServerFrames(w, items[1..]);
    }
  }

  lemma {:induction false} NoCarriageReturn(text: string)
    requires Text.Without('\r', text)
    ensures Normalise(text) == text
    decreases |text|
  {
    if |text| >= 2 {
      assert text[0] in text;
      assert Text.Without('\r', text[1..]);
      NoCarriageReturn(text[1..]);
      assert text == [text[0]] + text[1..];
    }
  }

  lemma {:induction false} NoCarriageReturns(chunks: seq<string>)
    requires Text.Without('\r', Concat(chunks))
    ensures NormaliseEach(chunks) == Concat(chunks)
  {
    if chunks != [] {
      assert Concat(chunks) == chunks[0] + Concat(chunks[1..]);
      NoCarriageReturn(chunks[0]);
      NoCarriageReturns(chunks[1..]);
    }
  }

  lemma {:induction false} ServerTextPlain(w: Wire, items: seq<Item>)
    requires GoodWire(w) && Servable(items)
    ensures Text.Without('\r', ServerText(w, items))
  {
    if items != [] {
      assert Servable(items[1..]);
      ServerTextPlain(w, items[1..]);
      var frames := ServerFrames(w, items);
      assert frames[1..] == ServerFrames(w, items[1..]);
      if items[0].Event? {
        var e := items[0].event;
        assert SingleLine(w.idText(e.number)) && SingleLine(w.encode(e)) && SingleLine(e.kind);
      }
    }
  }

  /** A connection cut anywhere, even inside a frame, and chunked anyhow yields
      the events of an initial run of what was written, through either client. */
  lemma CutConnection(client: Client, w: Wire, items: seq<Item>, chunks: seq<string>) returns (n: nat)
    requires GoodWire(w) && Servable(items)
    requires Concat(chunks) <= ServerText(w, items)
    ensures n == |SplitFrames(Concat(chunks)).frames| <= |items|
    ensures NormaliseEach(chunks) == Concat(chunks)
    ensures Decode(client, w.decode, SplitFrames(Concat(chunks)).frames) == Decoded(EventsOf(items[..n]), true)
    ensures Concat(chunks) == ServerText(w, items) ==> n == |items|
  {
    var whole, text := ServerText(w, items), Concat(chunks);
    var frames := ServerFrames(w, items);
    n := |SplitFrames(text).frames|;
    assert SplitFrames(whole) == Split(frames, "") by {
      ServerDecodes(client, w, items);
      SplitUnique(frames, "");
      assert whole + "" == whole;
    }
    assert SplitFrames(text).frames <= frames by {
      assert whole == text + whole[|text|..];
      CutKeepsPrefix(text, whole[|text|..]);
    }
    assert SplitFrames(text).frames == frames[..n];
    ServerFramesPrefix(w, items, n);
    assert Servable(items[..n]);
    ServerDecodes(client, w, items[..n]);
    assert NormaliseEach(chunks) == text by {
      ServerTextPlain(w, items);
      NoCarriageReturns(chunks);
    }
  }

  lemma {:induction false} ServerFramesLength(w: Wire, items: seq<Item>)
    ensures |ServerFrames(w, items)| == |items|
  {
    if items != [] { ServerFramesLength(w, items[1..]); }
  }

  lemma {:induction false} ServerFramesPrefix(w: Wire, items: seq<Item>, n: nat)
    requires n <= |ServerFrames(w, items)|
    ensures |ServerFrames(w, items)| == |items|
    ensures ServerFrames(w, items[..n]) == ServerFrames(w, items)[..n]
  {
    ServerFramesLength(w, items);
    if n > 0 {
      ServerFramesLength(w, items[1..]);
      ServerFramesPrefix(w, items[1..], n - 1);
      assert items[..n][1..] == items[1..][..n - 1];
    }
  }

  /** Round trip: whatever the server writes in full, either client delivers, for
      every chunking, as the strict maxima of the written events. */
  lemma ServerRoundTrip(client: Client, w: Wire, items: seq<Item>, chunks: seq<string>, after: int)
    requires GoodWire(w) && Servable(items) && Concat(chunks) == ServerText(w, items)
    ensures NormaliseEach(chunks) == Concat(chunks)
    ensures Deliver(client, w.decode, Concat(chunks), after)
              == Delivery(Maxima(EventsOf(items), after), Highest(EventsOf(items), after), true)
  {
    var n := CutConnection(client, w, items, chunks);
    assert items[..n] == items;
  }

  /** So the web UI and the extension agree on everything this server sends,
      cut anywhere, although their line rules differ. */
  lemma ClientsAgree(w: Wire, items: seq<Item>, chunks: seq<string>, after: int)
    requires GoodWire(w) && Servable(items) && Concat(chunks) <= ServerText(w, items)
    ensures Deliver(Web, w.decode, NormaliseEach(chunks), after) == Deliver(VsCode, w.decode, Concat(chunks), after)
  {
    var n := CutConnection(Web, w, items, chunks);
    var n' := CutConnection(VsCode, w, items, chunks);
  }

  // ----- the reconnect loop -----

  /** One connection as the client saw it: the text that arrived, and whether it
      ended in an error instead of an end of stream. */
  datatype Connection = Connection(chunks: seq<string>, broken: bool)

  datatype Consumed = Consumed(events: seq<RuntimeEvent>, cursor: int)

  /** Every connection starts at the cursor the previous one left behind. */
  function ConsumeAll(client: Client, decode: string -> Option<RuntimeEvent>, conns: seq<Connection>,
                      after: int): Consumed
    decreases conns
  {
    if conns == [] then Consumed([], after) else
      var d := Streamed(client, decode, conns[0].chunks, after);
      var rest := ConsumeAll(client, decode, conns[1..], d.cursor);
      Consumed(d.events + rest.events, rest.cursor)
  }

  lemma {:induction false} ConsumeSnoc(client: Client, decode: string -> Option<RuntimeEvent>, conns: seq<Connection>,
                                       c: Connection, after: int)
    ensures var init := ConsumeAll(client, decode, conns, after);
            var d := Streamed(client, decode, c.chunks, init.cursor);
            ConsumeAll(client, decode, conns + [c], after) == Consumed(init.events + d.events, d.cursor)
    decreases conns
  {
    if conns == [] {
      assert conns + [c] == [c] && [c][1..] == [];
      var d := Streamed(client, decode, c.chunks, after);
      assert d.events + [] == d.events && [] + d.events == d.events;
    } else {
      var d := Streamed(client, decode, conns[0].chunks, after);
      assert (conns + [c])[1..] == conns[1..] + [c];
      ConsumeSnoc(client, decode, conns[1..], c, d.cursor);
      var init := ConsumeAll(client, decode, conns[1..], d.cursor);
      Reassociate(d.events, init.events, Streamed(client, decode, c.chunks, init.cursor).events);
    }
  }

  /** One more of the connections. */
  lemma {:induction false} ConsumeNext(client: Client, decode: string -> Option<RuntimeEvent>, conns: seq<Connection>,
                                       i: nat, after: int)
    requires i < |conns|
    ensures var done := ConsumeAll(client, decode, conns[..i], after);
            var d := Streamed(client, decode, conns[i].chunks, done.cursor);
            ConsumeAll(client, decode, conns[..i + 1], after) == Consumed(done.events + d.events, d.cursor)
  {
    var init := conns[..i];
    assert conns[..i + 1] == init + [conns[i]];
    ConsumeSnoc(client, decode, init, conns[i], after);
  }

  /** The refs `consume` keeps for the selected thread. */
  class EventConsumer {
    var cursor: int
    var cache: seq<RuntimeEvent>
    var delivered: seq<RuntimeEvent>

    constructor ()
      ensures cursor == 0 && cache == [] && delivered == []
    {
      cursor, cache, delivered := 0, [], [];
    }

    /** The callback handed to `streamEvents`. */
    method OnEvent(event: RuntimeEvent)
      modifies this
      ensures cursor == Max(old(cursor), event.number)
      ensures delivered == old(delivered) + [event]
      ensures cache == AppendRuntimeEvent(old(cache), event)
    {
      cursor := Max(cursor, event.number);
      delivered := delivered + [event];
      cache := AppendRuntimeEvent(cache, event);
    }

    /** All the callbacks of one stream. */
    method OnEvents(events: seq<RuntimeEvent>)
      modifies this
      ensures cursor == Highest(events, old(cursor))
      ensures delivered == old(delivered) + events
      ensures cache == AppendAll(MAX_CACHED_EVENTS, old(cache), events)
    {
      for k := 0 to |events|
        invariant cursor == Highest(events[..k], old(cursor))
        invariant delivered == old(delivered) + events[..k]
        invariant cache == AppendAll(MAX_CACHED_EVENTS, old(cache), events[..k])
      {
        assert events[..k + 1] == events[..k] + [events[k]];
        HighestSnoc(events[..k], events[k], old(cursor));
        AppendSnoc(MAX_CACHED_EVENTS, old(cache), events[..k], events[k]);
        OnEvent(events[k]);
      }
      assert events[..|events|] == events;
    }

    /** One turn of the loop: after an error the cursor is what the callbacks left. */
    method ConsumeOne(decode: string -> Option<RuntimeEvent>, conn: Connection)
      modifies this
      ensures var d := Streamed(Web, decode, conn.chunks, old(cursor));
              && delivered == old(delivered) + d.events
              && cursor == d.cursor
              && cache == AppendAll(MAX_CACHED_EVENTS, old(cache), d.events)
    {
      StreamedCursor(decode, conn.chunks, cursor);
      var events, returned, ok := StreamEvents(decode, conn.chunks, cursor);
      OnEvents(events);
      if ok && !conn.broken {
        cursor := returned;
      }
    }

    /** The while loop of `consume`. */
    method Consume(decode: string -> Option<RuntimeEvent>, conns: seq<Connection>)
      modifies this
      ensures var c := ConsumeAll(Web, decode, conns, old(cursor));
              && delivered == old(delivered) + c.events
              && cursor == c.cursor
              && cache == AppendAll(MAX_CACHED_EVENTS, old(cache), c.events)
    {
      ghost var done, start := Consumed([], cursor), cursor;
      assert conns[..0] == [];
      for i := 0 to |conns|
        invariant done == ConsumeAll(Web, decode, conns[..i], start) && cursor == done.cursor
        invariant delivered == old(delivered) + done.events
        invariant cache == AppendAll(MAX_CACHED_EVENTS, old(cache), done.events)
      {
        ghost var d := Streamed(Web, decode, conns[i].chunks, cursor);
        AppendConcat(MAX_CACHED_EVENTS, old(cache), done.events, d.events);
        Reassociate(old(delivered), done.events, d.events);
        ConsumeNext(Web, decode, conns, i, start);
        ConsumeOne(decode, conns[i]);
        done := Consumed(done.events + d.events, d.cursor);
      }
      assert conns[..|conns|] == conns;
    }
  }

  /** The loop of `startEventStream`: one connection after another from the cursor the
      stream keeps, however each of them ends. */
  method FollowStream(stream: VsCodeStream, decode: string -> Option<RuntimeEvent>, conns: seq<Connection>)
    modifies stream
    ensures var c := ConsumeAll(VsCode, decode, conns, old(stream.eventCursor));
            stream.handled == old(stream.handled) + c.events && stream.eventCursor == c.cursor
  {
    ghost var done, start := Consumed([], stream.eventCursor), stream.eventCursor;
    assert conns[..0] == [];
    for i := 0 to |conns|
      invariant done == ConsumeAll(VsCode, decode, conns[..i], start) && stream.eventCursor == done.cursor
      invariant stream.handled == old(stream.handled) + done.events
    {
      ghost var d := Streamed(VsCode, decode, conns[i].chunks, stream.eventCursor);
      Reassociate(old(stream.handled), done.events, d.events);
      ConsumeNext(VsCode, decode, conns, i, start);
      var ok := stream.Consume(decode, conns[i].chunks);
      done := Consumed(done.events + d.events, d.cursor);
    }
    assert conns[..|conns|] == conns;
  }

  /** The cursor the callbacks leave is the one `streamEvents` would return, so it
      does not matter whether it gets to return. */
  lemma StreamedCursor(decode: string -> Option<RuntimeEvent>, chunks: seq<string>, after: int)
    ensures var d := Streamed(Web, decode, chunks, after); Highest(d.events, after) == d.cursor
  {
    HighestOfMaxima(Decode(Web, decode, SplitFrames(NormaliseEach(chunks)).frames).events, after);
  }

  lemma HighestSnoc(events: seq<RuntimeEvent>, e: RuntimeEvent, cursor: int)
    ensures Highest(events + [e], cursor) == Max(Highest(events, cursor), e.number)
  {
    MaximaConcat(events, [e], cursor);
    assert [e][1..] == [];
  }

  // ----- exactly once -----

  /** A connection the server kept its word on: it wrote log entries, picks of them
      by index, and the client received some initial part of that text. */
  datatype Served = Served(items: seq<Item>, picks: seq<nat>, connection: Connection)

  ghost predicate IsLog(log: seq<RuntimeEvent>) {
    && Ascending(log)
    && (forall i :: 0 <= i < |log| ==> log[i].number > 0 && SingleLine(log[i].kind))
  }

  function Pick(log: seq<RuntimeEvent>, picks: seq<nat>): seq<RuntimeEvent>
    requires forall k :: 0 <= k < |picks| ==> picks[k] < |log|
  {
    if picks == [] then [] else [log[picks[0]]] + Pick(log, picks[1..])
  }

  /** In order, possibly repeating: each pick is old or the very next entry. */
  predicate Walk(picks: seq<nat>, next: nat) {
    picks == [] || (picks[0] <= next && Walk(picks[1..], if picks[0] == next then next + 1 else next))
  }

  /** The cursor stands between entries next - 1 and next of the log. */
  ghost predicate StandsAt(log: seq<RuntimeEvent>, cursor: int, next: nat) {
    && next <= |log|
    && (forall k :: 0 <= k < next ==> log[k].number <= cursor)
    && (forall k :: next <= k < |log| ==> log[k].number > cursor)
  }

  /** Serving from at or before the first entry after the cursor; with no cursor yet
      the web UI sends a `tail` request, which may start anywhere. */
  ghost predicate ServesFrom(client: Client, log: seq<RuntimeEvent>, picks: seq<nat>, cursor: int) {
    && (forall k :: 0 <= k < |picks| ==> picks[k] < |log|)
    && ((exists next: nat :: StandsAt(log, cursor, next) && Walk(picks, next))
        || (client == Web && cursor == 0 && picks != [] && Walk(picks, picks[0])))
  }

  function Connections(served: seq<Served>): seq<Connection> {
    if served == [] then [] else [served[0].connection] + Connections(served[1..])
  }

  ghost predicate Faithful(client: Client, w: Wire, log: seq<RuntimeEvent>, served: seq<Served>, cursor: int)
    decreases served
  {
    served == [] ||
    var s := served[0];
    && ServesFrom(client, log, s.picks, cursor)
    && EventsOf(s.items) == Pick(log, s.picks)
    && Concat(s.connection.chunks) <= ServerText(w, s.items)
    && Faithful(client, w, log, served[1..], Streamed(client, w.decode, s.connection.chunks, cursor).cursor)
  }

  /** The cursor moved from before entry next to c', right before entry m. */
  ghost predicate Moves(log: seq<RuntimeEvent>, cursor: int, next: nat, cursor': int, m: nat) {
    && next <= m && StandsAt(log, cursor', m)
    && cursor' == if m == next then cursor else log[m - 1].number
  }

  lemma StandsAfter(log: seq<RuntimeEvent>, k: nat)
    requires Ascending(log) && k < |log|
    ensures StandsAt(log, log[k].number, k + 1)
  {}

  lemma {:induction false} WalkMaxima(log: seq<RuntimeEvent>, picks: seq<nat>, cursor: int, next: nat) returns (m: nat)
    requires Ascending(log) && StandsAt(log, cursor, next) && Walk(picks, next)
    requires forall k :: 0 <= k < |picks| ==> picks[k] < |log|
    ensures Moves(log, cursor, next, Highest(Pick(log, picks), cursor), m)
    ensures Maxima(Pick(log, picks), cursor) == log[next..m]
  {
    if picks == [] {
      m := next;
    } else {
      var p := picks[0];
      assert Pick(log, picks)[1..] == Pick(log, picks[1..]);
      if p == next {
        StandsAfter(log, p);
        m := WalkMaxima(log, picks[1..], log[p].number, next + 1);
        assert log[next..m] == [log[next]] + log[next + 1..m];
      } else {
        assert log[p].number <= cursor;
        m := WalkMaxima(log, picks[1..], cursor, next);
      }
    }
  }

  lemma {:induction false} WalkPrefix(picks: seq<nat>, next: nat, n: nat)
    requires Walk(picks, next) && n <= |picks|
    ensures Walk(picks[..n], next)
  {
    if n > 0 {
      WalkPrefix(picks[1..], if picks[0] == next then next + 1 else next, n - 1);
      assert picks[..n][1..] == picks[1..][..n - 1];
    }
  }

  lemma {:induction false} PickPrefix(log: seq<RuntimeEvent>, picks: seq<nat>, n: nat)
    requires forall k :: 0 <= k < |picks| ==> picks[k] < |log|
    requires n <= |Pick(log, picks)|
    ensures n <= |picks| && Pick(log, picks[..n]) == Pick(log, picks)[..n]
  {
    if n > 0 {
      PickPrefix(log, picks[1..], n - 1);
      assert picks[..n][1..] == picks[1..][..n - 1];
    }
  }

  lemma {:induction false} EventsConcat(a: seq<Item>, b: seq<Item>)
    ensures EventsOf(a + b) == EventsOf(a) + EventsOf(b)
  {
    if a == [] {
      assert a + b == b;
    } else {
      EventsConcat(a[1..], b);
      assert (a + b)[1..] == a[1..] + b;
    }
  }

  lemma {:induction false} ServableFromLog(log: seq<RuntimeEvent>, items: seq<Item>, picks: seq<nat>)
    requires IsLog(log) && (forall k :: 0 <= k < |picks| ==> picks[k] < |log|)
    requires EventsOf(items) == Pick(log, picks)
    ensures Servable(items)
  {
    if items != [] {
      if items[0].Event? {
        assert EventsOf(items)[1..] == EventsOf(items[1..]);
        assert Pick(log, picks)[1..] == Pick(log, picks[1..]);
        ServableFromLog(log, items[1..], picks[1..]);
        assert items[0].event == log[picks[0]];
      } else {
        ServableFromLog(log, items[1..], picks);
      }
      assert items == [items[0]] + items[1..];
    }
  }

  /** What arrived of one connection, as picks of the log. */
  lemma Arrived(client: Client, w: Wire, log: seq<RuntimeEvent>, s: Served) returns (picks: seq<nat>)
    requires GoodWire(w) && IsLog(log)
    requires forall k :: 0 <= k < |s.picks| ==> s.picks[k] < |log|
    requires EventsOf(s.items) == Pick(log, s.picks)
    requires Concat(s.connection.chunks) <= ServerText(w, s.items)
    ensures picks <= s.picks
    ensures Decode(client, w.decode, SplitFrames(TextOf(client, s.connection.chunks)).frames) ==
        Decoded(Pick(log, picks), true)
  {
    ServableFromLog(log, s.items, s.picks);
    var n := CutConnection(client, w, s.items, s.connection.chunks);
    assert s.items[..n] + s.items[n..] == s.items;
    EventsConcat(s.items[..n], s.items[n..]);
    var events := EventsOf(s.items[..n]);
    PickPrefix(log, s.picks, |events|);
    picks := s.picks[..|events|];
  }

  /** log[a..m] was delivered and the cursor follows it; a set cursor pins a, and for
      the extension, which sends no `tail` request, so does the initial one. */
  ghost predicate DeliversRun(client: Client, log: seq<RuntimeEvent>, cursor: int, events: seq<RuntimeEvent>,
                              cursor': int, a: nat, m: nat) {
    && a <= m <= |log| && events == log[a..m]
    && (a == m ==> cursor' == cursor)
    && (a < m ==> cursor' == log[m - 1].number && (client == VsCode || cursor != 0 ==> StandsAt(log, cursor, a)))
  }

  lemma PassesFirst(e: RuntimeEvent, rest: seq<RuntimeEvent>, cursor: int)
    requires e.number > cursor
    ensures Maxima([e] + rest, cursor) == [e] + Maxima(rest, e.number)
    ensures Highest([e] + rest, cursor) == Highest(rest, e.number)
  {
    assert ([e] + rest)[1..] == rest;
  }

  /** The tail request: the first pick passes whatever it is. */
  lemma {:induction false} TailMaxima(log: seq<RuntimeEvent>, picks: seq<nat>) returns (m: nat)
    requires IsLog(log) && picks != [] && Walk(picks, picks[0])
    requires forall k :: 0 <= k < |picks| ==> picks[k] < |log|
    ensures DeliversRun(Web, log, 0, Maxima(Pick(log, picks), 0), Highest(Pick(log, picks), 0), picks[0], m)
  {
    var a := picks[0];
    StandsAfter(log, a);
    PassesFirst(log[a], Pick(log, picks[1..]), 0);
    m := WalkMaxima(log, picks[1..], log[a].number, a + 1);
    assert log[a..m] == [log[a]] + log[a + 1..m];
  }

  /** One connection delivers a contiguous run of the log, and leaves the cursor
      at its last event. */
  lemma OneConnection(client: Client, w: Wire, log: seq<RuntimeEvent>, s: Served, cursor: int) returns (a: nat, m: nat)
    requires GoodWire(w) && IsLog(log) && Faithful(client, w, log, [s], cursor)
    ensures var d := Streamed(client, w.decode, s.connection.chunks, cursor);
            d.ok && DeliversRun(client, log, cursor, d.events, d.cursor, a, m)
  {
    var picks := Arrived(client, w, log, s);
    assert s.picks[..|picks|] == picks;
    if next: nat :| StandsAt(log, cursor, next) && Walk(s.picks, next) {
      WalkPrefix(s.picks, next, |picks|);
      a := next;
      m := WalkMaxima(log, picks, cursor, next);
    } else if picks == [] {
      a, m := 0, 0;
    } else {
      a := picks[0];
      WalkPrefix(s.picks, a, |picks|);
      m := TailMaxima(log, picks);
    }
  }

  lemma StandsOnce(log: seq<RuntimeEvent>, cursor: int, p: nat, q: nat)
    requires StandsAt(log, cursor, p) && StandsAt(log, cursor, q)
    ensures p == q
  {
    assert p < |log| ==> log[p] == log[p];
    assert q < |log| ==> log[q] == log[q];
  }

  lemma RunsJoin(client: Client, log: seq<RuntimeEvent>, c0: int, e1: seq<RuntimeEvent>, c1: int, a1: nat, m1: nat,
                 e2: seq<RuntimeEvent>, c2: int, a2: nat, m2: nat) returns (a: nat, m: nat)
    requires IsLog(log) && DeliversRun(client, log, c0, e1, c1, a1, m1) && DeliversRun(client, log, c1, e2, c2, a2, m2)
    ensures DeliversRun(client, log, c0, e1 + e2, c2, a, m)
  {
    if a1 == m1 {
      assert e1 + e2 == e2;
      a, m := a2, m2;
    } else if a2 == m2 {
      assert e1 + e2 == e1;
      a, m := a1, m1;
    } else {
      StandsAfter(log, m1 - 1);
      assert c1 > 0;
      StandsOnce(log, c1, m1, a2);
      assert log[a1..m1] + log[m1..m2] == log[a1..m2];
      a, m := a1, m2;
    }
  }

  /** The first connection and the others, each from the cursor it finds. */
  lemma FaithfulSplit(client: Client, w: Wire, log: seq<RuntimeEvent>, served: seq<Served>, cursor: int)
    requires served != [] && Faithful(client, w, log, served, cursor)
    ensures var first := Streamed(client, w.decode, served[0].connection.chunks, cursor);
            var rest := ConsumeAll(client, w.decode, Connections(served[1..]), first.cursor);
            && Faithful(client, w, log, [served[0]], cursor) && Faithful(client, w, log, served[1..], first.cursor)
            && ConsumeAll(client, w.decode, Connections(served), cursor)
                 == Consumed(first.events + rest.events, rest.cursor)
  {
    assert [served[0]][1..] == [];
    assert Connections(served)[1..] == Connections(served[1..]);
  }

  /** Exactly once over reconnects: whatever the connections repeat and wherever
      they are cut, what is delivered over all of them is a gapless run of the log,
      and a set cursor pins where it begins; for the extension every cursor does. */
  lemma {:induction false} ExactlyOnce(client: Client, w: Wire, log: seq<RuntimeEvent>, served: seq<Served>,
                                       cursor: int)
    returns (a: nat, m: nat)
    requires GoodWire(w) && IsLog(log) && Faithful(client, w, log, served, cursor)
    ensures var c := ConsumeAll(client, w.decode, Connections(served), cursor);
            DeliversRun(client, log, cursor, c.events, c.cursor, a, m) && Ascending(c.events)
    decreases served
  {
    if served == [] {
      a, m := 0, 0;
    } else {
      FaithfulSplit(client, w, log, served, cursor);
      var a1, m1 := OneConnection(client, w, log, served[0], cursor);
      var d := Streamed(client, w.decode, served[0].connection.chunks, cursor);
      var a2, m2 := ExactlyOnce(client, w, log, served[1..], d.cursor);
      var rest := ConsumeAll(client, w.decode, Connections(served[1..]), d.cursor);
      a, m := RunsJoin(client, log, cursor, d.events, d.cursor, a1, m1, rest.events, rest.cursor, a2, m2);
    }
  }

  /** End to end, from a fresh page: the cache holds the last events of a gapless
      run of the log. */
  lemma CacheAfterReconnects(w: Wire, log: seq<RuntimeEvent>, served: seq<Served>) returns (a: nat, m: nat)
    requires GoodWire(w) && IsLog(log) && Faithful(Web, w, log, served, 0)
    ensures a <= m <= |log|
    ensures var c := ConsumeAll(Web, w.decode, Connections(served), 0);
            && c.events == log[a..m]
            && AppendAll(MAX_CACHED_EVENTS, [], c.events) == if m - a > 5000 then log[m - 5000..m] else log[a..m]
  {
    a, m := ExactlyOnce(Web, w, log, served, 0);
    CacheOfAscending(MAX_CACHED_EVENTS, log[a..m]);
  }

  /** The extension, from its start, has handled exactly an initial run of the log. */
  lemma ExtensionFollowsLog(w: Wire, log: seq<RuntimeEvent>, served: seq<Served>) returns (m: nat)
    requires GoodWire(w) && IsLog(log) && Faithful(VsCode, w, log, served, 0)
    ensures m <= |log| && ConsumeAll(VsCode, w.decode, Connections(served), 0).events == log[..m]
  {
    var a;
    a, m := ExactlyOnce(VsCode, w, log, served, 0);
    if a == m {
      m := 0;
    } else {
      StandsOnce(log, 0, a, 0);
    }
  }
}
