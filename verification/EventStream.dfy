/** The incremental event-stream clients: `streamEvents` of the web UI and the
    frame loop of the VS Code extension.  Text arrives in arbitrary chunks; both
    clients cut it into frames at blank lines as it arrives. */
module EventStream {
  import opened Sequences
  import opened RuntimeEvents
  import Text

  // ----- framing -----

  /** `text.indexOf("\n\n")`. */
  function BlankLine(text: string): (b: int)
    ensures -1 <= b <= |text| - 2 || b == -1
  {
    if |text| < 2 then -1
    else if text[0] == '\n' && text[1] == '\n' then 0
    else
      var b := BlankLine(text[1..]);
      if b < 0 then -1 else b + 1
  }

  /** Complete frames, and the unterminated text after the last of them. */
  datatype Split = Split(frames: seq<string>, rest: string)

  /** The batch definition: cut the whole text greedily at each blank line. */
  function SplitFrames(text: string): Split
    decreases |text|
  {
    var b := BlankLine(text);
    if b < 0 then Split([], text) else
      var tail := SplitFrames(text[b + 2..]);
      Split([text[..b]] + tail.frames, tail.rest)
  }

  function Render(frames: seq<string>): string {
    if frames == [] then "" else frames[0] + "\n\n" + Render(frames[1..])
  }

  /** A frame that the first blank line after its start ends. */
  predicate Closed(frame: string) {
    BlankLine(frame + "\n\n") == |frame|
  }

  lemma {:induction false} BlankLineStable(a: string, b: string)
    requires BlankLine(a) >= 0
    ensures BlankLine(a + b) == BlankLine(a)
  {
    assert (a + b)[0] == a[0] && (a + b)[1] == a[1];
    if !(a[0] == '\n' && a[1] == '\n') {
      BlankLineStable(a[1..], b);
      assert (a + b)[1..] == a[1..] + b;
    }
  }

  /** Taking one frame off the front of a buffer. */
  lemma SplitStep(text: string)
    requires BlankLine(text) >= 0
    ensures var b := BlankLine(text); var tail := SplitFrames(text[b + 2..]);
            SplitFrames(text) == Split([text[..b]] + tail.frames, tail.rest)
  {}

  /** The first frame of a text stays the first when more text follows. */
  lemma FirstFrameStays(a: string, b: string)
    requires BlankLine(a) >= 0
    ensures var i := BlankLine(a); var tail := SplitFrames(a[i + 2..] + b);
            SplitFrames(a + b) == Split([a[..i]] + tail.frames, tail.rest)
  {
    var i := BlankLine(a);
    BlankLineStable(a, b);
    assert (a + b)[i + 2..] == a[i + 2..] + b && (a + b)[..i] == a[..i];
    SplitStep(a + b);
  }

  /** Frames found before and after, put together behind one more in front. */
  lemma JoinSplits(f: string, s: Split, t: Split)
    ensures [f] + (s.frames + t.frames) == ([f] + s.frames) + t.frames
  {}

  lemma {:induction false} NoFrameYet(a: string)
    requires BlankLine(a) < 0
    ensures SplitFrames(a) == Split([], a)
  {}

  /** The online step: framing more text is framing the kept rest with the new
      text behind it. */
  lemma {:induction false} SplitIncremental(a: string, b: string)
    ensures SplitFrames(a + b) == Continued(SplitFrames(a), b)
    decreases |a|
  {
    var i := BlankLine(a);
    if i < 0 {
      NoFrameYet(a);
      assert [] + SplitFrames(a + b).frames == SplitFrames(a + b).frames;
    } else {
      var s := SplitFrames(a[i + 2..]);
      SplitStep(a);
      FirstFrameStays(a, b);
      SplitIncremental(a[i + 2..], b);
      JoinSplits(a[..i], s, SplitFrames(s.rest + b));
    }
  }

  /** The frames so far and those of the kept rest with more text behind it. */
  function Continued(s: Split, more: string): Split {
    var t := SplitFrames(s.rest + more);
    Split(s.frames + t.frames, t.rest)
  }

  lemma {:induction false} BlankLineSuffix(a: string)
    requires BlankLine(a) >= 0
    ensures Closed(a[..BlankLine(a)])
    ensures a[BlankLine(a)..BlankLine(a) + 2] == "\n\n"
  {
    var b := BlankLine(a);
    if b > 0 {
      BlankLineSuffix(a[1..]);
      var f := a[..b] + "\n\n";
      assert f[1..] == a[1..][..b - 1] + "\n\n";
      assert a[1..][b - 1..b + 1] == a[b..b + 2];
      if b == 1 {
        assert f[1] == '\n';
        assert a[1] == a[b..b + 2][0];
      }
    }
  }

  /** What the split means: the frames, each ended by its first blank line, and a
      rest without one, make up the text again. */
  lemma SplitSound(text: string)
    ensures var s := SplitFrames(text);
            && Render(s.frames) + s.rest == text
            && (forall f :: f in s.frames ==> Closed(f))
            && BlankLine(s.rest) < 0
  {
    SplitRestores(text);
    SplitCloses(text);
  }

  lemma {:induction false} SplitRestores(text: string)
    ensures Render(SplitFrames(text).frames) + SplitFrames(text).rest == text
    decreases |text|
  {
    var b := BlankLine(text);
    if b >= 0 {
      var tail := SplitFrames(text[b + 2..]);
      SplitStep(text);
      SplitRestores(text[b + 2..]);
      RenderCons(text[..b], tail.frames, tail.rest);
      CutAtBlank(text);
    }
  }

  lemma CutAtBlank(text: string)
    requires BlankLine(text) >= 0
    ensures text == text[..BlankLine(text)] + "\n\n" + text[BlankLine(text) + 2..]
  {
    var b := BlankLine(text);
    BlankLineSuffix(text);
    assert text == text[..b] + text[b..b + 2] + text[b + 2..];
  }

  lemma {:induction false} SplitCloses(text: string)
    ensures forall f :: f in SplitFrames(text).frames ==> Closed(f)
    ensures BlankLine(SplitFrames(text).rest) < 0
    decreases |text|
  {
    var b := BlankLine(text);
    if b >= 0 {
      SplitStep(text);
      SplitCloses(text[b + 2..]);
      BlankLineSuffix(text);
    }
  }

  lemma RenderCons(frame: string, frames: seq<string>, rest: string)
    ensures Render([frame] + frames) + rest == frame + "\n\n" + (Render(frames) + rest)
  {
    assert ([frame] + frames)[1..] == frames;
  }

  /** ... and it is the only such decomposition of the text. */
  lemma {:induction false} SplitUnique(frames: seq<string>, rest: string)
    requires forall f :: f in frames ==> Closed(f)
    requires BlankLine(rest) < 0
    ensures SplitFrames(Render(frames) + rest) == Split(frames, rest)
    decreases |frames|
  {
    if frames == [] {
      assert Render(frames) + rest == rest;
    } else {
      var f := frames[0];
      assert f in frames;
      var more := Render(frames[1..]) + rest;
      var text := Render(frames) + rest;
      assert text == (f + "\n\n") + more;
      BlankLineStable(f + "\n\n", more);
      assert text[|f| + 2..] == more;
      assert text[..|f|] == f;
      SplitUnique(frames[1..], rest);
      assert [f] + frames[1..] == frames;
    }
  }

  /** Text cut off anywhere yields an initial run of the whole text's frames. */
  lemma CutKeepsPrefix(a: string, b: string)
    ensures SplitFrames(a).frames <= SplitFrames(a + b).frames
  {
    SplitIncremental(a, b);
  }

  // ----- carriage returns -----

  /** `text.replace(/\r\n/g, "\n")`. */
  function Normalise(text: string): string {
    if |text| < 2 then text
    else if text[0] == '\r' && text[1] == '\n' then "\n" + Normalise(text[2..])
    else [text[0]] + Normalise(text[1..])
  }

  function NormaliseEach(chunks: seq<string>): string {
    if chunks == [] then "" else Normalise(chunks[0]) + NormaliseEach(chunks[1..])
  }

  /** Whether a carriage return ends a while a line feed starts b. */
  predicate Tears(a: string, b: string) {
    a != "" && b != "" && a[|a| - 1] == '\r' && b[0] == '\n'
  }

  /** Whether some chunk boundary lies between a CR and its LF. */
  predicate TearsCrLf(chunks: seq<string>) {
    chunks != [] && (Tears(chunks[0], Concat(chunks[1..])) || TearsCrLf(chunks[1..]))
  }

  /** Normalising two pieces apart is normalising them together, unless the cut
      tears a CR from its LF: then the pieces come out one character longer. */
  lemma {:induction false} NormalisePieces(a: string, b: string)
    ensures !Tears(a, b) ==> Normalise(a + b) == Normalise(a) + Normalise(b)
    ensures Tears(a, b) ==> |Normalise(a + b)| + 1 == |Normalise(a)| + |Normalise(b)|
    decreases |a|
  {
    if a == "" {
      assert a + b == b;
    } else if |a| == 1 {
      NormaliseOne(a, b);
    } else {
      var n := if a[0] == '\r' && a[1] == '\n' then 2 else 1;
      var head := if n == 2 then "\n" else [a[0]];
      assert (a + b)[0] == a[0] && (a + b)[1] == a[1] && (a + b)[n..] == a[n..] + b;
      assert Normalise(a) == head + Normalise(a[n..]);
      assert Normalise(a + b) == head + Normalise(a[n..] + b);
      NormalisePieces(a[n..], b);
      assert Tears(a[n..], b) == Tears(a, b);
      Reassociate(head, Normalise(a[n..]), Normalise(b));
    }
  }

  lemma NormaliseOne(a: string, b: string)
    requires |a| == 1
    ensures !Tears(a, b) ==> Normalise(a + b) == Normalise(a) + Normalise(b)
    ensures Tears(a, b) ==> |Normalise(a + b)| + 1 == |Normalise(a)| + |Normalise(b)|
  {
    assert (a + b)[1..] == b;
    if Tears(a, b) {
      assert (a + b)[2..] == b[1..];
      NormaliseLineFeed(b);
    } else if b == "" {
      assert a + b == a;
    } else {
      assert (a + b)[1] == b[0];
    }
  }

  lemma NormaliseLineFeed(b: string)
    requires b != "" && b[0] == '\n'
    ensures Normalise(b) == "\n" + Normalise(b[1..])
  {
    if |b| == 1 { assert b == "\n"; }
  }

  lemma {:induction false} NormaliseEachLength(chunks: seq<string>)
    ensures |NormaliseEach(chunks)| >= |Normalise(Concat(chunks))|
    ensures TearsCrLf(chunks) ==> |NormaliseEach(chunks)| > |Normalise(Concat(chunks))|
    ensures !TearsCrLf(chunks) ==> NormaliseEach(chunks) == Normalise(Concat(chunks))
  {
    if chunks != [] {
      NormaliseEachLength(chunks[1..]);
      NormalisePieces(chunks[0], Concat(chunks[1..]));
    }
  }

  /** Normalising chunk by chunk is normalising the whole text exactly when no
      boundary tears a CR from its LF. */
  lemma NormaliseChunkwise(chunks: seq<string>)
    ensures NormaliseEach(chunks) == Normalise(Concat(chunks)) <==> !TearsCrLf(chunks)
  {
    NormaliseEachLength(chunks);
  }

  // ----- frames to events -----

  /** The web UI and the VS Code extension read a frame's data lines differently. */
  datatype Client = Web | VsCode

  predicate StartsWith(line: string, prefix: string) {
    prefix <= line
  }

  /** The data field of one line, when it has one. */
  function DataLine(client: Client, line: string): Option<string> {
    match client
    case Web => if StartsWith(line, "data: ") then Some(line[6..]) else None
    case VsCode => if StartsWith(line, "data:") then Some(Text.Trim(Text.JsSpace, line[5..])) else None
  }

  function DataLines(client: Client, lines: seq<string>): seq<string> {
    if lines == [] then [] else
      match DataLine(client, lines[0])
      case Some(d) => [d] + DataLines(client, lines[1..])
      case None => DataLines(client, lines[1..])
  }

  function FrameData(client: Client, frame: string): string {
    Text.JoinLines(DataLines(client, Text.Lines(frame)))
  }

  /** The events of a run of frames, up to the first that does not parse. */
  datatype Decoded = Decoded(events: seq<RuntimeEvent>, ok: bool)

  /** A frame without data yields nothing; None from decode is a parse error. */
  function Decode(client: Client, decode: string -> Option<RuntimeEvent>, frames: seq<string>): Decoded {
    if frames == [] then Decoded([], true) else
      var data := FrameData(client, frames[0]);
      if data == "" then Decode(client, decode, frames[1..]) else
        match decode(data)
        case None => Decoded([], false)
        case Some(e) =>
          var rest := Decode(client, decode, frames[1..]);
          Decoded([e] + rest.events, rest.ok)
  }

  lemma {:induction false} DecodeConcat(client: Client, decode: string -> Option<RuntimeEvent>,
                                        xs: seq<string>, ys: seq<string>)
    ensures var x := Decode(client, decode, xs); var y := Decode(client, decode, ys);
            Decode(client, decode, xs + ys) == if x.ok then Decoded(x.events + y.events, y.ok) else x
  {
    if xs == [] {
      assert xs + ys == ys;
      assert [] + Decode(client, decode, ys).events == Decode(client, decode, ys).events;
    } else {
      assert (xs + ys)[1..] == xs[1..] + ys && (xs + ys)[0] == xs[0];
      DecodeConcat(client, decode, xs[1..], ys);
      var data := FrameData(client, xs[0]);
      if data != "" && decode(data).Some? {
        Reassociate([decode(data).value], Decode(client, decode, xs[1..]).events, Decode(client, decode, ys).events);
      }
    }
  }

  /** The batch meaning of a stream: frame the whole text, decode the frames,
      keep the strict maxima above the cursor. */
  datatype Delivery = Delivery(events: seq<RuntimeEvent>, cursor: int, ok: bool)

  function Deliver(client: Client, decode: string -> Option<RuntimeEvent>, text: string, after: int): Delivery {
    var d := Decode(client, decode, SplitFrames(text).frames);
    Delivery(Maxima(d.events, after), Highest(d.events, after), d.ok)
  }

  lemma DeliverFrame(client: Client, decode: string -> Option<RuntimeEvent>, frames: seq<string>, frame: string,
                     after: int)
    requires Decode(client, decode, frames).ok
    ensures var d := Decode(client, decode, frames); var more := Decode(client, decode, frames + [frame]);
            var data := FrameData(client, frame);
            && (data == "" ==> more == d)
            && (data != "" && decode(data).None? ==> more == Decoded(d.events, false))
            && (data != "" && decode(data).Some? ==>
                  var e := decode(data).value;
                  && more == Decoded(d.events + [e], true)
                  && Maxima(more.events, after) ==
                       (if e.number > Highest(d.events, after)
                        then Maxima(d.events, after) + [e] else Maxima(d.events, after))
                  && Highest(more.events, after) == Max(Highest(d.events, after), e.number))
  {
    DecodeConcat(client, decode, frames, [frame]);
    var d, data := Decode(client, decode, frames), FrameData(client, frame);
    assert [frame][1..] == [];
    if data == "" || decode(data).None? {
      assert d.events + [] == d.events;
    } else {
      var e := decode(data).value;
      assert [e] + [] == [e] && [e][1..] == [];
      MaximaConcat(d.events, [e], after);
    }
  }

  // ----- the loops -----

  /** What a client holds after handling some frames, none of which failed. */
  ghost predicate Handled(client: Client, decode: string -> Option<RuntimeEvent>, after: int, frames: seq<string>,
                          delivered: seq<RuntimeEvent>, cursor: int) {
    var d := Decode(client, decode, frames);
    d.ok && delivered == Maxima(d.events, after) && cursor == Highest(d.events, after)
  }

  lemma HandleFrame(client: Client, decode: string -> Option<RuntimeEvent>, after: int, frames: seq<string>,
                    delivered: seq<RuntimeEvent>, cursor: int, frame: string)
    requires Handled(client, decode, after, frames, delivered, cursor)
    ensures var data := FrameData(client, frame);
            if data == "" then Handled(client, decode, after, frames + [frame], delivered, cursor)
            else match decode(data)
              case None =>
                Decode(client, decode, frames + [frame]) == Decoded(Decode(client, decode, frames).events, false)
              case Some(e) =>
                Handled(client, decode, after, frames + [frame],
                        if e.number > cursor then delivered + [e] else delivered, Max(cursor, e.number))
  {
    DeliverFrame(client, decode, frames, frame, after);
  }

  /** A failure among the first frames settles the whole stream. */
  lemma FailureIsFinal(client: Client, decode: string -> Option<RuntimeEvent>, frames: seq<string>, whole: seq<string>)
    requires frames <= whole && !Decode(client, decode, frames).ok
    ensures Decode(client, decode, whole) == Decode(client, decode, frames)
  {
    assert whole == frames + whole[|frames|..];
    DecodeConcat(client, decode, frames, whole[|frames|..]);
  }

  /** The frames of a text seen so far, and those still inside the buffer. */
  ghost predicate Buffered(text: string, seen: seq<string>, buffer: string) {
    var b := SplitFrames(buffer);
    SplitFrames(text) == Split(seen + b.frames, b.rest)
  }

  lemma BufferMore(text: string, seen: seq<string>, buffer: string, piece: string)
    requires SplitFrames(text) == Split(seen, buffer)
    ensures Buffered(text + piece, seen, buffer + piece)
  {
    SplitIncremental(text, piece);
  }

  lemma BufferTake(text: string, seen: seq<string>, buffer: string)
    requires Buffered(text, seen, buffer) && BlankLine(buffer) >= 0
    ensures var b := BlankLine(buffer);
            Buffered(text, seen + [buffer[..b]], buffer[b + 2..]) && seen + [buffer[..b]] <= SplitFrames(text).frames
  {
    var b := BlankLine(buffer);
    SplitStep(buffer);
    Reassociate(seen, [buffer[..b]], SplitFrames(buffer[b + 2..]).frames);
  }

  lemma BufferEmpty(text: string, seen: seq<string>, buffer: string)
    requires Buffered(text, seen, buffer) && BlankLine(buffer) < 0
    ensures SplitFrames(text) == Split(seen, buffer)
  {
    assert SplitFrames(buffer) == Split([], buffer);
    assert seen + [] == seen;
  }

  /** The text still to come after the first c chunks. */
  lemma NextChunk(chunks: seq<string>, c: nat, text: string)
    requires c < |chunks|
    ensures text + Concat(chunks[c..]) == (text + chunks[c]) + Concat(chunks[c + 1..])
    ensures text + NormaliseEach(chunks[c..]) == (text + Normalise(chunks[c])) + NormaliseEach(chunks[c + 1..])
  {
    assert chunks[c..][1..] == chunks[c + 1..];
    Reassociate(text, chunks[c], Concat(chunks[c + 1..]));
    Reassociate(text, Normalise(chunks[c]), NormaliseEach(chunks[c + 1..]));
  }

  /** `streamEvents`: the returned cursor, or ok == false when a frame's data did
      not parse; delivered lists the events handed to `onEvent`. */
  method StreamEvents(decode: string -> Option<RuntimeEvent>, chunks: seq<string>, afterSeq: int)
    returns (delivered: seq<RuntimeEvent>, cursor: int, ok: bool)
    ensures Delivery(delivered, cursor, ok) == Deliver(Web, decode, NormaliseEach(chunks), afterSeq)
  {
    var buffer := "";
    delivered, cursor, ok := [], afterSeq, true;
    ghost var seen: seq<string>, text := [], "";
    ghost var all := NormaliseEach(chunks);
    assert chunks[0..] == chunks && text + all == all;
    for c := 0 to |chunks|
      invariant text + NormaliseEach(chunks[c..]) == all
      invariant SplitFrames(text) == Split(seen, buffer)
      invariant ok && Handled(Web, decode, afterSeq, seen, delivered, cursor)
    {
      NextChunk(chunks, c, text);
      BufferMore(text, seen, buffer, Normalise(chunks[c]));
      text := text + Normalise(chunks[c]);
      CutKeepsPrefix(text, NormaliseEach(chunks[c + 1..]));
      buffer := buffer + Normalise(chunks[c]);
      var boundary := BlankLine(buffer);
      while boundary >= 0
        invariant boundary == BlankLine(buffer)
        invariant Buffered(text, seen, buffer)
        invariant ok && Handled(Web, decode, afterSeq, seen, delivered, cursor)
        decreases |buffer|
      {
        var block := buffer[..boundary];
        BufferTake(text, seen, buffer);
        HandleFrame(Web, decode, afterSeq, seen, delivered, cursor, block);
        buffer := buffer[boundary + 2..];
        seen := seen + [block];
        var data := FrameData(Web, block);
        if data != "" {
          match decode(data) {
            case None =>
              ok := false;
              FailureIsFinal(Web, decode, seen, SplitFrames(all).frames);
              return;
            case Some(event) =>
              if event.number > cursor {
                cursor := event.number;
                delivered := delivered + [event];
              }
          }
        }
        boundary := BlankLine(buffer);
      }
      BufferEmpty(text, seen, buffer);
    }
    assert chunks[|chunks|..] == [] && text + "" == text;
  }

  /** The extension's stream state: `eventCursor` outlives every connection. */
  class VsCodeStream {
    var eventCursor: int
    var handled: seq<RuntimeEvent>

    constructor ()
      ensures eventCursor == 0 && handled == []
    {
      eventCursor, handled := 0, [];
    }

    /** `handleEvent`: drops what the cursor has already passed. */
    method HandleEvent(event: RuntimeEvent)
      modifies this
      ensures handled == if event.number > old(eventCursor) then old(handled) + [event] else old(handled)
      ensures eventCursor == Max(old(eventCursor), event.number)
    {
      if event.number <= eventCursor {
        return;
      }
      eventCursor := event.number;
      handled := handled + [event];
    }

    /** One connection of `startEventStream`: no normalisation of line ends. */
    method Consume(decode: string -> Option<RuntimeEvent>, chunks: seq<string>) returns (ok: bool)
      modifies this
      ensures var d := Deliver(VsCode, decode, Concat(chunks), old(eventCursor));
              handled == old(handled) + d.events && eventCursor == d.cursor && ok == d.ok
    {
      var buffer := "";
      ok := true;
      ghost var seen: seq<string>, text := [], "";
      ghost var all, after, delivered := Concat(chunks), eventCursor, [];
      assert chunks[0..] == chunks && text + all == all;
      for c := 0 to |chunks|
        invariant text + Concat(chunks[c..]) == all
        invariant SplitFrames(text) == Split(seen, buffer)
        invariant ok && Handled(VsCode, decode, after, seen, delivered, eventCursor)
        invariant handled == old(handled) + delivered
      {
        NextChunk(chunks, c, text);
        BufferMore(text, seen, buffer, chunks[c]);
        text := text + chunks[c];
        CutKeepsPrefix(text, Concat(chunks[c + 1..]));
        buffer := buffer + chunks[c];
        var boundary := BlankLine(buffer);
        while boundary >= 0
          invariant boundary == BlankLine(buffer)
          invariant Buffered(text, seen, buffer)
          invariant ok && Handled(VsCode, decode, after, seen, delivered, eventCursor)
          invariant handled == old(handled) + delivered
          decreases |buffer|
        {
          var frame := buffer[..boundary];
          BufferTake(text, seen, buffer);
          HandleFrame(VsCode, decode, after, seen, delivered, eventCursor, frame);
          buffer := buffer[boundary + 2..];
          seen := seen + [frame];
          var data := FrameData(VsCode, frame);
          if data != "" {
            match decode(data) {
              case None =>
                ok := false;
                FailureIsFinal(VsCode, decode, seen, SplitFrames(all).frames);
                return;
              case Some(event) =>
                Reassociate(old(handled), delivered, [event]);
                delivered := if event.number > eventCursor then delivered + [event] else delivered;
                HandleEvent(event);
            }
          }
          boundary := BlankLine(buffer);
        }
        BufferEmpty(text, seen, buffer);
      }
      assert chunks[|chunks|..] == [] && text + "" == text;
    }
  }

  // ----- chunk independence -----

  /** The text a client frames: the web UI normalises each chunk first. */
  function TextOf(client: Client, chunks: seq<string>): string {
    if client == Web then NormaliseEach(chunks) else Concat(chunks)
  }

  /** What a client delivers for a chunking, by the postcondition of its loop. */
  function Streamed(client: Client, decode: string -> Option<RuntimeEvent>, chunks: seq<string>, after: int): Delivery {
    Deliver(client, decode, TextOf(client, chunks), after)
  }

  /** A chunking that tears no CR from its LF delivers what the whole text,
      normalised and framed in one go, delivers. */
  lemma ChunkIndependence(decode: string -> Option<RuntimeEvent>, chunks: seq<string>, after: int)
    requires !TearsCrLf(chunks)
    ensures Streamed(Web, decode, chunks, after) == Deliver(Web, decode, Normalise(Concat(chunks)), after)
  {
    NormaliseChunkwise(chunks);
  }

  /** So any two such chunkings of one text agree on events, cursor and failure. */
  lemma ChunkingsAgree(decode: string -> Option<RuntimeEvent>, a: seq<string>, b: seq<string>, after: int)
    requires Concat(a) == Concat(b) && !TearsCrLf(a) && !TearsCrLf(b)
    ensures Streamed(Web, decode, a, after) == Streamed(Web, decode, b, after)
  {
    ChunkIndependence(decode, a, after);
    ChunkIndependence(decode, b, after);
  }

  predicate Plain(json: string) {
    json != "" && Text.Without('\n', json) && Text.Without('\r', json)
  }

  /** A one-line frame delivers its event. */
  lemma OneFrame(decode: string -> Option<RuntimeEvent>, json: string, after: int)
    requires Plain(json) && decode(json).Some? && decode(json).value.number > after
    ensures Deliver(Web, decode, "data: " + json + "\n\n", after)
              == Delivery([decode(json).value], decode(json).value.number, true)
  {
    var line, e := "data: " + json, decode(json).value;
    var whole := line + "\n\n";
    NoBlankBefore(line, "\n\n");
    assert whole[..|line|] == line && whole[|line| + 2..] == "";
    assert SplitFrames(whole) == Split([line], "");
    assert FrameData(Web, line) == json by {
      Text.OneLine(line);
      assert line[6..] == json;
      assert DataLines(Web, [line]) == [json];
    }
    assert Decode(Web, decode, [line]) == Decoded([e], true) by {
      assert [line][1..] == [];
    }
    MaximaOfAscending([e], after);
  }

  /** A frame whose closing LF has not arrived delivers nothing. */
  lemma TornFrame(decode: string -> Option<RuntimeEvent>, json: string, after: int)
    requires Plain(json)
    ensures Deliver(Web, decode, "data: " + json + "\n\r\n", after) == Delivery([], after, true)
  {
    var torn := "data: " + json + "\n\r\n";
    NoBlankBefore("data: " + json, "\n\r\n");
    assert BlankLine("\n\r\n") == -1 by {
      assert "\n\r\n"[1..] == "\r\n" && "\r\n"[1..] == "\n";
    }
    assert SplitFrames(torn) == Split([], torn);
  }

  /** The proviso is needed: a blank line torn inside its second CR LF is never
      seen, and whatever event the frame carried is lost. */
  lemma TornBlankLine(decode: string -> Option<RuntimeEvent>, json: string, after: int)
    requires Plain(json) && decode(json).Some? && decode(json).value.number > after
    ensures var chunks := ["data: " + json + "\r\n\r", "\n"];
            && Streamed(Web, decode, chunks, after) == Delivery([], after, true)
            && Deliver(Web, decode, Normalise(Concat(chunks)), after)
                 == Delivery([decode(json).value], decode(json).value.number, true)
  {
    var line := "data: " + json;
    var chunks := [line + "\r\n\r", "\n"];
    assert chunks[1..] == ["\n"] && chunks[1..][1..] == [];
    assert NormaliseEach(chunks) == line + "\n\r\n" by {
      NormaliseTail(line, "\r\n\r");
      assert "\r\n\r"[2..] == "\r";
      assert NormaliseEach(["\n"]) == "\n";
    }
    assert Normalise(Concat(chunks)) == line + "\n\n" by {
      NormaliseTail(line, "\r\n\r\n");
      assert "\r\n\r\n"[2..] == "\r\n" && "\r\n"[2..] == "";
      assert Concat(["\n"]) == "\n";
      assert Concat(chunks) == line + "\r\n\r\n";
    }
    TornFrame(decode, json, after);
    OneFrame(decode, json, after);
  }

  lemma {:induction false} NormaliseTail(line: string, tail: string)
    requires Text.Without('\r', line)
    ensures Normalise(line + tail) == line + Normalise(tail)
  {
    if line == "" {
      assert line + tail == tail;
    } else {
      var text := line + tail;
      NormaliseTail(line[1..], tail);
      assert text[1..] == line[1..] + tail && text[0] == line[0];
      if |text| == 1 {
        assert tail == "" && line[1..] == "";
      } else {
        assert Normalise(text) == [line[0]] + Normalise(line[1..] + tail);
        Reassociate([line[0]], line[1..], Normalise(tail));
      }
      assert line == [line[0]] + line[1..];
    }
  }

  lemma {:induction false} NoBlankBefore(line: string, tail: string)
    requires Text.Without('\n', line)
    ensures BlankLine(line + tail) == if BlankLine(tail) < 0 then -1 else |line| + BlankLine(tail)
  {
    if line == "" {
      assert line + tail == tail;
    } else {
      assert (line + tail)[1..] == line[1..] + tail && (line + tail)[0] == line[0];
      NoBlankBefore(line[1..], tail);
    }
  }

  // ----- what is read out of a frame -----

  /** A blank line at offset i. */
  predicate BlankAt(text: string, i: int) {
    0 <= i <= |text| - 2 && text[i] == '\n' && text[i + 1] == '\n'
  }

  /** The offset is that of the first blank line, or -1 when there is none. */
  lemma {:induction false} BlankLineMeaning(text: string)
    ensures BlankLine(text) == -1 ==> forall i :: !BlankAt(text, i)
    ensures BlankLine(text) != -1 ==> BlankAt(text, BlankLine(text))
    ensures BlankLine(text) != -1 ==> forall i :: BlankAt(text, i) ==> BlankLine(text) <= i
  {
    if |text| >= 2 {
      var rest := text[1..];
      BlankLineMeaning(rest);
      forall i | BlankAt(text, i) ensures i == 0 || BlankAt(rest, i - 1) {}
      forall i | BlankAt(rest, i) ensures BlankAt(text, i + 1) {}
    }
  }

  lemma {:induction false} DataLinesConcat(client: Client, a: seq<string>, b: seq<string>)
    ensures DataLines(client, a + b) == DataLines(client, a) + DataLines(client, b)
  {
    if a == [] {
      assert a + b == b;
    } else {
      assert (a + b)[1..] == a[1..] + b;
      DataLinesConcat(client, a[1..], b);
    }
  }

  lemma DataLinesOne(client: Client, line: string)
    ensures DataLines(client, [line]) == match DataLine(client, line) case Some(d) => [d] case None => []
  {
    assert [line][1..] == [];
  }

  /** Lines that are not data are passed over. */
  predicate NoData(client: Client, lines: seq<string>) {
    forall l :: l in lines ==> if client == Web then !("data: " <= l) else !("data:" <= l)
  }

  lemma {:induction false} NoDataLines(client: Client, lines: seq<string>)
    requires NoData(client, lines)
    ensures DataLines(client, lines) == []
  {
    if lines != [] {
      assert lines[0] in lines;
      forall l | l in lines[1..] ensures l in lines {}
      NoDataLines(client, lines[1..]);
    }
  }

  /** The payload of a data line: what follows the prefix, which the extension trims. */
  predicate PayloadOf(client: Client, line: string, payload: string) {
    match client
    case Web => line == "data: " + payload
    case VsCode => "data:" <= line && payload == Text.Trim(Text.JsSpace, line[5..])
  }

  lemma DataAround(client: Client, pre: seq<string>, line: string, post: seq<string>, payload: string)
    requires NoData(client, pre) && PayloadOf(client, line, payload)
    ensures DataLines(client, pre + [line] + post) == [payload] + DataLines(client, post)
  {
    DataLinesConcat(client, pre + [line], post);
    DataLinesConcat(client, pre, [line]);
    NoDataLines(client, pre);
    PayloadRead(client, line, payload);
  }

  /** A frame's data: the payloads of its data lines in order, a line feed between
      them; here two of them with other lines around, one, and none. */
  lemma FrameDataMeaning(client: Client, pre: seq<string>, a: string, mid: seq<string>, b: string, post: seq<string>,
                         x: string, y: string)
    requires forall l :: l in pre + [a] + (mid + [b] + post) ==> Text.Without('\n', l)
    requires NoData(client, pre) && NoData(client, mid) && NoData(client, post)
    requires PayloadOf(client, a, x) && PayloadOf(client, b, y)
    ensures FrameData(client, Text.JoinLines(pre + [a] + (mid + [b] + post))) == x + "\n" + y
    ensures FrameData(client, Text.JoinLines(pre + [a] + mid)) == x
    ensures pre != [] ==> FrameData(client, Text.JoinLines(pre)) == ""
  {
    var two, one := pre + [a] + (mid + [b] + post), pre + [a] + mid;
    forall l | l in one || l in pre ensures l in two {}
    Text.LinesOfJoined(two);
    Text.LinesOfJoined(one);
    if pre != [] { Text.LinesOfJoined(pre); }
    DataAround(client, pre, a, mid + [b] + post, x);
    DataAround(client, mid, b, post, y);
    DataAround(client, pre, a, mid, x);
    NoDataLines(client, pre);
    NoDataLines(client, mid);
    NoDataLines(client, post);
    JoinTwo(x, y);
  }

  lemma JoinTwo(x: string, y: string)
    ensures Text.JoinLines([x] + ([y] + [])) == x + "\n" + y && Text.JoinLines([x] + []) == x
  {
    assert ([x] + ([y] + []))[1..] == [y];
  }

  lemma PayloadRead(client: Client, line: string, payload: string)
    requires PayloadOf(client, line, payload)
    ensures DataLines(client, [line]) == [payload]
  {
    DataLinesOne(client, line);
    if client == Web { assert line[6..] == payload && "data: " <= line; }
  }

  /** The first frame whose data does not parse ends the stream: what was delivered is
      what the frames before it deliver, whatever follows. */
  lemma BrokenFrame(client: Client, decode: string -> Option<RuntimeEvent>,
                    before: seq<string>, frame: string, rest: seq<string>)
    requires Decode(client, decode, before).ok
    requires FrameData(client, frame) != "" && decode(FrameData(client, frame)) == None
    ensures Decode(client, decode, before + [frame] + rest) == Decoded(Decode(client, decode, before).events, false)
  {
    assert ([frame] + rest)[0] == frame;
    assert before + [frame] + rest == before + ([frame] + rest);
    DecodeConcat(client, decode, before, [frame] + rest);
    assert Decode(client, decode, before).events + [] == Decode(client, decode, before).events;
  }

  /** Until then every frame with data yields the event it parses to, in order. */
  lemma {:induction false} DecodedEvents(client: Client, decode: string -> Option<RuntimeEvent>, frames: seq<string>)
    requires forall f :: f in frames ==> FrameData(client, f) != "" && decode(FrameData(client, f)).Some?
    ensures var d := Decode(client, decode, frames);
            && d.ok && |d.events| == |frames|
            && forall i :: 0 <= i < |frames| ==> decode(FrameData(client, frames[i])) == Some(d.events[i])
  {
    if frames != [] {
      assert frames[0] in frames;
      DecodedEvents(client, decode, frames[1..]);
    }
  }
}
