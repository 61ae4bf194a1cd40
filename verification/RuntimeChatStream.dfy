/** The incremental reader of the chat stream: event parsing and the read loop. */
module RuntimeChatStream {
  import opened Text

  /** What `JSON.parse` may give for one event; `Null` is a value whose `type` cannot be read. */
  datatype StreamEvent =
    | Delta(content: string)
    | Done(modelId: Option<string>, modelName: Option<string>, reason: Option<string>)
    | Error(message: string)
    | OtherType
    | Null

  /** JSON text to event; `None` where `JSON.parse` throws. */
  type JsonParser = string -> Option<StreamEvent>

  const EVENT_END := "\n\n"
  const DATA := "data:"

  /** The trimmed payloads of the lines that start with `data:`. */
  function DataLines(lines: seq<string>): seq<string> {
    if lines == [] then []
    else
      var line := Trim(lines[0]);
      (if DATA <= line then [Trim(line[5..])] else []) + DataLines(lines[1..])
  }

  function EventOf(part: string, parse: JsonParser): seq<StreamEvent> {
    var data := DataLines(Split(part, "\n"));
    if data == [] then []
    else
      match parse(Join(data, "\n"))
      case None => []
      case Some(event) => [event]
  }

  function EventsOf(parts: seq<string>, parse: JsonParser): seq<StreamEvent> {
    if parts == [] then [] else EventsOf(Front(parts), parse) + EventOf(Last(parts), parse)
  }

  datatype Parsed = Parsed(events: seq<StreamEvent>, remainder: string)

  function Joined(a: Parsed, b: Parsed): Parsed {
    Parsed(a.events + b.events, b.remainder)
  }

  /** What one buffer holds: the events of its complete parts, and the unfinished part. */
  function Parse(buffer: string, parse: JsonParser): Parsed {
    var parts := Split(buffer, EVENT_END);
    Parsed(EventsOf(Front(parts), parse), Last(parts))
  }

  method ParseSseEvents(buffer: string, parse: JsonParser) returns (parsed: Parsed)
    ensures parsed == Parse(buffer, parse)
  {
    var parts := Split(buffer, EVENT_END);
    var remainder := Last(parts);
    parts := Front(parts);
    var events: seq<StreamEvent> := [];
    for k := 0 to |parts|
      invariant events == EventsOf(parts[..k], parse)
    {
      assert Front(parts[..k + 1]) == parts[..k];
      var dataLines := DataLines(Split(parts[k], "\n"));
      if |dataLines| == 0 {
        continue;
      }
      var event := parse(Join(dataLines, "\n"));
      if event.Some? {
        events := events + [event.value];
      }
    }
    assert parts[..|parts|] == parts;
    parsed := Parsed(events, remainder);
  }

  lemma EventsOfOneMore(parts: seq<string>, part: string, parse: JsonParser)
    ensures EventsOf(parts + [part], parse) == EventsOf(parts, parse) + EventOf(part, parse)
  {
    hide EventOf;
    assert Front(parts + [part]) == parts;
  }

  lemma {:induction false} EventsOfConcat(a: seq<string>, b: seq<string>, parse: JsonParser)
    ensures EventsOf(a + b, parse) == EventsOf(a, parse) + EventsOf(b, parse)
    decreases |b|
  {
    if b == [] {
      assert a + b == a;
    } else {
      hide EventsOf, EventOf;
      var front, last := Front(b), Last(b);
      EventsOfConcat(a, front, parse);
      FrontLast(b);
      Assoc(a, front, [last]);
      hide Front, Last;
      EventsOfOneMore(front, last, parse);
      EventsOfOneMore(a + front, last, parse);
      Assoc(EventsOf(a, parse), EventsOf(front, parse), EventOf(last, parse));
    }
  }

  /** One read: parsing the carried remainder with the new text goes on where parsing stopped. */
  lemma ParseContinues(received: string, chunk: string, parse: JsonParser)
    ensures Parse(received + chunk, parse)
         == Joined(Parse(received, parse), Parse(Parse(received, parse).remainder + chunk, parse))
  {
    SplitContinues(received, chunk, EVENT_END);
    var head := Front(Split(received, EVENT_END));
    var tail := Split(Last(Split(received, EVENT_END)) + chunk, EVENT_END);
    assert Front(head + tail) == head + Front(tail);
    EventsOfConcat(head, Front(tail), parse);
  }

  /** Feeding the chunks one by one, carrying the remainder. */
  function Feed(chunks: seq<string>, buffer: string, parse: JsonParser): Parsed {
    if chunks == [] then Parsed([], buffer)
    else
      var first := Parse(buffer + chunks[0], parse);
      Joined(first, Feed(chunks[1..], first.remainder, parse))
  }

  lemma {:induction false} FeedContinues(
    received: string, chunks: seq<string>, parse: JsonParser, before: Parsed, whole: string)
    requires before == Parse(received, parse)
    requires whole == received + Concat(chunks)
    ensures Parse(whole, parse) == Joined(before, Feed(chunks, before.remainder, parse))
    decreases |chunks|
  {
    if chunks == [] {
      assert whole == received;
      assert before.events + [] == before.events;
    } else {
      var received' := received + chunks[0];
      assert whole == received' + Concat(chunks[1..]);
      ParseContinues(received, chunks[0], parse);
      var now := Parse(before.remainder + chunks[0], parse);
      FeedContinues(received', chunks[1..], parse, Joined(before, now), whole);
      JoinedThrice(before, now, Feed(chunks[1..], now.remainder, parse));
    }
  }

  lemma JoinedThrice(a: Parsed, b: Parsed, c: Parsed)
    ensures Joined(Joined(a, b), c) == Joined(a, Joined(b, c))
  {
    assert (a.events + b.events) + c.events == a.events + (b.events + c.events);
  }

  /** Events and final remainder do not depend on where the stream was cut into chunks. */
  lemma ChunkingIndependence(chunks: seq<string>, parse: JsonParser)
    ensures Feed(chunks, "", parse) == Parse(Concat(chunks), parse)
  {
    SplitNone("", EVENT_END);
    FeedContinues("", chunks, parse, Parsed([], ""), Concat(chunks));
    assert "" + Concat(chunks) == Concat(chunks);
  }

  // The read loop

  datatype Progress =
    | Reading
    | Finished(modelId: Option<string>, modelName: Option<string>, reason: string)
    | ProviderError(message: string)
    | TypeError

  datatype ChunkCall = ChunkCall(delta: string, totalLength: nat)

  /** What the loop has accumulated: the text, the `onChunk` calls, and whether it goes on. */
  datatype Accumulated = Accumulated(content: string, calls: seq<ChunkCall>, progress: Progress)

  const NOTHING_YET := Accumulated("", [], Reading)

  function ConsumeOne(acc: Accumulated, event: StreamEvent): Accumulated {
    if !acc.progress.Reading? then acc
    else match event
      case Delta(content) =>
        var full := acc.content + content;
        acc.(content := full, calls := acc.calls + [ChunkCall(content, |full|)])
      case Done(modelId, modelName, reason) =>
        acc.(progress := Finished(modelId, modelName, if reason.Some? then reason.value else "stop"))
      case Error(message) => acc.(progress := ProviderError(message))
      case Null => acc.(progress := TypeError)
      case OtherType => acc
  }

  function Consume(acc: Accumulated, events: seq<StreamEvent>): Accumulated {
    if events == [] then acc else ConsumeOne(Consume(acc, Front(events)), Last(events))
  }

  datatype Response =
    | Message(content: string, modelId: Option<string>, modelName: Option<string>, finishReason: string)
    | Incomplete
    | Failed(message: string)
    | Crashed

  function ResponseOf(acc: Accumulated): Response {
    match acc.progress
    case Finished(modelId, modelName, reason) => Message(acc.content, modelId, modelName, reason)
    case ProviderError(message) => Failed(message)
    case TypeError => Crashed
    case Reading => if acc.content == "" then Incomplete else Message(acc.content, None, None, "eof")
  }

  lemma {:induction false} ConsumeConcat(acc: Accumulated, a: seq<StreamEvent>, b: seq<StreamEvent>)
    ensures Consume(acc, a + b) == Consume(Consume(acc, a), b)
    ensures !acc.progress.Reading? ==> Consume(acc, b) == acc
    decreases |b|
  {
    if b == [] {
      assert a + b == a;
    } else {
      ConsumeConcat(acc, a, Front(b));
      assert Front(a + b) == a + Front(b);
    }
  }

  /** The inner loop over the events of one read; it stops at the first final event. */
  method ConsumeEvents(start: Accumulated, events: seq<StreamEvent>) returns (acc: Accumulated)
    ensures acc == Consume(start, events)
  {
    acc := start;
    for k := 0 to |events|
      invariant acc == Consume(start, events[..k])
    {
      if !acc.progress.Reading? {
        ConsumeConcat(start, events[..k], events[k..]);
        ConsumeConcat(acc, [], events[k..]);
        assert events[..k] + events[k..] == events;
        return;
      }
      assert Front(events[..k + 1]) == events[..k];
      acc := ConsumeOne(acc, events[k]);
    }
    assert events[..|events|] == events;
  }

  /** The accumulated state once this much text has been read. */
  function After(received: string, parse: JsonParser): Accumulated {
    Consume(NOTHING_YET, Parse(received, parse).events)
  }

  lemma AfterContinues(received: string, chunk: string, received': string, buffer: string, parse: JsonParser)
    requires received' == received + chunk
    requires buffer == Parse(received, parse).remainder + chunk
    ensures Parse(received', parse).remainder == Parse(buffer, parse).remainder
    ensures After(received', parse) == Consume(After(received, parse), Parse(buffer, parse).events)
    ensures !After(received, parse).progress.Reading? ==> After(received', parse) == After(received, parse)
  {
    ParseContinues(received, chunk, parse);
    var more := Parse(buffer, parse).events;
    ConsumeConcat(NOTHING_YET, Parse(received, parse).events, more);
    ConsumeConcat(After(received, parse), [], more);
  }

  lemma ConcatStep(chunks: seq<string>, k: nat)
    requires k < |chunks|
    ensures Concat(chunks[k..]) == chunks[k] + Concat(chunks[k + 1..])
  {
    assert chunks[k..][1..] == chunks[k + 1..];
  }

  /** The loop over network reads. It may stop early; what it returns and what it reported is
      a function of the whole text alone, so it is the same for every way of cutting the text. */
  method StreamChat(chunks: seq<string>, parse: JsonParser) returns (response: Response, calls: seq<ChunkCall>)
    ensures var acc := After(Concat(chunks), parse);
      response == ResponseOf(acc) && calls == acc.calls
  {
    var buffer := "";
    var acc := NOTHING_YET;
    ghost var received, whole := "", Concat(chunks);
    SplitNone("", EVENT_END);
    for next := 0 to |chunks|
      invariant received + Concat(chunks[next..]) == whole
      invariant buffer == Parse(received, parse).remainder
      invariant acc == After(received, parse)
    {
      ConcatStep(chunks, next);
      ghost var received' := received + chunks[next];
      assert received' + Concat(chunks[next + 1..]) == whole;
      buffer := buffer + chunks[next];
      AfterContinues(received, chunks[next], received', buffer, parse);
      var parsed := ParseSseEvents(buffer, parse);
      buffer := parsed.remainder;
      acc := ConsumeEvents(acc, parsed.events);
      received := received';
      if !acc.progress.Reading? {
        ghost var unread := Concat(chunks[next + 1..]);
        ghost var all := buffer + unread;
        AfterContinues(received, unread, whole, all, parse);
        return ResponseOf(acc), acc.calls;
      }
    }
    assert received == whole;
    response, calls := ResponseOf(acc), acc.calls;
  }

  /** Each reported length is the length of the text delivered up to that call. */
  predicate Tallied(calls: seq<ChunkCall>) {
    calls == [] || (Tallied(Front(calls)) && Last(calls).totalLength == |Deltas(calls)|)
  }

  /** The returned text is the concatenation of the reported pieces, with matching lengths. */
  lemma {:induction false} CallsAddUp(events: seq<StreamEvent>)
    ensures var acc := Consume(NOTHING_YET, events);
      acc.content == Deltas(acc.calls) && Tallied(acc.calls)
    decreases |events|
  {
    if events != [] {
      CallsAddUp(Front(events));
      var before := Consume(NOTHING_YET, Front(events));
      var event := Last(events);
      if event.Delta? {
        var call := ChunkCall(event.content, |before.content + event.content|);
        assert Front(before.calls + [call]) == before.calls;
      }
    }
  }

  function Deltas(calls: seq<ChunkCall>): string {
    if calls == [] then "" else Deltas(Front(calls)) + Last(calls).delta
  }

  // The server side

  /** How the server writes one payload. */
  function Frame(payload: string): string {
    "data: " + payload + EVENT_END
  }

  function Frames(payloads: seq<string>): string {
    if payloads == [] then "" else Frame(payloads[0]) + Frames(payloads[1..])
  }

  /** JSON text as the server prints it: one line, framed by characters that are not white space. */
  predicate OneLine(payload: string) {
    payload != "" && '\n' !in payload && !IsWhitespace(payload[0]) && !IsWhitespace(payload[|payload| - 1])
  }

  lemma FrameLine(payload: string, parse: JsonParser)
    requires OneLine(payload)
    ensures EventOf("data: " + payload, parse)
         == (match parse(payload) case None => [] case Some(event) => [event])
  {
    var line := "data: " + payload;
    SplitNone(line, "\n");
    TrimFixed(line);
    assert line[5..] == " " + payload;
    assert TrimStart(line[5..]) == TrimStart(payload) by { assert (" " + payload)[1..] == payload; }
    TrimFixed(payload);
    assert DataLines([line]) == [payload] + DataLines([line][1..]);
    assert DataLines([line]) == [payload];
  }

  /** What the server writes is read back, event by event, with nothing left over. */
  lemma {:induction false} ServerRoundTrip(payloads: seq<string>, events: seq<StreamEvent>, parse: JsonParser)
    requires |payloads| == |events|
    requires forall k :: 0 <= k < |payloads| ==> OneLine(payloads[k]) && parse(payloads[k]) == Some(events[k])
    ensures Parse(Frames(payloads), parse) == Parsed(events, "")
    decreases |payloads|
  {
    if payloads == [] {
      SplitNone("", EVENT_END);
    } else {
      ServerRoundTrip(payloads[1..], events[1..], parse);
      FrameFirst(payloads[0], events[0], Frames(payloads[1..]), parse);
      assert events == [events[0]] + events[1..];
    }
  }

  lemma FrameFirst(payload: string, event: StreamEvent, rest: string, parse: JsonParser)
    requires OneLine(payload) && parse(payload) == Some(event)
    ensures Parse(Frame(payload) + rest, parse)
         == Parsed([event] + Parse(rest, parse).events, Parse(rest, parse).remainder)
  {
    hide EventsOf, EventOf, Split, OneLine, Frame;
    var line, parts := "data: " + payload, Split(rest, EVENT_END);
    FrameSplits(payload, rest);
    FrameLine(payload, parse);
    ConsFrontLast(line, parts, []);
    assert Front([line] + parts) == [line] + Front(parts);
    EventsOfConcat([line], Front(parts), parse);
    EventsOfFirst(line, parse);
  }

  lemma EventsOfFirst(part: string, parse: JsonParser)
    ensures EventsOf([part], parse) == EventOf(part, parse)
  {
    assert Front([part]) == [];
  }

  lemma FrameSplits(payload: string, rest: string)
    requires OneLine(payload)
    ensures Split(Frame(payload) + rest, EVENT_END) == ["data: " + payload] + Split(rest, EVENT_END)
  {
    hide Split;
    SplitAfter("data: " + payload, EVENT_END, rest);
  }

  // What the caller gets, by the first final event

  /** The events after which the loop does not go on. */
  predicate Final(event: StreamEvent) {
    event.Done? || event.Error? || event.Null?
  }

  /** The pieces of text among the events, in order. */
  function Pieces(events: seq<StreamEvent>): seq<string> {
    if events == [] then []
    else Pieces(Front(events)) + if Last(events).Delta? then [Last(events).content] else []
  }

  function PiecesOf(calls: seq<ChunkCall>): seq<string> {
    seq(|calls|, k requires 0 <= k < |calls| => calls[k].delta)
  }

  lemma {:induction false} NothingFinalYet(events: seq<StreamEvent>)
    requires forall k :: 0 <= k < |events| ==> !Final(events[k])
    ensures var acc := Consume(NOTHING_YET, events);
      && acc.progress == Reading && PiecesOf(acc.calls) == Pieces(events) && acc.content == Deltas(acc.calls)
    decreases |events|
  {
    CallsAddUp(events);
    if events != [] {
      NothingFinalYet(Front(events));
      var before := Consume(NOTHING_YET, Front(events));
      var event := Last(events);
      if event.Delta? {
        var call := ChunkCall(event.content, |before.content + event.content|);
        assert PiecesOf(before.calls + [call]) == PiecesOf(before.calls) + [event.content];
      }
    }
  }

  /** A stream without a final event gives the text received so far, or is incomplete where there is none. */
  lemma EndWithoutFinal(events: seq<StreamEvent>)
    requires forall k :: 0 <= k < |events| ==> !Final(events[k])
    ensures var acc := Consume(NOTHING_YET, events);
      && PiecesOf(acc.calls) == Pieces(events)
      && ResponseOf(acc)
         == if Deltas(acc.calls) == "" then Incomplete else Message(Deltas(acc.calls), None, None, "eof")
  {
    NothingFinalYet(events);
  }

  /** The response that a final event makes of the text before it. */
  function FinalResponse(event: StreamEvent, text: string): Response {
    match event
    case Done(modelId, modelName, reason) =>
      Message(text, modelId, modelName, if reason == None then "stop" else reason.value)
    case Error(message) => Failed(message)
    case _ => Crashed
  }

  lemma FinalConsumed(before: Accumulated, event: StreamEvent)
    requires before.progress == Reading && Final(event)
    ensures var acc := ConsumeOne(before, event);
      && acc.content == before.content && acc.calls == before.calls && acc.progress != Reading
      && ResponseOf(acc) == FinalResponse(event, before.content)
  {
  }

  lemma AfterFinal(events: seq<StreamEvent>, k: nat)
    requires k < |events| && Consume(NOTHING_YET, events[..k + 1]).progress != Reading
    ensures Consume(NOTHING_YET, events) == Consume(NOTHING_YET, events[..k + 1])
  {
    hide Consume;
    var at := Consume(NOTHING_YET, events[..k + 1]);
    ConsumeConcat(NOTHING_YET, events[..k + 1], events[k + 1..]);
    ConsumeConcat(at, [], events[k + 1..]);
    assert events[..k + 1] + events[k + 1..] == events;
  }

  lemma ConsumeNext(events: seq<StreamEvent>, k: nat)
    requires k < |events|
    ensures Consume(NOTHING_YET, events[..k + 1]) == ConsumeOne(Consume(NOTHING_YET, events[..k]), events[k])
  {
    hide ConsumeOne;
    assert Front(events[..k + 1]) == events[..k];
  }

  /** Otherwise the first final event decides: exactly the pieces before it are reported, a done event gives their
      text with its own model and reason, an error its message, and a value without a type breaks the reader off. */
  lemma FirstFinalDecides(events: seq<StreamEvent>, k: nat)
    requires k < |events| && Final(events[k]) && forall j :: 0 <= j < k ==> !Final(events[j])
    ensures var acc := Consume(NOTHING_YET, events);
      && PiecesOf(acc.calls) == Pieces(events[..k])
      && ResponseOf(acc) == FinalResponse(events[k], Deltas(acc.calls))
  {
    var front := events[..k];
    assert forall j :: 0 <= j < |front| ==> front[j] == events[j];
    NothingFinalYet(front);
    hide Consume, ConsumeOne, ResponseOf, FinalResponse, Pieces, PiecesOf, Deltas, Final;
    ConsumeNext(events, k);
    FinalConsumed(Consume(NOTHING_YET, front), events[k]);
    AfterFinal(events, k);
  }

  // What counts in an event

  lemma {:induction false} DataOfBoth(a: seq<string>, b: seq<string>)
    ensures DataLines(a + b) == DataLines(a) + DataLines(b)
  {
    if a == [] {
      assert a + b == b;
    } else {
      DataOfBoth(a[1..], b);
      assert (a + b)[1..] == a[1..] + b;
      DataHead(a[0], a[1..]);
      DataHead(a[0], a[1..] + b);
      assert a == [a[0]] + a[1..] && a + b == [a[0]] + (a[1..] + b);
      hide DataLines;
      Assoc(DataLines([a[0]]), DataLines(a[1..]), DataLines(b));
    }
  }

  lemma DataHead(line: string, lines: seq<string>)
    ensures DataLines([line] + lines) == DataLines([line]) + DataLines(lines)
  {
    assert ([line] + lines)[1..] == lines && [line][1..] == [];
  }

  /** A line that does not begin with `data:` once trimmed does not count. */
  lemma OtherLinesDoNotCount(a: seq<string>, line: string, b: seq<string>)
    requires !(DATA <= Trim(line))
    ensures DataLines(a + [line] + b) == DataLines(a + b)
  {
    assert DataLines([line]) == [] by { assert [line][1..] == []; }
    DataOfBoth(a + [line], b);
    DataOfBoth(a, [line]);
    DataOfBoth(a, b);
    hide DataLines;
    assert DataLines(a) + [] == DataLines(a);
  }

  function Framed(payloads: seq<string>): (lines: seq<string>)
    ensures |lines| == |payloads|
  {
    seq(|payloads|, k requires 0 <= k < |payloads| => "data: " + payloads[k])
  }

  lemma DataOfOne(payload: string)
    requires OneLine(payload)
    ensures DataLines(["data: " + payload]) == [payload]
  {
    var line := "data: " + payload;
    TrimFixed(line);
    var lines: seq<string> := [line];
    assert line[5..] == " " + payload;
    assert lines[1..] == [];
    assert TrimStart(line[5..]) == TrimStart(payload) by { assert (" " + payload)[1..] == payload; }
    TrimFixed(payload);
  }

  lemma {:induction false} DataOfFramed(payloads: seq<string>)
    requires forall k :: 0 <= k < |payloads| ==> OneLine(payloads[k])
    ensures DataLines(Framed(payloads)) == payloads
  {
    if payloads != [] {
      DataOfFramed(payloads[1..]);
      DataOfOne(payloads[0]);
      DataHead("data: " + payloads[0], Framed(payloads[1..]));
      assert Framed(payloads) == ["data: " + payloads[0]] + Framed(payloads[1..]);
      assert payloads == [payloads[0]] + payloads[1..];
    }
  }

  lemma FramedInOneLine(payloads: seq<string>)
    requires forall k :: 0 <= k < |payloads| ==> OneLine(payloads[k])
    ensures forall k :: 0 <= k < |payloads| ==> '\n' !in Framed(payloads)[k]
  {
    forall k | 0 <= k < |payloads|
      ensures '\n' !in "data: " + payloads[k]
    {
      assert OneLine(payloads[k]);
    }
  }

  /** The data lines of one event are one JSON text, joined by line feeds. */
  lemma LinesMakeOneEvent(payloads: seq<string>, parse: JsonParser)
    requires payloads != [] && forall k :: 0 <= k < |payloads| ==> OneLine(payloads[k])
    ensures EventOf(Join(Framed(payloads), "\n"), parse)
         == (match parse(Join(payloads, "\n")) case None => [] case Some(event) => [event])
  {
    DataOfFramed(payloads);
    FramedInOneLine(payloads);
    hide DataLines, Split, Join, Framed, OneLine;
    SplitJoin(Framed(payloads), '\n');
  }
}
