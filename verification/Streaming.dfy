/** The streaming client: it reads a response in pieces and acts on each server-sent event. */
module Streaming {
  import opened Bits
  import opened Utf8
  import Json
  import opened ApiRequest
  import Http

  // ---- Events ----

  predicate EventEndAt(buf: seq<byte>, i: nat) {
    i + 2 <= |buf| && buf[i] == 0x0A && buf[i + 1] == 0x0A
  }

  /** The end of the first event at or after `i`: past two newlines. */
  function EventEndFrom(buf: seq<byte>, i: nat): (r: Option<nat>)
    ensures r.Some? ==> i + 2 <= r.value <= |buf| && EventEndAt(buf, r.value - 2)
    ensures forall j: nat :: i <= j && (r.Some? ==> j < r.value - 2) ==> !EventEndAt(buf, j)
    decreases |buf| - i
  {
    if i + 2 > |buf| then None
    else if EventEndAt(buf, i) then Some(i + 2)
    else EventEndFrom(buf, i + 1)
  }

  method FindSseEventEnd(buf: seq<byte>) returns (r: Option<nat>)
    ensures r == EventEndFrom(buf, 0)
    ensures r.Some? ==> 2 <= r.value <= |buf| && EventEndAt(buf, r.value - 2) && forall j: nat :: j < r.value - 2 ==> !EventEndAt(buf, j)
    ensures r.None? ==> forall j: nat :: !EventEndAt(buf, j)
  {
    var i := 0;
    while i + 1 < |buf|
      invariant EventEndFrom(buf, i) == EventEndFrom(buf, 0)
    {
      if buf[i] == 0x0A && buf[i + 1] == 0x0A {
        return Some(i + 2);
      }
      i := i + 1;
    }
    return None;
  }

  /** More data does not move the end of an event that has been found. */
  lemma EventEndMore(buf: seq<byte>, more: seq<byte>)
    requires EventEndFrom(buf, 0).Some?
    ensures EventEndFrom(buf + more, 0) == EventEndFrom(buf, 0)
  {
    var i := EventEndFrom(buf, 0).value - 2;
    assert forall j: nat :: j <= i ==> (EventEndAt(buf + more, j) <==> EventEndAt(buf, j));
    assert EventEndAt(buf + more, i);
  }

  /** A line without its end (LF, or CR LF), and what follows. */
  function EventLine(t: Text): (r: (Text, Option<Text>))
    ensures r.1.Some? ==> |r.1.value| < |t|
  {
    match Http.SplitAt(t, 0x0A)
    case None => (t, None)
    case Some((line, rest)) =>
      SplitShorter(t, 0x0A);
      (if line != [] && line[|line| - 1] == 0x0D then line[..|line| - 1] else line, Some(rest))
  }

  lemma {:induction false} SplitShorter(t: Text, c: scalar)
    ensures Http.SplitAt(t, c).Some? ==> |Http.SplitAt(t, c).value.1| < |t|
  {
    if t != [] && t[0] != c {
      SplitShorter(t[1..], c);
    }
  }

  const DATA: Text := [0x64, 0x61, 0x74, 0x61, 0x3A]

  /** The payload of the first `data:` line. */
  function DataLine(t: Text): Option<Text>
    decreases |t|
  {
    if t == [] then None
    else
      var (line, more) := EventLine(t);
      if DATA <= line then Some(Http.TrimStart(line[|DATA|..]))
      else if more.None? then None
      else DataLine(more.value)
  }

  /** `extract_sse_data`: a `data:` line, or the whole event if it looks like JSON. */
  function SseData(t: Text): Option<Text> {
    match DataLine(t)
    case Some(d) => Some(d)
    case None =>
      var trimmed := Http.Trim(t);
      if trimmed != [] && trimmed[0] == 0x7B then Some(trimmed) else None
  }

  // ---- What an event does ----

  datatype ToolCall = ToolCall(id: Text, name: Text, inputJson: Text)

  /** What has been received of the reply: the pieces shown, the text, finished tool calls, the tool call in
      progress, and the reason for stopping. */
  datatype Turn = Turn(tokens: seq<Text>, text: Text, toolCalls: seq<ToolCall>,
                       toolId: Text, toolName: Text, toolInput: Text, stopReason: Text)

  function StrOr(v: Option<Json.JsonValue>, default: Text): Text {
    if v.Some? && v.value.Str? then v.value.s else default
  }

  function GetIn(v: Option<Json.JsonValue>, key: string): Option<Json.JsonValue> {
    if v.None? then None else Get(v.value, Key(key))
  }

  /** One parsed event. */
  function Act(t: Turn, v: Json.JsonValue): (Turn, bool) {
    var kind := StrOr(Get(v, Key("type")), []);
    if kind == Key("content_block_start") then
      var block := Get(v, Key("content_block"));
      if block.Some? && StrOr(GetIn(block, "type"), []) == Key("tool_use") then
        (t.(toolId := StrOr(GetIn(block, "id"), []), toolName := StrOr(GetIn(block, "name"), []), toolInput := []), false)
      else (t, false)
    else if kind == Key("content_block_delta") then
      var delta := Get(v, Key("delta"));
      var deltaKind := StrOr(GetIn(delta, "type"), []);
      if deltaKind == Key("text_delta") then
        var piece := GetIn(delta, "text");
        if piece.Some? && piece.value.Str? then (t.(tokens := t.tokens + [piece.value.s], text := t.text + piece.value.s), false)
        else (t, false)
      else if deltaKind == Key("input_json_delta") then
        (t.(toolInput := t.toolInput + StrOr(GetIn(delta, "partial_json"), [])), false)
      else (t, false)
    else if kind == Key("content_block_stop") then
      if t.toolId == [] then (t, false)
      else (t.(toolCalls := t.toolCalls + [ToolCall(t.toolId, t.toolName, t.toolInput)], toolId := [], toolName := [], toolInput := []), false)
    else if kind == Key("message_delta") then
      (t.(stopReason := StrOr(GetIn(Get(v, Key("delta")), "stop_reason"), t.stopReason)), false)
    else (t, kind == Key("message_stop"))
  }

  /** One event as it arrives; what cannot be read is skipped. */
  function HandleEvent(t: Turn, event: seq<byte>): (Turn, bool) {
    match Decode(event)
    case None => (t, false)
    case Some(s) =>
      match SseData(s)
      case None => (t, false)
      case Some(data) =>
        match Json.Parse(Encode(data))
        case Err(_) => (t, false)
        case Ok(v, _) => Act(t, v)
  }

  // ---- Feeding bytes ----

  /** The client between reads, or its result. */
  datatype Progress =
    | Going(raw: seq<byte>, headersParsed: bool, turn: Turn)
    | HttpError(status: nat, retryAfter: Option<nat>)
    | Stopped(turn: Turn)

  /** Handle the complete events in the buffer. */
  function Drain(raw: seq<byte>, turn: Turn): (p: Progress)
    ensures !p.HttpError? && (p.Going? ==> p.headersParsed && EventEndFrom(p.raw, 0).None?)
    decreases |raw|
  {
    match EventEndFrom(raw, 0)
    case None => Going(raw, true, turn)
    case Some(end) =>
      var (turn', stop) := HandleEvent(turn, raw[..end]);
      if stop then Stopped(turn') else Drain(raw[end..], turn')
  }

  /** Bytes arrive. */
  function Feed(p: Progress, chunk: seq<byte>): Progress {
    if !p.Going? then p
    else
      var raw := p.raw + chunk;
      if p.headersParsed then Drain(raw, p.turn)
      else
        match Http.Parse(raw)
        case Parsed(response) =>
          if Http.IsError(response.status) then HttpError(response.status, Http.RetryAfter(response.headers))
          else Drain(raw[response.bodyStart..], p.turn)
        case _ => Going(raw, false, p.turn)
  }

  function FeedAll(p: Progress, chunks: seq<seq<byte>>): Progress {
    if chunks == [] then p else Feed(FeedAll(p, chunks[..|chunks| - 1]), chunks[|chunks| - 1])
  }

  function Joined(chunks: seq<seq<byte>>): seq<byte> {
    if chunks == [] then [] else Joined(chunks[..|chunks| - 1]) + chunks[|chunks| - 1]
  }

  const NOTHING: Turn := Turn([], [], [], [], [], [], [0x65, 0x6E, 0x64, 0x5F, 0x74, 0x75, 0x72, 0x6E])

  const START: Progress := Going([], false, NOTHING)

  // ---- How results split the stream does not matter ----

  /** What is left between reads: no complete event, or no readable head. */
  ghost predicate Settled(p: Progress) {
    p.Going? ==> if p.headersParsed then EventEndFrom(p.raw, 0).None? else !Http.Parse(p.raw).Parsed?
  }

  lemma {:induction false} DrainMore(raw: seq<byte>, turn: Turn, more: seq<byte>)
    ensures Drain(raw + more, turn) == Feed(Drain(raw, turn), more)
    decreases |raw|
  {
    hide HandleEvent, Http.Parse;
    match EventEndFrom(raw, 0) {
      case None =>
      case Some(end) =>
        EventEndMore(raw, more);
        assert (raw + more)[..end] == raw[..end] && (raw + more)[end..] == raw[end..] + more;
        var (turn', stop) := HandleEvent(turn, raw[..end]);
        if !stop {
          DrainMore(raw[end..], turn', more);
        }
    }
  }

  lemma FeedSettles(p: Progress, chunk: seq<byte>)
    requires Settled(p)
    ensures Settled(Feed(p, chunk))
  {
    hide HandleEvent, Drain;
  }

  /** Two reads do what one read of both pieces does. */
  lemma FeedTwice(p: Progress, a: seq<byte>, b: seq<byte>)
    requires Settled(p)
    ensures Feed(Feed(p, a), b) == Feed(p, a + b)
  {
    if p.Going? {
      hide Drain, Http.Parse;
      var raw := p.raw + a;
      assert p.raw + (a + b) == raw + b;
      if p.headersParsed {
        DrainMore(raw, p.turn, b);
      } else if Http.Parse(raw).Parsed? {
        Http.ParseMore(raw, b);
        var start := Http.Parse(raw).response.bodyStart;
        assert (raw + b)[start..] == raw[start..] + b;
        DrainMore(raw[start..], p.turn, b);
      }
    }
  }

  /** The reply depends only on the bytes received, not on how reads split them: tokens, text, tool calls,
      stop reason, HTTP error and leftover bytes are those of a single read of the whole stream. */
  lemma {:induction false} SplitDoesNotMatter(chunks: seq<seq<byte>>)
    ensures Settled(FeedAll(START, chunks)) && FeedAll(START, chunks) == Feed(START, Joined(chunks))
  {
    hide Drain, Feed, Settled;
    if chunks == [] {
      NothingReceived();
    } else {
      var n := |chunks| - 1;
      SplitDoesNotMatter(chunks[..n]);
      NothingReceived();
      FeedSettles(FeedAll(START, chunks[..n]), chunks[n]);
      FeedTwice(START, Joined(chunks[..n]), chunks[n]);
    }
  }

  lemma NothingReceived()
    ensures Settled(START) && Feed(START, []) == START
  {
    assert START.raw + [] == [];
  }

  // ---- Events are consumed ----

  /** The number of events handled. */
  function EventsIn(raw: seq<byte>, turn: Turn): nat
    decreases |raw|
  {
    match EventEndFrom(raw, 0)
    case None => 0
    case Some(end) =>
      var (turn', stop) := HandleEvent(turn, raw[..end]);
      1 + if stop then 0 else EventsIn(raw[end..], turn')
  }

  /** Every event takes at least two bytes from the buffer, so the event loop ends. */
  lemma {:induction false} EventsConsume(raw: seq<byte>, turn: Turn)
    ensures 2 * EventsIn(raw, turn) <= |raw|
    ensures Drain(raw, turn).Going? ==> |Drain(raw, turn).raw| + 2 * EventsIn(raw, turn) <= |raw|
    decreases |raw|
  {
    hide HandleEvent;
    match EventEndFrom(raw, 0) {
      case None =>
      case Some(end) =>
        var (turn', stop) := HandleEvent(turn, raw[..end]);
        if !stop {
          EventsConsume(raw[end..], turn');
        }
    }
  }

  // ---- The receive loop ----

  /** What a read of the connection gives. */
  datatype ReadResult = Data(bytes: seq<byte>) | Closed | ReadFailed

  datatype Reply = Replied(turn: Turn) | EmptyResponse | HttpStatus(status: nat, retryAfter: Option<nat>)

  /** The bytes before the connection ends. */
  function Received(results: seq<ReadResult>): seq<byte> {
    if results == [] || !results[0].Data? || results[0].bytes == [] then [] else results[0].bytes + Received(results[1..])
  }

  /** The result when the stream has ended in this state. */
  function Finish(p: Progress): Reply {
    match p
    case HttpError(status, retry) => HttpStatus(status, retry)
    case Stopped(turn) => Replied(turn)
    case Going(_, _, turn) => if turn.text == [] && turn.toolCalls == [] then EmptyResponse else Replied(turn)
  }

  /** Read until the connection ends or the reply is complete; `results` is what the connection will give. */
  method ReceiveReply(results: seq<ReadResult>) returns (r: Reply)
    ensures r == Finish(Feed(START, Received(results)))
  {
    hide Feed, Drain;
    var raw, headersParsed, turn := [], false, NOTHING;
    var i := 0;
    NothingReceived();
    FeedTwice(START, [], Received(results));
    assert [] + Received(results) == Received(results) && results[0..] == results;
    while i < |results| && results[i].Data? && results[i].bytes != []
      invariant i <= |results| && Settled(Going(raw, headersParsed, turn))
      invariant Feed(START, Received(results)) == Feed(Going(raw, headersParsed, turn), Received(results[i..]))
    {
      ghost var p := Going(raw, headersParsed, turn);
      FeedSettles(p, results[i].bytes);
      FeedTwice(p, results[i].bytes, Received(results[i + 1..]));
      assert results[i..][1..] == results[i + 1..];
      var progress := Step(raw, headersParsed, turn, results[i].bytes);
      if !progress.Going? {
        FedIsFinal(progress, Received(results[i + 1..]));
        return Finish(progress);
      }
      raw, headersParsed, turn := progress.raw, progress.headersParsed, progress.turn;
      i := i + 1;
    }
    FedNothing(Going(raw, headersParsed, turn));
    return Finish(Going(raw, headersParsed, turn));
  }

  lemma FedIsFinal(p: Progress, chunk: seq<byte>)
    requires !p.Going?
    ensures Feed(p, chunk) == p
  {
  }

  lemma FedNothing(p: Progress)
    requires Settled(p)
    ensures Feed(p, []) == p
  {
    if p.Going? {
      assert p.raw + [] == p.raw;
    }
  }

  /** One read: look for the head, then handle the complete events. */
  method Step(raw: seq<byte>, headersParsed: bool, turn: Turn, chunk: seq<byte>) returns (p: Progress)
    ensures p == Feed(Going(raw, headersParsed, turn), chunk)
  {
    hide Drain, Http.ParseHead, Http.HeaderEndFrom;
    var buf := raw + chunk;
    if !headersParsed {
      var response := Http.Parse(buf);
      if !response.Parsed? {
        return Going(buf, false, turn);
      }
      if Http.IsError(response.response.status) {
        return HttpError(response.response.status, Http.RetryAfter(response.response.headers));
      }
      buf := buf[response.response.bodyStart..];
    }
    p := HandleEvents(buf, turn);
  }

  method HandleEvents(raw: seq<byte>, turn: Turn) returns (p: Progress)
    ensures p == Drain(raw, turn)
  {
    hide HandleEvent;
    var buf, now := raw, turn;
    while true
      invariant Drain(raw, turn) == Drain(buf, now)
      decreases |buf|
    {
      var end := FindSseEventEnd(buf);
      if end == None {
        return Going(buf, true, now);
      }
      var (next, stop) := HandleEvent(now, buf[..end.value]);
      if stop {
        return Stopped(next);
      }
      buf, now := buf[end.value..], next;
    }
  }
}
