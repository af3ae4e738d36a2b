/** What a streamed reply means: replies as a server sends them, event by event, and what the client makes of them. */
module StreamingReply {
  import opened Bits
  import opened Utf8
  import opened Json
  import opened JsonText
  import opened JsonLaws
  import opened ApiRequest
  import opened Streaming
  import Http
  import HttpLaws

  // ---- Replies ----

  /** A block of a reply: text in pieces, or a call of a tool with its input in pieces. */
  datatype Block = Words(pieces: seq<Text>) | Call(id: Text, name: Text, input: seq<Text>)

  datatype Answer = Answer(blocks: seq<Block>, stopReason: Text)

  function Concat(pieces: seq<Text>): Text {
    if pieces == [] then [] else pieces[0] + Concat(pieces[1..])
  }

  /** All pieces of text, in order. */
  function WordsOf(blocks: seq<Block>): seq<Text> {
    if blocks == [] then []
    else (if blocks[0].Words? then blocks[0].pieces else []) + WordsOf(blocks[1..])
  }

  /** All calls that have an identifier, in order. */
  function CallsOf(blocks: seq<Block>): seq<ToolCall> {
    if blocks == [] then []
    else
      (if blocks[0].Call? && blocks[0].id != [] then [ToolCall(blocks[0].id, blocks[0].name, Concat(blocks[0].input))] else [])
      + CallsOf(blocks[1..])
  }

  /** The client has understood these blocks. */
  predicate Understood(t: Turn, blocks: seq<Block>, stopReason: Text) {
    && t.tokens == WordsOf(blocks) && t.text == Concat(WordsOf(blocks)) && t.toolCalls == CallsOf(blocks)
    && t.stopReason == stopReason
  }

  // ---- Events ----

  datatype Event =
    | TextPiece(text: Text)
    | CallStart(id: Text, name: Text)
    | InputPiece(input: Text)
    | BlockStop
    | StopReason(reason: Text)
    | MessageStop
    | Other

  function Pieces(pieces: seq<Text>): seq<Event> {
    if pieces == [] then [] else [TextPiece(pieces[0])] + Pieces(pieces[1..])
  }

  function Inputs(pieces: seq<Text>): seq<Event> {
    if pieces == [] then [] else [InputPiece(pieces[0])] + Inputs(pieces[1..])
  }

  /** A block up to its end. */
  function Opening(b: Block): seq<Event> {
    match b
    case Words(pieces) => Pieces(pieces)
    case Call(id, name, input) => [CallStart(id, name)] + Inputs(input)
  }

  function BlockEvents(b: Block): seq<Event> {
    Opening(b) + [BlockStop]
  }

  function AllEvents(blocks: seq<Block>): seq<Event> {
    if blocks == [] then [] else BlockEvents(blocks[0]) + AllEvents(blocks[1..])
  }

  /** Without the events that say nothing. */
  function Important(events: seq<Event>): seq<Event> {
    if events == [] then [] else (if events[0].Other? then [] else [events[0]]) + Important(events[1..])
  }

  // ---- What an event says ----

  function StrAt(v: JsonValue, key: string): Option<Text> {
    match Get(v, Key(key))
    case Some(Str(s)) => Some(s)
    case _ => None
  }

  function StrWithin(v: JsonValue, outer: string, key: string): Option<Text> {
    match Get(v, Key(outer))
    case Some(w) => StrAt(w, key)
    case None => None
  }

  predicate Says(v: JsonValue, e: Event) {
    var kind := StrAt(v, "type");
    match e
    case TextPiece(t) =>
      && kind == Some(Key("content_block_delta")) && StrWithin(v, "delta", "type") == Some(Key("text_delta"))
      && StrWithin(v, "delta", "text") == Some(t)
    case CallStart(id, name) =>
      && kind == Some(Key("content_block_start")) && StrWithin(v, "content_block", "type") == Some(Key("tool_use"))
      && StrWithin(v, "content_block", "id") == Some(id) && StrWithin(v, "content_block", "name") == Some(name)
    case InputPiece(t) =>
      && kind == Some(Key("content_block_delta")) && StrWithin(v, "delta", "type") == Some(Key("input_json_delta"))
      && StrWithin(v, "delta", "partial_json") == Some(t)
    case BlockStop => kind == Some(Key("content_block_stop"))
    case StopReason(reason) => kind == Some(Key("message_delta")) && StrWithin(v, "delta", "stop_reason") == Some(reason)
    case MessageStop => kind == Some(Key("message_stop"))
    case Other =>
      || (kind == Some(Key("content_block_start")) && StrWithin(v, "content_block", "type") != Some(Key("tool_use")))
      || (kind != Some(Key("content_block_start")) && kind != Some(Key("content_block_delta")) && kind != Some(Key("content_block_stop"))
          && kind != Some(Key("message_delta")) && kind != Some(Key("message_stop")))
  }

  // ---- Events as bytes ----

  /** How the JSON text is introduced; a bare one is the whole event. */
  datatype Form = DataSpace | DataOnly | Bare

  /** An event with its JSON text, perhaps after a line of another kind. */
  datatype Sse = Sse(preface: Option<Text>, form: Form, json: Text, event: Event)

  predicate SseOk(s: Sse) {
    && (s.preface.Some? ==> HttpLaws.NoBreak(s.preface.value) && !(Key("data:") <= s.preface.value))
    && HttpLaws.NoBreak(s.json) && s.json != [] && s.json[0] == 0x7B
    && (s.form.Bare? ==> s.preface == None && HttpLaws.NoSpaceAround(s.json))
    && Json.Parse(Encode(s.json)).Ok? && Says(Json.Parse(Encode(s.json)).value, s.event)
  }

  function PrefaceText(s: Sse): Text {
    if s.preface.Some? then s.preface.value + [0x0A] else []
  }

  function LineText(s: Sse): Text {
    (match s.form case DataSpace => Key("data: ") case DataOnly => Key("data:") case Bare => []) + s.json
  }

  function EventText(s: Sse): Text {
    PrefaceText(s) + (LineText(s) + [0x0A, 0x0A])
  }

  function StreamBytes(ss: seq<Sse>): seq<byte> {
    if ss == [] then [] else Encode(EventText(ss[0])) + StreamBytes(ss[1..])
  }

  function EventsOf(ss: seq<Sse>): (r: seq<Event>)
    ensures |r| == |ss| && forall i :: 0 <= i < |ss| ==> r[i] == ss[i].event
  {
    seq(|ss|, i requires 0 <= i < |ss| => ss[i].event)
  }

  // ---- Reading one event ----

  /** Where every line ends with CR LF no event is ever found. */
  lemma CrLfEndsNothing(buf: seq<byte>, t: Turn)
    requires forall i :: 0 <= i < |buf| && buf[i] == 0x0A ==> i > 0 && buf[i - 1] == 0x0D
    ensures Drain(buf, t) == Going(buf, true, t)
  {
    hide HandleEvent;
    forall j: nat
      ensures !EventEndAt(buf, j)
    {
    }
  }

  /** The event ends where it was meant to. */
  lemma EndIsFound(s: Sse, more: seq<byte>)
    requires SseOk(s)
    ensures var b := Encode(EventText(s)); EventEndFrom(b + more, 0) == Some(|b|)
  {
    var preface, line: Text := PrefaceText(s), LineText(s);
    var body := Encode(line);
    hide Encode, PrefaceText, LineText, SseOk, Key, HttpLaws.NoBreak;
    LineBytes(s);
    EncodeAppend(preface, line + [0x0A, 0x0A]);
    EncodeAppend(line, [0x0A, 0x0A]);
    EncodeAscii([0x0A, 0x0A]);
    assert EventText(s) == preface + (line + [0x0A, 0x0A]);
    var front := Encode(preface);
    assert Encode([0x0A, 0x0A]) == [0x0A, 0x0A];
    hide *;
    FirstEnd(front, body, more);
    assert front + (body + [0x0A, 0x0A]) + more == front + body + [0x0A, 0x0A] + more;
  }

  /** The only newline before the end is the one after the preface. */
  lemma FirstEnd(front: seq<byte>, body: seq<byte>, more: seq<byte>)
    requires body != [] && 0x0A !in body && forall i :: 0 <= i < |front| - 1 ==> front[i] != 0x0A
    ensures EventEndFrom(front + body + [0x0A, 0x0A] + more, 0) == Some(|front| + |body| + 2)
  {
    var all := front + body + [0x0A, 0x0A] + more;
    var end := |front| + |body|;
    assert forall i :: |front| <= i < end ==> all[i] == body[i - |front|];
    assert forall i :: 0 <= i < |front| ==> all[i] == front[i];
    forall j: nat | j < end
      ensures !EventEndAt(all, j)
    {
      if j + 1 >= |front| && j + 1 < end {
        assert all[j + 1] == body[j + 1 - |front|];
      }
      if j >= |front| {
        assert all[j] == body[j - |front|];
      }
    }
    assert EventEndAt(all, end);
  }

  lemma LineBytes(s: Sse)
    requires SseOk(s)
    ensures var preface, body := Encode(PrefaceText(s)), Encode(LineText(s));
            && body != [] && 0x0A !in body && forall i :: 0 <= i < |preface| - 1 ==> preface[i] != 0x0A
  {
    var line := LineText(s);
    EncodeAvoids(line, 0x0A);
    EncodeAppend(line[..1], line[1..]);
    assert line == line[..1] + line[1..];
    if s.preface.Some? {
      EncodeAvoids(s.preface.value, 0x0A);
      EncodeAppend(s.preface.value, [0x0A]);
      EncodeAscii([0x0A]);
    }
  }

  /** A line up to its newline. */
  lemma LineEnds(line: Text, rest: Text)
    requires HttpLaws.NoBreak(line)
    ensures EventLine(line + [0x0A] + rest) == (line, Some(rest))
  {
    HttpLaws.SplitFound(line, 0x0A, rest);
    hide Http.SplitAt;
  }

  /** The JSON text is what is taken from the event. */
  lemma DataIsFound(s: Sse)
    requires SseOk(s)
    ensures SseData(EventText(s)) == Some(s.json)
  {
    LineIsOne(s);
    var line := LineText(s);
    var t := line + [0x0A] + [0x0A];
    LineEnds(line, [0x0A]);
    assert line + [0x0A, 0x0A] == t;
    hide LineText, EventLine, Json.Parse, Says, Encode;
    if s.form.Bare? {
      BareIsFound(s.json);
      assert EventText(s) == t;
    } else {
      assert Key("data:") == DATA;
      hide Key;
      assert DataLine(t) == Some(s.json);
      if s.preface.Some? {
        LineEnds(s.preface.value, t);
        assert EventText(s) == s.preface.value + [0x0A] + t;
      } else {
        assert EventText(s) == t;
      }
    }
  }

  /** The line has no break, and begins as it should. */
  lemma LineIsOne(s: Sse)
    requires SseOk(s)
    ensures HttpLaws.NoBreak(LineText(s))
    ensures if s.form.Bare? then LineText(s) == s.json
            else DATA <= LineText(s) && Http.TrimStart(LineText(s)[|DATA|..]) == s.json
  {
    assert Key("data:") == DATA && Key("data: ") == DATA + [0x20];
    hide Key, Json.Parse, Says, Encode;
    match s.form {
      case DataSpace =>
        assert LineText(s)[|DATA|..] == [0x20] + s.json;
        HttpLaws.TrimsStart([0x20], s.json);
      case DataOnly =>
        assert LineText(s)[|DATA|..] == s.json;
      case Bare =>
    }
  }

  lemma BareIsFound(json: Text)
    requires json != [] && json[0] == 0x7B && HttpLaws.NoBreak(json) && HttpLaws.NoSpaceAround(json)
    ensures SseData(json + [0x0A] + [0x0A]) == Some(json)
  {
    var t := json + [0x0A] + [0x0A];
    LineEnds(json, [0x0A]);
    LineEnds([], []);
    assert [] + [0x0A] + [] == [0x0A];
    HttpLaws.Trims([], json, [0x0A, 0x0A]);
    assert t == [] + json + [0x0A, 0x0A];
    hide Http.Trim, EventLine;
    assert DataLine([0x0A]) == None;
  }

  /** The keys that tell events apart. */
  lemma KindsDiffer()
    ensures Key("content_block_start") != Key("content_block_delta") && Key("content_block_start") != Key("content_block_stop")
    ensures Key("content_block_delta") != Key("content_block_stop") && Key("message_delta") != Key("message_stop")
    ensures Key("message_delta") != Key("content_block_start") && Key("message_delta") != Key("content_block_delta")
    ensures Key("message_delta") != Key("content_block_stop") && Key("message_stop") != Key("content_block_start")
    ensures Key("message_stop") != Key("content_block_delta") && Key("message_stop") != Key("content_block_stop")
    ensures Key("text_delta") != Key("input_json_delta")
    ensures [] != Key("content_block_start") && [] != Key("content_block_delta") && [] != Key("content_block_stop")
    ensures [] != Key("message_delta") && [] != Key("message_stop") && [] != Key("tool_use")
  {
    assert |Key("content_block_start")| == 19 && |Key("content_block_delta")| == 19 && |Key("content_block_stop")| == 18;
    assert |Key("message_delta")| == 13 && |Key("message_stop")| == 12 && |Key("text_delta")| == 10 && |Key("tool_use")| == 8;
    assert Key("content_block_start")[14] != Key("content_block_delta")[14];
    assert |Key("input_json_delta")| == 16;
  }

  /** What the client knows after an event. */
  function Heard(t: Turn, e: Event): Turn {
    match e
    case TextPiece(s) => t.(tokens := t.tokens + [s], text := t.text + s)
    case CallStart(id, name) => t.(toolId := id, toolName := name, toolInput := [])
    case InputPiece(s) => t.(toolInput := t.toolInput + s)
    case BlockStop =>
      if t.toolId == [] then t
      else t.(toolCalls := t.toolCalls + [ToolCall(t.toolId, t.toolName, t.toolInput)], toolId := [], toolName := [], toolInput := [])
    case StopReason(reason) => t.(stopReason := reason)
    case _ => t
  }

  lemma ActHeard(t: Turn, v: JsonValue, e: Event)
    requires Says(v, e)
    ensures Act(t, v) == (Heard(t, e), e.MessageStop?)
  {
    match e {
      case TextPiece(_) => DeltaHeard(t, v, e);
      case InputPiece(_) => DeltaHeard(t, v, e);
      case CallStart(_, _) => StartHeard(t, v, e);
      case Other => OtherHeard(t, v);
      case _ => KindHeard(t, v, e);
    }
  }

  lemma DeltaHeard(t: Turn, v: JsonValue, e: Event)
    requires Says(v, e) && (e.TextPiece? || e.InputPiece?)
    ensures Act(t, v) == (Heard(t, e), false)
  {
    KindsDiffer();
    hide Key, Get;
  }

  lemma StartHeard(t: Turn, v: JsonValue, e: Event)
    requires Says(v, e) && e.CallStart?
    ensures Act(t, v) == (Heard(t, e), false)
  {
    KindsDiffer();
    hide Key, Get;
  }

  lemma KindHeard(t: Turn, v: JsonValue, e: Event)
    requires Says(v, e) && (e.BlockStop? || e.StopReason? || e.MessageStop?)
    ensures Act(t, v) == (Heard(t, e), e.MessageStop?)
  {
    KindsDiffer();
    hide Key, Get;
  }

  lemma OtherHeard(t: Turn, v: JsonValue)
    requires Says(v, Other)
    ensures Act(t, v) == (t, false)
  {
    KindsDiffer();
    hide Key, Get;
  }

  lemma EventHandled(s: Sse, t: Turn)
    requires SseOk(s)
    ensures HandleEvent(t, Encode(EventText(s))) == (Heard(t, s.event), s.event.MessageStop?)
  {
    DecodeEncoded(EventText(s));
    DataIsFound(s);
    ActHeard(t, Json.Parse(Encode(s.json)).value, s.event);
    hide Act, Encode, Decode, EventText, SseData, Says, Json.Parse, Heard;
  }

  /** One event at the front of the buffer. */
  lemma EventDrained(s: Sse, t: Turn, more: seq<byte>)
    requires SseOk(s)
    ensures Drain(Encode(EventText(s)) + more, t)
            == if s.event.MessageStop? then Stopped(Heard(t, s.event)) else Drain(more, Heard(t, s.event))
  {
    EventHandled(s, t);
    EndIsFound(s, more);
    var b := Encode(EventText(s));
    hide SseOk, Encode, EventText, HandleEvent, EventEndFrom, Heard;
    assert (b + more)[..|b|] == b && (b + more)[|b|..] == more;
  }

  function After(t: Turn, events: seq<Event>): Turn
    decreases |events|
  {
    if events == [] then t else After(Heard(t, events[0]), events[1..])
  }

  lemma {:induction false} StreamDrained(ss: seq<Sse>, t: Turn, more: seq<byte>)
    requires forall s :: s in ss ==> SseOk(s) && !s.event.MessageStop?
    ensures Drain(StreamBytes(ss) + more, t) == Drain(more, After(t, EventsOf(ss)))
  {
    hide SseOk, Drain, Heard, Encode, EventText;
    if ss == [] {
      assert [] + more == more;
    } else {
      var first := Encode(EventText(ss[0]));
      assert StreamBytes(ss) + more == first + (StreamBytes(ss[1..]) + more);
      EventDrained(ss[0], t, StreamBytes(ss[1..]) + more);
      StreamDrained(ss[1..], Heard(t, ss[0].event), more);
      assert EventsOf(ss)[1..] == EventsOf(ss[1..]);
    }
  }

  // ---- Hearing blocks ----

  lemma {:induction false} AfterAppend(t: Turn, a: seq<Event>, b: seq<Event>)
    ensures After(t, a + b) == After(After(t, a), b)
    decreases |a|
  {
    hide Heard;
    if a == [] {
      assert a + b == b;
    } else {
      assert (a + b)[1..] == a[1..] + b;
      AfterAppend(Heard(t, a[0]), a[1..], b);
    }
  }

  lemma {:induction false} AfterImportant(t: Turn, events: seq<Event>)
    ensures After(t, events) == After(t, Important(events))
    decreases |events|
  {
    if events != [] {
      var e, rest := events[0], Important(events[1..]);
      AfterImportant(Heard(t, e), events[1..]);
      if e.Other? {
        assert Important(events) == rest;
      } else {
        assert Important(events) == [e] + rest && ([e] + rest)[1..] == rest;
      }
    }
  }

  lemma AfterFirst(t: Turn, e: Event, rest: seq<Event>)
    ensures After(t, [e] + rest) == After(Heard(t, e), rest)
  {
    hide Heard;
    assert ([e] + rest)[1..] == rest;
  }

  lemma {:induction false} PiecesHeard(t: Turn, pieces: seq<Text>)
    ensures After(t, Pieces(pieces)) == t.(tokens := t.tokens + pieces, text := t.text + Concat(pieces))
    decreases |pieces|
  {
    if pieces == [] {
      assert t.tokens + [] == t.tokens && t.text + [] == t.text;
    } else {
      var t' := Heard(t, TextPiece(pieces[0]));
      AfterFirst(t, TextPiece(pieces[0]), Pieces(pieces[1..]));
      PiecesHeard(t', pieces[1..]);
      hide After;
      assert t.tokens + [pieces[0]] + pieces[1..] == t.tokens + pieces;
      assert t.text + pieces[0] + Concat(pieces[1..]) == t.text + Concat(pieces);
    }
  }

  lemma {:induction false} InputsHeard(t: Turn, pieces: seq<Text>)
    ensures After(t, Inputs(pieces)) == t.(toolInput := t.toolInput + Concat(pieces))
    decreases |pieces|
  {
    if pieces == [] {
      assert t.toolInput + [] == t.toolInput;
    } else {
      var t' := Heard(t, InputPiece(pieces[0]));
      AfterFirst(t, InputPiece(pieces[0]), Inputs(pieces[1..]));
      InputsHeard(t', pieces[1..]);
      hide After;
      assert t.toolInput + pieces[0] + Concat(pieces[1..]) == t.toolInput + Concat(pieces);
    }
  }

  /** Up to its end a block adds its text, or becomes the call in progress. */
  lemma OpeningHeard(t: Turn, b: Block)
    ensures After(t, Opening(b)) ==
            match b {
              case Words(pieces) => t.(tokens := t.tokens + pieces, text := t.text + Concat(pieces))
              case Call(id, name, input) => t.(toolId := id, toolName := name, toolInput := Concat(input))
            }
  {
    match b {
      case Words(pieces) => PiecesHeard(t, pieces);
      case Call(id, name, input) =>
        var t' := Heard(t, CallStart(id, name));
        assert ([CallStart(id, name)] + Inputs(input))[1..] == Inputs(input);
        InputsHeard(t', input);
        assert [] + Concat(input) == Concat(input);
    }
  }

  /** Between blocks: `t'` knows these blocks on top of what `t` knows. */
  predicate Gains(t: Turn, t': Turn, blocks: seq<Block>) {
    && t'.toolId == [] && t'.stopReason == t.stopReason
    && t'.tokens == t.tokens + WordsOf(blocks) && t'.text == t.text + Concat(WordsOf(blocks))
    && t'.toolCalls == t.toolCalls + CallsOf(blocks)
  }

  lemma GainsMore(t: Turn, t1: Turn, t2: Turn, blocks: seq<Block>)
    requires blocks != [] && Gains(t, t1, [blocks[0]]) && Gains(t1, t2, blocks[1..])
    ensures Gains(t, t2, blocks)
  {
    FirstBlock(blocks);
    ConcatAppend(WordsOf([blocks[0]]), WordsOf(blocks[1..]));
    hide WordsOf, CallsOf, Concat;
  }

  lemma BlockHeard(t: Turn, b: Block)
    requires t.toolId == []
    ensures Gains(t, After(t, BlockEvents(b)), [b])
  {
    OpeningHeard(t, b);
    AfterAppend(t, Opening(b), [BlockStop]);
    var t1 := After(t, Opening(b));
    assert After(t1, [BlockStop]) == Heard(t1, BlockStop) by {
      assert [BlockStop][1..] == [];
    }
    OneBlock(b);
    assert t.tokens + [] == t.tokens && t.text + [] == t.text && t.toolCalls + [] == t.toolCalls;
  }

  lemma OneBlock(b: Block)
    ensures WordsOf([b]) == if b.Words? then b.pieces else []
    ensures CallsOf([b]) == if b.Call? && b.id != [] then [ToolCall(b.id, b.name, Concat(b.input))] else []
    ensures Concat([]) == []
  {
  }

  lemma {:induction false} ConcatAppend(a: seq<Text>, b: seq<Text>)
    ensures Concat(a + b) == Concat(a) + Concat(b)
  {
    if a == [] {
      assert a + b == b;
    } else {
      assert (a + b)[1..] == a[1..] + b;
      ConcatAppend(a[1..], b);
    }
  }

  lemma FirstBlock(blocks: seq<Block>)
    requires blocks != []
    ensures WordsOf(blocks) == WordsOf([blocks[0]]) + WordsOf(blocks[1..])
    ensures CallsOf(blocks) == CallsOf([blocks[0]]) + CallsOf(blocks[1..])
  {
    OneBlock(blocks[0]);
  }

  lemma {:induction false} BlocksHeard(t: Turn, blocks: seq<Block>)
    requires t.toolId == []
    ensures Gains(t, After(t, AllEvents(blocks)), blocks)
    decreases |blocks|
  {
    if blocks == [] {
      assert t.tokens + [] == t.tokens && t.text + [] == t.text && t.toolCalls + [] == t.toolCalls;
    } else {
      hide After, BlockEvents, WordsOf, CallsOf, Concat;
      AfterAppend(t, BlockEvents(blocks[0]), AllEvents(blocks[1..]));
      var t1 := After(t, BlockEvents(blocks[0]));
      BlockHeard(t, blocks[0]);
      BlocksHeard(t1, blocks[1..]);
      GainsMore(t, t1, After(t, AllEvents(blocks)), blocks);
    }
  }

  lemma {:induction false} StopIsImportant(events: seq<Event>)
    ensures MessageStop in events ==> MessageStop in Important(events)
  {
    if events != [] {
      StopIsImportant(events[1..]);
    }
  }

  lemma {:induction false} BlocksDoNotStop(blocks: seq<Block>)
    ensures MessageStop !in AllEvents(blocks)
  {
    if blocks != [] {
      match blocks[0] {
        case Words(pieces) => PiecesDoNotStop(pieces);
        case Call(_, _, input) => PiecesDoNotStop(input);
      }
      BlocksDoNotStop(blocks[1..]);
    }
  }

  lemma {:induction false} PiecesDoNotStop(pieces: seq<Text>)
    ensures MessageStop !in Pieces(pieces) && MessageStop !in Inputs(pieces)
  {
    if pieces != [] {
      PiecesDoNotStop(pieces[1..]);
    }
  }

  lemma NoStops(ss: seq<Sse>)
    requires MessageStop !in Important(EventsOf(ss))
    ensures forall s :: s in ss ==> !s.event.MessageStop?
  {
    StopIsImportant(EventsOf(ss));
    forall s | s in ss
      ensures !s.event.MessageStop?
    {
      var i :| 0 <= i < |ss| && ss[i] == s;
      assert EventsOf(ss)[i] == s.event;
    }
  }

  // ---- Whole replies ----

  /** A head that is no error, then the stream. */
  lemma HeadThenStream(head: HttpLaws.Head, body: seq<byte>)
    requires HttpLaws.HeadOk(head) && (head.status == 200 || head.status == 201)
    ensures Feed(START, HttpLaws.HeadBytes(head) + body) == Drain(body, NOTHING)
  {
    HttpLaws.HeadReads(head, body);
    var raw := HttpLaws.HeadBytes(head) + body;
    assert [] + raw == raw && raw[|HttpLaws.HeadBytes(head)|..] == body;
    hide Drain, HttpLaws.HeadBytes, HttpLaws.HeadOk, HttpLaws.ReadHeaders, Http.Parse;
  }

  /** Any other status is an error, with the seconds to wait before trying again. */
  lemma OtherStatusFails(head: HttpLaws.Head, body: seq<byte>)
    requires HttpLaws.HeadOk(head) && head.status != 200 && head.status != 201
    ensures var p := Feed(START, HttpLaws.HeadBytes(head) + body);
            && p.HttpError? && p.status == head.status && HttpLaws.Waits(head.lines, p.retryAfter)
            && Finish(p) == HttpStatus(head.status, p.retryAfter)
  {
    hide HttpLaws.HeadBytes, HttpLaws.HeadOk, HttpLaws.ReadHeaders, Http.Parse, Http.RetryAfter, HttpLaws.Waits, Drain;
    HttpLaws.HeadReads(head, body);
    HttpLaws.RetryReads(head.lines);
    var raw := HttpLaws.HeadBytes(head) + body;
    assert [] + raw == raw;
  }

  /** The bytes of reads that each give something, up to the end of the connection, are received in order. */
  lemma {:induction false} ReadsAreJoined(chunks: seq<seq<byte>>, ending: seq<ReadResult>)
    requires forall i :: 0 <= i < |chunks| ==> chunks[i] != []
    requires ending == [] || !ending[0].Data? || ending[0].bytes == []
    ensures Received(Reads(chunks) + ending) == Joined(chunks)
    decreases |chunks|
  {
    if chunks == [] {
      assert [] + ending == ending;
    } else {
      var all := Reads(chunks) + ending;
      assert all[0] == Data(chunks[0]) && all[1..] == Reads(chunks[1..]) + ending;
      ReadsAreJoined(chunks[1..], ending);
      JoinedFirst(chunks);
    }
  }

  function Reads(chunks: seq<seq<byte>>): (r: seq<ReadResult>)
    ensures |r| == |chunks| && forall i :: 0 <= i < |r| ==> r[i] == Data(chunks[i])
  {
    seq(|chunks|, i requires 0 <= i < |chunks| => Data(chunks[i]))
  }

  lemma {:induction false} JoinedFirst(chunks: seq<seq<byte>>)
    requires chunks != []
    ensures Joined(chunks) == chunks[0] + Joined(chunks[1..])
    decreases |chunks|
  {
    var n := |chunks| - 1;
    if n == 0 {
      assert chunks[..0] == [] && chunks[1..] == [];
      assert Joined(chunks) == [] + chunks[0];
    } else {
      JoinedFirst(chunks[..n]);
      assert chunks[..n][1..] == chunks[1..][..n - 1];
      assert Joined(chunks[1..]) == Joined(chunks[1..][..n - 1]) + chunks[n];
    }
  }

  /** A reply is understood: whatever its events look like in JSON, whatever other events come between, and
      whatever follows, the client ends with exactly its pieces of text, its calls, and its reason for stopping. */
  lemma ReplyIsUnderstood(head: HttpLaws.Head, ss: seq<Sse>, last: Sse, answer: Answer, rest: seq<byte>)
    requires HttpLaws.HeadOk(head) && (head.status == 200 || head.status == 201)
    requires (forall s :: s in ss ==> SseOk(s)) && SseOk(last) && last.event == MessageStop
    requires Important(EventsOf(ss)) == AllEvents(answer.blocks) + [StopReason(answer.stopReason)]
    ensures var p := Feed(START, HttpLaws.HeadBytes(head) + (StreamBytes(ss) + (Encode(EventText(last)) + rest)));
            p.Stopped? && Finish(p) == Replied(p.turn) && Understood(p.turn, answer.blocks, answer.stopReason)
  {
    hide *;
    var end := Encode(EventText(last)) + rest;
    HeadThenStream(head, StreamBytes(ss) + end);
    BlocksDoNotStop(answer.blocks);
    NoStops(ss);
    StreamDrained(ss, NOTHING, end);
    EventsUnderstood(EventsOf(ss), answer);
    var t := After(NOTHING, EventsOf(ss));
    EventDrained(last, t, rest);
    StopEnds(t);
  }

  lemma StopEnds(t: Turn)
    ensures Heard(t, MessageStop) == t && Finish(Stopped(t)) == Replied(t)
  {
  }

  lemma EventsUnderstood(events: seq<Event>, answer: Answer)
    requires Important(events) == AllEvents(answer.blocks) + [StopReason(answer.stopReason)]
    ensures Understood(After(NOTHING, events), answer.blocks, answer.stopReason)
  {
    AfterImportant(NOTHING, events);
    AfterAppend(NOTHING, AllEvents(answer.blocks), [StopReason(answer.stopReason)]);
    BlocksHeard(NOTHING, answer.blocks);
    var t := After(NOTHING, AllEvents(answer.blocks));
    assert [StopReason(answer.stopReason)][1..] == [];
    assert After(t, [StopReason(answer.stopReason)]) == Heard(t, StopReason(answer.stopReason));
    hide AllEvents, WordsOf, CallsOf, Concat;
  }

  /** A connection that ends early, after some blocks and perhaps part of another: its text counts, a call that was
      not finished does not, and when there is neither text nor a call the reply is empty. */
  lemma CutReplyIsUnderstood(head: HttpLaws.Head, ss: seq<Sse>, blocks: seq<Block>, open: Block, rest: seq<byte>)
    requires HttpLaws.HeadOk(head) && (head.status == 200 || head.status == 201)
    requires forall s :: s in ss ==> SseOk(s)
    requires Important(EventsOf(ss)) == AllEvents(blocks) + Opening(open)
    requires forall i: nat :: !EventEndAt(rest, i)
    ensures var r := Finish(Feed(START, HttpLaws.HeadBytes(head) + (StreamBytes(ss) + rest)));
            var heard := blocks + if open.Words? then [open] else [];
            if Concat(WordsOf(heard)) == [] && CallsOf(heard) == [] then r == EmptyResponse
            else r.Replied? && Understood(r.turn, heard, Key("end_turn"))
  {
    HeadThenStream(head, StreamBytes(ss) + rest);
    BlocksDoNotStop(blocks);
    match open {
      case Words(pieces) => PiecesDoNotStop(pieces);
      case Call(_, _, input) => PiecesDoNotStop(input);
    }
    NoStops(ss);
    StreamDrained(ss, NOTHING, rest);
    CutEventsUnderstood(EventsOf(ss), blocks, open);
    hide After, Important, SseOk, StreamBytes, WordsOf, CallsOf, Concat, Key, HttpLaws.HeadOk, Opening, AllEvents;
    assert EventEndFrom(rest, 0) == None;
  }

  lemma CutEventsUnderstood(events: seq<Event>, blocks: seq<Block>, open: Block)
    requires Important(events) == AllEvents(blocks) + Opening(open)
    ensures Understood(After(NOTHING, events), blocks + (if open.Words? then [open] else []), Key("end_turn"))
  {
    hide *;
    EndsByDefault();
    AfterImportant(NOTHING, events);
    AfterAppend(NOTHING, AllEvents(blocks), Opening(open));
    BlocksHeard(NOTHING, blocks);
    var t := After(NOTHING, AllEvents(blocks));
    OpeningHeard(t, open);
    CutTurn(t, After(t, Opening(open)), blocks, open);
  }

  lemma EndsByDefault()
    ensures Key("end_turn") == NOTHING.stopReason && NOTHING.toolId == []
  {
  }

  lemma CutTurn(t: Turn, t': Turn, blocks: seq<Block>, open: Block)
    requires Gains(NOTHING, t, blocks)
    requires t' == match open {
                     case Words(pieces) => t.(tokens := t.tokens + pieces, text := t.text + Concat(pieces))
                     case Call(id, name, input) => t.(toolId := id, toolName := name, toolInput := Concat(input))
                   }
    ensures Understood(t', blocks + (if open.Words? then [open] else []), NOTHING.stopReason)
  {
    if open.Words? {
      LastBlock(blocks, open);
      ConcatAppend(WordsOf(blocks), open.pieces);
      hide WordsOf, CallsOf, Concat;
    } else {
      assert blocks + [] == blocks;
      hide WordsOf, CallsOf, Concat;
    }
  }

  lemma {:induction false} LastBlock(blocks: seq<Block>, b: Block)
    requires b.Words?
    ensures WordsOf(blocks + [b]) == WordsOf(blocks) + b.pieces && CallsOf(blocks + [b]) == CallsOf(blocks)
  {
    var all := blocks + [b];
    if blocks == [] {
      assert all == [b];
      OneBlock(b);
    } else {
      assert all[1..] == blocks[1..] + [b];
      LastBlock(blocks[1..], b);
    }
  }

  // ---- A server that prints its events ----

  function Index(index: nat): Member {
    Member(Key("index"), Plain(Number(Decimal(index))))
  }

  /** The document of an event of block `index`; an event that says nothing is the start of a text block. */
  function EventDoc(e: Event, index: nat): Doc {
    match e
    case TextPiece(t) =>
      Record([StrMember("type", Key("content_block_delta")), Index(index),
              Member(Key("delta"), Record([StrMember("type", Key("text_delta")), StrMember("text", t)]))])
    case CallStart(id, name) =>
      Record([StrMember("type", Key("content_block_start")), Index(index),
              Member(Key("content_block"), Record([StrMember("type", Key("tool_use")), StrMember("id", id), StrMember("name", name),
                                                   Member(Key("input"), Record([]))]))])
    case InputPiece(t) =>
      Record([StrMember("type", Key("content_block_delta")), Index(index),
              Member(Key("delta"), Record([StrMember("type", Key("input_json_delta")), StrMember("partial_json", t)]))])
    case BlockStop => Record([StrMember("type", Key("content_block_stop")), Index(index)])
    case StopReason(reason) =>
      Record([StrMember("type", Key("message_delta")),
              Member(Key("delta"), Record([StrMember("stop_reason", reason), Member(Key("stop_sequence"), Plain(Null))]))])
    case MessageStop => Record([StrMember("type", Key("message_stop"))])
    case Other =>
      Record([StrMember("type", Key("content_block_start")), Index(index),
              Member(Key("content_block"), Record([StrMember("type", Key("text")), StrMember("text", [])]))])
  }

  /** The printed event, after a line that names it. */
  function PrintedEvent(e: Event, index: nat): Sse {
    var json := Decode(Print(EventDoc(e, index)));
    Sse(Some(Key("event: message")), DataSpace, if json.Some? then json.value else [], e)
  }

  // Printed documents are one line of text.

  /** The encoding of a text without line breaks. */
  predicate OneLineBytes(s: seq<byte>) {
    Decode(s).Some? && 0x0A !in s && 0x0D !in s
  }

  lemma LinesJoin(a: seq<byte>, b: seq<byte>)
    requires OneLineBytes(a) && OneLineBytes(b)
    ensures OneLineBytes(a + b)
  {
    EncodeDecoded(a);
    EncodeDecoded(b);
    EncodeAppend(Decode(a).value, Decode(b).value);
    DecodeEncoded(Decode(a).value + Decode(b).value);
  }

  lemma EncodedLine(t: Text)
    requires HttpLaws.NoBreak(t)
    ensures OneLineBytes(Encode(t))
  {
    DecodeEncoded(t);
    EncodeAvoids(t, 0x0A);
    EncodeAvoids(t, 0x0D);
  }

  lemma AsciiLine(s: seq<byte>)
    requires forall i :: 0 <= i < |s| ==> s[i] < 0x80 && s[i] != 0x0A && s[i] != 0x0D
    ensures OneLineBytes(s)
  {
    var t: Text := seq(|s|, i requires 0 <= i < |s| => s[i] as scalar);
    EncodeAscii(t);
    assert Encode(t) == s;
    EncodedLine(t);
  }

  lemma {:induction false} EscapedLine(t: Text)
    ensures HttpLaws.NoBreak(Escape(t))
  {
    if t != [] {
      EscapedLine(t[1..]);
      assert HttpLaws.NoBreak(EscapeChar(t[0]));
    }
  }

  lemma QuotedLine(t: Text)
    ensures OneLineBytes(Quoted(t))
  {
    EscapedLine(t);
    EncodedLine(Escape(t));
    AsciiLine([0x22]);
    hide OneLineBytes, Encode, Escape;
    LinesJoin([0x22], Encode(Escape(t)));
    LinesJoin([0x22] + Encode(Escape(t)), [0x22]);
  }

  /** Documents of strings, plain numbers and the literals. */
  predicate TextDoc(d: Doc)
    decreases d
  {
    match d
    case Plain(v) => v.Number? ==> forall i :: 0 <= i < |v.lexeme| ==> 0x20 <= v.lexeme[i] < 0x80
    case Record(members) => forall m :: m in members ==> m.Member? && TextDoc(m.doc)
    case List(items) => forall d' :: d' in items ==> TextDoc(d')
    case _ => false
  }

  lemma {:induction false} PrintedIsLine(d: Doc)
    requires TextDoc(d)
    ensures OneLineBytes(Print(d))
    decreases d
  {
    hide OneLineBytes;
    match d {
      case Plain(v) => PlainIsLine(v);
      case Record(members) =>
        MembersAreLine(members);
        AsciiLine([0x7B]);
        AsciiLine([0x7D]);
        LinesJoin([0x7B], PrintMembers(members));
        LinesJoin([0x7B] + PrintMembers(members), [0x7D]);
      case List(items) =>
        ItemsAreLine(items);
        AsciiLine([0x5B]);
        AsciiLine([0x5D]);
        LinesJoin([0x5B], PrintItems(items));
        LinesJoin([0x5B] + PrintItems(items), [0x5D]);
    }
  }

  lemma PlainIsLine(v: JsonValue)
    requires TextDoc(Plain(v))
    ensures OneLineBytes(PrintPlain(v))
  {
    hide OneLineBytes;
    match v {
      case Str(t) => QuotedLine(t);
      case _ => AsciiLine(PrintPlain(v));
    }
  }

  lemma {:induction false} MembersAreLine(members: seq<Member>)
    requires forall m :: m in members ==> m.Member? && TextDoc(m.doc)
    ensures OneLineBytes(PrintMembers(members))
    decreases members
  {
    hide OneLineBytes, TextDoc, Print, Quoted;
    if members == [] {
      AsciiLine([]);
    } else {
      var m := members[0];
      PrintedIsLine(m.doc);
      QuotedLine(m.key);
      AsciiLine([0x3A]);
      LinesJoin(Quoted(m.key), [0x3A]);
      LinesJoin(Quoted(m.key) + [0x3A], Print(m.doc));
      if |members| > 1 {
        MembersAreLine(members[1..]);
        AsciiLine([0x2C]);
        LinesJoin(PrintMember(m), [0x2C]);
        LinesJoin(PrintMember(m) + [0x2C], PrintMembers(members[1..]));
      }
    }
  }

  lemma {:induction false} ItemsAreLine(items: seq<Doc>)
    requires forall d :: d in items ==> TextDoc(d)
    ensures OneLineBytes(PrintItems(items))
    decreases items
  {
    hide OneLineBytes, TextDoc, Print;
    if items == [] {
      AsciiLine([]);
    } else {
      PrintedIsLine(items[0]);
      if |items| > 1 {
        ItemsAreLine(items[1..]);
        AsciiLine([0x2C]);
        LinesJoin(Print(items[0]), [0x2C]);
        LinesJoin(Print(items[0]) + [0x2C], PrintItems(items[1..]));
      }
    }
  }

  /** The text of a printed record. */
  lemma RecordText(d: Doc)
    requires d.Record? && TextDoc(d)
    ensures var json := Decode(Print(d));
            && json.Some? && Encode(json.value) == Print(d) && HttpLaws.NoBreak(json.value)
            && json.value != [] && json.value[0] == 0x7B
  {
    PrintedIsLine(d);
    assert Print(d)[0] == 0x7B;
    EncodeDecoded(Print(d));
    hide Print, TextDoc, Encode, Decode;
    var t := Decode(Print(d)).value;
    NoText();
    FirstChar(t);
    LineOfBytes(t);
  }

  lemma NoText()
    ensures Encode([]) == []
  {
  }

  lemma LineOfBytes(t: Text)
    requires 0x0A !in Encode(t) && 0x0D !in Encode(t)
    ensures HttpLaws.NoBreak(t)
  {
    hide Encode;
    forall i | 0 <= i < |t|
      ensures t[i] != 0x0A && t[i] != 0x0D
    {
      if t[i] < 0x80 {
        CharIsEncoded(t, i);
      }
    }
  }

  lemma FirstChar(t: Text)
    requires t != []
    ensures Encode(t) != [] && (Encode(t)[0] < 0x80 ==> t[0] == Encode(t)[0])
  {
    DecodeFirstOfEncoded(t[0], []);
  }

  lemma {:induction false} CharIsEncoded(t: Text, i: nat)
    requires i < |t| && t[i] < 0x80
    ensures exists j :: 0 <= j < |Encode(t)| && Encode(t)[j] == t[i]
  {
    if i == 0 {
      assert Encode(t)[0] == t[0];
    } else {
      CharIsEncoded(t[1..], i - 1);
      var j :| 0 <= j < |Encode(t[1..])| && Encode(t[1..])[j] == t[i];
      assert Encode(t)[|EncodeScalar(t[0])| + j] == t[i];
    }
  }

  /** A printed event is the text of a document that says the event. */
  lemma PrintedEventOk(e: Event, index: nat)
    ensures SseOk(PrintedEvent(e, index)) && PrintedEvent(e, index).event == e
  {
    var d := EventDoc(e, index);
    EventDocOk(e, index);
    EventDocSays(e, index);
    assert d.Record?;
    PrefaceOk();
    hide EventDoc, Says, Key;
    RecordText(d);
    PrintedParses(d);
    hide Print, Encode, Decode, Json.Parse, DocOk, TextDoc, ValueOf;
  }

  lemma PrefaceOk()
    ensures HttpLaws.NoBreak(Key("event: message")) && !(Key("data:") <= Key("event: message"))
  {
    assert Key("data:")[0] != Key("event: message")[0];
  }

  lemma {:induction false} DecimalIsNumber(n: nat)
    ensures IsNumber(Decimal(n)) && forall i :: 0 <= i < |Decimal(n)| ==> 0x20 <= Decimal(n)[i] < 0x80
  {
    DecimalDigits(n);
    var l := Decimal(n);
    assert NumberParts(l, [], l, [], []);
  }

  lemma {:induction false} DecimalDigits(n: nat)
    ensures JsonLaws.AllDigits(Decimal(n)) && IsInt(Decimal(n)) && (n > 0 ==> Decimal(n)[0] != 0x30)
  {
    if n >= 10 {
      DecimalDigits(n / 10);
      DecimalDigits(n % 10);
    }
  }

  lemma MembersOk(members: seq<Member>)
    requires forall i :: 0 <= i < |members| ==> members[i].Member? && DocOk(members[i].doc) && TextDoc(members[i].doc)
    ensures DocOk(Record(members)) && TextDoc(Record(members))
  {
    forall m | m in members
      ensures m.Member? && DocOk(m.doc) && TextDoc(m.doc)
    {
      var i :| 0 <= i < |members| && members[i] == m;
    }
  }

  lemma PlainOk(index: nat)
    ensures DocOk(Index(index).doc) && TextDoc(Index(index).doc) && DocOk(Plain(Null)) && TextDoc(Plain(Null))
  {
    DecimalIsNumber(index);
  }

  lemma StrOk(key: string, t: Text)
    ensures StrMember(key, t).Member? && DocOk(StrMember(key, t).doc) && TextDoc(StrMember(key, t).doc)
  {
  }

  lemma EventDocOk(e: Event, index: nat)
    ensures DocOk(EventDoc(e, index)) && TextDoc(EventDoc(e, index))
  {
    PlainOk(index);
    hide DocOk, TextDoc, Key, StrMember, Index;
    match e {
      case TextPiece(t) => HolderOk("content_block_delta", index, "delta", [StrMember("type", Key("text_delta")), StrMember("text", t)]) by {
        StringsOk("type", Key("text_delta"), "text", t);
      }
      case CallStart(id, name) => CallDocOk(id, name, index);
      case InputPiece(t) =>
        HolderOk("content_block_delta", index, "delta", [StrMember("type", Key("input_json_delta")), StrMember("partial_json", t)]) by {
          StringsOk("type", Key("input_json_delta"), "partial_json", t);
        }
      case BlockStop =>
        StrOk("type", Key("content_block_stop"));
        IndexOk(index);
        MembersOk([StrMember("type", Key("content_block_stop")), Index(index)]);
      case StopReason(reason) => ReasonDocOk(reason);
      case MessageStop =>
        StrOk("type", Key("message_stop"));
        MembersOk([StrMember("type", Key("message_stop"))]);
      case Other => HolderOk("content_block_start", index, "content_block", [StrMember("type", Key("text")), StrMember("text", [])]) by {
        StringsOk("type", Key("text"), "text", []);
      }
    }
  }

  ghost predicate AllOk(members: seq<Member>) {
    forall i :: 0 <= i < |members| ==> members[i].Member? && DocOk(members[i].doc) && TextDoc(members[i].doc)
  }

  lemma StringsOk(a: string, s: Text, b: string, t: Text)
    ensures AllOk([StrMember(a, s), StrMember(b, t)])
  {
    hide DocOk, TextDoc, Key, StrMember;
    StrOk(a, s);
    StrOk(b, t);
  }

  lemma IndexOk(index: nat)
    ensures Index(index).Member? && DocOk(Index(index).doc) && TextDoc(Index(index).doc)
  {
    PlainOk(index);
    hide DocOk, TextDoc, Key, Decimal;
  }

  lemma HolderOk(kind: string, index: nat, outer: string, inner: seq<Member>)
    requires AllOk(inner)
    ensures var d := Record([StrMember("type", Key(kind)), Index(index), Member(Key(outer), Record(inner))]); DocOk(d) && TextDoc(d)
  {
    hide DocOk, TextDoc, Key, StrMember, Index;
    MembersOk(inner);
    StrOk("type", Key(kind));
    IndexOk(index);
    MembersOk([StrMember("type", Key(kind)), Index(index), Member(Key(outer), Record(inner))]);
  }

  lemma CallDocOk(id: Text, name: Text, index: nat)
    ensures var d := EventDoc(CallStart(id, name), index); DocOk(d) && TextDoc(d)
  {
    hide DocOk, TextDoc, Key, StrMember, Index;
    MembersOk([]);
    StrOk("type", Key("tool_use"));
    StrOk("id", id);
    StrOk("name", name);
    var inner := [StrMember("type", Key("tool_use")), StrMember("id", id), StrMember("name", name), Member(Key("input"), Record([]))];
    assert AllOk(inner);
    HolderOk("content_block_start", index, "content_block", inner);
  }

  lemma ReasonDocOk(reason: Text)
    ensures var d := EventDoc(StopReason(reason), 0); DocOk(d) && TextDoc(d)
  {
    PlainOk(0);
    hide DocOk, TextDoc, Key, StrMember;
    StrOk("stop_reason", reason);
    var inner := [StrMember("stop_reason", reason), Member(Key("stop_sequence"), Plain(Null))];
    MembersOk(inner);
    StrOk("type", Key("message_delta"));
    MembersOk([StrMember("type", Key("message_delta")), Member(Key("delta"), Record(inner))]);
  }

  lemma FieldsDiffer()
    ensures Key("delta") != Key("type") && Key("delta") != Key("index") && Key("type") != Key("index")
    ensures Key("content_block") != Key("type") && Key("content_block") != Key("index")
    ensures Key("text") != Key("type") && Key("partial_json") != Key("type") && Key("id") != Key("type")
    ensures Key("name") != Key("type") && Key("name") != Key("id") && Key("text") != Key("tool_use")
    ensures Key("stop_reason") != Key("stop_sequence")
  {
    assert |Key("type")| == 4 && |Key("delta")| == 5 && |Key("index")| == 5 && |Key("text")| == 4 && |Key("name")| == 4;
    assert Key("delta")[0] != Key("index")[0] && Key("text")[1] != Key("type")[1] && Key("name")[0] != Key("type")[0];
    assert |Key("stop_reason")| == 11 && |Key("stop_sequence")| == 13;
  }

  /** The fields of an event that holds a record. */
  lemma OuterSays(kind: Text, index: nat, outer: string, inner: Doc)
    requires Key(outer) != Key("type") && Key(outer) != Key("index") && Key("type") != Key("index")
    ensures var v := ValueOf(Record([StrMember("type", kind), Index(index), Member(Key(outer), inner)]));
            StrAt(v, "type") == Some(kind) && Get(v, Key(outer)) == Some(ValueOf(inner))
  {
    var members := [StrMember("type", kind), Index(index), Member(Key(outer), inner)];
    hide Key, Get, Decimal, ValueOf;
    GetAmong(members, Key("type"));
    GetAmong(members, Key(outer));
    PlainValue(Str(kind));
  }

  /** The string fields of a record. */
  lemma InnerSays(v: JsonValue, outer: string, a: string, s: Text, b: string, t: Text, more: seq<Member>)
    requires Key(a) != Key(b) && |more| <= 2
    requires Get(v, Key(outer)) == Some(ValueOf(Record([StrMember(a, s), StrMember(b, t)] + more)))
    ensures StrWithin(v, outer, a) == Some(s) && StrWithin(v, outer, b) == Some(t)
  {
    var members := [StrMember(a, s), StrMember(b, t)] + more;
    hide Key, Get, ValueOf;
    GetAmong(members, Key(a));
    GetAmong(members, Key(b));
    PlainValue(Str(s));
    PlainValue(Str(t));
  }

  lemma DeltaSays(index: nat, kind: Text, key: string, t: Text)
    requires Key(key) != Key("type")
    ensures var v := ValueOf(Record([StrMember("type", Key("content_block_delta")), Index(index),
                                     Member(Key("delta"), Record([StrMember("type", kind), StrMember(key, t)]))]));
            && StrAt(v, "type") == Some(Key("content_block_delta")) && StrWithin(v, "delta", "type") == Some(kind)
            && StrWithin(v, "delta", key) == Some(t)
  {
    FieldsDiffer();
    hide *;
    var inner := [StrMember("type", kind), StrMember(key, t)];
    OuterSays(Key("content_block_delta"), index, "delta", Record(inner));
    assert inner + [] == inner;
    InnerSays(ValueOf(Record([StrMember("type", Key("content_block_delta")), Index(index), Member(Key("delta"), Record(inner))])),
              "delta", "type", kind, key, t, []);
  }

  lemma CallSays(index: nat, id: Text, name: Text)
    ensures var v := ValueOf(EventDoc(CallStart(id, name), index));
            && StrAt(v, "type") == Some(Key("content_block_start"))
            && StrWithin(v, "content_block", "type") == Some(Key("tool_use"))
            && StrWithin(v, "content_block", "id") == Some(id) && StrWithin(v, "content_block", "name") == Some(name)
  {
    FieldsDiffer();
    var inner := [StrMember("type", Key("tool_use")), StrMember("id", id), StrMember("name", name), Member(Key("input"), Record([]))];
    var v := ValueOf(EventDoc(CallStart(id, name), index));
    hide Key, Get, ValueOf, StrMember, Index, StrAt;
    OuterSays(Key("content_block_start"), index, "content_block", Record(inner));
    InnerLookup(inner);
    hide *;
    StringsWithin(v, inner, id, name);
  }

  lemma InnerLookup(inner: seq<Member>)
    requires |inner| == 4
    ensures forall key: Text :: Get(ValueOf(Record(inner)), key) ==
              if KeyOf(inner[0]) == key then Some(ValueOf(inner[0].doc))
              else if KeyOf(inner[1]) == key then Some(ValueOf(inner[1].doc))
              else if KeyOf(inner[2]) == key then Some(ValueOf(inner[2].doc))
              else if KeyOf(inner[3]) == key then Some(ValueOf(inner[3].doc))
              else None
  {
    forall key: Text
      ensures Get(ValueOf(Record(inner)), key) ==
              if KeyOf(inner[0]) == key then Some(ValueOf(inner[0].doc))
              else if KeyOf(inner[1]) == key then Some(ValueOf(inner[1].doc))
              else if KeyOf(inner[2]) == key then Some(ValueOf(inner[2].doc))
              else if KeyOf(inner[3]) == key then Some(ValueOf(inner[3].doc))
              else None
    {
      hide Get, ValueOf, KeyOf;
      GetAmong(inner, key);
    }
  }

  lemma StringsWithin(v: JsonValue, inner: seq<Member>, id: Text, name: Text)
    requires |inner| == 4 && inner[0] == StrMember("type", Key("tool_use")) && inner[1] == StrMember("id", id)
    requires inner[2] == StrMember("name", name) && Get(v, Key("content_block")) == Some(ValueOf(Record(inner)))
    ensures StrWithin(v, "content_block", "type") == Some(Key("tool_use"))
    ensures StrWithin(v, "content_block", "id") == Some(id) && StrWithin(v, "content_block", "name") == Some(name)
  {
    FieldsDiffer();
    hide Key, Get, ValueOf;
    InnerLookup(inner);
    PlainValue(Str(Key("tool_use")));
    PlainValue(Str(id));
    PlainValue(Str(name));
  }

  lemma ReasonSays(reason: Text)
    ensures var v := ValueOf(EventDoc(StopReason(reason), 0));
            StrAt(v, "type") == Some(Key("message_delta")) && StrWithin(v, "delta", "stop_reason") == Some(reason)
  {
    FieldsDiffer();
    var inner := [StrMember("stop_reason", reason), Member(Key("stop_sequence"), Plain(Null))];
    var members := [StrMember("type", Key("message_delta")), Member(Key("delta"), Record(inner))];
    hide Key, Get, ValueOf;
    GetAmong(members, Key("type"));
    GetAmong(members, Key("delta"));
    GetAmong(inner, Key("stop_reason"));
    PlainValue(Str(Key("message_delta")));
    PlainValue(Str(reason));
  }

  /** An event that is only a kind. */
  lemma KindSays(kind: Text, index: nat)
    ensures StrAt(ValueOf(Record([StrMember("type", kind), Index(index)])), "type") == Some(kind)
    ensures StrAt(ValueOf(Record([StrMember("type", kind)])), "type") == Some(kind)
  {
    var m := StrMember("type", kind);
    hide Key, Get, ValueOf, Decimal;
    GetAmong([m, Index(index)], Key("type"));
    RecordValue([m]);
    GetIsGetMember([m], Key("type"));
    GetOne(m, Key("type"));
    PlainValue(Str(kind));
    GetOfObject(FieldsOf([m]), Key("type"));
  }

  lemma GetOfObject(fields: seq<Field>, key: Text)
    ensures Get(Object(fields), key) == GetField(fields, key)
  {
  }

  lemma TextStartSays(index: nat)
    ensures Says(ValueOf(EventDoc(Other, index)), Other)
  {
    FieldsDiffer();
    var inner := [StrMember("type", Key("text")), StrMember("text", [])];
    var v := ValueOf(EventDoc(Other, index));
    hide Key, Get, ValueOf, StrMember, Index, StrAt, StrWithin;
    OuterSays(Key("content_block_start"), index, "content_block", Record(inner));
    assert inner + [] == inner;
    InnerSays(v, "content_block", "type", Key("text"), "text", [], []);
  }

  lemma EventDocSays(e: Event, index: nat)
    ensures Says(ValueOf(EventDoc(e, index)), e)
  {
    FieldsDiffer();
    hide Key, ValueOf, StrAt, StrWithin, StrMember, Index;
    match e {
      case TextPiece(t) => DeltaSays(index, Key("text_delta"), "text", t);
      case CallStart(id, name) => CallSays(index, id, name);
      case InputPiece(t) => DeltaSays(index, Key("input_json_delta"), "partial_json", t);
      case BlockStop => KindSays(Key("content_block_stop"), index);
      case StopReason(reason) => ReasonSays(reason);
      case MessageStop => KindSays(Key("message_stop"), index);
      case Other => TextStartSays(index);
    }
  }

  // ---- The printed reply ----

  function PrintedEvents(events: seq<Event>, index: nat): seq<Sse> {
    if events == [] then [] else [PrintedEvent(events[0], index)] + PrintedEvents(events[1..], index)
  }

  /** Every block with its start and its end. */
  function PrintedBlocks(blocks: seq<Block>, index: nat): seq<Sse>
    decreases |blocks|
  {
    if blocks == [] then []
    else
      PrintedEvents((if blocks[0].Words? then [Other] else []) + BlockEvents(blocks[0]), index)
      + PrintedBlocks(blocks[1..], index + 1)
  }

  /** All events but the last. */
  function PrintedBefore(answer: Answer): seq<Sse> {
    PrintedBlocks(answer.blocks, 0) + [PrintedEvent(StopReason(answer.stopReason), 0)]
  }

  function PrintedStream(answer: Answer): seq<byte> {
    StreamBytes(PrintedBefore(answer)) + Encode(EventText(PrintedEvent(MessageStop, 0)))
  }

  lemma {:induction false} PrintedEventsOk(events: seq<Event>, index: nat)
    ensures var ss := PrintedEvents(events, index); (forall s :: s in ss ==> SseOk(s)) && EventsOf(ss) == events
  {
    hide SseOk, PrintedEvent;
    if events != [] {
      PrintedEventOk(events[0], index);
      PrintedEventsOk(events[1..], index);
      var ss := PrintedEvents(events, index);
      assert EventsOf(ss) == [ss[0].event] + EventsOf(ss[1..]);
    }
  }

  lemma {:induction false} ImportantAppend(a: seq<Event>, b: seq<Event>)
    ensures Important(a + b) == Important(a) + Important(b)
  {
    if a == [] {
      assert a + b == b;
    } else {
      assert (a + b)[1..] == a[1..] + b;
      ImportantAppend(a[1..], b);
    }
  }

  lemma {:induction false} PiecesImportant(pieces: seq<Text>)
    ensures Important(Pieces(pieces)) == Pieces(pieces) && Important(Inputs(pieces)) == Inputs(pieces)
  {
    if pieces != [] {
      PiecesImportant(pieces[1..]);
      assert Pieces(pieces)[1..] == Pieces(pieces[1..]) && Inputs(pieces)[1..] == Inputs(pieces[1..]);
    }
  }

  lemma BlockImportant(b: Block)
    ensures Important((if b.Words? then [Other] else []) + BlockEvents(b)) == BlockEvents(b)
  {
    One(BlockStop);
    One(Other);
    match b {
      case Words(pieces) =>
        PiecesImportant(pieces);
        ImportantAppend([Other], BlockEvents(b));
        ImportantAppend(Pieces(pieces), [BlockStop]);
      case Call(id, name, input) =>
        PiecesImportant(input);
        One(CallStart(id, name));
        ImportantAppend([CallStart(id, name)], Inputs(input));
        ImportantAppend([CallStart(id, name)] + Inputs(input), [BlockStop]);
        assert [] + BlockEvents(b) == BlockEvents(b);
    }
  }

  lemma One(e: Event)
    ensures Important([e]) == if e.Other? then [] else [e]
  {
    assert [e][1..] == [];
  }

  lemma {:induction false} PrintedBlocksOk(blocks: seq<Block>, index: nat)
    ensures var ss := PrintedBlocks(blocks, index);
            (forall s :: s in ss ==> SseOk(s)) && Important(EventsOf(ss)) == AllEvents(blocks)
    decreases |blocks|
  {
    hide SseOk, BlockEvents, PrintedEvents;
    if blocks == [] {
      assert EventsOf([]) == [];
    } else {
      var events := (if blocks[0].Words? then [Other] else []) + BlockEvents(blocks[0]);
      var a, b := PrintedEvents(events, index), PrintedBlocks(blocks[1..], index + 1);
      PrintedEventsOk(events, index);
      PrintedBlocksOk(blocks[1..], index + 1);
      BlockImportant(blocks[0]);
      assert EventsOf(a + b) == EventsOf(a) + EventsOf(b);
      ImportantAppend(EventsOf(a), EventsOf(b));
    }
  }

  /** Every reply survives being printed, sent behind a 200 head, and received. */
  lemma PrintedReplyIsUnderstood(head: HttpLaws.Head, answer: Answer, rest: seq<byte>)
    requires HttpLaws.HeadOk(head) && head.status == 200
    ensures var p := Feed(START, HttpLaws.HeadBytes(head) + (PrintedStream(answer) + rest));
            p.Stopped? && Finish(p) == Replied(p.turn) && Understood(p.turn, answer.blocks, answer.stopReason)
  {
    hide *;
    var ss, stop := PrintedBefore(answer), PrintedEvent(MessageStop, 0);
    PrintedBeforeOk(answer);
    PrintedEventOk(MessageStop, 0);
    PrintedStreamIs(answer);
    ReplyIsUnderstood(head, ss, stop, answer, rest);
    assert StreamBytes(ss) + Encode(EventText(stop)) + rest == StreamBytes(ss) + (Encode(EventText(stop)) + rest);
  }

  lemma PrintedStreamIs(answer: Answer)
    ensures PrintedStream(answer) == StreamBytes(PrintedBefore(answer)) + Encode(EventText(PrintedEvent(MessageStop, 0)))
  {
  }

  lemma PrintedBeforeOk(answer: Answer)
    ensures forall s :: s in PrintedBefore(answer) ==> SseOk(s)
    ensures Important(EventsOf(PrintedBefore(answer))) == AllEvents(answer.blocks) + [StopReason(answer.stopReason)]
  {
    var reason := StopReason(answer.stopReason);
    var blocks, last := PrintedBlocks(answer.blocks, 0), PrintedEvent(reason, 0);
    PrintedBlocksOk(answer.blocks, 0);
    PrintedEventOk(reason, 0);
    One(reason);
    hide SseOk, PrintedEvent, PrintedBlocks, Important, AllEvents;
    assert EventsOf(blocks + [last]) == EventsOf(blocks) + [reason];
    ImportantAppend(EventsOf(blocks), [reason]);
  }
}
