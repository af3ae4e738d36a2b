/** Building a request body, and that it says to the server what the caller meant. */
module ApiRequest {
  import opened Bits
  import opened Utf8
  import opened Json
  import opened JsonText
  import opened JsonLaws

  datatype ContentBlock =
    | TextBlock(text: Text)
    | ToolUse(id: Text, name: Text, inputJson: seq<byte>)
    | ToolResult(toolUseId: Text, content: Text, isError: bool)

  /** A message: plain content, or blocks when there are any. */
  datatype Message = Message(role: Text, content: Text, blocks: seq<ContentBlock>)

  /** The bytes of ASCII text written in a program. */
  function Ascii(s: string): (r: seq<byte>)
    ensures |r| == |s| && forall i :: 0 <= i < |s| ==> r[i] == (s[i] as int) % 128
  {
    seq(|s|, i requires 0 <= i < |s| => (s[i] as int) % 128)
  }

  /** The same as text. */
  function Key(s: string): (r: Text)
    ensures |r| == |s| && forall i :: 0 <= i < |s| ==> r[i] == (s[i] as int) % 128
  {
    seq(|s|, i requires 0 <= i < |s| => (s[i] as int) % 128)
  }

  /** An escaped text between quotes that are written separately. */
  function Escaped(t: Text): seq<byte> {
    Encode(Escape(t))
  }

  // ---- What the server should read ----

  function StrMember(key: string, t: Text): Member {
    Member(Key(key), Plain(Str(t)))
  }

  /** The value of the embedded tool input. */
  function InputOf(b: ContentBlock): JsonValue {
    if b.ToolUse? && Parse(b.inputJson).Ok? then Parse(b.inputJson).value else Null
  }

  function BlockDoc(b: ContentBlock): Doc {
    match b
    case TextBlock(text) => Record([StrMember("type", Key("text")), StrMember("text", text)])
    case ToolUse(id, name, inputJson) =>
      Record([StrMember("type", Key("tool_use")), StrMember("id", id), StrMember("name", name),
              Member(Key("input"), Embedded(inputJson, InputOf(b)))])
    case ToolResult(id, content, isError) =>
      if isError then
        Record([StrMember("type", Key("tool_result")), StrMember("tool_use_id", id),
                Member(Key("is_error"), Plain(Bool(true))), StrMember("content", content)])
      else
        Record([StrMember("type", Key("tool_result")), StrMember("tool_use_id", id), StrMember("content", content)])
  }

  function BlockDocs(blocks: seq<ContentBlock>): (r: seq<Doc>)
    ensures |r| == |blocks| && forall i :: 0 <= i < |r| ==> r[i] == BlockDoc(blocks[i])
  {
    seq(|blocks|, i requires 0 <= i < |blocks| => BlockDoc(blocks[i]))
  }

  function MessageDoc(m: Message): Doc {
    Record([StrMember("role", m.role),
            if m.blocks == [] then StrMember("content", m.content) else Member(Key("content"), List(BlockDocs(m.blocks)))])
  }

  function MessageDocs(messages: seq<Message>): (r: seq<Doc>)
    ensures |r| == |messages| && forall i :: 0 <= i < |r| ==> r[i] == MessageDoc(messages[i])
  {
    seq(|messages|, i requires 0 <= i < |messages| => MessageDoc(messages[i]))
  }

  /** The whole body; `tools` is the text of the tool definitions, if they are sent. */
  function BodyDoc(model: Text, system: Option<Text>, messages: seq<Message>, tools: Option<seq<byte>>): Doc {
    Record([StrMember("model", model), Member(Key("max_tokens"), Plain(Number(Ascii("4096")))),
            Member(Key("stream"), Plain(Bool(true)))]
           + (if system == None then [] else [StrMember("system", system.value)])
           + [Member(Key("messages"), List(MessageDocs(messages)))]
           + (if tools == None then [] else [Member(Key("tools"), Embedded(tools.value, ToolsValue(tools)))]))
  }

  function ToolsValue(tools: Option<seq<byte>>): JsonValue {
    if tools.Some? && Parse(tools.value).Ok? then Parse(tools.value).value else Null
  }

  // ---- What the code writes ----

  function BlockJson(b: ContentBlock): seq<byte> {
    match b
    case TextBlock(text) => Ascii("{\"type\":\"text\",\"text\":\"") + Escaped(text) + Ascii("\"}")
    case ToolUse(id, name, inputJson) =>
      Ascii("{\"type\":\"tool_use\",\"id\":\"") + Escaped(id) + Ascii("\",\"name\":\"") + Escaped(name)
      + Ascii("\",\"input\":") + inputJson + Ascii("}")
    case ToolResult(id, content, isError) =>
      if isError then
        Ascii("{\"type\":\"tool_result\",\"tool_use_id\":\"") + Escaped(id) + Ascii("\",\"is_error\":true,\"content\":\"")
        + Escaped(content) + Ascii("\"}")
      else
        Ascii("{\"type\":\"tool_result\",\"tool_use_id\":\"") + Escaped(id) + Ascii("\",\"content\":\"")
        + Escaped(content) + Ascii("\"}")
  }

  function BlocksJson(blocks: seq<ContentBlock>): seq<byte> {
    if blocks == [] then []
    else if |blocks| == 1 then BlockJson(blocks[0])
    else BlocksJson(blocks[..|blocks| - 1]) + Ascii(",") + BlockJson(blocks[|blocks| - 1])
  }

  function MessageJson(m: Message): seq<byte> {
    if m.blocks == [] then
      Ascii("{\"role\":\"") + Escaped(m.role) + Ascii("\",\"content\":\"") + Escaped(m.content) + Ascii("\"}")
    else
      Ascii("{\"role\":\"") + Escaped(m.role) + Ascii("\",\"content\":[") + BlocksJson(m.blocks) + Ascii("]}")
  }

  function MessagesJson(messages: seq<Message>): seq<byte> {
    if messages == [] then []
    else if |messages| == 1 then MessageJson(messages[0])
    else MessagesJson(messages[..|messages| - 1]) + Ascii(",") + MessageJson(messages[|messages| - 1])
  }

  function BodyJson(model: Text, system: Option<Text>, messages: seq<Message>, tools: Option<seq<byte>>): seq<byte> {
    var msgsJson := [0x5B] + MessagesJson(messages) + [0x5D];
    var toolsPart := if tools == None then [] else Ascii(",\"tools\":") + tools.value;
    if system == None then
      Ascii("{\"model\":\"") + Escaped(model) + Ascii("\",\"max_tokens\":4096,\"stream\":true,\"messages\":")
      + msgsJson + toolsPart + Ascii("}")
    else
      Ascii("{\"model\":\"") + Escaped(model) + Ascii("\",\"max_tokens\":4096,\"stream\":true,\"system\":\"")
      + Escaped(system.value) + Ascii("\",\"messages\":") + msgsJson + toolsPart + Ascii("}")
  }

  // ---- The pieces of the templates ----

  lemma AsciiAppend(a: string, b: string)
    ensures Ascii(a + b) == Ascii(a) + Ascii(b)
  {
  }

  predicate Safe(s: string) {
    forall i :: 0 <= i < |s| ==> ' ' <= s[i] <= '~' && s[i] != '"' && s[i] != '\\'
  }

  lemma {:induction false} EscapeNothing(t: Text)
    requires forall i :: 0 <= i < |t| ==> 0x20 <= t[i] && t[i] != 0x22 && t[i] != 0x5C
    ensures Escape(t) == t
  {
    if t != [] {
      EscapeNothing(t[1..]);
      assert t == [t[0]] + t[1..];
    }
  }

  lemma QuotedKey(s: string)
    requires Safe(s)
    ensures Escaped(Key(s)) == Ascii(s) && Quoted(Key(s)) == [0x22] + Ascii(s) + [0x22]
  {
    EscapeNothing(Key(s));
    EncodeAscii(Key(s));
    assert Encode(Key(s)) == Ascii(s);
  }

  /** How a string member is written. */
  lemma StrMemberPrinted(key: string, t: Text)
    requires Safe(key)
    ensures PrintMember(StrMember(key, t)) == [0x22] + Ascii(key) + [0x22, 0x3A, 0x22] + Escaped(t) + [0x22]
  {
    hide Escape, Encode;
    QuotedKey(key);
  }

  lemma KeysAreSafe()
    ensures Safe("role") && Safe("content") && Safe("type") && Safe("text") && Safe("id") && Safe("name") && Safe("input")
    ensures Safe("tool_use") && Safe("tool_result") && Safe("tool_use_id") && Safe("is_error")
    ensures Safe("model") && Safe("max_tokens") && Safe("stream") && Safe("system") && Safe("messages") && Safe("tools")
  {
    ShortKeysAreSafe();
    LongKeysAreSafe();
    hide Safe;
  }

  lemma ShortKeysAreSafe()
    ensures Safe("role") && Safe("content") && Safe("type") && Safe("text") && Safe("id") && Safe("name") && Safe("input")
    ensures Safe("model") && Safe("stream") && Safe("system") && Safe("tools")
  {
  }

  lemma LongKeysAreSafe()
    ensures Safe("tool_use") && Safe("tool_result") && Safe("tool_use_id") && Safe("is_error")
    ensures Safe("max_tokens") && Safe("messages")
  {
  }

  // ---- Printing small records ----

  lemma MoreMembers(m: Member, rest: seq<Member>)
    ensures rest != [] ==> PrintMembers([m] + rest) == PrintMember(m) + [0x2C] + PrintMembers(rest)
    ensures rest == [] ==> PrintMembers([m] + rest) == PrintMember(m)
  {
    hide PrintMember;
    assert ([m] + rest)[1..] == rest;
  }

  lemma TwoMembers(a: Member, b: Member)
    ensures Print(Record([a, b])) == [0x7B] + (PrintMember(a) + [0x2C] + PrintMember(b)) + [0x7D]
  {
    hide PrintMember, PrintMembers;
    MoreMembers(a, [b]);
    MoreMembers(b, []);
    assert [a] + [b] == [a, b] && [b] + [] == [b];
  }

  lemma ThreeMembers(a: Member, b: Member, c: Member)
    ensures Print(Record([a, b, c])) == [0x7B] + (PrintMember(a) + [0x2C] + (PrintMember(b) + [0x2C] + PrintMember(c))) + [0x7D]
  {
    hide PrintMember, PrintMembers;
    MoreMembers(a, [b, c]);
    MoreMembers(b, [c]);
    MoreMembers(c, []);
    assert [a] + [b, c] == [a, b, c] && [b] + [c] == [b, c] && [c] + [] == [c];
  }

  lemma FourMembers(a: Member, b: Member, c: Member, d: Member)
    ensures Print(Record([a, b, c, d]))
            == [0x7B] + (PrintMember(a) + [0x2C] + (PrintMember(b) + [0x2C] + (PrintMember(c) + [0x2C] + PrintMember(d)))) + [0x7D]
  {
    hide PrintMember, PrintMembers;
    MoreMembers(a, [b, c, d]);
    MoreMembers(b, [c, d]);
    MoreMembers(c, [d]);
    MoreMembers(d, []);
    assert [a] + [b, c, d] == [a, b, c, d] && [b] + [c, d] == [b, c, d] && [c] + [d] == [c, d] && [d] + [] == [d];
  }

  // ---- The templates are printed documents ----

  lemma TextBlockTemplate(text: seq<byte>)
    ensures Ascii("{\"type\":\"text\",\"text\":\"") + text + Ascii("\"}")
            == [0x7B] + ([0x22] + Ascii("type") + [0x22, 0x3A, 0x22] + Ascii("text") + [0x22]
                         + [0x2C] + ([0x22] + Ascii("text") + [0x22, 0x3A, 0x22] + text + [0x22])) + [0x7D]
  {
  }

  lemma TextBlockPrinted(text: Text)
    ensures BlockJson(TextBlock(text)) == Print(BlockDoc(TextBlock(text)))
  {
    hide Escaped, Print, PrintMember;
    KeysAreSafe();
    var a, b := StrMember("type", Key("text")), StrMember("text", text);
    TwoMembers(a, b);
    QuotedKey("text");
    StrMemberPrinted("type", Key("text"));
    StrMemberPrinted("text", text);
    hide StrMember, Safe;
    TextBlockTemplate(Escaped(text));
  }

  lemma ToolUseHead()
    ensures Ascii("{\"type\":\"tool_use\",\"id\":\"")
            == [0x7B] + ([0x22] + Ascii("type") + [0x22, 0x3A, 0x22] + Ascii("tool_use") + [0x22]) + [0x2C]
               + ([0x22] + Ascii("id") + [0x22, 0x3A, 0x22])
  {
  }

  lemma ToolUseMiddle()
    ensures Ascii("\",\"name\":\"") == [0x22] + [0x2C] + ([0x22] + Ascii("name") + [0x22, 0x3A, 0x22])
    ensures Ascii("\",\"input\":") == [0x22] + [0x2C] + ([0x22] + Ascii("input") + [0x22] + [0x3A])
    ensures Ascii("}") == [0x7D]
  {
  }

  /** Four members in a row: `h0 c h1 x q c h2 y q c h3 z`. */
  lemma FourInARow(o: seq<byte>, h0: seq<byte>, c: seq<byte>, h1: seq<byte>, x: seq<byte>, q: seq<byte>,
                   h2: seq<byte>, y: seq<byte>, h3: seq<byte>, z: seq<byte>, e: seq<byte>)
    ensures (o + h0 + c + h1) + x + (q + c + h2) + y + (q + c + h3) + z + e
            == o + (h0 + c + (h1 + x + q + c + (h2 + y + q + c + (h3 + z)))) + e
  {
    assert (h2 + y + q + c + (h3 + z)) == h2 + y + (q + c + h3) + z;
    assert (h1 + x + q + c + (h2 + y + (q + c + h3) + z)) == h1 + x + (q + c + h2) + y + (q + c + h3) + z;
  }

  lemma ToolUseTemplate(id: seq<byte>, name: seq<byte>, input: seq<byte>)
    ensures Ascii("{\"type\":\"tool_use\",\"id\":\"") + id + Ascii("\",\"name\":\"") + name + Ascii("\",\"input\":") + input + Ascii("}")
            == [0x7B] + ([0x22] + Ascii("type") + [0x22, 0x3A, 0x22] + Ascii("tool_use") + [0x22]
                         + [0x2C] + ([0x22] + Ascii("id") + [0x22, 0x3A, 0x22] + id + [0x22]
                         + [0x2C] + ([0x22] + Ascii("name") + [0x22, 0x3A, 0x22] + name + [0x22]
                         + [0x2C] + ([0x22] + Ascii("input") + [0x22] + [0x3A] + input)))) + [0x7D]
  {
    hide *;
    ToolUseHead();
    ToolUseMiddle();
    FourInARow([0x7B], [0x22] + Ascii("type") + [0x22, 0x3A, 0x22] + Ascii("tool_use") + [0x22], [0x2C],
               [0x22] + Ascii("id") + [0x22, 0x3A, 0x22], id, [0x22],
               [0x22] + Ascii("name") + [0x22, 0x3A, 0x22], name, [0x22] + Ascii("input") + [0x22] + [0x3A], input, [0x7D]);
  }

  lemma ToolUsePrinted(b: ContentBlock)
    requires b.ToolUse?
    ensures BlockJson(b) == Print(BlockDoc(b))
  {
    hide Escaped, Print, PrintMember;
    KeysAreSafe();
    var m0, m1, m2 := StrMember("type", Key("tool_use")), StrMember("id", b.id), StrMember("name", b.name);
    var m3 := Member(Key("input"), Embedded(b.inputJson, InputOf(b)));
    FourMembers(m0, m1, m2, m3);
    QuotedKey("tool_use");
    QuotedKey("input");
    StrMemberPrinted("type", Key("tool_use"));
    StrMemberPrinted("id", b.id);
    StrMemberPrinted("name", b.name);
    EmbeddedPrinted(Key("input"), b.inputJson, InputOf(b));
    hide StrMember, Safe, Key, Ascii, InputOf;
    ToolUseTemplate(Escaped(b.id), Escaped(b.name), b.inputJson);
  }

  lemma EmbeddedPrinted(key: Text, bytes: seq<byte>, v: JsonValue)
    ensures PrintMember(Member(key, Embedded(bytes, v))) == Quoted(key) + [0x3A] + bytes
  {
  }

  // Tool results

  lemma ToolResultHead()
    ensures Ascii("{\"type\":\"tool_result\",\"tool_use_id\":\"")
            == [0x7B] + ([0x22] + Ascii("type") + [0x22, 0x3A, 0x22] + Ascii("tool_result") + [0x22]) + [0x2C]
               + ([0x22] + Ascii("tool_use_id") + [0x22, 0x3A, 0x22])
  {
    assert "{\"type\":\"tool_result\",\"tool_use_id\":\"" == "{\"type\":\"" + "tool_result\",\"" + "tool_use_id\":\"";
    AsciiAppend("{\"type\":\"" + "tool_result\",\"", "tool_use_id\":\"");
    AsciiAppend("{\"type\":\"", "tool_result\",\"");
    ResultTypeText();
    hide *;
  }

  lemma ResultTypeText()
    ensures Ascii("{\"type\":\"") == [0x7B] + ([0x22] + Ascii("type") + [0x22, 0x3A, 0x22])
    ensures Ascii("tool_result\",\"") == Ascii("tool_result") + [0x22] + [0x2C] + [0x22]
    ensures Ascii("tool_use_id\":\"") == Ascii("tool_use_id") + [0x22, 0x3A, 0x22]
  {
  }

  lemma ErrorMiddle()
    ensures Ascii("\",\"is_error\":true,\"content\":\"")
            == [0x22] + [0x2C] + (([0x22] + Ascii("is_error") + [0x22] + [0x3A] + TRUE) + [0x2C] + ([0x22] + Ascii("content") + [0x22, 0x3A, 0x22]))
  {
    assert "\",\"is_error\":true,\"content\":\"" == "\",\"is_error\":true" + ",\"content\":\"";
    AsciiAppend("\",\"is_error\":true", ",\"content\":\"");
    ErrorText();
    hide *;
  }

  lemma ErrorText()
    ensures Ascii("\",\"is_error\":true") == [0x22] + [0x2C] + ([0x22] + Ascii("is_error") + [0x22] + [0x3A] + TRUE)
    ensures Ascii(",\"content\":\"") == [0x2C] + ([0x22] + Ascii("content") + [0x22, 0x3A, 0x22])
  {
  }

  /** Three members in a row, two of them strings. */
  lemma ThreeInARow(o: seq<byte>, h0: seq<byte>, c: seq<byte>, h1: seq<byte>, x: seq<byte>, q: seq<byte>,
                    h2: seq<byte>, z: seq<byte>, e: seq<byte>)
    ensures (o + h0 + c + h1) + x + (q + c + h2) + z + (q + e)
            == o + (h0 + c + (h1 + x + q + c + (h2 + z + q))) + e
  {
    assert (h1 + x + q + c + (h2 + z + q)) == h1 + x + (q + c + h2) + z + q;
  }

  lemma ToolResultPrinted(b: ContentBlock)
    requires b.ToolResult? && !b.isError
    ensures BlockJson(b) == Print(BlockDoc(b))
  {
    hide Escaped, Print, PrintMember, PrintMembers;
    KeysAreSafe();
    var m0, m1, m3 := StrMember("type", Key("tool_result")), StrMember("tool_use_id", b.toolUseId), StrMember("content", b.content);
    QuotedKey("tool_result");
    StrMemberPrinted("type", Key("tool_result"));
    StrMemberPrinted("tool_use_id", b.toolUseId);
    StrMemberPrinted("content", b.content);
    ThreeMembers(m0, m1, m3);
    ToolResultHead();
    MessageTemplates();
    var h1, h2 := [0x22] + Ascii("tool_use_id") + [0x22, 0x3A, 0x22], [0x22] + Ascii("content") + [0x22, 0x3A, 0x22];
    hide StrMember, Safe, Key, Ascii;
    ThreeInARow([0x7B], PrintMember(m0), [0x2C], h1, Escaped(b.toolUseId), [0x22], h2, Escaped(b.content), [0x7D]);
  }

  lemma ToolErrorPrinted(b: ContentBlock)
    requires b.ToolResult? && b.isError
    ensures BlockJson(b) == Print(BlockDoc(b))
  {
    hide Escaped, Print, PrintMember, PrintMembers;
    KeysAreSafe();
    var m0, m1, m3 := StrMember("type", Key("tool_result")), StrMember("tool_use_id", b.toolUseId), StrMember("content", b.content);
    var m2 := Member(Key("is_error"), Plain(Bool(true)));
    QuotedKey("tool_result");
    QuotedKey("is_error");
    StrMemberPrinted("type", Key("tool_result"));
    StrMemberPrinted("tool_use_id", b.toolUseId);
    StrMemberPrinted("content", b.content);
    TruePrinted(Key("is_error"));
    FourMembers(m0, m1, m2, m3);
    ToolResultHead();
    ErrorMiddle();
    MessageTemplates();
    var h1, h2 := [0x22] + Ascii("tool_use_id") + [0x22, 0x3A, 0x22], [0x22] + Ascii("content") + [0x22, 0x3A, 0x22];
    hide *;
    ThreeInARow([0x7B], PrintMember(m0), [0x2C], h1, Escaped(b.toolUseId), [0x22],
                PrintMember(m2) + [0x2C] + h2, Escaped(b.content), [0x7D]);
    Regroup(PrintMember(m2), [0x2C], h2, Escaped(b.content), [0x22]);
    ToolErrorIs(b);
  }

  lemma Regroup(a: seq<byte>, b: seq<byte>, c: seq<byte>, d: seq<byte>, e: seq<byte>)
    ensures a + b + (c + d + e) == a + b + c + d + e
  {
  }

  lemma ToolErrorIs(b: ContentBlock)
    requires b.ToolResult? && b.isError
    ensures BlockJson(b) == Ascii("{\"type\":\"tool_result\",\"tool_use_id\":\"") + Escaped(b.toolUseId)
                            + Ascii("\",\"is_error\":true,\"content\":\"") + Escaped(b.content) + Ascii("\"}")
    ensures BlockDoc(b) == Record([StrMember("type", Key("tool_result")), StrMember("tool_use_id", b.toolUseId),
                                   Member(Key("is_error"), Plain(Bool(true))), StrMember("content", b.content)])
  {
  }

  lemma TruePrinted(key: Text)
    ensures PrintMember(Member(key, Plain(Bool(true)))) == Quoted(key) + [0x3A] + TRUE
  {
  }

  lemma BlockPrinted(b: ContentBlock)
    ensures BlockJson(b) == Print(BlockDoc(b))
  {
    hide BlockJson, Print;
    match b {
      case TextBlock(text) => TextBlockPrinted(text);
      case ToolUse(_, _, _) => ToolUsePrinted(b);
      case ToolResult(_, _, isError) =>
        if isError { ToolErrorPrinted(b); } else { ToolResultPrinted(b); }
    }
  }

  // Lists

  lemma {:induction false} OneMoreItem(items: seq<Doc>, d: Doc)
    requires items != []
    ensures PrintItems(items + [d]) == PrintItems(items) + [0x2C] + Print(d)
  {
    hide Print;
    assert (items + [d])[1..] == items[1..] + [d];
    if |items| == 1 {
      assert items[1..] + [d] == [d];
      assert PrintItems([d]) == Print(d);
    } else {
      OneMoreItem(items[1..], d);
    }
  }

  lemma {:induction false} BlocksPrinted(blocks: seq<ContentBlock>)
    ensures BlocksJson(blocks) == PrintItems(BlockDocs(blocks))
  {
    hide Print, BlockJson, BlockDoc;
    if blocks != [] {
      var n := |blocks| - 1;
      BlockPrinted(blocks[n]);
      if n > 0 {
        BlocksPrinted(blocks[..n]);
        OneMoreItem(BlockDocs(blocks[..n]), BlockDoc(blocks[n]));
        assert BlockDocs(blocks) == BlockDocs(blocks[..n]) + [BlockDoc(blocks[n])];
      }
    }
  }

  lemma MessageTemplates()
    ensures Ascii("{\"role\":\"") == [0x7B] + ([0x22] + Ascii("role") + [0x22, 0x3A, 0x22])
    ensures Ascii("\",\"content\":\"") == [0x22] + [0x2C] + ([0x22] + Ascii("content") + [0x22, 0x3A, 0x22])
    ensures Ascii("\",\"content\":[") == [0x22] + [0x2C] + ([0x22] + Ascii("content") + [0x22] + [0x3A]) + [0x5B]
    ensures Ascii("\"}") == [0x22] + [0x7D] && Ascii("]}") == [0x5D] + [0x7D]
  {
  }

  lemma TwoInARow(o: seq<byte>, h1: seq<byte>, x: seq<byte>, q: seq<byte>, c: seq<byte>, h2: seq<byte>, y: seq<byte>, z: seq<byte>, e: seq<byte>)
    ensures (o + h1) + x + (q + c + h2) + y + (z + e) == o + (h1 + x + q + c + (h2 + y + z)) + e
    ensures (o + h1) + x + (q + c + h2 + y) + z + e == o + (h1 + x + q + c + (h2 + y + z)) + e
  {
  }

  lemma MessagePrinted(m: Message)
    ensures MessageJson(m) == Print(MessageDoc(m))
  {
    hide Escaped, PrintMember, PrintMembers, Print, BlocksJson, PrintItems;
    KeysAreSafe();
    var role, content := StrMember("role", m.role), StrMember("content", m.content);
    var list := Member(Key("content"), List(BlockDocs(m.blocks)));
    StrMemberPrinted("role", m.role);
    StrMemberPrinted("content", m.content);
    QuotedKey("content");
    ListPrinted(Key("content"), BlockDocs(m.blocks));
    TwoMembers(role, content);
    TwoMembers(role, list);
    BlocksPrinted(m.blocks);
    MessageTemplates();
    hide StrMember, Safe, Key, Ascii;
    var h1, h2 := [0x22] + Ascii("role") + [0x22, 0x3A, 0x22], [0x22] + Ascii("content") + [0x22, 0x3A, 0x22];
    var h3 := [0x22] + Ascii("content") + [0x22] + [0x3A];
    TwoInARow([0x7B], h1, Escaped(m.role), [0x22], [0x2C], h2, Escaped(m.content), [0x22], [0x7D]);
    TwoInARow([0x7B], h1, Escaped(m.role), [0x22], [0x2C], h3, [0x5B], BlocksJson(m.blocks) + [0x5D], [0x7D]);
    ListTail(Escaped(m.role), h1, h3, BlocksJson(m.blocks));
  }

  lemma ListTail(role: seq<byte>, h1: seq<byte>, h3: seq<byte>, blocks: seq<byte>)
    ensures ([0x7B] + h1) + role + ([0x22] + [0x2C] + h3 + [0x5B]) + blocks + ([0x5D] + [0x7D])
            == [0x7B] + (h1 + role + [0x22] + [0x2C] + (h3 + ([0x5B] + blocks + [0x5D]))) + [0x7D]
  {
  }

  lemma ListPrinted(key: Text, items: seq<Doc>)
    ensures PrintMember(Member(key, List(items))) == Quoted(key) + [0x3A] + ([0x5B] + PrintItems(items) + [0x5D])
  {
  }

  lemma {:induction false} MessagesPrinted(messages: seq<Message>)
    ensures MessagesJson(messages) == PrintItems(MessageDocs(messages))
  {
    hide Print, MessageJson, MessageDoc;
    if messages != [] {
      var n := |messages| - 1;
      MessagePrinted(messages[n]);
      if n > 0 {
        MessagesPrinted(messages[..n]);
        OneMoreItem(MessageDocs(messages[..n]), MessageDoc(messages[n]));
        assert MessageDocs(messages) == MessageDocs(messages[..n]) + [MessageDoc(messages[n])];
      }
    }
  }

  // The body

  lemma ModelHead()
    ensures Ascii("{\"model\":\"") == [0x7B] + ([0x22] + Ascii("model") + [0x22, 0x3A, 0x22])
    ensures Ascii(",\"stream\":true") == [0x2C] + ([0x22] + Ascii("stream") + [0x22] + [0x3A] + TRUE)
  {
  }

  lemma MaxTokensText()
    ensures Ascii("\",\"max_tokens\":4096") == [0x22] + [0x2C] + ([0x22] + Ascii("max_tokens") + [0x22] + [0x3A] + Ascii("4096"))
  {
  }

  lemma SystemText()
    ensures Ascii(",\"system\":\"") == [0x2C] + ([0x22] + Ascii("system") + [0x22, 0x3A, 0x22])
  {
  }

  lemma MessagesText()
    ensures Ascii(",\"messages\":") == [0x2C] + ([0x22] + Ascii("messages") + [0x22] + [0x3A])
    ensures Ascii("\",\"messages\":") == [0x22] + Ascii(",\"messages\":")
  {
  }

  lemma ToolsText()
    ensures Ascii(",\"tools\":") == [0x2C] + ([0x22] + Ascii("tools") + [0x22] + [0x3A])
    ensures Ascii("}") == [0x7D]
  {
  }

  lemma BodyMiddles()
    ensures Ascii("\",\"max_tokens\":4096,\"stream\":true,\"system\":\"")
            == Ascii("\",\"max_tokens\":4096") + Ascii(",\"stream\":true") + Ascii(",\"system\":\"")
    ensures Ascii("\",\"max_tokens\":4096,\"stream\":true,\"messages\":")
            == Ascii("\",\"max_tokens\":4096") + Ascii(",\"stream\":true") + Ascii(",\"messages\":")
  {
    var a, b, c, d := "\",\"max_tokens\":4096", ",\"stream\":true", ",\"system\":\"", ",\"messages\":";
    assert "\",\"max_tokens\":4096,\"stream\":true,\"system\":\"" == a + b + c;
    assert "\",\"max_tokens\":4096,\"stream\":true,\"messages\":" == a + b + d;
    AsciiAppend(a + b, c);
    AsciiAppend(a + b, d);
    AsciiAppend(a, b);
  }

  /** The members after the first three, printed with a comma in front of each. */
  function TailMembers(system: Option<Text>, messages: seq<Message>, tools: Option<seq<byte>>): seq<Member> {
    (if system == None then [] else [StrMember("system", system.value)])
    + [Member(Key("messages"), List(MessageDocs(messages)))]
    + (if tools == None then [] else [Member(Key("tools"), Embedded(tools.value, ToolsValue(tools)))])
  }

  function WithCommas(members: seq<Member>): seq<byte> {
    if members == [] then [] else [0x2C] + PrintMember(members[0]) + WithCommas(members[1..])
  }

  lemma {:induction false} PrintedWithCommas(m: Member, rest: seq<Member>)
    ensures PrintMembers([m] + rest) == PrintMember(m) + WithCommas(rest)
    decreases |rest|
  {
    hide PrintMember, PrintMembers;
    MoreMembers(m, rest);
    if rest != [] {
      PrintedWithCommas(rest[0], rest[1..]);
      assert [rest[0]] + rest[1..] == rest;
    }
  }

  lemma {:induction false} CommasAppend(a: seq<Member>, b: seq<Member>)
    ensures WithCommas(a + b) == WithCommas(a) + WithCommas(b)
  {
    hide PrintMember;
    if a == [] {
      assert a + b == b;
    } else {
      assert (a + b)[1..] == a[1..] + b;
      CommasAppend(a[1..], b);
    }
  }

  lemma OneComma(m: Member)
    ensures WithCommas([m]) == [0x2C] + PrintMember(m)
  {
    assert [m][1..] == [];
  }

  /** System, messages and tools, each with the comma before it. */
  lemma TailPrinted(system: Option<Text>, messages: seq<Message>, tools: Option<seq<byte>>)
    ensures WithCommas(TailMembers(system, messages, tools))
            == (if system == None then [] else Ascii(",\"system\":\"") + Escaped(system.value) + [0x22])
               + (Ascii(",\"messages\":") + ([0x5B] + MessagesJson(messages) + [0x5D]))
               + (if tools == None then [] else Ascii(",\"tools\":") + tools.value)
  {
    var m := Member(Key("messages"), List(MessageDocs(messages)));
    var t := if tools == None then [] else [Member(Key("tools"), Embedded(tools.value, ToolsValue(tools)))];
    var s := if system == None then [] else [StrMember("system", system.value)];
    TailIs(system, messages, tools, s, m, t);
    hide *;
    SystemTail(system);
    MessagesTail(messages);
    ToolsTail(tools);
    CommasAppend(s + [m], t);
    CommasAppend(s, [m]);
  }

  lemma SystemTail(system: Option<Text>)
    ensures WithCommas(if system == None then [] else [StrMember("system", system.value)])
            == if system == None then [] else Ascii(",\"system\":\"") + Escaped(system.value) + [0x22]
  {
    KeysAreSafe();
    SystemText();
    NoCommas();
    hide Ascii, Escaped, PrintMember, StrMember, Safe, WithCommas;
    if system.Some? {
      StrMemberPrinted("system", system.value);
      OneComma(StrMember("system", system.value));
    }
  }

  lemma MessagesTail(messages: seq<Message>)
    ensures WithCommas([Member(Key("messages"), List(MessageDocs(messages)))])
            == Ascii(",\"messages\":") + ([0x5B] + MessagesJson(messages) + [0x5D])
  {
    KeysAreSafe();
    hide *;
    MessagesText();
    QuotedKey("messages");
    ListPrinted(Key("messages"), MessageDocs(messages));
    MessagesPrinted(messages);
    OneComma(Member(Key("messages"), List(MessageDocs(messages))));
    Regrouped([0x2C], [0x22] + Ascii("messages") + [0x22], [0x3A], [0x5B] + MessagesJson(messages) + [0x5D]);
  }

  lemma Regrouped(a: seq<byte>, b: seq<byte>, c: seq<byte>, d: seq<byte>)
    ensures a + (b + c + d) == a + (b + c) + d
  {
  }

  lemma ToolsTail(tools: Option<seq<byte>>)
    ensures WithCommas(if tools == None then [] else [Member(Key("tools"), Embedded(tools.value, ToolsValue(tools)))])
            == if tools == None then [] else Ascii(",\"tools\":") + tools.value
  {
    KeysAreSafe();
    ToolsText();
    NoCommas();
    hide *;
    QuotedKey("tools");
    if tools.Some? {
      EmbeddedPrinted(Key("tools"), tools.value, ToolsValue(tools));
      OneComma(Member(Key("tools"), Embedded(tools.value, ToolsValue(tools))));
      Regrouped([0x2C], [0x22] + Ascii("tools") + [0x22], [0x3A], tools.value);
    }
  }

  lemma NoCommas()
    ensures WithCommas([]) == []
  {
  }

  lemma TailIs(system: Option<Text>, messages: seq<Message>, tools: Option<seq<byte>>, s: seq<Member>, m: Member, t: seq<Member>)
    requires m == Member(Key("messages"), List(MessageDocs(messages)))
    requires t == if tools == None then [] else [Member(Key("tools"), Embedded(tools.value, ToolsValue(tools)))]
    requires s == if system == None then [] else [StrMember("system", system.value)]
    ensures TailMembers(system, messages, tools) == s + [m] + t
  {
  }

  /** The body is the printed document. */
  lemma BodyPrinted(model: Text, system: Option<Text>, messages: seq<Message>, tools: Option<seq<byte>>)
    ensures BodyJson(model, system, messages, tools) == Print(BodyDoc(model, system, messages, tools))
  {
    var m0, m1 := StrMember("model", model), Member(Key("max_tokens"), Plain(Number(Ascii("4096"))));
    var m2, tail := Member(Key("stream"), Plain(Bool(true))), TailMembers(system, messages, tools);
    FirstThree(model);
    TailPrinted(system, messages, tools);
    PrintedWithCommas(m0, [m1, m2] + tail);
    CommasAppend([m1, m2], tail);
    CommasAppend([m1], [m2]);
    assert [m1] + [m2] == [m1, m2];
    OneComma(m1);
    OneComma(m2);
    MessagesText();
    ToolsText();
    BodyMiddles();
    BodyDocIs(model, system, messages, tools, [m0] + ([m1, m2] + tail));
    hide *;
    RecordPrinted([m0] + ([m1, m2] + tail));
    BodyJsonIs(model, system, messages, tools);
    var hm := [0x22] + Ascii("model") + [0x22, 0x3A, 0x22];
    var toolsPart := if tools == None then [] else Ascii(",\"tools\":") + tools.value;
    var ms := [0x5B] + MessagesJson(messages) + [0x5D];
    if system == None {
      AssembleWithout([0x7B], hm, Escaped(model), [0x22], [0x2C], PrintMember(m1), PrintMember(m2),
                      Ascii(",\"messages\":"), ms, toolsPart, [0x7D]);
    } else {
      AssembleWith([0x7B], hm, Escaped(model), [0x22], [0x2C], PrintMember(m1), PrintMember(m2),
                   Ascii(",\"system\":\""), Escaped(system.value), Ascii(",\"messages\":"), ms, toolsPart, [0x7D]);
    }
  }

  lemma FirstThree(model: Text)
    ensures Ascii("{\"model\":\"") == [0x7B] + ([0x22] + Ascii("model") + [0x22, 0x3A, 0x22])
    ensures PrintMember(StrMember("model", model)) == [0x22] + Ascii("model") + [0x22, 0x3A, 0x22] + Escaped(model) + [0x22]
    ensures Ascii("\",\"max_tokens\":4096") == [0x22] + [0x2C] + PrintMember(Member(Key("max_tokens"), Plain(Number(Ascii("4096")))))
    ensures Ascii(",\"stream\":true") == [0x2C] + PrintMember(Member(Key("stream"), Plain(Bool(true))))
  {
    KeysAreSafe();
    ModelHead();
    MaxTokensText();
    hide Ascii, Key, PrintMember, Safe, StrMember, Escaped;
    QuotedKey("max_tokens");
    QuotedKey("stream");
    StrMemberPrinted("model", model);
    TruePrinted(Key("stream"));
    NumberPrinted(Key("max_tokens"), Ascii("4096"));
  }

  lemma AssembleWithout(o: seq<byte>, hm: seq<byte>, model: seq<byte>, q: seq<byte>, c: seq<byte>, a: seq<byte>, b: seq<byte>,
                        m: seq<byte>, ms: seq<byte>, t: seq<byte>, e: seq<byte>)
    ensures (o + hm) + model + ((q + c + a) + (c + b) + m) + ms + t + e
            == o + ((hm + model + q) + ((c + a) + (c + b) + ([] + (m + ms) + t))) + e
  {
    assert [] + (m + ms) + t == m + ms + t;
    assert (hm + model + q) + ((c + a) + (c + b) + (m + ms + t)) == hm + model + ((q + c + a) + (c + b) + m) + ms + t;
  }

  lemma AssembleWith(o: seq<byte>, hm: seq<byte>, model: seq<byte>, q: seq<byte>, c: seq<byte>, a: seq<byte>, b: seq<byte>,
                     s: seq<byte>, sys: seq<byte>, m: seq<byte>, ms: seq<byte>, t: seq<byte>, e: seq<byte>)
    ensures (o + hm) + model + ((q + c + a) + (c + b) + s + sys + (q + m)) + ms + t + e
            == o + ((hm + model + q) + ((c + a) + (c + b) + ((s + sys + q) + (m + ms) + t))) + e
  {
    assert (hm + model + q) + ((c + a) + (c + b) + ((s + sys + q) + (m + ms) + t))
           == hm + model + ((q + c + a) + (c + b) + s + sys + (q + m)) + ms + t;
  }

  lemma NumberPrinted(key: Text, lexeme: seq<byte>)
    ensures PrintMember(Member(key, Plain(Number(lexeme)))) == Quoted(key) + [0x3A] + lexeme
  {
  }

  lemma RecordPrinted(members: seq<Member>)
    ensures Print(Record(members)) == [0x7B] + PrintMembers(members) + [0x7D]
  {
  }

  lemma BodyDocIs(model: Text, system: Option<Text>, messages: seq<Message>, tools: Option<seq<byte>>, members: seq<Member>)
    requires members == [StrMember("model", model)]
                        + ([Member(Key("max_tokens"), Plain(Number(Ascii("4096")))), Member(Key("stream"), Plain(Bool(true)))]
                           + TailMembers(system, messages, tools))
    ensures BodyDoc(model, system, messages, tools) == Record(members)
  {
    hide StrMember, MessageDocs, Key, Ascii, ToolsValue;
    var a, b := StrMember("model", model), Member(Key("max_tokens"), Plain(Number(Ascii("4096"))));
    var c := Member(Key("stream"), Plain(Bool(true)));
    assert [a] + [b, c] == [a, b, c];
  }

  /** The body with its optional parts as they are written. */
  lemma BodyJsonIs(model: Text, system: Option<Text>, messages: seq<Message>, tools: Option<seq<byte>>)
    ensures BodyJson(model, system, messages, tools)
            == Ascii("{\"model\":\"") + Escaped(model)
               + (if system == None then Ascii("\",\"max_tokens\":4096,\"stream\":true,\"messages\":")
                  else Ascii("\",\"max_tokens\":4096,\"stream\":true,\"system\":\"") + Escaped(system.value) + Ascii("\",\"messages\":"))
               + ([0x5B] + MessagesJson(messages) + [0x5D])
               + (if tools == None then [] else Ascii(",\"tools\":") + tools.value) + Ascii("}")
  {
    hide Ascii, Escaped, MessagesJson;
  }

  // ---- The server reads what was meant ----

  /** `JsonValue::get`: the first field of that name. */
  function Get(v: JsonValue, key: Text): Option<JsonValue> {
    if v.Object? then GetField(v.fields, key) else None
  }

  function GetField(fields: seq<Field>, key: Text): Option<JsonValue> {
    if fields == [] then None
    else if fields[0].key == key then Some(fields[0].value)
    else GetField(fields[1..], key)
  }

  ghost predicate SaysBlock(v: JsonValue, b: ContentBlock) {
    match b
    case TextBlock(text) =>
      Get(v, Key("type")) == Some(Str(Key("text"))) && Get(v, Key("text")) == Some(Str(text))
    case ToolUse(id, name, inputJson) =>
      && Get(v, Key("type")) == Some(Str(Key("tool_use"))) && Get(v, Key("id")) == Some(Str(id))
      && Get(v, Key("name")) == Some(Str(name))
      && Get(v, Key("input")).Some? && Parse(inputJson) == Ok(Get(v, Key("input")).value, [])
    case ToolResult(id, content, isError) =>
      && Get(v, Key("type")) == Some(Str(Key("tool_result"))) && Get(v, Key("tool_use_id")) == Some(Str(id))
      && Get(v, Key("content")) == Some(Str(content))
      && Get(v, Key("is_error")) == if isError then Some(Bool(true)) else None
  }

  ghost predicate SaysMessage(v: JsonValue, m: Message) {
    && Get(v, Key("role")) == Some(Str(m.role))
    && var content := Get(v, Key("content"));
    if m.blocks == [] then content == Some(Str(m.content))
    else
      && content.Some? && content.value.Array? && |content.value.items| == |m.blocks|
      && forall i :: 0 <= i < |m.blocks| ==> SaysBlock(content.value.items[i], m.blocks[i])
  }

  ghost predicate SaysRequest(v: JsonValue, model: Text, system: Option<Text>, messages: seq<Message>, tools: Option<seq<byte>>) {
    && Get(v, Key("model")) == Some(Str(model))
    && Get(v, Key("max_tokens")) == Some(Number(Ascii("4096"))) && Get(v, Key("stream")) == Some(Bool(true))
    && Get(v, Key("system")) == (if system == None then None else Some(Str(system.value)))
    && (if tools == None then Get(v, Key("tools")) == None
        else Get(v, Key("tools")).Some? && Parse(tools.value) == Ok(Get(v, Key("tools")).value, []))
    && var ms := Get(v, Key("messages"));
    && ms.Some? && ms.value.Array? && |ms.value.items| == |messages|
    && forall i :: 0 <= i < |messages| ==> SaysMessage(ms.value.items[i], messages[i])
  }

  /** Every tool input, and the tool definitions, are JSON documents. */
  predicate InputsParse(messages: seq<Message>, tools: Option<seq<byte>>) {
    && (forall m, b :: m in messages && b in m.blocks && b.ToolUse? ==> Parse(b.inputJson).Ok?)
    && (tools.Some? ==> Parse(tools.value).Ok?)
  }

  lemma KeysDiffer()
    ensures Key("model") != Key("max_tokens") && Key("max_tokens") != Key("stream") && Key("stream") != Key("model")
    ensures Key("messages") != Key("model") && Key("messages") != Key("max_tokens") && Key("messages") != Key("stream")
    ensures Key("tools") != Key("model") && Key("tools") != Key("max_tokens") && Key("tools") != Key("stream")
    ensures Key("system") != Key("model") && Key("system") != Key("max_tokens") && Key("system") != Key("stream")
    ensures Key("system") != Key("messages") && Key("system") != Key("tools") && Key("messages") != Key("tools")
  {
    assert |Key("model")| == 5 && |Key("max_tokens")| == 10 && |Key("stream")| == 6 && |Key("system")| == 6 && |Key("tools")| == 5;
    assert Key("stream")[1] != Key("system")[1] && Key("model")[0] != Key("tools")[0];
  }

  lemma BlockKeysDiffer()
    ensures Key("type") != Key("text") && Key("type") != Key("id") && Key("type") != Key("name") && Key("id") != Key("name")
    ensures Key("input") != Key("type") && Key("input") != Key("id") && Key("input") != Key("name")
    ensures Key("tool_use_id") != Key("type") && Key("content") != Key("type") && Key("content") != Key("tool_use_id")
    ensures Key("is_error") != Key("type") && Key("is_error") != Key("tool_use_id") && Key("is_error") != Key("content")
    ensures Key("role") != Key("content")
  {
    assert |Key("type")| == 4 && |Key("text")| == 4 && |Key("name")| == 4;
    assert Key("type")[1] != Key("text")[1] && Key("type")[0] != Key("name")[0];
  }

  /** Looking a key up among members. */
  function GetMember(members: seq<Member>, key: Text): Option<JsonValue> {
    if members == [] then None
    else if KeyOf(members[0]) == key then Some(ValueOf(members[0].doc))
    else GetMember(members[1..], key)
  }

  lemma {:induction false} GetIsGetMember(members: seq<Member>, key: Text)
    ensures GetField(FieldsOf(members), key) == GetMember(members, key)
  {
    if members != [] {
      GetIsGetMember(members[1..], key);
      assert FieldsOf(members)[1..] == FieldsOf(members[1..]);
    }
  }

  lemma {:induction false} GetMemberAppend(a: seq<Member>, b: seq<Member>, key: Text)
    ensures GetMember(a + b, key) == if GetMember(a, key).Some? then GetMember(a, key) else GetMember(b, key)
  {
    if a == [] {
      assert a + b == b;
    } else {
      assert (a + b)[1..] == a[1..] + b;
      GetMemberAppend(a[1..], b, key);
    }
  }

  /** Looking a key up in a record of up to four members. */
  lemma GetOne(a: Member, key: Text)
    ensures GetMember([a], key) == if KeyOf(a) == key then Some(ValueOf(a.doc)) else None
  {
  }

  lemma GetAmong(members: seq<Member>, key: Text)
    requires 2 <= |members| <= 4
    ensures Get(ValueOf(Record(members)), key) ==
            if KeyOf(members[0]) == key then Some(ValueOf(members[0].doc))
            else if KeyOf(members[1]) == key then Some(ValueOf(members[1].doc))
            else if |members| > 2 && KeyOf(members[2]) == key then Some(ValueOf(members[2].doc))
            else if |members| > 3 && KeyOf(members[3]) == key then Some(ValueOf(members[3].doc))
            else None
  {
    hide ValueOf, FieldsOf, GetMember;
    RecordValue(members);
    GetIsGetMember(members, key);
    var r1, r2 := members[1..], members[2..];
    GetStep(members, key);
    GetStep(r1, key);
    assert r1[1..] == r2;
    GetStep(r2, key);
    if |members| > 2 {
      var r3 := r2[1..];
      GetStep(r3, key);
      if |members| > 3 {
        GetStep(r3[1..], key);
      }
    }
  }

  lemma GetStep(members: seq<Member>, key: Text)
    ensures GetMember(members, key) ==
            if members == [] then None
            else if KeyOf(members[0]) == key then Some(ValueOf(members[0].doc))
            else GetMember(members[1..], key)
  {
  }

  lemma RecordValue(members: seq<Member>)
    ensures ValueOf(Record(members)) == Object(FieldsOf(members))
  {
  }

  lemma {:induction false} ValuesAre(items: seq<Doc>)
    ensures |ValuesOf(items)| == |items| && forall i :: 0 <= i < |items| ==> ValuesOf(items)[i] == ValueOf(items[i])
  {
    if items != [] {
      ValuesAre(items[1..]);
    }
  }

  lemma BlockIsSaid(b: ContentBlock)
    requires b.ToolUse? ==> Parse(b.inputJson).Ok?
    ensures DocOk(BlockDoc(b)) && SaysBlock(ValueOf(BlockDoc(b)), b)
  {
    match b {
      case TextBlock(_) => TextIsSaid(b);
      case ToolUse(_, _, _) => ToolUseIsSaid(b);
      case ToolResult(_, _, _) => ToolResultIsSaid(b);
    }
  }

  lemma TextIsSaid(b: ContentBlock)
    requires b.TextBlock?
    ensures DocOk(BlockDoc(b)) && SaysBlock(ValueOf(BlockDoc(b)), b)
  {
    BlockKeysDiffer();
    hide Key, Get;
    var d := BlockDoc(b);
    GetAmong(d.members, Key("type"));
    GetAmong(d.members, Key("text"));
  }

  lemma ToolUseIsSaid(b: ContentBlock)
    requires b.ToolUse? && Parse(b.inputJson).Ok?
    ensures DocOk(BlockDoc(b)) && SaysBlock(ValueOf(BlockDoc(b)), b)
  {
    BlockKeysDiffer();
    ParseLeavesNothing(b);
    ToolUseOk(b);
    hide Key, Get, Parse, InputOf, DocOk, ValueOf;
    var d := BlockDoc(b);
    GetAmong(d.members, Key("type"));
    GetAmong(d.members, Key("id"));
    GetAmong(d.members, Key("name"));
    GetAmong(d.members, Key("input"));
    PlainValue(Str(Key("tool_use")));
    PlainValue(Str(b.id));
    PlainValue(Str(b.name));
    EmbeddedValue(b.inputJson, InputOf(b));
  }

  lemma ToolUseOk(b: ContentBlock)
    requires b.ToolUse? && Parse(b.inputJson) == Ok(InputOf(b), [])
    ensures DocOk(BlockDoc(b))
  {
    hide Key, Parse, InputOf, IsNumber;
    var d := BlockDoc(b);
    forall m | m in d.members
      ensures DocOk(m.doc) && MemberOk(m)
    {
    }
  }

  lemma ToolResultIsSaid(b: ContentBlock)
    requires b.ToolResult?
    ensures DocOk(BlockDoc(b)) && SaysBlock(ValueOf(BlockDoc(b)), b)
  {
    BlockKeysDiffer();
    PlainRecordOk(BlockDoc(b));
    hide Key, Get, DocOk, ValueOf;
    var d := BlockDoc(b);
    GetAmong(d.members, Key("type"));
    GetAmong(d.members, Key("tool_use_id"));
    GetAmong(d.members, Key("content"));
    GetAmong(d.members, Key("is_error"));
    PlainValue(Str(Key("tool_result")));
    PlainValue(Str(b.toolUseId));
    PlainValue(Str(b.content));
    PlainValue(Bool(true));
  }

  lemma PlainRecordOk(d: Doc)
    requires d.Record? && forall m :: m in d.members ==> m.Member? && m.doc.Plain? && (m.doc.v.Str? || m.doc.v.Bool?)
    ensures DocOk(d)
  {
    forall m | m in d.members
      ensures DocOk(m.doc) && MemberOk(m)
    {
    }
  }

  lemma EmbeddedValue(bytes: seq<byte>, v: JsonValue)
    ensures ValueOf(Embedded(bytes, v)) == v
  {
  }

  lemma PlainValue(v: JsonValue)
    ensures ValueOf(Plain(v)) == v
  {
  }

  lemma ParseLeavesNothing(b: ContentBlock)
    requires b.ToolUse? ==> Parse(b.inputJson).Ok?
    ensures b.ToolUse? ==> Parse(b.inputJson) == Ok(InputOf(b), [])
  {
  }

  lemma MessageIsSaid(m: Message)
    requires forall b :: b in m.blocks && b.ToolUse? ==> Parse(b.inputJson).Ok?
    ensures DocOk(MessageDoc(m)) && SaysMessage(ValueOf(MessageDoc(m)), m)
  {
    BlockKeysDiffer();
    hide Key, Parse, BlockDoc, SaysBlock;
    var d := MessageDoc(m);
    GetAmong(d.members, Key("role"));
    GetAmong(d.members, Key("content"));
    ValuesAre(BlockDocs(m.blocks));
    forall i | 0 <= i < |m.blocks|
      ensures DocOk(BlockDoc(m.blocks[i])) && SaysBlock(ValueOf(BlockDoc(m.blocks[i])), m.blocks[i])
    {
      BlockIsSaid(m.blocks[i]);
    }
    ListValue(BlockDocs(m.blocks));
  }

  lemma ListValue(items: seq<Doc>)
    ensures ValueOf(List(items)) == Array(ValuesOf(items))
  {
  }

  lemma {:induction false} MessagesAreSaid(messages: seq<Message>)
    requires forall m, b :: m in messages && b in m.blocks && b.ToolUse? ==> Parse(b.inputJson).Ok?
    ensures var vs := ValuesOf(MessageDocs(messages));
            |vs| == |messages| && forall i :: 0 <= i < |messages| ==> DocOk(MessageDoc(messages[i])) && SaysMessage(vs[i], messages[i])
  {
    hide Parse, MessageDoc, SaysMessage, DocOk;
    ValuesAre(MessageDocs(messages));
    forall i | 0 <= i < |messages|
      ensures DocOk(MessageDoc(messages[i])) && SaysMessage(ValueOf(MessageDoc(messages[i])), messages[i])
    {
      MessageIsSaid(messages[i]);
    }
  }

  lemma FourThousand()
    ensures IsNumber(Ascii("4096"))
  {
    var l := Ascii("4096");
    assert NumberParts(l, [], l, [], []);
  }

  /** The first three members and the tail, looked up. */
  lemma BodyLookup(model: Text, system: Option<Text>, messages: seq<Message>, tools: Option<seq<byte>>, key: Text)
    ensures Get(ValueOf(BodyDoc(model, system, messages, tools)), key) ==
            if key == Key("model") then Some(Str(model))
            else if key == Key("max_tokens") then Some(Number(Ascii("4096")))
            else if key == Key("stream") then Some(Bool(true))
            else GetMember(TailMembers(system, messages, tools), key)
  {
    hide Key, MessageDocs;
    var head := [StrMember("model", model), Member(Key("max_tokens"), Plain(Number(Ascii("4096")))),
                 Member(Key("stream"), Plain(Bool(true)))];
    var tail := TailMembers(system, messages, tools);
    assert BodyDoc(model, system, messages, tools) == Record(head + tail);
    RecordValue(head + tail);
    GetIsGetMember(head + tail, key);
    GetMemberAppend(head, tail, key);
    GetAmong(head, key);
    RecordValue(head);
    GetIsGetMember(head, key);
  }

  lemma TailLookup(system: Option<Text>, messages: seq<Message>, tools: Option<seq<byte>>, key: Text)
    ensures GetMember(TailMembers(system, messages, tools), key) ==
            if system.Some? && key == Key("system") then Some(Str(system.value))
            else if key == Key("messages") then Some(Array(ValuesOf(MessageDocs(messages))))
            else if tools.Some? && key == Key("tools") then Some(ToolsValue(tools))
            else None
  {
    hide Key, MessageDocs, ToolsValue;
    var m := Member(Key("messages"), List(MessageDocs(messages)));
    var t := if tools == None then [] else [Member(Key("tools"), Embedded(tools.value, ToolsValue(tools)))];
    var s := if system == None then [] else [StrMember("system", system.value)];
    GetMemberAppend(s + [m], t, key);
    GetMemberAppend(s, [m], key);
    GetOne(m, key);
    if tools.Some? { GetOne(t[0], key); }
    if system.Some? { GetOne(s[0], key); }
  }

  lemma BodyDocOk(model: Text, system: Option<Text>, messages: seq<Message>, tools: Option<seq<byte>>)
    requires InputsParse(messages, tools)
    ensures DocOk(BodyDoc(model, system, messages, tools))
  {
    TailOk(system, messages, tools);
    HeadOk(model);
    var head := [StrMember("model", model)];
    var flags := [Member(Key("max_tokens"), Plain(Number(Ascii("4096")))), Member(Key("stream"), Plain(Bool(true)))];
    var tail := TailMembers(system, messages, tools);
    hide *;
    BodyDocIs(model, system, messages, tools, head + (flags + tail));
    RecordOk(head + (flags + tail));
  }

  lemma HeadOk(model: Text)
    ensures forall m :: m in [StrMember("model", model)] ==> DocOk(m.doc) && MemberOk(m)
    ensures forall m :: m in [Member(Key("max_tokens"), Plain(Number(Ascii("4096")))), Member(Key("stream"), Plain(Bool(true)))]
                    ==> DocOk(m.doc) && MemberOk(m)
  {
    FourThousand();
    hide Key, Ascii, IsNumber;
  }

  lemma RecordOk(members: seq<Member>)
    requires forall m :: m in members ==> DocOk(m.doc) && MemberOk(m)
    ensures DocOk(Record(members))
  {
  }

  lemma TailOk(system: Option<Text>, messages: seq<Message>, tools: Option<seq<byte>>)
    requires InputsParse(messages, tools)
    ensures forall m :: m in TailMembers(system, messages, tools) ==> DocOk(m.doc) && MemberOk(m)
  {
    MessagesOk(messages);
    ToolsParse(tools);
    hide Key, Parse, IsNumber, ToolsValue, ValuesOf, MessageDocs;
    var s := if system == None then [] else [StrMember("system", system.value)];
    var m := Member(Key("messages"), List(MessageDocs(messages)));
    var t := if tools == None then [] else [Member(Key("tools"), Embedded(tools.value, ToolsValue(tools)))];
    assert TailMembers(system, messages, tools) == s + [m] + t;
    assert DocOk(m.doc) && (t != [] ==> DocOk(t[0].doc)) && (s != [] ==> DocOk(s[0].doc));
  }

  lemma MessagesOk(messages: seq<Message>)
    requires forall m, b :: m in messages && b in m.blocks && b.ToolUse? ==> Parse(b.inputJson).Ok?
    ensures DocOk(List(MessageDocs(messages)))
  {
    MessagesAreSaid(messages);
    hide Parse, MessageDoc, SaysMessage, ValuesOf, IsNumber;
    var list := List(MessageDocs(messages));
    forall d | d in list.items
      ensures DocOk(d)
    {
      var i :| 0 <= i < |list.items| && list.items[i] == d;
    }
  }

  lemma ToolsParse(tools: Option<seq<byte>>)
    requires tools.Some? ==> Parse(tools.value).Ok?
    ensures tools.Some? ==> Parse(tools.value) == Ok(ToolsValue(tools), [])
  {
  }

  /** The body parses, and gives back the model, the system prompt, every role, text, tool identifier, tool
      name, tool input and tool result, in order. */
  lemma BodySaysWhatWasMeant(model: Text, system: Option<Text>, messages: seq<Message>, tools: Option<seq<byte>>)
    requires InputsParse(messages, tools)
    ensures var r := Parse(BodyJson(model, system, messages, tools));
            r.Ok? && SaysRequest(r.value, model, system, messages, tools)
  {
    BodyPrinted(model, system, messages, tools);
    BodyDocOk(model, system, messages, tools);
    PrintedParses(BodyDoc(model, system, messages, tools));
    MessagesAreSaid(messages);
    ToolsParse(tools);
    KeysDiffer();
    hide *;
    Lookups(model, system, messages, tools);
    Concluded(ValueOf(BodyDoc(model, system, messages, tools)), model, system, messages, tools);
  }

  lemma Lookups(model: Text, system: Option<Text>, messages: seq<Message>, tools: Option<seq<byte>>)
    ensures var v := ValueOf(BodyDoc(model, system, messages, tools));
            && Get(v, Key("model")) == Some(Str(model)) && Get(v, Key("max_tokens")) == Some(Number(Ascii("4096")))
            && Get(v, Key("stream")) == Some(Bool(true))
            && Get(v, Key("system")) == (if system == None then None else Some(Str(system.value)))
            && Get(v, Key("tools")) == (if tools == None then None else Some(ToolsValue(tools)))
            && Get(v, Key("messages")) == Some(Array(ValuesOf(MessageDocs(messages))))
  {
    KeysDiffer();
    hide *;
    BodyLookup(model, system, messages, tools, Key("model"));
    BodyLookup(model, system, messages, tools, Key("max_tokens"));
    BodyLookup(model, system, messages, tools, Key("stream"));
    BodyLookup(model, system, messages, tools, Key("system"));
    BodyLookup(model, system, messages, tools, Key("tools"));
    BodyLookup(model, system, messages, tools, Key("messages"));
    TailLookup(system, messages, tools, Key("system"));
    TailLookup(system, messages, tools, Key("tools"));
    TailLookup(system, messages, tools, Key("messages"));
  }

  lemma Concluded(v: JsonValue, model: Text, system: Option<Text>, messages: seq<Message>, tools: Option<seq<byte>>)
    requires Get(v, Key("model")) == Some(Str(model)) && Get(v, Key("max_tokens")) == Some(Number(Ascii("4096")))
    requires Get(v, Key("stream")) == Some(Bool(true))
    requires Get(v, Key("system")) == (if system == None then None else Some(Str(system.value)))
    requires Get(v, Key("tools")) == (if tools == None then None else Some(ToolsValue(tools)))
    requires tools.Some? ==> Parse(tools.value) == Ok(ToolsValue(tools), [])
    requires Get(v, Key("messages")) == Some(Array(ValuesOf(MessageDocs(messages))))
    requires |ValuesOf(MessageDocs(messages))| == |messages|
    requires forall i :: 0 <= i < |messages| ==> SaysMessage(ValuesOf(MessageDocs(messages))[i], messages[i])
    ensures SaysRequest(v, model, system, messages, tools)
  {
    hide Get, Key, Ascii, SaysMessage, Parse;
  }

  // ---- The builder ----

  datatype BuildResult = Built(request: seq<byte>) | SendFailed

  predicate HasLineBreak(t: Text) {
    exists i :: 0 <= i < |t| && (t[i] == 0x0D || t[i] == 0x0A)
  }

  /** Decimal digits (`{}` of an unsigned integer). */
  function Decimal(n: nat): (r: seq<byte>)
    ensures r != []
  {
    if n < 10 then var b: byte := 0x30 + n; [b] else Decimal(n / 10) + Decimal(n % 10)
  }

  function RequestHead(apiKey: Text, length: nat): seq<byte> {
    Ascii("POST /v1/messages HTTP/1.1\r\n")
    + Ascii("Host: api.anthropic.com\r\n")
    + Ascii("Content-Type: application/json\r\n")
    + (Ascii("X-API-Key: ") + Encode(apiKey) + Ascii("\r\n"))
    + Ascii("Anthropic-Version: 2023-06-01\r\n")
    + Ascii("Accept: text/event-stream\r\n")
    + (Ascii("Content-Length: ") + Decimal(length) + Ascii("\r\n"))
    + Ascii("Connection: close\r\n")
    + Ascii("\r\n")
  }

  /** `build_http_request_multi`; `tools` is the text of the tool definitions when they are used. */
  method BuildHttpRequestMulti(apiKey: Text, model: Text, system: Option<Text>, messages: seq<Message>, tools: Option<seq<byte>>)
    returns (r: BuildResult)
    ensures r == SendFailed <==> HasLineBreak(model) || HasLineBreak(apiKey)
    ensures r != SendFailed ==>
              var body := BodyJson(model, system, messages, tools); r == Built(RequestHead(apiKey, |body|) + body)
  {
    hide Escaped, RequestHead, Ascii, MessagesJson, MessageJson, Decimal;
    NoMessages();
    if HasLineBreak(model) || HasLineBreak(apiKey) {
      return SendFailed;
    }
    var msgsJson := [0x5B];
    for i := 0 to |messages|
      invariant msgsJson == [0x5B] + MessagesJson(messages[..i])
    {
      MessagesSnoc(messages, i);
      if i > 0 {
        msgsJson := msgsJson + Ascii(",");
      }
      var one := WriteMessage(messages[i]);
      msgsJson := msgsJson + one;
    }
    assert messages[..|messages|] == messages;
    msgsJson := msgsJson + [0x5D];
    var toolsPart := if tools == None then [] else Ascii(",\"tools\":") + tools.value;
    var body;
    if system.Some? {
      body := Ascii("{\"model\":\"") + Escaped(model) + Ascii("\",\"max_tokens\":4096,\"stream\":true,\"system\":\"")
              + Escaped(system.value) + Ascii("\",\"messages\":") + msgsJson + toolsPart + Ascii("}");
    } else {
      body := Ascii("{\"model\":\"") + Escaped(model) + Ascii("\",\"max_tokens\":4096,\"stream\":true,\"messages\":")
              + msgsJson + toolsPart + Ascii("}");
    }
    assert body == BodyJson(model, system, messages, tools);
    r := Built(RequestHead(apiKey, |body|) + body);
  }

  lemma NoMessages()
    ensures MessagesJson([]) == []
  {
  }

  lemma MessagesSnoc(messages: seq<Message>, i: nat)
    requires i < |messages|
    ensures MessagesJson(messages[..i + 1])
            == MessagesJson(messages[..i]) + (if i > 0 then Ascii(",") else []) + MessageJson(messages[i])
  {
    hide MessageJson;
    assert messages[..i + 1][..i] == messages[..i];
  }

  lemma BlocksSnoc(blocks: seq<ContentBlock>, j: nat)
    requires j < |blocks|
    ensures BlocksJson(blocks[..j + 1]) == BlocksJson(blocks[..j]) + (if j > 0 then Ascii(",") else []) + BlockJson(blocks[j])
  {
    hide BlockJson;
    assert blocks[..j + 1][..j] == blocks[..j];
  }

  method WriteMessage(m: Message) returns (out: seq<byte>)
    ensures out == MessageJson(m)
  {
    hide Escaped, Ascii, BlockJson;
    if m.blocks == [] {
      return Ascii("{\"role\":\"") + Escaped(m.role) + Ascii("\",\"content\":\"") + Escaped(m.content) + Ascii("\"}");
    }
    var blocks: seq<byte> := [];
    for j := 0 to |m.blocks|
      invariant blocks == BlocksJson(m.blocks[..j])
    {
      BlocksSnoc(m.blocks, j);
      if j > 0 {
        blocks := blocks + Ascii(",");
      }
      blocks := blocks + BlockJson(m.blocks[j]);
    }
    assert m.blocks[..|m.blocks|] == m.blocks;
    out := Ascii("{\"role\":\"") + Escaped(m.role) + Ascii("\",\"content\":[") + blocks + Ascii("]}");
  }
}
