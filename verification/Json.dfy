/** The recursive-descent JSON parser: what it makes of a byte string, and the parser itself. */
module Json {
  import opened Bits
  import opened Utf8

  /** A JSON value; numbers are kept as they are written. */
  datatype JsonValue =
    | Null
    | Bool(b: bool)
    | Number(lexeme: seq<byte>)
    | Str(s: Text)
    | Array(items: seq<JsonValue>)
    | Object(fields: seq<Field>)

  datatype Field = Field(key: Text, value: JsonValue)

  datatype JsonError = UnexpectedEof | UnexpectedChar(c: byte) | InvalidEscape | InvalidNumber | TrailingData

  /** A parsed prefix with what is left, or an error. */
  datatype Parsed<T> = Ok(value: T, rest: seq<byte>) | Err(error: JsonError)

  // ---- Lexical elements ----

  predicate IsWs(b: byte) {
    b == 0x20 || b == 0x09 || b == 0x0A || b == 0x0D
  }

  function SkipWs(s: seq<byte>): (r: seq<byte>)
    ensures |r| <= |s|
    ensures r == [] || !IsWs(r[0])
  {
    if s != [] && IsWs(s[0]) then SkipWs(s[1..]) else s
  }

  predicate IsDigit(b: byte) {
    0x30 <= b <= 0x39
  }

  function SkipDigits(s: seq<byte>): (r: seq<byte>)
    ensures |r| <= |s|
    ensures r == [] || !IsDigit(r[0])
  {
    if s != [] && IsDigit(s[0]) then SkipDigits(s[1..]) else s
  }

  function HexValue(b: byte): Option<nat> {
    if 0x30 <= b <= 0x39 then Some(b - 0x30)
    else if 0x61 <= b <= 0x66 then Some(b - 0x61 + 10)
    else if 0x41 <= b <= 0x46 then Some(b - 0x41 + 10)
    else None
  }

  /** `k` hexadecimal digits, continuing from `val`. */
  function ParseHex(s: seq<byte>, k: nat, val: nat): (r: Parsed<nat>)
    ensures r.Ok? ==> |r.rest| + k == |s|
  {
    if k == 0 then Ok(val, s)
    else if s == [] then Err(UnexpectedEof)
    else
      match HexValue(s[0])
      case None => Err(InvalidEscape)
      case Some(d) => ParseHex(s[1..], k - 1, val * 16 + d)
  }

  /** `char::from_u32`: a code point that is no scalar is dropped. */
  function CharOf(code: nat): Text {
    if IsScalar(code) then [code] else []
  }

  /** What follows a backslash. */
  function ParseEscape(s: seq<byte>): (r: Parsed<Text>)
    ensures r.Ok? ==> |r.rest| < |s|
  {
    if s == [] then Err(InvalidEscape)
    else
      var rest := s[1..];
      match s[0]
      case 0x22 => Ok([0x22], rest)
      case 0x5C => Ok([0x5C], rest)
      case 0x2F => Ok([0x2F], rest)
      case 0x6E => Ok([0x0A], rest)
      case 0x72 => Ok([0x0D], rest)
      case 0x74 => Ok([0x09], rest)
      case 0x62 => Ok([0x08], rest)
      case 0x66 => Ok([0x0C], rest)
      case 0x75 => ParseUnicode(rest)
      case _ => Err(InvalidEscape)
  }

  /** What follows `\u`: a code unit, or a surrogate pair. */
  function ParseUnicode(s: seq<byte>): (r: Parsed<Text>)
    ensures r.Ok? ==> |r.rest| < |s|
  {
    match ParseHex(s, 4, 0)
    case Err(e) => Err(e)
    case Ok(code, rest) =>
      if 0xD800 <= code <= 0xDBFF then
        if |rest| < 2 || rest[0] != 0x5C || rest[1] != 0x75 then Err(InvalidEscape)
        else
          match ParseHex(rest[2..], 4, 0)
          case Err(e) => Err(e)
          case Ok(low, rest') =>
            if !(0xDC00 <= low <= 0xDFFF) then Err(InvalidEscape)
            else Ok(CharOf(0x10000 + (code - 0xD800) * 1024 + (low - 0xDC00)), rest')
      else Ok(CharOf(code), rest)
  }

  /** How many bytes follow a first byte outside ASCII. */
  function ExtraBytes(b: byte): nat {
    if b < 0xE0 then 1 else if b < 0xF0 then 2 else 3
  }

  /** What such a byte sequence contributes: its scalars, or nothing if it is malformed. */
  function Passed(s: seq<byte>): Text {
    match Decode(s)
    case None => []
    case Some(t) => t
  }

  function Prepend<T>(t: seq<T>, r: Parsed<seq<T>>): Parsed<seq<T>> {
    match r
    case Ok(value, rest) => Ok(t + value, rest)
    case Err(e) => Err(e)
  }

  /** What one step inside a string reads: an escape, an ASCII character, or a longer sequence. */
  function ParseChunk(s: seq<byte>): (r: Parsed<Text>)
    requires s != []
    ensures r.Ok? ==> |r.rest| < |s|
  {
    if s[0] == 0x5C then ParseEscape(s[1..])
    else if s[0] < 0x80 then Ok([s[0]], s[1..])
    else
      var n := ExtraBytes(s[0]) + 1;
      if |s| < n then Err(UnexpectedEof) else Ok(Passed(s[..n]), s[n..])
  }

  /** The characters of a string up to and including the closing quote. */
  function ParseChars(s: seq<byte>): (r: Parsed<Text>)
    ensures r.Ok? ==> |r.rest| < |s|
    decreases |s|
  {
    if s == [] then Err(UnexpectedEof)
    else if s[0] == 0x22 then Ok([], s[1..])
    else
      match ParseChunk(s)
      case Err(e) => Err(e)
      case Ok(t, rest) => Prepend(t, ParseChars(rest))
  }

  function Expect(s: seq<byte>, b: byte): (r: Parsed<()>)
    ensures r.Ok? <==> s != [] && s[0] == b
    ensures r.Ok? ==> r.rest == s[1..]
  {
    if s == [] then Err(UnexpectedEof)
    else if s[0] == b then Ok((), s[1..])
    else Err(UnexpectedChar(s[0]))
  }

  function ParseString(s: seq<byte>): (r: Parsed<Text>)
    ensures r.Ok? ==> |r.rest| < |s|
  {
    match Expect(s, 0x22)
    case Err(e) => Err(e)
    case Ok(_, rest) => ParseChars(rest)
  }

  function ExpectLiteral(s: seq<byte>, lit: seq<byte>): (r: Parsed<()>)
    ensures r.Ok? ==> |r.rest| + |lit| == |s|
    decreases |lit|
  {
    if lit == [] then Ok((), s)
    else
      match Expect(s, lit[0])
      case Err(e) => Err(e)
      case Ok(_, rest) => ExpectLiteral(rest, lit[1..])
  }

  // ---- Numbers ----

  /** Digits, at least one. */
  function ParseDigits(s: seq<byte>): (r: Parsed<()>)
    ensures r.Ok? ==> |r.rest| < |s|
  {
    if s == [] || !IsDigit(s[0]) then Err(InvalidNumber) else Ok((), SkipDigits(s))
  }

  function ParseInteger(s: seq<byte>): (r: Parsed<()>)
    ensures r.Ok? ==> |r.rest| < |s|
  {
    if s != [] && s[0] == 0x30 then Ok((), s[1..]) else ParseDigits(s)
  }

  function ParseFraction(s: seq<byte>): (r: Parsed<()>)
    ensures r.Ok? ==> |r.rest| <= |s|
  {
    if s != [] && s[0] == 0x2E then ParseDigits(s[1..]) else Ok((), s)
  }

  function ParseExponent(s: seq<byte>): (r: Parsed<()>)
    ensures r.Ok? ==> |r.rest| <= |s|
  {
    if s != [] && (s[0] == 0x65 || s[0] == 0x45) then
      var t := s[1..];
      if t != [] && (t[0] == 0x2B || t[0] == 0x2D) then ParseDigits(t[1..]) else ParseDigits(t)
    else Ok((), s)
  }

  /** What is left after a number. */
  function AfterNumber(s: seq<byte>): (r: Parsed<()>)
    ensures r.Ok? ==> |r.rest| < |s|
  {
    match ParseInteger(if s != [] && s[0] == 0x2D then s[1..] else s)
    case Err(e) => Err(e)
    case Ok(_, t) =>
      match ParseFraction(t)
      case Err(e) => Err(e)
      case Ok(_, u) => ParseExponent(u)
  }

  function ParseNumber(s: seq<byte>): (r: Parsed<JsonValue>)
    ensures r.Ok? ==> |r.rest| < |s|
  {
    match AfterNumber(s)
    case Err(e) => Err(e)
    case Ok(_, rest) => Ok(Number(s[..|s| - |rest|]), rest)
  }

  // ---- Values ----

  const TRUE: seq<byte> := [0x74, 0x72, 0x75, 0x65]
  const FALSE: seq<byte> := [0x66, 0x61, 0x6C, 0x73, 0x65]
  const NULL: seq<byte> := [0x6E, 0x75, 0x6C, 0x6C]

  function Literal(s: seq<byte>, lit: seq<byte>, v: JsonValue): (r: Parsed<JsonValue>)
    ensures r.Ok? ==> |r.rest| + |lit| == |s|
  {
    match ExpectLiteral(s, lit)
    case Err(e) => Err(e)
    case Ok(_, rest) => Ok(v, rest)
  }

  function ParseValue(s: seq<byte>): (r: Parsed<JsonValue>)
    ensures r.Ok? ==> |r.rest| < |s|
    decreases |s|, 2
  {
    var t := SkipWs(s);
    if t == [] then Err(UnexpectedEof)
    else if t[0] == 0x22 then
      match ParseString(t)
      case Err(e) => Err(e)
      case Ok(text, rest) => Ok(Str(text), rest)
    else if t[0] == 0x7B then ParseObject(t)
    else if t[0] == 0x5B then ParseArray(t)
    else if t[0] == 0x74 then Literal(t, TRUE, Bool(true))
    else if t[0] == 0x66 then Literal(t, FALSE, Bool(false))
    else if t[0] == 0x6E then Literal(t, NULL, Null)
    else if t[0] == 0x2D || IsDigit(t[0]) then ParseNumber(t)
    else Err(UnexpectedChar(t[0]))
  }

  function ParseObject(s: seq<byte>): (r: Parsed<JsonValue>)
    ensures r.Ok? ==> |r.rest| < |s|
    decreases |s|, 1
  {
    match Expect(s, 0x7B)
    case Err(e) => Err(e)
    case Ok(_, rest) =>
      var t := SkipWs(rest);
      if t != [] && t[0] == 0x7D then Ok(Object([]), t[1..])
      else
        match ParseMembers(t)
        case Err(e) => Err(e)
        case Ok(fields, rest') => Ok(Object(fields), rest')
  }

  /** One member and, after commas, more, up to and including the closing brace. */
  function ParseMembers(s: seq<byte>): (r: Parsed<seq<Field>>)
    ensures r.Ok? ==> |r.rest| < |s|
    decreases |s|, 1
  {
    match ParseMember(s)
    case Err(e) => Err(e)
    case Ok(f, rest) =>
      var t := SkipWs(rest);
      if t == [] then Err(UnexpectedEof)
      else if t[0] == 0x2C then Prepend([f], ParseMembers(t[1..]))
      else if t[0] == 0x7D then Ok([f], t[1..])
      else Err(UnexpectedChar(t[0]))
  }

  function ParseMember(s: seq<byte>): (r: Parsed<Field>)
    ensures r.Ok? ==> |r.rest| < |s|
    decreases |s|, 0
  {
    match ParseString(SkipWs(s))
    case Err(e) => Err(e)
    case Ok(key, rest) =>
      match Expect(SkipWs(rest), 0x3A)
      case Err(e) => Err(e)
      case Ok(_, rest') =>
        match ParseValue(rest')
        case Err(e) => Err(e)
        case Ok(v, rest'') => Ok(Field(key, v), rest'')
  }

  function ParseArray(s: seq<byte>): (r: Parsed<JsonValue>)
    ensures r.Ok? ==> |r.rest| < |s|
    decreases |s|, 1
  {
    match Expect(s, 0x5B)
    case Err(e) => Err(e)
    case Ok(_, rest) =>
      var t := SkipWs(rest);
      if t != [] && t[0] == 0x5D then Ok(Array([]), t[1..])
      else
        match ParseItems(t)
        case Err(e) => Err(e)
        case Ok(items, rest') => Ok(Array(items), rest')
  }

  function ParseItems(s: seq<byte>): (r: Parsed<seq<JsonValue>>)
    ensures r.Ok? ==> |r.rest| < |s|
    decreases |s|, 3
  {
    match ParseValue(s)
    case Err(e) => Err(e)
    case Ok(v, rest) =>
      var t := SkipWs(rest);
      if t == [] then Err(UnexpectedEof)
      else if t[0] == 0x2C then Prepend([v], ParseItems(t[1..]))
      else if t[0] == 0x5D then Ok([v], t[1..])
      else Err(UnexpectedChar(t[0]))
  }

  /** A whole document: one value, then only white space. */
  function Parse(s: seq<byte>): Parsed<JsonValue> {
    match ParseValue(s)
    case Err(e) => Err(e)
    case Ok(v, rest) => if SkipWs(rest) != [] then Err(TrailingData) else Ok(v, [])
  }

  // ---- The parser ----

  datatype Result<T> = Success(value: T) | Failure(error: JsonError)

  /** The outcome of a parser method is what the specification says, and on success the same input is left. */
  ghost predicate Agrees<T(!new)>(r: Result<T>, spec: Parsed<T>, rest: seq<byte>) {
    match spec
    case Ok(v, left) => r == Success(v) && rest == left
    case Err(e) => r == Failure(e)
  }

  class Parser {
    const input: seq<byte>
    var pos: nat

    ghost predicate Valid()
      reads this
    {
      pos <= |input|
    }

    ghost function Rest(): seq<byte>
      reads this
      requires Valid()
    {
      input[pos..]
    }

    constructor (input: seq<byte>)
      ensures Valid() && Rest() == input && this.input == input
    {
      this.input, pos := input, 0;
    }

    function Peek(): Option<byte>
      reads this
    {
      if pos < |input| then Some(input[pos]) else None
    }

    method NextByte() returns (r: Option<byte>)
      requires Valid()
      modifies this
      ensures Valid()
      ensures if old(Rest()) == [] then r == None && Rest() == [] else r == Some(old(Rest())[0]) && Rest() == old(Rest())[1..]
    {
      if pos >= |input| {
        return None;
      }
      r := Some(input[pos]);
      pos := pos + 1;
    }

    method SkipSpace()
      requires Valid()
      modifies this
      ensures Valid() && Rest() == SkipWs(old(Rest()))
    {
      while pos < |input| && IsWs(input[pos])
        invariant Valid() && SkipWs(Rest()) == SkipWs(old(Rest()))
      {
        assert Rest()[0] == input[pos] && Rest()[1..] == input[pos + 1..];
        pos := pos + 1;
      }
    }

    method ExpectByte(b: byte) returns (r: Result<()>)
      requires Valid()
      modifies this
      ensures Valid() && Agrees(r, Expect(old(Rest()), b), Rest())
    {
      var got := NextByte();
      match got {
        case None => return Failure(UnexpectedEof);
        case Some(c) => return if c == b then Success(()) else Failure(UnexpectedChar(c));
      }
    }

    method Hex4() returns (r: Result<nat>)
      requires Valid()
      modifies this
      ensures Valid() && Agrees(r, ParseHex(old(Rest()), 4, 0), Rest())
    {
      var val: nat := 0;
      for i := 0 to 4
        invariant Valid() && ParseHex(old(Rest()), 4, 0) == ParseHex(Rest(), 4 - i, val)
      {
        var b := NextByte();
        if b == None {
          return Failure(UnexpectedEof);
        }
        var digit := HexValue(b.value);
        if digit == None {
          return Failure(InvalidEscape);
        }
        val := val * 16 + digit.value;
      }
      return Success(val);
    }

    method Unicode() returns (r: Result<Text>)
      requires Valid()
      modifies this
      ensures Valid() && Agrees(r, ParseUnicode(old(Rest())), Rest())
    {
      var code := Hex4();
      if code.Failure? {
        return Failure(code.error);
      }
      if !(0xD800 <= code.value <= 0xDBFF) {
        return Success(CharOf(code.value));
      }
      var b := NextByte();
      if b != Some(0x5C) {
        return Failure(InvalidEscape);
      }
      b := NextByte();
      if b != Some(0x75) {
        return Failure(InvalidEscape);
      }
      var low := Hex4();
      if low.Failure? {
        return Failure(low.error);
      }
      if !(0xDC00 <= low.value <= 0xDFFF) {
        return Failure(InvalidEscape);
      }
      return Success(CharOf(0x10000 + (code.value - 0xD800) * 1024 + (low.value - 0xDC00)));
    }

    method Escape() returns (r: Result<Text>)
      requires Valid()
      modifies this
      ensures Valid() && Agrees(r, ParseEscape(old(Rest())), Rest())
    {
      var b := NextByte();
      match b {
        case Some(0x22) => r := Success([0x22]);
        case Some(0x5C) => r := Success([0x5C]);
        case Some(0x2F) => r := Success([0x2F]);
        case Some(0x6E) => r := Success([0x0A]);
        case Some(0x72) => r := Success([0x0D]);
        case Some(0x74) => r := Success([0x09]);
        case Some(0x62) => r := Success([0x08]);
        case Some(0x66) => r := Success([0x0C]);
        case Some(0x75) => r := Unicode();
        case _ => r := Failure(InvalidEscape);
      }
    }

    /** One character outside ASCII, copied as it is. */
    method PassThrough(b: byte) returns (r: Result<Text>)
      requires Valid() && b >= 0x80
      modifies this
      ensures Valid()
      ensures var n := ExtraBytes(b);
              if |old(Rest())| < n then r == Failure(UnexpectedEof)
              else r == Success(Passed([b] + old(Rest())[..n])) && Rest() == old(Rest())[n..]
    {
      var extra := ExtraBytes(b);
      var buf := [b];
      for i := 0 to extra
        invariant Valid() && i <= |old(Rest())| && buf == [b] + old(Rest())[..i] && Rest() == old(Rest())[i..]
      {
        var c := NextByte();
        if c == None {
          return Failure(UnexpectedEof);
        }
        buf := buf + [c.value];
      }
      return Success(Passed(buf));
    }

    /** One step inside a string, whose first byte is `c`. */
    method Chunk(c: byte) returns (r: Result<Text>)
      requires Valid()
      modifies this
      ensures Valid() && Agrees(r, ParseChunk([c] + old(Rest())), Rest())
    {
      ghost var s := [c] + Rest();
      assert s[1..] == Rest();
      if c == 0x5C {
        r := Escape();
      } else if c < 0x80 {
        r := Success([c]);
      } else {
        ghost var n := ExtraBytes(c);
        if |Rest()| >= n {
          assert s[..n + 1] == [c] + Rest()[..n] && s[n + 1..] == Rest()[n..];
        }
        r := PassThrough(c);
      }
    }

    method StringBody() returns (r: Result<Text>)
      requires Valid()
      modifies this
      ensures Valid() && Agrees(r, ParseChars(old(Rest())), Rest())
    {
      hide ParseChunk;
      var s: Text := [];
      PrependNothing(ParseChars(Rest()));
      while true
        invariant Valid() && ParseChars(old(Rest())) == Prepend(s, ParseChars(Rest()))
        decreases |Rest()|
      {
        ghost var before := Rest();
        var b := NextByte();
        if b == None {
          return Failure(UnexpectedEof);
        }
        if b == Some(0x22) {
          assert s + [] == s;
          return Success(s);
        }
        assert before == [b.value] + Rest();
        var piece := Chunk(b.value);
        if piece.Failure? {
          return Failure(piece.error);
        }
        PrependTwice(s, piece.value, ParseChars(Rest()));
        s := s + piece.value;
      }
    }

    method String() returns (r: Result<Text>)
      requires Valid()
      modifies this
      ensures Valid() && Agrees(r, ParseString(old(Rest())), Rest())
    {
      hide ParseChars;
      var quote := ExpectByte(0x22);
      if quote.Failure? {
        return Failure(quote.error);
      }
      r := StringBody();
    }

    method LiteralBytes(lit: seq<byte>) returns (r: Result<()>)
      requires Valid()
      modifies this
      ensures Valid() && Agrees(r, ExpectLiteral(old(Rest()), lit), Rest())
    {
      assert lit[0..] == lit;
      for i := 0 to |lit|
        invariant Valid() && ExpectLiteral(old(Rest()), lit) == ExpectLiteral(Rest(), lit[i..])
      {
        assert lit[i..][0] == lit[i] && lit[i..][1..] == lit[i + 1..];
        var got := ExpectByte(lit[i]);
        if got.Failure? {
          return Failure(got.error);
        }
      }
      return Success(());
    }

    method LiteralValue(lit: seq<byte>, v: JsonValue) returns (r: Result<JsonValue>)
      requires Valid()
      modifies this
      ensures Valid() && Agrees(r, Literal(old(Rest()), lit, v), Rest())
    {
      var got := LiteralBytes(lit);
      return if got.Failure? then Failure(got.error) else Success(v);
    }

    method Digits()
      requires Valid()
      modifies this
      ensures Valid() && pos >= old(pos) && Rest() == SkipDigits(old(Rest()))
    {
      while pos < |input| && IsDigit(input[pos])
        invariant Valid() && pos >= old(pos) && SkipDigits(Rest()) == SkipDigits(old(Rest()))
      {
        assert Rest()[0] == input[pos] && Rest()[1..] == input[pos + 1..];
        pos := pos + 1;
      }
    }

    method SomeDigits() returns (ok: bool)
      requires Valid()
      modifies this
      ensures Valid() && pos >= old(pos)
      ensures if ParseDigits(old(Rest())).Ok? then ok && Rest() == ParseDigits(old(Rest())).rest
              else !ok && ParseDigits(old(Rest())) == Err(InvalidNumber)
    {
      if pos >= |input| || !IsDigit(input[pos]) {
        return false;
      }
      Digits();
      return true;
    }

    /** The next byte is `b`; then go past it. */
    method Accept(b: byte) returns (ok: bool)
      requires Valid()
      modifies this
      ensures Valid() && pos >= old(pos)
      ensures ok <==> old(Rest()) != [] && old(Rest())[0] == b
      ensures Rest() == if ok then old(Rest())[1..] else old(Rest())
    {
      ok := Peek() == Some(b);
      if ok {
        pos := pos + 1;
      }
    }

    /** The parts of a number after its sign. */
    method NumberBody() returns (ok: bool)
      requires Valid()
      modifies this
      ensures Valid() && pos >= old(pos)
      ensures ok <==> ParseInteger(old(Rest())).Ok? && ParseFraction(ParseInteger(old(Rest())).rest).Ok?
                      && ParseExponent(ParseFraction(ParseInteger(old(Rest())).rest).rest).Ok?
      ensures ok ==> Rest() == ParseExponent(ParseFraction(ParseInteger(old(Rest())).rest).rest).rest
    {
      ok := Accept(0x30);
      if !ok {
        ok := SomeDigits();
        if !ok {
          return;
        }
      }
      var dot := Accept(0x2E);
      if dot {
        ok := SomeDigits();
        if !ok {
          return;
        }
      }
      ok := ExponentPart();
    }

    method ExponentPart() returns (ok: bool)
      requires Valid()
      modifies this
      ensures Valid() && pos >= old(pos) && (ok <==> ParseExponent(old(Rest())).Ok?)
      ensures ok ==> Rest() == ParseExponent(old(Rest())).rest
    {
      var e := Accept(0x65);
      if !e {
        e := Accept(0x45);
      }
      if !e {
        return true;
      }
      var sign := Accept(0x2B);
      if !sign {
        sign := Accept(0x2D);
      }
      ok := SomeDigits();
    }

    method NumberValue() returns (r: Result<JsonValue>)
      requires Valid()
      modifies this
      ensures Valid() && Agrees(r, ParseNumber(old(Rest())), Rest())
    {
      hide ParseInteger, ParseFraction, ParseExponent;
      var start := pos;
      ghost var s := Rest();
      var minus := Accept(0x2D);
      var ok := NumberBody();
      NumberErrors(if minus then s[1..] else s);
      if !ok {
        return Failure(InvalidNumber);
      }
      assert s[..|s| - |Rest()|] == input[start..pos];
      return Success(Number(input[start..pos]));
    }

    // ---- Values: mutual recursion ----

    method Value() returns (r: Result<JsonValue>)
      requires Valid()
      modifies this
      ensures Valid() && Agrees(r, ParseValue(old(Rest())), Rest())
      decreases |Rest()|, 2
    {
      hide ParseString, ParseObject, ParseArray, ParseNumber, Literal;
      SkipSpace();
      var b := Peek();
      match b {
        case None => return Failure(UnexpectedEof);
        case Some(c) =>
          if c == 0x22 {
            var text := String();
            return if text.Failure? then Failure(text.error) else Success(Str(text.value));
          } else if c == 0x7B {
            r := ObjectValue();
          } else if c == 0x5B {
            r := ArrayValue();
          } else if c == 0x74 {
            r := LiteralValue(TRUE, Bool(true));
          } else if c == 0x66 {
            r := LiteralValue(FALSE, Bool(false));
          } else if c == 0x6E {
            r := LiteralValue(NULL, Null);
          } else if c == 0x2D || IsDigit(c) {
            r := NumberValue();
          } else {
            return Failure(UnexpectedChar(c));
          }
      }
    }

    method ObjectValue() returns (r: Result<JsonValue>)
      requires Valid()
      modifies this
      ensures Valid() && Agrees(r, ParseObject(old(Rest())), Rest())
      decreases |Rest()|, 1
    {
      hide ParseMembers;
      var brace := ExpectByte(0x7B);
      if brace.Failure? {
        return Failure(brace.error);
      }
      SkipSpace();
      var empty := Accept(0x7D);
      if empty {
        return Success(Object([]));
      }
      var fields := Members();
      return if fields.Failure? then Failure(fields.error) else Success(Object(fields.value));
    }

    method Members() returns (r: Result<seq<Field>>)
      requires Valid()
      modifies this
      ensures Valid() && Agrees(r, ParseMembers(old(Rest())), Rest())
      decreases |Rest()|, 1
    {
      hide ParseMember;
      var fields: seq<Field> := [];
      PrependNothing(ParseMembers(Rest()));
      while true
        invariant Valid() && ParseMembers(old(Rest())) == Prepend(fields, ParseMembers(Rest()))
        invariant |Rest()| <= |old(Rest())|
        decreases |Rest()|
      {
        var f := Member();
        if f.Failure? {
          return Failure(f.error);
        }
        SkipSpace();
        var b := Peek();
        match b {
          case None => return Failure(UnexpectedEof);
          case Some(c) =>
            if c == 0x2C {
              pos := pos + 1;
              PrependTwice(fields, [f.value], ParseMembers(Rest()));
              fields := fields + [f.value];
            } else if c == 0x7D {
              pos := pos + 1;
              return Success(fields + [f.value]);
            } else {
              return Failure(UnexpectedChar(c));
            }
        }
      }
    }

    method Member() returns (r: Result<Field>)
      requires Valid()
      modifies this
      ensures Valid() && Agrees(r, ParseMember(old(Rest())), Rest())
      decreases |Rest()|, 0
    {
      hide ParseString, ParseValue;
      SkipSpace();
      var key := String();
      if key.Failure? {
        return Failure(key.error);
      }
      SkipSpace();
      var colon := ExpectByte(0x3A);
      if colon.Failure? {
        return Failure(colon.error);
      }
      var v := Value();
      return if v.Failure? then Failure(v.error) else Success(Field(key.value, v.value));
    }

    method ArrayValue() returns (r: Result<JsonValue>)
      requires Valid()
      modifies this
      ensures Valid() && Agrees(r, ParseArray(old(Rest())), Rest())
      decreases |Rest()|, 1
    {
      hide ParseItems;
      var bracket := ExpectByte(0x5B);
      if bracket.Failure? {
        return Failure(bracket.error);
      }
      SkipSpace();
      var empty := Accept(0x5D);
      if empty {
        return Success(Array([]));
      }
      var items := Items();
      return if items.Failure? then Failure(items.error) else Success(Array(items.value));
    }

    method Items() returns (r: Result<seq<JsonValue>>)
      requires Valid()
      modifies this
      ensures Valid() && Agrees(r, ParseItems(old(Rest())), Rest())
      decreases |Rest()|, 3
    {
      hide ParseValue;
      var items: seq<JsonValue> := [];
      PrependNothing(ParseItems(Rest()));
      while true
        invariant Valid() && ParseItems(old(Rest())) == Prepend(items, ParseItems(Rest()))
        invariant |Rest()| <= |old(Rest())|
        decreases |Rest()|
      {
        var v := Value();
        if v.Failure? {
          return Failure(v.error);
        }
        SkipSpace();
        var b := Peek();
        match b {
          case None => return Failure(UnexpectedEof);
          case Some(c) =>
            if c == 0x2C {
              pos := pos + 1;
              PrependTwice(items, [v.value], ParseItems(Rest()));
              items := items + [v.value];
            } else if c == 0x5D {
              pos := pos + 1;
              return Success(items + [v.value]);
            } else {
              return Failure(UnexpectedChar(c));
            }
        }
      }
    }
  }

  /** `json::parse`. */
  method ParseDocument(input: seq<byte>) returns (r: Result<JsonValue>)
    ensures match Parse(input) case Ok(v, _) => r == Success(v) case Err(e) => r == Failure(e)
  {
    hide ParseValue;
    var parser := new Parser(input);
    r := parser.Value();
    if r.Failure? {
      return;
    }
    parser.SkipSpace();
    if parser.pos < |input| {
      return Failure(TrailingData);
    }
  }

  lemma PrependTwice<T>(a: seq<T>, b: seq<T>, r: Parsed<seq<T>>)
    ensures Prepend(a, Prepend(b, r)) == Prepend(a + b, r)
  {
    if r.Ok? {
      assert a + (b + r.value) == a + b + r.value;
    }
  }

  lemma PrependNothing<T>(r: Parsed<seq<T>>)
    ensures Prepend([], r) == r
  {
    if r.Ok? {
      assert [] + r.value == r.value;
    }
  }

  /** Every failure inside a number is the same error. */
  lemma NumberErrors(s: seq<byte>)
    ensures ParseInteger(s).Err? ==> ParseInteger(s) == Err(InvalidNumber)
    ensures ParseFraction(s).Err? ==> ParseFraction(s) == Err(InvalidNumber)
    ensures ParseExponent(s).Err? ==> ParseExponent(s) == Err(InvalidNumber)
    ensures ParseInteger(s).Ok? ==>
              && (ParseFraction(ParseInteger(s).rest).Err? ==> ParseFraction(ParseInteger(s).rest) == Err(InvalidNumber))
              && (ParseFraction(ParseInteger(s).rest).Ok? && ParseExponent(ParseFraction(ParseInteger(s).rest).rest).Err? ==>
                    ParseExponent(ParseFraction(ParseInteger(s).rest).rest) == Err(InvalidNumber))
  {
  }
}
