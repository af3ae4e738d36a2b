/** Laws of the parser: the number grammar, what may follow a document, and reading back what is printed. */
module JsonLaws {
  import opened Bits
  import opened Utf8
  import opened Json
  import opened JsonText
  import opened JsonSpelling

  // ---- Numbers: section 6 of RFC 8259 ----

  predicate AllDigits(s: seq<byte>) {
    forall i :: 0 <= i < |s| ==> IsDigit(s[i])
  }

  /** `zero / ( digit1-9 *DIGIT )`. */
  predicate IsInt(s: seq<byte>) {
    s == [0x30] || (s != [] && AllDigits(s) && s[0] != 0x30)
  }

  /** `decimal-point 1*DIGIT`. */
  predicate IsFrac(s: seq<byte>) {
    |s| >= 2 && s[0] == 0x2E && AllDigits(s[1..])
  }

  /** `e [ minus / plus ] 1*DIGIT`. */
  predicate IsExp(s: seq<byte>) {
    && |s| >= 2 && (s[0] == 0x65 || s[0] == 0x45)
    && if s[1] == 0x2B || s[1] == 0x2D then |s| >= 3 && AllDigits(s[2..]) else AllDigits(s[1..])
  }

  /** `[ minus ] int [ frac ] [ exp ]`. */
  ghost predicate IsNumber(s: seq<byte>) {
    exists minus, int_, frac, exp :: NumberParts(s, minus, int_, frac, exp)
  }

  ghost predicate NumberParts(s: seq<byte>, minus: seq<byte>, int_: seq<byte>, frac: seq<byte>, exp: seq<byte>) {
    && s == minus + int_ + frac + exp
    && (minus == [] || minus == [0x2D]) && IsInt(int_)
    && (frac == [] || IsFrac(frac)) && (exp == [] || IsExp(exp))
  }

  /** What cannot be part of a number that ends before it. */
  predicate Stops(more: seq<byte>) {
    more == [] || !(IsDigit(more[0]) || more[0] == 0x2E || more[0] == 0x65 || more[0] == 0x45)
  }

  lemma {:induction false} SkipAllDigits(d: seq<byte>, more: seq<byte>)
    requires AllDigits(d) && (more == [] || !IsDigit(more[0]))
    ensures SkipDigits(d + more) == more
  {
    if d == [] {
      assert d + more == more;
    } else {
      assert (d + more)[1..] == d[1..] + more;
      SkipAllDigits(d[1..], more);
    }
  }

  lemma DigitsThen(d: seq<byte>, more: seq<byte>)
    requires d != [] && AllDigits(d) && (more == [] || !IsDigit(more[0]))
    ensures ParseDigits(d + more) == Ok((), more)
  {
    SkipAllDigits(d, more);
    assert (d + more)[0] == d[0];
  }

  lemma IntThen(d: seq<byte>, more: seq<byte>)
    requires IsInt(d) && (more == [] || !IsDigit(more[0]))
    ensures ParseInteger(d + more) == Ok((), more)
  {
    if d == [0x30] {
      assert (d + more)[1..] == more;
    } else {
      DigitsThen(d, more);
      assert (d + more)[0] == d[0];
    }
  }

  lemma FracThen(d: seq<byte>, more: seq<byte>)
    requires (d == [] || IsFrac(d)) && (more == [] || !(IsDigit(more[0]) || more[0] == 0x2E))
    ensures ParseFraction(d + more) == Ok((), more)
  {
    if d == [] {
      assert d + more == more;
    } else {
      DigitsThen(d[1..], more);
      assert (d + more)[1..] == d[1..] + more;
    }
  }

  lemma ExpThen(d: seq<byte>, more: seq<byte>)
    requires (d == [] || IsExp(d)) && Stops(more)
    ensures ParseExponent(d + more) == Ok((), more)
  {
    if d == [] {
      assert d + more == more;
    } else {
      assert (d + more)[1..] == d[1..] + more;
      if d[1] == 0x2B || d[1] == 0x2D {
        DigitsThen(d[2..], more);
        assert (d[1..] + more)[1..] == d[2..] + more;
      } else {
        DigitsThen(d[1..], more);
      }
    }
  }

  /** A number is read to its end, whatever follows. */
  lemma NumberThen(s: seq<byte>, more: seq<byte>)
    requires IsNumber(s) && Stops(more)
    ensures ParseNumber(s + more) == Ok(Number(s), more) && s != [] && (s[0] == 0x2D || IsDigit(s[0]))
  {
    var minus, int_, frac, exp :| NumberParts(s, minus, int_, frac, exp);
    PartsThen(minus, int_, frac, exp, more);
    hide AfterNumber, IsFrac, IsExp;
    PartsAssociate(minus, int_, frac, exp, more);
    assert (s + more)[..|s|] == s;
    assert s[0] == (if minus == [] then int_ else minus)[0];
  }

  lemma PartsAssociate(a: seq<byte>, b: seq<byte>, c: seq<byte>, d: seq<byte>, more: seq<byte>)
    ensures a + b + c + d + more == a + (b + (c + (d + more)))
  {
  }

  lemma PartsThen(minus: seq<byte>, int_: seq<byte>, frac: seq<byte>, exp: seq<byte>, more: seq<byte>)
    requires (minus == [] || minus == [0x2D]) && IsInt(int_) && (frac == [] || IsFrac(frac)) && (exp == [] || IsExp(exp)) && Stops(more)
    ensures AfterNumber(minus + (int_ + (frac + (exp + more)))) == Ok((), more)
  {
    ExpThen(exp, more);
    FracThen(frac, exp + more);
    IntThen(int_, frac + (exp + more));
    var unsigned := int_ + (frac + (exp + more));
    assert unsigned[0] == int_[0] != 0x2D;
    hide ParseInteger, ParseFraction, ParseExponent, IsInt, IsFrac, IsExp;
    if minus == [] {
      assert minus + unsigned == unsigned;
    } else {
      assert (minus + unsigned)[1..] == unsigned;
    }
  }

  lemma {:induction false} DigitRun(s: seq<byte>) returns (d: seq<byte>)
    ensures AllDigits(d) && s == d + SkipDigits(s)
    ensures d != [] ==> d[0] == s[0]
    ensures s != [] && IsDigit(s[0]) ==> d != []
  {
    if s != [] && IsDigit(s[0]) {
      var e := DigitRun(s[1..]);
      d := [s[0]] + e;
    } else {
      d := [];
    }
  }

  /** Everything that is read as a number is one. */
  lemma ParsedIsNumber(s: seq<byte>)
    requires AfterNumber(s).Ok?
    ensures var n := |s| - |AfterNumber(s).rest|; IsNumber(s[..n]) && s == s[..n] + AfterNumber(s).rest
  {
    var minus := if s != [] && s[0] == 0x2D then [s[0]] else [];
    var s1 := if s != [] && s[0] == 0x2D then s[1..] else s;
    var s2 := ParseInteger(s1).rest;
    var s3 := ParseFraction(s2).rest;
    var s4 := ParseExponent(s3).rest;
    assert AfterNumber(s) == Ok((), s4) && s == minus + s1;
    var int_ := ParsedInt(s1);
    var frac := ParsedFrac(s2);
    var exp := ParsedExp(s3);
    hide *;
    IsTheirSum(s, minus, int_, frac, exp, s4);
  }

  lemma IsTheirSum(s: seq<byte>, minus: seq<byte>, int_: seq<byte>, frac: seq<byte>, exp: seq<byte>, rest: seq<byte>)
    requires s == minus + (int_ + (frac + (exp + rest)))
    requires (minus == [] || minus == [0x2D]) && IsInt(int_) && (frac == [] || IsFrac(frac)) && (exp == [] || IsExp(exp))
    ensures IsNumber(s[..|s| - |rest|]) && s == s[..|s| - |rest|] + rest
  {
    hide IsInt, IsFrac, IsExp;
    PartsAssociate(minus, int_, frac, exp, rest);
    var l := minus + int_ + frac + exp;
    assert s == l + rest && s[..|s| - |rest|] == l;
    assert NumberParts(l, minus, int_, frac, exp);
  }

  lemma ParsedInt(s: seq<byte>) returns (d: seq<byte>)
    requires ParseInteger(s).Ok?
    ensures IsInt(d) && s == d + ParseInteger(s).rest
  {
    if s[0] == 0x30 {
      d := [0x30];
    } else {
      d := DigitRun(s);
    }
  }

  lemma ParsedFrac(s: seq<byte>) returns (d: seq<byte>)
    requires ParseFraction(s).Ok?
    ensures (d == [] || IsFrac(d)) && s == d + ParseFraction(s).rest
  {
    if s != [] && s[0] == 0x2E {
      var e := DigitRun(s[1..]);
      d := [s[0]] + e;
      assert d[1..] == e;
    } else {
      d := [];
    }
  }

  lemma ParsedExp(s: seq<byte>) returns (d: seq<byte>)
    requires ParseExponent(s).Ok?
    ensures (d == [] || IsExp(d)) && s == d + ParseExponent(s).rest
  {
    if s != [] && (s[0] == 0x65 || s[0] == 0x45) {
      var t := s[1..];
      var signed := t != [] && (t[0] == 0x2B || t[0] == 0x2D);
      var sign, tail := if signed then [t[0]] else [], if signed then t[1..] else t;
      ExponentIs(s, sign, tail);
      var e := DigitRun(tail);
      d := [s[0]] + (sign + e);
      ExpIs(s[0], sign, e);
      hide *;
      ThreeParts([s[0]], sign, e, SkipDigits(tail));
    } else {
      d := [];
    }
  }

  lemma ExponentIs(s: seq<byte>, sign: seq<byte>, tail: seq<byte>)
    requires s != [] && (s[0] == 0x65 || s[0] == 0x45) && ParseExponent(s).Ok?
    requires var t := s[1..];
             var signed := t != [] && (t[0] == 0x2B || t[0] == 0x2D);
             sign == (if signed then [t[0]] else []) && tail == if signed then t[1..] else t
    ensures s == [s[0]] + (sign + tail) && tail != [] && IsDigit(tail[0])
    ensures ParseExponent(s).rest == SkipDigits(tail)
  {
    hide SkipDigits, IsDigit;
    var t := s[1..];
    assert ParseExponent(s) == ParseDigits(tail);
    hide ParseExponent;
    assert t == sign + tail;
    assert s == [s[0]] + t;
  }

  lemma ThreeParts(a: seq<byte>, b: seq<byte>, c: seq<byte>, d: seq<byte>)
    ensures a + (b + (c + d)) == (a + (b + c)) + d
  {
  }

  lemma ExpIs(b: byte, sign: seq<byte>, digits: seq<byte>)
    requires (b == 0x65 || b == 0x45) && (sign == [] || sign == [0x2B] || sign == [0x2D])
    requires digits != [] && AllDigits(digits) && IsDigit(digits[0])
    ensures IsExp([b] + (sign + digits))
  {
    var d := [b] + (sign + digits);
    assert d[1..] == sign + digits && d[1 + |sign|..] == digits;
  }

  /** The lexemes that are read as numbers are exactly those of the grammar. */
  lemma NumberAcceptedIff(s: seq<byte>)
    ensures ParseNumber(s) == Ok(Number(s), []) <==> IsNumber(s)
  {
    if IsNumber(s) {
      NumberThen(s, []);
      assert s + [] == s;
    }
    if AfterNumber(s).Ok? && AfterNumber(s).rest == [] {
      ParsedIsNumber(s);
      assert s[..|s|] == s;
    }
  }

  // ---- More input after a value does not change how it is read ----

  lemma {:induction false} SkipWsMore(s: seq<byte>, more: seq<byte>)
    ensures SkipWs(s) != [] ==> SkipWs(s + more) == SkipWs(s) + more
    ensures SkipWs(s) == [] ==> SkipWs(s + more) == SkipWs(more)
  {
    if s == [] {
      assert s + more == more;
    } else if IsWs(s[0]) {
      assert (s + more)[1..] == s[1..] + more;
      SkipWsMore(s[1..], more);
    }
  }

  lemma {:induction false} HexMore(s: seq<byte>, k: nat, val: nat, more: seq<byte>)
    requires ParseHex(s, k, val).Ok?
    ensures ParseHex(s + more, k, val) == Ok(ParseHex(s, k, val).value, ParseHex(s, k, val).rest + more)
  {
    if k > 0 {
      assert (s + more)[1..] == s[1..] + more;
      HexMore(s[1..], k - 1, val * 16 + HexValue(s[0]).value, more);
    }
  }

  lemma UnicodeMore(s: seq<byte>, more: seq<byte>)
    requires ParseUnicode(s).Ok?
    ensures ParseUnicode(s + more) == Ok(ParseUnicode(s).value, ParseUnicode(s).rest + more)
  {
    HexMore(s, 4, 0, more);
    var code, rest := ParseHex(s, 4, 0).value, ParseHex(s, 4, 0).rest;
    if 0xD800 <= code <= 0xDBFF {
      HexMore(rest[2..], 4, 0, more);
      assert (rest + more)[2..] == rest[2..] + more;
    }
  }

  lemma EscapeMore(s: seq<byte>, more: seq<byte>)
    requires ParseEscape(s).Ok?
    ensures ParseEscape(s + more) == Ok(ParseEscape(s).value, ParseEscape(s).rest + more)
  {
    hide ParseUnicode;
    assert (s + more)[1..] == s[1..] + more;
    if s[0] == 0x75 {
      UnicodeMore(s[1..], more);
    }
  }

  lemma ChunkMore(s: seq<byte>, more: seq<byte>)
    requires s != [] && ParseChunk(s).Ok?
    ensures ParseChunk(s + more) == Ok(ParseChunk(s).value, ParseChunk(s).rest + more)
  {
    hide ParseEscape, Passed;
    assert (s + more)[1..] == s[1..] + more;
    if s[0] == 0x5C {
      EscapeMore(s[1..], more);
    } else if s[0] >= 0x80 {
      var n := ExtraBytes(s[0]) + 1;
      assert (s + more)[..n] == s[..n] && (s + more)[n..] == s[n..] + more;
    }
  }

  lemma {:induction false} CharsMore(s: seq<byte>, more: seq<byte>)
    requires ParseChars(s).Ok?
    ensures ParseChars(s + more) == Ok(ParseChars(s).value, ParseChars(s).rest + more)
    decreases |s|
  {
    if s[0] == 0x22 {
      assert (s + more)[1..] == s[1..] + more;
    } else {
      ChunkMore(s, more);
      CharsMore(ParseChunk(s).rest, more);
      assert (s + more)[0] == s[0];
    }
  }

  lemma StringMore(s: seq<byte>, more: seq<byte>)
    requires ParseString(s).Ok?
    ensures ParseString(s + more) == Ok(ParseString(s).value, ParseString(s).rest + more)
  {
    hide ParseChars;
    assert (s + more)[1..] == s[1..] + more;
    CharsMore(s[1..], more);
  }

  lemma {:induction false} LiteralMore(s: seq<byte>, lit: seq<byte>, more: seq<byte>)
    requires ExpectLiteral(s, lit).Ok?
    ensures ExpectLiteral(s + more, lit) == Ok((), ExpectLiteral(s, lit).rest + more)
    decreases |lit|
  {
    if lit == [] {
    } else {
      assert (s + more)[1..] == s[1..] + more;
      LiteralMore(s[1..], lit[1..], more);
    }
  }

  lemma {:induction false} SkipDigitsMore(s: seq<byte>, more: seq<byte>)
    requires SkipDigits(s) == [] ==> Stops(more)
    ensures SkipDigits(s + more) == SkipDigits(s) + more
  {
    if s == [] {
      assert s + more == more;
    } else if IsDigit(s[0]) {
      assert (s + more)[1..] == s[1..] + more;
      SkipDigitsMore(s[1..], more);
    }
  }

  lemma DigitsMore(s: seq<byte>, more: seq<byte>)
    requires ParseDigits(s).Ok? && (ParseDigits(s).rest == [] ==> Stops(more))
    ensures ParseDigits(s + more) == Ok((), ParseDigits(s).rest + more)
  {
    SkipDigitsMore(s, more);
  }

  lemma IntegerMore(s: seq<byte>, more: seq<byte>)
    requires ParseInteger(s).Ok? && (ParseInteger(s).rest == [] ==> Stops(more))
    ensures ParseInteger(s + more) == Ok((), ParseInteger(s).rest + more)
  {
    hide ParseDigits;
    if s != [] && s[0] == 0x30 {
      assert (s + more)[1..] == s[1..] + more;
    } else {
      DigitsMore(s, more);
      assert s != [] by {
        if s == [] {
          NoDigits();
        }
      }
    }
  }

  lemma NoDigits()
    ensures ParseDigits([]).Err?
  {
  }

  lemma FractionMore(s: seq<byte>, more: seq<byte>)
    requires ParseFraction(s).Ok? && (ParseFraction(s).rest == [] ==> Stops(more))
    ensures ParseFraction(s + more) == Ok((), ParseFraction(s).rest + more)
  {
    hide ParseDigits;
    if s == [] {
      assert s + more == more;
    } else if s[0] == 0x2E {
      assert (s + more)[1..] == s[1..] + more;
      DigitsMore(s[1..], more);
    }
  }

  lemma ExponentMore(s: seq<byte>, more: seq<byte>)
    requires ParseExponent(s).Ok? && (ParseExponent(s).rest == [] ==> Stops(more))
    ensures ParseExponent(s + more) == Ok((), ParseExponent(s).rest + more)
  {
    hide ParseDigits;
    NoDigits();
    if s == [] {
      assert s + more == more;
    } else if s[0] == 0x65 || s[0] == 0x45 {
      var t := s[1..];
      assert (s + more)[1..] == t + more;
      assert t != [] && (t + more)[0] == t[0];
      if t[0] == 0x2B || t[0] == 0x2D {
        assert (t + more)[1..] == t[1..] + more;
        DigitsMore(t[1..], more);
      } else {
        DigitsMore(t, more);
      }
    }
  }

  lemma NumberMore(s: seq<byte>, more: seq<byte>)
    requires ParseNumber(s).Ok? && (ParseNumber(s).rest == [] ==> Stops(more))
    ensures ParseNumber(s + more) == Ok(ParseNumber(s).value, ParseNumber(s).rest + more)
  {
    hide ParseInteger, ParseFraction, ParseExponent;
    NoInteger();
    var s1 := if s != [] && s[0] == 0x2D then s[1..] else s;
    var s2 := ParseInteger(s1).rest;
    var s3 := ParseFraction(s2).rest;
    IntegerMore(s1, more);
    FractionMore(s2, more);
    ExponentMore(s3, more);
    assert s != [] && (s + more)[0] == s[0] && (s + more)[1..] == s[1..] + more;
    assert AfterNumber(s + more) == Ok((), AfterNumber(s).rest + more);
    var n := |s| - |AfterNumber(s).rest|;
    assert (s + more)[..n] == s[..n];
  }

  lemma NoInteger()
    ensures ParseInteger([]).Err?
  {
  }

  // ---- Values ----

  lemma {:induction false} ValueMore(s: seq<byte>, more: seq<byte>)
    requires ParseValue(s).Ok? && (ParseValue(s).rest == [] ==> Stops(more))
    ensures ParseValue(s + more) == Ok(ParseValue(s).value, ParseValue(s).rest + more)
    decreases |s|, 2
  {
    hide ParseString, ParseObject, ParseArray, ParseNumber, Literal;
    SkipWsMore(s, more);
    var t := SkipWs(s);
    assert (t + more)[0] == t[0];
    if t[0] == 0x22 {
      StringMore(t, more);
    } else if t[0] == 0x7B {
      ObjectMore(t, more);
    } else if t[0] == 0x5B {
      ArrayMore(t, more);
    } else if t[0] == 0x74 {
      LiteralValueMore(t, TRUE, Bool(true), more);
    } else if t[0] == 0x66 {
      LiteralValueMore(t, FALSE, Bool(false), more);
    } else if t[0] == 0x6E {
      LiteralValueMore(t, NULL, Null, more);
    } else {
      NumberMore(t, more);
    }
  }

  lemma LiteralValueMore(s: seq<byte>, lit: seq<byte>, v: JsonValue, more: seq<byte>)
    requires Literal(s, lit, v).Ok?
    ensures Literal(s, lit, v).value == v && Literal(s + more, lit, v) == Ok(v, Literal(s, lit, v).rest + more)
  {
    hide ExpectLiteral;
    LiteralMore(s, lit, more);
  }

  lemma {:induction false} ObjectMore(s: seq<byte>, more: seq<byte>)
    requires ParseObject(s).Ok?
    ensures ParseObject(s + more) == Ok(ParseObject(s).value, ParseObject(s).rest + more)
    decreases |s|, 1
  {
    hide ParseMembers;
    assert (s + more)[1..] == s[1..] + more;
    var t := SkipWs(s[1..]);
    SkipWsMore(s[1..], more);
    if t == [] {
      NoMembers();
    } else if t[0] == 0x7D {
      assert (t + more)[1..] == t[1..] + more;
    } else {
      MembersMore(t, more);
    }
  }

  lemma NoMembers()
    ensures ParseMembers([]).Err? && ParseItems([]).Err?
  {
  }

  lemma {:induction false} MembersMore(s: seq<byte>, more: seq<byte>)
    requires ParseMembers(s).Ok?
    ensures ParseMembers(s + more) == Ok(ParseMembers(s).value, ParseMembers(s).rest + more)
    decreases |s|, 1
  {
    hide ParseMember;
    var f, rest := ParseMember(s).value, ParseMember(s).rest;
    var t := SkipWs(rest);
    MemberMore(s, more);
    SkipWsMore(rest, more);
    assert (t + more)[1..] == t[1..] + more;
    if t[0] == 0x2C {
      MembersMore(t[1..], more);
    }
  }

  lemma {:induction false} MemberMore(s: seq<byte>, more: seq<byte>)
    requires ParseMember(s).Ok? && SkipWs(ParseMember(s).rest) != []
    ensures ParseMember(s + more) == Ok(ParseMember(s).value, ParseMember(s).rest + more)
    decreases |s|, 0
  {
    hide ParseString, ParseValue;
    SkipWsMore(s, more);
    NoString();
    var s1 := SkipWs(s);
    StringMore(s1, more);
    var s2 := ParseString(s1).rest;
    SkipWsMore(s2, more);
    var s3 := SkipWs(s2);
    assert (s3 + more)[1..] == s3[1..] + more;
    ValueMore(s3[1..], more);
  }

  lemma NoString()
    ensures ParseString([]).Err?
  {
  }

  lemma {:induction false} ArrayMore(s: seq<byte>, more: seq<byte>)
    requires ParseArray(s).Ok?
    ensures ParseArray(s + more) == Ok(ParseArray(s).value, ParseArray(s).rest + more)
    decreases |s|, 1
  {
    hide ParseItems;
    assert (s + more)[1..] == s[1..] + more;
    var t := SkipWs(s[1..]);
    SkipWsMore(s[1..], more);
    if t == [] {
      NoMembers();
    } else if t[0] == 0x5D {
      assert (t + more)[1..] == t[1..] + more;
    } else {
      ItemsMore(t, more);
    }
  }

  lemma {:induction false} ItemsMore(s: seq<byte>, more: seq<byte>)
    requires ParseItems(s).Ok?
    ensures ParseItems(s + more) == Ok(ParseItems(s).value, ParseItems(s).rest + more)
    decreases |s|, 3
  {
    hide ParseValue;
    var rest := ParseValue(s).rest;
    var t := SkipWs(rest);
    ValueMore(s, more);
    SkipWsMore(rest, more);
    assert (t + more)[1..] == t[1..] + more;
    if t[0] == 0x2C {
      ItemsMore(t[1..], more);
    }
  }

  // ---- Printed documents ----

  /** A document to be printed: a plain value, text that is itself a document, or a composite; then strings in any
      spelling, white space around a document, and empty composites with white space inside. */
  datatype Doc =
    | Plain(v: JsonValue)
    | Embedded(bytes: seq<byte>, v: JsonValue)
    | List(items: seq<Doc>)
    | Record(members: seq<Member>)
    | Spelt(parts: seq<Part>)
    | Spaced(before: seq<byte>, doc: Doc, after: seq<byte>)
    | Blank(record: bool, space: seq<byte>)

  /** A member as it is printed, or with any spelling of its key and white space around that. */
  datatype Member =
    | Member(key: Text, doc: Doc)
    | SpeltMember(left: seq<byte>, spelling: seq<Part>, right: seq<byte>, doc: Doc)

  function KeyOf(m: Member): Text {
    match m
    case Member(key, _) => key
    case SpeltMember(_, spelling, _, _) => TextOf(spelling)
  }

  /** White space: space, tab, line feed, carriage return. */
  predicate IsSpace(s: seq<byte>) {
    forall i :: 0 <= i < |s| ==> s[i] == 0x20 || s[i] == 0x09 || s[i] == 0x0A || s[i] == 0x0D
  }

  function Print(d: Doc): seq<byte>
    decreases d
  {
    match d
    case Plain(v) => PrintPlain(v)
    case Embedded(bytes, _) => bytes
    case List(items) => [0x5B] + PrintItems(items) + [0x5D]
    case Record(members) => [0x7B] + PrintMembers(members) + [0x7D]
    case Spelt(parts) => SpeltString(parts)
    case Spaced(before, doc, after) => before + Print(doc) + after
    case Blank(record, space) => if record then [0x7B] + space + [0x7D] else [0x5B] + space + [0x5D]
  }

  function PrintPlain(v: JsonValue): seq<byte> {
    match v
    case Null => NULL
    case Bool(b) => if b then TRUE else FALSE
    case Number(lexeme) => lexeme
    case Str(t) => Quoted(t)
    case Array(_) => []
    case Object(_) => []
  }

  function PrintItems(items: seq<Doc>): seq<byte>
    decreases items
  {
    if items == [] then []
    else if |items| == 1 then Print(items[0])
    else Print(items[0]) + [0x2C] + PrintItems(items[1..])
  }

  function PrintMember(m: Member): seq<byte>
    decreases m
  {
    match m
    case Member(key, doc) => Quoted(key) + [0x3A] + Print(doc)
    case SpeltMember(left, spelling, right, doc) => left + SpeltString(spelling) + right + [0x3A] + Print(doc)
  }

  function PrintMembers(members: seq<Member>): seq<byte>
    decreases members
  {
    if members == [] then []
    else if |members| == 1 then PrintMember(members[0])
    else PrintMember(members[0]) + [0x2C] + PrintMembers(members[1..])
  }

  function ValueOf(d: Doc): JsonValue
    decreases d
  {
    match d
    case Plain(v) => v
    case Embedded(_, v) => v
    case List(items) => Array(ValuesOf(items))
    case Record(members) => Object(FieldsOf(members))
    case Spelt(parts) => Str(TextOf(parts))
    case Spaced(_, doc, _) => ValueOf(doc)
    case Blank(record, _) => if record then Object([]) else Array([])
  }

  function ValuesOf(items: seq<Doc>): seq<JsonValue>
    decreases items
  {
    if items == [] then [] else [ValueOf(items[0])] + ValuesOf(items[1..])
  }

  function FieldsOf(members: seq<Member>): seq<Field>
    decreases members
  {
    if members == [] then [] else [Field(KeyOf(members[0]), ValueOf(members[0].doc))] + FieldsOf(members[1..])
  }

  /** Numbers are in the grammar, embedded text is a document with the stated value, and so on. */
  ghost predicate DocOk(d: Doc)
    decreases d
  {
    match d
    case Plain(v) => (v.Number? ==> IsNumber(v.lexeme)) && !v.Array? && !v.Object?
    case Embedded(bytes, v) => Parse(bytes) == Ok(v, [])
    case List(items) => forall d' :: d' in items ==> DocOk(d')
    case Record(members) => forall m :: m in members ==> DocOk(m.doc) && MemberOk(m)
    case Spelt(parts) => forall p :: p in parts ==> PartOk(p)
    case Spaced(before, doc, after) => IsSpace(before) && DocOk(doc) && IsSpace(after)
    case Blank(_, space) => IsSpace(space)
  }

  /** What a member is besides its document. */
  predicate MemberOk(m: Member) {
    m.SpeltMember? ==> IsSpace(m.left) && IsSpace(m.right) && forall p :: p in m.spelling ==> PartOk(p)
  }

  /** The bytes start with a document of this value; after it, up to white space, comes `more`. */
  ghost predicate ReadsAs(s: seq<byte>, v: JsonValue, more: seq<byte>) {
    var r := ParseValue(s);
    r.Ok? && r.value == v && SkipWs(r.rest) == SkipWs(more)
  }

  /** Every printed document is read back, in front of anything that cannot continue a number. */
  lemma {:induction false} DocParses(d: Doc, more: seq<byte>)
    requires DocOk(d) && Stops(more)
    ensures ReadsAs(Print(d) + more, ValueOf(d), more)
    decreases d
  {
    hide ParseValue, ParseItems, ParseMembers, PrintItems, PrintMembers, PrintPlain, Stops, SkipWs;
    match d {
      case Plain(v) => PlainParses(v, more);
      case Embedded(bytes, v) => EmbeddedParses(bytes, v, more);
      case List(items) =>
        var s := [0x5B] + PrintItems(items) + [0x5D] + more;
        if items == [] {
          EmptyListParses(more);
          NothingPrinted();
          assert s == [0x5B, 0x5D] + more;
        } else {
          ItemsParse(items, more);
          assert s == [0x5B] + (PrintItems(items) + [0x5D] + more);
          ListParses(s, PrintItems(items) + [0x5D] + more);
        }
      case Record(members) =>
        var s := [0x7B] + PrintMembers(members) + [0x7D] + more;
        if members == [] {
          EmptyRecordParses(more);
          NothingPrinted();
          assert s == [0x7B, 0x7D] + more;
        } else {
          MembersParse(members, more);
          assert s == [0x7B] + (PrintMembers(members) + [0x7D] + more);
          RecordParses(s, PrintMembers(members) + [0x7D] + more);
        }
      case Spelt(parts) => SpeltParses(parts, more);
      case Spaced(before, doc, after) =>
        StopsAfter(after, more);
        DocParses(doc, after + more);
        SpacedParses(before, Print(doc), after, ValueOf(doc), more);
      case Blank(record, space) => BlankParses(record, space, more);
    }
  }

  lemma SpeltParses(parts: seq<Part>, more: seq<byte>)
    requires forall p :: p in parts ==> PartOk(p)
    ensures ParseValue(SpeltString(parts) + more) == Ok(Str(TextOf(parts)), more)
  {
    SpeltStringParses(parts, more);
    var s := SpeltString(parts) + more;
    assert s[0] == 0x22;
    hide SpeltString, ParseString;
    assert SkipWs(s) == s;
  }

  lemma {:induction false} SkipSpace(space: seq<byte>, s: seq<byte>)
    requires IsSpace(space)
    ensures SkipWs(space + s) == SkipWs(s)
  {
    if space == [] {
      assert space + s == s;
    } else {
      assert (space + s)[1..] == space[1..] + s;
      SkipSpace(space[1..], s);
    }
  }

  lemma StopsAfter(space: seq<byte>, more: seq<byte>)
    requires IsSpace(space) && Stops(more)
    ensures Stops(space + more)
  {
    if space == [] {
      assert space + more == more;
    } else {
      assert (space + more)[0] == space[0];
    }
  }

  lemma SpacedParses(before: seq<byte>, inner: seq<byte>, after: seq<byte>, v: JsonValue, more: seq<byte>)
    requires IsSpace(before) && IsSpace(after) && ReadsAs(inner + (after + more), v, after + more)
    ensures ReadsAs(before + inner + after + more, v, more)
  {
    var s := inner + (after + more);
    assert before + inner + after + more == before + s;
    SkipSpace(before, s);
    SkipSpace(after, more);
    SkippedValue(before + s, s);
  }

  lemma SkippedValue(s: seq<byte>, t: seq<byte>)
    requires SkipWs(s) == SkipWs(t)
    ensures ParseValue(s) == ParseValue(t)
  {
    hide ParseString, ParseObject, ParseArray, Literal, ParseNumber;
  }

  lemma BlankParses(record: bool, space: seq<byte>, more: seq<byte>)
    requires IsSpace(space)
    ensures var d := Blank(record, space); ParseValue(Print(d) + more) == Ok(ValueOf(d), more)
  {
    var open: byte, close: byte := if record then 0x7B else 0x5B, if record then 0x7D else 0x5D;
    var s := [open] + space + [close] + more;
    assert s[1..] == space + ([close] + more);
    SkipSpace(space, [close] + more);
    assert SkipWs([close] + more) == [close] + more && ([close] + more)[1..] == more;
    assert SkipWs(s) == s;
    hide ParseMembers, ParseItems, IsSpace;
  }

  lemma PlainParses(v: JsonValue, more: seq<byte>)
    requires (v.Number? ==> IsNumber(v.lexeme)) && !v.Array? && !v.Object? && Stops(more)
    ensures ParseValue(PrintPlain(v) + more) == Ok(v, more)
  {
    match v {
      case Number(l) => NumberParses(l, more);
      case Str(t) => StrParses(t, more);
      case Null => LiteralParses(NULL, Null, more);
      case Bool(b) => LiteralParses(if b then TRUE else FALSE, v, more);
    }
  }

  lemma NumberParses(l: seq<byte>, more: seq<byte>)
    requires IsNumber(l) && Stops(more)
    ensures ParseValue(l + more) == Ok(Number(l), more)
  {
    NumberThen(l, more);
    hide ParseNumber, IsNumber, ParseString, ParseObject, ParseArray, Literal, Stops;
    var s := l + more;
    assert s[0] == l[0];
    assert SkipWs(s) == s;
  }

  lemma StrParses(t: Text, more: seq<byte>)
    requires Stops(more)
    ensures ParseValue(Quoted(t) + more) == Ok(Str(t), more)
  {
    QuotedParses(t, more);
    QuoteFirst(t);
    hide ParseNumber, ParseString, ParseObject, ParseArray, Literal, Stops, Quoted;
    var s := Quoted(t) + more;
    assert s[0] == 0x22;
    assert SkipWs(s) == s;
  }

  lemma QuoteFirst(t: Text)
    ensures Quoted(t) != [] && Quoted(t)[0] == 0x22
  {
    hide Encode, Escape;
  }

  lemma {:induction false} LiteralThen(lit: seq<byte>, more: seq<byte>)
    ensures ExpectLiteral(lit + more, lit) == Ok((), more)
    decreases |lit|
  {
    if lit == [] {
      assert lit + more == more;
    } else {
      assert (lit + more)[1..] == lit[1..] + more;
      LiteralThen(lit[1..], more);
    }
  }

  lemma LiteralParses(lit: seq<byte>, v: JsonValue, more: seq<byte>)
    requires (lit == NULL && v == Null) || (lit == TRUE && v == Bool(true)) || (lit == FALSE && v == Bool(false))
    ensures ParseValue(lit + more) == Ok(v, more)
  {
    hide ExpectLiteral;
    LiteralThen(lit, more);
    assert (lit + more)[0] == lit[0] && SkipWs(lit + more) == lit + more;
  }

  /** Embedded text is read as it is read on its own. */
  lemma EmbeddedParses(bytes: seq<byte>, v: JsonValue, more: seq<byte>)
    requires Parse(bytes) == Ok(v, []) && Stops(more)
    ensures ReadsAs(bytes + more, v, more)
  {
    hide ParseValue;
    ValueMore(bytes, more);
    SkipWsMore(ParseValue(bytes).rest, more);
  }

  lemma NothingPrinted()
    ensures PrintItems([]) == [] && PrintMembers([]) == [] && ValuesOf([]) == [] && FieldsOf([]) == []
  {
  }

  lemma EmptyListParses(more: seq<byte>)
    ensures ParseValue([0x5B, 0x5D] + more) == Ok(Array([]), more)
  {
    var s := [0x5B, 0x5D] + more;
    assert s[1..] == [0x5D] + more && SkipWs(s[1..]) == s[1..] && s[1..][1..] == more;
  }

  lemma EmptyRecordParses(more: seq<byte>)
    ensures ParseValue([0x7B, 0x7D] + more) == Ok(Object([]), more)
  {
    var s := [0x7B, 0x7D] + more;
    assert s[1..] == [0x7D] + more && SkipWs(s[1..]) == s[1..] && s[1..][1..] == more;
  }

  lemma ListParses(s: seq<byte>, inner: seq<byte>)
    requires s == [0x5B] + inner && ParseItems(inner).Ok?
    ensures ParseValue(s) == Ok(Array(ParseItems(inner).value), ParseItems(inner).rest)
  {
    var t := SkipWs(inner);
    assert s[1..] == inner && SkipWs(t) == t && SkipWs(s) == s;
    assert ParseValue(t) == ParseValue(inner) && ParseItems(t) == ParseItems(inner);
  }

  lemma RecordParses(s: seq<byte>, inner: seq<byte>)
    requires s == [0x7B] + inner && ParseMembers(inner).Ok?
    ensures ParseValue(s) == Ok(Object(ParseMembers(inner).value), ParseMembers(inner).rest)
  {
    var t := SkipWs(inner);
    assert s[1..] == inner && SkipWs(t) == t && SkipWs(s) == s;
    assert ParseMember(t) == ParseMember(inner) && ParseMembers(t) == ParseMembers(inner);
  }

  lemma {:induction false} ItemsParse(items: seq<Doc>, more: seq<byte>)
    requires items != [] && forall d :: d in items ==> DocOk(d)
    ensures ParseItems(PrintItems(items) + [0x5D] + more) == Ok(ValuesOf(items), more)
    decreases items
  {
    hide ParseValue, ParseItems, Print, DocOk, Stops, SkipWs;
    var s := PrintItems(items) + [0x5D] + more;
    if |items| == 1 {
      StopsAt(0x5D, more);
      DocParses(items[0], [0x5D] + more);
      assert s == Print(items[0]) + ([0x5D] + more);
      LastItemParses(s, more);
      ValuesOfFirst(items);
    } else {
      var next := PrintItems(items[1..]) + [0x5D] + more;
      StopsAt(0x2C, next);
      DocParses(items[0], [0x2C] + next);
      ItemsParse(items[1..], more);
      assert s == Print(items[0]) + ([0x2C] + next);
      NextItemsParse(s, next);
      ValuesOfFirst(items);
    }
  }

  lemma ValuesOfFirst(items: seq<Doc>)
    requires items != []
    ensures ValuesOf(items) == [ValueOf(items[0])] + ValuesOf(items[1..])
    ensures |items| == 1 ==> ValuesOf(items) == [ValueOf(items[0])]
  {
    hide ValueOf;
  }

  lemma LastItemParses(s: seq<byte>, more: seq<byte>)
    requires ParseValue(s).Ok? && SkipWs(ParseValue(s).rest) == SkipWs([0x5D] + more)
    ensures ParseItems(s) == Ok([ParseValue(s).value], more)
  {
    hide ParseValue;
    var tail := [0x5D] + more;
    assert SkipWs(tail) == tail && tail[1..] == more;
  }

  lemma NextItemsParse(s: seq<byte>, next: seq<byte>)
    requires ParseValue(s).Ok? && SkipWs(ParseValue(s).rest) == SkipWs([0x2C] + next) && ParseItems(next).Ok?
    ensures ParseItems(s) == Ok([ParseValue(s).value] + ParseItems(next).value, ParseItems(next).rest)
  {
    hide ParseValue;
    var tail := [0x2C] + next;
    assert SkipWs(tail) == tail && tail[1..] == next;
  }

  lemma StopsAt(b: byte, more: seq<byte>)
    requires b == 0x2C || b == 0x5D || b == 0x7D
    ensures Stops([b] + more)
  {
  }

  lemma {:induction false} MembersParse(members: seq<Member>, more: seq<byte>)
    requires members != [] && forall m :: m in members ==> DocOk(m.doc) && MemberOk(m)
    ensures ParseMembers(PrintMembers(members) + [0x7D] + more) == Ok(FieldsOf(members), more)
    decreases members
  {
    hide ParseValue, ParseMember, ParseMembers, PrintMember, Print, ValueOf, FieldsOf, DocOk, Stops, SkipWs;
    var s := PrintMembers(members) + [0x7D] + more;
    if |members| == 1 {
      StopsAt(0x7D, more);
      MemberParses(members[0], [0x7D] + more);
      assert s == PrintMember(members[0]) + ([0x7D] + more);
      LastMemberParses(s, more);
      FieldsOfFirst(members);
    } else {
      var next := PrintMembers(members[1..]) + [0x7D] + more;
      StopsAt(0x2C, next);
      MemberParses(members[0], [0x2C] + next);
      MembersParse(members[1..], more);
      assert s == PrintMember(members[0]) + ([0x2C] + next);
      NextMembersParse(s, next);
      FieldsOfFirst(members);
    }
  }

  lemma FieldsOfFirst(members: seq<Member>)
    requires members != []
    ensures FieldsOf(members) == [Field(KeyOf(members[0]), ValueOf(members[0].doc))] + FieldsOf(members[1..])
    ensures |members| == 1 ==> FieldsOf(members) == [Field(KeyOf(members[0]), ValueOf(members[0].doc))]
  {
    hide ValueOf;
  }

  lemma LastMemberParses(s: seq<byte>, more: seq<byte>)
    requires ParseMember(s).Ok? && SkipWs(ParseMember(s).rest) == SkipWs([0x7D] + more)
    ensures ParseMembers(s) == Ok([ParseMember(s).value], more)
  {
    hide ParseMember;
    var tail := [0x7D] + more;
    assert SkipWs(tail) == tail && tail[1..] == more;
  }

  lemma NextMembersParse(s: seq<byte>, next: seq<byte>)
    requires ParseMember(s).Ok? && SkipWs(ParseMember(s).rest) == SkipWs([0x2C] + next) && ParseMembers(next).Ok?
    ensures ParseMembers(s) == Ok([ParseMember(s).value] + ParseMembers(next).value, ParseMembers(next).rest)
  {
    hide ParseMember;
    var tail := [0x2C] + next;
    assert SkipWs(tail) == tail && tail[1..] == next;
  }

  lemma {:induction false} MemberParses(m: Member, more: seq<byte>)
    requires DocOk(m.doc) && MemberOk(m) && Stops(more)
    ensures var r := ParseMember(PrintMember(m) + more);
            r.Ok? && r.value == Field(KeyOf(m), ValueOf(m.doc)) && SkipWs(r.rest) == SkipWs(more)
    decreases m
  {
    DocParses(m.doc, more);
    var body := Print(m.doc) + more;
    MemberIsRead(m, more);
    hide *;
    var r := ParseMember(PrintMember(m) + more);
    assert r == Ok(Field(KeyOf(m), ParseValue(body).value), ParseValue(body).rest);
    assert ReadsAs(body, ValueOf(m.doc), more);
    ReadsMeans(body, ValueOf(m.doc), more);
  }

  lemma ReadsMeans(s: seq<byte>, v: JsonValue, more: seq<byte>)
    requires ReadsAs(s, v, more)
    ensures ParseValue(s).Ok? && ParseValue(s).value == v && SkipWs(ParseValue(s).rest) == SkipWs(more)
  {
    hide ParseValue;
  }

  lemma MemberIsRead(m: Member, more: seq<byte>)
    requires MemberOk(m) && ParseValue(Print(m.doc) + more).Ok?
    ensures var r := ParseValue(Print(m.doc) + more);
            ParseMember(PrintMember(m) + more) == Ok(Field(KeyOf(m), r.value), r.rest)
  {
    match m {
      case Member(_, _) => KeyMemberIsRead(m, more);
      case SpeltMember(_, _, _, _) => SpeltMemberIsRead(m, more);
    }
  }

  lemma KeyMemberIsRead(m: Member, more: seq<byte>)
    requires m.Member? && ParseValue(Print(m.doc) + more).Ok?
    ensures var r := ParseValue(Print(m.doc) + more);
            ParseMember(PrintMember(m) + more) == Ok(Field(m.key, r.value), r.rest)
  {
    hide ParseValue, ParseString, Print, Encode, Escape, ParseMember;
    var body := Print(m.doc) + more;
    QuotedParses(m.key, [] + ([0x3A] + body));
    QuoteFirst(m.key);
    hide Quoted;
    KeyThenValue([], Quoted(m.key), m.key, [], body);
    assert PrintMember(m) + more == [] + (Quoted(m.key) + ([] + ([0x3A] + body)));
  }

  lemma SpeltMemberIsRead(m: Member, more: seq<byte>)
    requires m.SpeltMember? && MemberOk(m) && ParseValue(Print(m.doc) + more).Ok?
    ensures var r := ParseValue(Print(m.doc) + more);
            ParseMember(PrintMember(m) + more) == Ok(Field(TextOf(m.spelling), r.value), r.rest)
  {
    hide ParseValue, ParseString, Print, ParseMember, PartsBytes, Encode, IsSpace, PartOk;
    var body := Print(m.doc) + more;
    SpeltStringParses(m.spelling, m.right + ([0x3A] + body));
    assert SpeltString(m.spelling)[0] == 0x22;
    hide SpeltString;
    KeyThenValue(m.left, SpeltString(m.spelling), TextOf(m.spelling), m.right, body);
    assert PrintMember(m) + more == m.left + (SpeltString(m.spelling) + (m.right + ([0x3A] + body)));
  }

  /** A key between white space, a colon, and a value. */
  lemma KeyThenValue(left: seq<byte>, string_: seq<byte>, key: Text, right: seq<byte>, body: seq<byte>)
    requires IsSpace(left) && IsSpace(right) && string_ != [] && string_[0] == 0x22
    requires ParseString(string_ + (right + ([0x3A] + body))) == Ok(key, right + ([0x3A] + body)) && ParseValue(body).Ok?
    ensures ParseMember(left + (string_ + (right + ([0x3A] + body)))) == Ok(Field(key, ParseValue(body).value), ParseValue(body).rest)
  {
    hide ParseValue, ParseString;
    var t := right + ([0x3A] + body);
    SkipSpace(left, string_ + t);
    assert SkipWs(string_ + t) == string_ + t;
    SkipSpace(right, [0x3A] + body);
    assert SkipWs([0x3A] + body) == [0x3A] + body && ([0x3A] + body)[1..] == body;
  }

  /** Parsing a printed document gives its value. */
  lemma PrintedParses(d: Doc)
    requires DocOk(d)
    ensures Parse(Print(d)) == Ok(ValueOf(d), [])
  {
    hide ParseValue, Print, DocOk;
    DocParses(d, []);
    assert Print(d) + [] == Print(d);
  }

  // ---- JSON trees ----

  /** The document that prints a tree. */
  function DocOf(v: JsonValue): Doc
    decreases v
  {
    match v
    case Array(items) => List(DocsOf(items))
    case Object(fields) => Record(MembersOf(fields))
    case _ => Plain(v)
  }

  function DocsOf(items: seq<JsonValue>): seq<Doc>
    decreases items
  {
    if items == [] then [] else [DocOf(items[0])] + DocsOf(items[1..])
  }

  function MembersOf(fields: seq<Field>): seq<Member>
    decreases fields
  {
    if fields == [] then [] else [Member(fields[0].key, DocOf(fields[0].value))] + MembersOf(fields[1..])
  }

  /** Every number in the tree is in the grammar. */
  ghost predicate TreeOk(v: JsonValue)
    decreases v
  {
    match v
    case Number(l) => IsNumber(l)
    case Array(items) => forall w :: w in items ==> TreeOk(w)
    case Object(fields) => forall f :: f in fields ==> TreeOk(f.value)
    case _ => true
  }

  lemma {:induction false} DocOfTree(v: JsonValue)
    requires TreeOk(v)
    ensures DocOk(DocOf(v)) && ValueOf(DocOf(v)) == v
    decreases v
  {
    match v {
      case Array(items) => DocsOfTrees(items);
      case Object(fields) => MembersOfTrees(fields);
      case _ =>
    }
  }

  lemma {:induction false} DocsOfTrees(items: seq<JsonValue>)
    requires forall w :: w in items ==> TreeOk(w)
    ensures (forall d :: d in DocsOf(items) ==> DocOk(d)) && ValuesOf(DocsOf(items)) == items
    decreases items
  {
    if items != [] {
      DocOfTree(items[0]);
      DocsOfTrees(items[1..]);
      assert DocsOf(items)[1..] == DocsOf(items[1..]);
    }
  }

  lemma {:induction false} MembersOfTrees(fields: seq<Field>)
    requires forall f :: f in fields ==> TreeOk(f.value)
    ensures (forall m :: m in MembersOf(fields) ==> DocOk(m.doc) && MemberOk(m)) && FieldsOf(MembersOf(fields)) == fields
    decreases fields
  {
    if fields != [] {
      DocOfTree(fields[0].value);
      MembersOfTrees(fields[1..]);
      assert MembersOf(fields)[1..] == MembersOf(fields[1..]);
    }
  }

  /** Parsing any printed tree returns that tree. */
  lemma TreeRoundTrip(v: JsonValue)
    requires TreeOk(v)
    ensures Parse(Print(DocOf(v))) == Ok(v, [])
  {
    DocOfTree(v);
    hide TreeOk, DocOk, Parse;
    PrintedParses(DocOf(v));
  }
}
