/** The parser accepts exactly the documents that can be written: whatever it reads is one, with the value it gives. */
module JsonGrammar {
  import opened Bits
  import opened Utf8
  import opened Json
  import opened JsonText
  import opened JsonSpelling
  import opened JsonLaws

  /** Documents in which every byte is written by the grammar: nothing is embedded. */
  predicate Written(d: Doc)
    decreases d
  {
    match d
    case Embedded(_, _) => false
    case List(items) => items != [] && forall d' :: d' in items ==> Written(d')
    case Record(members) => members != [] && forall m :: m in members ==> Written(m.doc)
    case Spaced(_, doc, _) => Written(doc)
    case _ => true
  }

  // ---- White space ----

  /** The white space at the front. */
  function Space(s: seq<byte>): seq<byte> {
    s[..|s| - |SkipWs(s)|]
  }

  lemma {:induction false} SpaceSkipped(s: seq<byte>)
    ensures IsSpace(Space(s)) && s == Space(s) + SkipWs(s)
  {
    if s != [] && IsWs(s[0]) {
      SpaceSkipped(s[1..]);
      assert SkipWs(s) == SkipWs(s[1..]);
      assert Space(s) == [s[0]] + Space(s[1..]);
    }
  }

  // ---- Strings ----

  /** Each step inside a string reads a part. */
  lemma ChunkIsPart(s: seq<byte>) returns (p: Part)
    requires s != [] && s[0] != 0x22 && ParseChunk(s).Ok?
    ensures PartOk(p) && s == PartBytes(p) + ParseChunk(s).rest && ParseChunk(s).value == PartText(p)
  {
    if s[0] == 0x5C && s[1] == 0x75 {
      p := UnicodeIsPart(s);
    } else if s[0] == 0x5C {
      p := ShortIsPart(s);
    } else if s[0] < 0x80 {
      p := Good(Piece(s[0], AsIs));
      OneAscii(s[0]);
      assert s == [s[0]] + s[1..];
    } else {
      p := LongIsPart(s);
    }
  }

  lemma OneAscii(b: byte)
    requires b < 0x80
    ensures Encode([b as scalar]) == [b]
  {
    assert [b as scalar][1..] == [];
  }

  lemma ShortIsPart(s: seq<byte>) returns (p: Part)
    requires |s| > 0 && s[0] == 0x5C && ParseChunk(s).Ok? && s[1] != 0x75
    ensures PartOk(p) && s == PartBytes(p) + ParseChunk(s).rest && ParseChunk(s).value == PartText(p)
  {
    var e := s[1];
    assert s[1..][0] == e && s[1..][1..] == s[2..];
    var c: scalar := if e == 0x6E then 0x0A else if e == 0x72 then 0x0D else if e == 0x74 then 0x09
                     else if e == 0x62 then 0x08 else if e == 0x66 then 0x0C else e;
    assert ParseEscape(s[1..]) == Ok([c], s[2..]) && ShortLetter(c) == Some(e as scalar);
    p := Good(Piece(c, Short));
    EncodeAscii([0x5C, e]);
    assert Encode(Spelled(p.piece)) == [0x5C, e];
    assert s == [0x5C, e] + s[2..];
  }

  /** The six bytes of an escaped code unit. */
  lemma UnitIsWritten(s: seq<byte>) returns (caps: Case)
    requires |s| >= 2 && s[0] == 0x5C && s[1] == 0x75 && ParseHex(s[2..], 4, 0).Ok?
    ensures var r := ParseHex(s[2..], 4, 0);
            r.value < 0x10000 && s == Encode(UnitEscape(r.value, caps)) + r.rest
  {
    var t := s[2..];
    ReadIsUnit(t);
    var u := ParseHex(t, 4, 0).value;
    UnitReads(u, t);
    caps :| DigitsOf(t, u, caps);
    var e := UnitEscape(u, caps);
    EncodeAscii(e);
    hide UnitEscape, ParseHex;
    assert e[0] == 0x5C && e[1] == 0x75 by {
      FirstTwo(u, caps);
    }
    assert s == s[..6] + s[6..] && t[4..] == s[6..];
    assert forall i :: 0 <= i < 6 ==> s[i] == e[i] by {
      assert forall i :: 0 <= i < 4 ==> s[2 + i] == t[i] == e[2 + i];
      assert s[3] == s[2 + 1] && s[4] == s[2 + 2] && s[5] == s[2 + 3];
    }
    assert s[..6] == Encode(e);
  }

  lemma FirstTwo(u: nat, caps: Case)
    requires u < 0x10000
    ensures UnitEscape(u, caps)[0] == 0x5C && UnitEscape(u, caps)[1] == 0x75
  {
  }

  lemma UnicodeIsPart(s: seq<byte>) returns (p: Part)
    requires |s| >= 2 && s[0] == 0x5C && s[1] == 0x75 && ParseChunk(s).Ok?
    ensures PartOk(p) && s == PartBytes(p) + ParseChunk(s).rest && ParseChunk(s).value == PartText(p)
  {
    assert s[1..][0] == 0x75 && s[1..][1..] == s[2..];
    assert ParseChunk(s) == ParseUnicode(s[2..]);
    var caps := UnitIsWritten(s);
    var code, rest := ParseHex(s[2..], 4, 0).value, ParseHex(s[2..], 4, 0).rest;
    if 0xD800 <= code <= 0xDBFF {
      var caps' := UnitIsWritten(rest);
      p := PairIsPart(s, rest, code, caps, caps');
    } else if 0xDC00 <= code <= 0xDFFF {
      p := LowAlone(code, caps);
      hide ParseHex, UnitEscape, Encode;
    } else {
      p := Good(Piece(code, Hex(caps, caps)));
      hide ParseHex, UnitEscape, Encode;
    }
  }

  lemma PairIsPart(s: seq<byte>, rest: seq<byte>, code: nat, caps: Case, caps': Case) returns (p: Part)
    requires 0xD800 <= code <= 0xDBFF && s == Encode(UnitEscape(code, caps)) + rest && |s| >= 2 && ParseUnicode(s[2..]).Ok?
    requires ParseHex(s[2..], 4, 0) == Ok(code, rest) && |rest| >= 2 && ParseHex(rest[2..], 4, 0).Ok?
    requires var r := ParseHex(rest[2..], 4, 0); r.value < 0x10000 && rest == Encode(UnitEscape(r.value, caps')) + r.rest
    ensures PartOk(p) && s == PartBytes(p) + ParseUnicode(s[2..]).rest && ParseUnicode(s[2..]).value == PartText(p)
  {
    hide ParseHex, UnitEscape, Encode;
    var low := ParseHex(rest[2..], 4, 0).value;
    var c := 0x10000 + (code - 0xD800) * 1024 + (low - 0xDC00);
    assert ParseUnicode(s[2..]).value == CharOf(c) == [c];
    assert HighUnit(c) == code && LowUnit(c) == low;
    p := Good(Piece(c, Hex(caps, caps')));
    EncodeAppend(UnitEscape(code, caps), UnitEscape(low, caps'));
  }

  lemma LongIsPart(s: seq<byte>) returns (p: Part)
    requires s != [] && s[0] >= 0x80 && ParseChunk(s).Ok?
    ensures PartOk(p) && s == PartBytes(p) + ParseChunk(s).rest && ParseChunk(s).value == PartText(p)
  {
    var n := Announced(s[0]);
    var front := s[..n];
    assert s == front + s[n..] && front[0] == s[0];
    if Decode(front).Some? {
      var c := OneCharacter(front);
      p := Good(Piece(c, AsIs));
      hide Encode, Decode;
    } else {
      p := Malformed(front);
      hide Decode;
    }
  }

  /** Bytes as many as their first announces are one character, if they are text. */
  lemma OneCharacter(front: seq<byte>) returns (c: scalar)
    requires front != [] && front[0] >= 0x80 && |front| == Announced(front[0]) && Decode(front).Some?
    ensures Decode(front) == Some([c]) && Encode([c]) == front && c != 0x22 && c != 0x5C
  {
    var n := LengthOf(front[0]);
    c := DecodeFirst(front).value;
    assert n == |front|;
    assert front[n..] == [];
    assert Decode([]) == Some([]);
    assert Decode(front) == Some([c] + []);
    assert [c] + [] == [c];
    EncodeDecoded(front);
    DecodeFirstOfEncoded(c, []);
    assert [c][1..] == [] && Encode([c]) == EncodeScalar(c) + [];
  }

  /** What is read as the inside of a string is a sequence of parts and a quotation mark. */
  lemma {:induction false} CharsAreParts(s: seq<byte>) returns (ps: seq<Part>)
    requires ParseChars(s).Ok?
    ensures forall p :: p in ps ==> PartOk(p)
    ensures s == PartsBytes(ps) + [0x22] + ParseChars(s).rest && TextOf(ps) == ParseChars(s).value
    decreases |s|
  {
    hide PartOk, PartBytes, PartText, ParseChunk;
    if s[0] == 0x22 {
      ps := [];
      assert s == [0x22] + s[1..];
    } else {
      var p := ChunkIsPart(s);
      var rest := CharsAreParts(ParseChunk(s).rest);
      ps := [p] + rest;
      assert ps[1..] == rest;
      Associates(PartBytes(p), PartsBytes(rest), [0x22], ParseChars(s).rest);
    }
  }

  lemma StringIsSpelt(s: seq<byte>) returns (ps: seq<Part>)
    requires ParseString(s).Ok?
    ensures forall p :: p in ps ==> PartOk(p)
    ensures s == SpeltString(ps) + ParseString(s).rest && TextOf(ps) == ParseString(s).value
  {
    hide ParseChars, PartsBytes, TextOf, PartOk;
    ps := CharsAreParts(s[1..]);
    assert ParseString(s) == ParseChars(s[1..]) && s == [0x22] + s[1..];
    hide ParseString;
    Enclosed(PartsBytes(ps), ParseString(s).rest);
  }

  lemma Enclosed(b: seq<byte>, rest: seq<byte>)
    ensures [0x22] + (b + [0x22] + rest) == [0x22] + b + [0x22] + rest
  {
  }

  // ---- Numbers and literals ----

  lemma {:induction false} LiteralIs(s: seq<byte>, lit: seq<byte>)
    requires ExpectLiteral(s, lit).Ok?
    ensures s == lit + ExpectLiteral(s, lit).rest
    decreases |lit|
  {
    if lit == [] {
      assert s == [] + s;
    } else {
      LiteralIs(s[1..], lit[1..]);
      assert s == [s[0]] + s[1..] && lit == [lit[0]] + lit[1..];
    }
  }

  lemma LiteralIsPrinted(s: seq<byte>, lit: seq<byte>, v: JsonValue) returns (d: Doc)
    requires Literal(s, lit, v).Ok?
    requires (lit == NULL && v == Null) || (lit == TRUE && v == Bool(true)) || (lit == FALSE && v == Bool(false))
    ensures DocOk(d) && Written(d) && s == Print(d) + Literal(s, lit, v).rest && ValueOf(d) == Literal(s, lit, v).value
  {
    LiteralIs(s, lit);
    d := Plain(v);
    hide ExpectLiteral;
  }

  lemma NumberIsPrinted(s: seq<byte>) returns (d: Doc)
    requires ParseNumber(s).Ok?
    ensures DocOk(d) && Written(d) && s == Print(d) + ParseNumber(s).rest && ValueOf(d) == ParseNumber(s).value
  {
    ParsedIsNumber(s);
    hide AfterNumber, IsNumber;
    d := Plain(ParseNumber(s).value);
  }

  // ---- Values ----

  /** What is read as a value is white space and a document. */
  lemma {:induction false} ValueIsPrinted(s: seq<byte>) returns (before: seq<byte>, d: Doc)
    requires ParseValue(s).Ok?
    ensures IsSpace(before) && DocOk(d) && Written(d)
    ensures s == before + Print(d) + ParseValue(s).rest && ValueOf(d) == ParseValue(s).value
    decreases |s|, 2
  {
    var t := SkipWs(s);
    SpaceSkipped(s);
    before := Space(s);
    hide ParseString, ParseObject, ParseArray, Literal, ParseNumber, IsSpace, Space, SkipWs, DocOk, Written, Print, ValueOf;
    if t[0] == 0x22 {
      var ps := StringIsSpelt(t);
      d := Spelt(ps);
      SpeltIs(ps);
      assert t == Print(d) + ParseValue(s).rest && ValueOf(d) == ParseValue(s).value;
    } else if t[0] == 0x7B {
      d := ObjectIsPrinted(t);
    } else if t[0] == 0x5B {
      d := ArrayIsPrinted(t);
    } else if t[0] == 0x74 {
      d := LiteralIsPrinted(t, TRUE, Bool(true));
    } else if t[0] == 0x66 {
      d := LiteralIsPrinted(t, FALSE, Bool(false));
    } else if t[0] == 0x6E {
      d := LiteralIsPrinted(t, NULL, Null);
    } else {
      d := NumberIsPrinted(t);
      assert t == Print(d) + ParseValue(s).rest && ValueOf(d) == ParseValue(s).value;
    }
    assert t == Print(d) + ParseValue(s).rest && ValueOf(d) == ParseValue(s).value;
    assert before + (Print(d) + ParseValue(s).rest) == before + Print(d) + ParseValue(s).rest;
  }

  lemma SpeltIs(ps: seq<Part>)
    requires forall p :: p in ps ==> PartOk(p)
    ensures DocOk(Spelt(ps)) && Written(Spelt(ps)) && Print(Spelt(ps)) == SpeltString(ps) && ValueOf(Spelt(ps)) == Str(TextOf(ps))
  {
  }

  lemma {:induction false} ArrayIsPrinted(s: seq<byte>) returns (d: Doc)
    requires ParseArray(s).Ok?
    ensures DocOk(d) && Written(d) && s == Print(d) + ParseArray(s).rest && ValueOf(d) == ParseArray(s).value
    decreases |s|, 1
  {
    hide ParseArray, ParseItems, SkipWs, Space, IsSpace, DocOk, Written, Print, ValueOf, PrintItems, ValuesOf;
    var u := s[1..];
    ArrayBranches(s);
    SpaceSkipped(u);
    if ParseArray(s).value == Array([]) && SkipWs(u) == [0x5D] + ParseArray(s).rest {
      d := Blank(false, Space(u));
      BlankIs(false, Space(u));
      var rest := ParseArray(s).rest;
      assert [0x5B] + (Space(u) + ([0x5D] + rest)) == [0x5B] + Space(u) + [0x5D] + rest;
    } else {
      var items := ItemsArePrinted(u);
      d := List(items);
      ListIs(items);
      var rest := ParseArray(s).rest;
      assert [0x5B] + (PrintItems(items) + [0x5D] + rest) == [0x5B] + PrintItems(items) + [0x5D] + rest;
    }
  }

  /** An array is empty, or its items follow. */
  lemma ArrayBranches(s: seq<byte>)
    requires ParseArray(s).Ok?
    ensures var r, u := ParseArray(s), s[1..];
            && s == [0x5B] + u && |u| < |s|
            && ((r.value == Array([]) && SkipWs(u) == [0x5D] + r.rest)
                || (ParseItems(u).Ok? && r == Ok(Array(ParseItems(u).value), ParseItems(u).rest)))
  {
    var u := s[1..];
    ItemsSkip(u);
    hide ParseItems, SkipWs;
    var t := SkipWs(u);
    if t != [] && t[0] == 0x5D {
      assert t == [0x5D] + t[1..];
    }
  }

  lemma ListIs(items: seq<Doc>)
    requires items != [] && forall d :: d in items ==> DocOk(d) && Written(d)
    ensures var d := List(items);
            DocOk(d) && Written(d) && Print(d) == [0x5B] + PrintItems(items) + [0x5D] && ValueOf(d) == Array(ValuesOf(items))
  {
  }

  lemma BlankIs(record: bool, space: seq<byte>)
    requires IsSpace(space)
    ensures var d := Blank(record, space);
            && DocOk(d) && Written(d) && ValueOf(d) == (if record then Object([]) else Array([]))
            && Print(d) == if record then [0x7B] + space + [0x7D] else [0x5B] + space + [0x5D]
  {
  }

  lemma ItemsSkip(u: seq<byte>)
    ensures ParseItems(u) == ParseItems(SkipWs(u))
  {
    SkipTwice(u);
    SkippedValue(u, SkipWs(u));
    hide ParseValue;
  }

  lemma SkipTwice(u: seq<byte>)
    ensures SkipWs(SkipWs(u)) == SkipWs(u)
  {
  }

  /** One item with the white space on both sides. */
  lemma SpacedIs(before: seq<byte>, d: Doc, after: seq<byte>)
    requires IsSpace(before) && DocOk(d) && Written(d) && IsSpace(after)
    ensures var e := Spaced(before, d, after);
            DocOk(e) && Written(e) && Print(e) == before + Print(d) + after && ValueOf(e) == ValueOf(d)
  {
  }

  lemma {:induction false} ItemsArePrinted(s: seq<byte>) returns (items: seq<Doc>)
    requires ParseItems(s).Ok?
    ensures items != [] && (forall d :: d in items ==> DocOk(d) && Written(d))
    ensures s == PrintItems(items) + [0x5D] + ParseItems(s).rest && ValuesOf(items) == ParseItems(s).value
    decreases |s|, 3
  {
    var before, d := ValueIsPrinted(s);
    var v, more := ParseValue(s).value, ParseValue(s).rest;
    var t := SkipWs(more);
    SpaceSkipped(more);
    SpacedIs(before, d, Space(more));
    var item := Spaced(before, d, Space(more));
    assert t == [t[0]] + t[1..];
    Front(s, before, Print(d), Space(more), t);
    if t[0] == 0x2C {
      assert ParseItems(s).Ok? ==> ParseItems(t[1..]).Ok?;
      var rest := ItemsArePrinted(t[1..]);
      items := [item] + rest;
      hide ParseValue, Print, SkipWs, DocOk, Written, ValueOf, Space, IsSpace;
      assert items[1..] == rest && |items| > 1;
      ItemsGrow(item, rest);
      Back(Print(item), 0x2C, PrintItems(rest), 0x5D, ParseItems(s).rest);
    } else {
      items := [item];
      OneItem(item);
      hide ParseValue, Print, SkipWs, DocOk, Written, ValueOf, Space, IsSpace, PrintItems, ValuesOf;
      assert Print(item) + ([0x5D] + t[1..]) == Print(item) + [0x5D] + t[1..];
    }
  }

  lemma ItemsGrow(item: Doc, rest: seq<Doc>)
    requires rest != []
    ensures PrintItems([item] + rest) == Print(item) + [0x2C] + PrintItems(rest)
    ensures ValuesOf([item] + rest) == [ValueOf(item)] + ValuesOf(rest)
  {
    hide Print, ValueOf;
    assert ([item] + rest)[1..] == rest;
  }

  lemma OneItem(item: Doc)
    ensures PrintItems([item]) == Print(item) && ValuesOf([item]) == [ValueOf(item)]
  {
    hide Print, ValueOf;
    assert [item][1..] == [];
  }

  lemma Front(s: seq<byte>, before: seq<byte>, inner: seq<byte>, after: seq<byte>, t: seq<byte>)
    requires s == before + inner + (after + t)
    ensures s == before + inner + after + t
  {
  }

  lemma Back(a: seq<byte>, comma: byte, b: seq<byte>, end: byte, rest: seq<byte>)
    ensures a + ([comma] + (b + [end] + rest)) == a + [comma] + b + [end] + rest
  {
  }

  lemma {:induction false} ObjectIsPrinted(s: seq<byte>) returns (d: Doc)
    requires ParseObject(s).Ok?
    ensures DocOk(d) && Written(d) && s == Print(d) + ParseObject(s).rest && ValueOf(d) == ParseObject(s).value
    decreases |s|, 1
  {
    hide ParseObject, ParseMembers, SkipWs, Space, IsSpace, DocOk, Written, Print, ValueOf, PrintMembers, FieldsOf;
    var u := s[1..];
    ObjectBranches(s);
    SpaceSkipped(u);
    if ParseObject(s).value == Object([]) && SkipWs(u) == [0x7D] + ParseObject(s).rest {
      d := Blank(true, Space(u));
      BlankIs(true, Space(u));
      var rest := ParseObject(s).rest;
      assert [0x7B] + (Space(u) + ([0x7D] + rest)) == [0x7B] + Space(u) + [0x7D] + rest;
    } else {
      var members := MembersArePrinted(u);
      d := Record(members);
      RecordIs(members);
      var rest := ParseObject(s).rest;
      assert [0x7B] + (PrintMembers(members) + [0x7D] + rest) == [0x7B] + PrintMembers(members) + [0x7D] + rest;
    }
  }

  /** An object is empty, or its members follow. */
  lemma ObjectBranches(s: seq<byte>)
    requires ParseObject(s).Ok?
    ensures var r, u := ParseObject(s), s[1..];
            && s == [0x7B] + u && |u| < |s|
            && ((r.value == Object([]) && SkipWs(u) == [0x7D] + r.rest)
                || (ParseMembers(u).Ok? && r == Ok(Object(ParseMembers(u).value), ParseMembers(u).rest)))
  {
    var u := s[1..];
    MembersSkip(u);
    hide ParseMembers, SkipWs;
    var t := SkipWs(u);
    if t != [] && t[0] == 0x7D {
      assert t == [0x7D] + t[1..];
    }
  }

  lemma RecordIs(members: seq<Member>)
    requires members != [] && forall m :: m in members ==> DocOk(m.doc) && MemberOk(m) && Written(m.doc)
    ensures var d := Record(members);
            DocOk(d) && Written(d) && Print(d) == [0x7B] + PrintMembers(members) + [0x7D] && ValueOf(d) == Object(FieldsOf(members))
  {
  }

  lemma MembersSkip(u: seq<byte>)
    ensures ParseMembers(u) == ParseMembers(SkipWs(u))
  {
    SkipTwice(u);
    hide ParseString, ParseValue;
    assert ParseMember(u) == ParseMember(SkipWs(u));
    hide ParseMember;
  }

  lemma {:induction false} MembersArePrinted(s: seq<byte>) returns (members: seq<Member>)
    requires ParseMembers(s).Ok?
    ensures members != [] && (forall m :: m in members ==> DocOk(m.doc) && MemberOk(m) && Written(m.doc))
    ensures s == PrintMembers(members) + [0x7D] + ParseMembers(s).rest && FieldsOf(members) == ParseMembers(s).value
    decreases |s|, 1
  {
    hide ParseMember, PrintMember, SkipWs, DocOk, Written, ValueOf, MemberOk, PrintMembers, FieldsOf, KeyOf;
    var m := MemberIsPrinted(s);
    var t := SkipWs(ParseMember(s).rest);
    assert t == [t[0]] + t[1..];
    if t[0] == 0x2C {
      var rest := MembersArePrinted(t[1..]);
      members := [m] + rest;
      MembersGrow(m, rest);
      Back(PrintMember(m), 0x2C, PrintMembers(rest), 0x7D, ParseMembers(s).rest);
    } else {
      members := [m];
      OneMember(m);
      assert PrintMember(m) + ([0x7D] + t[1..]) == PrintMember(m) + [0x7D] + t[1..];
    }
  }

  lemma MembersGrow(m: Member, rest: seq<Member>)
    requires rest != []
    ensures PrintMembers([m] + rest) == PrintMember(m) + [0x2C] + PrintMembers(rest)
    ensures FieldsOf([m] + rest) == [Field(KeyOf(m), ValueOf(m.doc))] + FieldsOf(rest)
  {
    hide PrintMember, ValueOf, KeyOf;
    assert ([m] + rest)[1..] == rest;
  }

  lemma OneMember(m: Member)
    ensures PrintMembers([m]) == PrintMember(m) && FieldsOf([m]) == [Field(KeyOf(m), ValueOf(m.doc))]
  {
    hide PrintMember, ValueOf, KeyOf;
    assert [m][1..] == [];
  }

  /** A member with the white space after its value. */
  lemma {:induction false} MemberIsPrinted(s: seq<byte>) returns (m: Member)
    requires ParseMember(s).Ok?
    ensures DocOk(m.doc) && MemberOk(m) && Written(m.doc)
    ensures s == PrintMember(m) + SkipWs(ParseMember(s).rest) && Field(KeyOf(m), ValueOf(m.doc)) == ParseMember(s).value
    decreases |s|, 0
  {
    hide ParseMember, ParseString, ParseValue, SkipWs, DocOk, Written, ValueOf, Print, Space, SpeltString, PartOk, IsSpace;
    MemberBranches(s);
    var t := SkipWs(s);
    SpaceSkipped(s);
    var ps := StringIsSpelt(t);
    var r := ParseString(t).rest;
    var u := SkipWs(r)[1..];
    SpaceSkipped(r);
    var before, d := ValueIsPrinted(u);
    var more := ParseValue(u).rest;
    SpaceSkipped(more);
    SpacedIs(before, d, Space(more));
    var doc := Spaced(before, d, Space(more));
    m := SpeltMember(Space(s), ps, Space(r), doc);
    MemberAssociates(Space(s), SpeltString(ps), Space(r), before, Print(d), Space(more), SkipWs(more));
  }

  /** A member is a string, a colon, and a value. */
  lemma MemberBranches(s: seq<byte>)
    requires ParseMember(s).Ok?
    ensures var key := ParseString(SkipWs(s));
            && key.Ok? && var u := SkipWs(key.rest);
            && u != [] && u == [0x3A] + u[1..] && |u| <= |key.rest| < |SkipWs(s)| <= |s|
            && var v := ParseValue(u[1..]);
            v.Ok? && ParseMember(s) == Ok(Field(key.value, v.value), v.rest)
  {
    hide ParseString, ParseValue, SkipWs;
    var u := SkipWs(ParseString(SkipWs(s)).rest);
    assert u == [0x3A] + u[1..];
  }

  lemma MemberAssociates(a: seq<byte>, b: seq<byte>, c: seq<byte>, d: seq<byte>, e: seq<byte>, f: seq<byte>, g: seq<byte>)
    ensures a + (b + (c + ([0x3A] + (d + e + (f + g))))) == a + b + c + [0x3A] + (d + e + f) + g
  {
    assert [0x3A] + (d + e + (f + g)) == [0x3A] + (d + e + f) + g;
    assert a + (b + (c + ([0x3A] + (d + e + f) + g))) == a + b + c + ([0x3A] + (d + e + f) + g);
  }

  // ---- Documents ----

  /** These bytes write this value. */
  ghost predicate Writes(s: seq<byte>, v: JsonValue) {
    exists d: Doc :: DocOk(d) && Written(d) && Print(d) == s && ValueOf(d) == v
  }

  /** The parser accepts exactly what can be written, as the value that was written. */
  lemma AcceptedIffWritten(s: seq<byte>, v: JsonValue)
    ensures Parse(s) == Ok(v, []) <==> Writes(s, v)
  {
    if Parse(s) == Ok(v, []) {
      var before, d := ValueIsPrinted(s);
      var rest := ParseValue(s).rest;
      SpaceSkipped(rest);
      SpacedIs(before, d, Space(rest));
      hide ParseValue, SkipWs, DocOk, Written, Print, ValueOf, IsSpace;
      var e := Spaced(before, d, Space(rest));
      assert rest == Space(rest) + [];
      assert Print(e) == s;
      assert DocOk(e) && Written(e) && Print(e) == s && ValueOf(e) == v;
    }
    if Writes(s, v) {
      var d :| DocOk(d) && Written(d) && Print(d) == s && ValueOf(d) == v;
      hide Parse, DocOk, Written, Print, ValueOf;
      PrintedParses(d);
    }
  }

  /** Accepted bytes have one value, and every other input is an error. */
  lemma RejectedIff(s: seq<byte>)
    ensures Parse(s).Err? <==> !exists v :: Writes(s, v)
  {
    hide ParseValue, Writes;
    if Parse(s).Ok? {
      AcceptedIffWritten(s, Parse(s).value);
    }
    forall v | Writes(s, v)
      ensures Parse(s) == Ok(v, [])
    {
      AcceptedIffWritten(s, v);
    }
  }
}
