/** The many ways to write a string: each character as it is, by a short escape, or by its UTF-16 code units in
    hexadecimal (section 7 of RFC 8259). */
module JsonSpelling {
  import opened Bits
  import opened Utf8
  import opened Json
  import opened JsonText

  // ---- Spellings ----

  /** Which of four hexadecimal digits are written as capitals. */
  datatype Case = Case(a: bool, b: bool, c: bool, d: bool)

  datatype Form = AsIs | Short | Hex(first: Case, second: Case)

  datatype Piece = Piece(c: scalar, form: Form)

  function Digit(n: nat, capital: bool): scalar
    requires n < 16
  {
    if n < 10 then 0x30 + n else if capital then 0x41 + n - 10 else 0x61 + n - 10
  }

  /** `\u` and a code unit. */
  function UnitEscape(u: nat, caps: Case): (t: Text)
    requires u < 0x10000
    ensures |t| == 6 && forall i :: 0 <= i < 6 ==> t[i] < 0x80
  {
    [0x5C, 0x75, Digit(u / 4096, caps.a), Digit(u / 256 % 16, caps.b), Digit(u / 16 % 16, caps.c), Digit(u % 16, caps.d)]
  }

  /** The characters with a short escape, and its letter. */
  function ShortLetter(c: scalar): Option<scalar> {
    if c == 0x22 then Some(0x22)        // quotation mark
    else if c == 0x5C then Some(0x5C)   // reverse solidus
    else if c == 0x2F then Some(0x2F)   // solidus
    else if c == 0x08 then Some(0x62)   // backspace, b
    else if c == 0x0C then Some(0x66)   // form feed, f
    else if c == 0x0A then Some(0x6E)   // line feed, n
    else if c == 0x0D then Some(0x72)   // carriage return, r
    else if c == 0x09 then Some(0x74)   // tab, t
    else None
  }

  /** Quotation mark and reverse solidus must be escaped; a short escape must exist. */
  predicate PieceOk(p: Piece) {
    match p.form
    case AsIs => p.c != 0x22 && p.c != 0x5C
    case Short => ShortLetter(p.c).Some?
    case Hex(_, _) => true
  }

  /** A scalar beyond 0xFFFF is written as its UTF-16 surrogate pair. */
  function HighUnit(c: scalar): nat
    requires c >= 0x10000
  {
    0xD800 + (c - 0x10000) / 1024
  }

  function LowUnit(c: scalar): nat
    requires c >= 0x10000
  {
    0xDC00 + (c - 0x10000) % 1024
  }

  function Spelled(p: Piece): Text {
    match p.form
    case AsIs => [p.c]
    case Short => if ShortLetter(p.c).Some? then [0x5C, ShortLetter(p.c).value] else [p.c]
    case Hex(first, second) =>
      if p.c < 0x10000 then UnitEscape(p.c, first)
      else UnitEscape(HighUnit(p.c), first) + UnitEscape(LowUnit(p.c), second)
  }

  /** What may stand in a string: a character in one of its spellings; and two things that are read but stand for no
      character, a low surrogate alone and a sequence of bytes that is no UTF-8. */
  datatype Part = Good(piece: Piece) | LowAlone(u: nat, caps: Case) | Malformed(bytes: seq<byte>)

  predicate PartOk(p: Part) {
    match p
    case Good(piece) => PieceOk(piece)
    case LowAlone(u, _) => 0xDC00 <= u <= 0xDFFF
    case Malformed(bytes) => bytes != [] && bytes[0] >= 0x80 && |bytes| == Announced(bytes[0]) && Decode(bytes) == None
  }

  /** How many bytes a byte outside ASCII is taken to begin. */
  function Announced(b: byte): nat {
    if b < 0xE0 then 2 else if b < 0xF0 then 3 else 4
  }

  function PartBytes(p: Part): seq<byte> {
    match p
    case Good(piece) => Encode(Spelled(piece))
    case LowAlone(u, caps) => if u < 0x10000 then Encode(UnitEscape(u, caps)) else []
    case Malformed(bytes) => bytes
  }

  function PartText(p: Part): Text {
    if p.Good? then [p.piece.c] else []
  }

  function PartsBytes(ps: seq<Part>): seq<byte> {
    if ps == [] then [] else PartBytes(ps[0]) + PartsBytes(ps[1..])
  }

  function TextOf(ps: seq<Part>): Text {
    if ps == [] then [] else PartText(ps[0]) + TextOf(ps[1..])
  }

  // ---- How the parser reads them ----

  lemma DigitRead(n: nat, capital: bool)
    requires n < 16
    ensures Digit(n, capital) < 0x80 && HexValue(Digit(n, capital)) == Some(n)
  {
  }

  /** The four digits of a code unit are read as the unit. */
  lemma UnitRead(u: nat, caps: Case, s: seq<byte>, more: seq<byte>)
    requires u < 0x10000 && |s| == 4 + |more| && s[4..] == more
    requires forall i :: 0 <= i < 4 ==> s[i] == UnitEscape(u, caps)[2 + i]
    ensures ParseHex(s, 4, 0) == Ok(u, more)
  {
    var a, b, c, d := u / 4096, u / 256 % 16, u / 16 % 16, u % 16;
    DigitRead(a, caps.a);
    DigitRead(b, caps.b);
    DigitRead(c, caps.c);
    DigitRead(d, caps.d);
    UnitDigits(u);
    hide Digit, HexValue;
    FourRead(s, a, b, c, d, more);
  }

  lemma FourRead(s: seq<byte>, a: nat, b: nat, c: nat, d: nat, more: seq<byte>)
    requires |s| == 4 + |more| && s[4..] == more
    requires HexValue(s[0]) == Some(a) && HexValue(s[1]) == Some(b) && HexValue(s[2]) == Some(c) && HexValue(s[3]) == Some(d)
    ensures ParseHex(s, 4, 0) == Ok(((a * 16 + b) * 16 + c) * 16 + d, more)
  {
    var s1, s2, s3 := s[1..], s[2..], s[3..];
    assert s1[1..] == s2 && s2[1..] == s3 && s3[1..] == more;
    hide HexValue;
    var u := ((a * 16 + b) * 16 + c) * 16 + d;
    assert ParseHex(more, 0, u) == Ok(u, more);
    assert ParseHex(s3, 1, (a * 16 + b) * 16 + c) == Ok(u, more);
    assert ParseHex(s2, 2, a * 16 + b) == Ok(u, more);
    assert ParseHex(s1, 3, a) == Ok(u, more);
  }

  lemma UnitDigits(u: nat)
    ensures u == ((u / 4096 * 16 + u / 256 % 16) * 16 + u / 16 % 16) * 16 + u % 16
  {
    assert u / 16 / 16 == u / 256 && u / 256 / 16 == u / 4096;
  }

  /** Every spelling of a character is read as that character, in one step. */
  lemma PieceParses(p: Piece, more: seq<byte>)
    requires PieceOk(p)
    ensures var s := Encode(Spelled(p)) + more;
            s != [] && s[0] != 0x22 && ParseChunk(s) == Ok([p.c], more)
  {
    match p.form {
      case AsIs => AsIsParses(p.c, more);
      case Short => ShortParses(p.c, more);
      case Hex(first, second) =>
        if p.c < 0x10000 {
          OneUnitParses(p.c, first, more);
        } else {
          TwoUnitsParse(p.c, first, second, more);
        }
    }
  }

  lemma AsIsParses(c: scalar, more: seq<byte>)
    requires c != 0x22 && c != 0x5C
    ensures var s := Encode([c]) + more; s != [] && s[0] != 0x22 && ParseChunk(s) == Ok([c], more)
  {
    var n := EncodeScalar(c);
    assert Encode([c]) == n + Encode([]) == n by {
      assert [c][1..] == [];
    }
    var s := n + more;
    if c < 0x80 {
      assert s[1..] == more;
    } else {
      DecodeFirstOfEncoded(c, []);
      assert n + [] == n;
      assert s[..|n|] == n && s[|n|..] == more && s[0] == n[0];
      assert n[|n|..] == [];
      assert Decode(n) == Some([c] + []);
      assert [c] + [] == [c];
    }
  }

  lemma ShortParses(c: scalar, more: seq<byte>)
    requires ShortLetter(c).Some?
    ensures var s := Encode([0x5C, ShortLetter(c).value]) + more; s != [] && s[0] != 0x22 && ParseChunk(s) == Ok([c], more)
  {
    var e := [0x5C, ShortLetter(c).value];
    EncodeAscii(e);
    var s := Encode(e) + more;
    assert s[1..][1..] == more && s[1..][0] == e[1];
  }

  lemma OneUnitParses(c: scalar, caps: Case, more: seq<byte>)
    requires c < 0x10000
    ensures var s := Encode(UnitEscape(c, caps)) + more; s != [] && s[0] != 0x22 && ParseChunk(s) == Ok([c], more)
  {
    var e := UnitEscape(c, caps);
    EncodeAscii(e);
    var s := Encode(e) + more;
    var digits := s[1..][1..];
    assert s[1..][0] == 0x75 && digits == s[2..] && digits[4..] == more;
    assert forall i :: 0 <= i < 4 ==> digits[i] == e[2 + i];
    UnitRead(c, caps, digits, more);
    hide Encode, ParseHex, UnitEscape;
  }

  lemma TwoUnitsParse(c: scalar, first: Case, second: Case, more: seq<byte>)
    requires c >= 0x10000
    ensures var s := Encode(UnitEscape(HighUnit(c), first) + UnitEscape(LowUnit(c), second)) + more;
            s != [] && s[0] != 0x22 && ParseChunk(s) == Ok([c], more)
  {
    var hi, lo := HighUnit(c), LowUnit(c);
    var e, f := UnitEscape(hi, first), UnitEscape(lo, second);
    EncodeAscii(e + f);
    var s := Encode(e + f) + more;
    var digits, tail := s[2..], s[6..];
    assert digits[4..] == tail && tail[2..][4..] == more;
    assert forall i :: 0 <= i < 4 ==> digits[i] == e[2 + i] && tail[2..][i] == f[2 + i];
    assert s[0] == 0x5C && s[1] == 0x75 && tail[0] == 0x5C && tail[1] == 0x75;
    UnitRead(hi, first, digits, tail);
    UnitRead(lo, second, tail[2..], more);
    hide Encode, UnitEscape;
    PairParses(c, s, tail, more);
  }

  lemma PairParses(c: scalar, s: seq<byte>, tail: seq<byte>, more: seq<byte>)
    requires c >= 0x10000 && |s| >= 2 && s[0] == 0x5C && s[1] == 0x75 && ParseHex(s[2..], 4, 0) == Ok(HighUnit(c), tail)
    requires |tail| >= 2 && tail[0] == 0x5C && tail[1] == 0x75 && ParseHex(tail[2..], 4, 0) == Ok(LowUnit(c), more)
    ensures ParseChunk(s) == Ok([c], more)
  {
    assert s[1..][1..] == s[2..];
    assert c == 0x10000 + (HighUnit(c) - 0xD800) * 1024 + (LowUnit(c) - 0xDC00);
    hide ParseHex;
  }

  // ---- What is refused, and what is dropped ----

  /** The bytes begin with the four digits of a code unit. */
  ghost predicate IsUnit(s: seq<byte>, u: nat) {
    exists caps: Case :: DigitsOf(s, u, caps)
  }

  predicate DigitsOf(s: seq<byte>, u: nat, caps: Case) {
    |s| >= 4 && u < 0x10000 && forall i :: 0 <= i < 4 ==> s[i] == UnitEscape(u, caps)[2 + i]
  }

  lemma ReadIsUnit(s: seq<byte>)
    requires ParseHex(s, 4, 0).Ok?
    ensures IsUnit(s, ParseHex(s, 4, 0).value)
  {
    var s1, s2, s3, s4 := s[1..], s[1..][1..], s[1..][1..][1..], s[1..][1..][1..][1..];
    assert s1[0] == s[1] && s2[0] == s[2] && s3[0] == s[3];
    var a := HexValue(s[0]).value;
    assert ParseHex(s1, 3, a) == ParseHex(s, 4, 0);
    var b := HexValue(s[1]).value;
    assert ParseHex(s2, 2, a * 16 + b) == ParseHex(s, 4, 0);
    var c := HexValue(s[2]).value;
    assert ParseHex(s3, 1, (a * 16 + b) * 16 + c) == ParseHex(s, 4, 0);
    var d := HexValue(s[3]).value;
    var u := ((a * 16 + b) * 16 + c) * 16 + d;
    assert ParseHex(s, 4, 0).value == u;
    DigitWritten(s[0]);
    DigitWritten(s[1]);
    DigitWritten(s[2]);
    DigitWritten(s[3]);
    UnitIs(a, b, c, d);
    var caps := Case(s[0] <= 0x46, s[1] <= 0x46, s[2] <= 0x46, s[3] <= 0x46);
    hide Digit, HexValue, ParseHex;
    assert DigitsOf(s, u, caps);
  }

  lemma DigitWritten(b: byte)
    requires HexValue(b).Some?
    ensures HexValue(b).value < 16 && b == Digit(HexValue(b).value, b <= 0x46)
  {
  }

  lemma UnitIs(a: nat, b: nat, c: nat, d: nat)
    requires a < 16 && b < 16 && c < 16 && d < 16
    ensures var u := ((a * 16 + b) * 16 + c) * 16 + d;
            u < 0x10000 && u / 4096 == a && u / 256 % 16 == b && u / 16 % 16 == c && u % 16 == d
  {
  }

  /** A high surrogate is an error unless a low one follows it. */
  lemma HighNeedsLow(u: nat, caps: Case, rest: seq<byte>)
    requires 0xD800 <= u <= 0xDBFF
    ensures ParseChunk(Encode(UnitEscape(u, caps)) + rest).Ok? <==>
            && |rest| >= 6 && rest[0] == 0x5C && rest[1] == 0x75
            && exists low: nat :: 0xDC00 <= low <= 0xDFFF && IsUnit(rest[2..], low)
  {
    var e := UnitEscape(u, caps);
    EncodeAscii(e);
    var s := Encode(e) + rest;
    assert s[1..][1..] == s[2..] && s[2..][4..] == rest;
    assert forall i :: 0 <= i < 4 ==> s[2..][i] == e[2 + i];
    UnitRead(u, caps, s[2..], rest);
    hide UnitEscape;
    if |rest| >= 6 && rest[0] == 0x5C && rest[1] == 0x75 {
      if low: nat :| 0xDC00 <= low <= 0xDFFF && IsUnit(rest[2..], low) {
        UnitReads(low, rest[2..]);
      }
      if ParseHex(rest[2..], 4, 0).Ok? {
        ReadIsUnit(rest[2..]);
      }
    }
    hide IsUnit;
  }

  lemma UnitReads(u: nat, s: seq<byte>)
    requires IsUnit(s, u)
    ensures ParseHex(s, 4, 0) == Ok(u, s[4..])
  {
    var caps: Case :| DigitsOf(s, u, caps);
    UnitRead(u, caps, s, s[4..]);
  }

  /** A low surrogate by itself is no character: it is left out. */
  lemma LowAloneIsDropped(u: nat, caps: Case, rest: seq<byte>)
    requires 0xDC00 <= u <= 0xDFFF
    ensures ParseChunk(Encode(UnitEscape(u, caps)) + rest) == Ok([], rest)
  {
    var e := UnitEscape(u, caps);
    EncodeAscii(e);
    var s := Encode(e) + rest;
    assert s[1..][1..] == s[2..] && s[2..][4..] == rest;
    assert forall i :: 0 <= i < 4 ==> s[2..][i] == e[2 + i];
    UnitRead(u, caps, s[2..], rest);
    hide UnitEscape, ParseHex;
  }

  /** Any other letter after a reverse solidus is an error. */
  lemma OtherEscapesFail(b: byte, rest: seq<byte>)
    requires b != 0x75
    ensures ParseChunk([0x5C, b] + rest).Ok? <==> exists c: scalar :: ShortLetter(c) == Some(b as int)
  {
    var s := [0x5C, b] + rest;
    assert s[1..][0] == b;
    assert ShortLetter(0x22) == Some(0x22) && ShortLetter(0x5C) == Some(0x5C) && ShortLetter(0x2F) == Some(0x2F);
    assert ShortLetter(0x08) == Some(0x62) && ShortLetter(0x0C) == Some(0x66) && ShortLetter(0x0A) == Some(0x6E);
    assert ShortLetter(0x0D) == Some(0x72) && ShortLetter(0x09) == Some(0x74);
  }

  // ---- How the client's own unescaping reads them ----

  /** `unescape_json` reads every spelling too, except that it does not join surrogate pairs: it drops both halves. */
  lemma UnescapeSpelled(p: Piece, rest: Text)
    requires PieceOk(p)
    ensures Unescape(Spelled(p) + rest) == (if p.form.Hex? && p.c >= 0x10000 then [] else [p.c]) + Unescape(rest)
  {
    var t := Spelled(p) + rest;
    match p.form {
      case AsIs => assert t[1..] == rest;
      case Short => assert t[2..] == rest;
      case Hex(first, second) =>
        if p.c < 0x10000 {
          UnescapeUnit(p.c, first, rest);
        } else {
          var tail := UnitEscape(LowUnit(p.c), second) + rest;
          assert t == UnitEscape(HighUnit(p.c), first) + tail;
          UnescapeUnit(HighUnit(p.c), first, tail);
          UnescapeUnit(LowUnit(p.c), second, rest);
        }
    }
  }

  lemma UnescapeUnit(u: nat, caps: Case, rest: Text)
    requires u < 0x10000
    ensures Unescape(UnitEscape(u, caps) + rest) == CharOf(u) + Unescape(rest)
  {
    var e := UnitEscape(u, caps);
    var t := e + rest;
    var t2, t3, t4, t5 := t[2..], t[3..], t[4..], t[5..];
    assert t2[1..] == t3 && t3[1..] == t4 && t4[1..] == t5 && t5[1..] == rest;
    assert t2[0] == e[2] && t3[0] == e[3] && t4[0] == e[4] && t5[0] == e[5];
    LaxDigit(u / 4096, caps.a, t2);
    LaxDigit(u / 256 % 16, caps.b, t3);
    LaxDigit(u / 16 % 16, caps.c, t4);
    LaxDigit(u % 16, caps.d, t5);
    UnitDigits(u);
    hide Digit, LaxHexValue;
    assert LaxHex(rest, 0, u) == (u, rest);
    assert LaxHex(t5, 1, (u / 4096 * 16 + u / 256 % 16) * 16 + u / 16 % 16) == (u, rest);
    assert LaxHex(t4, 2, u / 4096 * 16 + u / 256 % 16) == (u, rest);
    assert LaxHex(t3, 3, u / 4096) == (u, rest);
    assert LaxHex(t2, 4, 0) == (u, rest);
    assert t[0] == 0x5C && t[1] == 0x75;
  }

  lemma LaxDigit(n: nat, capital: bool, t: Text)
    requires n < 16 && t != [] && t[0] == Digit(n, capital)
    ensures LaxHexValue(t) == n
  {
  }

  /** Every part is read in one step as what it stands for. */
  lemma PartParses(p: Part, more: seq<byte>)
    requires PartOk(p)
    ensures var s := PartBytes(p) + more; s != [] && s[0] != 0x22 && ParseChunk(s) == Ok(PartText(p), more)
  {
    match p {
      case Good(piece) => PieceParses(piece, more);
      case LowAlone(u, caps) =>
        LowAloneIsDropped(u, caps, more);
        EscapeStarts(u, caps);
      case Malformed(bytes) =>
        var s := bytes + more;
        assert s[..|bytes|] == bytes && s[|bytes|..] == more;
        hide Decode;
    }
  }

  lemma EscapeStarts(u: nat, caps: Case)
    requires u < 0x10000
    ensures Encode(UnitEscape(u, caps)) != [] && Encode(UnitEscape(u, caps))[0] == 0x5C
  {
    EncodeAscii(UnitEscape(u, caps));
  }

  /** Strings of any parts. */
  lemma {:induction false} PartsParse(ps: seq<Part>, more: seq<byte>)
    requires forall p :: p in ps ==> PartOk(p)
    ensures ParseChars(PartsBytes(ps) + [0x22] + more) == Ok(TextOf(ps), more)
  {
    if ps == [] {
      assert PartsBytes(ps) + [0x22] + more == [0x22] + more;
      assert ([0x22] + more)[1..] == more;
    } else {
      var first, others := PartBytes(ps[0]), PartsBytes(ps[1..]);
      hide ParseChunk, PartBytes, PartText, PartOk;
      PartsParse(ps[1..], more);
      PartParses(ps[0], others + [0x22] + more);
      Associates(first, others, [0x22], more);
    }
  }

  /** The bytes of a string literal of these parts. */
  function SpeltString(ps: seq<Part>): seq<byte> {
    [0x22] + PartsBytes(ps) + [0x22]
  }

  lemma SpeltStringParses(ps: seq<Part>, more: seq<byte>)
    requires forall p :: p in ps ==> PartOk(p)
    ensures ParseString(SpeltString(ps) + more) == Ok(TextOf(ps), more)
  {
    PartsParse(ps, more);
    hide ParseChars, PartsBytes;
    QuotesAround(PartsBytes(ps), more);
  }

  lemma QuotesAround(inner: seq<byte>, more: seq<byte>)
    ensures ParseString([0x22] + inner + [0x22] + more) == ParseChars(inner + [0x22] + more)
  {
    hide ParseChars;
    var s := [0x22] + inner + [0x22] + more;
    assert s == [0x22] + (inner + [0x22] + more);
    assert s[1..] == inner + [0x22] + more;
  }
}
