/** The client's own string escaping, its inverse, and how the parser reads it back. */
module JsonText {
  import opened Bits
  import opened Utf8
  import opened Json

  function HexDigit(n: nat): scalar
    requires n < 16
  {
    if n <= 9 then 0x30 + n else 0x61 + n - 10
  }

  function EscapeChar(c: scalar): (t: Text)
    ensures t != []
  {
    if c == 0x22 then [0x5C, 0x22]
    else if c == 0x5C then [0x5C, 0x5C]
    else if c == 0x0A then [0x5C, 0x6E]
    else if c == 0x0D then [0x5C, 0x72]
    else if c == 0x09 then [0x5C, 0x74]
    else if c == 0x08 then [0x5C, 0x62]
    else if c == 0x0C then [0x5C, 0x66]
    else if c < 0x20 then [0x5C, 0x75, 0x30, 0x30, HexDigit(c / 16), HexDigit(c % 16)]
    else [c]
  }

  function Escape(t: Text): Text {
    if t == [] then [] else EscapeChar(t[0]) + Escape(t[1..])
  }

  lemma {:induction false} EscapeAppend(a: Text, b: Text)
    ensures Escape(a + b) == Escape(a) + Escape(b)
  {
    if a == [] {
      assert a + b == b;
    } else {
      assert (a + b)[1..] == a[1..] + b;
      EscapeAppend(a[1..], b);
    }
  }

  /** `escape_json`. */
  method EscapeJson(s: Text) returns (out: Text)
    ensures out == Escape(s)
  {
    out := [];
    for i := 0 to |s|
      invariant out == Escape(s[..i])
    {
      EscapeAppend(s[..i], [s[i]]);
      assert s[..i + 1] == s[..i] + [s[i]];
      assert [s[i]][1..] == [];
      out := out + EscapeChar(s[i]);
    }
    assert s[..|s|] == s;
  }

  // ---- Unescaping ----

  /** The value of a hexadecimal digit; anything else counts as 0, also a missing one. */
  function LaxHexValue(t: Text): nat {
    if t == [] then 0
    else if 0x30 <= t[0] <= 0x39 then t[0] - 0x30
    else if 0x61 <= t[0] <= 0x66 then t[0] - 0x61 + 10
    else if 0x41 <= t[0] <= 0x46 then t[0] - 0x41 + 10
    else 0
  }

  /** Four digits from the front, as far as there are any, and what follows. */
  function LaxHex(t: Text, k: nat, code: nat): (r: (nat, Text))
    ensures |r.1| <= |t|
    decreases k
  {
    if k == 0 then (code, t)
    else LaxHex(if t == [] then [] else t[1..], k - 1, code * 16 + LaxHexValue(t))
  }

  function Unescape(t: Text): Text
    decreases |t|
  {
    if t == [] then []
    else if t[0] != 0x5C then [t[0]] + Unescape(t[1..])
    else if |t| == 1 then [0x5C]
    else
      var rest := t[2..];
      match t[1]
      case 0x6E => [0x0A] + Unescape(rest)
      case 0x72 => [0x0D] + Unescape(rest)
      case 0x74 => [0x09] + Unescape(rest)
      case 0x62 => [0x08] + Unescape(rest)
      case 0x66 => [0x0C] + Unescape(rest)
      case 0x22 => [0x22] + Unescape(rest)
      case 0x5C => [0x5C] + Unescape(rest)
      case 0x2F => [0x2F] + Unescape(rest)
      case 0x75 => CharOf(LaxHex(rest, 4, 0).0) + Unescape(LaxHex(rest, 4, 0).1)
      case c => [0x5C, c] + Unescape(rest)
  }

  /** `unescape_json`. */
  method UnescapeJson(s: Text) returns (out: Text)
    ensures out == Unescape(s)
  {
    hide LaxHex;
    out := [];
    var rest := s;
    while rest != []
      invariant Unescape(s) == out + Unescape(rest)
      decreases |rest|
    {
      var piece;
      ghost var before := rest;
      piece, rest := UnescapeOne(rest);
      assert out + (piece + Unescape(rest)) == out + piece + Unescape(rest);
      out := out + piece;
    }
  }

  /** One character or escape from the front. */
  method UnescapeOne(t: Text) returns (piece: Text, rest: Text)
    requires t != []
    ensures Unescape(t) == piece + Unescape(rest) && |rest| < |t|
  {
    hide LaxHex;
    if t[0] != 0x5C {
      return [t[0]], t[1..];
    }
    if |t| == 1 {
      assert [0x5C] + Unescape([]) == [0x5C];
      return [0x5C], [];
    }
    rest := t[2..];
    match t[1] {
      case 0x6E => piece := [0x0A];
      case 0x72 => piece := [0x0D];
      case 0x74 => piece := [0x09];
      case 0x62 => piece := [0x08];
      case 0x66 => piece := [0x0C];
      case 0x22 => piece := [0x22];
      case 0x5C => piece := [0x5C];
      case 0x2F => piece := [0x2F];
      case 0x75 =>
        var code;
        code, rest := FourDigits(rest);
        piece := CharOf(code);
      case c => piece := [0x5C, c];
    }
  }

  method FourDigits(t: Text) returns (code: nat, rest: Text)
    ensures (code, rest) == LaxHex(t, 4, 0)
  {
    code, rest := 0, t;
    for i := 0 to 4
      invariant LaxHex(rest, 4 - i, code) == LaxHex(t, 4, 0)
    {
      code := code * 16 + LaxHexValue(rest);
      rest := if rest == [] then [] else rest[1..];
    }
  }

  /** Unescaping undoes escaping, for every text. */
  lemma {:induction false} UnescapeEscaped(t: Text)
    ensures Unescape(Escape(t)) == t
  {
    if t != [] {
      UnescapeEscaped(t[1..]);
      UnescapeChar(t[0], Escape(t[1..]));
      assert t == [t[0]] + t[1..];
    }
  }

  lemma UnescapeChar(c: scalar, rest: Text)
    ensures Unescape(EscapeChar(c) + rest) == [c] + Unescape(rest)
  {
    var e := EscapeChar(c);
    var t := e + rest;
    assert t[0] == e[0] && t[|e|..] == rest;
    if |e| == 2 {
      assert t[2..] == rest && t[1] == e[1];
    } else if |e| == 6 {
      LaxHexOfControl(c, rest);
      assert t[2..] == [0x30, 0x30, HexDigit(c / 16), HexDigit(c % 16)] + rest && t[1] == 0x75;
    } else {
      assert t[1..] == rest;
    }
  }

  lemma LaxHexOfControl(c: nat, rest: Text)
    requires c < 0x20
    ensures LaxHex([0x30, 0x30, HexDigit(c / 16), HexDigit(c % 16)] + rest, 4, 0) == (c, rest)
  {
    var h, l := HexDigit(c / 16), HexDigit(c % 16);
    var t := [0x30, 0x30, h, l] + rest;
    assert t[1..] == [0x30, h, l] + rest;
    assert ([0x30, h, l] + rest)[1..] == [h, l] + rest;
    assert ([h, l] + rest)[1..] == [l] + rest;
    assert ([l] + rest)[1..] == rest;
    HexDigitValue(c / 16);
    HexDigitValue(c % 16);
    assert LaxHex(rest, 0, c) == (c, rest);
    assert LaxHex([l] + rest, 1, c / 16) == (c, rest);
    assert LaxHex([h, l] + rest, 2, 0) == (c, rest);
    assert LaxHex([0x30, h, l] + rest, 3, 0) == (c, rest);
  }

  lemma HexDigitValue(n: nat)
    requires n < 16
    ensures forall rest: Text :: LaxHexValue([HexDigit(n)] + rest) == n
    ensures HexDigit(n) < 0x80 && HexValue(HexDigit(n)) == Some(n)
  {
  }

  // ---- How the parser reads a quoted string ----

  /** The UTF-8 bytes of a string literal. */
  function Quoted(t: Text): seq<byte> {
    [0x22] + Encode(Escape(t)) + [0x22]
  }

  /** Encodings of ASCII text are its own characters. */
  lemma {:induction false} EncodeAscii(t: Text)
    requires forall i :: 0 <= i < |t| ==> t[i] < 0x80
    ensures |Encode(t)| == |t| && forall i :: 0 <= i < |t| ==> Encode(t)[i] == t[i]
  {
    if t != [] {
      EncodeAscii(t[1..]);
    }
  }

  /** One escaped character is read as that character, in one step. */
  lemma EscapedCharParses(c: scalar, more: seq<byte>)
    ensures var s := Encode(EscapeChar(c)) + more;
            s != [] && s[0] != 0x22 && ParseChunk(s) == Ok([c], more)
  {
    var e := EscapeChar(c);
    var s := Encode(e) + more;
    if c < 0x80 {
      EncodeAscii(e);
      assert s[|e|..] == more;
      if |e| == 2 {
        assert s[1..][1..] == more && s[1..][0] == e[1];
      } else if |e| == 6 {
        assert s[1..][0] == 0x75;
        ControlParses(c, s[1..][1..], more);
      } else {
        assert s[1..] == more;
      }
    } else {
      var n := EncodeScalar(c);
      assert Encode([c]) == n + Encode([]) == n by {
        assert [c][1..] == [];
      }
      DecodeFirstOfEncoded(c, []);
      assert n + [] == n;
      assert s[..|n|] == n && s[|n|..] == more && s[0] == n[0];
      assert n[|n|..] == [];
      assert Decode(n) == Some([c] + []);
      assert [c] + [] == [c];
    }
  }

  lemma ControlParses(c: nat, s: seq<byte>, more: seq<byte>)
    requires c < 0x20 && |s| == 4 + |more| && s[4..] == more
    requires s[0] == 0x30 && s[1] == 0x30 && s[2] == HexDigit(c / 16) && s[3] == HexDigit(c % 16)
    ensures ParseUnicode(s) == Ok([c], more)
  {
    HexDigitValue(c / 16);
    HexDigitValue(c % 16);
    var s1, s2, s3 := s[1..], s[2..], s[3..];
    assert s1[1..] == s2 && s2[1..] == s3 && s3[1..] == more;
    assert ParseHex(more, 0, c) == Ok(c, more);
    assert ParseHex(s3, 1, c / 16) == Ok(c, more);
    assert ParseHex(s2, 2, 0) == Ok(c, more);
    assert ParseHex(s1, 3, 0) == Ok(c, more);
    assert ParseHex(s, 4, 0) == Ok(c, more);
  }

  lemma {:induction false} EscapedCharsParse(t: Text, more: seq<byte>)
    ensures ParseChars(Encode(Escape(t)) + [0x22] + more) == Ok(t, more)
  {
    if t == [] {
      assert Encode(Escape(t)) + [0x22] + more == [0x22] + more;
      assert ([0x22] + more)[1..] == more;
    } else {
      var first, others := EscapeChar(t[0]), Escape(t[1..]);
      assert Escape(t) == first + others;
      hide ParseChunk, Encode, EscapeChar, Escape;
      var tail := Encode(others) + [0x22] + more;
      EscapedCharsParse(t[1..], more);
      EscapedCharParses(t[0], tail);
      EncodeAppend(first, others);
      Associates(Encode(first), Encode(others), [0x22], more);
      assert [t[0]] + t[1..] == t;
    }
  }

  lemma Associates(a: seq<byte>, b: seq<byte>, c: seq<byte>, d: seq<byte>)
    ensures a + b + c + d == a + (b + c + d)
  {
  }

  /** A quoted escaped text parses back to the text, whatever follows. */
  lemma QuotedParses(t: Text, more: seq<byte>)
    ensures ParseString(Quoted(t) + more) == Ok(t, more)
  {
    EscapedCharsParse(t, more);
    hide ParseChars, Encode, Escape;
    var s, inner := Quoted(t) + more, Encode(Escape(t));
    assert s == [0x22] + (inner + [0x22] + more);
    assert s[1..] == inner + [0x22] + more;
  }
}
