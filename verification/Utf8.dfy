/** Text as Unicode scalar values, and its UTF-8 encoding. */
module Utf8 {
  import opened Bits

  /** A Unicode scalar value: a code point that is not a surrogate (Rust's `char`). */
  type scalar = x: int | 0 <= x < 0x110000 && !(0xD800 <= x < 0xE000)

  type Text = seq<scalar>

  predicate IsScalar(x: int) {
    0 <= x < 0x110000 && !(0xD800 <= x < 0xE000)
  }

  datatype Option<T> = None | Some(value: T)

  /** A continuation byte carries the low six bits. */
  function Low(n: nat): byte {
    0x80 + n % 64
  }

  function EncodeScalar(c: scalar): (s: seq<byte>)
    ensures 1 <= |s| <= 4
  {
    var n: int := c;
    if n < 0x80 then var b: byte := n; [b]
    else if n < 0x800 then var b: byte := 0xC0 + n / 64; [b, Low(n)]
    else if n < 0x10000 then var b: byte := 0xE0 + n / 64 / 64; [b, Low(n / 64), Low(n)]
    else var b: byte := 0xF0 + n / 64 / 64 / 64; [b, Low(n / 64 / 64), Low(n / 64), Low(n)]
  }

  function Encode(t: Text): seq<byte> {
    if t == [] then [] else EncodeScalar(t[0]) + Encode(t[1..])
  }

  predicate Continues(b: byte) {
    0x80 <= b < 0xC0
  }

  /** The number of bytes that a first byte announces; 0 if it cannot start a scalar. */
  function LengthOf(b: byte): nat {
    if b < 0x80 then 1
    else if b < 0xC2 then 0
    else if b < 0xE0 then 2
    else if b < 0xF0 then 3
    else if b < 0xF5 then 4
    else 0
  }

  /** Append a continuation byte's six bits. */
  function Join(high: int, b: byte): int {
    high * 64 + (b as int - 0x80)
  }

  /** The scalar at the front, if the bytes are its shortest encoding. */
  function DecodeFirst(s: seq<byte>): (r: Option<scalar>)
    ensures r.Some? ==> s != [] && LengthOf(s[0]) > 0 && LengthOf(s[0]) <= |s|
  {
    if s == [] then None
    else
      var n := LengthOf(s[0]);
      var lead: int := s[0];
      if n == 0 || n > |s| then None
      else if n == 1 then Some(lead)
      else if n == 2 then
        if Continues(s[1]) then Checked(Join(lead - 0xC0, s[1]), 0x80) else None
      else if n == 3 then
        if Continues(s[1]) && Continues(s[2]) then Checked(Join(Join(lead - 0xE0, s[1]), s[2]), 0x800) else None
      else if Continues(s[1]) && Continues(s[2]) && Continues(s[3])
      then Checked(Join(Join(Join(lead - 0xF0, s[1]), s[2]), s[3]), 0x10000)
      else None
  }

  /** No surrogates, and no longer encodings than needed. */
  function Checked(c: int, least: int): Option<scalar> {
    if IsScalar(c) && c >= least then Some(c) else None
  }

  /** `from_utf8`. */
  function Decode(s: seq<byte>): Option<Text>
    decreases |s|
  {
    if s == [] then Some([])
    else
      match DecodeFirst(s)
      case None => None
      case Some(c) =>
        match Decode(s[LengthOf(s[0])..])
        case None => None
        case Some(t) => Some([c] + t)
  }

  lemma JoinLow(n: nat)
    ensures Continues(Low(n)) && Join(n / 64, Low(n)) == n
  {
  }

  lemma LowJoin(high: nat, b: byte)
    requires Continues(b)
    ensures Join(high, b) >= 0 && Join(high, b) / 64 == high && Low(Join(high, b)) == b
  {
  }

  lemma DecodeFirstOfEncoded(c: scalar, rest: seq<byte>)
    ensures var s := EncodeScalar(c);
            LengthOf(s[0]) == |s| && DecodeFirst(s + rest) == Some(c) && (s[0] < 0x80 <==> c < 0x80)
  {
    var s, n: int := EncodeScalar(c), c;
    var all := s + rest;
    assert forall i :: 0 <= i < |s| ==> all[i] == s[i];
    Quotients(n);
    JoinLow(n);
    JoinLow(n / 64);
    JoinLow(n / 64 / 64);
    hide Join, Low, Continues;
    if n < 0x80 {
    } else if n < 0x800 {
      assert LengthOf(s[0]) == 2;
    } else if n < 0x10000 {
      assert LengthOf(s[0]) == 3;
    } else {
      assert LengthOf(s[0]) == 4;
    }
  }

  lemma Quotients(n: nat)
    ensures 0x80 <= n < 0x800 ==> 2 <= n / 64 < 32
    ensures 0x800 <= n < 0x10000 ==> n / 64 / 64 < 16
    ensures 0x10000 <= n < 0x110000 ==> n / 64 / 64 / 64 <= 4
  {
  }

  lemma EncodeDecodedFirst(s: seq<byte>)
    requires DecodeFirst(s).Some?
    ensures EncodeScalar(DecodeFirst(s).value) == s[..LengthOf(s[0])]
  {
    var n, lead: int := LengthOf(s[0]), s[0];
    if n == 2 {
      LowJoin(lead - 0xC0, s[1]);
    } else if n == 3 {
      LowJoin(lead - 0xE0, s[1]);
      LowJoin(Join(lead - 0xE0, s[1]), s[2]);
    } else if n == 4 {
      LowJoin(lead - 0xF0, s[1]);
      LowJoin(Join(lead - 0xF0, s[1]), s[2]);
      LowJoin(Join(Join(lead - 0xF0, s[1]), s[2]), s[3]);
    }
  }

  /** Every text survives encoding. */
  lemma {:induction false} DecodeEncoded(t: Text)
    ensures Decode(Encode(t)) == Some(t)
  {
    if t != [] {
      var s := EncodeScalar(t[0]);
      DecodeFirstOfEncoded(t[0], Encode(t[1..]));
      DecodeEncoded(t[1..]);
      assert Encode(t) == s + Encode(t[1..]);
      assert (s + Encode(t[1..]))[|s|..] == Encode(t[1..]);
      assert t == [t[0]] + t[1..];
    }
  }

  /** Only the encodings of texts decode. */
  lemma {:induction false} EncodeDecoded(s: seq<byte>)
    requires Decode(s).Some?
    ensures Encode(Decode(s).value) == s
    decreases |s|
  {
    if s != [] {
      var n := LengthOf(s[0]);
      EncodeDecodedFirst(s);
      EncodeDecoded(s[n..]);
      var t := Decode(s).value;
      assert t[1..] == Decode(s[n..]).value;
      assert s == s[..n] + s[n..];
    }
  }

  lemma {:induction false} EncodeAppend(a: Text, b: Text)
    ensures Encode(a + b) == Encode(a) + Encode(b)
  {
    if a == [] {
      assert a + b == b;
    } else {
      assert (a + b)[1..] == a[1..] + b;
      EncodeAppend(a[1..], b);
    }
  }

  /** An ASCII byte occurs in an encoding only where its character does. */
  lemma {:induction false} EncodeAvoids(t: Text, b: byte)
    requires b < 0x80 && forall i :: 0 <= i < |t| ==> t[i] != b as int
    ensures b !in Encode(t)
  {
    if t != [] {
      EncodeAvoids(t[1..], b);
      var s, n: int := EncodeScalar(t[0]), t[0];
      JoinLow(n);
      JoinLow(n / 64);
      JoinLow(n / 64 / 64);
      assert forall i :: 0 <= i < |s| ==> s[i] != b;
    }
  }

  /** The encodings of four characters, one of each length. */
  lemma KnownEncodings()
    ensures EncodeScalar(0x24) == [0x24] && EncodeScalar(0xA2) == [0xC2, 0xA2]
    ensures EncodeScalar(0x20AC) == [0xE2, 0x82, 0xAC] && EncodeScalar(0x10348) == [0xF0, 0x90, 0x8D, 0x88]
  {
  }
}
