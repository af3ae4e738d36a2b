/** Walking a certificate to its SubjectPublicKeyInfo (section 4.1 of RFC 5280), with the definite lengths
    of section 8.1.3 of X.690. */
module Der {
  import opened Bits
  import opened Bytes

  const TAG_SEQUENCE: byte := 0x30
  const TAG_INTEGER: byte := 0x02
  const TAG_CONTEXT_0: byte := 0xA0

  datatype DerError = Truncated | UnexpectedTag | BadLength
  datatype Result<T> = Ok(value: T) | Err(error: DerError)

  /** A length and how many bytes encode it. */
  datatype Length = Length(value: nat, headerLen: nat)

  datatype Tlv = Tlv(tag: byte, value: seq<byte>, totalLen: nat)

  // ---- Lengths ----

  function BigEndian(s: seq<byte>): nat {
    if s == [] then 0 else BigEndian(s[..|s| - 1]) * 256 + s[|s| - 1]
  }

  function LengthAt(data: seq<byte>): (r: Result<Length>)
    ensures r.Ok? ==> 1 <= r.value.headerLen <= |data|
  {
    if data == [] then Err(Truncated)
    else if data[0] < 0x80 then Ok(Length(data[0], 1))
    else if data[0] == 0x80 || data[0] > 0x84 then Err(BadLength)
    else
      var n: nat := data[0] as int - 0x80;
      if |data| < 1 + n then Err(Truncated) else Ok(Length(BigEndian(data[1..1 + n]), 1 + n))
  }

  /** `parse_length`: short form, or up to four bytes of long form. */
  method ParseLength(data: seq<byte>) returns (r: Result<Length>)
    ensures r == LengthAt(data)
  {
    if data == [] {
      return Err(Truncated);
    }
    var first := data[0];
    if first < 0x80 {
      return Ok(Length(first, 1));
    } else if first == 0x80 {
      return Err(BadLength);
    }
    var numBytes: nat := first as int % 128;
    if numBytes > 4 || numBytes == 0 {
      return Err(BadLength);
    }
    if |data| < 1 + numBytes {
      return Err(Truncated);
    }
    var len: nat := 0;
    for i := 0 to numBytes
      invariant len == BigEndian(data[1..1 + i])
    {
      assert data[1..1 + (i + 1)][..i] == data[1..1 + i];
      len := len * 256 + data[1 + i];
    }
    return Ok(Length(len, 1 + numBytes));
  }

  // ---- Elements ----

  /** `parse_tlv`: the element at the start of `data`. */
  function TlvAt(data: seq<byte>): (r: Result<Tlv>)
    ensures r.Ok? ==> 2 <= r.value.totalLen <= |data| && data[0] == r.value.tag
  {
    if data == [] then Err(Truncated)
    else
      match LengthAt(data[1..])
      case Err(e) => Err(e)
      case Ok(l) =>
        var total := l.headerLen + 1 + l.value;
        if total > |data| then Err(Truncated)
        else Ok(Tlv(data[0], data[l.headerLen + 1..total], total))
  }

  method ParseTlv(data: seq<byte>) returns (r: Result<Tlv>)
    ensures r == TlvAt(data)
  {
    if data == [] {
      return Err(Truncated);
    }
    var l := ParseLength(data[1..]);
    if l.Err? {
      return Err(l.error);
    }
    var total := l.value.headerLen + 1 + l.value.value;
    if total > |data| {
      return Err(Truncated);
    }
    return Ok(Tlv(data[0], data[l.value.headerLen + 1..total], total));
  }

  /** What follows the first element, which must have the given tag. */
  function After(data: seq<byte>, tag: byte): Result<seq<byte>> {
    if data == [] || data[0] != tag then Err(UnexpectedTag)
    else
      match TlvAt(data)
      case Err(e) => Err(e)
      case Ok(t) => Ok(data[t.totalLen..])
  }

  method Skip(data: seq<byte>, tag: byte) returns (r: Result<seq<byte>>)
    ensures r == After(data, tag)
  {
    if data == [] || data[0] != tag {
      return Err(UnexpectedTag);
    }
    var t := ParseTlv(data);
    return if t.Err? then Err(t.error) else Ok(data[t.value.totalLen..]);
  }

  /** The contents of a SEQUENCE at the start of `data`. */
  function Inside(data: seq<byte>): Result<seq<byte>> {
    match TlvAt(data)
    case Err(e) => Err(e)
    case Ok(t) => if t.tag != TAG_SEQUENCE then Err(UnexpectedTag) else Ok(t.value)
  }

  function Then(r: Result<seq<byte>>, tag: byte): Result<seq<byte>> {
    if r.Err? then r else After(r.value, tag)
  }

  /** Past version (if any), serial number, signature, issuer, validity and subject. */
  function Fields(tbs: seq<byte>): Result<seq<byte>> {
    var serial := if tbs != [] && tbs[0] == TAG_CONTEXT_0 then After(tbs, TAG_CONTEXT_0) else Ok(tbs);
    Then(Then(Then(Then(Then(serial, TAG_INTEGER), TAG_SEQUENCE), TAG_SEQUENCE), TAG_SEQUENCE), TAG_SEQUENCE)
  }

  /** `extract_spki`. */
  function SpkiOf(cert: seq<byte>): Result<seq<byte>> {
    match Inside(cert)
    case Err(e) => Err(e)
    case Ok(inner) =>
      match Inside(inner)
      case Err(e) => Err(e)
      case Ok(tbs) =>
        match Fields(tbs)
        case Err(e) => Err(e)
        case Ok(pos) =>
          if pos == [] || pos[0] != TAG_SEQUENCE then Err(UnexpectedTag)
          else
            match TlvAt(pos)
            case Err(e) => Err(e)
            case Ok(t) => Ok(pos[..t.totalLen])
  }

  method ExtractSpki(cert: seq<byte>) returns (r: Result<seq<byte>>)
    ensures r == SpkiOf(cert)
  {
    hide TlvAt;
    var outer := ParseTlv(cert);
    if outer.Err? {
      return Err(outer.error);
    }
    if outer.value.tag != TAG_SEQUENCE {
      return Err(UnexpectedTag);
    }
    var tbs := ParseTlv(outer.value.value);
    if tbs.Err? {
      return Err(tbs.error);
    }
    if tbs.value.tag != TAG_SEQUENCE {
      return Err(UnexpectedTag);
    }
    r := SkipFields(tbs.value.value);
    if r.Err? {
      return;
    }
    var pos := r.value;
    if pos == [] || pos[0] != TAG_SEQUENCE {
      return Err(UnexpectedTag);
    }
    var spki := ParseTlv(pos);
    return if spki.Err? then Err(spki.error) else Ok(pos[..spki.value.totalLen]);
  }

  method SkipFields(tbs: seq<byte>) returns (r: Result<seq<byte>>)
    ensures r == Fields(tbs)
  {
    hide After;
    r := Ok(tbs);
    if tbs != [] && tbs[0] == TAG_CONTEXT_0 {
      r := Skip(tbs, TAG_CONTEXT_0);
      if r.Err? { return; }
    }
    r := Skip(r.value, TAG_INTEGER);
    if r.Err? { return; }
    r := Skip(r.value, TAG_SEQUENCE);
    if r.Err? { return; }
    r := Skip(r.value, TAG_SEQUENCE);
    if r.Err? { return; }
    r := Skip(r.value, TAG_SEQUENCE);
    if r.Err? { return; }
    r := Skip(r.value, TAG_SEQUENCE);
  }

  // ---- Encoding ----

  /** The low `k` bytes, most significant first. */
  function ToBe(n: nat, k: nat): (s: seq<byte>)
    ensures |s| == k
  {
    if k == 0 then [] else ToBe(n / 256, k - 1) + [n % 256]
  }

  function BytesNeeded(n: nat): nat {
    if n < 256 then 1 else 1 + BytesNeeded(n / 256)
  }

  /** The shortest definite form. */
  function EncodeLength(n: nat): seq<byte>
    requires n < 0x1_0000_0000
  {
    if n < 0x80 then [n]
    else
      FewBytes(n);
      [0x80 + BytesNeeded(n)] + ToBe(n, BytesNeeded(n))
  }

  /** Three lengths as section 8.1.3 of X.690 writes them. */
  lemma KnownLengths()
    ensures EncodeLength(0x7F) == [0x7F] && EncodeLength(200) == [0x81, 0xC8] && EncodeLength(0x1234) == [0x82, 0x12, 0x34]
  {
    assert ToBe(0xC8, 1) == [0xC8];
    assert ToBe(0x12, 1) == [0x12];
    assert ToBe(0x1234, 2) == [0x12, 0x34];
    assert BytesNeeded(0x1234) == 2;
  }

  function Encode(tag: byte, value: seq<byte>): seq<byte>
    requires |value| < 0x1_0000_0000
  {
    [tag] + EncodeLength(|value|) + value
  }

  lemma FewBytes(n: nat)
    requires n < 0x1_0000_0000
    ensures 1 <= BytesNeeded(n) <= 4
  {
    var a, b, c := n / 256, n / 256 / 256, n / 256 / 256 / 256;
    assert c < 256 && BytesNeeded(c) == 1;
    assert BytesNeeded(b) <= 2 && BytesNeeded(a) <= 3;
  }

  function Power256(k: nat): nat {
    if k == 0 then 1 else 256 * Power256(k - 1)
  }

  lemma {:induction false} BigEndianOf(n: nat, k: nat)
    requires n < Power256(k)
    ensures BigEndian(ToBe(n, k)) == n
  {
    if k > 0 {
      BigEndianOf(n / 256, k - 1);
      assert ToBe(n, k)[..k - 1] == ToBe(n / 256, k - 1);
    }
  }

  lemma {:induction false} NeededSuffice(n: nat)
    ensures n < Power256(BytesNeeded(n))
  {
    if n >= 256 {
      NeededSuffice(n / 256);
    }
  }

  lemma LengthRoundTrip(n: nat, more: seq<byte>)
    requires n < 0x1_0000_0000
    ensures LengthAt(EncodeLength(n) + more) == Ok(Length(n, |EncodeLength(n)|))
  {
    var s := EncodeLength(n) + more;
    if n >= 0x80 {
      FewBytes(n);
      NeededSuffice(n);
      var k := BytesNeeded(n);
      BigEndianOf(n, k);
      assert s[1..1 + k] == ToBe(n, k);
    }
  }

  /** An encoded element is read back, whatever follows. */
  lemma TlvRoundTrip(tag: byte, value: seq<byte>, more: seq<byte>)
    requires |value| < 0x1_0000_0000
    ensures TlvAt(Encode(tag, value) + more) == Ok(Tlv(tag, value, |Encode(tag, value)|))
    ensures Encode(tag, value)[0] == tag && (Encode(tag, value) + more)[|Encode(tag, value)|..] == more
  {
    hide EncodeLength, LengthAt;
    var l := EncodeLength(|value|);
    var s := Encode(tag, value) + more;
    LengthRoundTrip(|value|, value + more);
    assert s[1..] == l + (value + more);
    assert s[|l| + 1..|l| + 1 + |value|] == value;
  }

  lemma AfterEncoded(tag: byte, value: seq<byte>, more: seq<byte>)
    requires |value| < 0x1_0000_0000
    ensures After(Encode(tag, value) + more, tag) == Ok(more)
  {
    hide Encode;
    TlvRoundTrip(tag, value, more);
    assert (Encode(tag, value) + more)[0] == tag;
  }

  // ---- Certificates ----

  datatype Option<T> = None | Some(value: T)

  /** The contents of the fields; `others` follows the public key, `signature` the signed part. */
  datatype Certificate = Certificate(version: Option<seq<byte>>, serial: seq<byte>, algorithm: seq<byte>, issuer: seq<byte>,
                                     validity: seq<byte>, subject: seq<byte>, spki: seq<byte>, others: seq<byte>,
                                     signature: seq<byte>)

  /** All lengths fit four bytes. */
  predicate LengthsFit(c: Certificate) {
    && (c.version.Some? ==> |c.version.value| < 0x1_0000_0000)
    && |c.serial| < 0x1_0000_0000 && |c.algorithm| < 0x1_0000_0000 && |c.issuer| < 0x1_0000_0000
    && |c.validity| < 0x1_0000_0000 && |c.subject| < 0x1_0000_0000 && |c.spki| < 0x1_0000_0000
  }

  function EncodeTbs(c: Certificate): seq<byte>
    requires LengthsFit(c)
  {
    (if c.version.Some? then Encode(TAG_CONTEXT_0, c.version.value) else [])
    + (Encode(TAG_INTEGER, c.serial)
       + (Encode(TAG_SEQUENCE, c.algorithm)
          + (Encode(TAG_SEQUENCE, c.issuer)
             + (Encode(TAG_SEQUENCE, c.validity)
                + (Encode(TAG_SEQUENCE, c.subject)
                   + (Encode(TAG_SEQUENCE, c.spki) + c.others))))))
  }

  ghost predicate Fits(c: Certificate) {
    && LengthsFit(c) && |EncodeTbs(c)| < 0x1_0000_0000
    && |Encode(TAG_SEQUENCE, EncodeTbs(c)) + c.signature| < 0x1_0000_0000
  }

  ghost function EncodeCertificate(c: Certificate): seq<byte>
    requires Fits(c)
  {
    Encode(TAG_SEQUENCE, Encode(TAG_SEQUENCE, EncodeTbs(c)) + c.signature)
  }

  lemma FieldsOfTbs(c: Certificate)
    requires LengthsFit(c)
    ensures Fields(EncodeTbs(c)) == Ok(Encode(TAG_SEQUENCE, c.spki) + c.others)
  {
    hide Encode, After;
    var t6 := Encode(TAG_SEQUENCE, c.spki) + c.others;
    var t5 := Encode(TAG_SEQUENCE, c.subject) + t6;
    var t4 := Encode(TAG_SEQUENCE, c.validity) + t5;
    var t3 := Encode(TAG_SEQUENCE, c.issuer) + t4;
    var t2 := Encode(TAG_SEQUENCE, c.algorithm) + t3;
    var t1 := Encode(TAG_INTEGER, c.serial) + t2;
    AfterEncoded(TAG_SEQUENCE, c.subject, t6);
    AfterEncoded(TAG_SEQUENCE, c.validity, t5);
    AfterEncoded(TAG_SEQUENCE, c.issuer, t4);
    AfterEncoded(TAG_SEQUENCE, c.algorithm, t3);
    AfterEncoded(TAG_INTEGER, c.serial, t2);
    TlvRoundTrip(TAG_INTEGER, c.serial, t2);
    if c.version.Some? {
      AfterEncoded(TAG_CONTEXT_0, c.version.value, t1);
      TlvRoundTrip(TAG_CONTEXT_0, c.version.value, t1);
    } else {
      assert [] + t1 == t1;
    }
  }

  /** From every encoded certificate exactly the SubjectPublicKeyInfo element is extracted. */
  lemma SpkiExtracted(c: Certificate, trailing: seq<byte>)
    requires Fits(c)
    ensures SpkiOf(EncodeCertificate(c) + trailing) == Ok(Encode(TAG_SEQUENCE, c.spki))
  {
    hide TlvAt, Fields, Encode, EncodeTbs;
    var tbs := EncodeTbs(c);
    TlvRoundTrip(TAG_SEQUENCE, Encode(TAG_SEQUENCE, tbs) + c.signature, trailing);
    TlvRoundTrip(TAG_SEQUENCE, tbs, c.signature);
    FieldsOfTbs(c);
    var spki := Encode(TAG_SEQUENCE, c.spki);
    TlvRoundTrip(TAG_SEQUENCE, c.spki, c.others);
    assert (spki + c.others)[..|spki|] == spki;
  }

  // ---- Any input ----

  /** `s` is a stretch of `data`. */
  ghost predicate Within(s: seq<byte>, data: seq<byte>) {
    exists i: nat :: SliceAt(s, data, i)
  }

  ghost predicate SliceAt(s: seq<byte>, data: seq<byte>, i: nat) {
    i + |s| <= |data| && data[i..i + |s|] == s
  }

  lemma WithinSlice(data: seq<byte>, a: nat, b: nat)
    requires a <= b <= |data|
    ensures Within(data[a..b], data)
  {
    assert SliceAt(data[a..b], data, a);
  }

  lemma WithinTransitive(a: seq<byte>, b: seq<byte>, c: seq<byte>)
    requires Within(a, b) && Within(b, c)
    ensures Within(a, c)
  {
    var i: nat :| SliceAt(a, b, i);
    var j: nat :| SliceAt(b, c, j);
    SliceOfSlice(c, j, j + |b|, i, i + |a|);
    assert SliceAt(a, c, j + i);
  }

  lemma TlvIsSlice(data: seq<byte>)
    requires TlvAt(data).Ok?
    ensures Within(TlvAt(data).value.value, data) && Within(data[TlvAt(data).value.totalLen..], data)
    ensures var n := TlvAt(data).value.totalLen;
            TlvAt(data[..n]) == TlvAt(data)
  {
    var t := TlvAt(data).value;
    var l := LengthAt(data[1..]).value;
    WithinSlice(data, l.headerLen + 1, t.totalLen);
    WithinSlice(data, t.totalLen, |data|);
    assert data[t.totalLen..|data|] == data[t.totalLen..];
    var d := data[..t.totalLen];
    assert forall i :: 0 <= i < l.headerLen ==> d[1..][i] == data[1..][i];
    assert d[1..][1..l.headerLen] == data[1..][1..l.headerLen];
    assert LengthAt(d[1..]) == LengthAt(data[1..]);
    assert d[l.headerLen + 1..t.totalLen] == data[l.headerLen + 1..t.totalLen];
  }

  lemma AfterIsSlice(r: Result<seq<byte>>, tag: byte, data: seq<byte>)
    requires r.Ok? ==> Within(r.value, data)
    ensures Then(r, tag).Ok? ==> r.Ok? && Within(Then(r, tag).value, data)
  {
    hide TlvAt, Within;
    if Then(r, tag).Ok? {
      TlvIsSlice(r.value);
      WithinTransitive(Then(r, tag).value, r.value, data);
    }
  }

  lemma FieldsIsSlice(tbs: seq<byte>)
    ensures Fields(tbs).Ok? ==> Within(Fields(tbs).value, tbs)
  {
    hide After, Within;
    WithinSlice(tbs, 0, |tbs|);
    assert tbs[0..|tbs|] == tbs;
    var whole: Result<seq<byte>> := Ok(tbs);
    AfterIsSlice(whole, TAG_CONTEXT_0, tbs);
    var serial := if tbs != [] && tbs[0] == TAG_CONTEXT_0 then After(tbs, TAG_CONTEXT_0) else Ok(tbs);
    var a := Then(serial, TAG_INTEGER);
    var b := Then(a, TAG_SEQUENCE);
    var c := Then(b, TAG_SEQUENCE);
    var d := Then(c, TAG_SEQUENCE);
    AfterIsSlice(serial, TAG_INTEGER, tbs);
    AfterIsSlice(a, TAG_SEQUENCE, tbs);
    AfterIsSlice(b, TAG_SEQUENCE, tbs);
    AfterIsSlice(c, TAG_SEQUENCE, tbs);
    AfterIsSlice(d, TAG_SEQUENCE, tbs);
  }

  /** Whatever the input: a result is a stretch of it, a SEQUENCE whose header spans it exactly. */
  lemma SpkiIsElement(cert: seq<byte>)
    requires SpkiOf(cert).Ok?
    ensures var spki := SpkiOf(cert).value;
            && Within(spki, cert) && spki != [] && spki[0] == TAG_SEQUENCE
            && TlvAt(spki).Ok? && TlvAt(spki).value.totalLen == |spki|
  {
    hide TlvAt, Fields, Within;
    var inner := Inside(cert).value;
    var tbs := Inside(inner).value;
    var pos := Fields(tbs).value;
    var spki := SpkiOf(cert).value;
    TlvIsSlice(cert);
    TlvIsSlice(inner);
    FieldsIsSlice(tbs);
    TlvIsSlice(pos);
    var n := TlvAt(pos).value.totalLen;
    WithinSlice(pos, 0, n);
    assert pos[0..n] == pos[..n] == spki;
    WithinTransitive(tbs, inner, cert);
    WithinTransitive(pos, tbs, cert);
    WithinTransitive(spki, pos, cert);
  }
}
