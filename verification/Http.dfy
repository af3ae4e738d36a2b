/** The head of an HTTP response. */
module Http {
  import opened Bits
  import opened Utf8

  datatype Header = Header(name: Text, value: Text)

  datatype HttpResponse = HttpResponse(status: nat, headers: seq<Header>, bodyStart: nat)

  datatype HttpParse = Parsed(response: HttpResponse) | Incomplete | MalformedStatus

  // ---- Finding the blank line ----

  predicate BlankLineAt(data: seq<byte>, i: nat) {
    i + 4 <= |data| && data[i] == 0x0D && data[i + 1] == 0x0A && data[i + 2] == 0x0D && data[i + 3] == 0x0A
  }

  function HeaderEndFrom(data: seq<byte>, i: nat): (r: Option<nat>)
    ensures r.Some? ==> i <= r.value && BlankLineAt(data, r.value)
    ensures forall j: nat :: i <= j && (r.Some? ==> j < r.value) ==> !BlankLineAt(data, j)
    decreases |data| - i
  {
    if i + 4 > |data| then None
    else if BlankLineAt(data, i) then Some(i)
    else HeaderEndFrom(data, i + 1)
  }

  /** The position of the first blank line. */
  method FindHeaderEnd(data: seq<byte>) returns (r: Option<nat>)
    ensures r == HeaderEndFrom(data, 0)
    ensures r.Some? ==> BlankLineAt(data, r.value) && forall j: nat :: j < r.value ==> !BlankLineAt(data, j)
    ensures r.None? ==> forall j: nat :: !BlankLineAt(data, j)
  {
    var i := 0;
    while i + 3 < |data|
      invariant HeaderEndFrom(data, i) == HeaderEndFrom(data, 0)
    {
      if data[i] == 0x0D && data[i + 1] == 0x0A && data[i + 2] == 0x0D && data[i + 3] == 0x0A {
        return Some(i);
      }
      i := i + 1;
    }
    return None;
  }

  /** More data does not move a blank line that has been found. */
  lemma HeaderEndMore(data: seq<byte>, more: seq<byte>)
    requires HeaderEndFrom(data, 0).Some?
    ensures HeaderEndFrom(data + more, 0) == HeaderEndFrom(data, 0)
  {
    var i := HeaderEndFrom(data, 0).value;
    forall j: nat | j <= i
      ensures BlankLineAt(data + more, j) <==> BlankLineAt(data, j)
    {
    }
    FirstIsFound(data + more, i);
  }

  lemma FirstIsFound(data: seq<byte>, i: nat)
    requires BlankLineAt(data, i) && forall j: nat :: j < i ==> !BlankLineAt(data, j)
    ensures HeaderEndFrom(data, 0) == Some(i)
  {
  }

  // ---- The status line and the headers ----

  /** The text up to a line break (CR LF), and what follows it if there is one. */
  function Line(t: Text): (r: (Text, Option<Text>))
    ensures r.1.Some? ==> |r.1.value| < |t|
  {
    if t == [] then ([], None)
    else if |t| >= 2 && t[0] == 0x0D && t[1] == 0x0A then ([], Some(t[2..]))
    else
      var rest := Line(t[1..]);
      ([t[0]] + rest.0, rest.1)
  }

  /** Characters with the property White_Space. */
  predicate IsWhite(c: scalar) {
    || 0x09 <= c <= 0x0D || c == 0x20 || c == 0x85 || c == 0xA0 || c == 0x1680 || 0x2000 <= c <= 0x200A
    || c == 0x2028 || c == 0x2029 || c == 0x202F || c == 0x205F || c == 0x3000
  }

  function TrimStart(t: Text): Text {
    if t != [] && IsWhite(t[0]) then TrimStart(t[1..]) else t
  }

  function TrimEnd(t: Text): Text {
    if t != [] && IsWhite(t[|t| - 1]) then TrimEnd(t[..|t| - 1]) else t
  }

  function Trim(t: Text): Text {
    TrimEnd(TrimStart(t))
  }

  function LowerChar(c: scalar): scalar {
    if 0x41 <= c <= 0x5A then var n: int := c + 32; n else c
  }

  function Lower(t: Text): Text {
    if t == [] then [] else [LowerChar(t[0])] + Lower(t[1..])
  }

  /** What precedes the first `c` and what follows it. */
  function SplitAt(t: Text, c: scalar): Option<(Text, Text)> {
    if t == [] then None
    else if t[0] == c then Some(([], t[1..]))
    else
      match SplitAt(t[1..], c)
      case None => None
      case Some((before, after)) => Some(([t[0]] + before, after))
  }

  predicate AllDigits(t: Text) {
    forall i :: 0 <= i < |t| ==> 0x30 <= t[i] <= 0x39
  }

  function DigitsValue(t: Text): nat {
    if t == [] then 0
    else DigitsValue(t[..|t| - 1]) * 10 + (if t[|t| - 1] >= 0x30 then t[|t| - 1] as int - 0x30 else 0)
  }

  /** `str::parse` of an unsigned integer below `limit`: digits, with an optional plus sign. */
  function ParseUnsigned(t: Text, limit: nat): Option<nat> {
    var digits := if t != [] && t[0] == 0x2B then t[1..] else t;
    if digits != [] && AllDigits(digits) && DigitsValue(digits) < limit then Some(DigitsValue(digits)) else None
  }

  /** The second space-separated part of the status line. */
  function StatusCode(line: Text): Option<nat> {
    match SplitAt(line, 0x20)
    case None => None
    case Some((_, rest)) =>
      ParseUnsigned(match SplitAt(rest, 0x20) case None => rest case Some((code, _)) => code, 65536)
  }

  /** The headers up to an empty line; lines without a colon are skipped. */
  function Headers(t: Text): seq<Header>
    decreases |t|
  {
    var (line, more) := Line(t);
    if line == [] then []
    else
      var here := match SplitAt(line, 0x3A)
                  case None => []
                  case Some((name, value)) => [Header(Lower(Trim(name)), Trim(value))];
      here + if more.Some? then Headers(more.value) else []
  }

  /** What the section before the blank line says. */
  function ParseHead(section: seq<byte>): Option<(nat, seq<Header>)> {
    match Decode(section)
    case None => None
    case Some(t) =>
      var (line, more) := Line(t);
      match StatusCode(line)
      case None => None
      case Some(code) => Some((code, if more.Some? then Headers(more.value) else []))
  }

  /** `HttpResponse::parse`. */
  function Parse(data: seq<byte>): (r: HttpParse)
    ensures r.Parsed? ==> r.response.bodyStart <= |data|
  {
    match HeaderEndFrom(data, 0)
    case None => Incomplete
    case Some(end) =>
      match ParseHead(data[..end])
      case None => MalformedStatus
      case Some((status, headers)) => Parsed(HttpResponse(status, headers, end + 4))
  }

  /** Once the head is there, more data does not change what is read from it. */
  lemma ParseMore(data: seq<byte>, more: seq<byte>)
    requires !Parse(data).Incomplete?
    ensures Parse(data + more) == Parse(data)
  {
    hide ParseHead;
    HeaderEndMore(data, more);
    var end := HeaderEndFrom(data, 0).value;
    assert (data + more)[..end] == data[..end];
  }

  /** Success is exactly 200 and 201. */
  predicate IsError(status: nat) {
    status != 200 && status != 201
  }

  function RetryAfter(headers: seq<Header>): Option<nat> {
    if headers == [] then None
    else if headers[0].name == RETRY_AFTER then ParseUnsigned(headers[0].value, 0x1_0000_0000_0000_0000)
    else RetryAfter(headers[1..])
  }

  /** "retry-after". */
  const RETRY_AFTER: Text := [0x72, 0x65, 0x74, 0x72, 0x79, 0x2D, 0x61, 0x66, 0x74, 0x65, 0x72]
}
