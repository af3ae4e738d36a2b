/** What the head of a response says: heads as servers write them, and how they are read; and the head of a request. */
module HttpLaws {
  import opened Bits
  import opened Utf8
  import opened Http
  import JsonText
  import ApiRequest

  // ---- Numerals ----

  /** Decimal digits as text. */
  function Numeral(n: nat): (r: Text)
    ensures r != []
  {
    if n < 10 then [0x30 + n] else Numeral(n / 10) + Numeral(n % 10)
  }

  lemma {:induction false} NumeralReads(n: nat)
    ensures AllDigits(Numeral(n)) && DigitsValue(Numeral(n)) == n
    ensures n > 0 ==> Numeral(n)[0] != 0x30
  {
    var t := Numeral(n);
    if n < 10 {
      assert t[..|t| - 1] == [] && DigitsValue([]) == 0;
    } else {
      NumeralReads(n / 10);
      assert Numeral(n % 10) == [0x30 + n % 10];
      assert t[..|t| - 1] == Numeral(n / 10) && t[|t| - 1] == 0x30 + n % 10;
    }
  }

  /** A numeral below the limit is read as its number, any other numeral is refused. */
  lemma UnsignedReads(n: nat, limit: nat)
    ensures ParseUnsigned(Numeral(n), limit) == if n < limit then Some(n) else None
  {
    NumeralReads(n);
    assert Numeral(n)[0] != 0x2B;
    hide DigitsValue, Numeral;
  }

  /** The digits written into a request are the same ones. */
  lemma {:induction false} DecimalIsNumeral(n: nat)
    ensures ApiRequest.Decimal(n) == Encode(Numeral(n))
  {
    if n < 10 {
      assert Numeral(n)[1..] == [] && Encode([]) == [];
      assert Encode(Numeral(n)) == EncodeScalar(Numeral(n)[0]) + Encode([]);
    } else {
      DecimalIsNumeral(n / 10);
      DecimalIsNumeral(n % 10);
      EncodeAppend(Numeral(n / 10), Numeral(n % 10));
    }
  }

  lemma KnownNumerals()
    ensures Numeral(200) == ApiRequest.Key("200") && Numeral(429) == ApiRequest.Key("429")
    ensures Numeral(4096) == ApiRequest.Key("4096")
  {
    assert Numeral(20) == Numeral(2) + Numeral(0) && Numeral(42) == Numeral(4) + Numeral(2);
    assert Numeral(200) == Numeral(20) + Numeral(0) && Numeral(429) == Numeral(42) + Numeral(9);
    assert Numeral(40) == Numeral(4) + Numeral(0) && Numeral(409) == Numeral(40) + Numeral(9);
    assert Numeral(4096) == Numeral(409) + Numeral(6);
    assert ApiRequest.Key("4096") == [0x34, 0x30, 0x39, 0x36] && ApiRequest.Key("429") == [0x34, 0x32, 0x39];
    assert ApiRequest.Key("200") == [0x32, 0x30, 0x30];
  }

  // ---- Lines ----

  const BREAK: Text := [0x0D, 0x0A]

  /** Not empty, and without a character of a line break. */
  predicate OneLine(t: Text) {
    t != [] && NoBreak(t)
  }

  predicate NoBreak(t: Text) {
    forall i :: 0 <= i < |t| ==> t[i] != 0x0D && t[i] != 0x0A
  }

  predicate Lines(lines: seq<Text>) {
    forall line :: line in lines ==> OneLine(line)
  }

  /** Lines with breaks between them. */
  function Section(lines: seq<Text>): Text {
    if lines == [] then []
    else if |lines| == 1 then lines[0]
    else lines[0] + BREAK + Section(lines[1..])
  }

  lemma {:induction false} FirstLine(line: Text, rest: Text)
    requires NoBreak(line)
    ensures Line(line + BREAK + rest) == (line, Some(rest))
  {
    var t := line + BREAK + rest;
    if line == [] {
      assert t[2..] == rest;
    } else {
      FirstLine(line[1..], rest);
      assert t[1..] == line[1..] + BREAK + rest;
      assert line == [line[0]] + line[1..];
    }
  }

  lemma {:induction false} OnlyLine(line: Text)
    requires NoBreak(line)
    ensures Line(line) == (line, None)
  {
    if line != [] {
      OnlyLine(line[1..]);
      assert line == [line[0]] + line[1..];
    }
  }

  /** The bytes of a section contain no blank line, even with the blank line that ends it. */
  lemma {:induction false} NoBlankLineInside(lines: seq<Text>, more: seq<byte>, j: nat)
    requires lines != [] && Lines(lines) && j < |Encode(Section(lines))|
    ensures !BlankLineAt(Encode(Section(lines)) + [0x0D, 0x0A, 0x0D, 0x0A] + more, j)
  {
    var first := Encode(lines[0]);
    var end: seq<byte> := [0x0D, 0x0A, 0x0D, 0x0A];
    assert OneLine(lines[0]);
    EncodeAvoids(lines[0], 0x0D);
    hide Encode, OneLine, BlankLineAt;
    if |lines| == 1 {
      assert first + end + more == first + [0x0D, 0x0A] + ([0x0D, 0x0A] + more);
      NotInLine(first, [0x0D, 0x0A] + more, j);
    } else {
      var rest := Encode(Section(lines[1..]));
      SectionBytes(lines);
      SectionStarts(lines[1..]);
      var tail := rest + end + more;
      assert tail[0] == rest[0];
      assert Encode(Section(lines)) + end + more == first + [0x0D, 0x0A] + tail;
      if j < |first| + 2 {
        NotInBreak(first, tail, j);
      } else {
        NoBlankLineInside(lines[1..], more, j - |first| - 2);
        Shifted(first + [0x0D, 0x0A], tail, j);
      }
    }
  }

  lemma NotInLine(first: seq<byte>, tail: seq<byte>, j: nat)
    requires 0x0D !in first && j < |first|
    ensures !BlankLineAt(first + [0x0D, 0x0A] + tail, j)
  {
    assert (first + [0x0D, 0x0A] + tail)[j] == first[j];
  }

  lemma NotInBreak(first: seq<byte>, tail: seq<byte>, j: nat)
    requires 0x0D !in first && j < |first| + 2 && tail != [] && tail[0] != 0x0D
    ensures !BlankLineAt(first + [0x0D, 0x0A] + tail, j)
  {
    var all := first + [0x0D, 0x0A] + tail;
    if j < |first| {
      NotInLine(first, tail, j);
    } else {
      assert all[|first| + 1] == 0x0A && all[|first| + 2] == tail[0];
    }
  }

  lemma Shifted(front: seq<byte>, tail: seq<byte>, j: nat)
    requires j >= |front|
    ensures BlankLineAt(front + tail, j) <==> BlankLineAt(tail, j - |front|)
  {
  }

  lemma SectionBytes(lines: seq<Text>)
    requires |lines| > 1
    ensures Encode(Section(lines)) == Encode(lines[0]) + [0x0D, 0x0A] + Encode(Section(lines[1..]))
  {
    var rest := Section(lines[1..]);
    assert Section(lines) == lines[0] + BREAK + rest;
    BreakBytes();
    hide *;
    EncodeAppend(lines[0] + BREAK, rest);
    EncodeAppend(lines[0], BREAK);
  }

  lemma BreakBytes()
    ensures Encode(BREAK) == [0x0D, 0x0A]
  {
    JsonText.EncodeAscii(BREAK);
  }

  lemma SectionStarts(lines: seq<Text>)
    requires lines != [] && Lines(lines)
    ensures var s := Encode(Section(lines)); s != [] && s[0] != 0x0D
  {
    var t := Section(lines);
    assert OneLine(lines[0]);
    assert t != [] && t[0] == lines[0][0];
    EncodeAvoids([t[0]], 0x0D);
    EncodeAppend([t[0]], t[1..]);
    assert t == [t[0]] + t[1..] && Encode([t[0]]) == EncodeScalar(t[0]) + Encode([]);
  }

  /** The blank line that ends a head is found where it was written. */
  lemma EndIsFound(lines: seq<Text>, more: seq<byte>)
    requires lines != [] && Lines(lines)
    ensures var s := Encode(Section(lines)); HeaderEndFrom(s + [0x0D, 0x0A, 0x0D, 0x0A] + more, 0) == Some(|s|)
  {
    var s := Encode(Section(lines));
    var all := s + [0x0D, 0x0A, 0x0D, 0x0A] + more;
    forall j: nat | j < |s|
      ensures !BlankLineAt(all, j)
    {
      NoBlankLineInside(lines, more, j);
    }
    assert BlankLineAt(all, |s|);
    FirstIsFound(all, |s|);
  }

  // ---- Header lines ----

  /** A header as a server writes it, with white space around the value. */
  datatype HeaderLine = HeaderLine(name: Text, left: Text, value: Text, right: Text)

  predicate AllWhite(t: Text) {
    forall i :: 0 <= i < |t| ==> IsWhite(t[i])
  }

  predicate NoSpaceAround(t: Text) {
    t != [] ==> !IsWhite(t[0]) && !IsWhite(t[|t| - 1])
  }

  predicate HeaderOk(h: HeaderLine) {
    && OneLine(h.name) && NoSpaceAround(h.name) && 0x3A !in h.name
    && NoBreak(h.left) && AllWhite(h.left) && NoBreak(h.value) && NoSpaceAround(h.value) && NoBreak(h.right) && AllWhite(h.right)
  }

  function PrintLine(h: HeaderLine): Text {
    h.name + [0x3A] + (h.left + h.value + h.right)
  }

  function PrintLines(hs: seq<HeaderLine>): seq<Text> {
    if hs == [] then [] else [PrintLine(hs[0])] + PrintLines(hs[1..])
  }

  function ReadHeaders(hs: seq<HeaderLine>): (r: seq<Header>)
    ensures |r| == |hs| && forall i :: 0 <= i < |r| ==> r[i] == Header(Lower(hs[i].name), hs[i].value)
  {
    seq(|hs|, i requires 0 <= i < |hs| => Header(Lower(hs[i].name), hs[i].value))
  }

  lemma {:induction false} SplitFound(before: Text, c: scalar, after: Text)
    requires c !in before
    ensures SplitAt(before + [c] + after, c) == Some((before, after))
  {
    var t := before + [c] + after;
    if before == [] {
      assert t[1..] == after;
    } else {
      SplitFound(before[1..], c, after);
      assert t[1..] == before[1..] + [c] + after;
      assert before == [before[0]] + before[1..];
    }
  }

  lemma {:induction false} SplitAbsent(t: Text, c: scalar)
    requires c !in t
    ensures SplitAt(t, c) == None
  {
    if t != [] {
      SplitAbsent(t[1..], c);
    }
  }

  lemma {:induction false} TrimsStart(left: Text, t: Text)
    requires AllWhite(left) && (t == [] || !IsWhite(t[0]))
    ensures TrimStart(left + t) == t
  {
    if left == [] {
      assert left + t == t;
    } else {
      TrimsStart(left[1..], t);
      assert (left + t)[1..] == left[1..] + t;
    }
  }

  lemma {:induction false} TrimsEnd(t: Text, right: Text)
    requires AllWhite(right) && (t == [] || !IsWhite(t[|t| - 1]))
    ensures TrimEnd(t + right) == t
  {
    var s := t + right;
    if right == [] {
      assert s == t;
    } else {
      TrimsEnd(t, right[..|right| - 1]);
      assert s[..|s| - 1] == t + right[..|right| - 1];
    }
  }

  /** White space around a text is taken off. */
  lemma Trims(left: Text, t: Text, right: Text)
    requires AllWhite(left) && NoSpaceAround(t) && AllWhite(right)
    ensures Trim(left + t + right) == t
  {
    if t == [] {
      TrimsStart(left + right, []);
      assert left + t + right == left + right + [];
    } else {
      TrimsStart(left, t + right);
      TrimsEnd(t, right);
      assert left + t + right == left + (t + right);
    }
  }

  lemma LineReads(h: HeaderLine)
    requires HeaderOk(h)
    ensures SplitAt(PrintLine(h), 0x3A) == Some((h.name, h.left + h.value + h.right))
    ensures Trim(h.name) == h.name && Trim(h.left + h.value + h.right) == h.value
    ensures OneLine(PrintLine(h))
  {
    SplitFound(h.name, 0x3A, h.left + h.value + h.right);
    Trims([], h.name, []);
    assert [] + h.name + [] == h.name;
    Trims(h.left, h.value, h.right);
  }

  /** Printed header lines are read in order, with names in lower case and nothing around the values. */
  lemma {:induction false} HeadersRead(hs: seq<HeaderLine>)
    requires forall h :: h in hs ==> HeaderOk(h)
    ensures Headers(Section(PrintLines(hs))) == ReadHeaders(hs) && Lines(PrintLines(hs))
  {
    hide Trim, Lower, SplitAt, PrintLine, HeaderOk;
    if hs != [] {
      var lines := PrintLines(hs);
      LineReads(hs[0]);
      HeadersRead(hs[1..]);
      assert lines[1..] == PrintLines(hs[1..]);
      if |hs| == 1 {
        OnlyLine(lines[0]);
        assert PrintLines(hs[1..]) == [];
      } else {
        FirstLine(lines[0], Section(lines[1..]));
        assert |lines| > 1;
      }
      hide Line;
      assert ReadHeaders(hs) == [Header(Lower(hs[0].name), hs[0].value)] + ReadHeaders(hs[1..]);
    }
  }

  // ---- Heads of responses ----

  /** `version status tail`, then header lines; the tail is empty or a space and a reason. */
  datatype Head = Head(version: Text, status: nat, tail: Text, lines: seq<HeaderLine>)

  ghost predicate HeadOk(h: Head) {
    && NoBreak(h.version) && 0x20 !in h.version && h.status < 65536 && NoBreak(h.tail) && (h.tail == [] || h.tail[0] == 0x20)
    && forall line :: line in h.lines ==> HeaderOk(line)
  }

  function StatusLine(h: Head): Text {
    h.version + [0x20] + (Numeral(h.status) + h.tail)
  }

  function HeadLines(h: Head): seq<Text> {
    [StatusLine(h)] + PrintLines(h.lines)
  }

  function HeadBytes(h: Head): seq<byte> {
    Encode(Section(HeadLines(h))) + [0x0D, 0x0A, 0x0D, 0x0A]
  }

  lemma StatusReads(h: Head)
    requires HeadOk(h)
    ensures StatusCode(StatusLine(h)) == Some(h.status) && OneLine(StatusLine(h))
  {
    hide SplitAt;
    var digits := Numeral(h.status);
    NumeralReads(h.status);
    SplitFound(h.version, 0x20, digits + h.tail);
    UnsignedReads(h.status, 65536);
    hide Numeral, ParseUnsigned, DigitsValue;
    if h.tail == [] {
      SplitAbsent(digits, 0x20);
      assert digits + h.tail == digits;
    } else {
      SplitFound(digits, 0x20, h.tail[1..]);
      assert digits + h.tail == digits + [0x20] + h.tail[1..];
    }
  }

  /** A printed head is read as its status and headers, and the body starts right after it. */
  lemma HeadReads(h: Head, body: seq<byte>)
    requires HeadOk(h)
    ensures Parse(HeadBytes(h) + body) == Parsed(HttpResponse(h.status, ReadHeaders(h.lines), |HeadBytes(h)|))
  {
    StatusReads(h);
    HeadersRead(h.lines);
    var lines := HeadLines(h);
    var section := Section(lines);
    assert lines[1..] == PrintLines(h.lines);
    EndIsFound(lines, body);
    DecodeEncoded(section);
    var data := HeadBytes(h) + body;
    assert data[..|Encode(section)|] == Encode(section);
    hide StatusCode, Headers, StatusLine, PrintLines, Encode, Decode, HeaderEndFrom;
    if h.lines == [] {
      OnlyLine(lines[0]);
      NoLines();
      assert section == lines[0];
    } else {
      FirstLine(lines[0], Section(lines[1..]));
      SomeLines(h.lines);
      assert section == lines[0] + BREAK + Section(lines[1..]);
    }
    hide Line;
  }

  lemma NoLines()
    ensures PrintLines([]) == []
  {
  }

  lemma SomeLines(hs: seq<HeaderLine>)
    ensures hs != [] ==> PrintLines(hs) != []
  {
  }

  // ---- When to retry ----

  /** "retry-after" in letters of either case. */
  predicate IsRetryAfter(name: Text) {
    && |name| == 11
    && forall i :: 0 <= i < 11 ==> name[i] == ApiRequest.Key("retry-after")[i] || name[i] == ApiRequest.Key("RETRY-AFTER")[i]
  }

  lemma {:induction false} LowerAt(t: Text)
    ensures |Lower(t)| == |t| && forall i :: 0 <= i < |t| ==> Lower(t)[i] == LowerChar(t[i])
  {
    if t != [] {
      LowerAt(t[1..]);
    }
  }

  lemma RetryName(name: Text)
    ensures Lower(name) == RETRY_AFTER <==> IsRetryAfter(name)
  {
    LowerAt(name);
    var low, high := ApiRequest.Key("retry-after"), ApiRequest.Key("RETRY-AFTER");
    assert low == RETRY_AFTER;
    assert high == [0x52, 0x45, 0x54, 0x52, 0x59, 0x2D, 0x41, 0x46, 0x54, 0x45, 0x52];
    hide ApiRequest.Key, Lower;
    if |name| == 11 {
      forall i | 0 <= i < 11
        ensures LowerChar(name[i]) == low[i] <==> name[i] == low[i] || name[i] == high[i]
      {
      }
      if Lower(name) == RETRY_AFTER {
        assert forall i :: 0 <= i < 11 ==> LowerChar(name[i]) == low[i];
      }
    }
  }

  /** The first header line that says when to retry. */
  predicate FirstRetry(lines: seq<HeaderLine>, i: nat) {
    i < |lines| && IsRetryAfter(lines[i].name) && forall j :: 0 <= j < i ==> !IsRetryAfter(lines[j].name)
  }

  predicate NotDigits(t: Text) {
    t == [] || (t[0] != 0x2B && exists i :: 0 <= i < |t| && !(0x30 <= t[i] <= 0x39))
  }

  lemma NotDigitsFails(t: Text, limit: nat)
    requires NotDigits(t)
    ensures ParseUnsigned(t, limit) == None
  {
    hide DigitsValue;
  }

  lemma {:induction false} RetryIsFirst(lines: seq<HeaderLine>)
    ensures (forall j :: 0 <= j < |lines| ==> !IsRetryAfter(lines[j].name)) ==> RetryAfter(ReadHeaders(lines)) == None
    ensures forall i: nat :: FirstRetry(lines, i) ==>
              RetryAfter(ReadHeaders(lines)) == ParseUnsigned(lines[i].value, 0x1_0000_0000_0000_0000)
  {
    hide IsRetryAfter, ParseUnsigned, Lower;
    if lines != [] {
      RetryName(lines[0].name);
      var rest := lines[1..];
      RetryIsFirst(rest);
      assert ReadHeaders(lines)[1..] == ReadHeaders(rest);
      forall i: nat | FirstRetry(lines, i)
        ensures RetryAfter(ReadHeaders(lines)) == ParseUnsigned(lines[i].value, 0x1_0000_0000_0000_0000)
      {
        if i > 0 {
          assert !IsRetryAfter(lines[0].name);
          assert forall j :: 0 <= j < |rest| ==> rest[j] == lines[j + 1];
          assert FirstRetry(rest, i - 1);
        }
      }
      assert (forall j :: 0 <= j < |lines| ==> !IsRetryAfter(lines[j].name))
             ==> !IsRetryAfter(lines[0].name) && forall j :: 0 <= j < |rest| ==> !IsRetryAfter(rest[j].name);
    }
  }

  /** The seconds to wait are those of the first such line if they are a number of 64 bits. */
  ghost predicate Waits(lines: seq<HeaderLine>, w: Option<nat>) {
    && ((forall j :: 0 <= j < |lines| ==> !IsRetryAfter(lines[j].name)) ==> w == None)
    && (forall i: nat, n: nat :: FirstRetry(lines, i) && lines[i].value == Numeral(n) ==>
          w == if n < 0x1_0000_0000_0000_0000 then Some(n) else None)
    && (forall i: nat :: FirstRetry(lines, i) && NotDigits(lines[i].value) ==> w == None)
  }

  lemma RetryReads(lines: seq<HeaderLine>)
    ensures Waits(lines, RetryAfter(ReadHeaders(lines)))
  {
    RetryIsFirst(lines);
    hide IsRetryAfter, ParseUnsigned, RetryAfter, Numeral, NotDigits;
    var limit := 0x1_0000_0000_0000_0000;
    forall i: nat, n: nat | FirstRetry(lines, i) && lines[i].value == Numeral(n)
      ensures RetryAfter(ReadHeaders(lines)) == if n < limit then Some(n) else None
    {
      UnsignedReads(n, limit);
    }
    forall i: nat | FirstRetry(lines, i) && NotDigits(lines[i].value)
      ensures RetryAfter(ReadHeaders(lines)) == None
    {
      NotDigitsFails(lines[i].value, limit);
    }
  }

  // ---- The head of the request ----

  function Said(name: string, value: Text): HeaderLine {
    HeaderLine(ApiRequest.Key(name), [0x20], value, [])
  }

  /** The headers of a request with a body of `n` bytes. */
  function RequestHeaders(apiKey: Text, n: nat): seq<HeaderLine> {
    [Said("Host", ApiRequest.Key("api.anthropic.com")), Said("Content-Type", ApiRequest.Key("application/json")),
     Said("X-API-Key", apiKey), Said("Anthropic-Version", ApiRequest.Key("2023-06-01")),
     Said("Accept", ApiRequest.Key("text/event-stream")), Said("Content-Length", Numeral(n)),
     Said("Connection", ApiRequest.Key("close"))]
  }

  function RequestLines(apiKey: Text, n: nat): seq<Text> {
    [ApiRequest.Key("POST /v1/messages HTTP/1.1")] + PrintLines(RequestHeaders(apiKey, n))
  }

  lemma KeyAppend(a: string, b: string)
    ensures ApiRequest.Key(a + b) == ApiRequest.Key(a) + ApiRequest.Key(b)
  {
  }

  lemma KeyEncodes(s: string)
    ensures Encode(ApiRequest.Key(s)) == ApiRequest.Ascii(s)
  {
    JsonText.EncodeAscii(ApiRequest.Key(s));
    assert Encode(ApiRequest.Key(s)) == ApiRequest.Ascii(s);
  }

  /** Every line, each with its break. */
  function WithBreaks(lines: seq<Text>): seq<byte> {
    if lines == [] then [] else Encode(lines[0]) + [0x0D, 0x0A] + WithBreaks(lines[1..])
  }

  lemma {:induction false} SectionWithBreak(lines: seq<Text>)
    requires lines != []
    ensures Encode(Section(lines)) + [0x0D, 0x0A] == WithBreaks(lines)
  {
    hide Encode;
    if |lines| == 1 {
      assert WithBreaks(lines[1..]) == [];
    } else {
      SectionBytes(lines);
      SectionWithBreak(lines[1..]);
      hide Section, WithBreaks;
      WithBreaksStep(lines);
    }
  }

  lemma WithBreaksStep(lines: seq<Text>)
    requires lines != []
    ensures WithBreaks(lines) == Encode(lines[0]) + [0x0D, 0x0A] + WithBreaks(lines[1..])
  {
  }

  lemma LineBytes(line: string, name: string, value: string)
    requires line == name + ": " + value + "\r\n"
    ensures ApiRequest.Ascii(line) == Encode(PrintLine(Said(name, ApiRequest.Key(value)))) + [0x0D, 0x0A]
  {
    hide Encode;
    var inner := name + ": " + value;
    KeyEncodes(inner);
    assert ApiRequest.Key(inner) == PrintLine(Said(name, ApiRequest.Key(value)));
    assert ApiRequest.Ascii(line) == ApiRequest.Ascii(inner) + ApiRequest.Ascii("\r\n");
  }

  lemma ValueBytes(start: string, name: string, value: Text)
    requires start == name + ": "
    ensures ApiRequest.Ascii(start) + Encode(value) + ApiRequest.Ascii("\r\n") == Encode(PrintLine(Said(name, value))) + [0x0D, 0x0A]
  {
    KeyEncodes(start);
    EncodeAppend(ApiRequest.Key(start), value);
    hide Encode;
    assert ApiRequest.Key(start) + value == PrintLine(Said(name, value));
    assert ApiRequest.Ascii("\r\n") == [0x0D, 0x0A];
  }

  lemma NamesAndValues()
    ensures "Host: api.anthropic.com\r\n" == "Host" + ": " + "api.anthropic.com" + "\r\n"
    ensures "Content-Type: application/json\r\n" == "Content-Type" + ": " + "application/json" + "\r\n"
    ensures "Anthropic-Version: 2023-06-01\r\n" == "Anthropic-Version" + ": " + "2023-06-01" + "\r\n"
    ensures "Accept: text/event-stream\r\n" == "Accept" + ": " + "text/event-stream" + "\r\n"
    ensures "Connection: close\r\n" == "Connection" + ": " + "close" + "\r\n"
    ensures "X-API-Key: " == "X-API-Key" + ": " && "Content-Length: " == "Content-Length" + ": "
  {
  }

  lemma FirstBytes()
    ensures ApiRequest.Ascii("POST /v1/messages HTTP/1.1\r\n") == Encode(ApiRequest.Key("POST /v1/messages HTTP/1.1")) + [0x0D, 0x0A]
  {
    hide Encode;
    KeyEncodes("POST /v1/messages HTTP/1.1");
    assert "POST /v1/messages HTTP/1.1\r\n" == "POST /v1/messages HTTP/1.1" + "\r\n";
  }

  /** The lines of the request, each followed by its break. */
  lemma SevenHeaders(apiKey: Text, n: nat)
    ensures ApiRequest.RequestHead(apiKey, n) == WithBreaks(RequestLines(apiKey, n)) + [0x0D, 0x0A]
  {
    hide *;
    RequestLinesAre(apiKey, n);
    RequestBytes(apiKey, n);
    var first, hs := ApiRequest.Key("POST /v1/messages HTTP/1.1"), RequestHeaders(apiKey, n);
    AllWithBreaks(first, hs);
    EightParts(Broken(first), Broken(PrintLine(hs[0])), Broken(PrintLine(hs[1])), Broken(PrintLine(hs[2])),
               Broken(PrintLine(hs[3])), Broken(PrintLine(hs[4])), Broken(PrintLine(hs[5])), Broken(PrintLine(hs[6])));
    assert ApiRequest.Ascii("\r\n") == [0x0D, 0x0A];
  }

  lemma RequestLinesAre(apiKey: Text, n: nat)
    ensures RequestLines(apiKey, n) == [ApiRequest.Key("POST /v1/messages HTTP/1.1")] + PrintLines(RequestHeaders(apiKey, n))
    ensures |RequestHeaders(apiKey, n)| == 7
  {
  }

  function Broken(line: Text): seq<byte> {
    Encode(line) + [0x0D, 0x0A]
  }

  lemma EightParts(a: seq<byte>, b: seq<byte>, c: seq<byte>, d: seq<byte>, e: seq<byte>, f: seq<byte>, g: seq<byte>, h: seq<byte>)
    ensures a + (b + (c + (d + (e + (f + (g + (h + []))))))) == a + b + c + d + e + f + g + h
  {
  }

  lemma RequestBytes(apiKey: Text, n: nat)
    ensures var hs := RequestHeaders(apiKey, n);
            ApiRequest.RequestHead(apiKey, n)
            == Broken(ApiRequest.Key("POST /v1/messages HTTP/1.1")) + Broken(PrintLine(hs[0])) + Broken(PrintLine(hs[1]))
               + Broken(PrintLine(hs[2])) + Broken(PrintLine(hs[3])) + Broken(PrintLine(hs[4])) + Broken(PrintLine(hs[5]))
               + Broken(PrintLine(hs[6])) + ApiRequest.Ascii("\r\n")
  {
    NamesAndValues();
    FirstBytes();
    LineBytes("Host: api.anthropic.com\r\n", "Host", "api.anthropic.com");
    LineBytes("Content-Type: application/json\r\n", "Content-Type", "application/json");
    ValueBytes("X-API-Key: ", "X-API-Key", apiKey);
    LineBytes("Anthropic-Version: 2023-06-01\r\n", "Anthropic-Version", "2023-06-01");
    LineBytes("Accept: text/event-stream\r\n", "Accept", "text/event-stream");
    DecimalIsNumeral(n);
    ValueBytes("Content-Length: ", "Content-Length", Numeral(n));
    LineBytes("Connection: close\r\n", "Connection", "close");
    hide Encode, PrintLine, Said, ApiRequest.Ascii, ApiRequest.Key, Numeral, ApiRequest.Decimal;
  }

  /** A first line and seven headers. */
  lemma AllWithBreaks(first: Text, hs: seq<HeaderLine>)
    requires |hs| == 7
    ensures WithBreaks([first] + PrintLines(hs))
            == Broken(first) + (Broken(PrintLine(hs[0])) + (Broken(PrintLine(hs[1])) + (Broken(PrintLine(hs[2])) + (Broken(PrintLine(hs[3]))
               + (Broken(PrintLine(hs[4])) + (Broken(PrintLine(hs[5])) + (Broken(PrintLine(hs[6])) + [])))))))
  {
    hide *;
    FirstWithBreak(first, PrintLines(hs));
    PrintedWithBreaks(hs);
    PrintedWithBreaks(hs[1..]);
    PrintedWithBreaks(hs[2..]);
    PrintedWithBreaks(hs[3..]);
    PrintedWithBreaks(hs[4..]);
    PrintedWithBreaks(hs[5..]);
    PrintedWithBreaks(hs[6..]);
    PrintedWithBreaks(hs[7..]);
  }

  lemma FirstWithBreak(first: Text, rest: seq<Text>)
    ensures WithBreaks([first] + rest) == Broken(first) + WithBreaks(rest)
  {
    assert ([first] + rest)[1..] == rest;
  }

  lemma PrintedWithBreaks(hs: seq<HeaderLine>)
    ensures WithBreaks(PrintLines(hs))
            == if hs == [] then [] else Broken(PrintLine(hs[0])) + WithBreaks(PrintLines(hs[1..]))
  {
    hide PrintLine, Encode;
    if hs != [] {
      assert PrintLines(hs)[1..] == PrintLines(hs[1..]);
    }
  }

  /** A word of letters, digits and punctuation. */
  predicate Word(s: string) {
    s != "" && forall i :: 0 <= i < |s| ==> '!' <= s[i] <= '~' && s[i] != ':'
  }

  lemma WordIsName(s: string)
    requires Word(s)
    ensures OneLine(ApiRequest.Key(s)) && NoSpaceAround(ApiRequest.Key(s)) && 0x3A !in ApiRequest.Key(s)
  {
    var t := ApiRequest.Key(s);
    assert forall i :: 0 <= i < |s| ==> t[i] == s[i] as int;
  }

  lemma NamesAreWords()
    ensures Word("Host") && Word("Content-Type") && Word("X-API-Key") && Word("Anthropic-Version")
    ensures Word("Accept") && Word("Content-Length") && Word("Connection")
  {
  }

  lemma ValuesAreWords()
    ensures Word("api.anthropic.com") && Word("application/json") && Word("2023-06-01") && Word("text/event-stream") && Word("close")
  {
  }

  lemma SaidOk(name: string, value: Text)
    requires Word(name) && NoBreak(value)
    ensures OneLine(PrintLine(Said(name, value)))
    ensures NoSpaceAround(value) ==> HeaderOk(Said(name, value))
  {
    WordIsName(name);
    hide ApiRequest.Key;
  }

  lemma RequestHeadersOk(apiKey: Text, n: nat)
    requires NoBreak(apiKey)
    ensures forall h :: h in RequestHeaders(apiKey, n) ==> OneLine(PrintLine(h))
    ensures NoSpaceAround(apiKey) ==> forall h :: h in RequestHeaders(apiKey, n) ==> HeaderOk(h)
  {
    NamesAreWords();
    ValuesAreWords();
    WordIsName("api.anthropic.com");
    WordIsName("application/json");
    WordIsName("2023-06-01");
    WordIsName("text/event-stream");
    WordIsName("close");
    NumeralReads(n);
    hide ApiRequest.Key, Word, Said, HeaderOk, PrintLine, Numeral;
    SaidOk("Host", ApiRequest.Key("api.anthropic.com"));
    SaidOk("Content-Type", ApiRequest.Key("application/json"));
    SaidOk("X-API-Key", apiKey);
    SaidOk("Anthropic-Version", ApiRequest.Key("2023-06-01"));
    SaidOk("Accept", ApiRequest.Key("text/event-stream"));
    SaidOk("Content-Length", Numeral(n));
    SaidOk("Connection", ApiRequest.Key("close"));
  }

  lemma {:induction false} PrintedLinesOk(hs: seq<HeaderLine>)
    requires forall h :: h in hs ==> OneLine(PrintLine(h))
    ensures Lines(PrintLines(hs))
  {
    hide OneLine, PrintLine;
    if hs != [] {
      PrintedLinesOk(hs[1..]);
    }
  }

  lemma FirstLineOk()
    ensures OneLine(ApiRequest.Key("POST /v1/messages HTTP/1.1"))
  {
  }

  /** A request with no line break in its key has one head, which ends at the first blank line; after it comes the
      body, and the head's headers give the key and the body's length. */
  lemma RequestReads(apiKey: Text, body: seq<byte>)
    requires !ApiRequest.HasLineBreak(apiKey)
    ensures var head := ApiRequest.RequestHead(apiKey, |body|);
            |head| >= 4 && HeaderEndFrom(head + body, 0) == Some(|head| - 4)
            && Decode(head[..|head| - 4]) == Some(Section(RequestLines(apiKey, |body|)))
    ensures Line(Section(RequestLines(apiKey, |body|))).0 == ApiRequest.Key("POST /v1/messages HTTP/1.1")
    ensures NoSpaceAround(apiKey) ==>
              var rest := Line(Section(RequestLines(apiKey, |body|))).1;
              && rest.Some? && |Headers(rest.value)| == 7
              && Headers(rest.value)[2].value == apiKey
              && Lower(ApiRequest.Key("Content-Length")) == Headers(rest.value)[5].name
              && Headers(rest.value)[5].value == Numeral(|body|) && DigitsValue(Numeral(|body|)) == |body|
  {
    var n := |body|;
    var lines, hs := RequestLines(apiKey, n), RequestHeaders(apiKey, n);
    var first := ApiRequest.Key("POST /v1/messages HTTP/1.1");
    RequestHeadersOk(apiKey, n);
    FirstLineOk();
    NumeralReads(n);
    RequestIsSection(apiKey, n);
    hide HeaderOk, OneLine, PrintLine, Numeral, ApiRequest.Key, DigitsValue, Lower, ApiRequest.RequestHead, Headers, Line, Encode, Decode, HeaderEndFrom;
    PrintedLinesOk(hs);
    assert lines == [first] + PrintLines(hs);
    hide RequestLines;
    assert Lines(lines);
    EndIsFound(lines, body);
    DecodeEncoded(Section(lines));
    SomeLines(hs);
    assert lines[1..] == PrintLines(hs);
    assert Section(lines) == first + BREAK + Section(PrintLines(hs));
    OneLineNoBreak(first);
    FirstLine(first, Section(PrintLines(hs)));
    if NoSpaceAround(apiKey) {
      HeadersRead(hs);
    }
  }

  lemma OneLineNoBreak(t: Text)
    requires OneLine(t)
    ensures NoBreak(t)
  {
  }

  lemma RequestIsSection(apiKey: Text, n: nat)
    ensures ApiRequest.RequestHead(apiKey, n) == Encode(Section(RequestLines(apiKey, n))) + [0x0D, 0x0A, 0x0D, 0x0A]
  {
    SevenHeaders(apiKey, n);
    RequestLinesAre(apiKey, n);
    hide *;
    SectionWithBreak(RequestLines(apiKey, n));
    var s := Encode(Section(RequestLines(apiKey, n)));
    assert s + [0x0D, 0x0A] + [0x0D, 0x0A] == s + [0x0D, 0x0A, 0x0D, 0x0A];
  }
}
