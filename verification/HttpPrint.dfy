/** The response printer, flute/net/http/HttpResponse.cc, and what the request parser's header
    loop makes of its header block. */
module HttpPrint {
  import opened Bytes
  import opened Http

  datatype BodyType = Html | Jpeg | Unsupported

  datatype Response = Response(statusCode: nat, statusMessage: Text, willClose: bool, headers: map<Text, Text>,
                               body: Text, bodyType: BodyType, fileSize: nat)

  const KEEP_ALIVE: Text := "Connection: Keep-Alive"

  // ---------- The code ----------

  function Decimal(n: nat): (s: Text)
    ensures |s| >= 1
    ensures forall i :: 0 <= i < |s| ==> '0' <= s[i] <= '9'
  {
    if n < 10 then [('0' as int + n) as char]
    else Decimal(n / 10) + [('0' as int + n % 10) as char]
  }

  // snprintf into a buffer of the given size keeps a terminating NUL.
  function Snprintf(size: nat, s: Text): Text
    requires size > 0
  {
    if |s| < size then s else s[..size - 1]
  }

  function ContentLength(r: Response): nat {
    match r.bodyType
    case Html => |r.body|
    case Jpeg => r.fileSize
    case Unsupported => 0
  }

  function HeaderLine(key: Text, value: Text): Text {
    key + ": " + value + CRLF
  }

  // std::map iteration visits the keys in ascending order; order is that enumeration.
  function HeaderLines(headers: map<Text, Text>, order: seq<Text>): Text
    requires forall i :: 0 <= i < |order| ==> order[i] in headers
  {
    if order == [] then [] else HeaderLine(order[0], headers[order[0]]) + HeaderLines(headers, order[1..])
  }

  function StatusLine(r: Response): Text {
    Snprintf(32, "HTTP/1.1 " + Decimal(r.statusCode) + " ") + r.statusMessage + CRLF
  }

  function ConnectionLines(r: Response): Text {
    if r.willClose then HeaderLine("Connection", "close")
    else Snprintf(32, HeaderLine("Content-Length", Decimal(ContentLength(r)))) + HeaderLine("Connection", "Keep-Alive")
  }

  // append_to_buffer after its status line: the header block, the empty line and the body.
  function HeadersAndBody(r: Response, order: seq<Text>): Text
    requires forall i :: 0 <= i < |order| ==> order[i] in r.headers
  {
    ConnectionLines(r) + (HeaderLines(r.headers, order) + (CRLF + r.body))
  }

  // ---------- Parsing a printed line ----------

  predicate IsKey(key: Text) {
    ':' !in key && !HasCRLF(key)
  }

  predicate IsValue(value: Text) {
    !HasCRLF(value) && (value != [] ==> !IsSpace(value[0]) && !IsSpace(value[|value| - 1]))
  }

  lemma TrimOfValue(value: Text)
    requires IsValue(value)
    ensures TrimRight(TrimLeft([' '] + value)) == value
  {
    assert ([' '] + value)[1..] == value;
    assert TrimLeft(value) == value && TrimRight(value) == value;
  }

  lemma LineHasNoCRLF(key: Text, value: Text)
    requires IsKey(key) && IsValue(value)
    ensures !HasCRLF(key + ": " + value)
  {
    var s := key + ": " + value;
    forall i | 0 <= i < |s| - 1 ensures !(s[i] == '\r' && s[i + 1] == '\n') {
      if i + 1 < |key| {
        assert s[i] == key[i] && s[i + 1] == key[i + 1];
      } else if i >= |key| + 2 {
        assert s[i] == value[i - |key| - 2] && s[i + 1] == value[i - |key| - 1];
      }
    }
  }

  // The header loop reads a printed line back as its key and value.
  lemma ParsePrintedLine(r: Request, key: Text, value: Text, rest: Text)
    requires IsKey(key) && IsValue(value)
    ensures Parse(Context(ExpectHeaders, r), HeaderLine(key, value) + rest) ==
            Parse(Context(ExpectHeaders, r.(headers := r.headers[key := value])), rest)
  {
    var line := key + ": " + value;
    LineHasNoCRLF(key, value);
    FirstLine(line, rest);
    assert HeaderLine(key, value) + rest == line + CRLF + rest;
    FindIsUnique(line, ':', |key|);
    assert line[..|key|] == key && line[|key| + 1..] == [' '] + value;
    TrimOfValue(value);
    hide TrimLeft, TrimRight, IndexOfCRLF, IndexOf;
  }

  predicate ArePrintable(headers: map<Text, Text>) {
    forall k :: k in headers ==> IsKey(k) && IsValue(headers[k])
  }

  function Listed(headers: map<Text, Text>, order: seq<Text>): map<Text, Text> {
    map k | k in order && k in headers :: headers[k]
  }

  lemma ParseEmptyLine(r: Request, body: Text)
    ensures Parse(Context(ExpectHeaders, r), CRLF + body) == (Context(GotAll, r), body)
  {
    FirstLine([], body);
    assert CRLF + body == [] + CRLF + body;
  }

  lemma ListedFirst(base: map<Text, Text>, headers: map<Text, Text>, order: seq<Text>)
    requires order != [] && order[0] in headers
    ensures base + Listed(headers, order) == base[order[0] := headers[order[0]]] + Listed(headers, order[1..])
  {
    assert order == [order[0]] + order[1..];
  }

  // The listed lines, the empty line and the body: the headers are added, the body is left.
  lemma {:induction false} ParsePrintedLines(r: Request, headers: map<Text, Text>, order: seq<Text>, body: Text)
    requires ArePrintable(headers) && forall i :: 0 <= i < |order| ==> order[i] in headers
    ensures Parse(Context(ExpectHeaders, r), HeaderLines(headers, order) + (CRLF + body)) ==
            (Context(GotAll, r.(headers := r.headers + Listed(headers, order))), body)
    decreases |order|
  {
    hide Parse, IsKey, IsValue, HeaderLine;
    var end := CRLF + body;
    if order == [] {
      ParseEmptyLine(r, body);
      assert HeaderLines(headers, order) + end == end;
      assert r.headers + Listed(headers, order) == r.headers;
    } else {
      hide Listed;
      var k, v, tail := order[0], headers[order[0]], order[1..];
      ParsePrintedLine(r, k, v, HeaderLines(headers, tail) + end);
      assert HeaderLines(headers, order) + end == HeaderLine(k, v) + (HeaderLines(headers, tail) + end);
      ParsePrintedLines(r.(headers := r.headers[k := v]), headers, tail, body);
      ListedFirst(r.headers, headers, order);
    }
  }

  // ---------- The header round trip ----------

  ghost predicate Lists(order: seq<Text>, headers: map<Text, Text>) {
    forall k :: k in order <==> k in headers
  }

  const CONNECTION: Text := "Connection"
  const CONTENT_LENGTH: Text := "Content-Length"
  const TEN_TO_13: nat := 10_000_000_000_000

  function Pow10(d: nat): nat {
    if d == 0 then 1 else 10 * Pow10(d - 1)
  }

  lemma {:induction false} DigitCount(n: nat, d: nat)
    requires d >= 1
    ensures |Decimal(n)| <= d <==> n < Pow10(d)
  {
    if n < 10 {
      Pow10AtLeast(d);
    } else if d > 1 {
      DigitCount(n / 10, d - 1);
    }
  }

  lemma {:induction false} Pow10AtLeast(d: nat)
    requires d >= 1
    ensures Pow10(d) >= 10
  {
    if d > 1 { Pow10AtLeast(d - 1); }
  }

  lemma LengthFits(n: nat)
    ensures |HeaderLine(CONTENT_LENGTH, Decimal(n))| < 32 <==> n < TEN_TO_13
  {
    DigitCount(n, 13);
    assert Pow10(13) == TEN_TO_13 by {
      assert Pow10(3) == 1000;
      assert Pow10(5) == 100_000;
      assert Pow10(7) == 10_000_000;
      assert Pow10(9) == 1_000_000_000;
      assert Pow10(11) == 100_000_000_000;
    }
    assert |CONTENT_LENGTH| == 14;
  }

  lemma DigitsAreValue(n: nat)
    ensures IsValue(Decimal(n))
  {
    var s := Decimal(n);
    assert forall i :: 0 <= i < |s| ==> '0' <= s[i] <= '9';
    hide Decimal;
  }

  // What the header block should be read as. The response's own headers are printed last, and a
  // later line replaces an earlier one with its key.
  function PrintedHeaders(r: Response): map<Text, Text> {
    AddedHeaders(r) + r.headers
  }

  function AddedHeaders(r: Response): map<Text, Text> {
    if r.willClose then map[CONNECTION := "close"]
    else map[CONTENT_LENGTH := Decimal(ContentLength(r)), CONNECTION := "Keep-Alive"]
  }

  ghost predicate RoundTrips(r: Response, order: seq<Text>)
    requires Lists(order, r.headers)
  {
    Parse(Context(ExpectHeaders, NEW_REQUEST), HeadersAndBody(r, order)) ==
    (Context(GotAll, NEW_REQUEST.(headers := PrintedHeaders(r))), r.body)
  }

  lemma KeysArePrintable()
    ensures IsKey(CONNECTION) && IsKey(CONTENT_LENGTH) && IsValue("close") && IsValue("Keep-Alive")
  {
  }

  lemma ListedAll(headers: map<Text, Text>, order: seq<Text>)
    requires Lists(order, headers)
    ensures Listed(headers, order) == headers
  {
  }

  lemma RoundTripClosing(r: Response, order: seq<Text>)
    requires ArePrintable(r.headers) && Lists(order, r.headers) && r.willClose
    ensures RoundTrips(r, order)
  {
    hide Parse, IsKey, IsValue;
    KeysArePrintable();
    ListedAll(r.headers, order);
    var rest := HeaderLines(r.headers, order) + (CRLF + r.body);
    ParsePrintedLine(NEW_REQUEST, CONNECTION, "close", rest);
    var r1 := NEW_REQUEST.(headers := NEW_REQUEST.headers[CONNECTION := "close"]);
    ParsePrintedLines(r1, r.headers, order, r.body);
    assert r1.headers == AddedHeaders(r);
  }

  lemma RoundTripKeeping(r: Response, order: seq<Text>)
    requires ArePrintable(r.headers) && Lists(order, r.headers) && !r.willClose && ContentLength(r) < TEN_TO_13
    ensures RoundTrips(r, order)
  {
    hide Parse, IsKey, IsValue, Decimal, ContentLength;
    var length := Decimal(ContentLength(r));
    KeysArePrintable();
    LengthFits(ContentLength(r));
    DigitsAreValue(ContentLength(r));
    ListedAll(r.headers, order);
    var rest := HeaderLines(r.headers, order) + (CRLF + r.body);
    var rest1 := HeaderLine(CONNECTION, "Keep-Alive") + rest;
    assert HeadersAndBody(r, order) == HeaderLine(CONTENT_LENGTH, length) + rest1;
    ParsePrintedLine(NEW_REQUEST, CONTENT_LENGTH, length, rest1);
    var r1 := NEW_REQUEST.(headers := NEW_REQUEST.headers[CONTENT_LENGTH := length]);
    ParsePrintedLine(r1, CONNECTION, "Keep-Alive", rest);
    var r2 := r1.(headers := r1.headers[CONNECTION := "Keep-Alive"]);
    ParsePrintedLines(r2, r.headers, order, r.body);
    assert r2.headers == AddedHeaders(r);
  }

  // The cut line runs on into the next one, as one header with an odd value.
  lemma CutLine(n: nat) returns (value: Text)
    requires TEN_TO_13 <= n
    ensures IsValue(value) && value != Decimal(n)
    ensures Snprintf(32, HeaderLine(CONTENT_LENGTH, Decimal(n))) + HeaderLine(CONNECTION, "Keep-Alive") ==
            HeaderLine(CONTENT_LENGTH, value)
  {
    LengthFits(n);
    var digits := Decimal(n);
    var line := HeaderLine(CONTENT_LENGTH, digits);
    var cut := (digits + CRLF)[..15];
    value := cut + KEEP_ALIVE;
    assert line == CONTENT_LENGTH + ": " + (digits + CRLF);
    assert line[..31] == CONTENT_LENGTH + ": " + cut;
    assert HeaderLine(CONNECTION, "Keep-Alive") == KEEP_ALIVE + CRLF;
    CutIsValue(digits, cut, value);
    assert value[|value| - 1] == 'e';
  }

  lemma CutIsValue(digits: Text, cut: Text, value: Text)
    requires |digits| >= 14 && forall i :: 0 <= i < |digits| ==> '0' <= digits[i] <= '9'
    requires cut == (digits + CRLF)[..15] && value == cut + KEEP_ALIVE
    ensures IsValue(value)
  {
    assert forall i :: 0 <= i < 14 ==> value[i] == digits[i];
    assert forall i :: 15 <= i < |value| ==> value[i] == KEEP_ALIVE[i - 15];
    assert '\n' !in KEEP_ALIVE;
    assert value[14] == '\r' || '0' <= value[14] <= '9';
    assert value[|value| - 1] == 'e';
  }

  /** A length that does not fit is read back right only where the response's own headers hide it:
      its line runs on into the Connection line. */
  lemma TooLong(r: Response, order: seq<Text>)
    requires ArePrintable(r.headers) && Lists(order, r.headers) && !r.willClose && TEN_TO_13 <= ContentLength(r)
    ensures RoundTrips(r, order) <==> CONNECTION in r.headers && CONTENT_LENGTH in r.headers
  {
    hide Parse, IsKey, IsValue, Decimal, ContentLength, Snprintf;
    KeysArePrintable();
    ListedAll(r.headers, order);
    var value := CutLine(ContentLength(r));
    var rest := HeaderLines(r.headers, order) + (CRLF + r.body);
    assert HeadersAndBody(r, order) == HeaderLine(CONTENT_LENGTH, value) + rest;
    ParsePrintedLine(NEW_REQUEST, CONTENT_LENGTH, value, rest);
    var r1 := NEW_REQUEST.(headers := NEW_REQUEST.headers[CONTENT_LENGTH := value]);
    ParsePrintedLines(r1, r.headers, order, r.body);
    hide HeadersAndBody, HeaderLines, ArePrintable, Lists;
    HiddenOrNot(r, value);
  }

  lemma HiddenOrNot(r: Response, value: Text)
    requires !r.willClose && value != Decimal(ContentLength(r))
    ensures map[CONTENT_LENGTH := value] + r.headers == PrintedHeaders(r) <==>
              CONNECTION in r.headers && CONTENT_LENGTH in r.headers
  {
    hide Decimal, ContentLength;
    assert CONNECTION != CONTENT_LENGTH by { assert |CONNECTION| != |CONTENT_LENGTH|; }
    hide CONNECTION, CONTENT_LENGTH;
    var read := map[CONTENT_LENGTH := value] + r.headers;
    if CONNECTION !in r.headers {
      assert CONNECTION in PrintedHeaders(r) && CONNECTION !in read;
    } else if CONTENT_LENGTH !in r.headers {
      assert PrintedHeaders(r)[CONTENT_LENGTH] != read[CONTENT_LENGTH];
    }
  }

  /** The printed header block is read back as exactly the printed headers, with the body left over,
      if and only if the content length fits the 32-byte scratch buffer, or is not printed at all, or
      the response's own headers replace both lines that running on would spoil. */
  lemma HeaderRoundTrip(r: Response, order: seq<Text>)
    requires ArePrintable(r.headers) && Lists(order, r.headers)
    ensures RoundTrips(r, order) <==>
              || r.willClose || ContentLength(r) < TEN_TO_13
              || (CONNECTION in r.headers && CONTENT_LENGTH in r.headers)
  {
    hide RoundTrips;
    if r.willClose {
      RoundTripClosing(r, order);
    } else if ContentLength(r) < TEN_TO_13 {
      RoundTripKeeping(r, order);
    } else {
      TooLong(r, order);
    }
  }

  // ---------- What the text says ----------

  function Value(digits: Text): nat
    requires forall i :: 0 <= i < |digits| ==> '0' <= digits[i] <= '9'
  {
    if digits == [] then 0
    else Value(digits[..|digits| - 1]) * 10 + (digits[|digits| - 1] as int - '0' as int)
  }

  /** Numbers are printed in decimal, without leading zeros. */
  lemma {:induction false} DecimalReads(n: nat)
    ensures Value(Decimal(n)) == n
    ensures n > 0 ==> Decimal(n)[0] != '0'
  {
    var s := Decimal(n);
    if n < 10 {
      assert s[..0] == [] && Value(s[..0]) == 0;
    } else {
      DecimalReads(n / 10);
      assert s[..|s| - 1] == Decimal(n / 10);
    }
  }

  /** The length announced is that of the page, of the picture file, or zero. */
  lemma LengthIsBodySize(r: Response)
    requires !r.willClose && CONTENT_LENGTH !in r.headers
    ensures CONTENT_LENGTH in PrintedHeaders(r)
    ensures var digits := PrintedHeaders(r)[CONTENT_LENGTH];
            && (forall i :: 0 <= i < |digits| ==> '0' <= digits[i] <= '9')
            && (r.bodyType == Html ==> Value(digits) == |r.body|)
            && (r.bodyType == Jpeg ==> Value(digits) == r.fileSize)
            && (r.bodyType == Unsupported ==> Value(digits) == 0)
  {
    DecimalReads(ContentLength(r));
    assert CONNECTION != CONTENT_LENGTH by { assert |CONNECTION| != |CONTENT_LENGTH|; }
    hide Value, Decimal;
  }

  lemma NoHeaders(headers: map<Text, Text>)
    ensures HeaderLines(headers, []) == []
  {
  }

  /** Header lines are printed in the order of the keys given, each as key, colon, blank, value. */
  lemma {:induction false} LinesInOrder(headers: map<Text, Text>, order: seq<Text>, key: Text)
    requires key in headers && forall i :: 0 <= i < |order| ==> order[i] in headers
    ensures HeaderLines(headers, order + [key]) == HeaderLines(headers, order) + (key + ": " + headers[key] + "\r\n")
    decreases |order|
  {
    hide HeaderLine;
    if order == [] {
      assert [] + [key] == [key] && [key][1..] == [];
      NoHeaders(headers);
      LineIs(key, headers[key]);
      assert HeaderLine(key, headers[key]) + [] == HeaderLine(key, headers[key]);
      assert [] + HeaderLine(key, headers[key]) == HeaderLine(key, headers[key]);
    } else {
      assert (order + [key])[1..] == order[1..] + [key] && (order + [key])[0] == order[0];
      LinesInOrder(headers, order[1..], key);
      Assoc(HeaderLine(order[0], headers[order[0]]), HeaderLines(headers, order[1..]), key + ": " + headers[key] + "\r\n");
    }
  }

  lemma LineIs(key: Text, value: Text)
    ensures HeaderLine(key, value) == key + ": " + value + "\r\n"
  {
  }

  lemma TwoHundred()
    ensures Decimal(200) == "200"
  {
    assert Decimal(2) == "2" && Decimal(20) == "20";
  }

  lemma OkLine(r: Response)
    requires r.statusCode == 200 && r.statusMessage == "OK"
    ensures StatusLine(r) == "HTTP/1.1 200 OK\r\n"
  {
    TwoHundred();
    hide Decimal;
  }

  lemma PrintedLiterals(n: Text)
    ensures HeaderLine("Connection", "close") == "Connection: close\r\n"
    ensures HeaderLine("Connection", "Keep-Alive") == "Connection: Keep-Alive\r\n"
    ensures HeaderLine("Content-Length", n) == "Content-Length: " + n + "\r\n"
  {
    assert "Content-Length" + ": " == "Content-Length: ";
  }

  /** A closing response, line by line. */
  lemma ClosingText(r: Response)
    requires r.willClose && r.statusCode == 200 && r.statusMessage == "OK"
    ensures StatusLine(r) == "HTTP/1.1 200 OK\r\n"
    ensures HeadersAndBody(r, []) == "Connection: close\r\n" + ("\r\n" + r.body)
  {
    OkLine(r);
    PrintedLiterals([]);
    NoHeaders(r.headers);
    hide StatusLine, HeaderLine, HeaderLines;
    assert [] + (CRLF + r.body) == CRLF + r.body;
  }

  /** A response that keeps the connection, line by line, as long as its length fits. */
  lemma KeepingText(r: Response)
    requires !r.willClose && r.statusCode == 200 && r.statusMessage == "OK" && ContentLength(r) < TEN_TO_13
    ensures StatusLine(r) == "HTTP/1.1 200 OK\r\n"
    ensures HeadersAndBody(r, []) ==
              "Content-Length: " + Decimal(ContentLength(r)) + "\r\n" + ("Connection: Keep-Alive\r\n" + ("\r\n" + r.body))
  {
    OkLine(r);
    PrintedLiterals(Decimal(ContentLength(r)));
    LengthFits(ContentLength(r));
    NoHeaders(r.headers);
    hide StatusLine, HeaderLine, HeaderLines, Decimal, ContentLength;
    assert [] + (CRLF + r.body) == CRLF + r.body;
    Assoc(HeaderLine(CONTENT_LENGTH, Decimal(ContentLength(r))), HeaderLine(CONNECTION, "Keep-Alive"), CRLF + r.body);
  }
}
