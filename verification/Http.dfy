/** The incremental HTTP request parser, flute/net/http/HttpContext.cc and HttpRequest.h, after
    sections 3.1.1 and 3.2 of RFC 7230. */
module Http {
  import opened Bytes

  type Text = seq<Byte>

  datatype Method = Invalid | Get | Post | Head | Put | Delete
  datatype Version = Unknown | Http10 | Http11

  // An HttpRequest, its receive time aside.
  datatype Request = Request(verb: Method, version: Version, path: Text, query: Text, headers: map<Text, Text>)

  datatype ParseState = ExpectRequestLine | ExpectHeaders | ExpectBody | GotAll

  datatype Context = Context(state: ParseState, request: Request)

  const CRLF: Text := "\r\n"

  const NEW_REQUEST := Request(Invalid, Unknown, [], [], map[])

  // ---------- The code: request line ----------

  function MethodOf(name: Text): Method {
    if name == "GET" then Get
    else if name == "POST" then Post
    else if name == "HEAD" then Head
    else if name == "PUT" then Put
    else if name == "DELETE" then Delete
    else Invalid
  }

  function VersionOf(last: Text): Version {
    if |last| == 8 && last[..7] == "HTTP/1." then
      if last[7] == '1' then Http11 else if last[7] == '0' then Http10 else Unknown
    else Unknown
  }

  // process_request_line: whether it succeeds, and the fields it has set by then.
  function ProcessRequestLine(r: Request, line: Text): (bool, Request) {
    var space := IndexOf(line, ' ');
    if space == |line| then (false, r)
    else
      var r1 := r.(verb := MethodOf(line[..space]));
      if r1.verb == Invalid then (false, r1)
      else
        var rest := line[space + 1..];
        var space2 := IndexOf(rest, ' ');
        if space2 == |rest| then (false, r1)
        else
          var target := rest[..space2];
          var question := IndexOf(target, '?');
          var r2 := if question < |target| then r1.(path := target[..question], query := target[question..])
                    else r1.(path := target);
          var version := VersionOf(rest[space2 + 1..]);
          if version == Unknown then (false, r2) else (true, r2.(version := version))
  }

  // ---------- The code: headers ----------

  predicate IsSpace(c: Byte) {
    c == ' ' || (9 as char <= c <= 13 as char)
  }

  function TrimLeft(s: Text): Text {
    if s != [] && IsSpace(s[0]) then TrimLeft(s[1..]) else s
  }

  function TrimRight(s: Text): Text {
    if s != [] && IsSpace(s[|s| - 1]) then TrimRight(s[..|s| - 1]) else s
  }

  function AddHeader(r: Request, line: Text, colon: nat): Request
    requires colon < |line|
  {
    r.(headers := r.headers[line[..colon] := TrimRight(TrimLeft(line[colon + 1..]))])
  }

  // ---------- The code: the loop ----------

  // One turn of the loop on a complete line: the new context, whether the line is taken off the
  // buffer, and whether the loop goes on.
  datatype Turn = Turn(context: Context, taken: bool, more: bool)

  function TurnOn(c: Context, line: Text): Turn {
    match c.state
    case ExpectRequestLine =>
      var (ok, r) := ProcessRequestLine(c.request, line);
      if ok then Turn(Context(ExpectHeaders, r), true, true) else Turn(c.(request := r), false, false)
    case ExpectHeaders =>
      var colon := IndexOf(line, ':');
      if colon < |line| then Turn(c.(request := AddHeader(c.request, line, colon)), true, true)
      else Turn(c.(state := GotAll), true, false)
    case ExpectBody => Turn(c, false, false)
    case GotAll => Turn(c, false, false)
  }

  // parse_request on the buffered bytes: the context it leaves and the bytes it leaves.
  function Parse(c: Context, s: Text): (Context, Text)
    decreases |s|
  {
    var i := IndexOfCRLF(s);
    if i == |s| then (c, s)
    else
      var t := TurnOn(c, s[..i]);
      if t.more then Parse(t.context, s[i + 2..])
      else (t.context, if t.taken then s[i + 2..] else s)
  }

  // The call's return value: true exactly when this call accepted a request line.
  predicate ParseOk(c: Context, s: Text) {
    var i := IndexOfCRLF(s);
    c.state == ExpectRequestLine && i < |s| && ProcessRequestLine(c.request, s[..i]).0
  }

  predicate IsRejected(c: Context, s: Text) {
    var i := IndexOfCRLF(s);
    c.state == ExpectRequestLine && i < |s| && !ProcessRequestLine(c.request, s[..i]).0
  }

  // The assertion in set_method.
  predicate MethodAssertion(c: Context, s: Text) {
    var i := IndexOfCRLF(s);
    c.state == ExpectRequestLine && i < |s| && ' ' in s[..i] ==> c.request.verb == Invalid
  }

  // ---------- Fragmentation ----------

  lemma CRLFInPrefix(a: Text, b: Text)
    requires IndexOfCRLF(a) < |a|
    ensures IndexOfCRLF(a + b) == IndexOfCRLF(a)
  {
    CRLFIsFirst(a);
    var i := IndexOfCRLF(a);
    assert forall k :: 0 <= k < |a| ==> (a + b)[k] == a[k];
    CRLFIsUnique(a + b, i);
  }

  // Judging a rejected line again changes nothing.
  lemma ProcessTwice(r: Request, line: Text)
    ensures !ProcessRequestLine(r, line).0 ==>
              ProcessRequestLine(ProcessRequestLine(r, line).1, line) == ProcessRequestLine(r, line)
  {
  }

  lemma TurnEnds(c: Context, line: Text)
    ensures var t := TurnOn(c, line);
            && (t.more ==> t.taken)
            && (!t.more && t.taken ==> t.context.state == GotAll)
            && (!t.taken ==> TurnOn(t.context, line) == t)
  {
    ProcessTwice(c.request, line);
    hide ProcessRequestLine;
  }

  /** A call on a, then a call on what it left followed by b, does what one call on a + b does. */
  lemma {:induction false} ParseInTwo(c: Context, a: Text, b: Text)
    ensures var (c1, rest) := Parse(c, a);
            Parse(c, a + b) == Parse(c1, rest + b)
    decreases |a|
  {
    hide TurnOn, IndexOfCRLF;
    var i := IndexOfCRLF(a);
    if i < |a| {
      CRLFInPrefix(a, b);
      assert (a + b)[..i] == a[..i] && (a + b)[i + 2..] == a[i + 2..] + b;
      var t := TurnOn(c, a[..i]);
      TurnEnds(c, a[..i]);
      if t.more {
        ParseInTwo(t.context, a[i + 2..], b);
      } else if t.taken {
        GotAllStays(t.context, a[i + 2..] + b);
      }
    }
  }

  lemma GotAllStays(c: Context, s: Text)
    requires c.state == GotAll
    ensures Parse(c, s) == (c, s)
  {
  }

  function Concat(chunks: seq<Text>): Text {
    if chunks == [] then [] else chunks[0] + Concat(chunks[1..])
  }

  // The buffer receives chunk after chunk and parse_request is called after each.
  function FeedAll(c: Context, rest: Text, chunks: seq<Text>): (Context, Text)
    decreases |chunks|
  {
    if chunks == [] then (c, rest)
    else
      var (c1, rest1) := Parse(c, rest + chunks[0]);
      FeedAll(c1, rest1, chunks[1..])
  }

  lemma {:induction false} FeedAllIsParse(c: Context, rest: Text, chunks: seq<Text>)
    requires chunks != []
    ensures FeedAll(c, rest, chunks) == Parse(c, rest + Concat(chunks))
    decreases |chunks|
  {
    hide Parse;
    var a := rest + chunks[0];
    var (c1, rest1) := Parse(c, a);
    ParseInTwo(c, a, Concat(chunks[1..]));
    assert a + Concat(chunks[1..]) == rest + Concat(chunks);
    if chunks[1..] == [] {
      assert Concat(chunks[1..]) == [] && rest1 + [] == rest1 && a + [] == a;
    } else {
      FeedAllIsParse(c1, rest1, chunks[1..]);
    }
  }

  /** Fragmentation independence: however the bytes are cut into chunks, the parser ends in the same
      state with the same request and the same bytes left as after one call on all of them. */
  lemma FragmentationIndependence(c: Context, chunks: seq<Text>)
    ensures FeedAll(c, [], chunks) == Parse(c, Concat(chunks))
  {
    if chunks != [] {
      FeedAllIsParse(c, [], chunks);
      assert [] + Concat(chunks) == Concat(chunks);
    }
  }

  // kExpectBody is never entered, and a request line is only expected at the start.
  lemma {:induction false} NeverBackToStart(c: Context, s: Text)
    ensures c.state != ExpectBody ==> Parse(c, s).0.state != ExpectBody
    ensures c.state != ExpectRequestLine ==> Parse(c, s).0.state != ExpectRequestLine
    decreases |s|
  {
    hide ProcessRequestLine, AddHeader, IndexOfCRLF;
    var i := IndexOfCRLF(s);
    if i < |s| {
      var t := TurnOn(c, s[..i]);
      if t.more { NeverBackToStart(t.context, s[i + 2..]); }
    }
  }

  // ---------- Line by line ----------

  lemma FirstLine(line: Text, rest: Text)
    requires !HasCRLF(line)
    ensures var s := line + CRLF + rest;
            IndexOfCRLF(s) == |line| < |s| && s[..|line|] == line && s[|line| + 2..] == rest
  {
    var s := line + CRLF + rest;
    forall k | 0 <= k < |line| ensures !(s[k] == '\r' && s[k + 1] == '\n') {
      if k + 1 < |line| { assert s[k] == line[k] && s[k + 1] == line[k + 1]; }
    }
    CRLFIsUnique(s, |line|);
  }

  // s is what lies between blanks and neither starts nor ends with one.
  predicate IsTrimmed(whole: Text, before: Text, s: Text, after: Text) {
    && whole == before + s + after
    && (forall i :: 0 <= i < |before| ==> IsSpace(before[i]))
    && (forall i :: 0 <= i < |after| ==> IsSpace(after[i]))
    && (s != [] ==> !IsSpace(s[0]) && !IsSpace(s[|s| - 1]))
  }

  lemma {:induction false} TrimLeftCuts(s: Text) returns (before: Text)
    ensures s == before + TrimLeft(s) && forall i :: 0 <= i < |before| ==> IsSpace(before[i])
    ensures TrimLeft(s) != [] ==> !IsSpace(TrimLeft(s)[0])
  {
    if s != [] && IsSpace(s[0]) {
      assert TrimLeft(s) == TrimLeft(s[1..]);
      hide TrimLeft, IsSpace;
      before := TrimLeftCuts(s[1..]);
      Assoc([s[0]], before, TrimLeft(s));
      assert s == [s[0]] + s[1..];
      before := [s[0]] + before;
    } else {
      before := [];
    }
  }

  lemma {:induction false} TrimRightCuts(s: Text) returns (after: Text)
    ensures s == TrimRight(s) + after && forall i :: 0 <= i < |after| ==> IsSpace(after[i])
    ensures TrimRight(s) != [] ==> !IsSpace(TrimRight(s)[|TrimRight(s)| - 1])
  {
    if s != [] && IsSpace(s[|s| - 1]) {
      var n := |s| - 1;
      assert TrimRight(s) == TrimRight(s[..n]);
      hide TrimRight, IsSpace;
      after := TrimRightCuts(s[..n]);
      Assoc(TrimRight(s), after, [s[n]]);
      assert s == s[..n] + [s[n]];
      after := after + [s[n]];
    } else {
      after := [];
    }
  }

  /** The value stored for a header is the stretch of the line between the blanks around it. */
  lemma ValueIsTrimmed(s: Text) returns (before: Text, after: Text)
    ensures IsTrimmed(s, before, TrimRight(TrimLeft(s)), after)
  {
    hide TrimLeft, TrimRight, IsSpace;
    before := TrimLeftCuts(s);
    var t := TrimLeft(s);
    after := TrimRightCuts(t);
    Assoc(before, TrimRight(t), after);
    if TrimRight(t) != [] { assert TrimRight(t)[0] == t[0]; }
  }

  /** A header line is cut at its first colon; the call goes on behind it. */
  lemma ParseHeader(r: Request, key: Text, text: Text, rest: Text) returns (before: Text, value: Text, after: Text)
    requires ':' !in key && !HasCRLF(key + ":" + text)
    ensures IsTrimmed(text, before, value, after)
    ensures Parse(Context(ExpectHeaders, r), key + ":" + text + CRLF + rest) ==
            Parse(Context(ExpectHeaders, r.(headers := r.headers[key := value])), rest)
  {
    hide TrimLeft, TrimRight, IndexOfCRLF, IsTrimmed;
    var line := key + ":" + text;
    FirstLine(line, rest);
    FindIsUnique(line, ':', |key|);
    assert line[..|key|] == key && line[|key| + 1..] == text;
    before, after := ValueIsTrimmed(text);
    value := TrimRight(TrimLeft(text));
  }

  /** Any line without a colon, empty or not, ends the headers; what follows is left. */
  lemma ParseEndOfHeaders(r: Request, line: Text, rest: Text)
    requires ':' !in line && !HasCRLF(line)
    ensures Parse(Context(ExpectHeaders, r), line + CRLF + rest) == (Context(GotAll, r), rest)
  {
    hide IndexOfCRLF;
    FirstLine(line, rest);
    assert IndexOf(line, ':') == |line|;
  }

  /** A request line that is accepted is taken off; one that is not stays, and so does an unfinished one. */
  lemma ParseFirstLine(r: Request, line: Text, rest: Text)
    requires !HasCRLF(line)
    ensures var (ok, r') := ProcessRequestLine(r, line);
            var s := line + CRLF + rest;
            Parse(Context(ExpectRequestLine, r), s) ==
              if ok then Parse(Context(ExpectHeaders, r'), rest) else (Context(ExpectRequestLine, r'), s)
    ensures forall c :: Parse(c, line) == (c, line)
  {
    hide IndexOfCRLF, ProcessRequestLine;
    FirstLine(line, rest);
    CRLFIsFirst(line);
  }

  // ---------- The grammar of the request line ----------

  const METHOD_NAMES: set<Text> := {"GET", "POST", "HEAD", "PUT", "DELETE"}

  // method SP request-target SP HTTP-version
  function RequestLine(name: Text, target: Text, minor: Byte): Text {
    name + " " + (target + " " + ("HTTP/1." + [minor]))
  }

  // What the code asks of its parts. Section 3.1.1 of RFC 7230 asks more of the target: it is not
  // empty and has no control characters or bytes above 126.
  predicate IsRequestLine(name: Text, target: Text, minor: Byte) {
    name in METHOD_NAMES && ' ' !in target && (minor == '0' || minor == '1')
  }

  lemma CutAtSpace(a: Text, b: Text)
    requires ' ' !in a
    ensures var s := a + " " + b;
            IndexOf(s, ' ') == |a| < |s| && s[..|a|] == a && s[|a| + 1..] == b
  {
    var s := a + " " + b;
    FindIsUnique(s, ' ', |a|);
  }

  lemma Rejoin(s: Text, i: nat)
    requires i < |s| && s[i] == ' '
    ensures s == s[..i] + " " + s[i + 1..]
  {
  }

  // The method each name stands for.
  predicate StandsFor(name: Text, verb: Method) {
    && (name == "GET" <==> verb == Get)
    && (name == "POST" <==> verb == Post)
    && (name == "HEAD" <==> verb == Head)
    && (name == "PUT" <==> verb == Put)
    && (name == "DELETE" <==> verb == Delete)
  }

  lemma NamesAreMethods(name: Text)
    ensures StandsFor(name, MethodOf(name))
    ensures name in METHOD_NAMES <==> MethodOf(name) != Invalid
    ensures name in METHOD_NAMES ==> ' ' !in name
  {
  }

  lemma VersionIsLast(last: Text)
    requires VersionOf(last) != Unknown
    ensures |last| == 8 && (last[7] == '0' || last[7] == '1') && last == "HTTP/1." + [last[7]]
  {
    assert last == last[..7] + [last[7]];
  }

  lemma VersionOfMinor(minor: Byte)
    requires minor == '0' || minor == '1'
    ensures VersionOf("HTTP/1." + [minor]) == if minor == '1' then Http11 else Http10
  {
    var last: Text := "HTTP/1." + [minor];
    assert last[..7] == "HTTP/1." && last[7] == minor;
  }

  lemma SplitTarget(target: Text)
    ensures var q := IndexOf(target, '?');
            && target == target[..q] + target[q..] && '?' !in target[..q]
            && (q < |target| ==> target[q..][0] == '?') && (q < |target| <==> '?' in target)
  {
  }

  // What a target leaves as path and query; without a question mark the query stays what it was.
  predicate IsTargetOf(target: Text, r: Request, r': Request) {
    && '?' !in r'.path
    && (if '?' in target then r'.path + r'.query == target && r'.query != [] && r'.query[0] == '?'
        else r'.path == target && r'.query == r.query)
  }

  // The request line cut into its three parts.
  lemma ProcessParts(r: Request, name: Text, target: Text, last: Text)
    requires name in METHOD_NAMES && ' ' !in target
    ensures var (ok, r') := ProcessRequestLine(r, name + " " + (target + " " + last));
            && (ok <==> VersionOf(last) != Unknown) && r'.headers == r.headers
            && StandsFor(name, r'.verb) && r'.verb != Invalid && IsTargetOf(target, r, r')
            && r'.version == (if ok then VersionOf(last) else r.version)
  {
    hide MethodOf, VersionOf, METHOD_NAMES, IndexOf, StandsFor;
    NamesAreMethods(name);
    SplitTarget(target);
    CutAtSpace(name, target + " " + last);
    CutAtSpace(target, last);
  }

  /** Every such line is accepted, and read as what it says. */
  lemma GrammarIsAccepted(r: Request, name: Text, target: Text, minor: Byte)
    requires IsRequestLine(name, target, minor)
    ensures var (ok, r') := ProcessRequestLine(r, RequestLine(name, target, minor));
            && ok && StandsFor(name, r'.verb) && r'.verb != Invalid && r'.headers == r.headers
            && r'.version == (if minor == '1' then Http11 else Http10)
            && IsTargetOf(target, r, r')
  {
    hide ProcessRequestLine, METHOD_NAMES, VersionOf, IsTargetOf;
    VersionOfMinor(minor);
    ProcessParts(r, name, target, "HTTP/1." + [minor]);
  }

  /** A line with any other version is rejected, but method and target have been stored by then. */
  lemma BadVersionIsRejected(r: Request, name: Text, target: Text, last: Text)
    requires name in METHOD_NAMES && ' ' !in target && last != "HTTP/1.0" && last != "HTTP/1.1"
    ensures var (ok, r') := ProcessRequestLine(r, name + " " + (target + " " + last));
            && !ok && StandsFor(name, r'.verb) && IsTargetOf(target, r, r')
            && r'.version == r.version && r'.headers == r.headers
  {
    if VersionOf(last) != Unknown { VersionIsLast(last); }
    hide ProcessRequestLine, METHOD_NAMES, VersionOf, IsTargetOf;
    ProcessParts(r, name, target, last);
  }

  /** A line without a space changes nothing; one with an unknown method, or with nothing behind its
      target, is rejected with the method stored and no more. */
  lemma RejectedEarly(r: Request, name: Text, rest: Text)
    requires ' ' !in name && (name in METHOD_NAMES ==> ' ' !in rest)
    ensures ProcessRequestLine(r, name) == (false, r)
    ensures var (ok, r') := ProcessRequestLine(r, name + " " + rest);
            !ok && StandsFor(name, r'.verb) && r' == r.(verb := r'.verb)
  {
    hide MethodOf, VersionOf, METHOD_NAMES, StandsFor;
    NamesAreMethods(name);
    CutAtSpace(name, rest);
  }

  /** Nothing else is accepted. */
  lemma OnlyGrammarIsAccepted(r: Request, line: Text) returns (name: Text, target: Text, minor: Byte)
    requires ProcessRequestLine(r, line).0
    ensures IsRequestLine(name, target, minor) && line == RequestLine(name, target, minor)
  {
    hide MethodOf, VersionOf, METHOD_NAMES;
    var space := IndexOf(line, ' ');
    name := line[..space];
    var rest := line[space + 1..];
    var space2 := IndexOf(rest, ' ');
    target := rest[..space2];
    var last := rest[space2 + 1..];
    NamesAreMethods(name);
    VersionIsLast(last);
    minor := last[7];
    Rejoin(rest, space2);
    Rejoin(line, space);
  }

  predicate Reads(line: Text, name: Text, target: Text) {
    && IsRequestLine(name, target, '1')
    && (line == RequestLine(name, target, '1') || line == RequestLine(name, target, '0'))
  }

  // The line is one that the code accepts.
  ghost predicate IsAcceptable(line: Text) {
    exists name: Text, target: Text :: Reads(line, name, target)
  }

  lemma AcceptedIffAcceptable(r: Request, line: Text)
    ensures ProcessRequestLine(r, line).0 <==> IsAcceptable(line)
  {
    hide ProcessRequestLine, RequestLine;
    if ProcessRequestLine(r, line).0 {
      var name, target, minor := OnlyGrammarIsAccepted(r, line);
      assert Reads(line, name, target);
    } else if IsAcceptable(line) {
      var name: Text, target: Text :| Reads(line, name, target);
      GrammarIsAccepted(r, name, target, if line == RequestLine(name, target, '1') then '1' else '0');
    }
  }

  /** Among the lines accepted is one without a target, which RFC 7230 does not admit. */
  lemma EmptyTargetIsAccepted(r: Request)
    ensures ProcessRequestLine(r, "GET  HTTP/1.1").0
  {
    assert "GET  HTTP/1.1" == RequestLine("GET", [], '1');
    GrammarIsAccepted(r, "GET", [], '1');
  }

  // ---------- The assertion in set_method ----------

  predicate StartsWith(line: Text, name: Text) {
    name + " " <= line
  }

  // The line starts with a method name and a space.
  predicate NamesMethod(line: Text) {
    exists name :: name in METHOD_NAMES && StartsWith(line, name)
  }

  // The first buffered line names a method but is not acceptable otherwise.
  ghost predicate IsRejectedWithMethod(c: Context, s: Text) {
    var i := IndexOfCRLF(s);
    c.state == ExpectRequestLine && i < |s| && NamesMethod(s[..i]) && !IsAcceptable(s[..i])
  }

  lemma CutAtName(line: Text, name: Text)
    requires StartsWith(line, name) && ' ' !in name
    ensures IndexOf(line, ' ') == |name| < |line| && line[..|name|] == name
  {
    hide IndexOf;
    var rest := line[|name| + 1..];
    assert line == name + " " + rest;
    CutAtSpace(name, rest);
  }

  lemma NamedByPrefix(line: Text)
    ensures NamesMethod(line) <==> IndexOf(line, ' ') < |line| && line[..IndexOf(line, ' ')] in METHOD_NAMES
  {
    hide METHOD_NAMES, IndexOf, StartsWith;
    var space := IndexOf(line, ' ');
    if NamesMethod(line) {
      var name :| name in METHOD_NAMES && StartsWith(line, name);
      NamesAreMethods(name);
      CutAtName(line, name);
    } else if space < |line| {
      StartsWithCut(line, space);
    }
  }

  lemma StartsWithCut(line: Text, space: nat)
    requires space < |line| && line[space] == ' '
    ensures StartsWith(line, line[..space])
  {
    Rejoin(line, space);
  }

  // What a rejected line leaves as the method.
  lemma StoredMethod(r: Request, line: Text)
    requires r.verb == Invalid && !ProcessRequestLine(r, line).0
    ensures ProcessRequestLine(r, line).1.verb != Invalid <==> NamesMethod(line)
  {
    hide MethodOf, VersionOf, METHOD_NAMES, NamesMethod;
    NamedByPrefix(line);
    var space := IndexOf(line, ' ');
    if space < |line| { NamesAreMethods(line[..space]); }
  }

  /** The one way a call can trip the assertion in set_method: an earlier call found a line that
      names a method and is not acceptable. */
  lemma AssertionAfterCall(c: Context, a: Text, b: Text)
    requires c.state == ExpectRequestLine ==> c.request.verb == Invalid
    ensures var (c1, rest) := Parse(c, a);
            MethodAssertion(c1, rest + b) <==> !IsRejectedWithMethod(c, a)
  {
    hide NamesMethod, IsAcceptable, Parse, ProcessRequestLine;
    var i := IndexOfCRLF(a);
    if c.state != ExpectRequestLine {
      NeverBackToStart(c, a);
    } else if i == |a| {
      NothingParsed(c, a);
    } else {
      AcceptedIffAcceptable(c.request, a[..i]);
      if ProcessRequestLine(c.request, a[..i]).0 {
        AcceptedMovesOn(c, a);
      } else {
        AssertionAfterRejection(c, a, b);
      }
    }
  }

  lemma NothingParsed(c: Context, s: Text)
    requires IndexOfCRLF(s) == |s|
    ensures Parse(c, s) == (c, s)
  {
  }

  lemma AcceptedMovesOn(c: Context, s: Text)
    requires ParseOk(c, s)
    ensures Parse(c, s).0.state != ExpectRequestLine
  {
    hide ProcessRequestLine;
    var i := IndexOfCRLF(s);
    NeverBackToStart(Context(ExpectHeaders, ProcessRequestLine(c.request, s[..i]).1), s[i + 2..]);
  }

  lemma AssertionAfterRejection(c: Context, a: Text, b: Text)
    requires c.state == ExpectRequestLine && c.request.verb == Invalid && IsRejected(c, a)
    ensures var (c1, rest) := Parse(c, a);
            MethodAssertion(c1, rest + b) <==> !NamesMethod(a[..IndexOfCRLF(a)])
  {
    hide NamesMethod;
    var i := IndexOfCRLF(a);
    var line := a[..i];
    StoredMethod(c.request, line);
    NamedByPrefix(line);
    CRLFInPrefix(a, b);
    hide ProcessRequestLine;
    assert (a + b)[..i] == line && Parse(c, a).1 == a;
    var space := IndexOf(line, ' ');
    if space < i { assert line[space] in line; }
  }
}
