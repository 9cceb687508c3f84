/** The code of flute/net/http, over Buffer objects, against modules Http and HttpPrint. */
module HttpImpl {
  import opened Bytes
  import opened Buffers
  import opened Http
  import opened HttpPrint

  class HttpRequest {
    var verb: Method
    var version: Version
    var path: Text
    var query: Text
    var receiveTime: int
    var headers: map<Text, Text>

    constructor ()
      ensures View() == NEW_REQUEST
    {
      verb, version, path, query, receiveTime, headers := Invalid, Unknown, [], [], 0, map[];
    }

    function View(): Request
      reads this
    {
      Request(verb, version, path, query, headers)
    }

    method SetMethod(name: Text) returns (ok: bool)
      // the code's assertion
      requires verb == Invalid
      modifies this`verb
      ensures name == "GET" <==> verb == Get
      ensures name == "POST" <==> verb == Post
      ensures name == "HEAD" <==> verb == Head
      ensures name == "PUT" <==> verb == Put
      ensures name == "DELETE" <==> verb == Delete
      ensures verb == MethodOf(name) && (ok <==> verb != Invalid)
      ensures ok <==> name in METHOD_NAMES
    {
      NamesAreMethods(name);
      if name == "GET" {
        verb := Get;
      } else if name == "POST" {
        verb := Post;
      } else if name == "HEAD" {
        verb := Head;
      } else if name == "PUT" {
        verb := Put;
      } else if name == "DELETE" {
        verb := Delete;
      } else {
        verb := Invalid;
      }
      ok := verb != Invalid;
    }

    method AddHeaderLine(line: Text, colon: nat)
      requires colon < |line|
      modifies this`headers
      ensures View() == AddHeader(old(View()), line, colon)
    {
      var field := line[..colon];
      var start := colon + 1;
      while start < |line| && IsSpace(line[start])
        invariant colon + 1 <= start <= |line|
        invariant TrimLeft(line[start..]) == TrimLeft(line[colon + 1..])
      {
        assert line[start..][1..] == line[start + 1..];
        start := start + 1;
      }
      var value := line[start..];
      while value != [] && IsSpace(value[|value| - 1])
        invariant TrimRight(value) == TrimRight(TrimLeft(line[colon + 1..]))
      {
        value := value[..|value| - 1];
      }
      headers := headers[field := value];
    }
  }

  class HttpContext {
    var state: ParseState
    const request: HttpRequest

    constructor ()
      ensures fresh(request) && View() == Context(ExpectRequestLine, NEW_REQUEST)
    {
      state := ExpectRequestLine;
      request := new HttpRequest();
    }

    function View(): Context
      reads this, request
    {
      Context(state, request.View())
    }

    method SetTarget(target: Text)
      modifies request`path, request`query
      ensures var q := IndexOf(target, '?');
              && request.path == (if q < |target| then target[..q] else target)
              && request.query == (if q < |target| then target[q..] else old(request.query))
    {
      var question := IndexOf(target, '?');
      if question != |target| {
        request.path := target[..question];
        request.query := target[question..];
      } else {
        request.path := target;
      }
    }

    method SetVersion(last: Text) returns (ok: bool)
      modifies request`version
      ensures ok == (VersionOf(last) != Unknown)
      ensures request.version == if ok then VersionOf(last) else old(request.version)
    {
      ok := |last| == 8 && last[..7] == "HTTP/1.";
      if ok {
        if last[7] == '1' {
          request.version := Http11;
        } else if last[7] == '0' {
          request.version := Http10;
        } else {
          ok := false;
        }
      }
    }

    method ProcessLine(line: Text) returns (ok: bool)
      requires ' ' in line ==> request.verb == Invalid
      modifies request
      ensures (ok, request.View()) == ProcessRequestLine(old(request.View()), line)
      ensures request.receiveTime == old(request.receiveTime)
    {
      hide METHOD_NAMES, MethodOf, VersionOf, IndexOf;
      ok := false;
      var space := IndexOf(line, ' ');
      if space != |line| {
        var known := request.SetMethod(line[..space]);
        if known {
          var rest := line[space + 1..];
          var space2 := IndexOf(rest, ' ');
          if space2 != |rest| {
            SetTarget(rest[..space2]);
            ok := SetVersion(rest[space2 + 1..]);
          }
        }
      }
    }

    // A turn of the loop on the complete line the buffer starts with.
    method TakeTurn(line: Text, now: int) returns (t: Turn, ok: bool)
      requires state == ExpectRequestLine || state == ExpectHeaders
      requires state == ExpectRequestLine && ' ' in line ==> request.verb == Invalid
      modifies this, request
      ensures t == TurnOn(old(View()), line) && View() == t.context
      ensures ok == (old(state) == ExpectRequestLine && t.taken)
      ensures request.receiveTime == if ok then now else old(request.receiveTime)
    {
      ok := false;
      if state == ExpectRequestLine {
        ok := ProcessLine(line);
        if ok {
          request.receiveTime := now;
          state := ExpectHeaders;
        }
        t := Turn(View(), ok, ok);
      } else {
        var colon := IndexOf(line, ':');
        if colon != |line| {
          request.AddHeaderLine(line, colon);
          t := Turn(View(), true, true);
        } else {
          state := GotAll;
          t := Turn(View(), true, false);
        }
      }
    }

    // One pass through the loop body; whether the loop goes on, and whether a request line was accepted.
    method Advance(buf: Buffer, now: int) returns (more: bool, accepted: bool)
      requires buf.Valid() && (state == ExpectRequestLine || state == ExpectHeaders)
      requires MethodAssertion(View(), buf.Contents())
      modifies this, request, buf`readIdx, buf`writeIdx
      ensures buf.Valid()
      ensures (View(), buf.Contents(), more) == AfterTurn(old(View()), old(buf.Contents()))
      ensures accepted == ParseOk(old(View()), old(buf.Contents()))
      ensures request.receiveTime == if accepted then now else old(request.receiveTime)
    {
      var crlf := buf.FindCRLF();
      if crlf == -1 {
        more, accepted := false, false;
      } else {
        var line := buf.store[buf.readIdx..buf.readIdx + crlf];
        assert line == buf.Contents()[..crlf];
        var t;
        t, accepted := TakeTurn(line, now);
        AcceptedIsOk(old(View()), line);
        hide TurnOn, IndexOfCRLF, ProcessRequestLine;
        if t.taken { buf.RetrieveBytes(crlf + 2); }
        more := t.more;
      }
    }

    method ParseRequest(buf: Buffer, now: int) returns (ok: bool)
      requires buf.Valid() && state != ExpectBody && MethodAssertion(View(), buf.Contents())
      modifies this, request, buf`readIdx, buf`writeIdx
      ensures buf.Valid()
      ensures (View(), buf.Contents()) == Parse(old(View()), old(buf.Contents()))
      ensures ok == ParseOk(old(View()), old(buf.Contents()))
      ensures request.receiveTime == if ok then now else old(request.receiveTime)
    {
      ok := false;
      if state == GotAll {
        GotAllStays(View(), buf.Contents());
        return;
      }
      var more;
      more, ok := Advance(buf, now);
      ParseUnfolds(old(View()), old(buf.Contents()));
      while more
        invariant buf.Valid() && (more ==> state == ExpectHeaders)
        invariant ok == ParseOk(old(View()), old(buf.Contents()))
        invariant request.receiveTime == if ok then now else old(request.receiveTime)
        invariant Parse(old(View()), old(buf.Contents())) ==
                  if more then Parse(View(), buf.Contents()) else (View(), buf.Contents())
        decreases more, |buf.Contents()|
      {
        hide AfterTurn, Parse, ParseOk;
        ParseUnfolds(View(), buf.Contents());
        var accepted;
        more, accepted := Advance(buf, now);
        ok := ok || accepted;
      }
    }
  }

  // The context and the bytes after one pass through the loop body, and whether the loop goes on.
  function AfterTurn(c: Context, s: Text): (Context, Text, bool) {
    var i := IndexOfCRLF(s);
    if i == |s| then (c, s, false)
    else
      var t := TurnOn(c, s[..i]);
      (t.context, if t.taken then s[i + 2..] else s, t.more)
  }

  lemma ParseUnfolds(c: Context, s: Text)
    ensures var (c1, s1, more) := AfterTurn(c, s);
            && Parse(c, s) == (if more then Parse(c1, s1) else (c1, s1))
            && (more ==> |s1| < |s| && c1.state == ExpectHeaders)
            && (c.state == ExpectHeaders ==> !ParseOk(c, s))
  {
    TurnEnds(c, s[..IndexOfCRLF(s)]);
    hide ProcessRequestLine, AddHeader;
  }

  lemma AcceptedIsOk(c: Context, line: Text)
    ensures c.state == ExpectRequestLine ==> TurnOn(c, line).taken == ProcessRequestLine(c.request, line).0
  {
  }

  method AppendConnectionLines(r: Response, out: Buffer)
    requires out.Valid()
    modifies out, out.store
    ensures out.Valid() && (out.store == old(out.store) || fresh(out.store))
    ensures out.Contents() == old(out.Contents()) + ConnectionLines(r)
  {
    PrintedLiterals(Decimal(ContentLength(r)));
    hide Decimal, Snprintf, ContentLength, HeaderLine;
    if r.willClose {
      out.AppendBytes("Connection: close\r\n");
    } else {
      var length := Snprintf(32, "Content-Length: " + Decimal(ContentLength(r)) + "\r\n");
      Assoc(out.Contents(), length, "Connection: Keep-Alive\r\n");
      out.AppendBytes(length);
      out.AppendBytes("Connection: Keep-Alive\r\n");
    }
  }

  method AppendHeaderLine(key: Text, value: Text, out: Buffer)
    requires out.Valid()
    modifies out, out.store
    ensures out.Valid() && (out.store == old(out.store) || fresh(out.store))
    ensures out.Contents() == old(out.Contents()) + HeaderLine(key, value)
  {
    ghost var before := out.Contents();
    out.AppendBytes(key);
    out.AppendBytes(": ");
    out.AppendBytes(value);
    out.AppendBytes("\r\n");
    Assoc(before, key, ": ");
    Assoc(before, key + ": ", value);
    Assoc(before, key + ": " + value, "\r\n");
  }

  method AppendHeaderLines(headers: map<Text, Text>, order: seq<Text>, out: Buffer)
    requires out.Valid() && forall i :: 0 <= i < |order| ==> order[i] in headers
    modifies out, out.store
    ensures out.Valid() && (out.store == old(out.store) || fresh(out.store))
    ensures out.Contents() == old(out.Contents()) + HeaderLines(headers, order)
  {
    hide HeaderLine;
    ghost var before := out.Contents();
    for i := 0 to |order|
      invariant out.Valid() && (out.store == old(out.store) || fresh(out.store))
      invariant out.Contents() + HeaderLines(headers, order[i..]) == before + HeaderLines(headers, order)
    {
      ghost var now := out.Contents();
      assert order[i..][1..] == order[i + 1..];
      AppendHeaderLine(order[i], headers[order[i]], out);
      assert out.Contents() + HeaderLines(headers, order[i + 1..]) == now + HeaderLines(headers, order[i..]);
    }
  }

  method AppendStatusLine(r: Response, out: Buffer)
    requires out.Valid()
    modifies out, out.store
    ensures out.Valid() && (out.store == old(out.store) || fresh(out.store))
    ensures out.Contents() == old(out.Contents()) + StatusLine(r)
  {
    hide Decimal, Snprintf;
    ghost var before := out.Contents();
    var status := Snprintf(32, "HTTP/1.1 " + Decimal(r.statusCode) + " ");
    out.AppendBytes(status);
    out.AppendBytes(r.statusMessage);
    out.AppendBytes("\r\n");
    Assoc(before, status, r.statusMessage);
    Assoc(before, status + r.statusMessage, "\r\n");
  }

  /** append_to_buffer; order enumerates the header map in key order. */
  method AppendToBuffer(r: Response, order: seq<Text>, out: Buffer)
    requires out.Valid() && forall i :: 0 <= i < |order| ==> order[i] in r.headers
    modifies out, out.store
    ensures out.Valid() && out.Contents() == old(out.Contents()) + StatusLine(r) + HeadersAndBody(r, order)
  {
    hide StatusLine, HeaderLines, ConnectionLines;
    AppendStatusLine(r, out);
    ghost var start, lines := out.Contents(), HeaderLines(r.headers, order);
    AppendConnectionLines(r, out);
    AppendHeaderLines(r.headers, order, out);
    out.AppendBytes("\r\n");
    out.AppendBytes(r.body);
    Assoc(start, ConnectionLines(r), lines);
    Assoc(start, ConnectionLines(r) + lines, CRLF);
    Assoc(start, ConnectionLines(r) + lines + CRLF, r.body);
    Assoc(ConnectionLines(r) + lines, CRLF, r.body);
    Assoc(ConnectionLines(r), lines, CRLF + r.body);
  }
}
