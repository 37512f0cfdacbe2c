/**
 * What a recipient reads of the socket's answers: heads, bodies by their length, and chunked
 * bodies with their trailers.
 */
module ResponsesRead {
  import opened Chunked
  import opened HeaderLists
  import opened Numbers
  import opened Recipient
  import opened ResponseWriter
  import opened Results
  import opened Text

  // ---- heads ----

  /** A head that can be read back as it was written. */
  ghost predicate Writable(status: nat, reason: string, fields: seq<Recipient.Field>) {
    100 <= status <= 999 && Unbroken(reason) && AllReadable(fields)
  }

  function StatusText(modern: bool, status: nat, reason: string): string {
    (if modern then "HTTP/1.1" else "HTTP/1.0") + [' '] + ToString(status) + [' '] + reason
  }

  lemma StartLineIs(modern: bool, status: nat, reason: string)
    ensures StartLine(modern, status, reason) == StatusText(modern, status, reason) + CRLF
  {
  }

  lemma StatusDigits(status: nat)
    ensures |ToString(status)| == 3 <==> 100 <= status <= 999
    ensures status < 100 ==> |ToString(status)| < 3
  {
    if status >= 10 {
      assert |ToString(status)| == |ToString(status / 10)| + 1;
      if status >= 100 {
        assert |ToString(status / 10)| == |ToString(status / 10 / 10)| + 1;
        assert status >= 1000 ==> |ToString(status / 10 / 10)| == |ToString(status / 10 / 10 / 10)| + 1;
      }
    }
  }

  lemma StatusRead(modern: bool, status: nat, reason: string)
    requires 100 <= status <= 999
    ensures ReadStatus(StatusText(modern, status, reason)) == Some((modern, status, reason))
  {
    hide ToString, Val;
    StatusDigits(status);
    ToStringVal(status);
    var version, digits := if modern then "HTTP/1.1" else "HTTP/1.0", ToString(status);
    var line := StatusText(modern, status, reason);
    assert line == version + ([' '] + digits + [' '] + reason);
    assert line[..8] == version && line[9..12] == digits && line[13..] == reason && line[8] == line[12] == ' ';
    assert "HTTP/1.0"[7] != "HTTP/1.1"[7];
  }

  lemma StatusUnbroken(modern: bool, status: nat, reason: string)
    requires Unbroken(reason)
    ensures Unbroken(StatusText(modern, status, reason))
  {
    hide ToString, Val;
    ToStringVal(status);
    var front := (if modern then "HTTP/1.1" else "HTTP/1.0") + [' '] + ToString(status);
    assert forall k :: 0 <= k < |front| ==> front[k] != '\r' by {
      assert forall k :: 0 <= k < |ToString(status)| ==> IsDigit(ToString(status)[k]);
    }
    assert Unbroken(front);
    assert StatusText(modern, status, reason) == front + ([' '] + reason);
    UnbrokenChar(' ', reason);
    UnbrokenBoth(front, [' '] + reason);
  }

  /** A head is read back as it was written exactly if it can be. */
  lemma HeadRead(modern: bool, status: nat, reason: string, fields: seq<Recipient.Field>, after: string)
    ensures ReadHead(StartLine(modern, status, reason) + FieldLines(fields) + CRLF + after)
              == Some((Head(modern, status, reason, fields), after))
            <==> Writable(status, reason, fields)
  {
    hide StatusText, StartLine, FieldLines, Unbroken, Readable, ReadStatus, ReadFields, Lines, Line, Chunked.Trailers;
    var line, rest := StatusText(modern, status, reason), FieldLines(fields) + CRLF + after;
    var wire := StartLine(modern, status, reason) + FieldLines(fields) + CRLF + after;
    StartLineIs(modern, status, reason);
    assert wire == line + CRLF + rest;
    if Writable(status, reason, fields) {
      StatusUnbroken(modern, status, reason);
      LineOf(line, rest);
      StatusRead(modern, status, reason);
      forall k | 0 <= k < |fields|
        ensures OneLine(fields[k])
      {
        ReadableSays(fields[k]);
      }
      TrailersOf(fields, after);
      FieldsRead(fields);
    }
    if ReadHead(wire) == Some((Head(modern, status, reason, fields), after)) {
      HeadReadable(wire);
      ShortStatus(modern, status, reason, rest);
    }
  }

  /** A status of less than three digits is not read. */
  lemma ShortStatus(modern: bool, status: nat, reason: string, rest: string)
    ensures status < 100 ==> ReadHead(StatusText(modern, status, reason) + CRLF + rest) == None
  {
    hide ToString, Val, ReadFields, Line, Chunked.Trailers;
    if status < 100 {
      var wire, digits := StatusText(modern, status, reason) + CRLF + rest, ToString(status);
      StatusDigits(status);
      var version := if modern then "HTTP/1.1" else "HTTP/1.0";
      assert wire == version + [' '] + digits + ([' '] + reason + CRLF + rest);
      assert wire[9 + |digits|] == ' ';
      if Line(wire).Some? && |Line(wire).value.0| >= 13 {
        var line := Line(wire).value.0;
        assert line[9..12][|digits|] == line[9 + |digits|] == wire[9 + |digits|];
      }
    }
  }

  // ---- responses with a length ----

  /** The message ends with its head: it has a length of its own, or its status has no body. */
  ghost predicate Bodiless(connect: bool, status: nat, headers: seq<Recipient.Field>) {
    || (exists k :: 0 <= k < |headers| && headers[k].0 == "content-length")
    || 100 <= status < 200 || status == 204 || (connect && 200 <= status < 300)
  }

  /** Some connection header has the element "close", in any case. */
  ghost predicate SaysToClose(headers: seq<Recipient.Field>) {
    exists k :: 0 <= k < |headers| && headers[k].0 == "connection"
      && exists x <- Elements(headers[k].1) :: EqualsIgnoringCase(x, "close")
  }

  lemma ClosesIsSaid(headers: seq<Recipient.Field>)
    ensures ClosesIn(headers) <==> SaysToClose(headers)
  {
    forall k | 0 <= k < |headers|
      ensures FieldCloses(headers[k]) <==>
              headers[k].0 == "connection" && exists x <- Elements(headers[k].1) :: EqualsIgnoringCase(x, "close")
    {
      SameScan(Elements(headers[k].1));
    }
  }

  lemma {:induction false} SameScan(es: seq<string>)
    ensures RunUntil<()>((s, e) => (s, SaysClose(e)), (), es).1 <==> exists x <- es :: SaysClose(x)
  {
    if es != [] {
      SameScan(es[1..]);
      assert es == [es[0]] + es[1..];
    }
  }

  /** What the socket sends of its own and of the caller's before it describes the body. */
  ghost function Announced(keepAlive: KeepAlive, headers: seq<Recipient.Field>): seq<Recipient.Field> {
    (if keepAlive == CloseRead && !SaysToClose(headers) then [("connection", "close")] else []) + headers
  }

  lemma AnnouncedIsSent(keepAlive: KeepAlive, headers: seq<Recipient.Field>)
    ensures SentHeaders(KeepAfter(keepAlive, headers), headers) == Announced(keepAlive, headers)
  {
    ClosesIsSaid(headers);
  }

  lemma OwnReadable(n: nat)
    ensures Readable(("connection", "close")) && Readable(("transfer-encoding", "chunked"))
    ensures Readable(("content-length", ToString(n)))
  {
    LengthReadable(n);
  }

  lemma LengthReadable(n: nat)
    ensures Readable(("content-length", ToString(n)))
  {
    hide ToString, Val;
    ToStringVal(n);
    var v := ToString(n);
    assert IsDigit(v[0]) && IsDigit(v[|v| - 1]);
    assert forall k :: 0 <= k < |v| ==> IsDigit(v[k]) && v[k] != '\r';
  }

  lemma AllReadableBoth(a: seq<Recipient.Field>, b: seq<Recipient.Field>)
    ensures AllReadable(a + b) <==> AllReadable(a) && AllReadable(b)
  {
    hide Readable;
    if AllReadable(a + b) {
      forall k | 0 <= k < |a|
        ensures Readable(a[k])
      {
        assert (a + b)[k] == a[k];
      }
      forall k | 0 <= k < |b|
        ensures Readable(b[k])
      {
        assert (a + b)[|a| + k] == b[k];
      }
    }
  }

  /** The fields around the caller's can always be read. */
  lemma AroundReadable(own: seq<Recipient.Field>, headers: seq<Recipient.Field>, last: seq<Recipient.Field>, n: nat)
    requires own == [] || own == [("connection", "close")]
    requires last == [] || last == [("content-length", ToString(n))] || last == [("transfer-encoding", "chunked")]
    ensures AllReadable(own + headers + last) <==> AllReadable(headers)
  {
    hide Readable;
    OwnReadable(n);
    AllReadableBoth(own + headers, last);
    AllReadableBoth(own, headers);
  }

  /**
   * The recipient of a response reads its version, status, reason and fields, in their order, with
   * a length unless the message ends with its head, and finds the body behind it, or else nothing;
   * this exactly if the head can be read back.
   */
  lemma ResponseRead(s: Sock, e: Event)
    requires e.Response? && Step(s, e).1 == Accepted
    ensures var s', m, bodiless := Step(s, e).0, e.message, Bodiless(s.connect, e.status, e.message.headers);
            var fields := Announced(s.keepAlive, m.headers)
                          + if bodiless then [] else [("content-length", ToString(|m.body|))];
            && s.wire <= s'.wire
            && (ReadHead(s'.wire[|s.wire|..])
                  == Some((Head(s.modern, e.status, e.reason, fields), if bodiless then "" else m.body))
                <==> Writable(e.status, e.reason, m.headers))
  {
    hide StartLine, FieldLines, ReadHead, SentHeaders, KeepAfter, SaysToClose, Readable, Unbroken, ToString;
    var m, bodiless := e.message, Bodiless(s.connect, e.status, e.message.headers);
    AnnouncedIsSent(s.keepAlive, m.headers);
    assert bodiless == ImplicitLength(s.connect, e.status, m.headers);
    var last := if bodiless then [] else [("content-length", ToString(|m.body|))];
    var fields, after := Announced(s.keepAlive, m.headers) + last, if bodiless then "" else m.body;
    var head := StartLine(s.modern, e.status, e.reason) + FieldLines(fields) + CRLF;
    assert Step(s, e).0.wire == s.wire + StartLine(s.modern, e.status, e.reason) + FieldLines(fields) + CRLF + after;
    assert Step(s, e).0.wire == s.wire + (head + after);
    AroundReadable(if s.keepAlive == CloseRead && !SaysToClose(m.headers) then [("connection", "close")] else [],
                   m.headers, last, |m.body|);
    HeadRead(s.modern, e.status, e.reason, fields, after);
  }

  /** None of the caller's fields describes the body. */
  ghost predicate NoFraming(headers: seq<Recipient.Field>) {
    forall k :: 0 <= k < |headers| ==> Lower(headers[k].0) != "content-length" && Lower(headers[k].0) != "transfer-encoding"
  }

  lemma LowerNames()
    ensures Lower("content-length") == "content-length" && Lower("transfer-encoding") == "transfer-encoding"
    ensures Lower("connection") == "connection"
  {
  }

  /** The fields that describe the body are the socket's own. */
  lemma FramingIs(keepAlive: KeepAlive, headers: seq<Recipient.Field>, last: seq<Recipient.Field>, name: string)
    requires NoFraming(headers) && (name == "content-length" || name == "transfer-encoding") && |last| <= 1
    ensures ValuesOf(Announced(keepAlive, headers) + last, name) ==
            if last != [] && Lower(last[0].0) == name then [last[0].1] else []
  {
    hide SaysToClose, Lower, ValuesOf;
    LowerNames();
    var own := if keepAlive == CloseRead && !SaysToClose(headers) then [("connection", "close")] else [];
    ValuesOfBoth(own + headers, last, name);
    ValuesOfBoth(own, headers, name);
    NoValues(headers, name);
    OneValue(("connection", "close"), name);
    NoValues([], name);
    assert |"connection"| != |name|;
    if last != [] {
      OneValue(last[0], name);
      assert last == [last[0]];
    }
  }

  /**
   * The recipient of a response finds the body, and nothing behind it; except that a body sent
   * with status 304 is none for the recipient, and stands where the next response should.
   */
  lemma ReplyRead(s: Sock, e: Event)
    requires e.Response? && Step(s, e).1 == Accepted
    requires Writable(e.status, e.reason, e.message.headers) && NoFraming(e.message.headers)
    ensures var s', m, bodiless := Step(s, e).0, e.message, Bodiless(s.connect, e.status, e.message.headers);
            var fields := Announced(s.keepAlive, m.headers)
                          + if bodiless then [] else [("content-length", ToString(|m.body|))];
            s.wire <= s'.wire
            && ReadReply(s.connect, s'.wire[|s.wire|..]) ==
                 Some(if e.status == 304 then Reply(Head(s.modern, e.status, e.reason, fields), "", [], m.body)
                      else Reply(Head(s.modern, e.status, e.reason, fields), if bodiless then "" else m.body, [], ""))
  {
    hide Step, ReadHead, Writable, Announced, ToString, ValuesOf, Val;
    ResponseRead(s, e);
    var m, bodiless := e.message, Bodiless(s.connect, e.status, e.message.headers);
    var last := if bodiless then [] else [("content-length", ToString(|m.body|))];
    FramingIs(s.keepAlive, m.headers, last, "content-length");
    FramingIs(s.keepAlive, m.headers, last, "transfer-encoding");
    LowerNames();
    ToStringVal(|m.body|);
    NotFramed(m.headers);
    assert m.body[..|m.body|] == m.body && m.body[|m.body|..] == "";
  }

  lemma NotFramed(headers: seq<Recipient.Field>)
    requires NoFraming(headers)
    ensures forall k :: 0 <= k < |headers| ==> headers[k].0 != "content-length"
  {
    LowerNames();
  }

  // ---- chunked answers ----

  /** The recipient takes a body behind a head with this status. */
  predicate HasBody(connect: bool, status: nat) {
    !(100 <= status < 200 || status == 204 || status == 304 || (connect && 200 <= status < 300))
  }

  /**
   * The recipient of a chunked answer, with any calls between its head and its end, reads the
   * head, the bodies of the accepted writes as one, and the trailers; before the end, nothing.
   */
  lemma ChunkedReplyRead(s: Sock, e: Event, es: seq<Event>)
    requires e.Metadata? && Step(s, e).1 == Accepted && NoReset(es)
    requires Writable(e.status, e.reason, e.message.headers) && NoFraming(e.message.headers) && HasBody(s.connect, e.status)
    ensures var s' := Run(Step(s, e).0, es);
            var (bodies, end) := Sent(Step(s, e).0, es);
            var fields := Announced(s.keepAlive, e.message.headers) + [("transfer-encoding", "chunked")];
            && s.wire <= s'.wire
            && match end
               case None => ReadReply(s.connect, s'.wire[|s.wire|..]) == None
               case Some(t) =>
                 AllReadable(t) ==> ReadReply(s.connect, s'.wire[|s.wire|..]) ==
                                    Some(Reply(Head(true, e.status, e.reason, fields), Concat(bodies), t, ""))
  {
    hide StartLine, FieldLines, ReadHead, SentHeaders, KeepAfter, SaysToClose, Readable, Unbroken, Run, Sent, Decode,
         ValuesOf, OneLine, ReadFields, Lines, Concat, Lower;
    var m, s1 := e.message, Step(s, e).0;
    var s' := Run(s1, es);
    var (bodies, end) := Sent(s1, es);
    AnnouncedIsSent(s.keepAlive, m.headers);
    var fields := Announced(s.keepAlive, m.headers) + [("transfer-encoding", "chunked")];
    AroundReadable(if s.keepAlive == CloseRead && !SaysToClose(m.headers) then [("connection", "close")] else [],
                   m.headers, [("transfer-encoding", "chunked")], 0);
    ChunkedResponse(s1, es);
    var head, after := StartLine(true, e.status, e.reason) + FieldLines(fields) + CRLF, s'.wire[|s1.wire|..];
    assert s1.wire == s.wire + head;
    assert s'.wire == s1.wire + after == s.wire + (head + after);
    HeadRead(true, e.status, e.reason, fields, after);
    FramingIs(s.keepAlive, m.headers, [("transfer-encoding", "chunked")], "transfer-encoding");
    LowerNames();
    if end.Some? && AllReadable(end.value) {
      forall k | 0 <= k < |end.value|
        ensures OneLine(end.value[k])
      {
        ReadableSays(end.value[k]);
      }
      FieldsRead(end.value);
    }
  }

  /** An interim response is read as such, and nothing of it is left. */
  lemma ContinueRead(s: Sock)
    requires Step(s, Continue).1 == Accepted
    ensures var s' := Step(s, Continue).0;
            s.wire <= s'.wire
            && ReadReply(s.connect, s'.wire[|s.wire|..]) == Some(Reply(Head(true, 100, "Continue", []), "", [], ""))
  {
    hide ReadHead, Readable, FieldLines, StartLine;
    HeadRead(true, 100, "Continue", [], "");
    NoLines();
    ContinueLine();
  }

  lemma ContinueLine()
    ensures StartLine(true, 100, "Continue") + "" + CRLF + "" == "HTTP/1.1 100 Continue\r\n\r\n"
    ensures Unbroken("Continue")
  {
    assert ToString(10) == "10";
    assert ToString(100) == "100";
  }
}
