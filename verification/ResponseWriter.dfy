/** The write half of the server socket: its guards, its bytes, and its protocol over whole runs. */
module ResponseWriter {
  import opened Chunked
  import opened HeaderLists
  import opened Numbers
  import opened Results

  type Field = (string, string)

  datatype Message = Message(headers: seq<Field>, body: string, trailers: seq<Field>)

  datatype WriteState = Empty | ContinueIssued | MetadataIssued | Finished

  datatype Outcome = Accepted | OutOfOrder | NativeStreamUnsupported

  /** The state that the guards test and assign. */
  class WriterHelper {
    var state: WriteState

    constructor (state: WriteState)
      ensures this.state == state
    {
      this.state := state;
    }

    method WriteMessage() returns (ok: bool)
      modifies this
      ensures ok == CanStart(old(state)) && state == if ok then Finished else old(state)
    {
      if state != Empty && state != ContinueIssued {
        return false;
      }
      state := Finished;
      return true;
    }

    method WriteContinue() returns (ok: bool)
      modifies this
      ensures ok == (old(state) == Empty) && state == if ok then ContinueIssued else old(state)
    {
      if state != Empty {
        return false;
      }
      state := ContinueIssued;
      return true;
    }

    method WriteMetadata() returns (ok: bool)
      modifies this
      ensures ok == CanStart(old(state)) && state == if ok then MetadataIssued else old(state)
    {
      if state != Empty && state != ContinueIssued {
        return false;
      }
      state := MetadataIssued;
      return true;
    }

    method Write() returns (ok: bool)
      ensures ok == (state == MetadataIssued)
    {
      if state != MetadataIssued {
        return false;
      }
      return true;
    }

    method WriteTrailers() returns (ok: bool)
      modifies this
      ensures ok == (old(state) == MetadataIssued) && state == if ok then Finished else old(state)
    {
      if state != MetadataIssued {
        return false;
      }
      state := Finished;
      return true;
    }

    method End() returns (ok: bool)
      modifies this
      ensures ok == (old(state) == MetadataIssued) && state == if ok then Finished else old(state)
    {
      if state != MetadataIssued {
        return false;
      }
      state := Finished;
      return true;
    }
  }

  predicate CanStart(s: WriteState) {
    s == Empty || s == ContinueIssued
  }

  // ---- the bytes of a head ----

  predicate FieldCloses(f: Field) {
    f.0 == "connection" && RunUntil<()>((s, e) => (s, SaysClose(e)), (), Elements(f.1)).1
  }

  predicate ClosesIn(headers: seq<Field>) {
    exists k :: 0 <= k < |headers| && FieldCloses(headers[k])
  }

  method HasConnectionClose(headers: seq<Field>) returns (closes: bool)
    ensures closes == ClosesIn(headers)
  {
    for k := 0 to |headers|
      invariant forall i :: 0 <= i < k ==> !FieldCloses(headers[i])
    {
      if headers[k].0 == "connection" {
        var found, _ := HeaderValueAnyOf<()>(headers[k].1, (s, e) => (s, SaysClose(e)), ());
        if found {
          return true;
        }
      }
    }
    return false;
  }

  function KeepAfter(keepAlive: KeepAlive, headers: seq<Field>): KeepAlive {
    if ClosesIn(headers) then CloseRead else keepAlive
  }

  /** The user's headers, after a "connection: close" that they lack but the socket needs. */
  function SentHeaders(keepAlive: KeepAlive, headers: seq<Field>): seq<Field> {
    (if keepAlive == CloseRead && !ClosesIn(headers) then [("connection", "close")] else []) + headers
  }

  predicate ImplicitLength(connect: bool, status: nat, headers: seq<Field>) {
    || (exists k :: 0 <= k < |headers| && headers[k].0 == "content-length")
    || status / 100 == 1 || status == 204 || (connect && status / 100 == 2)
  }

  function StartLine(modern: bool, status: nat, reason: string): string {
    (if modern then "HTTP/1.1 " else "HTTP/1.0 ") + (ToString(status) + " ") + reason + CRLF
  }

  function LengthField(body: string): Field {
    ("content-length", ToString(|body|))
  }

  // ---- the socket as a value, and one event ----

  /** `reading` holds from an accepted request read to the end of its headers or an error. */
  datatype Sock = Sock(state: WriteState, modern: bool, connect: bool, keepAlive: KeepAlive,
                       open: bool, reading: bool, wire: string)

  datatype Event =
    | Response(status: nat, reason: string, message: Message)
    | Continue
    | Metadata(status: nat, reason: string, message: Message)
    | Write(message: Message)
    | Trailers(message: Message)
    | End
    | ReadRequest
    | Method(connect: bool)
    | Version(modern: bool)
    | ConnectionField(value: string)
    | EndOfHeaders
    | ClearBuffer

  function Finish(s: Sock, wire: string): Sock {
    s.(state := Finished, open := s.keepAlive == KeepAliveRead, wire := wire)
  }

  function Step(s: Sock, e: Event): (Sock, Outcome) {
    match e
    case Response(status, reason, m) =>
      if !CanStart(s.state) then (s, OutOfOrder)
      else
        var keep := KeepAfter(s.keepAlive, m.headers);
        var implicit := ImplicitLength(s.connect, status, m.headers);
        var sent := SentHeaders(keep, m.headers) + if implicit then [] else [LengthField(m.body)];
        (Finish(s.(keepAlive := keep), s.wire + StartLine(s.modern, status, reason) + FieldLines(sent) + CRLF
                                       + if implicit then "" else m.body), Accepted)
    case Continue =>
      if s.state != Empty then (s, OutOfOrder)
      else (s.(state := ContinueIssued, wire := s.wire + "HTTP/1.1 100 Continue\r\n\r\n"), Accepted)
    case Metadata(status, reason, m) =>
      if !CanStart(s.state) then (s, OutOfOrder)
      else if !s.modern then (s, NativeStreamUnsupported)
      else
        var keep := KeepAfter(s.keepAlive, m.headers);
        var sent := SentHeaders(keep, m.headers) + [("transfer-encoding", "chunked")];
        (s.(state := MetadataIssued, keepAlive := keep,
            wire := s.wire + StartLine(true, status, reason) + FieldLines(sent) + CRLF), Accepted)
    case Write(m) =>
      if s.state != MetadataIssued then (s, OutOfOrder)
      else (s.(wire := s.wire + if m.body == "" then "" else Chunk(m.body)), Accepted)
    case Trailers(m) =>
      if s.state != MetadataIssued then (s, OutOfOrder)
      else (Finish(s, s.wire + Last(m.trailers)), Accepted)
    case End =>
      if s.state != MetadataIssued then (s, OutOfOrder)
      else (Finish(s, s.wire + "0\r\n\r\n"), Accepted)
    case ReadRequest => (s.(state := Finished, reading := true), Accepted)
    case Method(connect) => (s.(connect := connect), Accepted)
    case Version(modern) => (s.(modern := modern, keepAlive := Unknown), Accepted)
    case ConnectionField(value) => (s.(keepAlive := OnConnection(s.keepAlive, value)), Accepted)
    case EndOfHeaders =>
      (s.(state := Empty, keepAlive := AtEndOfHeaders(s.keepAlive, s.modern), reading := false), Accepted)
    case ClearBuffer => (s.(state := Empty, reading := false), Accepted)
  }

  // ---- the socket as an object ----

  class ServerSocket {
    const helper: WriterHelper
    var modernHttp: bool
    var connectRequest: bool
    var keepAlive: KeepAlive
    var isOpen: bool
    var reading: bool
    var wire: string

    function View(): Sock
      reads this, helper
    {
      Sock(helper.state, modernHttp, connectRequest, keepAlive, isOpen, reading, wire)
    }

    constructor (modern: bool, connect: bool, keep: KeepAlive)
      ensures View() == Sock(Empty, modern, connect, keep, true, false, "")
      ensures fresh(helper)
    {
      helper := new WriterHelper(Empty);
      modernHttp, connectRequest, keepAlive, isOpen, reading, wire := modern, connect, keep, true, false, "";
    }

    method AsyncWriteResponse(status: nat, reason: string, message: Message) returns (ec: Outcome)
      modifies this, helper
      ensures (View(), ec) == Step(old(View()), Response(status, reason, message))
    {
      hide FieldLines, ClosesIn, ImplicitLength, StartLine, LengthField;
      var ok := helper.WriteMessage();
      if !ok {
        return OutOfOrder;
      }
      var implicit := ImplicitLength(connectRequest, status, message.headers);
      var closes := HasConnectionClose(message.headers);
      if closes {
        keepAlive := CloseRead;
      }
      var useClose := keepAlive == CloseRead && !closes;
      var lines := WriteHead(useClose, message.headers);
      if !implicit {
        lines := lines + (FieldLine(LengthField(message.body)) + CRLF);
      }
      FieldLinesAppend(SentHeaders(keepAlive, message.headers), LengthField(message.body));
      assert SentHeaders(keepAlive, message.headers) + [] == SentHeaders(keepAlive, message.headers);
      wire := wire + StartLine(modernHttp, status, reason) + lines + CRLF
        + if implicit then "" else message.body;
      isOpen := keepAlive == KeepAliveRead;
      return Accepted;
    }

    method AsyncWriteResponseContinue() returns (ec: Outcome)
      modifies this, helper
      ensures (View(), ec) == Step(old(View()), Continue)
    {
      var ok := helper.WriteContinue();
      if !ok {
        return OutOfOrder;
      }
      wire := wire + "HTTP/1.1 100 Continue\r\n\r\n";
      return Accepted;
    }

    method AsyncWriteResponseMetadata(status: nat, reason: string, message: Message) returns (ec: Outcome)
      modifies this, helper
      ensures (View(), ec) == Step(old(View()), Metadata(status, reason, message))
    {
      hide FieldLines, ClosesIn, StartLine;
      var prev := helper.state;
      var ok := helper.WriteMetadata();
      if !ok {
        return OutOfOrder;
      }
      if !modernHttp {
        helper.state := prev;
        return NativeStreamUnsupported;
      }
      var closes := HasConnectionClose(message.headers);
      if closes {
        keepAlive := CloseRead;
      }
      var useClose := keepAlive == CloseRead && !closes;
      var lines := WriteHead(useClose, message.headers);
      FieldLinesAppend(SentHeaders(keepAlive, message.headers), ("transfer-encoding", "chunked"));
      lines := lines + (FieldLine(("transfer-encoding", "chunked")) + CRLF);
      wire := wire + StartLine(modernHttp, status, reason) + lines + CRLF;
      return Accepted;
    }

    method AsyncWrite(message: Message) returns (ec: Outcome)
      modifies this
      ensures (View(), ec) == Step(old(View()), Write(message))
    {
      var ok := helper.Write();
      if !ok {
        return OutOfOrder;
      }
      if |message.body| == 0 {
        assert wire + "" == wire;
        return Accepted;
      }
      var size := ToHex(|message.body|);
      wire := wire + (size + CRLF + message.body + CRLF);
      return Accepted;
    }

    method AsyncWriteTrailers(message: Message) returns (ec: Outcome)
      modifies this, helper
      ensures (View(), ec) == Step(old(View()), Trailers(message))
    {
      hide FieldLines;
      var ok := helper.WriteTrailers();
      if !ok {
        return OutOfOrder;
      }
      var lines := WriteHead(false, message.trailers);
      assert [] + message.trailers == message.trailers;
      wire := wire + ("0\r\n" + lines + CRLF);
      isOpen := keepAlive == KeepAliveRead;
      return Accepted;
    }

    method AsyncWriteEndOfMessage() returns (ec: Outcome)
      modifies this, helper
      ensures (View(), ec) == Step(old(View()), End)
    {
      var ok := helper.End();
      if !ok {
        return OutOfOrder;
      }
      wire := wire + "0\r\n\r\n";
      isOpen := keepAlive == KeepAliveRead;
      return Accepted;
    }

    /** The header lines, with the socket's own "connection: close" first when asked for. */
    method WriteHead(useClose: bool, headers: seq<Field>) returns (lines: string)
      ensures lines == FieldLines((if useClose then [("connection", "close")] else []) + headers)
    {
      hide FieldLines, FieldLine;
      lines := if useClose then "connection: close\r\n" else "";
      ghost var start := lines;
      OwnField(useClose, headers);
      for k := 0 to |headers|
        invariant lines == start + FieldLines(headers[..k])
      {
        LineMore(start, headers, k);
        lines := lines + (headers[k].0 + ": " + headers[k].1 + CRLF);
      }
      assert headers[..|headers|] == headers;
    }
  }

  lemma LineMore(start: string, headers: seq<Field>, k: nat)
    requires k < |headers|
    ensures start + FieldLines(headers[..k]) + (headers[k].0 + ": " + headers[k].1 + CRLF) == start + FieldLines(headers[..k + 1])
  {
    hide FieldLines;
    FieldLinesAppend(headers[..k], headers[k]);
    assert headers[..k + 1] == headers[..k] + [headers[k]];
    Associate(start, FieldLines(headers[..k]), headers[k].0 + ": " + headers[k].1 + CRLF);
  }

  lemma OwnField(useClose: bool, headers: seq<Field>)
    ensures FieldLines((if useClose then [("connection", "close")] else []) + headers) ==
            (if useClose then "connection: close\r\n" else "") + FieldLines(headers)
    ensures FieldLines(headers[..0]) == ""
    ensures forall x: string :: x + "" == x
  {
    if useClose {
      assert ([("connection", "close")] + headers)[1..] == headers;
      assert FieldLine(("connection", "close")) + CRLF == "connection: close\r\n";
    } else {
      assert [] + headers == headers;
      assert "" + FieldLines(headers) == FieldLines(headers);
    }
  }

  lemma {:induction false} FieldLinesAppend(fields: seq<Field>, f: Field)
    ensures FieldLines(fields + [f]) == FieldLines(fields) + (FieldLine(f) + CRLF)
  {
    hide FieldLine, FieldLines;
    if fields == [] {
      FirstLine(f, []);
      NoLines();
      assert fields + [f] == [f] + [];
      assert FieldLine(f) + CRLF + "" == FieldLine(f) + CRLF == "" + (FieldLine(f) + CRLF);
    } else {
      FieldLinesAppend(fields[1..], f);
      FirstLine(fields[0], fields[1..]);
      FirstLine(fields[0], fields[1..] + [f]);
      assert fields == [fields[0]] + fields[1..] && fields + [f] == [fields[0]] + (fields[1..] + [f]);
      Associate(FieldLine(fields[0]) + CRLF, FieldLines(fields[1..]), FieldLine(f) + CRLF);
    }
  }

  lemma FirstLine(f: Field, fields: seq<Field>)
    ensures FieldLines([f] + fields) == FieldLine(f) + CRLF + FieldLines(fields)
  {
    assert ([f] + fields)[1..] == fields;
  }

  lemma NoLines()
    ensures FieldLines([]) == ""
  {
  }

  // ---- the protocol ----

  /** The write calls, by kind: continue, message, metadata, body, trailers, end. */
  datatype Label = C | M | D | W | T | E

  function LabelOf(e: Event): Option<Label> {
    match e
    case Response(_, _, _) => Some(M)
    case Continue => Some(C)
    case Metadata(_, _, _) => Some(D)
    case Write(_) => Some(W)
    case Trailers(_) => Some(T)
    case End => Some(E)
    case _ => None
  }

  predicate IsReset(e: Event) {
    e.ReadRequest? || e.EndOfHeaders? || e.ClearBuffer?
  }

  /**
   * The reader produces a method, a version or the end of the headers only while a request is
   * read; a connection field may also come later, as a trailer.
   */
  predicate Enabled(s: Sock, e: Event) {
    e.Method? || e.Version? || e.EndOfHeaders? ==> s.reading
  }

  function Run(s: Sock, es: seq<Event>): Sock
    decreases es
  {
    if es == [] then s else Run(Step(s, es[0]).0, es[1..])
  }

  predicate ValidRun(s: Sock, es: seq<Event>)
    decreases es
  {
    es == [] || (Enabled(s, es[0]) && ValidRun(Step(s, es[0]).0, es[1..]))
  }

  /** The kinds of the write calls accepted since the last reset. */
  function SinceReset(s: Sock, word: seq<Label>, es: seq<Event>): seq<Label>
    decreases es
  {
    if es == [] then word
    else
      var (s', outcome) := Step(s, es[0]);
      SinceReset(s', Note(word, es[0], outcome), es[1..])
  }

  function Note(word: seq<Label>, e: Event, outcome: Outcome): seq<Label> {
    if IsReset(e) then []
    else if outcome == Accepted && LabelOf(e).Some? then word + [LabelOf(e).value]
    else word
  }

  /** Message | Metadata Write* (Trailers | End) */
  ghost predicate Answer(w: seq<Label>) {
    || w == [M]
    || (|w| >= 2 && w[0] == D && Ending(w[1..]))
  }

  ghost predicate Ending(w: seq<Label>) {
    && |w| >= 1 && (w[|w| - 1] == T || w[|w| - 1] == E)
    && forall k :: 0 <= k < |w| - 1 ==> w[k] == W
  }

  /** Continue? Answer */
  ghost predicate Complete(w: seq<Label>) {
    Answer(w) || (|w| >= 1 && w[0] == C && Answer(w[1..]))
  }

  ghost predicate InProtocol(w: seq<Label>) {
    exists v :: Complete(w + v)
  }

  function Next(s: WriteState, l: Label): Option<WriteState> {
    match l
    case C => if s == Empty then Some(ContinueIssued) else None
    case M => if CanStart(s) then Some(Finished) else None
    case D => if CanStart(s) then Some(MetadataIssued) else None
    case W => if s == MetadataIssued then Some(s) else None
    case _ => if s == MetadataIssued then Some(Finished) else None
  }

  function NextAll(s: WriteState, w: seq<Label>): Option<WriteState>
    decreases w
  {
    if w == [] then Some(s)
    else
      match Next(s, w[0])
      case None => None
      case Some(s') => NextAll(s', w[1..])
  }

  lemma {:induction false} NextAllSplit(s: WriteState, w: seq<Label>, v: seq<Label>)
    ensures NextAll(s, w + v) ==
            match NextAll(s, w) case None => None case Some(s') => NextAll(s', v)
    decreases w
  {
    if w == [] {
      assert w + v == v;
    } else {
      assert (w + v)[1..] == w[1..] + v;
      if Next(s, w[0]).Some? { NextAllSplit(Next(s, w[0]).value, w[1..], v); }
    }
  }

  lemma {:induction false} EndingIs(w: seq<Label>)
    ensures NextAll(MetadataIssued, w) == Some(Finished) <==> Ending(w)
    ensures NextAll(MetadataIssued, w) == Some(MetadataIssued) <==> forall k :: 0 <= k < |w| ==> w[k] == W
    ensures NextAll(MetadataIssued, w) in {None, Some(MetadataIssued), Some(Finished)}
  {
    if w != [] {
      var rest := w[1..];
      assert forall k :: 0 <= k < |rest| ==> rest[k] == w[k + 1];
      assert forall k :: 1 <= k < |w| ==> w[k] == rest[k - 1];
      EndingIs(rest);
      if rest != [] { assert NextAll(Finished, rest) == None; }
    }
  }

  lemma AnswerIs(s: WriteState, w: seq<Label>)
    requires CanStart(s) && (w == [] || w[0] != C)
    ensures NextAll(s, w) == Some(Finished) <==> Answer(w)
    ensures w != [] && NextAll(s, w).Some? ==> NextAll(s, w).value in {MetadataIssued, Finished}
  {
    if w != [] {
      EndingIs(w[1..]);
      if w[0] == M && w[1..] != [] { assert NextAll(Finished, w[1..]) == None; }
    }
  }

  lemma CompleteIs(w: seq<Label>)
    ensures NextAll(Empty, w) == Some(Finished) <==> Complete(w)
  {
    if w != [] && w[0] == C {
      if |w| > 1 && w[1] == C {
        assert NextAll(ContinueIssued, w[1..]) == None;
      } else {
        AnswerIs(ContinueIssued, w[1..]);
      }
    } else {
      AnswerIs(Empty, w);
    }
  }

  /** The guards accept exactly the prefixes of the protocol. */
  lemma AcceptedIffInProtocol(w: seq<Label>)
    ensures NextAll(Empty, w).Some? <==> InProtocol(w)
  {
    match NextAll(Empty, w) {
      case Some(s) =>
        var v := match s case Empty => [M] case ContinueIssued => [M] case MetadataIssued => [E] case Finished => [];
        assert NextAll(s, v) == Some(Finished) by {
          if v != [] { assert v[1..] == []; }
        }
        NextAllSplit(Empty, w, v);
        CompleteIs(w + v);
      case None =>
        forall v
          ensures !Complete(w + v)
        {
          NextAllSplit(Empty, w, v);
          CompleteIs(w + v);
        }
    }
  }

  // ---- whole runs ----

  predicate Fresh(s: Sock) {
    s.state == Empty && !s.reading
  }

  /** What every run keeps: the state is the one the accepted calls lead to. */
  predicate Inv(s: Sock, word: seq<Label>) {
    && (s.reading ==> s.state == Finished && word == [])
    && (!s.reading ==> NextAll(Empty, word) == Some(s.state))
    && (s.state == MetadataIssued ==> s.modern)
  }

  lemma StepKeepsInv(s: Sock, word: seq<Label>, e: Event)
    requires Inv(s, word) && Enabled(s, e)
    ensures Inv(Step(s, e).0, Note(word, e, Step(s, e).1))
  {
    var l := LabelOf(e);
    if l.Some? && !s.reading {
      NextAllSplit(Empty, word, [l.value]);
      assert [l.value][1..] == [];
    }
  }

  lemma {:induction false} RunKeepsInv(s: Sock, word: seq<Label>, es: seq<Event>)
    requires Inv(s, word) && ValidRun(s, es)
    ensures Inv(Run(s, es), SinceReset(s, word, es))
    decreases es
  {
    if es != [] {
      StepKeepsInv(s, word, es[0]);
      hide Step, Note, Inv;
      RunKeepsInv(Step(s, es[0]).0, Note(word, es[0], Step(s, es[0]).1), es[1..]);
    }
  }

  /** In every run, what was accepted since the last reset is within the protocol. */
  lemma RunsFollowProtocol(s: Sock, es: seq<Event>)
    requires Fresh(s) && ValidRun(s, es)
    ensures InProtocol(SinceReset(s, [], es))
  {
    RunKeepsInv(s, [], es);
    var word := SinceReset(s, [], es);
    AcceptedIffInProtocol(word);
  }

  /** A call is accepted outside of a request read exactly when the protocol allows it next. */
  lemma AcceptedIffAllowed(s: Sock, es: seq<Event>, e: Event)
    requires Fresh(s) && ValidRun(s, es) && LabelOf(e).Some?
    ensures var s', word := Run(s, es), SinceReset(s, [], es);
            && (Step(s', e).1 == Accepted ==> !s'.reading && InProtocol(word + [LabelOf(e).value]))
            && (!s'.reading && InProtocol(word + [LabelOf(e).value]) ==> Step(s', e).1 != OutOfOrder)
            && (Step(s', e).1 != Accepted ==> Step(s', e).0 == s')
            && (Step(s', e).1 == NativeStreamUnsupported <==>
                e.Metadata? && !s'.modern && !s'.reading && InProtocol(word + [D]))
  {
    var s', word, l := Run(s, es), SinceReset(s, [], es), LabelOf(e).value;
    RunKeepsInv(s, [], es);
    AcceptedIffInProtocol(word + [l]);
    NextAllSplit(Empty, word, [l]);
    assert [l][1..] == [];
  }

  /** Chunked framing goes only to a peer whose request said HTTP/1.1 or later. */
  lemma ChunkedOnlyToModern(s: Sock, es: seq<Event>, e: Event)
    requires Fresh(s) && ValidRun(s, es)
    requires e.Metadata? || e.Write? || e.Trailers? || e.End?
    requires Step(Run(s, es), e).1 == Accepted
    ensures Run(s, es).modern
  {
    RunKeepsInv(s, [], es);
  }

  /** The final responses begun in a run. */
  function Finals(s: Sock, es: seq<Event>): nat
    decreases es
  {
    if es == [] then 0
    else
      (if (es[0].Response? || es[0].Metadata?) && Step(s, es[0]).1 == Accepted then 1 else 0)
      + Finals(Step(s, es[0]).0, es[1..])
  }

  function Openings(es: seq<Event>): nat {
    if es == [] then 0
    else (if es[0].EndOfHeaders? || es[0].ClearBuffer? then 1 else 0) + Openings(es[1..])
  }

  lemma {:induction false} FinalsBounded(s: Sock, es: seq<Event>)
    ensures Finals(s, es) <= (if CanStart(s.state) then 1 else 0) + Openings(es)
    decreases es
  {
    if es != [] {
      FinalsBounded(Step(s, es[0]).0, es[1..]);
      OpensOrBegins(s, es[0]);
      hide Step;
    }
  }

  lemma OpensOrBegins(s: Sock, e: Event)
    ensures var (s', outcome) := Step(s, e);
            (if (e.Response? || e.Metadata?) && outcome == Accepted then 1 else 0) + (if CanStart(s'.state) then 1 else 0)
            <= (if CanStart(s.state) then 1 else 0) + if e.EndOfHeaders? || e.ClearBuffer? then 1 else 0
  {
    hide FieldLines, ClosesIn, ImplicitLength, StartLine, LengthField, Last, Chunk, OnConnection;
  }

  // ---- the body on the wire ----

  /** The bodies accepted, and the trailers once the message is ended. */
  function Sent(s: Sock, es: seq<Event>): (seq<string>, Option<seq<Field>>)
    decreases es
  {
    if es == [] then ([], None)
    else
      var (s', outcome) := Step(s, es[0]);
      var (bodies, end) := Sent(s', es[1..]);
      if outcome != Accepted then (bodies, end)
      else if es[0].Write? then ([es[0].message.body] + bodies, end)
      else if es[0].Trailers? then (bodies, Some(es[0].message.trailers))
      else if es[0].End? then (bodies, Some([]))
      else (bodies, end)
  }

  ghost predicate NoReset(es: seq<Event>) {
    forall k :: 0 <= k < |es| ==> !IsReset(es[k])
  }

  lemma {:induction false} AfterTheEnd(s: Sock, es: seq<Event>)
    requires s.state == Finished && NoReset(es)
    ensures Run(s, es).state == Finished && Run(s, es).wire == s.wire && Sent(s, es) == ([], None)
    decreases es
  {
    if es != [] { AfterTheEnd(Step(s, es[0]).0, es[1..]); }
  }

  /** What is still to go on the wire for the bodies and the end. */
  function Coded(bodies: seq<string>, end: Option<seq<Field>>): string {
    Chunks(bodies) + match end case None => "" case Some(t) => Last(t)
  }

  lemma ChunksFirst(b: string, bodies: seq<string>)
    ensures Chunks([b] + bodies) == (if b == "" then "" else Chunk(b)) + Chunks(bodies)
  {
    assert ([b] + bodies)[1..] == bodies;
  }

  lemma CodedFirst(b: string, bodies: seq<string>, end: Option<seq<Field>>)
    ensures Coded([b] + bodies, end) == (if b == "" then "" else Chunk(b)) + Coded(bodies, end)
  {
    hide Chunk, Last, Chunks;
    assert Chunks([b] + bodies) == (if b == "" then "" else Chunk(b)) + Chunks(bodies) by {
      ChunksFirst(b, bodies);
    }
    var last := match end case None => "" case Some(t) => Last(t);
    var chunk := if b == "" then "" else Chunk(b);
    assert chunk + Chunks(bodies) + last == chunk + (Chunks(bodies) + last);
  }

  lemma CodedEnd(t: seq<Field>)
    ensures Coded([], Some(t)) == Last(t) && Last([]) == "0\r\n\r\n" && Coded([], None) == ""
  {
    assert "" + Last(t) == Last(t);
    assert "0\r\n" + "" + CRLF == "0\r\n\r\n";
  }

  lemma StepWire(s: Sock, e: Event)
    requires s.state == MetadataIssued && !IsReset(e)
    ensures var (s', outcome) := Step(s, e);
            if e.Write? then
              outcome == Accepted && s'.state == MetadataIssued &&
              s'.wire == s.wire + if e.message.body == "" then "" else Chunk(e.message.body)
            else if e.Trailers? || e.End? then
              outcome == Accepted && s'.state == Finished &&
              s'.wire == s.wire + Last(if e.Trailers? then e.message.trailers else [])
            else s'.state == MetadataIssued && s'.wire == s.wire
  {
    CodedEnd([]);
  }

  lemma {:induction false} WireOf(s: Sock, es: seq<Event>)
    requires s.state == MetadataIssued && NoReset(es)
    ensures Run(s, es).wire == s.wire + Coded(Sent(s, es).0, Sent(s, es).1)
    ensures Run(s, es).state == if Sent(s, es).1.Some? then Finished else MetadataIssued
    decreases es
  {
    CodedEnd([]);
    hide Coded, Chunk, Last, Step;
    if es == [] {
      assert s.wire + "" == s.wire;
    } else {
      var s', rest := Step(s, es[0]).0, es[1..];
      StepWire(s, es[0]);
      if s'.state == Finished {
        AfterTheEnd(s', rest);
        CodedEnd(if es[0].Trailers? then es[0].message.trailers else []);
      } else {
        WireOf(s', rest);
        if es[0].Write? {
          var b := es[0].message.body;
          var (bodies, end) := Sent(s', rest);
          CodedFirst(b, bodies, end);
          var chunk := if b == "" then "" else Chunk(b);
          assert s.wire + chunk + Coded(bodies, end) == s.wire + (chunk + Coded(bodies, end));
        }
      }
    }
  }

  /**
   * After an accepted head, the recipient reads back exactly the bytes of the accepted writes
   * and the trailers once the message is ended, exactly if no trailer breaks its line; and it
   * takes nothing for complete before the end.
   */
  lemma ChunkedResponse(s: Sock, es: seq<Event>)
    requires s.state == MetadataIssued && NoReset(es)
    ensures var (bodies, end) := Sent(s, es);
            var wire := Run(s, es).wire;
            s.wire <= wire &&
            match end
            case None => Decode(wire[|s.wire|..]) == None
            case Some(t) =>
              Decode(wire[|s.wire|..]) == Some(Body(Concat(bodies), Lines(t), ""))
              <==> forall k :: 0 <= k < |t| ==> OneLine(t[k])
  {
    WireOf(s, es);
    var (bodies, end) := Sent(s, es);
    var tail := Run(s, es).wire[|s.wire|..];
    match end {
      case None =>
        assert tail == Chunks(bodies) + "" == Chunks(bodies);
        NeverEarly(bodies);
      case Some(t) =>
        assert tail == Chunks(bodies) + Last(t) == Chunks(bodies) + Last(t) + "";
        RoundTrip(bodies, t, "");
    }
  }

  // ---- closing and saying so ----

  lemma SentClose(k: KeepAlive, h: seq<Field>)
    ensures ClosesIn(SentHeaders(KeepAfter(k, h), h)) <==> k == CloseRead || ClosesIn(h)
  {
    var sent := SentHeaders(KeepAfter(k, h), h);
    if k == CloseRead && !ClosesIn(h) {
      assert sent[0] == ("connection", "close");
      CloseCloses();
    } else {
      assert sent == h;
    }
  }

  /**
   * A response says "connection: close" exactly when the socket closes behind it, except when
   * the decision is still open and its own headers do not close: then it closes unannounced.
   */
  lemma CloseIsAnnounced(s: Sock, e: Event)
    requires e.Response? && Step(s, e).1 == Accepted
    ensures var announced := ClosesIn(SentHeaders(KeepAfter(s.keepAlive, e.message.headers), e.message.headers));
            (announced <==> !Step(s, e).0.open) <==> s.keepAlive != Unknown || ClosesIn(e.message.headers)
  {
    SentClose(s.keepAlive, e.message.headers);
  }

  /** The connection fields that are read before the message is ended. */
  function FieldsBeforeEnd(es: seq<Event>): seq<string> {
    if es == [] || es[0].Trailers? || es[0].End? then []
    else (if es[0].ConnectionField? then [es[0].value] else []) + FieldsBeforeEnd(es[1..])
  }

  lemma StepInAnswer(s: Sock, e: Event)
    requires s.state == MetadataIssued && !s.reading && !IsReset(e) && Enabled(s, e)
    ensures var s' := Step(s, e).0;
            if e.Trailers? || e.End? then s'.state == Finished && s'.open == (s.keepAlive == KeepAliveRead)
            else
              && s'.state == MetadataIssued && !s'.reading
              && s'.keepAlive == if e.ConnectionField? then OnConnection(s.keepAlive, e.value) else s.keepAlive
  {
    hide Chunk, Last, OnConnection, FieldLines, ClosesIn;
  }

  /** The end of a chunked answer acts on the decision that the fields read before it lead to. */
  lemma {:induction false} EndDecides(s: Sock, es: seq<Event>)
    requires s.state == MetadataIssued && !s.reading && NoReset(es) && ValidRun(s, es) && Sent(s, es).1.Some?
    ensures Run(s, es).open == (AfterConnections(s.keepAlive, FieldsBeforeEnd(es)) == KeepAliveRead)
    decreases es
  {
    hide Step, OnConnection;
    var (s', outcome) := Step(s, es[0]);
    StepInAnswer(s, es[0]);
    if s'.state == Finished {
      NothingAfter(s', es[1..]);
    } else {
      EndDecides(s', es[1..]);
      var rest := FieldsBeforeEnd(es[1..]);
      if es[0].ConnectionField? {
        assert ([es[0].value] + rest)[1..] == rest;
      } else {
        assert [] + rest == rest;
      }
    }
  }

  lemma {:induction false} NothingAfter(s: Sock, es: seq<Event>)
    requires s.state == Finished && NoReset(es)
    ensures Run(s, es).open == s.open && Sent(s, es) == ([], None)
    decreases es
  {
    if es != [] {
      NothingAfter(Step(s, es[0]).0, es[1..]);
    }
  }

  /**
   * A chunked answer that says "connection: close" is followed by the closing of the socket. One
   * that does not is followed by it unless the connection was kept, or a field read before the
   * end said keep-alive, and no field read before the end said close.
   */
  lemma ChunkedCloseIsAnnounced(s: Sock, e: Event, es: seq<Event>)
    requires e.Metadata? && Step(s, e).1 == Accepted && !s.reading
    requires NoReset(es) && ValidRun(Step(s, e).0, es) && Sent(Step(s, e).0, es).1.Some?
    ensures var announced := ClosesIn(SentHeaders(KeepAfter(s.keepAlive, e.message.headers), e.message.headers));
            var fields := FieldsBeforeEnd(es);
            (announced <==> !Run(Step(s, e).0, es).open) <==>
              || announced
              || (&& !SomeElement(fields, SaysClose)
                  && (s.keepAlive == KeepAliveRead || SomeElement(fields, SaysKeepAlive)))
  {
    hide SomeElement, SaysClose, SaysKeepAlive, AfterConnections;
    SentClose(s.keepAlive, e.message.headers);
    EndDecides(Step(s, e).0, es);
    Connections(KeepAfter(s.keepAlive, e.message.headers), FieldsBeforeEnd(es));
  }

  lemma CloseCloses()
    ensures FieldCloses(("connection", "close"))
  {
    CloseIsElement();
    RunFirst<()>((s, e) => (s, SaysClose(e)), (), "close", []);
    assert ["close"] == ["close"] + [];
  }
}
