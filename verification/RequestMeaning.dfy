/**
 * What a request is: the meaning of the tokens of a byte stream, one token or piece at a time.
 */
module RequestMeaning {
  import opened HeaderLists
  import opened Results
  import opened Text
  import opened Tokenizer
  import ResponseWriter

  type Field = (string, string)

  datatype ReadState = Empty | MessageReady | BodyReady

  /** What the caller of a read gets. */
  datatype Message = Message(method': string, path: string, headers: seq<Field>, body: string, trailers: seq<Field>)

  /** Everything the reader keeps apart from its buffer; `name` is the field being read. */
  datatype Request = Request(
    message: Message, modern: bool, connect: bool, keepAlive: KeepAlive, state: ReadState, useTrailers: bool,
    writer: ResponseWriter.WriteState, name: Option<string>)

  /** Trailing white space is dropped, but never the first byte. */
  function DecodeFieldValue(raw: string): string {
    if |raw| > 1 && IsSpace(raw[|raw| - 1]) then DecodeFieldValue(raw[..|raw| - 1]) else raw
  }

  function Expects(headers: seq<Field>): nat {
    if headers == [] then 0 else (if headers[0].0 == "expect" then 1 else 0) + Expects(headers[1..])
  }

  function WithoutExpect(headers: seq<Field>): seq<Field> {
    if headers == [] then []
    else if headers[0].0 == "expect" then WithoutExpect(headers[1..])
    else [headers[0]] + WithoutExpect(headers[1..])
  }

  /** More than one "expect" header counts as none. */
  function SingleExpect(headers: seq<Field>): seq<Field> {
    if Expects(headers) > 1 then WithoutExpect(headers) else headers
  }

  /** Where a field goes. */
  function AddField(m: Message, useTrailers: bool, name: string, value: string): Message {
    if useTrailers then m.(trailers := m.trailers + [(name, value)])
    else m.(headers := m.headers + [(name, value)])
  }

  /** A finished field: offers of an old peer to upgrade or to wait are ignored. */
  function OnField(r: Request, name: string, value: string): Request {
    if !r.modern && (name == "expect" || name == "upgrade") then r.(name := None)
    else
      r.(keepAlive := if name == "connection" then OnConnection(r.keepAlive, value) else r.keepAlive,
         message := AddField(r.message, r.useTrailers, name, value), name := None)
  }

  /** The effect of a token, or of a piece of one, whose bytes are given. */
  function Apply(r: Request, c: Code, bytes: string): Request {
    match c
    case Method => r.(message := r.message.(method' := bytes), connect := bytes == "CONNECT", useTrailers := false)
    case RequestTarget => r.(message := r.message.(path := bytes))
    case Version => r.(modern := bytes != "" && bytes[0] > '0', keepAlive := Unknown)
    case FieldName => r.(name := Some(Lower(bytes)))
    case FieldValue => OnField(r, if r.name.Some? then r.name.value else "", DecodeFieldValue(bytes))
    case EndOfHeaders =>
      r.(state := MessageReady, writer := ResponseWriter.Empty,
         message := r.message.(headers := SingleExpect(r.message.headers)),
         keepAlive := AtEndOfHeaders(r.keepAlive, r.modern))
    case BodyChunk => r.(message := r.message.(body := r.message.body + bytes))
    case EndOfBody => r.(state := BodyReady, useTrailers := true)
    case EndOfMessage => r.(state := Empty)
    case _ => r
  }

  lemma NameApplies(r: Request, bytes: string)
    ensures Apply(r, FieldName, bytes) == r.(name := Some(Lower(bytes)))
  {
  }

  lemma InPiecesAgree(r: Request, c: Code, a: string, b: string)
    requires InPieces(c)
    ensures Apply(Apply(r, c, a), c, b) == Apply(r, c, a + b)
  {
    assert r.message.body + a + b == r.message.body + (a + b);
  }

  /** A byte stream, and the tokens it holds from the offset `base` on. */
  datatype Feed = Feed(stream: string, script: seq<Token>, base: nat)

  ghost predicate InStream(f: Feed, k: nat, d: nat) {
    && k <= |f.script| && (d > 0 ==> k < |f.script|)
    && Offset(f.script, f.base, k) + d <= |f.stream|
  }

  /** What the tokens from the k0-th on mean, up to the k-th and d bytes of it. */
  ghost function Meaning(f: Feed, k0: nat, r0: Request, k: nat, d: nat): Request
    requires k0 <= k && InStream(f, k, d)
    decreases k, d
  {
    if d > 0 then
      Apply(Meaning(f, k0, r0, k, 0), f.script[k].code, f.stream[Offset(f.script, f.base, k)..Offset(f.script, f.base, k) + d])
    else if k == k0 then r0
    else
      Apply(Meaning(f, k0, r0, k - 1, 0), f.script[k - 1].code,
            f.stream[Offset(f.script, f.base, k - 1)..Offset(f.script, f.base, k)])
  }

  /** One more piece of a token, or the whole of it. */
  lemma MeaningGrows(f: Feed, k0: nat, r0: Request, k: nat, d: nat, n: nat)
    requires k0 <= k < |f.script| && InStream(f, k, d + n) && d + n <= f.script[k].size
    requires d > 0 || n < f.script[k].size ==> InPieces(f.script[k].code)
    requires n > 0 || f.script[k].size == 0
    ensures var at := Offset(f.script, f.base, k) + d;
            var (k', d') := if d + n == f.script[k].size then (k + 1, 0) else (k, d + n);
            && InStream(f, k, d) && InStream(f, k', d')
            && Offset(f.script, f.base, k') + d' == at + n
            && Meaning(f, k0, r0, k', d') == Apply(Meaning(f, k0, r0, k, d), f.script[k].code, f.stream[at..at + n])
  {
    hide Apply;
    var start, c := Offset(f.script, f.base, k), f.script[k].code;
    var r := Meaning(f, k0, r0, k, 0);
    assert f.stream[start..start + d] + f.stream[start + d..start + d + n] == f.stream[start..start + d + n];
    if d > 0 {
      InPiecesAgree(r, c, f.stream[start..start + d], f.stream[start + d..start + d + n]);
    }
  }

  /** What the fields are when a request read begins; the others are overwritten in its head. */
  predicate Opened(r: Request) {
    && r.message == NOTHING && r.state == Empty && r.writer == ResponseWriter.Finished && r.name == None
  }

  const NOTHING := Message("", "", [], "", [])

  function StateIn(ph: Phase): ReadState {
    match ph
    case InBody => MessageReady
    case Trailer => BodyReady
    case TrailerField => BodyReady
    case _ => Empty
  }

  predicate FieldOpen(ph: Phase) {
    ph == HeadField || ph == TrailerField
  }

  /** How a token moves the phase, the read state and the open field. */
  lemma PhaseMoves(script: seq<Token>, k: nat)
    requires WellFormed(script) && k < |script| && script[k].code != ErrorData
    ensures var ph, c, ph' := PhaseAt(script, k), script[k].code, PhaseAt(script, k + 1);
            && ph' == Follow(ph, c) != Dead && c != InsufficientData
            && (InPieces(c) ==> ph' == ph)
            && (c == FieldValue ==> FieldOpen(ph)) && (c == FieldName ==> !FieldOpen(ph))
            && (FieldOpen(ph') <==> c == FieldName || (FieldOpen(ph) && c != FieldValue))
            && StateIn(ph') == (if c == EndOfHeaders then MessageReady else if c == EndOfBody then BodyReady
                                else if c == EndOfMessage then Empty else StateIn(ph))
            && (c == EndOfMessage <==> ph' == Start)
            && (c == Version ==> script[k].size == 1)
  {
    TokenAt(script, k);
  }

  lemma OffsetMoves(script: seq<Token>, base: nat, k: nat, d: nat, n: nat)
    requires k < |script|
    ensures d + n == script[k].size ==> Offset(script, base, k + 1) == Offset(script, base, k) + d + n
  {
  }

  lemma ApplyMoves(r: Request, c: Code, bytes: string)
    ensures var r' := Apply(r, c, bytes);
            && (r'.name.Some? <==> c == FieldName || (r.name.Some? && c != FieldValue))
            && r'.state == (if c == EndOfHeaders then MessageReady else if c == EndOfBody then BodyReady
                            else if c == EndOfMessage then Empty else r.state)
  {
  }

  /** Only a piece of the body makes the body longer. */
  lemma BodyMoves(r: Request, c: Code, bytes: string)
    ensures |Apply(r, c, bytes).message.body| == |r.message.body| + if c == BodyChunk then |bytes| else 0
  {
  }

  /** Which token sets which part. */
  ghost predicate PartsSet(r: Request, c: Code, bytes: string, r': Request) {
    && r'.message.method' == (if c == Method then bytes else r.message.method')
    && r'.message.path == (if c == RequestTarget then bytes else r.message.path)
    && r'.message.body == r.message.body + (if c == BodyChunk then bytes else "")
    && r'.modern == (if c == Version then bytes != "" && bytes[0] > '0' else r.modern)
    && r'.connect == (if c == Method then bytes == "CONNECT" else r.connect)
  }

  lemma PartsApplied(r: Request, c: Code, bytes: string)
    ensures PartsSet(r, c, bytes, Apply(r, c, bytes))
  {
    assert r.message.body + "" == r.message.body;
  }

  /** Up to the end of its headers a request is in its head. */
  predicate InHead(ph: Phase) {
    ph == Start || ph == AfterMethod || ph == AfterTarget || ph == Head || ph == HeadField
  }

  lemma HeadStays(script: seq<Token>, k: nat)
    requires WellFormed(script) && k < |script| && script[k].code != ErrorData
    requires InHead(PhaseAt(script, k)) && script[k].code != EndOfHeaders
    ensures InHead(PhaseAt(script, k + 1)) && script[k].code != EndOfMessage
  {
    TokenAt(script, k);
  }

  /** Nothing starts a message out of an empty view. */
  lemma StartNeedsBytes(script: seq<Token>, k: nat)
    requires WellFormed(script) && k < |script| && PhaseAt(script, k) == Start
    ensures script[k].size + script[k].look >= 1 && !InPieces(script[k].code)
  {
    TokenAt(script, k);
  }

  /** A token of the kind among those from i up to k. */
  ghost predicate Saw(script: seq<Token>, i: nat, k: nat, c: Code)
    requires k <= |script|
  {
    exists e :: i <= e < k && script[e].code == c
  }

  lemma NothingSeen(script: seq<Token>, i: nat, c: Code)
    requires i <= |script|
    ensures !Saw(script, i, i, c)
  {
  }

  lemma SawWider(script: seq<Token>, i: nat, j: nat, k: nat, c: Code)
    requires i <= j <= k <= |script| && Saw(script, j, k, c)
    ensures Saw(script, i, k, c)
  {
  }

  lemma SawSplit(script: seq<Token>, i: nat, j: nat, k: nat, c: Code)
    requires i <= j <= k <= |script|
    ensures Saw(script, i, k, c) <==> Saw(script, i, j, c) || Saw(script, j, k, c)
  {
  }

  lemma SawNext(script: seq<Token>, i: nat, k: nat, c: Code)
    requires i <= k < |script|
    ensures Saw(script, i, k + 1, c) <==> Saw(script, i, k, c) || script[k].code == c
  {
  }

  /** The head lasts until the end of the headers, and begins again at the end of the message. */
  lemma {:induction false} HeadLasts(script: seq<Token>, i: nat, k: nat)
    requires WellFormed(script) && i <= k <= |script| && PhaseAt(script, k) != Dead
    ensures InHead(PhaseAt(script, i)) && !Saw(script, i, k, EndOfHeaders) ==>
              InHead(PhaseAt(script, k)) && !Saw(script, i, k, EndOfMessage)
    ensures (Saw(script, i, k, EndOfHeaders) || !InHead(PhaseAt(script, i))) && !Saw(script, i, k, EndOfMessage) ==>
              !InHead(PhaseAt(script, k))
  {
    hide Saw, WellFormed, PhaseAt, Follow;
    NothingSeen(script, i, EndOfMessage);
    NothingSeen(script, i, EndOfHeaders);
    if i < k {
      SawNext(script, i, k - 1, EndOfHeaders);
      SawNext(script, i, k - 1, EndOfMessage);
      DeadStays(script, k - 1);
      HeadLasts(script, i, k - 1);
      PhaseMoves(script, k - 1);
      if InHead(PhaseAt(script, k - 1)) && script[k - 1].code != EndOfHeaders {
        HeadStays(script, k - 1);
      }
      if !InHead(PhaseAt(script, k - 1)) && script[k - 1].code != EndOfMessage {
        BodyStays(script, k - 1);
      }
    }
  }

  /** Behind the head, and up to the end of the message, no token of a head comes. */
  lemma {:induction false} NoHead(script: seq<Token>, i: nat, k: nat)
    requires WellFormed(script) && i <= k <= |script| && PhaseAt(script, k) != Dead && !InHead(PhaseAt(script, i))
    requires i < k ==> !Saw(script, i, k - 1, EndOfMessage)
    ensures !Saw(script, i, k, Version) && !Saw(script, i, k, EndOfHeaders)
  {
    hide Saw, WellFormed, PhaseAt, Follow;
    NothingSeen(script, i, Version);
    NothingSeen(script, i, EndOfHeaders);
    if i < k {
      DeadStays(script, k - 1);
      HeadLasts(script, i, k - 1);
      if i < k - 1 {
        SawNext(script, i, k - 2, EndOfMessage);
      }
      NoHead(script, i, k - 1);
      NoHeadToken(script, k - 1);
      SawNext(script, i, k - 1, Version);
      SawNext(script, i, k - 1, EndOfHeaders);
    }
  }

  lemma NoHeadToken(script: seq<Token>, k: nat)
    requires WellFormed(script) && k < |script| && script[k].code != ErrorData && !InHead(PhaseAt(script, k))
    ensures script[k].code != Version && script[k].code != EndOfHeaders
  {
    TokenAt(script, k);
  }

  lemma DeadStays(script: seq<Token>, k: nat)
    requires k < |script| && PhaseAt(script, k + 1) != Dead
    ensures PhaseAt(script, k) != Dead && script[k].code != ErrorData
  {
  }

  lemma BodyStays(script: seq<Token>, k: nat)
    requires WellFormed(script) && k < |script| && script[k].code != ErrorData
    requires !InHead(PhaseAt(script, k)) && script[k].code != EndOfMessage
    ensures !InHead(PhaseAt(script, k + 1))
  {
    TokenAt(script, k);
  }
}
