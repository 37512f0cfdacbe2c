/**
 * The reader's tokens as events of the socket: what the writing half of the socket sees of a
 * request that is read.
 */
module ReaderEvents {
  import opened HeaderLists
  import opened RequestHeads
  import opened RequestMeaning
  import opened RequestReader
  import opened Results
  import opened Tokenizer
  import ResponseWriter

  type Event = ResponseWriter.Event
  type Sock = ResponseWriter.Sock

  /** The events of a token, or of a piece of one, whose bytes are given. */
  function EventsOf(r: Request, c: Code, bytes: string): seq<Event> {
    match c
    case Method => [ResponseWriter.Method(bytes == "CONNECT")]
    case Version => [ResponseWriter.Version(bytes != "" && bytes[0] > '0')]
    case FieldValue =>
      if r.name == Some("connection") then [ResponseWriter.ConnectionField(DecodeFieldValue(bytes))] else []
    case EndOfHeaders => [ResponseWriter.EndOfHeaders]
    case _ => []
  }

  /** The fields that both halves use are the same but for the write state. */
  predicate SharesFields(s: Sock, r: Request) {
    s.modern == r.modern && s.connect == r.connect && s.keepAlive == r.keepAlive
  }

  lemma RunOne(s: Sock, e: Event)
    ensures ResponseWriter.Run(s, [e]) == ResponseWriter.Step(s, e).0
    ensures ResponseWriter.ValidRun(s, [e]) <==> ResponseWriter.Enabled(s, e)
  {
    hide ResponseWriter.Step, ResponseWriter.Enabled;
    assert [e][1..] == [];
  }

  /**
   * A token does to the fields that both halves use what its events do, in every state of the
   * writing half; the end of the headers opens it for an answer.
   */
  lemma TokenIsEvents(s: Sock, r: Request, c: Code, bytes: string)
    requires SharesFields(s, r)
    ensures var s', r' := ResponseWriter.Run(s, EventsOf(r, c, bytes)), Apply(r, c, bytes);
            && SharesFields(s', r') && s'.wire == s.wire && s'.open == s.open
            && s'.state == (if c == EndOfHeaders then ResponseWriter.Empty else s.state)
            && r'.writer == (if c == EndOfHeaders then ResponseWriter.Empty else r.writer)
            && s'.reading == (s.reading && c != EndOfHeaders)
            && (ResponseWriter.ValidRun(s, EventsOf(r, c, bytes)) <==>
                  (c == Method || c == Version || c == EndOfHeaders ==> s.reading))
  {
    hide ResponseWriter.Run, ResponseWriter.ValidRun, OnConnection, DecodeFieldValue, SingleExpect;
    var es := EventsOf(r, c, bytes);
    if es == [] {
      NoEvents(s);
    } else {
      RunOne(s, es[0]);
      assert es == [es[0]];
    }
  }

  lemma NoEvents(s: Sock)
    ensures ResponseWriter.Run(s, []) == s && ResponseWriter.ValidRun(s, [])
  {
  }

  lemma {:induction false} RunBoth(s: Sock, es: seq<Event>, fs: seq<Event>)
    ensures ResponseWriter.Run(s, es + fs) == ResponseWriter.Run(ResponseWriter.Run(s, es), fs)
    ensures ResponseWriter.ValidRun(s, es + fs) <==>
            ResponseWriter.ValidRun(s, es) && ResponseWriter.ValidRun(ResponseWriter.Run(s, es), fs)
    decreases es
  {
    hide ResponseWriter.Step, ResponseWriter.Enabled;
    if es == [] {
      assert [] + fs == fs;
    } else {
      RunBoth(ResponseWriter.Step(s, es[0]).0, es[1..], fs);
      assert (es + fs)[1..] == es[1..] + fs;
    }
  }

  /** The events of the tokens from the k0-th on, up to the k-th. */
  ghost function Events(f: Feed, k0: nat, r0: Request, k: nat): seq<Event>
    requires k0 <= k && InStream(f, k, 0)
    decreases k
  {
    if k == k0 then []
    else
      Events(f, k0, r0, k - 1)
      + EventsOf(Meaning(f, k0, r0, k - 1, 0), f.script[k - 1].code,
                 f.stream[Offset(f.script, f.base, k - 1)..Offset(f.script, f.base, k)])
  }

  lemma HeadTokens(script: seq<Token>, i: nat, k: nat)
    requires WellFormed(script) && i <= k < |script| && script[k].code != ErrorData && PhaseAt(script, i) == Start
    requires forall j :: i < j <= k ==> PhaseAt(script, j) != Start
    ensures script[k].code in {Method, Version, EndOfHeaders} ==> !Saw(script, i, k, EndOfHeaders)
  {
    hide WellFormed, Follow, Saw, PhaseAt;
    if script[k].code in {Method, Version, EndOfHeaders} {
      TokenAt(script, k);
      PhaseMoves(script, k);
      DeadStays(script, k);
      HeadLasts(script, i, k);
      NoMessageEnd(script, i, k);
      HeadToken(script, k);
    }
  }

  lemma HeadToken(script: seq<Token>, k: nat)
    requires WellFormed(script) && k < |script| && script[k].code in {Method, Version, EndOfHeaders}
    ensures InHead(PhaseAt(script, k))
  {
    TokenAt(script, k);
  }

  lemma NoMessageEnd(script: seq<Token>, i: nat, k: nat)
    requires WellFormed(script) && i <= k <= |script|
    requires forall j :: i < j <= k ==> PhaseAt(script, j) != Start
    ensures !Saw(script, i, k, EndOfMessage)
  {
    hide WellFormed, Follow, PhaseAt;
    forall e | i <= e < k
      ensures script[e].code != EndOfMessage
    {
      if script[e].code == EndOfMessage {
        PhaseMoves(script, e);
      }
    }
  }

  /**
   * A request that is read is a run of the socket: its events are enabled, and behind them the
   * fields that both halves use and the write state are what the tokens mean.
   */
  lemma {:induction false} RequestIsRun(f: Feed, k0: nat, r0: Request, k: nat, s: Sock)
    requires WellFormed(f.script) && k0 <= k && InStream(f, k, 0) && Opened(r0)
    requires PhaseAt(f.script, k0) == Start && PhaseAt(f.script, k) != Dead
    requires forall i :: k0 < i < k ==> PhaseAt(f.script, i) != Start
    requires SharesFields(s, r0) && s.state == ResponseWriter.Finished && s.reading
    ensures var s', told := ResponseWriter.Run(s, Events(f, k0, r0, k)), Meaning(f, k0, r0, k, 0);
            && ResponseWriter.ValidRun(s, Events(f, k0, r0, k))
            && SharesFields(s', told) && s'.state == told.writer && s'.wire == s.wire && s'.open == s.open
            && s'.reading == !Saw(f.script, k0, k, EndOfHeaders)
    decreases k
  {
    hide WellFormed, Apply, PhaseAt, Saw, EventsOf, SharesFields, ResponseWriter.Run, ResponseWriter.ValidRun;
    if k == k0 {
      NoEvents(s);
      NothingSeen(f.script, k0, EndOfHeaders);
    } else {
      DeadStays(f.script, k - 1);
      RequestIsRun(f, k0, r0, k - 1, s);
      var told, c := Meaning(f, k0, r0, k - 1, 0), f.script[k - 1].code;
      var bytes := f.stream[Offset(f.script, f.base, k - 1)..Offset(f.script, f.base, k)];
      var es := Events(f, k0, r0, k - 1);
      RunBoth(s, es, EventsOf(told, c, bytes));
      TokenIsEvents(ResponseWriter.Run(s, es), told, c, bytes);
      SawNext(f.script, k0, k - 1, EndOfHeaders);
      HeadTokens(f.script, k0, k - 1);
    }
  }

  /** A reader, wherever its last read stopped, has the fields that the socket has behind its events. */
  lemma ReaderIsRun(r: Reader, s: Sock)
    requires r.Valid() && r.exact
    requires SharesFields(s, r.r0) && s.state == ResponseWriter.Finished && s.reading
    ensures InStream(r.TheFeed(), r.parser.k, 0) && r.k0 <= r.parser.k
    ensures var es := Events(r.TheFeed(), r.k0, r.r0, r.parser.k);
            var s' := ResponseWriter.Run(s, es);
            && ResponseWriter.ValidRun(s, es) && SharesFields(s', r.Rec()) && s'.state == r.writer
  {
    hide WellFormed, Apply, PhaseAt, Follow, FieldOpen, StateIn, InPieces, ResponseWriter.Run, ResponseWriter.ValidRun, Saw;
    var f, k := r.TheFeed(), r.parser.k;
    RequestIsRun(f, r.k0, r.r0, k, s);
    if r.parser.d > 0 {
      PieceChangesNothing(Meaning(f, r.k0, r.r0, k, 0), f.script[k].code,
                          f.stream[Offset(f.script, f.base, k)..Offset(f.script, f.base, k) + r.parser.d]);
    }
  }

  lemma PieceChangesNothing(r: Request, c: Code, bytes: string)
    requires InPieces(c)
    ensures var r' := Apply(r, c, bytes);
            r'.keepAlive == r.keepAlive && r'.modern == r.modern && r'.connect == r.connect && r'.writer == r.writer
  {
  }
}
