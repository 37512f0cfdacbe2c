/**
 * Two requests, written out: one with empty field values, and one whose keep-alive decision
 * depends on how far a read has parsed, since its head keeps the connection and a trailer
 * closes it.
 */
module RequestExamples {
  import opened HeaderLists
  import opened RequestHeads
  import opened RequestMeaning
  import opened RequestRuns
  import opened Results
  import opened Text
  import opened Tokenizer
  import opened WrittenStreams

  // ---- the requests ----

  const START: seq<Piece> := [
    Piece(Method, "GET", 1), Piece(Skip, " ", 0), Piece(RequestTarget, "/", 1), Piece(Skip, " HTTP/1.", 0),
    Piece(Version, "1", 0), Piece(Skip, "\r\n", 0)]

  const HOST: seq<Piece> := [
    Piece(FieldName, "host", 1), Piece(Skip, ": ", 0), Piece(FieldValue, "a", 1), Piece(Skip, "\r\n", 0)]

  const CODING: seq<Piece> := [
    Piece(FieldName, "transfer-encoding", 1), Piece(Skip, ": ", 0), Piece(FieldValue, "chunked", 1), Piece(Skip, "\r\n", 0)]

  const END: seq<Piece> := [Piece(EndOfHeaders, "\r\n", 0)]

  const BODY: seq<Piece> := [Piece(Skip, "0", 1), Piece(EndOfBody, "\r\n", 0)]

  const CLOSE: seq<Piece> := [
    Piece(FieldName, "connection", 1), Piece(Skip, ": ", 0), Piece(FieldValue, "close", 1), Piece(Skip, "\r\n", 0)]

  const OVER: seq<Piece> := [Piece(EndOfMessage, "\r\n", 0)]

  const EMPTY_HOST: seq<Piece> := [
    Piece(FieldName, "host", 1), Piece(Skip, ": ", 0), Piece(FieldValue, "", 1), Piece(Skip, "\r\n", 0)]

  const EMPTY_TRAILER: seq<Piece> := [
    Piece(FieldName, "x", 1), Piece(Skip, ":", 0), Piece(FieldValue, "", 1), Piece(Skip, "\r\n", 0)]

  const EMPTY_HEAD: seq<Piece> := START + EMPTY_HOST + CODING + END

  const EMPTY_TAIL: seq<Piece> := BODY + EMPTY_TRAILER + OVER

  const HEAD: seq<Piece> := START + HOST + CODING + END

  const TAIL: seq<Piece> := BODY + CLOSE + OVER

  lemma StartInGrammar()
    ensures InGrammar(Start, START) && After(Start, START) == Head
  {
    hide InGrammar, After;
    var s := START;
    Unfold1(Start, s[0]);
    Unfold1(AfterMethod, s[1]);
    Unfold1(AfterMethod, s[2]);
    Unfold1(AfterTarget, s[3]);
    Unfold1(AfterTarget, s[4]);
    Unfold1(Head, s[5]);
    InGrammar2(Start, s[0], s[1]);
    InGrammar2(AfterMethod, s[2], s[3]);
    InGrammar2(AfterTarget, s[4], s[5]);
    assert [s[2], s[3]] + [s[4], s[5]] == [s[2], s[3], s[4], s[5]];
    GrammarSplit(AfterMethod, [s[2], s[3]], [s[4], s[5]]);
    assert [s[0], s[1]] + [s[2], s[3], s[4], s[5]] == s;
    GrammarSplit(Start, [s[0], s[1]], [s[2], s[3], s[4], s[5]]);
  }

  lemma HeadInGrammar(host: seq<Piece>)
    requires InGrammar(Head, host) && After(Head, host) == Head
    ensures InGrammar(Start, START + host + CODING + END) && After(Start, START + host + CODING + END) == InBody
  {
    hide InGrammar, After;
    StartInGrammar();
    FieldInGrammar(Head, CODING);
    Unfold1(Head, END[0]);
    assert END == [END[0]];
    GrammarSplit(Start, START, host);
    GrammarSplit(Start, START + host, CODING);
    GrammarSplit(Start, START + host + CODING, END);
  }

  lemma TailInGrammar(trailer: seq<Piece>)
    requires InGrammar(Trailer, trailer) && After(Trailer, trailer) == Trailer
    ensures InGrammar(InBody, BODY + trailer + OVER) && After(InBody, BODY + trailer + OVER) == Start
  {
    hide InGrammar, After;
    Unfold1(InBody, BODY[0]);
    Unfold1(InBody, BODY[1]);
    InGrammar2(InBody, BODY[0], BODY[1]);
    Unfold1(Trailer, OVER[0]);
    assert BODY == [BODY[0], BODY[1]] && OVER == [OVER[0]];
    GrammarSplit(InBody, BODY, trailer);
    GrammarSplit(InBody, BODY + trailer, OVER);
  }

  lemma RequestInGrammar()
    ensures InGrammar(Start, HEAD + TAIL) && After(Start, HEAD + TAIL) == Start
  {
    hide InGrammar, After;
    FieldInGrammar(Head, HOST);
    FieldInGrammar(Trailer, CLOSE);
    HeadInGrammar(HOST);
    TailInGrammar(CLOSE);
    GrammarSplit(Start, HEAD, TAIL);
  }

  // ---- empty values ----

  /** Headers and trailers may be empty, and are told as they are. */
  lemma EmptyValuesAllowed(r: Request)
    requires r.modern && !r.useTrailers
    ensures var ps := EMPTY_HEAD + EMPTY_TAIL;
            WellFormed(ScriptOf(ps)) && PhaseAt(ScriptOf(ps), |ps|) == Start
    ensures EMPTY_HOST[2].code == EMPTY_TRAILER[2].code == FieldValue && EMPTY_HOST[2].text == EMPTY_TRAILER[2].text == ""
    ensures Tell(r, EMPTY_HOST).message.headers == r.message.headers + [("host", "")]
  {
    hide InGrammar, After, Tell, WellFormed, PhaseAt, Lower;
    var ps := EMPTY_HEAD + EMPTY_TAIL;
    FieldInGrammar(Head, EMPTY_HOST);
    FieldInGrammar(Trailer, EMPTY_TRAILER);
    HeadInGrammar(EMPTY_HOST);
    TailInGrammar(EMPTY_TRAILER);
    GrammarSplit(Start, EMPTY_HEAD, EMPTY_TAIL);
    GrammarIsWellFormed(ps);
    PhaseIsAfter(ps, |ps|);
    assert ps[..|ps|] == ps;
    LowerAlready();
    TellField(r, EMPTY_HOST);
  }

  // ---- what it tells ----

  lemma StartTells()
    ensures var r := Tell(FRESH, START); r.modern && r.keepAlive == Unknown && !r.useTrailers
  {
    var s := START;
    assert [s[2], s[3]] + [s[4], s[5]] == [s[2], s[3], s[4], s[5]];
    assert [s[0], s[1]] + [s[2], s[3], s[4], s[5]] == s;
    TellBoth(FRESH, [s[0], s[1]], [s[2], s[3], s[4], s[5]]);
    var r := Tell(FRESH, [s[0], s[1]]);
    TellBoth(r, [s[2], s[3]], [s[4], s[5]]);
    Tell2(FRESH, s[0], s[1]);
    Tell2(r, s[2], s[3]);
    Tell2(Tell(r, [s[2], s[3]]), s[4], s[5]);
  }

  lemma OtherField(r: Request, name: string, value: string)
    requires r.modern && name != "connection"
    ensures var r' := OnField(r, name, value);
            r'.modern && r'.keepAlive == r.keepAlive && r'.useTrailers == r.useTrailers
  {
  }

  lemma HeadTellsKeepAlive()
    ensures var r := Tell(FRESH, HEAD); r.modern && r.keepAlive == KeepAliveRead
  {
    hide OnField, DecodeFieldValue;
    StartTells();
    var r0 := Tell(FRESH, START);
    TellField(r0, HOST);
    OtherField(r0.(name := Some(Lower("host"))), Lower("host"), DecodeFieldValue("a"));
    assert |Lower("host")| != |"connection"|;
    var r1 := Tell(r0, HOST);
    TellField(r1, CODING);
    assert |Lower("transfer-encoding")| != |"connection"|;
    OtherField(r1.(name := Some(Lower("transfer-encoding"))), Lower("transfer-encoding"), DecodeFieldValue("chunked"));
    var r2 := Tell(r1, CODING);
    Tell1(r2, END[0]);
    assert END == [END[0]];
    TellBoth(FRESH, START, HOST);
    TellBoth(FRESH, START + HOST, CODING);
    TellBoth(FRESH, START + HOST + CODING, END);
  }

  lemma CloseDecides(r: Request)
    requires r.modern
    ensures OnField(r, "connection", "close").keepAlive == CloseRead
  {
    CloseMoves(r.keepAlive);
  }

  lemma LowerAlready()
    ensures Lower("connection") == "connection" && Lower("host") == "host"
  {
  }

  lemma TailTellsClose(r: Request)
    requires r.modern
    ensures Tell(r, TAIL).keepAlive == CloseRead
  {
    hide OnField, Tell, Lower, Elements;
    LowerAlready();
    assert BODY == [BODY[0], BODY[1]] && OVER == [OVER[0]];
    Tell2(r, BODY[0], BODY[1]);
    var r1 := Tell(r, BODY);
    TellField(r1, CLOSE);
    assert DecodeFieldValue("close") == "close";
    CloseDecides(r1.(name := Some("connection")));
    var r2 := Tell(r1, CLOSE);
    Tell1(r2, OVER[0]);
    TellBoth(r, BODY, CLOSE);
    TellBoth(r, BODY + CLOSE, OVER);
  }

  /**
   * A read for the headers of this request may stop behind them, or parse on to the end of the
   * message: it has the end of the headers either way, and keeps the connection or not.
   */
  lemma DecisionDependsOnTheRead()
    ensures WellFormed(ScriptOf(HEAD + TAIL)) && EndsAt(ScriptOf(HEAD + TAIL), 0, |HEAD + TAIL|)
    ensures HeadEnds(ScriptOf(HEAD + TAIL), 0, |HEAD| - 1)
    ensures InStream(FeedOf(HEAD + TAIL), |HEAD|, 0) && InStream(FeedOf(HEAD + TAIL), |HEAD + TAIL|, 0)
    ensures Told(FeedOf(HEAD + TAIL), 0, |HEAD|).keepAlive == KeepAliveRead
    ensures Told(FeedOf(HEAD + TAIL), 0, |HEAD + TAIL|).keepAlive == CloseRead
  {
    hide InGrammar, After, Tell, Meaning, TextOf, WellFormed, PhaseAt;
    var ps := HEAD + TAIL;
    RequestInGrammar();
    GrammarIsWellFormed(ps);
    HeadTellsKeepAlive();
    TailTellsClose(Tell(FRESH, HEAD));
    TellBoth(FRESH, HEAD, TAIL);
    MeaningIsTold(ps, FRESH, |HEAD|);
    MeaningIsTold(ps, FRESH, |ps|);
    assert ps[..|HEAD|] == HEAD && ps[..|ps|] == ps;
    PhasesOnTheWay();
  }

  lemma PhasesOnTheWay()
    ensures EndsAt(ScriptOf(HEAD + TAIL), 0, |HEAD + TAIL|)
  {
    var ps := HEAD + TAIL;
    RequestInGrammar();
    PhaseIsAfter(ps, |ps|);
    assert ps[..|ps|] == ps;
    forall i | 0 < i < |ps|
      ensures PhaseAt(ScriptOf(ps), i) != Start
    {
      BeginsOnce(ps, i);
    }
  }

  /** Only the end of a message leads back to the start. */
  lemma BeginsOnce(ps: seq<Piece>, i: nat)
    requires 0 < i <= |ps| && ps[i - 1].code != EndOfMessage
    ensures PhaseAt(ScriptOf(ps), i) != Start
  {
  }
}
