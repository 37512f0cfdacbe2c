/**
 * The head of a request: what is told at the end of its headers stays as it is while the body
 * and the trailers are read, and the connection headers among them decide on keep-alive.
 */
module RequestHeads {
  import opened HeaderLists
  import opened RequestContents
  import opened RequestMeaning
  import opened RequestReader
  import opened RequestRuns
  import opened Tokenizer

  /** Two records tell of the same head. */
  ghost predicate SameHead(a: Request, b: Request) {
    && a.message.method' == b.message.method' && a.message.path == b.message.path
    && a.message.headers == b.message.headers && a.modern == b.modern && a.connect == b.connect
  }

  /** Behind the head every field is a trailer. */
  ghost predicate InTail(ph: Phase, useTrailers: bool) {
    (ph == InBody || ph == Trailer || ph == TrailerField) && (ph == InBody || useTrailers)
  }

  lemma TailMoves(r: Request, ph: Phase, c: Code, bytes: string)
    requires InTail(ph, r.useTrailers) && Follow(ph, c) != Dead
    ensures SameHead(r, Apply(r, c, bytes))
    ensures Follow(ph, c) != Start ==> InTail(Follow(ph, c), Apply(r, c, bytes).useTrailers)
  {
  }

  lemma PieceMoves(script: seq<Token>, k: nat)
    requires WellFormed(script) && k < |script| && InPieces(script[k].code)
    ensures Start != PhaseAt(script, k + 1) == PhaseAt(script, k) == Follow(PhaseAt(script, k), script[k].code)
  {
    TokenAt(script, k);
  }

  /** What is told of a head once its headers are over is told of it to the end of the request. */
  lemma {:induction false} HeadFixed(f: Feed, k0: nat, r0: Request, e: nat, k: nat)
    requires k0 <= e < k && InStream(f, e + 1, 0) && InStream(f, k, 0) && f.script[e].code == EndOfHeaders
    requires PhaseAt(f.script, k) != Dead && forall i :: k0 < i < k ==> PhaseAt(f.script, i) != Start
    ensures SameHead(Meaning(f, k0, r0, e + 1, 0), Meaning(f, k0, r0, k, 0))
    ensures PhaseAt(f.script, k) != Start ==> InTail(PhaseAt(f.script, k), Meaning(f, k0, r0, k, 0).useTrailers)
    decreases k
  {
    hide Apply, Follow, PhaseAt, Meaning, Offset, InTail;
    DeadStays(f.script, k - 1);
    OneToken(f, k0, r0, k);
    HeadBegins(f.script, e, Meaning(f, k0, r0, e + 1, 0));
    if k > e + 1 {
      HeadFixed(f, k0, r0, e, k - 1);
      TailMoves(Meaning(f, k0, r0, k - 1, 0), PhaseAt(f.script, k - 1), f.script[k - 1].code,
                TokenText(f, k - 1));
    }
  }

  lemma HeadBegins(script: seq<Token>, e: nat, r: Request)
    requires e < |script| && script[e].code == EndOfHeaders
    ensures PhaseAt(script, e + 1) != Dead ==> InTail(PhaseAt(script, e + 1), r.useTrailers)
    ensures SameHead(r, r)
  {
  }

  function ConnectionValues(headers: seq<Field>): seq<string> {
    if headers == [] then []
    else (if headers[0].0 == "connection" then [headers[0].1] else []) + ConnectionValues(headers[1..])
  }

  lemma {:induction false} MoreConnections(headers: seq<Field>, h: Field)
    ensures ConnectionValues(headers + [h]) ==
            ConnectionValues(headers) + if h.0 == "connection" then [h.1] else []
  {
    if headers == [] {
      assert [] + [h] == [h];
    } else {
      MoreConnections(headers[1..], h);
      assert (headers + [h])[1..] == headers[1..] + [h];
    }
  }

  lemma {:induction false} ConnectionsStay(headers: seq<Field>)
    ensures ConnectionValues(WithoutExpect(headers)) == ConnectionValues(headers)
  {
    if headers != [] {
      ConnectionsStay(headers[1..]);
      var rest := WithoutExpect(headers[1..]);
      assert ([headers[0]] + rest)[1..] == rest;
    }
  }

  lemma {:induction false} AfterOneMore(k: KeepAlive, values: seq<string>, v: string)
    ensures AfterConnections(k, values + [v]) == OnConnection(AfterConnections(k, values), v)
    decreases values
  {
    if values == [] {
      assert [] + [v] == [v];
    } else {
      AfterOneMore(OnConnection(k, values[0]), values[1..], v);
      assert (values + [v])[1..] == values[1..] + [v];
    }
  }

  /** The first end of headers from the k0-th token on is the e-th. */
  ghost predicate HeadEnds(script: seq<Token>, k0: nat, e: nat) {
    && k0 <= e < |script| && script[e].code == EndOfHeaders
    && forall i :: k0 <= i < e ==> script[i].code != EndOfHeaders
  }

  /** In the head the decision is that of the connection headers so far. */
  ghost predicate Tracked(r: Request, ph: Phase) {
    && (ph == AfterMethod || ph == AfterTarget || ph == Head || ph == HeadField ==> !r.useTrailers)
    && (InHead(ph) ==> r.message.trailers == [])
    && (ph == Start || ph == AfterMethod || ph == AfterTarget ==> r.message.headers == [])
    && (ph == Head || ph == HeadField ==> r.keepAlive == AfterConnections(Unknown, ConnectionValues(r.message.headers)))
  }

  lemma TrackedMoves(r: Request, ph: Phase, c: Code, bytes: string)
    requires Tracked(r, ph) && InHead(ph) && Follow(ph, c) != Dead
    ensures c != EndOfHeaders ==> Tracked(Apply(r, c, bytes), Follow(ph, c)) && InHead(Follow(ph, c))
    ensures c == EndOfHeaders ==>
              var r' := Apply(r, c, bytes);
              && r'.message.trailers == []
              && r'.keepAlive == AtEndOfHeaders(AfterConnections(Unknown, ConnectionValues(r'.message.headers)), r'.modern)
  {
    hide OnConnection, RunUntil, AfterConnections, ConnectionValues, WithoutExpect, Expects;
    if c == FieldValue {
      var h := (if r.name.Some? then r.name.value else "", DecodeFieldValue(bytes));
      MoreConnections(r.message.headers, h);
      if h.0 == "connection" {
        AfterOneMore(Unknown, ConnectionValues(r.message.headers), h.1);
      }
      assert ConnectionValues(r.message.headers) + [] == ConnectionValues(r.message.headers);
    } else if c == EndOfHeaders {
      ConnectionsStay(r.message.headers);
    } else {
      NoneAtFirst();
    }
  }

  lemma NoneAtFirst()
    ensures AfterConnections(Unknown, ConnectionValues([])) == Unknown
  {
  }

  lemma {:induction false} HeadTracked(f: Feed, k0: nat, r0: Request, k: nat)
    requires k0 <= k < |f.script| && InStream(f, k, 0) && Opened(r0)
    requires PhaseAt(f.script, k0) == Start && PhaseAt(f.script, k) != Dead
    requires forall i :: k0 <= i < k ==> f.script[i].code != EndOfHeaders
    ensures Tracked(Meaning(f, k0, r0, k, 0), PhaseAt(f.script, k)) && InHead(PhaseAt(f.script, k))
    decreases k
  {
    hide Apply, Follow, Tracked;
    if k == k0 {
      OpenedTracked(r0);
    } else {
      DeadStays(f.script, k - 1);
      HeadTracked(f, k0, r0, k - 1);
      TrackedMoves(Meaning(f, k0, r0, k - 1, 0), PhaseAt(f.script, k - 1), f.script[k - 1].code,
                   f.stream[Offset(f.script, f.base, k - 1)..Offset(f.script, f.base, k)]);
    }
  }

  lemma OpenedTracked(r0: Request)
    requires Opened(r0)
    ensures Tracked(r0, Start)
  {
  }

  /**
   * The decision at the end of the headers, from the headers that the caller gets: "close" in
   * any of them, else "keep-alive" in any of them, else the version.
   */
  lemma KeepAliveOfHead(f: Feed, k0: nat, r0: Request, e: nat)
    requires HeadEnds(f.script, k0, e) && InStream(f, e + 1, 0) && Opened(r0)
    requires PhaseAt(f.script, k0) == Start && PhaseAt(f.script, e + 1) != Dead
    ensures var told := Meaning(f, k0, r0, e + 1, 0);
            var values := ConnectionValues(told.message.headers);
            told.keepAlive ==
              if SomeElement(values, SaysClose) then CloseRead
              else if SomeElement(values, SaysKeepAlive) then KeepAliveRead
              else if told.modern then KeepAliveRead else CloseRead
  {
    hide Apply, Follow, Tracked, AfterConnections;
    DeadStays(f.script, e);
    HeadTracked(f, k0, r0, e);
    TrackedMoves(Meaning(f, k0, r0, e, 0), PhaseAt(f.script, e), f.script[e].code,
                 f.stream[Offset(f.script, f.base, e)..Offset(f.script, f.base, e + 1)]);
    var told := Meaning(f, k0, r0, e + 1, 0);
    KeepAliveDecision(ConnectionValues(told.message.headers), told.modern);
  }

  // ---- keep-alive behind the head ----

  /** A connection trailer moves the decision as a header does; nothing else behind the head does. */
  lemma TailDecides(r: Request, ph: Phase, c: Code, bytes: string, k: KeepAlive)
    requires InTail(ph, r.useTrailers) && Follow(ph, c) != Dead
    requires r.keepAlive == AfterConnections(k, ConnectionValues(r.message.trailers))
    ensures var r' := Apply(r, c, bytes); r'.keepAlive == AfterConnections(k, ConnectionValues(r'.message.trailers))
  {
    hide OnConnection, AfterConnections, ConnectionValues, DecodeFieldValue;
    if c == FieldValue {
      var h := (if r.name.Some? then r.name.value else "", DecodeFieldValue(bytes));
      MoreConnections(r.message.trailers, h);
      if h.0 == "connection" {
        AfterOneMore(k, ConnectionValues(r.message.trailers), h.1);
      }
      assert ConnectionValues(r.message.trailers) + [] == ConnectionValues(r.message.trailers);
    }
  }

  /**
   * Behind the end of the headers, the decision is that of the head and of the connection
   * trailers told so far.
   */
  lemma {:induction false} KeepAliveOfTail(f: Feed, k0: nat, r0: Request, e: nat, k: nat)
    requires k0 <= e < k && InStream(f, e + 1, 0) && InStream(f, k, 0) && Opened(r0) && PhaseAt(f.script, k0) == Start
    requires HeadEnds(f.script, k0, e)
    requires PhaseAt(f.script, k) != Dead && forall i :: k0 < i < k ==> PhaseAt(f.script, i) != Start
    ensures var head, told := Meaning(f, k0, r0, e + 1, 0), Meaning(f, k0, r0, k, 0);
            told.keepAlive == AfterConnections(head.keepAlive, ConnectionValues(told.message.trailers))
    decreases k
  {
    hide Apply, AfterConnections, ConnectionValues, PhaseAt, Follow, Meaning, Offset, InTail, SameHead;
    DeadStays(f.script, k - 1);
    OneToken(f, k0, r0, k);
    if k == e + 1 {
      HeadHasNoTrailers(f, k0, r0, e);
      NoneDecide(Meaning(f, k0, r0, k, 0).keepAlive);
    } else {
      KeepAliveOfTail(f, k0, r0, e, k - 1);
      HeadFixed(f, k0, r0, e, k - 1);
      TailDecides(Meaning(f, k0, r0, k - 1, 0), PhaseAt(f.script, k - 1), f.script[k - 1].code,
                  TokenText(f, k - 1),
                  Meaning(f, k0, r0, e + 1, 0).keepAlive);
    }
  }

  lemma HeadHasNoTrailers(f: Feed, k0: nat, r0: Request, e: nat)
    requires k0 <= e < |f.script| && InStream(f, e + 1, 0) && Opened(r0) && PhaseAt(f.script, k0) == Start
    requires PhaseAt(f.script, e + 1) != Dead
    requires HeadEnds(f.script, k0, e)
    ensures Meaning(f, k0, r0, e + 1, 0).message.trailers == []
  {
    hide Apply, Follow, Tracked, AfterConnections;
    DeadStays(f.script, e);
    HeadTracked(f, k0, r0, e);
    TrackedMoves(Meaning(f, k0, r0, e, 0), PhaseAt(f.script, e), f.script[e].code,
                 f.stream[Offset(f.script, f.base, e)..Offset(f.script, f.base, e + 1)]);
  }

  lemma NoneDecide(k: KeepAlive)
    ensures AfterConnections(k, ConnectionValues([])) == k
  {
  }

  /**
   * The decision is still that of the head exactly if the head already said close, or no trailer
   * told so far does.
   */
  lemma KeepAliveSettled(f: Feed, k0: nat, r0: Request, e: nat, k: nat)
    requires k0 <= e < k && InStream(f, e + 1, 0) && InStream(f, k, 0) && Opened(r0) && PhaseAt(f.script, k0) == Start
    requires HeadEnds(f.script, k0, e)
    requires PhaseAt(f.script, k) != Dead && forall i :: k0 < i < k ==> PhaseAt(f.script, i) != Start
    ensures var head, told := Meaning(f, k0, r0, e + 1, 0), Meaning(f, k0, r0, k, 0);
            told.keepAlive == head.keepAlive <==>
              head.keepAlive == CloseRead || !SomeElement(ConnectionValues(told.message.trailers), SaysClose)
  {
    hide Apply, PhaseAt, AfterConnections, ConnectionValues, SomeElement;
    KeepAliveOfTail(f, k0, r0, e, k);
    PhasesAlive(f.script, e + 1, k);
    KeepAliveOfHead(f, k0, r0, e);
    var head, told := Meaning(f, k0, r0, e + 1, 0), Meaning(f, k0, r0, k, 0);
    Connections(head.keepAlive, ConnectionValues(told.message.trailers));
  }

  /** A reader behind the end of the headers, wherever its last read stopped. */
  lemma ReaderKeepsAlive(r: Reader, e: nat)
    requires r.Valid() && r.exact && r.k0 <= e < r.parser.k && HeadEnds(r.parser.script, r.k0, e)
    ensures InStream(r.TheFeed(), e + 1, 0)
    ensures var head := Told(r.TheFeed(), r.k0, e + 1);
            && r.keepAlive == AfterConnections(head.keepAlive, ConnectionValues(r.message.trailers))
            && (r.keepAlive == head.keepAlive <==>
                  head.keepAlive == CloseRead || !SomeElement(ConnectionValues(r.message.trailers), SaysClose))
  {
    hide WellFormed, Apply, PhaseAt, Follow, FieldOpen, StateIn, InPieces, AfterConnections, ConnectionValues, SomeElement;
    var f, k := r.TheFeed(), r.parser.k;
    HeadOver(f.script, e);
    OffsetUp(f, e + 1, k);
    PhasesAlive(f.script, e + 1, k);
    Overwritten(f, r.k0, r.r0, FRESH, e + 1);
    KeepAliveOfTail(f, r.k0, r.r0, e, k);
    KeepAliveSettled(f, r.k0, r.r0, e, k);
    if r.parser.d > 0 {
      PieceDecidesNothing(Meaning(f, r.k0, r.r0, k, 0), f.script[k].code,
                          f.stream[Offset(f.script, f.base, k)..Offset(f.script, f.base, k) + r.parser.d]);
    }
  }

  lemma PieceDecidesNothing(r: Request, c: Code, bytes: string)
    requires InPieces(c)
    ensures Apply(r, c, bytes).keepAlive == r.keepAlive && Apply(r, c, bytes).message.trailers == r.message.trailers
  {
  }

  /** Wherever its last read stopped, a reader holds the texts of the tokens that have come. */
  lemma ReaderHolds(r: Reader)
    requires r.Valid() && r.exact && r.k0 < r.parser.k
    ensures InStream(r.TheFeed(), r.parser.k, 0)
    ensures var f, k, d := r.TheFeed(), r.parser.k, r.parser.d;
            var at, x := Offset(f.script, f.base, k), TextsOf(f, r.k0, k);
            at + d <= |f.stream|
            && Parts(PhaseAt(f.script, k), r.Rec(),
                     if d > 0 && f.script[k].code == BodyChunk then x.(body := x.body + f.stream[at..at + d]) else x)
  {
    hide WellFormed, Apply, Follow, FieldOpen, StateIn, Parts, TextsOf;
    var f, k, d := r.TheFeed(), r.parser.k, r.parser.d;
    PartsHold(f, r.k0, r.r0, k);
    if d > 0 {
      var at := Offset(f.script, f.base, k);
      PieceMoves(f.script, k);
      PartsMove(PhaseAt(f.script, k), Meaning(f, r.k0, r.r0, k, 0), TextsOf(f, r.k0, k), f.script[k].code,
                f.stream[at..at + d]);
    }
  }

  // ---- two readers ----

  /** From the end of the headers on, two readers of one stream hold the same head. */
  lemma SameHeads(a: Reader, b: Reader, e: nat)
    requires a.Valid() && a.exact && b.Valid() && b.exact && a.TheFeed() == b.TheFeed() && a.k0 == b.k0 <= e
    requires e < a.parser.k && e < b.parser.k && a.parser.script[e].code == EndOfHeaders
    ensures SameHead(a.Rec(), b.Rec())
  {
    hide WellFormed, PhaseAt, Apply, Meaning, SameHead;
    HeadTells(a, e);
    HeadTells(b, e);
    AgreeTwice(Told(a.TheFeed(), a.k0, e + 1), a.Rec(), b.Rec());
  }

  lemma AgreeTwice(told: Request, a: Request, b: Request)
    requires SameHead(told, a) && SameHead(told, b)
    ensures SameHead(a, b)
  {
  }

  /** A reader behind the end of the headers holds the head that the tokens tell. */
  lemma HeadTells(r: Reader, e: nat)
    requires r.Valid() && r.exact && r.k0 <= e < r.parser.k && r.parser.script[e].code == EndOfHeaders
    ensures InStream(r.TheFeed(), e + 1, 0) && SameHead(Told(r.TheFeed(), r.k0, e + 1), r.Rec())
  {
    hide WellFormed, Apply, PhaseAt, Follow, FieldOpen, StateIn, InPieces;
    var f, k := r.TheFeed(), r.parser.k;
    HeadOver(f.script, e);
    OffsetUp(f, e + 1, k);
    HeadFixed(f, r.k0, r.r0, e, k);
    PhasesAlive(f.script, e + 1, k);
    Overwritten(f, r.k0, r.r0, FRESH, e + 1);
    if r.parser.d > 0 {
      PieceMoves(f.script, k);
      TailMoves(Meaning(f, r.k0, r.r0, k, 0), PhaseAt(f.script, k), f.script[k].code,
                f.stream[Offset(f.script, f.base, k)..Offset(f.script, f.base, k) + r.parser.d]);
    }
  }

  lemma HeadOver(script: seq<Token>, e: nat)
    requires e < |script| && script[e].code == EndOfHeaders
    ensures PhaseAt(script, e + 1) == InBody || PhaseAt(script, e + 1) == Dead
  {
  }

  lemma {:induction false} OffsetUp(f: Feed, i: nat, k: nat)
    requires i <= k && InStream(f, k, 0)
    ensures InStream(f, i, 0) && Offset(f.script, f.base, i) <= Offset(f.script, f.base, k)
    decreases k
  {
    if i < k {
      OffsetUp(f, i, k - 1);
    }
  }

  lemma {:induction false} PhasesAlive(script: seq<Token>, i: nat, k: nat)
    requires i <= k <= |script| && PhaseAt(script, k) != Dead
    ensures PhaseAt(script, i) != Dead
    decreases k
  {
    if i < k {
      DeadStays(script, k - 1);
      PhasesAlive(script, i, k - 1);
    }
  }
}
