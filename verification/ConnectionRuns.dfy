/**
 * The keep-alive decision over whole runs: what moves it, when it is still open, and the two
 * runs in which the socket closes without having said so.
 */
module ConnectionRuns {
  import opened Chunked
  import opened HeaderLists
  import opened Results
  import opened ResponseWriter

  // ---- what moves the decision ----

  /** What an event between two heads adds to the decision: a field, or a close that is sent. */
  function MovesOf(s: Sock, e: Event): seq<string> {
    if e.ConnectionField? then [e.value]
    else if (e.Response? || e.Metadata?) && Step(s, e).1 == Accepted && ClosesIn(e.message.headers) then ["close"]
    else []
  }

  function Moves(s: Sock, es: seq<Event>): seq<string>
    decreases es
  {
    if es == [] then [] else MovesOf(s, es[0]) + Moves(Step(s, es[0]).0, es[1..])
  }

  predicate Settles(e: Event) {
    e.Version? || e.EndOfHeaders?
  }

  lemma StepMoves(s: Sock, e: Event)
    requires !Settles(e)
    ensures Step(s, e).0.keepAlive == AfterConnections(s.keepAlive, MovesOf(s, e))
  {
    hide OnConnection, FieldLines, ClosesIn, ImplicitLength, StartLine, LengthField;
    CloseMoves(s.keepAlive);
    var v := if e.ConnectionField? then e.value else "close";
    assert [v][1..] == [];
  }

  lemma {:induction false} AfterBoth(k: KeepAlive, vs: seq<string>, ws: seq<string>)
    ensures AfterConnections(k, vs + ws) == AfterConnections(AfterConnections(k, vs), ws)
    decreases vs
  {
    hide OnConnection;
    if vs == [] {
      assert [] + ws == ws;
    } else {
      AfterBoth(OnConnection(k, vs[0]), vs[1..], ws);
      assert (vs + ws)[1..] == vs[1..] + ws;
    }
  }

  /**
   * From one version or end of headers to the next the decision is moved, in their order, by the
   * connection fields that are read and by the answers that say close, and by nothing else.
   */
  lemma {:induction false} DecisionIs(s: Sock, es: seq<Event>)
    requires forall j :: 0 <= j < |es| ==> !Settles(es[j])
    ensures Run(s, es).keepAlive == AfterConnections(s.keepAlive, Moves(s, es))
    decreases es
  {
    hide Step, MovesOf, OnConnection;
    if es != [] {
      StepMoves(s, es[0]);
      DecisionIs(Step(s, es[0]).0, es[1..]);
      AfterBoth(s.keepAlive, MovesOf(s, es[0]), Moves(Step(s, es[0]).0, es[1..]));
    }
  }

  // ---- when it is open ----

  /** The events that decide: the end of the headers, a field with a token, an answer with close. */
  ghost predicate Decides(s: Sock, e: Event) {
    || e.EndOfHeaders?
    || (e.ConnectionField? && exists x <- Elements(e.value) :: SaysClose(x) || SaysKeepAlive(x))
    || ((e.Response? || e.Metadata?) && Step(s, e).1 == Accepted && ClosesIn(e.message.headers))
  }

  lemma StepUndecided(s: Sock, e: Event)
    ensures Step(s, e).0.keepAlive == Unknown <==> e.Version? || (s.keepAlive == Unknown && !Decides(s, e))
  {
    hide RunUntil, Elements, FieldLines, ClosesIn, ImplicitLength, StartLine, LengthField;
    if e.ConnectionField? {
      OneConnection(s.keepAlive, Elements(e.value));
    }
  }

  lemma {:induction false} RunLast(s: Sock, es: seq<Event>)
    requires es != []
    ensures Run(s, es) == Step(Run(s, es[..|es| - 1]), es[|es| - 1]).0
    decreases es
  {
    hide Step;
    if |es| == 1 {
      assert es[..0] == [] && es[1..] == [];
    } else {
      RunLast(Step(s, es[0]).0, es[1..]);
      assert es[1..][..|es| - 2] == es[..|es| - 1][1..];
    }
  }

  /** Nothing from the k-th event on decides. */
  ghost predicate NoneDecides(s: Sock, es: seq<Event>, k: nat) {
    forall j :: k <= j < |es| ==> !Decides(Run(s, es[..j]), es[j])
  }

  /** The decision is open since the k-th event: since the beginning, or a version. */
  ghost predicate OpenSince(s: Sock, es: seq<Event>, k: nat)
    requires k <= |es|
  {
    (if k == 0 then s.keepAlive == Unknown else es[k - 1].Version?) && NoneDecides(s, es, k)
  }

  lemma OneMore(s: Sock, es: seq<Event>, k: nat)
    requires k < |es|
    ensures OpenSince(s, es, k) <==>
            OpenSince(s, es[..|es| - 1], k) && !Decides(Run(s, es[..|es| - 1]), es[|es| - 1])
  {
    hide Decides, Run;
    var n, fs := |es| - 1, es[..|es| - 1];
    assert forall j :: 0 <= j < n ==> fs[..j] == es[..j];
    if OpenSince(s, es, k) {
      assert forall j :: k <= j < n ==> !Decides(Run(s, es[..j]), es[j]);
    }
    if OpenSince(s, fs, k) && !Decides(Run(s, fs), es[n]) {
      forall j | k <= j < |es|
        ensures !Decides(Run(s, es[..j]), es[j])
      {
        if j < n {
          assert !Decides(Run(s, fs[..j]), fs[j]);
        }
      }
    }
  }

  lemma OpenFromHere(s: Sock, es: seq<Event>)
    requires es != []
    ensures OpenSince(s, es, |es|) <==> es[|es| - 1].Version?
  {
  }

  /** In every run the decision is open exactly if it has been so since some version, or from the start. */
  lemma {:induction false} UndecidedExactly(s: Sock, es: seq<Event>)
    ensures Run(s, es).keepAlive == Unknown <==> exists k :: 0 <= k <= |es| && OpenSince(s, es, k)
    decreases |es|
  {
    hide Decides, Step;
    if es == [] {
      assert OpenSince(s, es, 0) <==> s.keepAlive == Unknown;
    } else {
      hide Run, OpenSince;
      var n, fs := |es| - 1, es[..|es| - 1];
      UndecidedExactly(s, fs);
      RunLast(s, es);
      StepUndecided(Run(s, fs), es[n]);
      forall k | 0 <= k <= n
        ensures OpenSince(s, es, k) <==> OpenSince(s, fs, k) && !Decides(Run(s, fs), es[n])
      {
        OneMore(s, es, k);
      }
      OpenFromHere(s, es);
    }
  }

  // ---- closing without having said so ----

  /** A version was read, then the reader was cleared, and nothing has decided since. */
  ghost predicate AbandonedHead(s: Sock, es: seq<Event>) {
    exists k, j :: 0 < k <= j < |es| && es[k - 1].Version? && es[j].ClearBuffer? && NoneDecides(s, es, k)
  }

  lemma {:induction false} ValidLast(s: Sock, es: seq<Event>)
    requires ValidRun(s, es) && es != []
    ensures ValidRun(s, es[..|es| - 1]) && Enabled(Run(s, es[..|es| - 1]), es[|es| - 1])
    decreases es
  {
    hide Step, Enabled;
    if |es| == 1 {
      assert es[..0] == [];
    } else {
      ValidLast(Step(s, es[0]).0, es[1..]);
      assert es[1..][..|es| - 2] == es[..|es| - 1][1..];
    }
  }

  lemma StepReading(s: Sock, e: Event)
    requires s.reading && !e.ClearBuffer? && !e.EndOfHeaders?
    ensures Step(s, e).0.reading
  {
    hide OnConnection, FieldLines, ClosesIn, ImplicitLength, StartLine, LengthField;
  }

  lemma LastDecidesNot(s: Sock, es: seq<Event>, k: nat)
    requires k < |es| && NoneDecides(s, es, k)
    ensures !es[|es| - 1].EndOfHeaders?
  {
  }

  /** A head stays open until it ends or the reader is cleared. */
  lemma {:induction false} StillReading(s: Sock, es: seq<Event>, k: nat)
    requires 0 < k <= |es| && ValidRun(s, es) && es[k - 1].Version? && NoneDecides(s, es, k)
    requires forall j :: k <= j < |es| ==> !es[j].ClearBuffer?
    ensures Run(s, es).reading
    decreases |es|
  {
    hide Step, Run, ValidRun, NoneDecides;
    var n, fs := |es| - 1, es[..|es| - 1];
    ValidLast(s, es);
    RunLast(s, es);
    if k < |es| {
      OneMore(s, es, k);
      StillReading(s, fs, k);
      LastDecidesNot(s, es, k);
    }
    StepReading(Run(s, fs), es[n]);
  }

  /** In every run that begins with a decision it is open outside of a head exactly if a head was abandoned. */
  lemma OpenIfAbandoned(s: Sock, es: seq<Event>)
    requires s.keepAlive != Unknown && ValidRun(s, es) && !Run(s, es).reading
    ensures Run(s, es).keepAlive == Unknown <==> AbandonedHead(s, es)
  {
    hide Run, ValidRun, NoneDecides;
    UndecidedExactly(s, es);
    if Run(s, es).keepAlive == Unknown {
      var k :| 0 <= k <= |es| && OpenSince(s, es, k);
      if forall j :: k <= j < |es| ==> !es[j].ClearBuffer? {
        StillReading(s, es, k);
      }
    }
    if AbandonedHead(s, es) {
      var k, j :| 0 < k <= j < |es| && es[k - 1].Version? && es[j].ClearBuffer? && NoneDecides(s, es, k);
      assert OpenSince(s, es, k);
    }
  }

  /**
   * In every run that begins with a decision, a response whose headers do not close says
   * "connection: close" exactly when the socket closes, unless the last head was abandoned.
   */
  lemma AnnouncedUnlessAbandoned(s: Sock, es: seq<Event>, e: Event)
    requires Fresh(s) && s.keepAlive != Unknown && ValidRun(s, es)
    requires e.Response? && Step(Run(s, es), e).1 == Accepted
    ensures var s', h := Run(s, es), e.message.headers;
            (ClosesIn(SentHeaders(KeepAfter(s'.keepAlive, h), h)) <==> !Step(s', e).0.open) <==>
              ClosesIn(h) || !AbandonedHead(s, es)
  {
    RunKeepsInv(s, [], es);
    hide Run, ValidRun, AbandonedHead, SinceReset;
    OpenIfAbandoned(s, es);
    CloseIsAnnounced(Run(s, es), e);
  }

  const NOTHING := Message([], "", [])

  lemma NoneClose()
    ensures !ClosesIn(NOTHING.headers)
  {
  }

  lemma RunFirst(s: Sock, e: Event, es: seq<Event>)
    ensures Run(s, [e] + es) == Run(Step(s, e).0, es)
    ensures ValidRun(s, [e] + es) <==> Enabled(s, e) && ValidRun(Step(s, e).0, es)
  {
    hide Step, Enabled;
    assert ([e] + es)[1..] == es;
  }

  lemma RunTwo(s: Sock, a: Event, b: Event)
    ensures Run(s, [a, b]) == Step(Step(s, a).0, b).0
    ensures ValidRun(s, [a, b]) <==> Enabled(s, a) && Enabled(Step(s, a).0, b)
  {
    hide Step, Enabled;
    assert [a] + [b] == [a, b] && [b] + [] == [b];
    RunFirst(s, a, [b]);
    RunFirst(Step(s, a).0, b, []);
  }

  lemma RunFour(s: Sock, a: Event, b: Event, c: Event, d: Event)
    ensures Run(s, [a, b, c, d]) == Run(Run(s, [a, b]), [c, d])
    ensures ValidRun(s, [a, b, c, d]) <==> ValidRun(s, [a, b]) && ValidRun(Run(s, [a, b]), [c, d])
  {
    hide Step, Enabled;
    assert [a] + [b, c, d] == [a, b, c, d] && [b] + [c, d] == [b, c, d];
    RunFirst(s, a, [b, c, d]);
    RunFirst(Step(s, a).0, b, [c, d]);
    RunTwo(s, a, b);
  }

  /** A parse error behind the version, then an answer: it says nothing, and the socket closes. */
  lemma UnannouncedClose(s: Sock)
    requires Fresh(s)
    ensures var es := [ReadRequest, Method(false), Version(true), ClearBuffer];
            var s', e := Run(s, es), Response(400, "Bad Request", NOTHING);
            && ValidRun(s, es) && Step(s', e).1 == Accepted && !Step(s', e).0.open
            && !ClosesIn(SentHeaders(KeepAfter(s'.keepAlive, NOTHING.headers), NOTHING.headers))
  {
    hide Run, ValidRun, FieldLines, ClosesIn, StartLine, LengthField;
    NoneClose();
    RunFour(s, ReadRequest, Method(false), Version(true), ClearBuffer);
    RunTwo(s, ReadRequest, Method(false));
    RunTwo(Run(s, [ReadRequest, Method(false)]), Version(true), ClearBuffer);
    SentClose(Unknown, NOTHING.headers);
  }

  /** A chunked answer begun, then a trailer that closes: the head said nothing, and the socket closes. */
  lemma UnannouncedByTrailer(s: Sock)
    requires Fresh(s)
    ensures var es := [ReadRequest, Method(false), Version(true), EndOfHeaders];
            var s', e, rest := Run(s, es), Metadata(200, "OK", NOTHING), [ConnectionField("close"), End];
            && ValidRun(s, es) && Step(s', e).1 == Accepted && ValidRun(Step(s', e).0, rest)
            && !Run(Step(s', e).0, rest).open
            && !ClosesIn(SentHeaders(KeepAfter(s'.keepAlive, NOTHING.headers), NOTHING.headers))
  {
    hide Run, ValidRun, FieldLines, ClosesIn, StartLine, LengthField, OnConnection;
    NoneClose();
    RunFour(s, ReadRequest, Method(false), Version(true), EndOfHeaders);
    RunTwo(s, ReadRequest, Method(false));
    RunTwo(Run(s, [ReadRequest, Method(false)]), Version(true), EndOfHeaders);
    var s' := Run(s, [ReadRequest, Method(false), Version(true), EndOfHeaders]);
    RunTwo(Step(s', Metadata(200, "OK", NOTHING)).0, ConnectionField("close"), End);
    SentClose(KeepAliveRead, NOTHING.headers);
    CloseMoves(KeepAliveRead);
  }
}
