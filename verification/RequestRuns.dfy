/**
 * Whole runs of the request reader: however the stream is cut into reads, and however many
 * requests share a read, the caller gets the requests that the tokens tell, in their order.
 */
module RequestRuns {
  import opened HeaderLists
  import opened RequestContents
  import opened RequestMeaning
  import opened RequestReader
  import opened Results
  import opened Tokenizer
  import ResponseWriter

  /** The k0-th token begins a request, and the k-th the one behind it. */
  ghost predicate EndsAt(script: seq<Token>, k0: nat, k: nat) {
    && k0 < k <= |script| && PhaseAt(script, k0) == Start && PhaseAt(script, k) == Start
    && forall i :: k0 < i < k ==> PhaseAt(script, i) != Start
  }

  lemma OneEnd(script: seq<Token>, k0: nat, k1: nat, k2: nat)
    requires EndsAt(script, k0, k1) && EndsAt(script, k0, k2)
    ensures k1 == k2
  {
  }

  const FRESH := Request(NOTHING, false, false, Unknown, Empty, false, ResponseWriter.Finished, None)

  /** The request that the tokens from k0 up to k tell. */
  ghost function Told(f: Feed, k0: nat, k: nat): Request
    requires k0 <= k && InStream(f, k, 0)
  {
    Meaning(f, k0, FRESH, k, 0)
  }

  // ---- what an earlier request leaves behind does not matter ----

  /** Equal, but for what the tokens before this phase do not set. */
  ghost predicate Alike(a: Request, b: Request, ph: Phase) {
    match ph
    case Start =>
      a == b.(modern := a.modern, keepAlive := a.keepAlive, connect := a.connect, useTrailers := a.useTrailers)
    case AfterMethod => a == b.(modern := a.modern, keepAlive := a.keepAlive)
    case AfterTarget => a == b.(modern := a.modern, keepAlive := a.keepAlive)
    case _ => a == b
  }

  lemma AlikeMoves(a: Request, b: Request, ph: Phase, c: Code, bytes: string)
    requires Alike(a, b, ph) && Follow(ph, c) != Dead && ph != Dead
    ensures Alike(Apply(a, c, bytes), Apply(b, c, bytes), Follow(ph, c))
    ensures Follow(ph, c) == Start ==> Apply(a, c, bytes) == Apply(b, c, bytes)
  {
    hide OnField;
  }

  lemma {:induction false} Overwritten(f: Feed, k0: nat, r0: Request, r1: Request, k: nat)
    requires k0 <= k && InStream(f, k, 0) && Opened(r0) && Opened(r1)
    requires PhaseAt(f.script, k0) == Start && PhaseAt(f.script, k) != Dead
    ensures Alike(Meaning(f, k0, r0, k, 0), Meaning(f, k0, r1, k, 0), PhaseAt(f.script, k))
    ensures k0 < k && PhaseAt(f.script, k) == Start ==> Meaning(f, k0, r0, k, 0) == Meaning(f, k0, r1, k, 0)
    decreases k
  {
    hide Apply, Follow, Opened, Alike;
    if k == k0 {
      OpenedAlike(r0, r1);
    } else {
      DeadStays(f.script, k - 1);
      Overwritten(f, k0, r0, r1, k - 1);
      var bytes := f.stream[Offset(f.script, f.base, k - 1)..Offset(f.script, f.base, k)];
      AlikeMoves(Meaning(f, k0, r0, k - 1, 0), Meaning(f, k0, r1, k - 1, 0), PhaseAt(f.script, k - 1),
                 f.script[k - 1].code, bytes);
    }
  }

  lemma OpenedAlike(r0: Request, r1: Request)
    requires Opened(r0) && Opened(r1)
    ensures Alike(r0, r1, Start)
  {
  }

  /** A reader at the end of a request holds what its tokens tell, whatever reads led there. */
  lemma EndedTells(r: Reader)
    requires r.Valid() && r.exact && r.Ended()
    ensures EndsAt(r.parser.script, r.k0, r.parser.k)
    ensures InStream(r.TheFeed(), r.parser.k, 0) && r.Rec() == Told(r.TheFeed(), r.k0, r.parser.k)
  {
    hide WellFormed, PhaseAt, Apply, Meaning;
    Overwritten(r.TheFeed(), r.k0, r.r0, FRESH, r.parser.k);
  }

  /** Two readers of one stream that began a request at one token and ended it agree. */
  lemma SameRequest(a: Reader, b: Reader)
    requires a.Valid() && a.exact && a.Ended() && b.Valid() && b.exact && b.Ended()
    requires a.TheFeed() == b.TheFeed() && a.k0 == b.k0
    ensures a.Rec() == b.Rec() && a.parser.k == b.parser.k && a.Pos() == b.Pos()
  {
    hide WellFormed, PhaseAt, Apply, Meaning;
    EndedTells(a);
    EndedTells(b);
    OneEnd(a.parser.script, a.k0, a.parser.k, b.parser.k);
  }

  // ---- a caller that reads requests to their ends ----

  /** The request between two tokens. */
  ghost predicate Delivered(f: Feed, k0: nat, k: nat, told: Request) {
    EndsAt(f.script, k0, k) && InStream(f, k, 0) && told == Told(f, k0, k)
  }

  /** It is the request that the bytes of the stream spell out. */
  lemma DeliveredContains(f: Feed, k0: nat, k: nat, told: Request)
    requires WellFormed(f.script) && Delivered(f, k0, k, told)
    ensures Contains(f, k0, k, told)
  {
    hide WellFormed, PhaseAt, Meaning, Contains, InStream;
    EndContains(f, k0, FRESH, k);
  }

  /** The log holds the requests between the given tokens, which follow each other. */
  ghost predicate Delivers(f: Feed, ks: seq<nat>, log: seq<Request>) {
    |ks| == |log| + 1 && forall i :: 0 <= i < |log| ==> Delivered(f, ks[i], ks[i + 1], log[i])
  }

  lemma DeliversMore(f: Feed, ks: seq<nat>, log: seq<Request>, k: nat, told: Request)
    requires Delivers(f, ks, log) && Delivered(f, ks[|log|], k, told)
    ensures Delivers(f, ks + [k], log + [told])
  {
  }

  /** Two runs over one stream from one token on get the same requests, one maybe more of them. */
  lemma {:induction false} FragmentationIndependence(f: Feed, ks: seq<nat>, a: seq<Request>, ls: seq<nat>, b: seq<Request>)
    requires Delivers(f, ks, a) && Delivers(f, ls, b) && ks[0] == ls[0] && |a| <= |b|
    ensures ks == ls[..|ks|] && a == b[..|a|]
  {
    hide Told, InStream, EndsAt;
    if a != [] {
      var n := |a| - 1;
      assert Delivers(f, ks[..n + 1], a[..n]);
      FragmentationIndependence(f, ks[..n + 1], a[..n], ls, b);
      assert ks[..n + 1][n] == ls[..n + 1][n];
      assert Delivered(f, ks[n], ks[n + 1], a[n]) && Delivered(f, ls[n], ls[n + 1], b[n]);
      OneEnd(f.script, ks[n], ks[n + 1], ls[n + 1]);
      assert ks == ks[..n + 1] + [ks[n + 1]] && ls[..n + 2] == ls[..n + 1] + [ls[n + 1]];
      assert a == a[..n] + [a[n]] && b[..n + 1] == b[..n] + [b[n]];
    }
  }

  /**
   * Why reads that began at the k-th token of a script stopped: they got there, the channel
   * failed, an error is among the tokens from there on, or the buffer is too small for the next.
   */
  ghost predicate Stopped(r: Reader, o: Outcome, script: seq<Token>, k: nat)
    requires r.parser.Ok()
    reads r, r.parser
  {
    match o
    case Success => true
    case ChannelError => true
    case ParsingError => Saw(script, k, |script|, ErrorData)
    case BufferExhausted => r.Full()
    case Pending => false
    case OutOfOrder => false
  }

  /** A buffer is exhausted when the open name and what the next token waits for do not fit into it. */
  lemma ExhaustedMeans(r: Reader, script: seq<Token>, k: nat)
    requires r.parser.Ok() && Stopped(r, BufferExhausted, script, k) && r.parser.k < |r.parser.script|
    ensures r.usedSize == r.buffer.Length
    ensures var t := r.parser.script[r.parser.k];
            r.buffer.Length < (if r.expectingField then r.fieldNameSize else 0)
                              + (if t.code == BodyChunk then 1
                                 else if t.code == Skip then t.size - r.parser.d else t.size + t.look)
  {
    hide WellFormed, PhaseAt;
  }

  lemma StoppedOnTheWay(r: Reader, o: Outcome, script: seq<Token>, k0: nat, k: nat)
    requires r.parser.Ok() && k0 <= k <= |script|
    requires o == ParsingError ==> Saw(script, k, |script|, ErrorData)
    requires o == BufferExhausted ==> r.Full()
    requires o != Pending && o != OutOfOrder
    ensures Stopped(r, o, script, k0)
  {
    hide Saw;
    if o == ParsingError {
      SawWider(script, k0, k, |script|, ErrorData);
    }
  }

  /** One request from its first token to its end, in as many reads as it takes. */
  method ReadWhole(r: Reader) returns (o: Outcome, told: Request)
    requires r.Valid() && PhaseAt(r.parser.script, r.parser.k) == Start
    modifies r, r.parser, r.buffer
    ensures r.Valid() && Stopped(r, o, old(r.parser.script), old(r.parser.k))
    ensures o == Success ==>
              && r.base == old(r.base) && PhaseAt(r.parser.script, r.parser.k) == Start
              && Delivered(r.TheFeed(), old(r.parser.k), r.parser.k, told)
              && Contains(r.TheFeed(), old(r.parser.k), r.parser.k, told)
  {
    hide Contains, WellFormed, PhaseAt, Meaning, Offset, Apply, Saw, Told, EndsAt, InStream, Stopped, Reader.Full, Reader.Synced,
         Reader.Packed;
    ghost var script, k0 := r.parser.script, r.parser.k;
    r.StartIsClean();
    o := r.ReadRequest();
    StoppedOnTheWay(r, o, script, k0, k0);
    while o == Success && r.istate == MessageReady
      invariant r.Left(o, Data) && Stopped(r, o, script, k0)
      invariant o == Success ==> r.exact && r.base == old(r.base) && r.k0 == k0 <= r.parser.k
      decreases o == Success, |r.parser.script| - r.parser.k,
                if r.parser.k < |r.parser.script| then r.parser.script[r.parser.k].size - r.parser.d else 0
    {
      ghost var k := r.parser.k;
      o := r.ReadSome();
      StoppedOnTheWay(r, o, script, k0, k);
    }
    if o == Success && r.istate == BodyReady {
      ghost var k := r.parser.k;
      o := r.ReadTrailers();
      StoppedOnTheWay(r, o, script, k0, k);
    }
    told := Request(r.message, r.modernHttp, r.connectRequest, r.keepAlive, r.istate, r.useTrailers, r.writer, None);
    if o == Success {
      EndedTells(r);
      r.StartIsClean();
      DeliveredContains(r.TheFeed(), k0, r.parser.k, told);
    }
  }

  /** Up to n requests, pipelined or not, one after the other. */
  method ReadAll(r: Reader, n: nat) returns (o: Outcome, log: seq<Request>, ghost ks: seq<nat>)
    requires r.Valid() && PhaseAt(r.parser.script, r.parser.k) == Start
    modifies r, r.parser, r.buffer
    ensures Delivers(old(r.TheFeed()), ks, log) && ks[0] == old(r.parser.k) && |log| <= n
    ensures forall i :: 0 <= i < |log| ==> Contains(old(r.TheFeed()), ks[i], ks[i + 1], log[i])
    ensures |log| < n <==> o != Success
    ensures r.Valid() && Stopped(r, o, old(r.parser.script), ks[|log|])
  {
    hide WellFormed, PhaseAt, Told, EndsAt, InStream, Reader.Packed, Reader.Synced, Delivers, Delivered, Stopped,
         Contains;
    log, ks, o := [], [r.parser.k], Success;
    DeliversNone(r.TheFeed(), r.parser.k);
    AllWell(r, r.parser.script, r.parser.k);
    while |log| < n
      invariant r.Valid() && |ks| == |log| + 1 && Delivers(old(r.TheFeed()), ks, log) && ks[0] == old(r.parser.k) && |log| <= n
      invariant r.base == old(r.base) && ks[|log|] == r.parser.k
      invariant PhaseAt(r.parser.script, r.parser.k) == Start
      invariant o == Success && Stopped(r, o, old(r.parser.script), ks[|log|])
      invariant forall i :: 0 <= i < |log| ==> Contains(old(r.TheFeed()), ks[i], ks[i + 1], log[i])
    {
      var told;
      o, told := ReadWhole(r);
      if o != Success {
        return;
      }
      DeliversMore(r.TheFeed(), ks, log, r.parser.k, told);
      log, ks := log + [told], ks + [r.parser.k];
      AllWell(r, old(r.parser.script), r.parser.k);
    }
  }

  lemma AllWell(r: Reader, script: seq<Token>, k: nat)
    requires r.parser.Ok()
    ensures Stopped(r, Success, script, k)
  {
  }

  lemma DeliversNone(f: Feed, k: nat)
    ensures Delivers(f, [k], [])
  {
  }
}
