/**
 * A multipart/byteranges body, written in two ways: at once, and by a machine of thirteen
 * states that fills one buffer per call and resumes where it stopped.
 */
module Multipart {
  import opened Chunked
  import opened Numbers
  import opened Ranges
  import opened ResponseWriter
  import opened Results
  import opened Transmit

  datatype State =
    | BoundaryLine | ContentTypeKey | ContentTypeValue | ContentTypeCrlf
    | ContentRangeKey | ValueFirst | ValueDash | ValueSecond | ValueSlash | ValueSize
    | ContentRangeCrlf | BodyState | FinalBoundary

  // ---- the texts ----

  function BoundaryText(boundary: string): (t: string)
    ensures |t| > 0
  {
    "\r\n--" + boundary + "\r\n"
  }

  function FinalText(boundary: string): (t: string)
    ensures |t| > 0
  {
    "\r\n--" + boundary + "--\r\n"
  }

  function TypeKey(): (t: string)
    ensures |t| > 0
  {
    "content-type: "
  }

  function RangeKey(): (t: string)
    ensures |t| > 0
  {
    "content-range: bytes "
  }

  // ---- the layout of the body ----

  /** What is asked for: `ranges` are the checked ranges of a file of `size` bytes. */
  datatype Plan = Plan(boundary: string, contentType: string, ranges: seq<Range>, size: nat)

  ghost predicate Checked(p: Plan) {
    && 0 < |p.ranges|
    && p.size <= MAX
    && forall k :: 0 <= k < |p.ranges| ==> p.ranges[k].first <= p.ranges[k].second && p.ranges[k].second as nat < p.size
  }

  datatype Segment = Text(text: string) | Part(first: nat, length: nat)

  function Size(g: Segment): nat {
    match g case Text(t) => |t| case Part(_, l) => l
  }

  function Rank(s: State): nat {
    match s
    case BoundaryLine => 0 case ContentTypeKey => 1 case ContentTypeValue => 2 case ContentTypeCrlf => 3
    case ContentRangeKey => 4 case ValueFirst => 5 case ValueDash => 6 case ValueSecond => 7
    case ValueSlash => 8 case ValueSize => 9 case ContentRangeCrlf => 10 case BodyState => 11
    case FinalBoundary => 12
  }

  /** The segment that belongs to a state, for the i-th range. */
  function SegmentOf(p: Plan, s: State, i: nat): Segment
    requires i < |p.ranges| && p.ranges[i].first <= p.ranges[i].second
  {
    var r := p.ranges[i];
    match s
    case BoundaryLine => Text(BoundaryText(p.boundary))
    case ContentTypeKey => Text(TypeKey())
    case ContentTypeValue => Text(p.contentType)
    case ContentTypeCrlf => Text("\r\n")
    case ContentRangeKey => Text(RangeKey())
    case ValueFirst => Text(ToString(r.first as nat))
    case ValueDash => Text("-")
    case ValueSecond => Text(ToString(r.second as nat))
    case ValueSlash => Text("/")
    case ValueSize => Text(ToString(p.size))
    case ContentRangeCrlf => Text("\r\n\r\n")
    case BodyState => Part(r.first as nat, r.second as nat - r.first as nat + 1)
    case FinalBoundary => Text(FinalText(p.boundary))
  }

  /** The state after a finished segment, and its range. */
  function Successor(p: Plan, s: State, i: nat): (State, nat)
    requires i < |p.ranges| && s != FinalBoundary
  {
    match s
    case BoundaryLine => (if p.contentType != "" then ContentTypeKey else ContentRangeKey, i)
    case ContentTypeKey => (ContentTypeValue, i)
    case ContentTypeValue => (ContentTypeCrlf, i)
    case ContentTypeCrlf => (ContentRangeKey, i)
    case ContentRangeKey => (ValueFirst, i)
    case ValueFirst => (ValueDash, i)
    case ValueDash => (ValueSecond, i)
    case ValueSecond => (ValueSlash, i)
    case ValueSlash => (ValueSize, i)
    case ValueSize => (ContentRangeCrlf, i)
    case ContentRangeCrlf => (BodyState, i)
    case BodyState => if i + 1 == |p.ranges| then (FinalBoundary, i) else (BoundaryLine, i + 1)
  }

  /** All segments from a state on. */
  ghost function Rest(p: Plan, s: State, i: nat): (segs: seq<Segment>)
    requires Checked(p) && i < |p.ranges|
    ensures |segs| > 0
    decreases |p.ranges| - i, 12 - Rank(s)
  {
    if s == FinalBoundary then [SegmentOf(p, s, i)]
    else [SegmentOf(p, s, i)] + Rest(p, Successor(p, s, i).0, Successor(p, s, i).1)
  }

  ghost function Layout(p: Plan): seq<Segment>
    requires Checked(p)
  {
    Rest(p, BoundaryLine, 0)
  }

  /** Every part lies within a file of n bytes. */
  ghost predicate Within(segs: seq<Segment>, n: nat) {
    forall k :: 0 <= k < |segs| ==> segs[k].Part? ==> segs[k].first + segs[k].length <= n
  }

  lemma {:induction false} RestWithin(p: Plan, s: State, i: nat)
    requires Checked(p) && i < |p.ranges|
    ensures Within(Rest(p, s, i), p.size)
    decreases |p.ranges| - i, 12 - Rank(s)
  {
    if s != FinalBoundary { RestWithin(p, Successor(p, s, i).0, Successor(p, s, i).1); }
  }

  // ---- the bytes: at once, and buffer by buffer ----

  function Content(file: string, g: Segment): (b: string)
    requires g.Part? ==> g.first + g.length <= |file|
    ensures |b| == Size(g)
  {
    match g case Text(t) => t case Part(f, l) => file[f..f + l]
  }

  ghost function Flat(file: string, segs: seq<Segment>): string
    requires Within(segs, |file|)
  {
    if segs == [] then "" else Content(file, segs[0]) + Flat(file, segs[1..])
  }

  function Max(a: nat, b: nat): nat {
    if a < b then b else a
  }

  /** The first position of the buffer that position j falls into. */
  function BufferStart(j: nat, n: nat): (b: nat)
    requires n > 0
    ensures b <= j < b + n
  {
    j / n * n
  }

  /**
   * What the machine emits for a segment that starts at position `start` of its output: the
   * file is sought to the part's first byte again in every buffer.
   */
  ghost function Emitted(file: string, g: Segment, start: nat, n: nat): (b: string)
    requires n > 0 && (g.Part? ==> g.first + g.length <= |file|)
    ensures |b| == Size(g)
  {
    match g
    case Text(t) => t
    case Part(f, l) =>
      seq(l, o requires 0 <= o < l => file[f + (start + o - Max(start, BufferStart(start + o, n)))])
  }

  ghost function Stream(file: string, segs: seq<Segment>, start: nat, n: nat): string
    requires n > 0 && Within(segs, |file|)
  {
    if segs == [] then ""
    else Emitted(file, segs[0], start, n) + Stream(file, segs[1..], start + Size(segs[0]), n)
  }

  lemma SameBuffer(pos: nat, j: nat, n: nat)
    requires n > 0 && pos % n == 0 && pos <= j < pos + n
    ensures BufferStart(j, n) == pos
  {
    var q := pos / n;
    assert pos == n * q;
    DivModUnique(j, n, q, j - pos);
  }

  /** The k bytes that the machine copies when `done` bytes of a segment are out. */
  function Copied(file: string, g: Segment, done: nat, k: nat): string
    requires done + k <= Size(g) && (g.Part? ==> g.first + g.length <= |file|)
  {
    match g case Text(t) => t[done..done + k] case Part(f, _) => file[f..f + k]
  }

  /** They are what the stream asks for at `it` in the buffer that starts at `pos`. */
  lemma CopiedIsEmitted(file: string, g: Segment, s: nat, n: nat, done: nat, k: nat, pos: nat, it: nat)
    requires n > 0 && (g.Part? ==> g.first + g.length <= |file|)
    requires done + k <= Size(g) && s + done == pos + it && it + k <= n && pos % n == 0
    requires done > 0 ==> it == 0
    ensures Emitted(file, g, s, n)[done..done + k] == Copied(file, g, done, k)
  {
    if g.Part? {
      hide BufferStart;
      var e, c := Emitted(file, g, s, n)[done..done + k], Copied(file, g, done, k);
      forall o | 0 <= o < k
        ensures e[o] == c[o]
      {
        var j := s + (done + o);
        SameBuffer(pos, j, n);
        assert j - Max(s, BufferStart(j, n)) == o;
        assert e[o] == Emitted(file, g, s, n)[done + o] == file[g.first + o];
      }
    }
  }

  /** What the stream holds where a segment stands. */
  lemma StreamFirst(file: string, segs: seq<Segment>, s: nat, n: nat, stream: string)
    requires n > 0 && segs != [] && Within(segs, |file|)
    requires s <= |stream| && stream[s..] == Stream(file, segs, s, n)
    ensures s + Size(segs[0]) <= |stream|
    ensures Within(segs[1..], |file|)
    ensures stream[s..s + Size(segs[0])] == Emitted(file, segs[0], s, n)
    ensures stream[s + Size(segs[0])..] == Stream(file, segs[1..], s + Size(segs[0]), n)
  {
    var e, rest := Emitted(file, segs[0], s, n), Stream(file, segs[1..], s + Size(segs[0]), n);
    assert stream[s..] == e + rest;
    assert stream[s..s + |e|] == stream[s..][..|e|];
    assert stream[s + |e|..] == stream[s..][|e|..];
  }

  /** The whole output with buffers of n bytes. */
  ghost function Output(file: string, p: Plan, n: nat): string
    requires Checked(p) && |file| == p.size && n > 0
  {
    RestWithin(p, BoundaryLine, 0);
    Stream(file, Layout(p), 0, n)
  }

  /** A machine that has put out `at` bytes, the last `out` of them from the current segment. */
  ghost predicate StandsAt(file: string, p: Plan, n: nat, s: State, i: nat, out: nat, at: nat)
    requires Checked(p) && |file| == p.size && n > 0 && i < |p.ranges|
  {
    RestWithin(p, s, i);
    && out <= at && at - out <= |Output(file, p, n)|
    && Output(file, p, n)[at - out..] == Stream(file, Rest(p, s, i), at - out, n)
  }

  lemma Copy(file: string, p: Plan, n: nat, s: State, i: nat, out: nat, k: nat, pos: nat, it: nat)
    requires Checked(p) && |file| == p.size && n > 0 && i < |p.ranges|
    requires StandsAt(file, p, n, s, i, out, pos + it)
    requires out + k <= Size(SegmentOf(p, s, i)) && it + k <= n && pos % n == 0 && (out > 0 ==> it == 0)
    ensures var g, at := SegmentOf(p, s, i), pos + it + k;
            && (g.Part? ==> g.first + g.length <= |file|)
            && at <= |Output(file, p, n)|
            && Output(file, p, n)[pos + it..at] == Copied(file, g, out, k)
            && StandsAt(file, p, n, s, i, out + k, at)
            && (out + k < Size(g) ==> at < |Output(file, p, n)|)
            && (out + k == Size(g) ==>
                  if s == FinalBoundary then at == |Output(file, p, n)|
                  else StandsAt(file, p, n, Successor(p, s, i).0, Successor(p, s, i).1, 0, at))
  {
    hide Emitted, Copied, Output, SegmentOf, Rest, Stream, Successor, StandsAt, Within;
    var g, start, segs, output := SegmentOf(p, s, i), pos + it - out, Rest(p, s, i), Output(file, p, n);
    RestFirst(p, s, i);
    StandsSays(file, p, n, s, i, out, pos + it);
    CopyOne(file, segs, output, start, n, out, k, pos, it);
    StandsOn(file, p, n, s, i, out + k, start);
    if s == FinalBoundary {
      StreamEnd(file, start + Size(g), n);
    } else {
      StandsOn(file, p, n, Successor(p, s, i).0, Successor(p, s, i).1, 0, start + Size(g));
    }
  }

  lemma StandsSays(file: string, p: Plan, n: nat, s: State, i: nat, out: nat, at: nat)
    requires Checked(p) && |file| == p.size && n > 0 && i < |p.ranges| && StandsAt(file, p, n, s, i, out, at)
    ensures Within(Rest(p, s, i), |file|) && out <= at && at - out <= |Output(file, p, n)|
    ensures Output(file, p, n)[at - out..] == Stream(file, Rest(p, s, i), at - out, n)
  {
    hide Output, Stream, Rest, Within, Checked;
    RestWithin(p, s, i);
  }

  lemma StandsOn(file: string, p: Plan, n: nat, s: State, i: nat, out: nat, start: nat)
    requires Checked(p) && |file| == p.size && n > 0 && i < |p.ranges|
    requires start <= |Output(file, p, n)| && Within(Rest(p, s, i), |file|)
    requires Output(file, p, n)[start..] == Stream(file, Rest(p, s, i), start, n)
    ensures StandsAt(file, p, n, s, i, out, start + out)
  {
    hide Output, Stream, Rest, Within, Checked;
    assert start + out - out == start;
    RestWithin(p, s, i);
  }

  /** Copying within the segment that stands at `start` of the output. */
  lemma CopyOne(file: string, segs: seq<Segment>, output: string, start: nat, n: nat, out: nat, k: nat, pos: nat, it: nat)
    requires n > 0 && segs != [] && Within(segs, |file|) && start + out == pos + it
    requires start <= |output| && output[start..] == Stream(file, segs, start, n)
    requires out + k <= Size(segs[0]) && it + k <= n && pos % n == 0 && (out > 0 ==> it == 0)
    ensures segs[0].Part? ==> segs[0].first + segs[0].length <= |file|
    ensures start + Size(segs[0]) <= |output| && Within(segs[1..], |file|)
    ensures output[pos + it..pos + it + k] == Copied(file, segs[0], out, k)
    ensures output[start + Size(segs[0])..] == Stream(file, segs[1..], start + Size(segs[0]), n)
  {
    hide Emitted, Copied, Stream;
    assert segs[0].Part? ==> segs[0].first + segs[0].length <= |file|;
    StreamFirst(file, segs, start, n, output);
    CopiedIsEmitted(file, segs[0], start, n, out, k, pos, it);
    SubSlice(output, start, Size(segs[0]), out, k);
  }

  lemma SubSlice(s: string, start: nat, size: nat, from: nat, k: nat)
    requires start + size <= |s| && from + k <= size
    ensures s[start + from..start + from + k] == s[start..start + size][from..from + k]
  {
    var a, b := s[start + from..start + from + k], s[start..start + size][from..from + k];
    assert |a| == |b|;
    forall o | 0 <= o < k
      ensures a[o] == b[o]
    {
    }
  }

  lemma RestFirst(p: Plan, s: State, i: nat)
    requires Checked(p) && i < |p.ranges|
    ensures Rest(p, s, i)[0] == SegmentOf(p, s, i)
    ensures s == FinalBoundary ==> Rest(p, s, i)[1..] == []
    ensures s != FinalBoundary ==>
              var (s', i') := Successor(p, s, i);
              i' < |p.ranges| && Rest(p, s, i)[1..] == Rest(p, s', i') && |Rest(p, s, i)| == 1 + |Rest(p, s', i')|
  {
  }

  lemma StreamEnd(file: string, at: nat, n: nat)
    requires n > 0
    ensures Stream(file, [], at, n) == ""
  {
  }

  // ---- the machine ----

  class MultiTransmitter {
    const socket: ServerSocket
    const file: string
    const boundary: string
    const contentType: string
    const fileSize: string
    var state: State
    var remaining: nat
    var ranges: seq<Range>
    var index: nat
    var body: string
    ghost const plan: Plan
    ghost var pos: nat
    ghost var sent: seq<string>

    ghost predicate Valid()
      reads this
    {
      Placed() && 0 < remaining <= Size(SegmentOf(plan, state, index))
    }

    /** The fields describe the current segment. */
    ghost predicate Placed()
      reads this
    {
      && Checked(plan) && |file| == plan.size && |body| > 0
      && boundary == plan.boundary && contentType == plan.contentType && fileSize == ToString(plan.size)
      && |ranges| == |plan.ranges| && index < |ranges|
      && (forall k :: index < k < |ranges| ==> ranges[k] == plan.ranges[k])
      && (state != FinalBoundary ==> ranges[index] == Kept())
      && (state == ContentTypeKey || state == ContentTypeValue ==> contentType != "")
      && (state == FinalBoundary ==> index + 1 == |ranges|)
    }

    /** The current range: first and last byte until the last is printed, then first and length. */
    ghost function Kept(): Range
      requires Checked(plan) && index < |plan.ranges|
      reads this
    {
      if Rank(state) <= 7 then plan.ranges[index] else ToCppRange(plan.ranges[index])
    }

    /** How many bytes of the current segment are out. */
    ghost function Out(): nat
      requires Valid()
      reads this
    {
      Size(SegmentOf(plan, state, index)) - remaining
    }

    /** The machine has put out `at` bytes of the output. */
    ghost predicate At(at: nat)
      requires Valid()
      reads this
    {
      StandsAt(file, plan, |body|, state, index, Out(), at)
    }

    constructor (socket: ServerSocket, file: string, plan: Plan, bufferSize: nat)
      requires Checked(plan) && |file| == plan.size && bufferSize > 0
      ensures this.socket == socket && this.file == file && this.plan == plan
      ensures Valid() && |body| == bufferSize && pos == 0 && sent == [] && At(0)
    {
      this.socket, this.file, this.plan := socket, file, plan;
      boundary, contentType, fileSize := plan.boundary, plan.contentType, ToString(plan.size);
      state, index, ranges := BoundaryLine, 0, plan.ranges;
      remaining := |BoundaryText(plan.boundary)|;
      body := seq(bufferSize, _ => '\0');
      pos, sent := 0, [];
    }

    /** The text that a state prints; the part of the file is not a text. */
    function StateText(): (t: string)
      requires Placed() && state != BodyState
      reads this
      ensures Text(t) == SegmentOf(plan, state, index)
    {
      match state
      case BoundaryLine => BoundaryText(boundary)
      case ContentTypeKey => TypeKey()
      case ContentTypeValue => contentType
      case ContentTypeCrlf => "\r\n"
      case ContentRangeKey => RangeKey()
      case ValueFirst => ToString(ranges[index].first as nat)
      case ValueDash => "-"
      case ValueSecond => ToString(ranges[index].second as nat)
      case ValueSlash => "/"
      case ValueSize => fileSize
      case ContentRangeCrlf => "\r\n\r\n"
      case FinalBoundary => FinalText(boundary)
    }

    /** How much the current state has to print. */
    function SizeInState(): (size: nat)
      requires Placed()
      reads this
      ensures size == Size(SegmentOf(plan, state, index)) && size > 0
    {
      if state == BodyState then ranges[index].second as nat else |StateText()|
    }

    /** Leaves a finished segment: the next state and how much it has to print. */
    method Advance()
      requires Placed() && state != FinalBoundary
      modifies this`state, this`remaining, this`ranges, this`index
      ensures Valid() && Out() == 0
      ensures (state, index) == Successor(plan, old(state), old(index))
    {
      hide SegmentOf, ToString, Size, StateText;
      if state == BodyState {
        index := index + 1;
        state := if index == |ranges| then FinalBoundary else BoundaryLine;
        if state == FinalBoundary {
          index := index - 1;
        }
      } else {
        if state == ValueSecond {
          ranges := ranges[index := ToCppRange(ranges[index])];
        }
        state := match state
          case BoundaryLine => if |contentType| > 0 then ContentTypeKey else ContentRangeKey
          case ContentTypeKey => ContentTypeValue
          case ContentTypeValue => ContentTypeCrlf
          case ContentTypeCrlf => ContentRangeKey
          case ContentRangeKey => ValueFirst
          case ValueFirst => ValueDash
          case ValueDash => ValueSecond
          case ValueSecond => ValueSlash
          case ValueSlash => ValueSize
          case ValueSize => ContentRangeCrlf
          case _ => BodyState;
      }
      remaining := SizeInState();
    }

    /** The bytes of the current segment that are copied next. */
    method Read(nextRead: nat) returns (piece: string)
      requires Valid() && nextRead <= remaining
      ensures piece == Copied(file, SegmentOf(plan, state, index), Out(), nextRead)
    {
      if state == BodyState {
        var from := ranges[index].first as nat;
        piece := file[from..from + nextRead];
      } else {
        var t := StateText();
        var it := |t| - remaining;
        piece := t[it..it + nextRead];
      }
    }

    /** Copies the next bytes to `it` in the body. */
    method CopyOut(it: nat, nextRead: nat)
      requires Valid() && At(pos + it) && pos % |body| == 0
      requires nextRead <= remaining && it + nextRead <= |body| && (Out() > 0 ==> it == 0)
      requires pos + it <= |Output(file, plan, |body|)| && body[..it] == Output(file, plan, |body|)[pos..pos + it]
      modifies this`body, this`remaining
      ensures Placed() && |body| == old(|body|) && remaining == old(remaining) - nextRead
      ensures pos + it + nextRead <= |Output(file, plan, |body|)|
      ensures body[..it + nextRead] == Output(file, plan, |body|)[pos..pos + it + nextRead]
      ensures remaining > 0 ==>
                Valid() && At(pos + it + nextRead) && pos + it + nextRead < |Output(file, plan, |body|)|
      ensures remaining == 0 ==>
                if state == FinalBoundary then pos + it + nextRead == |Output(file, plan, |body|)|
                else
                  var (s, i) := Successor(plan, state, index);
                  i < |plan.ranges| && StandsAt(file, plan, |body|, s, i, 0, pos + it + nextRead)
    {
      hide Output, Rest, SegmentOf, StandsAt, Copied, Checked, Rank;
      Copy(file, plan, |body|, state, index, Out(), nextRead, pos, it);
      RestFirst(plan, state, index);
      var piece := Read(nextRead);
      Extend(body, Output(file, plan, |body|), pos, it, piece);
      body := body[..it] + piece + body[it + nextRead..];
      remaining := remaining - nextRead;
    }

    /** Fills the body from where the machine stands; `more` when it is full and not the last. */
    method Fill() returns (more: bool)
      requires Valid() && At(pos) && pos % |body| == 0
      modifies this`state, this`remaining, this`ranges, this`index, this`body
      ensures more ==>
                && Valid() && |body| == old(|body|) && At(pos + |body|)
                && pos + |body| < |Output(file, plan, |body|)|
                && body == Output(file, plan, |body|)[pos..pos + |body|]
      ensures !more ==>
                && 0 < |body| <= old(|body|)
                && pos <= |Output(file, plan, old(|body|))|
                && body == Output(file, plan, old(|body|))[pos..]
    {
      hide Output, Rest, SegmentOf, StandsAt, Successor, Checked, Rank, Copied, Size, Kept;
      var it: nat := 0;
      var nextRead := Smaller(remaining, |body|);
      Copy(file, plan, |body|, state, index, Out(), 0, pos, 0);
      while true
        invariant Valid() && |body| == old(|body|)
        invariant At(pos + it) && pos + it < |Output(file, plan, |body|)|
        invariant it < |body| && nextRead == Smaller(remaining, |body| - it) && (Out() > 0 ==> it == 0)
        invariant body[..it] == Output(file, plan, |body|)[pos..pos + it]
        decreases |Rest(plan, state, index)|
      {
        CopyOut(it, nextRead);
        it := it + nextRead;
        if remaining > 0 {
          return true;
        }
        if state == FinalBoundary {
          ToTheEnd(body, Output(file, plan, |body|), pos, it);
          body := body[..it];
          return false;
        }
        RestFirst(plan, state, index);
        Advance();
        Copy(file, plan, |body|, state, index, 0, 0, pos, it);
        nextRead := Smaller(remaining, |body| - it);
        if nextRead == 0 {
          return true;
        }
      }
    }

    /** One completion of a write: the next buffer, or the last one and the end of the message. */
    method Process() returns (status: Status)
      requires Valid() && At(pos) && pos % |body| == 0
      modifies this, socket, socket.helper
      ensures sent == old(sent) + [body] && |body| > 0
      ensures status == Sending ==>
                && Valid() && |body| == old(|body|) && At(pos) && pos % |body| == 0
                && pos == old(pos) + |body| < |Output(file, plan, |body|)|
                && body == Output(file, plan, |body|)[old(pos)..pos]
                && socket.View() == Step(old(socket.View()), Write(Message([], body, []))).0
      ensures status != Sending ==>
                && pos == old(pos) <= |Output(file, plan, old(|body|))|
                && body == Output(file, plan, old(|body|))[pos..] && |body| <= old(|body|)
                && var wrote := Step(old(socket.View()), Write(Message([], body, []))).0;
                   socket.View() == Step(wrote, End).0 && status == Done(Step(wrote, End).1)
    {
      hide Output, Rest, SegmentOf, StandsAt, Successor, Checked, Rank, Step;
      var more := Fill();
      sent := sent + [body];
      var _ := socket.AsyncWrite(Message([], body, []));
      if more {
        pos := pos + |body|;
        NextBuffer(pos - |body|, |body|);
        return Sending;
      }
      var ec := socket.AsyncWriteEndOfMessage();
      return Done(ec);
    }
  }

  lemma NextBuffer(pos: nat, n: nat)
    requires n > 0 && pos % n == 0
    ensures (pos + n) % n == 0
  {
    assert pos + n == n * (pos / n + 1);
    DivModUnique(pos + n, n, pos / n + 1, 0);
  }

  lemma ToTheEnd(body: string, output: string, pos: nat, it: nat)
    requires it <= |body| && pos + it == |output| && body[..it] == output[pos..pos + it]
    ensures body[..it] == output[pos..] && |body[..it]| == it
  {
  }

  lemma Extend(body: string, output: string, pos: nat, it: nat, piece: string)
    requires it + |piece| <= |body| && pos + it + |piece| <= |output|
    requires body[..it] == output[pos..pos + it] && piece == output[pos + it..pos + it + |piece|]
    ensures var body' := body[..it] + piece + body[it + |piece|..];
            |body'| == |body| && body'[..it + |piece|] == output[pos..pos + it + |piece|]
  {
  }

  /** Between two calls of Process. */
  ghost predicate InFlight(t: MultiTransmitter, n: nat, base: string)
    reads t, t.socket, t.socket.helper
  {
    && t.Valid() && t.At(t.pos) && t.pos % |t.body| == 0 && |t.body| == n
    && t.pos <= |Output(t.file, t.plan, n)|
    && Concat(t.sent) == Output(t.file, t.plan, n)[..t.pos]
    && (forall k :: 0 <= k < |t.sent| ==> |t.sent[k]| == n)
    && t.socket.View().state == MetadataIssued
    && t.socket.wire == base + Chunks(t.sent)
  }

  /** What is on the wire after one more buffer. */
  lemma OneMore(sent: seq<string>, b: string, output: string, pos: nat, base: string)
    requires b != "" && pos + |b| <= |output| && Concat(sent) == output[..pos] && b == output[pos..pos + |b|]
    ensures Concat(sent + [b]) == output[..pos + |b|]
    ensures base + Chunks(sent + [b]) == base + Chunks(sent) + Chunk(b)
  {
    hide Concat, Chunks, Chunk;
    ChunksSnoc(sent, b);
    assert output[..pos] + output[pos..pos + |b|] == output[..pos + |b|];
    assert base + (Chunks(sent) + Chunk(b)) == base + Chunks(sent) + Chunk(b);
  }

  /** One call of Process: another full buffer is on the wire, or the last one and the end. */
  method OneBuffer(t: MultiTransmitter, ghost n: nat, ghost base: string) returns (status: Status)
    requires InFlight(t, n, base)
    modifies t, t.socket, t.socket.helper
    ensures status == Sending ==> InFlight(t, n, base) && old(t.pos) < t.pos
    ensures status != Sending ==>
              && status == Done(Accepted) && t.socket.View().state == Finished
              && t.socket.wire == base + Chunks(t.sent) + "0\r\n\r\n" && Concat(t.sent) == Output(t.file, t.plan, n)
              && t.sent != [] && 0 < |t.sent[|t.sent| - 1]| <= n
              && forall k :: 0 <= k < |t.sent| - 1 ==> |t.sent[k]| == n
  {
    hide Chunks, Chunk, Concat, Output, StandsAt, Rest, SegmentOf, Checked;
    ghost var before, from, output := t.sent, t.pos, Output(t.file, t.plan, n);
    status := t.Process();
    if status == Sending {
      OneMore(before, t.body, output, from, base);
    } else {
      LastPiece(t.body, output, from);
      OneMore(before, t.body, output, from, base);
    }
  }

  lemma LastPiece(b: string, output: string, pos: nat)
    requires pos <= |output| && b == output[pos..]
    ensures pos + |b| == |output| && b == output[pos..pos + |b|] && output[..pos + |b|] == output
  {
  }

  /**
   * Calls Process on every completion until it calls the handler: the buffers sent make up the
   * output, every one but the last is full, and the message is ended after the last.
   */
  method DriveMulti(t: MultiTransmitter) returns (status: Status)
    requires InFlight(t, |t.body|, t.socket.wire) && t.pos == 0 && t.sent == []
    modifies t, t.socket, t.socket.helper
    ensures status == Done(Accepted) && t.socket.View().state == Finished
    ensures t.socket.wire == old(t.socket.wire) + Chunks(t.sent) + "0\r\n\r\n"
    ensures Concat(t.sent) == Output(t.file, t.plan, old(|t.body|))
    ensures Decode(t.socket.wire[|old(t.socket.wire)|..]) ==
            Some(Body(Output(t.file, t.plan, old(|t.body|)), [], ""))
    ensures t.sent != [] && 0 < |t.sent[|t.sent| - 1]| <= old(|t.body|)
    ensures forall k :: 0 <= k < |t.sent| - 1 ==> |t.sent[k]| == old(|t.body|)
  {
    hide Chunks, Concat, Output, Decode, InFlight;
    ghost var base, n := t.socket.wire, |t.body|;
    InFlightSays(t, n, base);
    while true
      invariant InFlight(t, n, base) && t.Valid() && |t.body| == n && n > 0 && t.pos <= |Output(t.file, t.plan, n)|
      decreases |Output(t.file, t.plan, n)| - t.pos
    {
      status := OneBuffer(t, n, base);
      if status != Sending {
        Received(t.sent);
        assert t.socket.wire[|base|..] == Chunks(t.sent) + "0\r\n\r\n";
        return;
      }
      InFlightSays(t, n, base);
    }
  }

  lemma InFlightSays(t: MultiTransmitter, n: nat, base: string)
    requires InFlight(t, n, base)
    ensures t.Valid() && |t.body| == n && n > 0 && t.pos <= |Output(t.file, t.plan, n)|
  {
    hide Output, StandsAt, Rest, SegmentOf;
  }

  /**
   * The answer to several satisfiable ranges.  Behind an accepted head the recipient's decoder
   * finds exactly the machine's output; a refused head leaves the socket as it was.
   */
  method TransmitRanges(socket: ServerSocket, file: string, plan: Plan, bufferSize: nat, headers: seq<Field>)
    returns (status: Status, ghost head: Sock)
    requires Checked(plan) && |file| == plan.size && bufferSize > 0
    modifies socket, socket.helper
    ensures head == Step(old(socket.View()), Metadata(206, "Partial Content", Message(headers, "", []))).0
    ensures var outcome := Step(old(socket.View()), Metadata(206, "Partial Content", Message(headers, "", []))).1;
            status == Done(outcome) && (outcome != Accepted ==> socket.View() == old(socket.View()))
    ensures status == Done(Accepted) ==>
              && socket.View().state == Finished && head.wire <= socket.wire
              && Decode(socket.wire[|head.wire|..]) == Some(Body(Output(file, plan, bufferSize), [], ""))
  {
    hide Chunks, Chunk, Concat, Output, StandsAt, Rest, SegmentOf, Checked, Decode;
    var ec := socket.AsyncWriteResponseMetadata(206, "Partial Content", Message(headers, "", []));
    head := socket.View();
    if ec != Accepted {
      return Done(ec), head;
    }
    var t := new MultiTransmitter(socket, file, plan, bufferSize);
    NothingSent(head.wire);
    status := DriveMulti(t);
  }

  // ---- the one-shot writer ----

  /** What the loop has still to append, from a state on. */
  lemma FlatFirst(file: string, p: Plan, s: State, i: nat, body: string)
    requires Checked(p) && |file| == p.size && i < |p.ranges| && s != FinalBoundary
    ensures Within(Rest(p, s, i), |file|)
    ensures var (s', i') := Successor(p, s, i);
            && i' < |p.ranges| && Within(Rest(p, s', i'), |file|)
            && (SegmentOf(p, s, i).Part? ==> SegmentOf(p, s, i).first + SegmentOf(p, s, i).length <= |file|)
            && body + Flat(file, Rest(p, s, i)) ==
               body + Content(file, SegmentOf(p, s, i)) + Flat(file, Rest(p, s', i'))
  {
    hide Rest, SegmentOf, Content, Flat, Within, Successor;
    RestWithin(p, s, i);
    RestFirst(p, s, i);
    var (s', i') := Successor(p, s, i);
    RestWithin(p, s', i');
    FlatIs(file, Rest(p, s, i));
    Associate(body, Content(file, SegmentOf(p, s, i)), Flat(file, Rest(p, s', i')));
  }

  lemma FlatIs(file: string, segs: seq<Segment>)
    requires segs != [] && Within(segs, |file|)
    ensures segs[0].Part? ==> segs[0].first + segs[0].length <= |file|
    ensures Within(segs[1..], |file|) && Flat(file, segs) == Content(file, segs[0]) + Flat(file, segs[1..])
  {
    hide Content;
  }

  /** The total when `body` is out and the writer stands before a state of the i-th part. */
  ghost function Total(file: string, p: Plan, s: State, i: nat, body: string): string
    requires Checked(p) && |file| == p.size && i < |p.ranges|
  {
    RestWithin(p, s, i);
    body + Flat(file, Rest(p, s, i))
  }

  lemma Append(file: string, p: Plan, s: State, i: nat, body: string, t: string)
    requires Checked(p) && |file| == p.size && i < |p.ranges| && s != FinalBoundary
    requires SegmentOf(p, s, i) == Text(t)
    ensures var (s', i') := Successor(p, s, i);
            i' < |p.ranges| && Total(file, p, s, i, body) == Total(file, p, s', i', body + t)
  {
    FlatFirst(file, p, s, i, body);
  }

  /** "content-type: ...", when there is one, behind the boundary. */
  method AppendType(file: string, p: Plan, i: nat, body: string) returns (r: string)
    requires Checked(p) && |file| == p.size && i < |p.ranges|
    ensures Total(file, p, BoundaryLine, i, body) == Total(file, p, ContentRangeKey, i, r)
  {
    hide Total;
    Append(file, p, BoundaryLine, i, body, BoundaryText(p.boundary));
    r := body + BoundaryText(p.boundary);
    if |p.contentType| > 0 {
      Append(file, p, ContentTypeKey, i, r, TypeKey());
      r := r + TypeKey();
      Append(file, p, ContentTypeValue, i, r, p.contentType);
      r := r + p.contentType;
      Append(file, p, ContentTypeCrlf, i, r, "\r\n");
      r := r + "\r\n";
    }
  }

  /** "content-range: bytes first-second/size" and the empty line. */
  method AppendRange(file: string, p: Plan, i: nat, range: Range, body: string) returns (r: string)
    requires Checked(p) && |file| == p.size && i < |p.ranges| && range == p.ranges[i]
    ensures Total(file, p, ContentRangeKey, i, body) == Total(file, p, BodyState, i, r)
  {
    hide Total, ToString;
    Append(file, p, ContentRangeKey, i, body, RangeKey());
    r := body + RangeKey();
    var value := ToString(range.first as nat);
    Append(file, p, ValueFirst, i, r, value);
    r := r + value;
    Append(file, p, ValueDash, i, r, "-");
    r := r + "-";
    value := ToString(range.second as nat);
    Append(file, p, ValueSecond, i, r, value);
    r := r + value;
    Append(file, p, ValueSlash, i, r, "/");
    r := r + "/";
    value := ToString(p.size);
    Append(file, p, ValueSize, i, r, value);
    r := r + value;
    Append(file, p, ContentRangeCrlf, i, r, "\r\n\r\n");
    r := r + "\r\n\r\n";
  }

  lemma AppendPart(file: string, p: Plan, i: nat, body: string)
    requires Checked(p) && |file| == p.size && i < |p.ranges|
    ensures var r := ToCppRange(p.ranges[i]);
            var part := file[r.first as nat..r.first as nat + r.second as nat];
            && Total(file, p, BodyState, i, body) ==
               (if i + 1 == |p.ranges| then Total(file, p, FinalBoundary, i, body + part)
                else Total(file, p, BoundaryLine, i + 1, body + part))
            && |Total(file, p, BodyState, i, body)| >= |body| + |part| + |FinalText(p.boundary)|
  {
    hide Flat, Rest, Checked, FinalText;
    FlatFirst(file, p, BodyState, i, body);
    var (s', i') := Successor(p, BodyState, i);
    EndsWithFinal(file, p, s', i');
  }

  lemma {:induction false} EndsWithFinal(file: string, p: Plan, s: State, i: nat)
    requires Checked(p) && |file| == p.size && i < |p.ranges|
    ensures Within(Rest(p, s, i), |file|) && |Flat(file, Rest(p, s, i))| >= |FinalText(p.boundary)|
    decreases |p.ranges| - i, 12 - Rank(s)
  {
    hide Checked, FinalText, SegmentOf, Flat;
    RestWithin(p, s, i);
    if s == FinalBoundary {
      LastOne(file, p, i);
    } else {
      FlatFirst(file, p, s, i, "");
      EndsWithFinal(file, p, Successor(p, s, i).0, Successor(p, s, i).1);
    }
  }

  /**
   * Writes the whole body at once; None exactly when the body without its final boundary, which
   * ends with the last part, is longer than the size type can say.
   */
  method OneShot(file: string, p: Plan) returns (r: Option<string>)
    requires Checked(p) && |file| == p.size
    ensures Within(Layout(p), |file|)
    ensures r.Some? ==> r.value == Flat(file, Layout(p))
    ensures r.None? <==> |Flat(file, Layout(p))| > MAX + |FinalText(p.boundary)|
  {
    hide Flat, Layout, Total, BoundaryText, FinalText;
    TotalAtStart(file, p);
    var body, ranges := "", p.ranges;
    for i := 0 to |ranges|
      invariant |ranges| == |p.ranges| && forall k :: i <= k < |ranges| ==> ranges[k] == p.ranges[k]
      invariant Flat(file, Layout(p)) ==
                if i < |ranges| then Total(file, p, BoundaryLine, i, body) else Total(file, p, FinalBoundary, i - 1, body)
      invariant |body| <= MAX
    {
      body := AppendType(file, p, i, body);
      body := AppendRange(file, p, i, ranges[i], body);
      ranges := ranges[i := ToCppRange(ranges[i])];
      var first, length := ranges[i].first as nat, ranges[i].second as nat;
      AppendPart(file, p, i, body);
      if MAX - Smaller(|body|, MAX) < length {
        return None;
      }
      body := body + file[first..first + length];
    }
    TotalAtEnd(file, p, body);
    body := body + FinalText(p.boundary);
    r := Some(body);
  }

  lemma TotalAtStart(file: string, p: Plan)
    requires Checked(p) && |file| == p.size
    ensures Within(Layout(p), |file|) && Total(file, p, BoundaryLine, 0, "") == Flat(file, Layout(p))
  {
    RestWithin(p, BoundaryLine, 0);
    assert "" + Flat(file, Layout(p)) == Flat(file, Layout(p));
  }

  lemma TotalAtEnd(file: string, p: Plan, body: string)
    requires Checked(p) && |file| == p.size
    ensures Total(file, p, FinalBoundary, |p.ranges| - 1, body) == body + FinalText(p.boundary)
  {
    LastOne(file, p, |p.ranges| - 1);
  }

  lemma LastOne(file: string, p: Plan, i: nat)
    requires Checked(p) && |file| == p.size && i < |p.ranges|
    ensures Within(Rest(p, FinalBoundary, i), |file|)
    ensures Flat(file, Rest(p, FinalBoundary, i)) == FinalText(p.boundary)
  {
    var segs := Rest(p, FinalBoundary, i);
    assert segs == [Text(FinalText(p.boundary))] && segs[1..] == [];
    assert FinalText(p.boundary) + "" == FinalText(p.boundary);
  }

  // ---- the two compared ----

  ghost function FlatOf(file: string, p: Plan): string
    requires Checked(p) && |file| == p.size
  {
    RestWithin(p, BoundaryLine, 0);
    Flat(file, Layout(p))
  }

  ghost function Length(segs: seq<Segment>): nat {
    if segs == [] then 0 else Size(segs[0]) + Length(segs[1..])
  }

  /** Where the part that holds position j starts, in the output and in the file. */
  ghost function PartAt(segs: seq<Segment>, s: nat, j: nat): Option<(nat, nat)>
    requires s <= j
    decreases segs
  {
    if segs == [] then None
    else if j < s + Size(segs[0]) then
      match segs[0] case Text(_) => None case Part(f, _) => Some((s, f))
    else PartAt(segs[1..], s + Size(segs[0]), j)
  }

  /** Byte by byte: the framing agrees, and a part restarts at its first byte in every buffer. */
  lemma {:induction false} BytesCompared(file: string, segs: seq<Segment>, s: nat, n: nat, j: nat)
    requires n > 0 && Within(segs, |file|) && s <= j < s + Length(segs)
    ensures |Flat(file, segs)| == |Stream(file, segs, s, n)| == Length(segs)
    ensures match PartAt(segs, s, j)
            case None => Stream(file, segs, s, n)[j - s] == Flat(file, segs)[j - s]
            case Some((start, first)) =>
              && start <= j && first + (j - start) < |file|
              && Flat(file, segs)[j - s] == file[first + (j - start)]
              && Stream(file, segs, s, n)[j - s] == file[first + (j - Max(start, BufferStart(j, n)))]
    decreases segs
  {
    hide Emitted, Content, BufferStart;
    SameLength(file, segs, s, n);
    var g, s' := segs[0], s + Size(segs[0]);
    AtOfSum(Emitted(file, g, s, n), Stream(file, segs[1..], s', n), j - s);
    AtOfSum(Content(file, g), Flat(file, segs[1..]), j - s);
    if j < s' {
      EmittedAt(file, g, s, n, j);
    } else {
      BytesCompared(file, segs[1..], s', n, j);
    }
  }

  lemma AtOfSum(a: string, b: string, k: nat)
    requires k < |a| + |b|
    ensures (a + b)[k] == if k < |a| then a[k] else b[k - |a|]
  {
  }

  lemma EmittedAt(file: string, g: Segment, s: nat, n: nat, j: nat)
    requires n > 0 && (g.Part? ==> g.first + g.length <= |file|) && s <= j < s + Size(g)
    ensures match g
            case Text(t) => Emitted(file, g, s, n)[j - s] == Content(file, g)[j - s]
            case Part(f, _) =>
              && Content(file, g)[j - s] == file[f + (j - s)]
              && Emitted(file, g, s, n)[j - s] == file[f + (j - Max(s, BufferStart(j, n)))]
  {
    hide BufferStart;
    assert s + (j - s) == j;
  }

  lemma {:induction false} SameLength(file: string, segs: seq<Segment>, s: nat, n: nat)
    requires n > 0 && Within(segs, |file|)
    ensures |Flat(file, segs)| == |Stream(file, segs, s, n)| == Length(segs)
    decreases segs
  {
    if segs != [] { SameLength(file, segs[1..], s + Size(segs[0]), n); }
  }

  /** No part is split over two buffers of n bytes. */
  ghost predicate Whole(segs: seq<Segment>, s: nat, n: nat)
    requires n > 0
    decreases segs
  {
    segs == [] ||
    ((segs[0].Part? && segs[0].length > 0 ==> BufferStart(s + segs[0].length - 1, n) <= s)
     && Whole(segs[1..], s + Size(segs[0]), n))
  }

  lemma DivInOrder(i: nat, j: nat, n: nat)
    requires n > 0 && i <= j
    ensures i / n <= j / n
  {
    DivLess(j, n, i / n);
    DivLess(i, n, i / n);
  }

  lemma MulInOrder(a: nat, b: nat, n: nat)
    requires a <= b
    ensures a * n <= b * n
  {
  }

  lemma StartsInOrder(i: nat, j: nat, n: nat)
    requires n > 0 && i <= j
    ensures BufferStart(i, n) <= BufferStart(j, n)
    ensures BufferStart(BufferStart(j, n), n) == BufferStart(j, n)
  {
    DivInOrder(i, j, n);
    MulInOrder(i / n, j / n, n);
    DivModUnique(j / n * n, n, j / n, 0);
  }

  lemma EmittedWhole(file: string, g: Segment, s: nat, n: nat)
    requires n > 0 && (g.Part? ==> g.first + g.length <= |file|)
    requires g.Part? && g.length > 0 ==> BufferStart(s + g.length - 1, n) <= s
    ensures Emitted(file, g, s, n) == Content(file, g)
  {
    if g.Part? {
      var e, c := Emitted(file, g, s, n), Content(file, g);
      forall o | 0 <= o < g.length
        ensures e[o] == c[o]
      {
        StartsInOrder(s + o, s + g.length - 1, n);
        hide BufferStart;
        assert Max(s, BufferStart(s + o, n)) == s;
      }
    }
  }

  lemma {:induction false} WholeSame(file: string, segs: seq<Segment>, s: nat, n: nat)
    requires n > 0 && Within(segs, |file|) && Whole(segs, s, n)
    ensures Stream(file, segs, s, n) == Flat(file, segs)
    decreases segs
  {
    if segs != [] {
      EmittedWhole(file, segs[0], s, n);
      WholeSame(file, segs[1..], s + Size(segs[0]), n);
    }
  }

  /** A file that tells a restarted part from a continued one. */
  lemma SplitPart(g: Segment, s: nat, n: nat, size: nat) returns (file: string)
    requires n > 0 && g.Part? && g.length > 0 && g.first + g.length <= size
    requires BufferStart(s + g.length - 1, n) > s
    ensures |file| == size && Emitted(file, g, s, n) != Content(file, g)
  {
    var b := BufferStart(s + g.length - 1, n);
    StartsInOrder(b, s + g.length - 1, n);
    hide BufferStart;
    var o := b - s;
    file := seq(size, k => if k == g.first + o then 'x' else 'o');
    assert s + o == b && Max(s, b) == b;
    assert Emitted(file, g, s, n)[o] == file[g.first] == 'o';
    assert Content(file, g)[o] == file[g.first + o] == 'x';
  }

  lemma {:induction false} SplitDiffers(segs: seq<Segment>, s: nat, n: nat, size: nat) returns (file: string)
    requires n > 0 && Within(segs, size) && !Whole(segs, s, n)
    ensures |file| == size && Stream(file, segs, s, n) != Flat(file, segs)
    decreases segs
  {
    var g, s' := segs[0], s + Size(segs[0]);
    if g.Part? && g.length > 0 && BufferStart(s + g.length - 1, n) > s {
      file := SplitPart(g, s, n, size);
      HeadsDiffer(file, segs, s, n);
    } else {
      file := SplitDiffers(segs[1..], s', n, size);
      TailsDiffer(file, segs, s, n);
    }
  }

  /**
   * With buffers of n bytes the machine writes the one-shot body for every file of that size
   * exactly when no part is split over two buffers.
   */
  lemma ResumesAsOneShot(p: Plan, n: nat)
    requires Checked(p) && n > 0
    ensures (forall file | |file| == p.size :: Output(file, p, n) == FlatOf(file, p)) <==> Whole(Layout(p), 0, n)
  {
    RestWithin(p, BoundaryLine, 0);
    if Whole(Layout(p), 0, n) {
      forall file | |file| == p.size
        ensures Output(file, p, n) == FlatOf(file, p)
      {
        WholeSame(file, Layout(p), 0, n);
      }
    } else {
      var file := SplitDiffers(Layout(p), 0, n, p.size);
      assert Output(file, p, n) != FlatOf(file, p);
    }
  }

  /** A part longer than the buffer is never whole, wherever it comes. */
  lemma {:induction false} LongPartSplits(p: Plan, s: State, i: nat, k: nat, pos: nat, n: nat)
    requires Checked(p) && i <= k < |p.ranges| && s != FinalBoundary && n > 0
    requires p.ranges[k].second as nat - p.ranges[k].first as nat + 1 > n
    ensures !Whole(Rest(p, s, i), pos, n)
    decreases |p.ranges| - i, 12 - Rank(s)
  {
    RestFirst(p, s, i);
    hide Rest, BufferStart, Whole, SegmentOf, Checked;
    if s == BodyState && i == k {
      LongPart(p, k);
      LongHead(Rest(p, s, i), pos, n);
    } else {
      LongPartSplits(p, Successor(p, s, i).0, Successor(p, s, i).1, k, pos + Size(SegmentOf(p, s, i)), n);
      LongTail(Rest(p, s, i), pos, n);
    }
  }

  lemma LongPart(p: Plan, k: nat)
    requires Checked(p) && k < |p.ranges|
    ensures var g := SegmentOf(p, BodyState, k);
            g.Part? && g.length == p.ranges[k].second as nat - p.ranges[k].first as nat + 1
  {
  }

  lemma LongHead(segs: seq<Segment>, pos: nat, n: nat)
    requires n > 0 && segs != [] && segs[0].Part? && segs[0].length > n
    ensures !Whole(segs, pos, n)
  {
    hide BufferStart;
  }

  lemma LongTail(segs: seq<Segment>, pos: nat, n: nat)
    requires n > 0 && segs != [] && !Whole(segs[1..], pos + Size(segs[0]), n)
    ensures !Whole(segs, pos, n)
  {
    hide BufferStart;
  }

  /** So for such a plan there is always a file on which the two writers differ. */
  lemma LongPartsDiffer(p: Plan, k: nat, n: nat) returns (file: string)
    requires Checked(p) && k < |p.ranges| && n > 0
    requires p.ranges[k].second as nat - p.ranges[k].first as nat + 1 > n
    ensures |file| == p.size && Output(file, p, n) != FlatOf(file, p)
  {
    LongPartSplits(p, BoundaryLine, 0, k, 0, n);
    RestWithin(p, BoundaryLine, 0);
    file := SplitDiffers(Layout(p), 0, n, p.size);
  }

  /** With a buffer of one byte every byte of a part is its first. */
  lemma {:induction false} FirstByteOnly(file: string, p: Plan, s: State, i: nat, pos: nat)
    requires Checked(p) && |file| == p.size && i < |p.ranges| && s != FinalBoundary
    requires p.ranges[i].first < p.ranges[i].second
    requires file[p.ranges[i].first as nat] != file[p.ranges[i].first as nat + 1]
    ensures Within(Rest(p, s, i), |file|) && Stream(file, Rest(p, s, i), pos, 1) != Flat(file, Rest(p, s, i))
    decreases 12 - Rank(s)
  {
    hide Rest, SegmentOf, Emitted, Content, Stream, Flat, BufferStart, Checked;
    RestWithin(p, s, i);
    RestFirst(p, s, i);
    var g, segs := SegmentOf(p, s, i), Rest(p, s, i);
    if s == BodyState {
      FirstByteTwice(file, p, i, pos);
      HeadsDiffer(file, segs, pos, 1);
    } else {
      FirstByteOnly(file, p, Successor(p, s, i).0, i, pos + Size(g));
      TailsDiffer(file, segs, pos, 1);
    }
  }

  lemma FirstByteTwice(file: string, p: Plan, i: nat, pos: nat)
    requires Checked(p) && |file| == p.size && i < |p.ranges|
    requires p.ranges[i].first < p.ranges[i].second
    requires file[p.ranges[i].first as nat] != file[p.ranges[i].first as nat + 1]
    ensures var g := SegmentOf(p, BodyState, i);
            && g.first + g.length <= |file| && Size(g) == g.length
            && Emitted(file, g, pos, 1) != Content(file, g)
  {
    var g := SegmentOf(p, BodyState, i);
    EmittedAt(file, g, pos, 1, pos + 1);
  }

  lemma HeadsDiffer(file: string, segs: seq<Segment>, pos: nat, n: nat)
    requires n > 0 && segs != [] && Within(segs, |file|) && (segs[0].Part? ==> segs[0].first + segs[0].length <= |file|)
    requires Emitted(file, segs[0], pos, n) != Content(file, segs[0])
    ensures Stream(file, segs, pos, n) != Flat(file, segs)
  {
    hide Emitted, Content;
    var e, c := Emitted(file, segs[0], pos, n), Content(file, segs[0]);
    assert Stream(file, segs, pos, n)[..|e|] == e && Flat(file, segs)[..|c|] == c;
  }

  lemma TailsDiffer(file: string, segs: seq<Segment>, pos: nat, n: nat)
    requires n > 0 && segs != [] && Within(segs, |file|) && Within(segs[1..], |file|)
    requires Stream(file, segs[1..], pos + Size(segs[0]), n) != Flat(file, segs[1..])
    ensures Stream(file, segs, pos, n) != Flat(file, segs)
  {
    hide Emitted, Content;
    var e, c := Emitted(file, segs[0], pos, n), Content(file, segs[0]);
    assert Stream(file, segs, pos, n)[|e|..] == Stream(file, segs[1..], pos + Size(segs[0]), n);
    assert Flat(file, segs)[|c|..] == Flat(file, segs[1..]);
  }

  /** Two ranges, 0-1 and 0-0, of the file "ox": with a buffer of one byte the first is sent as "oo". */
  lemma WritersDiffer(boundary: string)
    ensures var p := Plan(boundary, "", [Range(0, 1), Range(0, 0)], 2);
            Checked(p) && Output("ox", p, 1) != FlatOf("ox", p)
  {
    var p := Plan(boundary, "", [Range(0, 1), Range(0, 0)], 2);
    FirstByteOnly("ox", p, BoundaryLine, 0, 0);
  }
}
