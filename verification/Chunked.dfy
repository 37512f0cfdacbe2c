/** The chunked transfer coding: what the socket prints and what a recipient reads. */
module Chunked {
  import opened Numbers
  import opened Results
  import opened Text

  const CRLF: string := "\r\n"

  // ---- printing ----

  /** The bytes of one non-empty chunk. */
  function Chunk(body: string): string {
    ToHex(|body|) + CRLF + body + CRLF
  }

  /** A write of no bytes puts nothing on the wire. */
  function Chunks(bodies: seq<string>): string {
    if bodies == [] then ""
    else (if bodies[0] == "" then "" else Chunk(bodies[0])) + Chunks(bodies[1..])
  }

  function FieldLine(f: (string, string)): string {
    f.0 + ": " + f.1
  }

  function FieldLines(fields: seq<(string, string)>): string {
    if fields == [] then "" else FieldLine(fields[0]) + CRLF + FieldLines(fields[1..])
  }

  /** The last chunk, the trailer fields and the empty line. */
  function Last(trailers: seq<(string, string)>): string {
    "0\r\n" + FieldLines(trailers) + CRLF
  }

  function Concat(bodies: seq<string>): string {
    if bodies == [] then "" else bodies[0] + Concat(bodies[1..])
  }

  // ---- reading: section 4.1.3 of RFC 7230 ----

  datatype Body = Body(data: string, trailers: seq<string>, rest: string)

  /** The line that `s` starts with and what follows its CRLF. */
  function Line(s: string): (r: Option<(string, string)>)
    ensures r.Some? ==> s == r.value.0 + CRLF + r.value.1
  {
    if |s| < 2 then None
    else if s[0] == '\r' && s[1] == '\n' then Some(("", s[2..]))
    else
      match Line(s[1..])
      case None => None
      case Some((l, rest)) => Some(([s[0]] + l, rest))
  }

  /** The number of leading hexadecimal digits. */
  function HexLength(s: string): (n: nat)
    ensures n <= |s| && AllHex(s[..n])
  {
    if s == "" || !IsHexDigit(s[0]) then 0
    else
      var n := HexLength(s[1..]);
      assert s[..1 + n] == [s[0]] + s[1..][..n];
      1 + n
  }

  /** chunk-size [ chunk-ext ] */
  function ChunkSize(line: string): Option<nat> {
    var n := HexLength(line);
    if n == 0 || (n < |line| && line[n] != ';') then None else Some(HexVal(line[..n]))
  }

  /** The trailer fields up to the empty line. */
  function Trailers(s: string): Option<(seq<string>, string)>
    decreases |s|
  {
    match Line(s)
    case None => None
    case Some((line, rest)) =>
      if line == "" then Some(([], rest))
      else
        match Trailers(rest)
        case None => None
        case Some((lines, rest')) => Some(([line] + lines, rest'))
  }

  function Decode(s: string): Option<Body>
    decreases |s|
  {
    match Line(s)
    case None => None
    case Some((line, rest)) =>
      match ChunkSize(line)
      case None => None
      case Some(size) =>
        if size == 0 then
          match Trailers(rest)
          case None => None
          case Some((lines, rest')) => Some(Body("", lines, rest'))
        else if |rest| < size + 2 || rest[size..size + 2] != CRLF then None
        else
          match Decode(rest[size + 2..])
          case None => None
          case Some(b) => Some(b.(data := rest[..size] + b.data))
  }

  // ---- the recipient undoes the sender ----

  /** No line break inside. */
  ghost predicate Unbroken(l: string) {
    forall k :: 0 <= k < |l| - 1 ==> l[k] != '\r' || l[k + 1] != '\n'
  }

  lemma {:induction false} LineOf(l: string, rest: string)
    requires Unbroken(l)
    ensures Line(l + CRLF + rest) == Some((l, rest))
  {
    var s := l + CRLF + rest;
    if l == "" {
      assert s[2..] == rest;
    } else {
      assert s[0] == l[0] && s[1..] == l[1..] + CRLF + rest;
      LineOf(l[1..], rest);
      assert l == [l[0]] + l[1..];
    }
  }

  lemma {:induction false} HexLengthOf(s: string)
    requires AllHex(s)
    ensures HexLength(s) == |s|
  {
    if s != "" { HexLengthOf(s[1..]); }
  }

  lemma HexLine(n: nat)
    ensures Free(ToHex(n), '\r') && ChunkSize(ToHex(n)) == Some(n)
  {
    ToHexVal(n);
    HexLengthOf(ToHex(n));
    assert ToHex(n)[..|ToHex(n)|] == ToHex(n);
    assert forall k :: 0 <= k < |ToHex(n)| ==> IsHexDigit(ToHex(n)[k]);
  }

  function Prepend(data: string, b: Option<Body>): Option<Body> {
    match b
    case None => None
    case Some(d) => Some(d.(data := data + d.data))
  }

  lemma PrependTwice(x: string, y: string, b: Option<Body>)
    ensures Prepend(x, Prepend(y, b)) == Prepend(x + y, b)
    ensures Prepend("", b) == b
  {
    if b.Some? {
      assert x + (y + b.value.data) == x + y + b.value.data;
      assert "" + b.value.data == b.value.data;
    }
  }

  lemma DecodeChunk(b: string, post: string)
    requires b != ""
    ensures Decode(Chunk(b) + post) == Prepend(b, Decode(post))
  {
    var hex, after := ToHex(|b|), b + CRLF + post;
    HexLine(|b|);
    LineOf(hex, after);
    assert Chunk(b) + post == hex + CRLF + after;
    assert after[..|b|] == b && after[|b|..|b| + 2] == CRLF && after[|b| + 2..] == post;
  }

  lemma {:induction false} DecodeChunks(bodies: seq<string>, post: string)
    ensures Decode(Chunks(bodies) + post) == Prepend(Concat(bodies), Decode(post))
  {
    hide Decode, Chunk;
    PrependTwice("", "", Decode(post));
    if bodies == [] {
      assert Chunks(bodies) + post == post;
    } else {
      var b, more := bodies[0], bodies[1..];
      var tail := Chunks(more) + post;
      DecodeChunks(more, post);
      PrependTwice(b, Concat(more), Decode(post));
      if b == "" {
        assert Chunks(bodies) + post == tail;
        assert Concat(bodies) == Concat(more);
      } else {
        assert Chunks(bodies) + post == Chunk(b) + tail;
        DecodeChunk(b, tail);
      }
    }
  }

  /** The field does not break its line. */
  ghost predicate OneLine(f: (string, string)) {
    Unbroken(FieldLine(f))
  }

  function Lines(fields: seq<(string, string)>): seq<string> {
    if fields == [] then [] else [FieldLine(fields[0])] + Lines(fields[1..])
  }

  lemma {:induction false} TrailersOf(fields: seq<(string, string)>, rest: string)
    requires forall k :: 0 <= k < |fields| ==> OneLine(fields[k])
    ensures Trailers(FieldLines(fields) + CRLF + rest) == Some((Lines(fields), rest))
  {
    if fields == [] {
      LineOf("", rest);
      assert FieldLines(fields) + CRLF + rest == "" + CRLF + rest;
    } else {
      var tail := FieldLines(fields[1..]) + CRLF + rest;
      LineOf(FieldLine(fields[0]), tail);
      assert FieldLines(fields) + CRLF + rest == FieldLine(fields[0]) + CRLF + tail;
      TrailersOf(fields[1..], rest);
    }
  }

  lemma DecodeLast(trailers: seq<(string, string)>, rest: string)
    requires forall k :: 0 <= k < |trailers| ==> OneLine(trailers[k])
    ensures Decode(Last(trailers) + rest) == Some(Body("", Lines(trailers), rest))
  {
    hide FieldLines, Trailers, Lines, HexLength, HexVal, ToHex, Line;
    var after := FieldLines(trailers) + CRLF + rest;
    ZeroSize();
    LineOf("0", after);
    assert Last(trailers) + rest == "0" + CRLF + after;
    TrailersOf(trailers, rest);
  }

  lemma ZeroSize()
    ensures ChunkSize("0") == Some(0) && Unbroken("0")
  {
    HexLine(0);
    assert ToHex(0) == "0";
  }

  lemma {:induction false} LineUnbroken(s: string)
    requires Line(s).Some?
    ensures Unbroken(Line(s).value.0)
  {
    if !(s[0] == '\r' && s[1] == '\n') {
      LineUnbroken(s[1..]);
      var l := Line(s[1..]).value.0;
      assert l == "" || (s[1..][0] == l[0] && s[1] == l[0]);
    }
  }

  lemma {:induction false} TrailersUnbroken(s: string)
    requires Trailers(s).Some?
    ensures forall k :: 0 <= k < |Trailers(s).value.0| ==> Unbroken(Trailers(s).value.0[k])
    decreases |s|
  {
    hide Unbroken, Line;
    LineUnbroken(s);
    if Line(s).value.0 != "" {
      TrailersUnbroken(Line(s).value.1);
    }
  }

  /** A recipient reads no line break inside a trailer. */
  lemma {:induction false} DecodedUnbroken(s: string)
    requires Decode(s).Some?
    ensures forall k :: 0 <= k < |Decode(s).value.trailers| ==> Unbroken(Decode(s).value.trailers[k])
    decreases |s|
  {
    hide Unbroken, Line, Trailers, ChunkSize;
    var (line, rest) := Line(s).value;
    var size := ChunkSize(line).value;
    if size == 0 {
      TrailersUnbroken(rest);
    } else {
      DecodedUnbroken(rest[size + 2..]);
    }
  }

  lemma {:induction false} LineAt(fields: seq<(string, string)>, k: nat)
    requires k < |fields|
    ensures |Lines(fields)| == |fields| && Lines(fields)[k] == FieldLine(fields[k])
  {
    if k > 0 {
      LineAt(fields[1..], k - 1);
    } else if |fields| > 1 {
      LineAt(fields[1..], 0);
    }
  }

  /**
   * What is written comes back, with the trailers and nothing of what follows, exactly if no
   * trailer breaks its line.
   */
  lemma RoundTrip(bodies: seq<string>, trailers: seq<(string, string)>, rest: string)
    ensures Decode(Chunks(bodies) + Last(trailers) + rest) == Some(Body(Concat(bodies), Lines(trailers), rest))
            <==> forall k :: 0 <= k < |trailers| ==> OneLine(trailers[k])
  {
    hide Decode, Chunks, Concat, Last, Lines, Unbroken, FieldLine;
    var wire := Chunks(bodies) + Last(trailers) + rest;
    if forall k :: 0 <= k < |trailers| ==> OneLine(trailers[k]) {
      DecodeLast(trailers, rest);
      DecodeChunks(bodies, Last(trailers) + rest);
      assert Concat(bodies) + "" == Concat(bodies);
      assert wire == Chunks(bodies) + (Last(trailers) + rest);
    }
    if Decode(wire) == Some(Body(Concat(bodies), Lines(trailers), rest)) {
      DecodedUnbroken(wire);
      forall k | 0 <= k < |trailers|
        ensures OneLine(trailers[k])
      {
        LineAt(trailers, k);
      }
    }
  }

  /** Without the last chunk the recipient never takes the body as complete. */
  lemma NeverEarly(bodies: seq<string>)
    ensures Decode(Chunks(bodies)) == None
  {
    DecodeChunks(bodies, "");
    assert Chunks(bodies) + "" == Chunks(bodies);
  }

  lemma Associate(a: string, b: string, c: string)
    ensures a + (b + c) == a + b + c
  {
  }

  lemma {:induction false} ChunksSnoc(bodies: seq<string>, b: string)
    ensures Chunks(bodies + [b]) == Chunks(bodies) + if b == "" then "" else Chunk(b)
    ensures Concat(bodies + [b]) == Concat(bodies) + b
  {
    hide Chunk, Chunks, Concat;
    var last := if b == "" then "" else Chunk(b);
    if bodies == [] {
      OneBody(b);
      assert bodies + [b] == [b];
    } else {
      var first, more := bodies[0], bodies[1..];
      ChunksSnoc(more, b);
      FirstBody(first, more);
      FirstBody(first, more + [b]);
      assert bodies == [first] + more && bodies + [b] == [first] + (more + [b]);
      Associate(if first == "" then "" else Chunk(first), Chunks(more), last);
      Associate(first, Concat(more), b);
    }
  }

  lemma FirstBody(b: string, more: seq<string>)
    ensures Chunks([b] + more) == (if b == "" then "" else Chunk(b)) + Chunks(more)
    ensures Concat([b] + more) == b + Concat(more)
  {
    assert ([b] + more)[1..] == more;
  }

  lemma OneBody(b: string)
    ensures Chunks([]) == Concat([]) == "" && Concat([b]) == b
    ensures Chunks([b]) == if b == "" then "" else Chunk(b)
  {
    assert [b][1..] == [];
    assert Chunks([b]) == (if b == "" then "" else Chunk(b)) + "" && Concat([b]) == b + "";
  }
}
