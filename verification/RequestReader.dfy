/**
 * The incremental request reader: a tokenizer runs over a buffer of fixed size, the bytes that
 * are not yet parsed move to its front, and the name of an unfinished field stays before them.
 */
module RequestReader {
  import opened HeaderLists
  import opened RequestMeaning
  import opened Results
  import opened Slices
  import opened Text
  import opened Tokenizer
  import ResponseWriter

  datatype Target = Ready | Data | End

  datatype Outcome = Pending | Success | ChannelError | ParsingError | BufferExhausted | OutOfOrder

  /** A read of the body or the trailers delivers no token that opens an answer. */
  ghost predicate NoneOfHead(script: seq<Token>, i: nat, k: nat, target: Target)
    requires k <= |script|
  {
    target == Ready || (!Saw(script, i, k, Version) && !Saw(script, i, k, EndOfHeaders))
  }

  /** None of the tokens that a read for the target waits for, nor one that it must not deliver. */
  ghost predicate NotYet(script: seq<Token>, i: nat, k: nat, target: Target)
    requires k <= |script|
  {
    && NoneOfHead(script, i, k, target)
    && (if target == Ready then !Saw(script, i, k, EndOfHeaders) else !Saw(script, i, k, EndOfMessage))
  }

  /** The flags of a parse that came from (k0, d0) to (k, d). */
  ghost predicate Seen(script: seq<Token>, k0: nat, d0: nat, k: nat, d: nat, ready: bool, data: bool, end: bool) {
    && k0 <= k <= |script|
    && (k > k0 || (k == k0 && d > d0) || (k == k0 && d == d0 && !data && !end))
    && ready == Saw(script, k0, k, EndOfHeaders) && end == Saw(script, k0, k, EndOfMessage)
    && (k > k0 ==> !Saw(script, k0, k - 1, EndOfMessage))
  }

  lemma SeenSays(script: seq<Token>, k0: nat, d0: nat, k: nat, d: nat, ready: bool, data: bool, end: bool)
    requires Seen(script, k0, d0, k, d, ready, data, end)
    ensures k0 <= k <= |script| && !(k == k0 && d < d0) && (data || end ==> k > k0 || d > d0)
    ensures ready == Saw(script, k0, k, EndOfHeaders) && end == Saw(script, k0, k, EndOfMessage)
    ensures k > k0 ==> !Saw(script, k0, k - 1, EndOfMessage)
  {
    hide Saw;
  }

  lemma ErrorSeen(script: seq<Token>, k0: nat, d0: nat, k: nat, d: nat, ready: bool, data: bool, end: bool)
    requires Seen(script, k0, d0, k, d, ready, data, end) && k < |script| && script[k].code == ErrorData
    ensures Saw(script, k0, |script|, ErrorData)
  {
  }

  lemma SeenNone(script: seq<Token>, k: nat, d: nat)
    requires k <= |script|
    ensures Seen(script, k, d, k, d, false, false, false)
  {
  }

  lemma SeenMore(script: seq<Token>, k0: nat, d0: nat, k: nat, d: nat, k': nat, d': nat, ready: bool, data: bool, end: bool)
    requires Seen(script, k0, d0, k, d, ready, data, end) && k < |script| && !end
    requires if k' == k then InPieces(script[k].code) && d' > d else k' == k + 1
    ensures var c := script[k].code;
            Seen(script, k0, d0, k', d', ready || c == EndOfHeaders, data || c == BodyChunk, end || c == EndOfMessage)
  {
    hide Saw;
    SawNext(script, k0, k, EndOfHeaders);
    SawNext(script, k0, k, EndOfMessage);
  }

  class Reader {
    const buffer: array<char>
    const parser: Parser
    /** What the peer sends, and the tokens it holds from any offset on. */
    const stream: string
    const scriptAt: nat -> seq<Token>
    var received: nat

    var usedSize: nat
    var fieldNameSize: nat
    var expectingField: bool
    var useTrailers: bool
    var modernHttp: bool
    var connectRequest: bool
    var keepAlive: KeepAlive
    var istate: ReadState
    var writer: ResponseWriter.WriteState

    /** The caller's method, path and message. */
    var message: Message

    /** The field name at the front of the buffer, and where the current request began. */
    ghost var name: string
    ghost var base: nat
    ghost var k0: nat
    ghost var r0: Request
    /** True when the request read began at the start of a request, at the k0-th token. */
    ghost var exact: bool

    ghost function Rec(): Request
      reads this`message, this`modernHttp, this`connectRequest, this`keepAlive, this`istate, this`useTrailers,
            this`writer, this`expectingField, this`name
    {
      Request(message, modernHttp, connectRequest, keepAlive, istate, useTrailers, writer,
              if expectingField then Some(name) else None)
    }

    /** The buffer as a value. */
    ghost function Bytes(): (b: string)
      reads buffer
      ensures |b| == buffer.Length
    {
      buffer[..]
    }

    ghost function TheFeed(): Feed
      reads this`base, parser`script
    {
      Feed(stream, parser.script, base)
    }

    ghost predicate ScriptsOk() {
      forall p: nat :: WellFormed(scriptAt(p))
    }

    ghost predicate Base()
      reads this`received, this`base, parser
    {
      && buffer.Length > 0 && parser.Ok() && base <= received <= |stream|
      && parser.script == scriptAt(base) && ScriptsOk()
    }

    /** The stream offset up to which tokens are delivered. */
    ghost function Pos(): nat
      requires parser.k <= |parser.script|
      reads this`base, parser`script, parser`k, parser`d
    {
      Offset(parser.script, base, parser.k) + parser.d
    }

    /** The open field and the read state belong behind k tokens and d bytes. */
    ghost predicate Placed(open: bool, state: ReadState, k: nat, d: nat)
      reads this`received, this`base, parser`script
    {
      && k <= |parser.script| && (d > 0 ==> k < |parser.script|)
      && Offset(parser.script, base, k) + d <= received <= |stream|
      && PhaseAt(parser.script, k) != Dead
      && (open <==> FieldOpen(PhaseAt(parser.script, k))) && state == StateIn(PhaseAt(parser.script, k))
    }

    /** The record is what the first k tokens and d bytes of the next mean. */
    ghost predicate Means(rec: Request, k: nat, d: nat)
      reads this`received, this`base, this`exact, this`k0, this`r0, parser`script
    {
      && Placed(rec.name.Some?, rec.state, k, d)
      && (exact ==>
            && k0 <= k && PhaseAt(parser.script, k0) == Start && Opened(r0)
            && (forall i :: k0 < i < k ==> PhaseAt(parser.script, i) != Start)
            && rec == Meaning(TheFeed(), k0, r0, k, d))
    }

    ghost predicate SyncedAt(k: nat, d: nat)
      reads this`message, this`modernHttp, this`connectRequest, this`keepAlive, this`istate, this`useTrailers,
            this`writer, this`expectingField, this`name, this`received, this`base, this`exact, this`k0, this`r0,
            parser`script
    {
      Means(Rec(), k, d)
    }

    ghost predicate Synced()
      reads this`message, this`modernHttp, this`connectRequest, this`keepAlive, this`istate, this`useTrailers,
            this`writer, this`expectingField, this`name, this`received, this`base, this`exact, this`k0, this`r0,
            parser`script, parser`k, parser`d
    {
      SyncedAt(parser.k, parser.d)
    }

    /**
     * Between two calls: the lower-cased name of an open field, then exactly the bytes that are
     * received but not parsed, and nothing else.
     */
    ghost predicate Valid()
      reads this, parser, buffer
    {
      Base() && Synced() && Packed(Pos()) && parser.code == InsufficientData
    }

    /** The length of the open name at the front of the buffer. */
    function Front(): nat
      reads this`expectingField, this`fieldNameSize
    {
      if expectingField then fieldNameSize else 0
    }

    ghost predicate Packed(pos: nat)
      reads this`received, this`usedSize, this`expectingField, this`fieldNameSize, this`name, buffer
    {
      && pos <= received <= |stream| && usedSize <= buffer.Length && Front() + (received - pos) == usedSize
      && Bytes()[Front()..usedSize] == stream[pos..received]
      && (expectingField ==> Bytes()[..Front()] == name)
    }

    /** In the loop: `nparsed` bytes of the buffer are consumed; `over` once a message has ended. */
    ghost predicate Parsing(nparsed: nat, nameBegin: nat, over: bool)
      reads this, parser, buffer
    {
      Base() && Synced() && Laid(Pos(), nparsed, nameBegin) && Viewed(nparsed, over)
    }

    /** The rest of the buffer is the stream from `pos` on; the open name is before it. */
    ghost predicate Laid(pos: nat, nparsed: nat, nameBegin: nat)
      reads this`received, this`usedSize, this`expectingField, this`fieldNameSize, this`name, buffer
    {
      && pos <= received <= |stream| && nparsed <= usedSize <= buffer.Length && received - pos == usedSize - nparsed
      && Bytes()[nparsed..usedSize] == stream[pos..received]
      && (expectingField ==>
            nameBegin + fieldNameSize <= nparsed && Bytes()[nameBegin..nameBegin + fieldNameSize] == name)
    }

    /** The tokenizer sees the rest of the buffer, or nothing once a message is over. */
    ghost predicate Viewed(nparsed: nat, over: bool)
      requires parser.k <= |parser.script|
      reads this`exact, this`k0, this`usedSize, parser
    {
      var start := PhaseAt(parser.script, parser.k) == Start;
      && parser.begin + parser.idx + parser.tokenSize == nparsed
      && parser.begin + parser.length == (if over then nparsed else usedSize)
      && (over ==> start && parser.d == 0)
      && (exact && start && k0 < parser.k ==> over)
    }

    constructor (bufferSize: nat, stream: string, scriptAt: nat -> seq<Token>)
      requires bufferSize > 0 && forall p: nat :: WellFormed(scriptAt(p))
      ensures Valid() && fresh(buffer) && fresh(parser) && buffer.Length == bufferSize
      ensures this.stream == stream && this.scriptAt == scriptAt && received == 0 == base && !exact && parser.k == 0
      ensures istate == Empty && writer == ResponseWriter.Empty
    {
      buffer := new char[bufferSize];
      parser := new Parser(scriptAt(0));
      this.stream, this.scriptAt, received := stream, scriptAt, 0;
      usedSize, expectingField, istate, writer := 0, false, Empty, ResponseWriter.Empty;
      base, k0, exact, name := 0, 0, false, "";
    }

    /** std::tolower on a slice, in place. */
    method LowerInPlace(from: nat, size: nat)
      requires from + size <= buffer.Length
      modifies buffer
      ensures Bytes() == Spliced(old(Bytes()), from, Lower(old(Bytes())[from..from + size]))
    {
      ghost var before := Bytes();
      for i := 0 to size
        invariant forall j :: 0 <= j < buffer.Length ==>
                    buffer[j] == if from <= j < from + i then LowerChar(before[j]) else before[j]
      {
        buffer[from + i] := LowerChar(buffer[from + i]);
      }
      IsSpliced(before, from, Lower(before[from..from + size]), Bytes());
    }

    /** std::copy_n towards the front. */
    method CopyDown(from: nat, n: nat, to: nat)
      requires to <= from && from + n <= buffer.Length
      modifies buffer
      ensures Bytes() == Spliced(old(Bytes()), to, old(Bytes())[from..from + n])
    {
      hide Spliced;
      ghost var before := Bytes();
      for i := 0 to n
        invariant forall j :: to <= j < to + i ==> buffer[j] == before[from..from + n][j - to]
        invariant forall j :: 0 <= j < to || to + i <= j < buffer.Length ==> buffer[j] == before[j]
      {
        buffer[to + i] := buffer[from + i];
      }
      IsSpliced(before, to, before[from..from + n], Bytes());
    }

    /** The bytes of the current token. */
    function Value(nparsed: nat): string
      requires nparsed + parser.tokenSize <= buffer.Length
      reads this, parser, buffer
    {
      buffer[nparsed..nparsed + parser.tokenSize]
    }

    /** field_name: lower-cased where it stands, and kept. */
    method OnFieldName(nparsed: nat)
      requires nparsed + parser.tokenSize <= buffer.Length
      modifies this`fieldNameSize, this`expectingField, this`name, buffer
      ensures Rec() == Apply(old(Rec()), FieldName, old(Value(nparsed)))
      ensures expectingField && fieldNameSize == parser.tokenSize == |name|
      ensures Bytes() == Spliced(old(Bytes()), nparsed, name)
    {
      hide Apply, Lower;
      NameApplies(Rec(), Value(nparsed));
      name := Lower(Value(nparsed));
      assert Value(nparsed) == Bytes()[nparsed..nparsed + parser.tokenSize];
      fieldNameSize := parser.tokenSize;
      LowerInPlace(nparsed, fieldNameSize);
      expectingField := true;
    }

    /** field_value: the field goes to the headers or the trailers. */
    method OnFieldValue(nparsed: nat, nameBegin: nat)
      requires nparsed + parser.tokenSize <= buffer.Length
      requires expectingField && nameBegin + fieldNameSize <= buffer.Length
      requires Bytes()[nameBegin..nameBegin + fieldNameSize] == name
      modifies this`keepAlive, this`message, this`expectingField
      ensures Rec() == Apply(old(Rec()), FieldValue, Value(nparsed))
    {
      hide AddField, RunUntil, Elements, DecodeFieldValue;
      var field := buffer[nameBegin..nameBegin + fieldNameSize];
      var value := DecodeFieldValue(Value(nparsed));
      if modernHttp || (field != "expect" && field != "upgrade") {
        if field == "connection" {
          match keepAlive {
            case CloseRead =>
            case _ =>
              var found, keep := HeaderValueAnyOf(value, ConnectionStep, keepAlive);
              keepAlive := keep;
          }
        }
        message := AddField(message, useTrailers, field, value);
      }
      expectingField := false;
    }

    method OnEndOfHeaders(ghost bytes: string)
      modifies this`istate, this`writer, this`message, this`keepAlive
      ensures Rec() == Apply(old(Rec()), EndOfHeaders, bytes)
    {
      hide Expects, WithoutExpect;
      istate := MessageReady;
      writer := ResponseWriter.Empty;
      if Expects(message.headers) > 1 {
        message := message.(headers := WithoutExpect(message.headers));
      }
      if keepAlive == Unknown {
        keepAlive := if modernHttp then KeepAliveRead else CloseRead;
      }
    }

    /** The tokens that touch neither the field name nor the buffer. */
    method OnOther(c: Code, value: string)
      requires c !in {InsufficientData, ErrorData, FieldName, FieldValue, EndOfHeaders}
      requires c == Version ==> |value| == 1
      modifies this`message, this`modernHttp, this`connectRequest, this`keepAlive, this`istate, this`useTrailers
      ensures Rec() == Apply(old(Rec()), c, value)
    {
      match c {
        case Method =>
          useTrailers := false;
          connectRequest := value == "CONNECT";
          message := message.(method' := value);
        case RequestTarget => message := message.(path := value);
        case Version =>
          modernHttp := value[0] > '0';
          keepAlive := Unknown;
        case BodyChunk => message := message.(body := message.body + value);
        case EndOfBody =>
          istate := BodyReady;
          useTrailers := true;
        case EndOfMessage => istate := Empty;
        case _ =>
      }
    }

    /** The body of the switch for a token at `nparsed`; where the open name begins now. */
    method HandleToken(nparsed: nat, nameBegin: nat) returns (nameBegin': nat)
      requires nparsed + parser.tokenSize <= buffer.Length
      requires parser.code != InsufficientData && parser.code != ErrorData
      requires parser.code == Version ==> parser.tokenSize == 1
      requires parser.code == FieldValue ==>
                 expectingField && nameBegin + fieldNameSize <= buffer.Length
                 && Bytes()[nameBegin..nameBegin + fieldNameSize] == name
      modifies this`message, this`modernHttp, this`connectRequest, this`keepAlive, this`istate, this`useTrailers,
               this`writer, this`expectingField, this`name, this`fieldNameSize, buffer
      ensures Rec() == Apply(old(Rec()), parser.code, old(Value(nparsed)))
      ensures Handled(parser.code, nparsed, nameBegin, nameBegin', old(Bytes()), old(name), old(fieldNameSize))
      ensures |message.body| == |old(message.body)| + if parser.code == BodyChunk then parser.tokenSize else 0
      ensures PartsSet(old(Rec()), parser.code, old(Value(nparsed)), Rec())
    {
      hide Apply, WellFormed, Spliced, Lower, PartsSet;
      PartsApplied(Rec(), parser.code, Value(nparsed));
      BodyMoves(Rec(), parser.code, Value(nparsed));
      nameBegin' := nameBegin;
      if parser.code == FieldName {
        nameBegin' := nparsed;
        OnFieldName(nparsed);
      } else if parser.code == FieldValue {
        OnFieldValue(nparsed, nameBegin);
      } else if parser.code == EndOfHeaders {
        OnEndOfHeaders(Value(nparsed));
      } else {
        OnOther(parser.code, Value(nparsed));
      }
    }

    /** Whether the loop goes on with a token that is delivered. */
    predicate HasToken()
      reads parser
    {
      parser.code != InsufficientData && parser.code != ErrorData
    }

    /** The piece of n bytes that is delivered behind k tokens and d bytes. */
    ghost predicate Delivered(k: nat, d: nat, n: nat)
      requires k < |parser.script|
      reads this`exact, this`k0, parser`script, parser`k, parser`d
    {
      var size := parser.script[k].size;
      && (n > 0 || size == 0) && d + n <= size && (d > 0 || n < size ==> InPieces(parser.script[k].code))
      && (parser.k, parser.d) == (if d + n == size then (k + 1, 0) else (k, d + n))
      && (PhaseAt(parser.script, k) == Start && exact ==> k == k0)
    }

    /** The fields stay in step when they were `rec` and the piece is applied to them. */
    lemma SyncMoves(k: nat, d: nat, n: nat, rec: Request)
      requires WellFormed(parser.script) && k < |parser.script| && Means(rec, k, d)
      requires parser.script[k].code != ErrorData && Delivered(k, d, n)
      requires Offset(parser.script, base, k) + d + n <= received
      requires var pos := Offset(parser.script, base, k) + d;
               Rec() == Apply(rec, parser.script[k].code, stream[pos..pos + n])
      ensures Synced() && Pos() == Offset(parser.script, base, k) + d + n
    {
      hide Apply, WellFormed, PhaseAt, Follow, Meaning, Offset, InPieces, StateIn, FieldOpen, Placed, Rec;
      PlacedMoves(k, d, n, rec);
      if exact {
        MeaningGrows(TheFeed(), k0, r0, k, d, n);
      }
    }

    lemma PlacedMoves(k: nat, d: nat, n: nat, rec: Request)
      requires WellFormed(parser.script) && k < |parser.script| && Placed(rec.name.Some?, rec.state, k, d)
      requires parser.script[k].code != ErrorData && Delivered(k, d, n)
      requires Offset(parser.script, base, k) + d + n <= received
      requires var pos := Offset(parser.script, base, k) + d;
               Rec() == Apply(rec, parser.script[k].code, stream[pos..pos + n])
      ensures Placed(Rec().name.Some?, Rec().state, parser.k, parser.d)
      ensures Pos() == Offset(parser.script, base, k) + d + n && received <= |stream|
    {
      hide Apply, WellFormed, PhaseAt, Follow, Meaning, Offset, InPieces, StateIn, FieldOpen, Rec;
      var pos := Offset(parser.script, base, k) + d;
      PhaseMoves(parser.script, k);
      ApplyMoves(rec, parser.script[k].code, stream[pos..pos + n]);
      OffsetMoves(parser.script, base, k, d, n);
    }

    /** What a token finds in the buffer. */
    lemma TokenInPlace(k: nat, d: nat, nparsed: nat, nameBegin: nat)
      requires WellFormed(parser.script) && SyncedAt(k, d)
      requires k < |parser.script| && parser.script[k].code != ErrorData
      requires Laid(Offset(parser.script, base, k) + d, nparsed, nameBegin) && Delivered(k, d, parser.tokenSize)
      requires parser.tokenSize <= usedSize - nparsed
      ensures var n, pos, c := parser.tokenSize, Offset(parser.script, base, k) + d, parser.script[k].code;
              && nparsed + n <= buffer.Length && pos + n <= received <= |stream|
              && Value(nparsed) == stream[pos..pos + n]
              && (c == Version ==> n == 1)
              && LaidAs(Bytes(), expectingField, name, fieldNameSize, pos, nparsed, nameBegin)
              && (c == FieldValue ==>
                    expectingField && nameBegin + fieldNameSize <= buffer.Length
                    && Bytes()[nameBegin..nameBegin + fieldNameSize] == name)
    {
      hide WellFormed, PhaseAt, Follow, Meaning, Offset, StateIn, FieldOpen;
      PhaseMoves(parser.script, k);
      Within(Bytes(), nparsed, usedSize, stream, Offset(parser.script, base, k) + d, received, parser.tokenSize);
    }

    /** What handling a token of kind c at `nparsed` does to the buffer and the open name. */
    ghost predicate Handled(c: Code, nparsed: nat, nameBegin: nat, nameBegin': nat, bytes: string, name0: string, size0: nat)
      requires nparsed <= |bytes|
      reads this`expectingField, this`name, this`fieldNameSize, parser`tokenSize, buffer
    {
      if c == FieldName then
        && nameBegin' == nparsed && expectingField && fieldNameSize == parser.tokenSize == |name|
        && nparsed + |name| <= |bytes| && Bytes() == Spliced(bytes, nparsed, name)
      else
        nameBegin' == nameBegin && fieldNameSize == size0 && name == name0 && Bytes() == bytes
    }

    /** Laid, of values. */
    ghost predicate LaidAs(bytes: string, open: bool, name0: string, size0: nat, pos: nat, nparsed: nat, nameBegin: nat)
      reads this`received, this`usedSize
    {
      && pos <= received <= |stream| && nparsed <= usedSize <= buffer.Length == |bytes|
      && received - pos == usedSize - nparsed && bytes[nparsed..usedSize] == stream[pos..received]
      && (open ==> nameBegin + size0 <= nparsed && bytes[nameBegin..nameBegin + size0] == name0)
    }

    /** The buffer after a token. */
    lemma LaidMoves(c: Code, pos: nat, nparsed: nat, nameBegin: nat, nameBegin': nat, bytes: string, open: bool,
                    name0: string, size0: nat)
      requires LaidAs(bytes, open, name0, size0, pos, nparsed, nameBegin)
      requires parser.tokenSize <= usedSize - nparsed && (c != FieldName && expectingField ==> open)
      requires Handled(c, nparsed, nameBegin, nameBegin', bytes, name0, size0)
      ensures Laid(pos + parser.tokenSize, nparsed + parser.tokenSize, nameBegin')
    {
      RestMoves(bytes, Bytes(), nparsed, usedSize, stream, pos, received, parser.tokenSize, name, c == FieldName);
    }

    /** The view after a token; the end of a message leaves nothing in view. */
    lemma ViewMoves(k: nat, d: nat, nparsed: nat)
      requires Base() && k < |parser.script| && parser.script[k].code != ErrorData && Delivered(k, d, parser.tokenSize)
      requires if parser.script[k].code == EndOfMessage then
                 parser.begin == nparsed && parser.length == parser.tokenSize && parser.idx == 0
               else
                 parser.begin + parser.idx == nparsed && parser.begin + parser.length == usedSize
      ensures Viewed(nparsed + parser.tokenSize, parser.script[k].code == EndOfMessage)
    {
      hide WellFormed, PhaseAt, Follow, Offset;
      PhaseMoves(parser.script, k);
    }

    /** Takes the token that Next delivered behind k tokens and d bytes. */
    method Take(ghost k: nat, ghost d: nat, nparsed: nat, nameBegin: nat) returns (nameBegin': nat)
      requires WellFormed(parser.script) && SyncedAt(k, d)
      requires k < |parser.script| && Delivered(k, d, parser.tokenSize)
      requires Laid(Offset(parser.script, base, k) + d, nparsed, nameBegin)
      requires HasToken() && parser.code == parser.script[k].code && parser.tokenSize <= usedSize - nparsed
      modifies this`message, this`modernHttp, this`connectRequest, this`keepAlive, this`istate, this`useTrailers,
               this`writer, this`expectingField, this`name, this`fieldNameSize, buffer
      ensures Synced() && Laid(Pos(), nparsed + parser.tokenSize, nameBegin')
      ensures |message.body| == |old(message.body)| + if parser.code == BodyChunk then parser.tokenSize else 0
    {
      hide Apply, WellFormed, PhaseAt, Follow, Meaning, Offset, Spliced, StateIn, FieldOpen, Lower, Synced, Delivered,
           Means, Handled, LaidAs, Laid, Bytes;
      ghost var rec, bytes, name0, size0 := Rec(), Bytes(), name, fieldNameSize;
      TokenInPlace(k, d, nparsed, nameBegin);
      nameBegin' := HandleToken(nparsed, nameBegin);
      Taken(k, d, nparsed, nameBegin, nameBegin', rec, bytes, name0, size0);
    }

    /** The invariants hold behind a token that was handled when the reader held the given values. */
    lemma Taken(k: nat, d: nat, nparsed: nat, nameBegin: nat, nameBegin': nat, rec: Request, bytes: string,
                name0: string, size0: nat)
      requires WellFormed(parser.script) && k < |parser.script| && parser.script[k].code == parser.code != ErrorData
      requires Delivered(k, d, parser.tokenSize) && Means(rec, k, d)
      requires parser.tokenSize <= usedSize - nparsed
      requires var pos := Offset(parser.script, base, k) + d;
               && pos + parser.tokenSize <= received <= |stream|
               && LaidAs(bytes, rec.name.Some?, name0, size0, pos, nparsed, nameBegin)
               && Rec() == Apply(rec, parser.code, stream[pos..pos + parser.tokenSize])
      requires nparsed <= |bytes| && Handled(parser.code, nparsed, nameBegin, nameBegin', bytes, name0, size0)
      ensures Synced() && Laid(Pos(), nparsed + parser.tokenSize, nameBegin')
    {
      hide Apply, WellFormed, PhaseAt, Follow, Meaning, Offset, Spliced, StateIn, FieldOpen, Lower, Synced, Delivered,
           Means, Handled, LaidAs, Laid, Bytes;
      var pos := Offset(parser.script, base, k) + d;
      ApplyMoves(rec, parser.code, stream[pos..pos + parser.tokenSize]);
      SyncMoves(k, d, parser.tokenSize, rec);
      LaidMoves(parser.code, pos, nparsed, nameBegin, nameBegin', bytes, rec.name.Some?, name0, size0);
    }

    /** A token that is delivered is in view, and none is delivered once a message is over. */
    lemma TokenInView(k: nat, d: nat, nparsed: nat, over: bool)
      requires WellFormed(parser.script) && k < |parser.script| && parser.idx + parser.tokenSize <= parser.length
      requires parser.begin + parser.idx == nparsed && parser.begin + parser.length == (if over then nparsed else usedSize)
      requires over ==> PhaseAt(parser.script, k) == Start
      requires exact && PhaseAt(parser.script, k) == Start && k0 < k ==> over
      requires exact ==> k0 <= k
      requires var t := parser.script[k];
               if InPieces(t.code) then
                 && 1 <= parser.tokenSize <= t.size - d
                 && (parser.k, parser.d) == if d + parser.tokenSize == t.size then (k + 1, 0) else (k, d + parser.tokenSize)
               else parser.tokenSize == t.size && parser.idx + t.size + t.look <= parser.length
                    && (parser.k, parser.d) == (k + 1, 0) && d == 0
      ensures !over && Delivered(k, d, parser.tokenSize)
      ensures parser.tokenSize <= usedSize - nparsed
    {
      hide WellFormed, PhaseAt;
      if PhaseAt(parser.script, k) == Start {
        StartNeedsBytes(parser.script, k);
      }
    }

    /** Asks the tokenizer for the next token; what it delivers is in view. */
    method NextToken(nparsed: nat, ghost over: bool)
      requires Base() && Viewed(nparsed, over) && parser.code != ErrorData && (exact ==> k0 <= parser.k)
      modifies parser`k, parser`d, parser`code, parser`idx, parser`tokenSize
      ensures Base() && parser.begin + parser.idx == nparsed
      ensures parser.begin + parser.length == (if over then nparsed else usedSize)
      ensures parser.code == ErrorData ==> old(parser.k) < |parser.script| && parser.script[old(parser.k)].code == ErrorData
      ensures parser.code == InsufficientData ==>
                && Viewed(nparsed, over) && parser.k == old(parser.k) && parser.d == old(parser.d)
                && (!over && parser.k < |parser.script| ==> usedSize - nparsed < parser.Need())
      ensures HasToken() ==>
                && !over && old(parser.k) < |parser.script| && parser.code == parser.script[old(parser.k)].code
                && Delivered(old(parser.k), old(parser.d), parser.tokenSize) && parser.tokenSize <= usedSize - nparsed
                && (if parser.k == old(parser.k) then InPieces(parser.code) && parser.d > old(parser.d)
                    else parser.k == old(parser.k) + 1)
                && (InPieces(parser.code) ==> parser.tokenSize >= 1)
    {
      hide WellFormed, PhaseAt, Follow, Delivered, TokenOk;
      ghost var k, d := parser.k, parser.d;
      parser.Next();
      if HasToken() {
        TokenInView(k, d, nparsed, over);
      }
    }

    /** One round of the loop: the next token, if its bytes are in view, is taken and handled. */
    method Turn(nparsed: nat, nameBegin: nat, ghost over: bool) returns (nparsed': nat, nameBegin': nat)
      requires Parsing(nparsed, nameBegin, over) && parser.code != ErrorData
      modifies this`message, this`modernHttp, this`connectRequest, this`keepAlive, this`istate, this`useTrailers,
               this`writer, this`expectingField, this`name, this`fieldNameSize, buffer,
               parser`k, parser`d, parser`code, parser`idx, parser`tokenSize, parser`begin, parser`length
      ensures |message.body| >= |old(message.body)|
      ensures |message.body| > |old(message.body)| <==> parser.code == BodyChunk
      ensures Base()
      ensures parser.code == ErrorData ==> old(parser.k) < |parser.script| && parser.script[old(parser.k)].code == ErrorData
      ensures parser.code == InsufficientData ==>
                && Parsing(nparsed, nameBegin, over) && nparsed' == nparsed && nameBegin' == nameBegin
                && parser.k == old(parser.k) && parser.d == old(parser.d)
                && (!over && parser.k < |parser.script| ==> usedSize - nparsed < parser.Need())
      ensures HasToken() ==>
                && Parsing(nparsed', nameBegin', parser.code == EndOfMessage) && !over
                && old(parser.k) < |parser.script| && parser.code == parser.script[old(parser.k)].code
                && (if parser.k == old(parser.k) then InPieces(parser.code) && parser.d > old(parser.d)
                    else parser.k == old(parser.k) + 1)
    {
      hide Apply, WellFormed, PhaseAt, Follow, Meaning, Offset, SyncedAt, Laid, Delivered, TokenOk, Rec, StateIn,
           FieldOpen, Value, Bytes, Viewed;
      ghost var k, d := parser.k, parser.d;
      SyncedBounds(k, d);
      NextToken(nparsed, over);
      nparsed', nameBegin' := nparsed, nameBegin;
      if HasToken() {
        nameBegin' := TakeAndShow(k, d, nparsed, nameBegin);
        nparsed' := nparsed + parser.tokenSize;
      }
    }

    /** Takes the token; behind the end of a message nothing stays in view. */
    method TakeAndShow(ghost k: nat, ghost d: nat, nparsed: nat, nameBegin: nat) returns (nameBegin': nat)
      requires Base() && SyncedAt(k, d)
      requires k < |parser.script| && Delivered(k, d, parser.tokenSize)
      requires Laid(Offset(parser.script, base, k) + d, nparsed, nameBegin)
      requires HasToken() && parser.code == parser.script[k].code && parser.tokenSize <= usedSize - nparsed
      requires parser.begin + parser.idx == nparsed && parser.begin + parser.length == usedSize
      modifies this`message, this`modernHttp, this`connectRequest, this`keepAlive, this`istate, this`useTrailers,
               this`writer, this`expectingField, this`name, this`fieldNameSize, buffer,
               parser`idx, parser`begin, parser`length
      ensures Parsing(nparsed + parser.tokenSize, nameBegin', parser.code == EndOfMessage)
      ensures |message.body| == |old(message.body)| + if parser.code == BodyChunk then parser.tokenSize else 0
    {
      hide Apply, WellFormed, PhaseAt, Follow, Meaning, Offset, SyncedAt, Laid, Delivered, TokenOk, Rec, StateIn, Viewed;
      nameBegin' := Take(k, d, nparsed, nameBegin);
      if parser.code == EndOfMessage {
        parser.SetBuffer(nparsed, parser.tokenSize);
      }
      ViewMoves(k, d, nparsed);
    }

    lemma SyncedBounds(k: nat, d: nat)
      requires SyncedAt(k, d)
      ensures exact ==> k0 <= k
    {
    }

    /** Moves the unparsed bytes to the front, behind the open name if there is one. */
    method Compact(ghost pos: nat, nparsed: nat, nameBegin: nat)
      requires Laid(pos, nparsed, nameBegin)
      modifies this`usedSize, buffer
      ensures Packed(pos) && usedSize - Front() == old(usedSize) - nparsed
    {
      hide Bytes;
      if !expectingField {
        MoveRest(nparsed);
        usedSize := usedSize - nparsed;
      } else if nparsed != 0 {
        MoveBoth(nparsed, nameBegin);
        usedSize := usedSize - nparsed;
        usedSize := usedSize + fieldNameSize;
      }
    }

    method MoveRest(nparsed: nat)
      requires nparsed <= usedSize <= buffer.Length
      modifies buffer
      ensures Bytes()[0..usedSize - nparsed] == old(Bytes())[nparsed..usedSize]
    {
      hide Spliced;
      ghost var bytes := Bytes();
      CopyDown(nparsed, usedSize - nparsed, 0);
      MovedRest(bytes, nparsed, usedSize);
    }

    method MoveBoth(nparsed: nat, nameBegin: nat)
      requires nameBegin + fieldNameSize <= nparsed <= usedSize <= buffer.Length
      modifies buffer
      ensures Bytes()[..fieldNameSize] == old(Bytes())[nameBegin..nameBegin + fieldNameSize]
      ensures Bytes()[fieldNameSize..fieldNameSize + (usedSize - nparsed)] == old(Bytes())[nparsed..usedSize]
    {
      hide Spliced;
      ghost var bytes := Bytes();
      CopyDown(nameBegin, fieldNameSize, 0);
      CopyDown(nparsed, usedSize - nparsed, fieldNameSize);
      MovedBoth(bytes, nameBegin, fieldNameSize, nparsed, usedSize);
    }

    /** Forgets what is buffered; the tokenizer starts anew behind it. */
    method ClearBuffer()
      requires buffer.Length > 0 && received <= |stream| && ScriptsOk()
      modifies this`istate, this`writer, this`usedSize, this`expectingField, this`base, this`exact, parser
      ensures Valid() && usedSize == 0 && parser.k == 0 && !exact && base == received
      ensures istate == Empty && writer == ResponseWriter.Empty && !expectingField
    {
      hide WellFormed, Synced, Packed, Offset;
      istate := Empty;
      writer := ResponseWriter.Empty;
      usedSize := 0;
      parser.Reset(scriptAt(received));
      expectingField := false;
      base, exact := received, false;
      ValidAfresh();
    }

    lemma ValidAfresh()
      requires Base() && parser.k == 0 && parser.d == 0 && parser.code == InsufficientData && base == received
      requires !exact && !expectingField && usedSize == 0 && istate == Empty
      ensures Valid()
    {
      hide WellFormed, Apply, Meaning, Opened, InPieces, Follow, TokenOk;
    }

    /** The bytes that a completed read put behind the used part of the buffer. */
    ghost predicate Arrived(n: nat)
      reads this`received, this`usedSize, buffer
    {
      && usedSize + n <= buffer.Length && received + n <= |stream|
      && Bytes()[usedSize..usedSize + n] == stream[received..received + n]
    }

    /** What an error leaves behind. */
    ghost predicate Cleared()
      reads this`usedSize, this`istate, this`writer, this`base, this`received, this`exact
    {
      usedSize == 0 && istate == Empty && writer == ResponseWriter.Empty && base == received && !exact
    }

    /** The buffer is full, and too small for the open name and the next token together. */
    ghost predicate Full()
      requires parser.Ok()
      reads this, parser
    {
      && Open() && usedSize == buffer.Length
      && (parser.k < |parser.script| ==> Front() + parser.Need() > buffer.Length)
    }

    /** No request is over that the caller has not been told about. */
    ghost predicate Open()
      requires parser.k <= |parser.script|
      reads this`exact, this`k0, parser
    {
      exact && PhaseAt(parser.script, parser.k) == Start ==> k0 == parser.k
    }

    /** The request that began at k0 is read to its end. */
    ghost predicate Ended()
      requires parser.k <= |parser.script|
      reads this`exact, this`k0, parser
    {
      PhaseAt(parser.script, parser.k) == Start && parser.d == 0 && (exact ==> k0 < parser.k)
    }

    /** The arrived bytes are part of the buffer. */
    method Grow(ghost pos: nat, n: nat)
      requires Packed(pos) && Arrived(n)
      modifies this`usedSize, this`received
      ensures Laid(pos, Front(), 0) && received == old(received) + n && Front() <= usedSize
    {
      JoinSlices(Bytes(), Front(), usedSize, usedSize + n, stream, pos, received, received + n);
      usedSize := usedSize + n;
      received := received + n;
    }

    /** Takes the arrived bytes in and shows the tokenizer what is not parsed. */
    method TakeIn(n: nat) returns (nparsed: nat)
      requires Valid() && Open() && Arrived(n)
      modifies this`usedSize, this`received, parser`begin, parser`length, parser`idx
      ensures Parsing(nparsed, 0, false) && parser.code == InsufficientData && received == old(received) + n
    {
      hide WellFormed, PhaseAt, Meaning, Offset, StateIn, FieldOpen, Packed, Arrived, Laid, Opened, InPieces, TokenOk,
           Follow, Rec, Bytes;
      Grow(Pos(), n);
      if expectingField {
        parser.SetBuffer(fieldNameSize, usedSize - fieldNameSize);
        nparsed := fieldNameSize;
      } else {
        parser.SetBuffer(0, usedSize);
        nparsed := 0;
      }
    }

    /** More is parsed than k tokens and d bytes. */
    predicate Further(k: nat, d: nat)
      reads parser`k, parser`d
    {
      parser.k > k || (parser.k == k && parser.d > d)
    }

    /** Less is parsed than k tokens and d bytes. */
    predicate Behind(k: nat, d: nat)
      reads parser`k, parser`d
    {
      parser.k < k || (parser.k == k && parser.d < d)
    }

    /** The loop and the moving of the bytes behind it; the flags say which tokens were seen. */
    method Parse(nparsed0: nat) returns (ok: bool, ready: bool, data: bool, end: bool)
      requires Parsing(nparsed0, 0, false) && parser.code == InsufficientData
      modifies this`message, this`modernHttp, this`connectRequest, this`keepAlive, this`istate, this`useTrailers,
               this`writer, this`expectingField, this`name, this`fieldNameSize, this`usedSize, buffer,
               parser`k, parser`d, parser`code, parser`idx, parser`tokenSize, parser`begin, parser`length
      ensures Base() && (!ok ==> Saw(parser.script, old(parser.k), |parser.script|, ErrorData))
      ensures |message.body| >= |old(message.body)| && (data <==> |message.body| > |old(message.body)|)
      ensures ok ==>
                && Valid() && !Behind(old(parser.k), old(parser.d))
                && (data || end ==> Further(old(parser.k), old(parser.d)))
                && ready == Saw(parser.script, old(parser.k), parser.k, EndOfHeaders)
                && end == Saw(parser.script, old(parser.k), parser.k, EndOfMessage)
                && (end ==> PhaseAt(parser.script, parser.k) == Start && parser.d == 0)
                && (parser.k > old(parser.k) ==> !Saw(parser.script, old(parser.k), parser.k - 1, EndOfMessage))
                && (!end ==> Open() && (parser.k < |parser.script| ==> usedSize - Front() < parser.Need()))
    {
      hide WellFormed, PhaseAt, Meaning, Offset, StateIn, FieldOpen, SyncedAt, Laid, Apply, Packed, Rec, Bytes, TokenOk,
           Follow, Seen, Viewed, Base, Parsing, Valid, InPieces, Open;
      ParsingBounds(nparsed0, 0, false);
      var nparsed, nameBegin := nparsed0, 0;
      ready, data, end, ok := false, false, false, true;
      ghost var k0, d0 := parser.k, parser.d;
      SeenNone(parser.script, k0, d0);
      while true
        invariant Parsing(nparsed, nameBegin, end) && parser.code != ErrorData
        invariant Seen(parser.script, k0, d0, parser.k, parser.d, ready, data, end)
        invariant |message.body| >= |old(message.body)| && (data <==> |message.body| > |old(message.body)|)
        decreases |parser.script| - parser.k,
                  if parser.k < |parser.script| then parser.script[parser.k].size - parser.d else 0
      {
        ghost var k, d := parser.k, parser.d;
        ParsingBounds(nparsed, nameBegin, end);
        nparsed, nameBegin := Turn(nparsed, nameBegin, end);
        if parser.code == ErrorData {
          ErrorSeen(parser.script, k0, d0, k, d, ready, data, end);
          ok := false;
          return;
        }
        if parser.code == InsufficientData {
          SeenSays(parser.script, k0, d0, k, d, ready, data, end);
          PutAway(nparsed, nameBegin, end);
          return;
        }
        SeenMore(parser.script, k0, d0, k, d, parser.k, parser.d, ready, data, end);
        ready := ready || parser.code == EndOfHeaders;
        data := data || parser.code == BodyChunk;
        end := end || parser.code == EndOfMessage;
      }
    }

    lemma ParsingBounds(nparsed: nat, nameBegin: nat, over: bool)
      requires Parsing(nparsed, nameBegin, over)
      ensures parser.Ok() && Base() && (parser.k < |parser.script| ==> parser.d <= parser.script[parser.k].size)
    {
    }

    /** Behind the loop: what is not parsed moves to the front. */
    method PutAway(nparsed: nat, nameBegin: nat, ghost over: bool)
      requires Parsing(nparsed, nameBegin, over) && parser.code == InsufficientData
      requires !over && parser.k < |parser.script| ==> usedSize - nparsed < parser.Need()
      modifies this`usedSize, buffer
      ensures Base() && Valid()
      ensures over ==> PhaseAt(parser.script, parser.k) == Start && parser.d == 0
      ensures !over ==> Open() && (parser.k < |parser.script| ==> usedSize - Front() < parser.Need())
    {
      hide WellFormed, PhaseAt, Meaning, Offset, StateIn, FieldOpen, SyncedAt, Laid, Apply, Packed, Rec, Bytes, TokenOk,
           Follow;
      SyncedBounds(parser.k, parser.d);
      Compact(Pos(), nparsed, nameBegin);
    }

    /** The state in which a read with the given outcome leaves the reader. */
    ghost predicate Left(o: Outcome, target: Target)
      reads this, parser, buffer
    {
      && Valid()
      && (o == ChannelError || o == ParsingError ==> Cleared())
      && (o == Pending ==> Open() && usedSize < buffer.Length && (target == Ready <==> istate == Empty))
      && (o == BufferExhausted ==> Full())
      && (o == Success && (target == End || istate == Empty) ==> Ended() && istate == Empty)
    }

    /** A read for the target has got there, from k tokens and a body of n bytes. */
    ghost predicate Reached(target: Target, k: nat, n: nat)
      requires parser.k <= |parser.script|
      reads this`message, parser`script, parser`k
    {
      match target
      case Ready => Saw(parser.script, k, parser.k, EndOfHeaders)
      case Data => |message.body| > n || Saw(parser.script, k, parser.k, EndOfMessage)
      case End => Saw(parser.script, k, parser.k, EndOfMessage)
    }

    /** What a read got from where k tokens and d bytes were parsed, and n bytes of the body. */
    ghost predicate Got(o: Outcome, target: Target, base0: nat, exact0: bool, k: nat, d: nat, n: nat)
      requires parser.k <= |parser.script|
      reads this`base, this`exact, this`message, parser
    {
      o != ChannelError && o != ParsingError ==>
        && base == base0 && exact == exact0 && !Behind(k, d) && |message.body| >= n
        && (o == Success <==> Reached(target, k, n))
        && (o == Success && target == Data ==> Further(k, d))
        && NoneOfHead(parser.script, k, parser.k, target)
    }

    lemma BaseBounds()
      requires Base()
      ensures buffer.Length > 0 && received <= |stream| && ScriptsOk() && parser.Ok() && parser.script == scriptAt(base)
    {
    }

    lemma OpenBounds()
      requires Valid()
      ensures buffer.Length > 0 && received <= |stream| && ScriptsOk() && parser.Ok() && parser.script == scriptAt(base)
      ensures Synced() && Packed(Pos()) && Base()
    {
    }

    /** One completed read, or a call that finds bytes from an earlier one. */
    method OnAsyncReadMessage(target: Target, ec: bool, bytesTransferred: nat) returns (o: Outcome)
      requires Valid() && Open() && Arrived(bytesTransferred) && (target == Ready <==> istate == Empty)
      modifies this`message, this`modernHttp, this`connectRequest, this`keepAlive, this`istate, this`useTrailers,
               this`writer, this`expectingField, this`name, this`fieldNameSize, this`usedSize, this`received,
               this`base, this`exact, buffer, parser
      ensures Left(o, target) && received == old(received) + if ec then 0 else bytesTransferred
      ensures o != OutOfOrder && (ec <==> o == ChannelError)
      ensures Got(o, target, old(base), old(exact), old(parser.k), old(parser.d), |old(message.body)|)
      ensures o == ParsingError ==> Saw(old(parser.script), old(parser.k), |old(parser.script)|, ErrorData)
    {
      hide WellFormed, PhaseAt, Meaning, Offset, FieldOpen, Synced, Laid, Apply, Saw, Packed, Rec, Bytes, InPieces,
           TokenOk, Follow, Viewed, Left, Got, StateIn, Open, Full, Parsing, Arrived, Further, Valid, Base, ScriptsOk;
      OpenBounds();
      if ec {
        Fail(ChannelError, target);
        return ChannelError;
      }
      PhaseAndState();
      var nparsed := TakeIn(bytesTransferred);
      ghost var k, d, n := parser.k, parser.d, |message.body|;
      var ok, ready, data, end := Parse(nparsed);
      if !ok {
        BaseBounds();
        Fail(ParsingError, target);
        return ParsingError;
      }
      Decided(target, k, d, n, ready, data, end);
      return Decision(target, ready, data, end);
    }

    /** Whether the read is over, and how. */
    function Decision(target: Target, ready: bool, data: bool, end: bool): Outcome
      reads this`usedSize
    {
      if (target == Ready && ready) || (target == Data && (data || end)) || (target == End && end) then Success
      else if usedSize == buffer.Length then BufferExhausted
      else Pending
    }

    /** What both errors do. */
    method Fail(o: Outcome, target: Target)
      requires buffer.Length > 0 && received <= |stream| && ScriptsOk() && (o == ChannelError || o == ParsingError)
      modifies this`istate, this`writer, this`usedSize, this`expectingField, this`base, this`exact, parser
      ensures parser.k <= |parser.script| && Left(o, target)
      ensures forall base0, exact0, k, d, n :: Got(o, target, base0, exact0, k, d, n)
    {
      hide ScriptsOk;
      ClearBuffer();
    }

    lemma Decided(target: Target, k: nat, d: nat, n: nat, ready: bool, data: bool, end: bool)
      requires Valid() && k <= parser.k && !Behind(k, d) && (data || end ==> Further(k, d))
      requires ready == Saw(parser.script, k, parser.k, EndOfHeaders) && end == Saw(parser.script, k, parser.k, EndOfMessage)
      requires end ==> PhaseAt(parser.script, parser.k) == Start && parser.d == 0
      requires parser.k > k ==> !Saw(parser.script, k, parser.k - 1, EndOfMessage)
      requires |message.body| >= n && (data <==> |message.body| > n)
      requires !end ==> Open() && (parser.k < |parser.script| ==> usedSize - Front() < parser.Need())
      requires (exact ==> k0 <= k) && (target == Ready <==> InHead(PhaseAt(parser.script, k)))
      ensures var o := Decision(target, ready, data, end);
              Left(o, target) && Got(o, target, base, exact, k, d, n)
    {
      hide WellFormed, PhaseAt, Meaning, Offset, FieldOpen, SyncedAt, Laid, Apply, Saw, Packed, Rec, Bytes, InPieces,
           TokenOk, Follow, Viewed, StateIn;
      PhaseAndState();
      HeadLasts(parser.script, k, parser.k);
      if target != Ready {
        NoHead(parser.script, k, parser.k);
      }
      if end {
        EndedBehind(k);
      }
    }

    /** channel.async_read_some: an error, or at least one byte behind the used part. */
    method ChannelRead() returns (ec: bool, n: nat)
      requires usedSize < buffer.Length && received <= |stream|
      modifies buffer
      ensures Arrived(n) && (if ec then n == 0 else n >= 1)
      ensures Bytes()[..usedSize] == old(Bytes())[..usedSize]
    {
      ghost var before := Bytes();
      ec, n := *, 0;
      var left := if |stream| - received < buffer.Length - usedSize then |stream| - received else buffer.Length - usedSize;
      if ec || left == 0 {
        ec := true;
        return;
      }
      n :| 1 <= n <= left;
      ghost var t := stream[received..received + n];
      for i := 0 to n
        invariant forall j :: 0 <= j < usedSize ==> buffer[j] == before[j]
        invariant forall j :: usedSize <= j < usedSize + i ==> buffer[j] == t[j - usedSize]
      {
        buffer[usedSize + i] := stream[received + i];
        assert t[i] == stream[received + i];
      }
      PutBehind(before, Bytes(), usedSize, t);
    }

    /** Reads once from the channel; more is received then, or the read is over. */
    method ReadOnce(target: Target) returns (o: Outcome)
      requires Left(Pending, target)
      modifies this`message, this`modernHttp, this`connectRequest, this`keepAlive, this`istate, this`useTrailers,
               this`writer, this`expectingField, this`name, this`fieldNameSize, this`usedSize, this`received,
               this`base, this`exact, buffer, parser
      ensures Left(o, target) && o != OutOfOrder && received <= |stream|
      ensures received >= old(received) && (received == old(received) ==> o != Pending)
      ensures Got(o, target, old(base), old(exact), old(parser.k), old(parser.d), |old(message.body)|)
      ensures o == ParsingError ==> Saw(old(parser.script), old(parser.k), |old(parser.script)|, ErrorData)
    {
      hide WellFormed, PhaseAt, Meaning, Offset, FieldOpen, SyncedAt, Laid, Apply, Saw, StateIn, Got;
      ghost var before := Bytes();
      var ec, n := ChannelRead();
      SamePrefix(before, Bytes(), Front(), usedSize);
      o := OnAsyncReadMessage(target, ec, n);
    }

    /** After a read that has not got there, the next one's progress is that of both. */
    lemma GotMore(o: Outcome, target: Target, base0: nat, exact0: bool, k: nat, d: nat, n: nat,
                  k1: nat, d1: nat, n1: nat)
      requires parser.k <= |parser.script| && Got(o, target, base0, exact0, k1, d1, n1)
      requires if target == Data then n1 == n else n1 >= n
      requires k < k1 || (k == k1 && d <= d1)
      requires o == ChannelError || o == ParsingError || (k1 <= |parser.script| && NotYet(parser.script, k, k1, target))
      ensures Got(o, target, base0, exact0, k, d, n)
    {
      hide Saw;
      if o != ChannelError && o != ParsingError {
        SawSplit(parser.script, k, k1, parser.k, EndOfHeaders);
        SawSplit(parser.script, k, k1, parser.k, EndOfMessage);
        SawSplit(parser.script, k, k1, parser.k, Version);
      }
    }

    lemma GotSoFar(target: Target, base0: nat, exact0: bool, k: nat, d: nat, n: nat)
      requires parser.k <= |parser.script| && Got(Pending, target, base0, exact0, k, d, n)
      ensures base == base0 && exact == exact0 && !Behind(k, d) && NotYet(parser.script, k, parser.k, target)
      ensures if target == Data then |message.body| == n else |message.body| >= n
    {
    }

    lemma GotBase(o: Outcome, target: Target, base0: nat, exact0: bool, k: nat, d: nat, n: nat)
      requires parser.k <= |parser.script| && Got(o, target, base0, exact0, k, d, n)
      ensures o != ChannelError && o != ParsingError ==> base == base0
    {
    }

    lemma NothingYet(target: Target)
      requires Valid() && Open() && usedSize == 0 && (target == Ready <==> istate == Empty)
      ensures Left(Pending, target)
      ensures Got(Pending, target, base, exact, parser.k, parser.d, |message.body|)
    {
      hide Synced, Packed;
    }

    lemma ValidBounds()
      requires Valid()
      ensures parser.k <= |parser.script| && received <= |stream| && parser.script == scriptAt(base)
    {
    }

    lemma LeftBounds(o: Outcome, target: Target)
      requires Left(o, target)
      ensures parser.k <= |parser.script| && received <= |stream| && parser.script == scriptAt(base)
    {
    }

    lemma NoneArrived()
      requires Valid()
      ensures Arrived(0)
    {
    }

    /** Reads from the channel as often as needed, unless there are bytes from an earlier read. */
    method Schedule(target: Target) returns (o: Outcome)
      requires Valid() && Open() && (target == Ready <==> istate == Empty)
      modifies this`message, this`modernHttp, this`connectRequest, this`keepAlive, this`istate, this`useTrailers,
               this`writer, this`expectingField, this`name, this`fieldNameSize, this`usedSize, this`received,
               this`base, this`exact, buffer, parser
      ensures Left(o, target) && o != OutOfOrder && o != Pending
      ensures Got(o, target, old(base), old(exact), old(parser.k), old(parser.d), |old(message.body)|)
      ensures o == ParsingError ==> Saw(old(parser.script), old(parser.k), |old(parser.script)|, ErrorData)
    {
      hide Valid, Left, Got, NotYet, Saw, WellFormed, PhaseAt;
      o := Pending;
      ValidBounds();
      if usedSize > 0 {
        NoneArrived();
        o := OnAsyncReadMessage(target, false, 0);
      } else {
        NothingYet(target);
      }
      LeftBounds(o, target);
      while o == Pending
        invariant Left(o, target) && o != OutOfOrder && parser.k <= |parser.script|
        invariant Got(o, target, old(base), old(exact), old(parser.k), old(parser.d), |old(message.body)|)
        invariant o == ParsingError ==> Saw(old(parser.script), old(parser.k), |old(parser.script)|, ErrorData)
        decreases |stream| - received, if o == Pending then 1 else 0
      {
        ghost var k, d, n := parser.k, parser.d, |message.body|;
        LeftBounds(o, target);
        GotSoFar(target, old(base), old(exact), old(parser.k), old(parser.d), |old(message.body)|);
        o := ReadOnce(target);
        LeftBounds(o, target);
        GotBase(o, target, old(base), old(exact), k, d, n);
        GotMore(o, target, old(base), old(exact), old(parser.k), old(parser.d), |old(message.body)|, k, d, n);
        if o == ParsingError {
          SawWider(old(parser.script), old(parser.k), k, |old(parser.script)|, ErrorData);
        }
      }
    }

    lemma StartIsClean()
      requires Synced() && parser.Ok() && PhaseAt(parser.script, parser.k) == Start
      ensures parser.d == 0 && !expectingField && istate == Empty
    {
      if parser.d > 0 {
        StartNeedsBytes(parser.script, parser.k);
      }
    }

    /** Forgets the last message. */
    method Forget()
      requires Valid()
      modifies this`message, this`writer, this`exact
      ensures Valid() && !exact && message == NOTHING && writer == ResponseWriter.Finished
    {
      hide WellFormed, PhaseAt, Packed, Placed, Offset, Meaning, Opened;
      exact := false;
      message := NOTHING;
      writer := ResponseWriter.Finished;
    }

    /** An emptied record means what no token has told yet. */
    lemma Began()
      requires Placed(expectingField, istate, parser.k, parser.d) && k0 == parser.k && r0 == Rec()
      requires message == NOTHING && writer == ResponseWriter.Finished
      requires exact ==>
                 PhaseAt(parser.script, parser.k) == Start && parser.d == 0 && !expectingField && istate == Empty
      ensures Synced()
    {
      hide PhaseAt, Offset;
    }

    /** A new request begins if the last is read to its end. */
    method Begin()
      requires Valid() && !exact && message == NOTHING && writer == ResponseWriter.Finished && istate == Empty
      modifies this`exact, this`k0, this`r0
      ensures Valid() && Open()
      ensures exact == (PhaseAt(parser.script, parser.k) == Start) && k0 == parser.k
    {
      hide WellFormed, PhaseAt, Packed, Placed, Offset, Meaning, Opened;
      if PhaseAt(parser.script, parser.k) == Start {
        StartIsClean();
      }
      exact := PhaseAt(parser.script, parser.k) == Start;
      k0, r0 := parser.k, Rec();
      Began();
    }

    /** async_read_request: returns once the headers are over. */
    method ReadRequest() returns (o: Outcome)
      requires Valid()
      modifies this`message, this`modernHttp, this`connectRequest, this`keepAlive, this`istate, this`useTrailers,
               this`writer, this`expectingField, this`name, this`fieldNameSize, this`usedSize, this`received,
               this`base, this`exact, buffer, parser, this`k0, this`r0
      ensures Left(o, Ready) && o != Pending && (o == OutOfOrder <==> old(istate) != Empty)
      ensures if o == OutOfOrder then unchanged(this, parser, buffer)
              else
                && k0 == old(parser.k)
                && Got(o, Ready, old(base), old(PhaseAt(parser.script, parser.k) == Start), k0, old(parser.d), 0)
      ensures o == ParsingError ==> Saw(old(parser.script), old(parser.k), |old(parser.script)|, ErrorData)
    {
      hide Valid, Saw, Got, Open, PhaseAt;
      if istate != Empty {
        return OutOfOrder;
      }
      Forget();
      Begin();
      o := Schedule(Ready);
    }

    /** async_read_some: returns once more of the body is there, or the message is over. */
    method ReadSome() returns (o: Outcome)
      requires Valid()
      modifies this`message, this`modernHttp, this`connectRequest, this`keepAlive, this`istate, this`useTrailers,
               this`writer, this`expectingField, this`name, this`fieldNameSize, this`usedSize, this`received,
               this`base, this`exact, buffer, parser
      ensures Left(o, Data) && o != Pending && (o == OutOfOrder <==> old(istate) != MessageReady)
      ensures if o == OutOfOrder then unchanged(this, parser, buffer)
              else Got(o, Data, old(base), old(exact), old(parser.k), old(parser.d), |old(message.body)|)
      ensures o == ParsingError ==> Saw(old(parser.script), old(parser.k), |old(parser.script)|, ErrorData)
    {
      hide Saw, Got, PhaseAt, Packed, Meaning, Offset, Apply;
      if istate != MessageReady {
        return OutOfOrder;
      }
      PhaseAndState();
      o := Schedule(Data);
    }

    /** async_read_trailers: returns once the message is over. */
    method ReadTrailers() returns (o: Outcome)
      requires Valid()
      modifies this`message, this`modernHttp, this`connectRequest, this`keepAlive, this`istate, this`useTrailers,
               this`writer, this`expectingField, this`name, this`fieldNameSize, this`usedSize, this`received,
               this`base, this`exact, buffer, parser
      ensures Left(o, End) && o != Pending && (o == OutOfOrder <==> old(istate) != BodyReady)
      ensures if o == OutOfOrder then unchanged(this, parser, buffer)
              else Got(o, End, old(base), old(exact), old(parser.k), old(parser.d), |old(message.body)|)
      ensures o == ParsingError ==> Saw(old(parser.script), old(parser.k), |old(parser.script)|, ErrorData)
    {
      hide Saw, Got, PhaseAt, Packed, Meaning, Offset, Apply;
      if istate != BodyReady {
        return OutOfOrder;
      }
      PhaseAndState();
      o := Schedule(End);
    }

    lemma PhaseAndState()
      requires Synced() && Packed(Pos())
      ensures usedSize <= buffer.Length && (received == Pos() ==> usedSize == Front())
      ensures PhaseAt(parser.script, parser.k) != Dead
      ensures istate == Empty <==> InHead(PhaseAt(parser.script, parser.k))
      ensures exact ==> k0 <= parser.k
    {
    }

    /** A message that ended behind the k-th token is the one begun at k0. */
    lemma EndedBehind(k: nat)
      requires Synced() && k <= parser.k && Saw(parser.script, k, parser.k, EndOfMessage)
      requires exact ==> k0 <= k
      ensures exact ==> k0 < parser.k
    {
    }
  }
}
