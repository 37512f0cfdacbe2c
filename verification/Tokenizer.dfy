/**
 * What the request reader may rely on in its tokenizer: from any offset of the byte stream it
 * delivers a fixed script of tokens, each once its bytes are in view; bodies and runs of
 * skipped bytes may come in any non-empty pieces.
 */
module Tokenizer {

  datatype Code =
    | InsufficientData | ErrorData
    | Skip | Method | RequestTarget | Version | FieldName | FieldValue
    | EndOfHeaders | BodyChunk | EndOfBody | EndOfMessage

  /** `look` more bytes must be in view before the token is known to be over. */
  datatype Token = Token(code: Code, size: nat, look: nat)

  predicate InPieces(c: Code) {
    c == Skip || c == BodyChunk
  }

  /** Where in a message the next token stands. */
  datatype Phase = Start | AfterMethod | AfterTarget | Head | HeadField | InBody | Trailer | TrailerField | Dead

  function Follow(ph: Phase, c: Code): Phase {
    match ph
    case Start => if c == Method then AfterMethod else Dead
    case AfterMethod => if c == Skip then ph else if c == RequestTarget then AfterTarget else Dead
    case AfterTarget => if c == Skip then ph else if c == Version then Head else Dead
    case Head =>
      if c == Skip then ph else if c == FieldName then HeadField else if c == EndOfHeaders then InBody else Dead
    case HeadField => if c == Skip then ph else if c == FieldValue then Head else Dead
    case InBody => if c == Skip || c == BodyChunk then ph else if c == EndOfBody then Trailer else Dead
    case Trailer =>
      if c == Skip then ph else if c == FieldName then TrailerField else if c == EndOfMessage then Start else Dead
    case TrailerField => if c == Skip then ph else if c == FieldValue then Trailer else Dead
    case Dead => Dead
  }

  ghost function PhaseAt(script: seq<Token>, k: nat): Phase
    requires k <= |script|
  {
    if k == 0 then Start else Follow(PhaseAt(script, k - 1), script[k - 1].code)
  }

  /**
   * Only the ends of a body and of a message may need no byte in view.  A field value may be
   * empty: it is known by the byte behind it.
   */
  predicate TokenOk(t: Token) {
    match t.code
    case InsufficientData => false
    case EndOfBody => t.look == 0
    case EndOfMessage => t.look == 0
    case Version => t.size == 1
    case ErrorData => t.size + t.look >= 1
    case FieldValue => t.size + t.look >= 1
    case _ => t.size >= 1
  }

  /** The grammar of requests; an error is the last token of a script. */
  ghost predicate WellFormed(script: seq<Token>) {
    forall k :: 0 <= k < |script| ==>
      TokenOk(script[k]) &&
      if script[k].code == ErrorData then k == |script| - 1
      else Follow(PhaseAt(script, k), script[k].code) != Dead
  }

  lemma TokenAt(script: seq<Token>, k: nat)
    requires WellFormed(script) && k < |script|
    ensures TokenOk(script[k])
    ensures script[k].code == ErrorData ==> k == |script| - 1
    ensures script[k].code != ErrorData ==> PhaseAt(script, k + 1) != Dead
  {
  }

  /** A request without fields and body, as its tokens. */
  const SHORTEST := [
    Token(Method, 3, 1), Token(Skip, 1, 0), Token(RequestTarget, 1, 1), Token(Skip, 8, 0), Token(Version, 1, 0),
    Token(Skip, 2, 0), Token(EndOfHeaders, 2, 0), Token(EndOfBody, 0, 0), Token(EndOfMessage, 0, 0)]

  /** The grammar has requests. */
  lemma ShortestRequest()
    ensures WellFormed(SHORTEST) && PhaseAt(SHORTEST, |SHORTEST|) == Start
  {
    var s := SHORTEST;
    assert PhaseAt(s, 1) == AfterMethod;
    assert PhaseAt(s, 2) == AfterMethod;
    assert PhaseAt(s, 3) == AfterTarget;
    assert PhaseAt(s, 4) == AfterTarget;
    assert PhaseAt(s, 5) == Head;
    assert PhaseAt(s, 6) == Head;
    assert PhaseAt(s, 7) == InBody;
    assert PhaseAt(s, 8) == Trailer;
  }

  /** The stream offset of the k-th token of a script that starts at `base`. */
  ghost function Offset(script: seq<Token>, base: nat, k: nat): (off: nat)
    requires k <= |script|
    ensures off >= base
  {
    if k == 0 then base else Offset(script, base, k - 1) + script[k - 1].size
  }

  class Parser {
    var script: seq<Token>
    /** Tokens delivered, and bytes delivered of a token that comes in pieces. */
    var k: nat
    var d: nat
    var code: Code
    var idx: nat
    var tokenSize: nat
    /** The view: `length` bytes from `begin` on in the reader's buffer. */
    var begin: nat
    var length: nat

    ghost predicate Ok()
      reads this
    {
      && WellFormed(script) && k <= |script|
      && (d > 0 ==> k < |script| && InPieces(script[k].code) && d < script[k].size)
      && idx + tokenSize <= length
      && (code == InsufficientData ==> tokenSize == 0)
    }

    /** How many more bytes the next token waits for in view. */
    ghost function Need(): nat
      requires Ok()
      reads this
    {
      if k == |script| then 0
      else if script[k].code == Skip then script[k].size - d
      else if script[k].code == BodyChunk then 1
      else script[k].size + script[k].look
    }

    constructor (script: seq<Token>)
      requires WellFormed(script)
      ensures Ok() && this.script == script && k == 0 && d == 0 && code == InsufficientData && tokenSize == 0
      ensures idx == 0 && length == 0
    {
      this.script, k, d := script, 0, 0;
      code, idx, tokenSize, begin, length := InsufficientData, 0, 0, 0, 0;
    }

    /** Back to the initial state; `script` is what comes from here on. */
    method Reset(script: seq<Token>)
      requires WellFormed(script)
      modifies this
      ensures Ok() && this.script == script && k == 0 && d == 0 && code == InsufficientData && tokenSize == 0
    {
      this.script, k, d := script, 0, 0;
      code, idx, tokenSize, length := InsufficientData, 0, 0, 0;
    }

    method SetBuffer(begin: nat, length: nat)
      requires Ok() && tokenSize <= length
      modifies this`begin, this`length, this`idx
      ensures Ok() && this.begin == begin && this.length == length && idx == 0
    {
      this.begin, this.length, idx := begin, length, 0;
    }

    /** Consumes the current token and looks for the next one. */
    method Next()
      requires Ok() && code != ErrorData
      modifies this`idx, this`tokenSize, this`code, this`k, this`d
      ensures Ok() && idx == old(idx) + old(tokenSize)
      ensures code == InsufficientData ==>
                k == old(k) && d == old(d) && (k < |script| ==> length - idx < Need())
      ensures code == InsufficientData && k < |script| ==>
                var t := script[k];
                if t.code == BodyChunk then idx == length
                else length - idx < if t.code == Skip then t.size - d else t.size + t.look
      ensures code != InsufficientData ==>
                && old(k) < |script| && code == script[old(k)].code
                && var t := script[old(k)];
                   if InPieces(t.code) then
                     && 1 <= tokenSize <= t.size - old(d)
                     && (k, d) == if old(d) + tokenSize == t.size then (old(k) + 1, 0) else (old(k), old(d) + tokenSize)
                   else tokenSize == t.size && idx + t.size + t.look <= length && (k, d) == (old(k) + 1, 0)
    {
      hide WellFormed, PhaseAt, Follow, TokenOk;
      if code != InsufficientData {
        idx := idx + tokenSize;
        tokenSize := 0;
        code := InsufficientData;
      }
      if k == |script| {
        return;
      }
      var t, avail := script[k], length - idx;
      TokenAt(script, k);
      if InPieces(t.code) {
        var wait: bool := *;
        if avail == 0 || (t.code == Skip && avail < t.size - d && wait) {
          return;
        }
        var n :| 1 <= n <= avail && n <= t.size - d;
        code, tokenSize, d := t.code, n, d + n;
        if d == t.size {
          k, d := k + 1, 0;
        }
      } else if t.size + t.look <= avail {
        code, tokenSize, k := t.code, t.size, k + 1;
      }
    }
  }
}
