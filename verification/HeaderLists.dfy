/**
 * Comma-separated header values: the scanner, its stateless twin, and the two stateful
 * predicates that the library runs through it (transfer codings and connection options).
 */
module HeaderLists {
  import opened Text

  // ---- what the elements of a list are ----

  predicate IsSpace(c: char) {
    c == ' ' || c == '\t'
  }

  function TrimLeft(s: string): string {
    if s != "" && IsSpace(s[0]) then TrimLeft(s[1..]) else s
  }

  function TrimRight(s: string): string {
    if s != "" && IsSpace(s[|s| - 1]) then TrimRight(s[..|s| - 1]) else s
  }

  function Trim(s: string): string {
    TrimRight(TrimLeft(s))
  }

  /** The non-empty trimmed pieces, in order. */
  function Clean(parts: seq<string>): seq<string> {
    if parts == [] then []
    else if Trim(parts[0]) == "" then Clean(parts[1..])
    else [Trim(parts[0])] + Clean(parts[1..])
  }

  /** The elements of a header value: split at commas, trim, drop what is empty. */
  function Elements(value: string): seq<string> {
    Clean(Split(value, ','))
  }

  /** Feeds `es` to a stateful predicate until it answers true. */
  function RunUntil<S>(p: (S, string) -> (S, bool), s: S, es: seq<string>): (S, bool) {
    if es == [] then (s, false)
    else
      var (s', stop) := p(s, es[0]);
      if stop then (s', true) else RunUntil(p, s', es[1..])
  }

  // ---- the scanner ----

  /** First index in [lo, hi) that holds no space, or hi. */
  function FindIfNotSpace(s: string, lo: nat, hi: nat): (i: nat)
    requires lo <= hi <= |s|
    ensures lo <= i <= hi
    decreases hi - lo
  {
    if lo < hi && IsSpace(s[lo]) then FindIfNotSpace(s, lo + 1, hi) else lo
  }

  /** One past the last index in [lo, hi) that holds no space, or lo. */
  function FindLastIfNotSpace(s: string, lo: nat, hi: nat): (i: nat)
    requires lo <= hi <= |s|
    ensures lo <= i <= hi
  {
    if lo < hi && IsSpace(s[hi - 1]) then FindLastIfNotSpace(s, lo, hi - 1) else hi
  }

  lemma {:induction false} TrimLeftFinds(s: string, lo: nat, hi: nat)
    requires lo <= hi <= |s|
    ensures s[FindIfNotSpace(s, lo, hi)..hi] == TrimLeft(s[lo..hi])
    decreases hi - lo
  {
    if lo < hi && IsSpace(s[lo]) {
      assert s[lo..hi][1..] == s[lo + 1..hi];
      TrimLeftFinds(s, lo + 1, hi);
    }
  }

  lemma {:induction false} TrimRightFinds(s: string, lo: nat, hi: nat)
    requires lo <= hi <= |s|
    ensures s[lo..FindLastIfNotSpace(s, lo, hi)] == TrimRight(s[lo..hi])
    decreases hi
  {
    if lo < hi && IsSpace(s[hi - 1]) {
      assert s[lo..hi][..hi - lo - 1] == s[lo..hi - 1];
      TrimRightFinds(s, lo, hi - 1);
    }
  }

  /** The elements still to come when the scanner stands at `comma`. */
  ghost function ElementsFrom(value: string, comma: nat): seq<string>
    requires comma <= |value|
  {
    Clean(SplitFrom(value, ',', comma))
  }

  lemma NoneAtEnd(value: string)
    ensures ElementsFrom(value, |value|) == []
  {
    assert value[|value|..|value|] == "";
    assert SplitFrom(value, ',', |value|) == [""];
    assert Clean([""]) == Clean([""][1..]);
  }

  /** What one round of the scanner finds. */
  lemma ScanStep(value: string, comma: nat)
    requires comma <= |value|
    ensures var next := Find(value, ',', comma);
            var begin := FindIfNotSpace(value, comma, next);
            var end := FindLastIfNotSpace(value, begin, next);
            var rest := ElementsFrom(value, if next == |value| then next else next + 1);
            ElementsFrom(value, comma) == if begin == end then rest else [value[begin..end]] + rest
  {
    var next := Find(value, ',', comma);
    TrimLeftFinds(value, comma, next);
    TrimRightFinds(value, FindIfNotSpace(value, comma, next), next);
    var piece := value[comma..next];
    if next == |value| {
      NoneAtEnd(value);
      assert SplitFrom(value, ',', comma) == [piece];
      assert Clean([piece][1..]) == [];
    } else {
      var rest := SplitFrom(value, ',', next + 1);
      assert SplitFrom(value, ',', comma) == [piece] + rest;
      assert ([piece] + rest)[1..] == rest;
    }
  }

  lemma RunFirst<S>(p: (S, string) -> (S, bool), s: S, e: string, es: seq<string>)
    ensures RunUntil(p, s, [e] + es) ==
            var (s', stop) := p(s, e); if stop then (s', true) else RunUntil(p, s', es)
  {
    assert ([e] + es)[1..] == es;
  }

  lemma RunNothing<S>(p: (S, string) -> (S, bool), s: S)
    ensures RunUntil(p, s, []) == (s, false)
  {
  }

  /**
   * Scans a header value and stops at the first element the predicate accepts.  The
   * predicate's captured variables are its state `s`.
   */
  method HeaderValueAnyOf<S>(value: string, p: (S, string) -> (S, bool), s0: S)
    returns (found: bool, s: S)
    ensures (s, found) == RunUntil(p, s0, Elements(value))
  {
    hide FindIfNotSpace, FindLastIfNotSpace, Find, Elements, ElementsFrom, RunUntil;
    ElementsAtFirst(value);
    var comma := 0;
    s := s0;
    while true
      invariant comma <= |value|
      invariant RunUntil(p, s0, Elements(value)) == RunUntil(p, s, ElementsFrom(value, comma))
      decreases |value| - comma
    {
      var nextComma := Find(value, ',', comma);
      var valueBegin := FindIfNotSpace(value, comma, nextComma);
      ScanStep(value, comma);
      if valueBegin != nextComma {
        var valueEnd := FindLastIfNotSpace(value, valueBegin, nextComma);
        if valueBegin != valueEnd {
          var (s', stop) := p(s, value[valueBegin..valueEnd]);
          RunFirst(p, s, value[valueBegin..valueEnd],
                   ElementsFrom(value, if nextComma == |value| then nextComma else nextComma + 1));
          s := s';
          if stop {
            return true, s;
          }
        }
      }
      comma := nextComma;
      if nextComma != |value| {
        comma := comma + 1;
      }
      if comma == |value| {
        NoneAtEnd(value);
        RunNothing(p, s);
        return false, s;
      }
    }
  }

  predicate AllHold(p: string -> bool, es: seq<string>) {
    forall e <- es :: p(e)
  }

  lemma AllHoldFirst(p: string -> bool, e: string, es: seq<string>)
    ensures AllHold(p, [e] + es) <==> p(e) && AllHold(p, es)
    ensures AllHold(p, [])
  {
    assert forall x :: x in [e] + es <==> x == e || x in es;
  }

  lemma AllHoldIs(p: string -> bool, es: seq<string>)
    ensures AllHold(p, es) <==> forall e <- es :: p(e)
  {
  }

  lemma ElementsAtFirst(value: string)
    ensures Elements(value) == ElementsFrom(value, 0)
  {
  }

  /** The twin loop for predicates without state. */
  method HeaderValueAllOf(value: string, p: string -> bool) returns (all: bool)
    ensures all <==> forall e <- Elements(value) :: p(e)
  {
    hide FindIfNotSpace, FindLastIfNotSpace, Find, Elements, ElementsFrom, AllHold;
    ElementsAtFirst(value);
    AllHoldIs(p, Elements(value));
    var comma := 0;
    while true
      invariant comma <= |value|
      invariant AllHold(p, Elements(value)) <==> AllHold(p, ElementsFrom(value, comma))
      decreases |value| - comma
    {
      var nextComma := Find(value, ',', comma);
      var valueBegin := FindIfNotSpace(value, comma, nextComma);
      ScanStep(value, comma);
      if valueBegin != nextComma {
        var valueEnd := FindLastIfNotSpace(value, valueBegin, nextComma);
        if valueBegin != valueEnd {
          AllHoldFirst(p, value[valueBegin..valueEnd],
                       ElementsFrom(value, if nextComma == |value| then nextComma else nextComma + 1));
          if !p(value[valueBegin..valueEnd]) {
            return false;
          }
        }
      }
      comma := nextComma;
      if nextComma != |value| {
        comma := comma + 1;
      }
      if comma == |value| {
        NoneAtEnd(value);
        AllHoldFirst(p, "", []);
        return true;
      }
    }
  }

  /** `header_value_none_of` is the twin loop with the answer of the predicate turned round. */
  method HeaderValueNoneOf(value: string, p: string -> bool) returns (none: bool)
    ensures none <==> forall e <- Elements(value) :: !p(e)
  {
    none := HeaderValueAllOf(value, s => !p(s));
  }

  /** For a predicate without state the two scanners are dual. */
  lemma {:induction false} AnyOfIsExists(p: string -> bool, es: seq<string>)
    ensures RunUntil<()>((s, e) => (s, p(e)), (), es).1 <==> exists e <- es :: p(e)
  {
    if es != [] {
      AnyOfIsExists(p, es[1..]);
      assert es == [es[0]] + es[1..];
    }
  }

  /** All elements satisfy p exactly if the scanner finds none that does not. */
  lemma {:induction false} AllOfIsNoneNot(p: string -> bool, es: seq<string>)
    ensures (forall e <- es :: p(e)) == !RunUntil<()>((s, e) => (s, !p(e)), (), es).1
  {
    if es != [] {
      AllOfIsNoneNot(p, es[1..]);
      assert es == [es[0]] + es[1..];
    }
  }

  /** On every value the two scanners are dual: all of p is not any of not p. */
  lemma AllOfIsDual(value: string, p: string -> bool)
    ensures (forall e <- Elements(value) :: p(e)) == !RunUntil<()>((s, e) => (s, !p(e)), (), Elements(value)).1
  {
    AllOfIsNoneNot(p, Elements(value));
  }

  /** Every element is non-empty, carries no outer space and no comma. */
  lemma {:induction false} CleanIsClean(parts: seq<string>)
    ensures forall e <- Clean(parts) :: e != "" && Trim(e) == e
  {
    if parts != [] {
      CleanIsClean(parts[1..]);
      TrimTwice(parts[0]);
    }
  }

  lemma {:induction false} TrimTwice(s: string)
    ensures Trim(Trim(s)) == Trim(s)
  {
    var l := TrimLeft(s);
    LeftTrimmed(s);
    RightTrimmed(l);
    var t := TrimRight(l);
    if t != "" { assert t[0] == l[0]; }
  }

  lemma {:induction false} LeftTrimmed(s: string)
    ensures TrimLeft(s) != "" ==> !IsSpace(TrimLeft(s)[0])
  {
    if s != "" && IsSpace(s[0]) { LeftTrimmed(s[1..]); }
  }

  lemma {:induction false} RightTrimmed(s: string)
    ensures TrimRight(s) <= s
    ensures TrimRight(s) != "" ==> !IsSpace(TrimRight(s)[|TrimRight(s)| - 1])
  {
    if s != "" && IsSpace(s[|s| - 1]) { RightTrimmed(s[..|s| - 1]); }
  }

  lemma {:induction false} CleanKeeps(es: seq<string>)
    requires forall k :: 0 <= k < |es| ==> es[k] != "" && Trim(es[k]) == es[k]
    ensures Clean(es) == es
  {
    if es != [] { CleanKeeps(es[1..]); }
  }

  /** A list written with commas is read back, whatever its elements are. */
  lemma ElementsOfJoined(es: seq<string>)
    requires forall k :: 0 <= k < |es| ==> es[k] != "" && Trim(es[k]) == es[k] && Free(es[k], ',')
    ensures Elements(Join(es, ',')) == es
  {
    if es == [] {
      NoneAtEnd("");
    } else {
      SplitJoin(es, ',');
      CleanKeeps(es);
    }
  }

  /** An element with blanks and tabs around it. */
  datatype Padded = Padded(before: string, element: string, behind: string)

  ghost predicate Blank(s: string) {
    forall k :: 0 <= k < |s| ==> s[k] == ' ' || s[k] == '\t'
  }

  ghost predicate WellPadded(p: Padded) {
    && Blank(p.before) && Blank(p.behind) && Free(p.element, ',')
    && (p.element != "" ==> !Blank([p.element[0]]) && !Blank([p.element[|p.element| - 1]]))
  }

  function PaddedTexts(ps: seq<Padded>): seq<string> {
    if ps == [] then [] else [ps[0].before + ps[0].element + ps[0].behind] + PaddedTexts(ps[1..])
  }

  function ElementsIn(ps: seq<Padded>): seq<string> {
    if ps == [] then [] else (if ps[0].element == "" then [] else [ps[0].element]) + ElementsIn(ps[1..])
  }

  lemma {:induction false} LeftPadding(before: string, s: string)
    requires Blank(before) && (s != "" ==> !IsSpace(s[0]))
    ensures TrimLeft(before + s) == s
  {
    if before == "" {
      assert before + s == s;
    } else {
      LeftPadding(before[1..], s);
      assert (before + s)[1..] == before[1..] + s;
    }
  }

  lemma {:induction false} RightPadding(s: string, behind: string)
    requires Blank(behind) && (s != "" ==> !IsSpace(s[|s| - 1]))
    ensures TrimRight(s + behind) == s
  {
    if behind == "" {
      assert s + behind == s;
    } else {
      RightPadding(s, behind[..|behind| - 1]);
      assert (s + behind)[..|s + behind| - 1] == s + behind[..|behind| - 1];
    }
  }

  lemma TrimPadded(p: Padded)
    requires WellPadded(p)
    ensures Trim(p.before + p.element + p.behind) == p.element
  {
    hide TrimLeft, TrimRight;
    if p.element == "" {
      var all := p.before + p.behind;
      assert p.before + p.element + p.behind == all + "";
      LeftPadding(all, "");
      RightPadding("", "");
      assert "" + "" == "";
    } else {
      assert !Blank([p.element[0]]) ==> !IsSpace(p.element[0]);
      assert p.before + p.element + p.behind == p.before + (p.element + p.behind);
      LeftPadding(p.before, p.element + p.behind);
      RightPadding(p.element, p.behind);
    }
  }

  lemma {:induction false} CleanPadded(ps: seq<Padded>)
    requires forall k :: 0 <= k < |ps| ==> WellPadded(ps[k])
    ensures Clean(PaddedTexts(ps)) == ElementsIn(ps)
    ensures |PaddedTexts(ps)| == |ps| && forall k :: 0 <= k < |ps| ==> Free(PaddedTexts(ps)[k], ',')
    decreases ps
  {
    hide WellPadded, Trim, IsSpace;
    if ps != [] {
      CleanPadded(ps[1..]);
      TrimPadded(ps[0]);
      PaddedFree(ps[0]);
    }
  }

  lemma PaddedFree(p: Padded)
    requires WellPadded(p)
    ensures Free(p.before + p.element + p.behind, ',')
  {
  }

  /** Blanks and tabs around the elements are not read, nor are elements that are empty. */
  lemma ElementsOfPadded(ps: seq<Padded>)
    requires ps != [] && forall k :: 0 <= k < |ps| ==> WellPadded(ps[k])
    ensures Elements(Join(PaddedTexts(ps), ',')) == ElementsIn(ps)
  {
    hide WellPadded, Clean;
    CleanPadded(ps);
    SplitJoin(PaddedTexts(ps), ',');
  }

  // ---- transfer codings ----

  datatype Coding = ChunkedNotFound | ChunkedAtEnd | ChunkedInvalid

  datatype CodingState = CodingState(count: nat, res: Coding)

  predicate IsChunked(e: string) {
    EqualsIgnoringCase(e, "chunked")
  }

  function CodingStep(s: CodingState, e: string): (CodingState, bool) {
    if !IsChunked(e) then
      if s.count == 1 then (s.(res := ChunkedInvalid), true) else (s, false)
    else if s.count + 1 == 2 then (CodingState(2, ChunkedInvalid), true)
    else (CodingState(s.count + 1, ChunkedAtEnd), false)
  }

  /** The predicate object: it counts the chunked codings and keeps the verdict so far. */
  class DecodeTransferEncodingP {
    var count: nat
    var res: Coding

    constructor ()
      ensures CodingState(count, res) == CodingState(0, ChunkedNotFound)
    {
      count, res := 0, ChunkedNotFound;
    }

    method Call(v: string) returns (stop: bool)
      modifies this
      ensures (CodingState(count, res), stop) == CodingStep(old(CodingState(count, res)), v)
    {
      if !EqualsIgnoringCase(v, "chunked") {
        if count == 1 {
          res := ChunkedInvalid;
          return true;
        }
        return false;
      }
      count := count + 1;
      if count == 2 {
        res := ChunkedInvalid;
        return true;
      }
      res := ChunkedAtEnd;
      return false;
    }
  }

  /** Section 3.3.1 of RFC 7230: at most one "chunked", and nothing after it. */
  ghost function Classify(es: seq<string>): Coding {
    if forall e <- es :: !IsChunked(e) then ChunkedNotFound
    else if IsChunked(es[|es| - 1]) && forall k :: 0 <= k < |es| - 1 ==> !IsChunked(es[k]) then ChunkedAtEnd
    else ChunkedInvalid
  }

  method DecodeTransferEncoding(field: string) returns (res: Coding)
    ensures res == Classify(Elements(field))
  {
    var stopped, s := HeaderValueAnyOf(field, CodingStep, CodingState(0, ChunkedNotFound));
    CodingsClassified(Elements(field));
    res := s.res;
  }

  lemma {:induction false} CodingsClassified(es: seq<string>)
    ensures RunUntil(CodingStep, CodingState(0, ChunkedNotFound), es).0.res == Classify(es)
  {
    hide IsChunked, Classify;
    if es == [] {
      ClassifyNone();
    } else {
      var rest := es[1..];
      assert es == [es[0]] + rest;
      ClassifyFirst(es[0], rest);
      RunFirst(CodingStep, CodingState(0, ChunkedNotFound), es[0], rest);
      if !IsChunked(es[0]) {
        CodingsClassified(rest);
      } else if rest != [] {
        RunFirst(CodingStep, CodingState(1, ChunkedAtEnd), rest[0], rest[1..]);
        assert rest == [rest[0]] + rest[1..];
      }
    }
  }

  lemma ClassifyNone()
    ensures Classify([]) == ChunkedNotFound
  {
  }

  lemma ClassifyFirst(e: string, rest: seq<string>)
    ensures Classify([e] + rest) ==
            if !IsChunked(e) then Classify(rest) else if rest == [] then ChunkedAtEnd else ChunkedInvalid
  {
    hide IsChunked, Classify;
    if IsChunked(e) {
      ChunkedComesFirst(e, rest);
    } else {
      OtherComesFirst(e, rest);
    }
  }

  lemma ChunkedComesFirst(e: string, rest: seq<string>)
    requires IsChunked(e)
    ensures Classify([e] + rest) == if rest == [] then ChunkedAtEnd else ChunkedInvalid
  {
    hide IsChunked;
    var es := [e] + rest;
    assert es[0] == e && e in es;
  }

  lemma OtherComesFirst(e: string, rest: seq<string>)
    requires !IsChunked(e)
    ensures Classify([e] + rest) == Classify(rest)
  {
    hide IsChunked;
    var es := [e] + rest;
    assert forall x :: x in es <==> x == e || x in rest;
    if rest != [] {
      assert es[|es| - 1] == rest[|rest| - 1] && rest[|rest| - 1] in rest;
      NoneBefore(e, rest);
    }
  }

  lemma NoneBefore(e: string, rest: seq<string>)
    requires !IsChunked(e) && rest != []
    ensures (forall k :: 0 <= k < |[e] + rest| - 1 ==> !IsChunked(([e] + rest)[k]))
            <==> (forall k :: 0 <= k < |rest| - 1 ==> !IsChunked(rest[k]))
  {
    hide IsChunked;
    var es := [e] + rest;
    if forall k :: 0 <= k < |es| - 1 ==> !IsChunked(es[k]) {
      forall k | 0 <= k < |rest| - 1
        ensures !IsChunked(rest[k])
      {
        assert es[k + 1] == rest[k];
      }
    }
  }

  // ---- the connection options ----

  datatype KeepAlive = Unknown | CloseRead | KeepAliveRead

  predicate SaysClose(e: string) {
    EqualsIgnoringCase(e, "close")
  }

  predicate SaysKeepAlive(e: string) {
    EqualsIgnoringCase(e, "keep-alive")
  }

  function ConnectionStep(k: KeepAlive, e: string): (KeepAlive, bool) {
    if SaysClose(e) then (CloseRead, true)
    else if SaysKeepAlive(e) then (KeepAliveRead, false)
    else (k, false)
  }

  /** What one "connection" header does to the decision. */
  function OnConnection(k: KeepAlive, value: string): KeepAlive {
    match k
    case CloseRead => k
    case _ => RunUntil(ConnectionStep, k, Elements(value)).0
  }

  /** The decision after all "connection" headers, in any number and order. */
  function AfterConnections(k: KeepAlive, values: seq<string>): KeepAlive
    decreases values
  {
    if values == [] then k else AfterConnections(OnConnection(k, values[0]), values[1..])
  }

  /** What is decided at the end of the headers. */
  function AtEndOfHeaders(k: KeepAlive, modern: bool): KeepAlive {
    if k == Unknown then if modern then KeepAliveRead else CloseRead else k
  }

  ghost predicate SomeElement(values: seq<string>, p: string -> bool) {
    exists i :: 0 <= i < |values| && exists e <- Elements(values[i]) :: p(e)
  }

  lemma {:induction false} OneConnection(k: KeepAlive, es: seq<string>)
    ensures RunUntil(ConnectionStep, k, es).0 ==
            if exists e <- es :: SaysClose(e) then CloseRead
            else if exists e <- es :: SaysKeepAlive(e) then KeepAliveRead
            else k
    decreases es
  {
    if es != [] {
      assert es == [es[0]] + es[1..];
      OneConnection(ConnectionStep(k, es[0]).0, es[1..]);
    }
  }

  lemma {:induction false} Connections(k: KeepAlive, values: seq<string>)
    ensures AfterConnections(k, values) ==
            if k == CloseRead || SomeElement(values, SaysClose) then CloseRead
            else if SomeElement(values, SaysKeepAlive) then KeepAliveRead
            else k
    decreases values
  {
    if values != [] {
      var rest := values[1..];
      OneConnection(k, Elements(values[0]));
      Connections(OnConnection(k, values[0]), rest);
      assert forall i :: 1 <= i < |values| ==> values[i] == rest[i - 1];
      assert forall i :: 0 <= i < |rest| ==> rest[i] == values[i + 1];
    }
  }

  /**
   * Section 6.3 of RFC 7230: "close" wins wherever it stands, then "keep-alive", then the
   * version decides.
   */
  lemma KeepAliveDecision(values: seq<string>, modern: bool)
    ensures AtEndOfHeaders(AfterConnections(Unknown, values), modern) ==
            if SomeElement(values, SaysClose) then CloseRead
            else if SomeElement(values, SaysKeepAlive) then KeepAliveRead
            else if modern then KeepAliveRead else CloseRead
  {
    Connections(Unknown, values);
  }

  lemma CloseIsElement()
    ensures Elements("close") == ["close"] && SaysClose("close")
  {
    var es := ["close"];
    assert Join(es, ',') == "close";
    assert TrimLeft("close") == "close" && TrimRight("close") == "close";
    ElementsOfJoined(es);
  }

  /** The tokens that decide, and the coding that is looked for, in any case. */
  lemma TokensRead(e: string, k: KeepAlive)
    requires e != "" && Trim(e) == e && Free(e, ',')
    ensures Lower(e) == "close" ==> OnConnection(k, e) == CloseRead
    ensures Lower(e) == "keep-alive" && k != CloseRead ==> OnConnection(k, e) == KeepAliveRead
    ensures Lower(e) == "chunked" ==> Classify(Elements(e)) == ChunkedAtEnd
    ensures Lower(e) != "close" && Lower(e) != "keep-alive" ==> OnConnection(k, e) == k
    ensures Lower(e) != "chunked" ==> Classify(Elements(e)) == ChunkedNotFound
  {
    hide Elements, Trim, Lower, RunUntil;
    var es := [e];
    assert Join(es, ',') == e;
    ElementsOfJoined(es);
    OneConnection(k, es);
    LowerTokens();
    assert e in es && forall x <- es :: x == e;
    assert SaysClose(e) <==> Lower(e) == "close";
    assert SaysKeepAlive(e) <==> Lower(e) == "keep-alive";
    assert IsChunked(e) <==> Lower(e) == "chunked";
    assert |"close"| != |"keep-alive"|;
  }

  lemma LowerTokens()
    ensures Lower("close") == "close" && Lower("keep-alive") == "keep-alive" && Lower("chunked") == "chunked"
  {
  }

  lemma CloseMoves(k: KeepAlive)
    ensures OnConnection(k, "close") == CloseRead
  {
    CloseIsElement();
    OneConnection(k, Elements("close"));
  }
}
