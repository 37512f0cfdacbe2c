/**
 * What the caller of the reader holds at the end of a request, in terms of the bytes of the
 * stream: each part of the record is the text of certain tokens.
 */
module RequestContents {
  import opened HeaderLists
  import opened RequestMeaning
  import opened Results
  import opened Text
  import opened Tokenizer

  // ---- texts of tokens ----

  /** The bytes of a token. */
  ghost function TokenText(f: Feed, i: nat): string
    requires InStream(f, i + 1, 0)
  {
    f.stream[Offset(f.script, f.base, i)..Offset(f.script, f.base, i + 1)]
  }

  /** The first token of the kind from the i-th on, or k if none comes before the k-th. */
  ghost function FirstOf(script: seq<Token>, c: Code, i: nat, k: nat): (m: nat)
    requires i <= k <= |script|
    ensures i <= m <= k && (m < k ==> script[m].code == c)
    decreases k - i
  {
    if i == k || script[i].code == c then i else FirstOf(script, c, i + 1, k)
  }

  /** The body: the texts of its chunks, one behind the other. */
  ghost function BodyText(f: Feed, i: nat, k: nat): string
    requires i <= k && InStream(f, k, 0)
    decreases k
  {
    if i == k then ""
    else BodyText(f, i, k - 1) + if f.script[k - 1].code == BodyChunk then TokenText(f, k - 1) else ""
  }

  /** The text of the last field name before the k-th token. */
  ghost function NameBefore(f: Feed, i: nat, k: nat): string
    requires i <= k && InStream(f, k, 0)
    decreases k
  {
    if i == k then ""
    else if f.script[k - 1].code == FieldName then TokenText(f, k - 1)
    else NameBefore(f, i, k - 1)
  }

  /** The fields as they stand in the stream: each value with the name before it. */
  ghost function FieldTexts(f: Feed, i: nat, k: nat): seq<Field>
    requires i <= k && InStream(f, k, 0)
    decreases k
  {
    if i == k then []
    else
      FieldTexts(f, i, k - 1)
      + if f.script[k - 1].code == FieldValue then [(NameBefore(f, i, k - 1), TokenText(f, k - 1))] else []
  }

  // ---- what is made of the fields ----

  /** Names in lower case and values without trailing blanks; an old peer's offers are left out. */
  ghost function Received(modern: bool, texts: seq<Field>): seq<Field> {
    if texts == [] then []
    else
      var (name, value) := texts[|texts| - 1];
      Received(modern, texts[..|texts| - 1])
      + if !modern && (Lower(name) == "expect" || Lower(name) == "upgrade") then []
        else [(Lower(name), DecodeFieldValue(value))]
  }

  /** The fields without those of a name. */
  ghost function Without(fields: seq<Field>, name: string): seq<Field> {
    if fields == [] then []
    else (if fields[0].0 == name then [] else [fields[0]]) + Without(fields[1..], name)
  }

  ghost predicate Repeated(fields: seq<Field>, name: string) {
    exists i, j :: 0 <= i < j < |fields| && fields[i].0 == name && fields[j].0 == name
  }

  ghost function OneExpect(fields: seq<Field>): seq<Field> {
    if Repeated(fields, "expect") then Without(fields, "expect") else fields
  }

  /** A value loses its trailing blanks, and no more; its first byte stays even if it is one. */
  lemma {:induction false} ValueDecoded(raw: string)
    ensures var v := DecodeFieldValue(raw);
            && v <= raw && (raw != "" ==> v != "")
            && (forall i :: |v| <= i < |raw| ==> raw[i] == ' ' || raw[i] == '\t')
            && (|v| > 1 ==> v[|v| - 1] != ' ' && v[|v| - 1] != '\t')
  {
    if |raw| > 1 && IsSpace(raw[|raw| - 1]) {
      ValueDecoded(raw[..|raw| - 1]);
    }
  }

  lemma {:induction false} ExpectsCounted(fields: seq<Field>)
    ensures Expects(fields) >= 1 <==> exists i :: 0 <= i < |fields| && fields[i].0 == "expect"
    ensures Expects(fields) > 1 <==> Repeated(fields, "expect")
    ensures WithoutExpect(fields) == Without(fields, "expect")
  {
    if fields != [] {
      var rest := fields[1..];
      ExpectsCounted(rest);
      assert forall i :: 0 <= i < |rest| ==> rest[i] == fields[i + 1];
      if Repeated(rest, "expect") {
        var i, j :| 0 <= i < j < |rest| && rest[i].0 == "expect" && rest[j].0 == "expect";
        assert fields[i + 1].0 == "expect" && fields[j + 1].0 == "expect";
      }
      if Repeated(fields, "expect") {
        var i, j :| 0 <= i < j < |fields| && fields[i].0 == "expect" && fields[j].0 == "expect";
        assert rest[j - 1].0 == "expect";
        if i > 0 {
          assert rest[i - 1].0 == "expect";
        }
      }
    }
  }

  // ---- where in the request the k-th token stands ----

  lemma FirstGrows(script: seq<Token>, c: Code, i: nat, k: nat)
    requires i <= k < |script|
    ensures FirstOf(script, c, i, k + 1) ==
            if FirstOf(script, c, i, k) < k then FirstOf(script, c, i, k)
            else if script[k].code == c then k else k + 1
  {
    hide FirstOf;
    FirstIs(script, c, i, k);
    FirstIs(script, c, i, k + 1);
    var m, n := FirstOf(script, c, i, k), FirstOf(script, c, i, k + 1);
    assert m < n ==> m == k;
  }

  lemma {:induction false} FirstIs(script: seq<Token>, c: Code, i: nat, k: nat)
    requires i <= k <= |script|
    ensures forall j :: i <= j < FirstOf(script, c, i, k) ==> script[j].code != c
    decreases k - i
  {
    if i < k && script[i].code != c {
      FirstIs(script, c, i + 1, k);
    }
  }

  /** Which of the tokens of a head have come, by the phase. */
  ghost predicate Come(ph: Phase, target: bool, version: bool, over: bool) {
    match ph
    case AfterMethod => !target && !version && !over
    case AfterTarget => target && !version && !over
    case Head => target && version && !over
    case HeadField => target && version && !over
    case _ => target && version && over
  }

  ghost predicate HeadCome(script: seq<Token>, k0: nat, k: nat)
    requires k0 < k <= |script|
  {
    && script[k0].code == Method
    && Come(PhaseAt(script, k), FirstOf(script, RequestTarget, k0, k) < k, FirstOf(script, Version, k0, k) < k,
            FirstOf(script, EndOfHeaders, k0, k) < k)
  }

  lemma ComeMoves(ph: Phase, c: Code, target: bool, version: bool, over: bool)
    requires Come(ph, target, version, over) && ph != Start && Follow(ph, c) != Dead
    ensures Come(Follow(ph, c), target || c == RequestTarget, version || c == Version, over || c == EndOfHeaders)
    ensures !(target && c == RequestTarget) && !(version && c == Version) && !(over && c == EndOfHeaders) && c != Method
  {
  }

  lemma HasCome(script: seq<Token>, c: Code, i: nat, k: nat)
    requires i <= k < |script|
    ensures FirstOf(script, c, i, k + 1) < k + 1 <==> FirstOf(script, c, i, k) < k || script[k].code == c
    ensures FirstOf(script, c, i, k) < k ==> FirstOf(script, c, i, k + 1) == FirstOf(script, c, i, k)
    ensures FirstOf(script, c, i, k) == k && script[k].code == c ==> FirstOf(script, c, i, k + 1) == k
  {
    FirstGrows(script, c, i, k);
  }

  /** From the start of a request on, the tokens of its head come in their order. */
  lemma {:induction false} HeadInOrder(script: seq<Token>, k0: nat, k: nat)
    requires k0 < k <= |script| && PhaseAt(script, k0) == Start && PhaseAt(script, k) != Dead
    requires forall i :: k0 < i < k ==> PhaseAt(script, i) != Start
    ensures HeadCome(script, k0, k)
    decreases k
  {
    hide FirstOf, Follow, Come;
    var c := script[k - 1].code;
    DeadStays(script, k - 1);
    HasCome(script, RequestTarget, k0, k - 1);
    HasCome(script, Version, k0, k - 1);
    HasCome(script, EndOfHeaders, k0, k - 1);
    if k == k0 + 1 {
      FirstToken(c);
      NoneYet(script, k0);
    } else {
      HeadInOrder(script, k0, k - 1);
      ComeMoves(PhaseAt(script, k - 1), c, FirstOf(script, RequestTarget, k0, k - 1) < k - 1,
                FirstOf(script, Version, k0, k - 1) < k - 1, FirstOf(script, EndOfHeaders, k0, k - 1) < k - 1);
    }
  }

  lemma FirstToken(c: Code)
    requires Follow(Start, c) != Dead
    ensures c == Method && Follow(Start, c) == AfterMethod && Come(AfterMethod, false, false, false)
  {
  }

  lemma NoneYet(script: seq<Token>, k0: nat)
    requires k0 <= |script|
    ensures forall c :: FirstOf(script, c, k0, k0) == k0
  {
  }

  /** Each token of the head comes once. */
  lemma {:induction false} OnceEach(script: seq<Token>, c: Code, k0: nat, k: nat, i: nat)
    requires k0 <= i < k <= |script| && PhaseAt(script, k0) == Start && PhaseAt(script, k) != Dead
    requires forall j :: k0 < j < k ==> PhaseAt(script, j) != Start
    requires script[i].code == c && c in {Method, RequestTarget, Version, EndOfHeaders}
    ensures i == FirstOf(script, c, k0, k)
    decreases k
  {
    hide FirstOf, Follow, Come;
    DeadStays(script, k - 1);
    HasCome(script, c, k0, k - 1);
    if i < k - 1 {
      OnceEach(script, c, k0, k - 1, i);
    } else if k0 < k - 1 {
      HeadInOrder(script, k0, k - 1);
      ComeMoves(PhaseAt(script, k - 1), c, FirstOf(script, RequestTarget, k0, k - 1) < k - 1,
                FirstOf(script, Version, k0, k - 1) < k - 1, FirstOf(script, EndOfHeaders, k0, k - 1) < k - 1);
    } else {
      NoneYet(script, k0);
    }
  }

  // ---- what the record holds there ----

  predicate BeforeFields(ph: Phase) {
    ph == AfterMethod || ph == AfterTarget
  }

  /** The texts of the tokens that have come; `name` is that of the last field. */
  datatype Texts = Texts(method': string, target: string, version: string, head: seq<Field>, tail: seq<Field>,
                         name: string, body: string)

  /** The record holds these texts behind a token that leads to the phase. */
  ghost predicate Parts(ph: Phase, r: Request, x: Texts) {
    && r.message.method' == x.method' && (r.connect <==> x.method' == "CONNECT")
    && (ph != AfterMethod ==> r.message.path == x.target)
    && (!BeforeFields(ph) ==> x.version != "" && (r.modern <==> x.version[0] > '0'))
    && r.message.body == x.body
    && (r.name.Some? <==> FieldOpen(ph)) && (FieldOpen(ph) ==> r.name == Some(Lower(x.name)))
    && (if InHead(ph) && ph != Start then
          && !r.useTrailers && x.body == "" && x.tail == [] && r.message.trailers == []
          && r.message.headers == Received(r.modern, x.head) && (BeforeFields(ph) ==> x.head == [])
        else
          && r.message.headers == OneExpect(Received(r.modern, x.head)) && r.message.trailers == Received(r.modern, x.tail)
          && (ph == Trailer || ph == TrailerField ==> r.useTrailers))
  }

  function Noted(ph: Phase, x: Texts, c: Code, bytes: string): Texts {
    match c
    case RequestTarget => x.(target := bytes)
    case Version => x.(version := bytes)
    case FieldName => x.(name := bytes)
    case FieldValue =>
      if ph == HeadField then x.(head := x.head + [(x.name, bytes)]) else x.(tail := x.tail + [(x.name, bytes)])
    case BodyChunk => x.(body := x.body + bytes)
    case _ => x
  }

  lemma PartsMove(ph: Phase, r: Request, x: Texts, c: Code, bytes: string)
    requires Parts(ph, r, x) && ph != Start && Follow(ph, c) != Dead && (c == Version ==> bytes != "")
    ensures Parts(Follow(ph, c), Apply(r, c, bytes), Noted(ph, x, c, bytes))
  {
    hide Parts;
    if c == FieldValue {
      PartsMoveValue(ph, r, x, bytes);
    } else if c == EndOfHeaders {
      PartsMoveHead(ph, r, x, bytes);
    } else {
      PartsMoveOther(ph, r, x, c, bytes);
    }
  }

  lemma PartsMoveOther(ph: Phase, r: Request, x: Texts, c: Code, bytes: string)
    requires Parts(ph, r, x) && ph != Start && Follow(ph, c) != Dead && (c == Version ==> bytes != "")
    requires c != FieldValue && c != EndOfHeaders
    ensures Parts(Follow(ph, c), Apply(r, c, bytes), Noted(ph, x, c, bytes))
  {
    hide Received, OneExpect, Lower, OnField;
    NoneReceived(true);
    NoneReceived(false);
  }

  lemma PartsMoveHead(ph: Phase, r: Request, x: Texts, bytes: string)
    requires Parts(ph, r, x) && ph != Start && Follow(ph, EndOfHeaders) != Dead
    ensures Parts(Follow(ph, EndOfHeaders), Apply(r, EndOfHeaders, bytes), x)
  {
    hide Received, OneExpect, Lower, OnField, SingleExpect, AtEndOfHeaders;
    SingleIsOne(r.message.headers);
    NoneReceived(r.modern);
  }

  lemma PartsMoveValue(ph: Phase, r: Request, x: Texts, bytes: string)
    requires Parts(ph, r, x) && Follow(ph, FieldValue) != Dead
    ensures Parts(Follow(ph, FieldValue), Apply(r, FieldValue, bytes), Noted(ph, x, FieldValue, bytes))
  {
    hide Received, OneExpect, Lower, OnField, DecodeFieldValue;
    FieldReceived(r, if ph == HeadField then x.head else x.tail, x.name, bytes);
  }

  lemma NoneReceived(modern: bool)
    ensures Received(modern, []) == []
  {
  }

  lemma SingleIsOne(fields: seq<Field>)
    ensures SingleExpect(fields) == OneExpect(fields)
  {
    ExpectsCounted(fields);
  }

  lemma FieldReceived(r: Request, texts: seq<Field>, name: string, bytes: string)
    ensures var r', field := OnField(r, Lower(name), DecodeFieldValue(bytes)), [(name, bytes)];
            && r' == r.(name := None, keepAlive := r'.keepAlive, message := r'.message)
            && (r.message.headers == Received(r.modern, texts) && !r.useTrailers ==>
                  r'.message == r.message.(headers := Received(r.modern, texts + field)))
            && (r.message.trailers == Received(r.modern, texts) && r.useTrailers ==>
                  r'.message == r.message.(trailers := Received(r.modern, texts + field)))
  {
    hide Lower, DecodeFieldValue, OnConnection;
    var all := texts + [(name, bytes)];
    assert all[..|all| - 1] == texts;
    assert forall fields: seq<Field> :: fields + [] == fields;
  }

  lemma {:induction false} Earlier(f: Feed, i: nat, k: nat)
    requires i <= k && InStream(f, k, 0)
    ensures InStream(f, i, 0)
    decreases k
  {
    if i < k {
      Earlier(f, i, k - 1);
    }
  }

  /** The text of the first token of the kind, if there is one. */
  ghost function FirstText(f: Feed, c: Code, i: nat, k: nat): string
    requires i <= k && InStream(f, k, 0)
  {
    var m := FirstOf(f.script, c, i, k);
    if m < k then (Earlier(f, m + 1, k); TokenText(f, m)) else ""
  }

  lemma FirstTextGrows(f: Feed, c: Code, i: nat, k: nat)
    requires i < k && InStream(f, k, 0)
    ensures InStream(f, k - 1, 0)
    ensures FirstText(f, c, i, k) ==
            if FirstOf(f.script, c, i, k - 1) == k - 1 && f.script[k - 1].code == c then TokenText(f, k - 1)
            else FirstText(f, c, i, k - 1)
  {
    hide FirstOf, TokenText;
    HasCome(f.script, c, i, k - 1);
  }

  /** The fields of the head and of the trailers, and the last name, when the headers end with the e-th token. */
  ghost function FieldsAround(f: Feed, k0: nat, e: nat, k: nat): (seq<Field>, seq<Field>, string)
    requires k0 <= e <= k && InStream(f, k, 0)
  {
    Earlier(f, e, k);
    (FieldTexts(f, k0, e), FieldTexts(f, e, k), NameBefore(f, if e < k then e else k0, k))
  }

  lemma FieldsGrow(f: Feed, k0: nat, k: nat)
    requires k0 < k && InStream(f, k, 0)
    requires f.script[k - 1].code == EndOfHeaders ==> FirstOf(f.script, EndOfHeaders, k0, k - 1) == k - 1
    ensures InStream(f, k - 1, 0)
    ensures var c, e := f.script[k - 1].code, FirstOf(f.script, EndOfHeaders, k0, k - 1);
            var (head, tail, name) := FieldsAround(f, k0, e, k - 1);
            var field := if c == FieldValue then [(name, TokenText(f, k - 1))] else [];
            FieldsAround(f, k0, FirstOf(f.script, EndOfHeaders, k0, k), k) ==
              if c == EndOfHeaders then (head, [], "")
              else
                (if e == k - 1 then head + field else head, if e == k - 1 then [] else tail + field,
                 if c == FieldName then TokenText(f, k - 1) else name)
  {
    hide FirstOf, TokenText, FieldTexts, NameBefore;
    HasCome(f.script, EndOfHeaders, k0, k - 1);
    var e := FirstOf(f.script, EndOfHeaders, k0, k - 1);
    assert forall fields: seq<Field> :: fields + [] == fields;
    OneMoreText(f, k0, k);
    if e < k - 1 {
      OneMoreText(f, e, k);
    } else if f.script[k - 1].code == EndOfHeaders {
      OneMoreText(f, e, k);
      assert FieldTexts(f, e, e) == [] && NameBefore(f, e, e) == "" by { NoTexts(f, e); }
    } else {
      NoTexts(f, k);
    }
  }

  lemma NoTexts(f: Feed, i: nat)
    requires InStream(f, i, 0)
    ensures FieldTexts(f, i, i) == [] && NameBefore(f, i, i) == "" && BodyText(f, i, i) == ""
  {
  }

  lemma OneMoreText(f: Feed, i: nat, k: nat)
    requires i < k && InStream(f, k, 0)
    ensures InStream(f, k - 1, 0)
    ensures FieldTexts(f, i, k) == FieldTexts(f, i, k - 1)
            + if f.script[k - 1].code == FieldValue then [(NameBefore(f, i, k - 1), TokenText(f, k - 1))] else []
    ensures NameBefore(f, i, k) == if f.script[k - 1].code == FieldName then TokenText(f, k - 1) else NameBefore(f, i, k - 1)
  {
    hide TokenText;
  }

  /** The texts of the tokens from the k0-th up to the k-th. */
  ghost function TextsOf(f: Feed, k0: nat, k: nat): Texts
    requires k0 < k && InStream(f, k, 0)
  {
    Earlier(f, k0 + 1, k);
    var (head, tail, name) := FieldsAround(f, k0, FirstOf(f.script, EndOfHeaders, k0, k), k);
    Texts(TokenText(f, k0), FirstText(f, RequestTarget, k0, k), FirstText(f, Version, k0, k), head, tail, name,
          BodyText(f, k0, k))
  }

  /** In which phase a token of the head or a field comes. */
  lemma CameMoves(script: seq<Token>, k0: nat, k: nat)
    requires k0 < k < |script| && HeadCome(script, k0, k) && PhaseAt(script, k) != Start && PhaseAt(script, k + 1) != Dead
    ensures var c := script[k].code;
            && (c in {RequestTarget, Version, EndOfHeaders} ==> FirstOf(script, c, k0, k) == k)
            && (c == FieldValue ==> (PhaseAt(script, k) == HeadField <==> FirstOf(script, EndOfHeaders, k0, k) == k))
  {
    hide FirstOf;
    ComeMoves(PhaseAt(script, k), script[k].code, FirstOf(script, RequestTarget, k0, k) < k,
              FirstOf(script, Version, k0, k) < k, FirstOf(script, EndOfHeaders, k0, k) < k);
  }

  lemma NoTail(f: Feed, k0: nat, k: nat)
    requires k0 <= k && InStream(f, k, 0)
    ensures FieldsAround(f, k0, k, k).1 == []
  {
  }

  lemma BodyGrows(f: Feed, i: nat, k: nat)
    requires i < k && InStream(f, k, 0)
    ensures InStream(f, k - 1, 0)
    ensures BodyText(f, i, k) == BodyText(f, i, k - 1) + if f.script[k - 1].code == BodyChunk then TokenText(f, k - 1) else ""
  {
    hide TokenText;
  }

  lemma TextsGrow(f: Feed, k0: nat, k: nat)
    requires k0 < k - 1 && InStream(f, k, 0) && PhaseAt(f.script, k - 1) != Start && PhaseAt(f.script, k) != Dead
    requires HeadCome(f.script, k0, k - 1)
    ensures InStream(f, k - 1, 0)
    ensures var c, x := f.script[k - 1].code, Noted(PhaseAt(f.script, k - 1), TextsOf(f, k0, k - 1), f.script[k - 1].code,
                                                    TokenText(f, k - 1));
            TextsOf(f, k0, k) == if c == EndOfHeaders then x.(name := "") else x
  {
    hide FirstOf, TokenText, PhaseAt, HeadCome, FirstText, FieldsAround, Follow, BodyText, InStream, Offset, Noted;
    EarlierOne(f, k);
    CameMoves(f.script, k0, k - 1);
    FirstTextGrows(f, RequestTarget, k0, k);
    FirstTextGrows(f, Version, k0, k);
    FieldsGrow(f, k0, k);
    BodyGrows(f, k0, k);
    if FirstOf(f.script, EndOfHeaders, k0, k - 1) == k - 1 {
      NoTail(f, k0, k - 1);
    }
    Assembled(PhaseAt(f.script, k - 1), TextsOf(f, k0, k - 1), f.script[k - 1].code, TokenText(f, k - 1),
              FirstOf(f.script, EndOfHeaders, k0, k - 1) == k - 1, TextsOf(f, k0, k));
  }

  lemma Assembled(ph: Phase, x: Texts, c: Code, bytes: string, open: bool, x': Texts)
    requires x'.method' == x.method' && x'.target == (if c == RequestTarget then bytes else x.target)
    requires x'.version == (if c == Version then bytes else x.version)
    requires x'.body == x.body + if c == BodyChunk then bytes else ""
    requires (c == FieldValue ==> (ph == HeadField <==> open)) && (open ==> x.tail == []) && (c == EndOfHeaders ==> open)
    requires var field := if c == FieldValue then [(x.name, bytes)] else [];
             (x'.head, x'.tail, x'.name) ==
               if c == EndOfHeaders then (x.head, [], "")
               else
                 (if open then x.head + field else x.head, if open then [] else x.tail + field,
                  if c == FieldName then bytes else x.name)
    ensures x' == if c == EndOfHeaders then Noted(ph, x, c, bytes).(name := "") else Noted(ph, x, c, bytes)
  {
    assert x.body + "" == x.body && x.head + [] == x.head && x.tail + [] == x.tail;
  }

  lemma EarlierOne(f: Feed, k: nat)
    requires 0 < k && InStream(f, k, 0)
    ensures k <= |f.script| && InStream(f, k - 1, 0)
  {
  }

  lemma OneToken(f: Feed, k0: nat, r0: Request, k: nat)
    requires k0 < k && InStream(f, k, 0)
    ensures InStream(f, k - 1, 0)
    ensures Meaning(f, k0, r0, k, 0) == Apply(Meaning(f, k0, r0, k - 1, 0), f.script[k - 1].code, TokenText(f, k - 1))
    ensures PhaseAt(f.script, k) == Follow(PhaseAt(f.script, k - 1), f.script[k - 1].code)
    ensures |TokenText(f, k - 1)| == f.script[k - 1].size
  {
    hide Apply, Follow;
  }

  /** At every token of a request the record holds the texts of the tokens that have come. */
  lemma {:induction false} PartsHold(f: Feed, k0: nat, r0: Request, k: nat)
    requires WellFormed(f.script) && k0 < k && InStream(f, k, 0) && Opened(r0)
    requires PhaseAt(f.script, k0) == Start && PhaseAt(f.script, k) != Dead
    requires forall i :: k0 < i < k ==> PhaseAt(f.script, i) != Start
    ensures HeadCome(f.script, k0, k)
    ensures Parts(PhaseAt(f.script, k), Meaning(f, k0, r0, k, 0), TextsOf(f, k0, k))
    decreases k
  {
    hide WellFormed, Apply, Follow, PhaseAt, Meaning, Offset, TokenText, TextsOf, Parts, HeadCome, InStream, Noted, Opened;
    EarlierOne(f, k);
    DeadStays(f.script, k - 1);
    HeadInOrder(f.script, k0, k);
    OneToken(f, k0, r0, k);
    PhaseMoves(f.script, k - 1);
    if k == k0 + 1 {
      FirstToken(f.script[k0].code);
      FirstPart(f, k0, r0);
    } else {
      PartsHold(f, k0, r0, k - 1);
      TextsGrow(f, k0, k);
      PartsMove(PhaseAt(f.script, k - 1), Meaning(f, k0, r0, k - 1, 0), TextsOf(f, k0, k - 1), f.script[k - 1].code,
                TokenText(f, k - 1));
      NameDone(PhaseAt(f.script, k - 1), f.script[k - 1].code, Meaning(f, k0, r0, k, 0),
               Noted(PhaseAt(f.script, k - 1), TextsOf(f, k0, k - 1), f.script[k - 1].code, TokenText(f, k - 1)));
    }
  }

  lemma NameDone(ph: Phase, c: Code, r: Request, x: Texts)
    requires Follow(ph, c) != Dead && Parts(Follow(ph, c), r, x)
    ensures c == EndOfHeaders ==> Parts(Follow(ph, c), r, x.(name := ""))
  {
  }

  lemma FirstPart(f: Feed, k0: nat, r0: Request)
    requires InStream(f, k0 + 1, 0) && Opened(r0) && f.script[k0].code == Method
    ensures Meaning(f, k0, r0, k0, 0) == r0
    ensures Parts(AfterMethod, Apply(r0, Method, TokenText(f, k0)), TextsOf(f, k0, k0 + 1))
  {
    hide TokenText, InStream, Offset, Lower, OneExpect, FirstOf, FieldTexts, NameBefore, BodyText, Received;
    EarlierOne(f, k0 + 1);
    NoneYet(f.script, k0);
    HasCome(f.script, EndOfHeaders, k0, k0);
    NoTexts(f, k0);
    OneMoreText(f, k0, k0 + 1);
    NoTexts(f, k0 + 1);
    BodyGrows(f, k0, k0 + 1);
    NoneReceived(r0.modern);
  }

  /** The record is that of a request that is over, part by part. */
  ghost predicate Contains(f: Feed, k0: nat, k: nat, told: Request) {
    && k0 < k && InStream(f, k, 0)
    && var target, version, over := FirstOf(f.script, RequestTarget, k0, k), FirstOf(f.script, Version, k0, k),
                                    FirstOf(f.script, EndOfHeaders, k0, k);
       && f.script[k0].code == Method && target < k && version < k && over < k
       && InStream(f, k0 + 1, 0) && InStream(f, target + 1, 0) && InStream(f, version + 1, 0) && InStream(f, over, 0)
       && told.message.method' == TokenText(f, k0) && (told.connect <==> TokenText(f, k0) == "CONNECT")
       && told.message.path == TokenText(f, target)
       && |TokenText(f, version)| == 1 && (told.modern <==> TokenText(f, version)[0] > '0')
       && told.message.headers == OneExpect(Received(told.modern, FieldTexts(f, k0, over)))
       && told.message.trailers == Received(told.modern, FieldTexts(f, over, k))
       && told.message.body == BodyText(f, k0, k)
  }

  /**
   * At the end of a request the record holds the text of its method, target and version token,
   * the texts of its fields up to and behind the end of the headers, and those of its body.
   */
  lemma EndContains(f: Feed, k0: nat, r0: Request, k: nat)
    requires WellFormed(f.script) && k0 < k && InStream(f, k, 0) && Opened(r0)
    requires PhaseAt(f.script, k0) == Start && PhaseAt(f.script, k) == Start
    requires forall i :: k0 < i < k ==> PhaseAt(f.script, i) != Start
    ensures Contains(f, k0, k, Meaning(f, k0, r0, k, 0))
  {
    hide Meaning, TokenText, PhaseAt, Received, OneExpect, FirstOf, Opened, Offset, FieldTexts, BodyText, WellFormed;
    PartsHold(f, k0, r0, k);
    var target, version, over := FirstOf(f.script, RequestTarget, k0, k), FirstOf(f.script, Version, k0, k),
                                 FirstOf(f.script, EndOfHeaders, k0, k);
    Earlier(f, k0 + 1, k);
    Earlier(f, target + 1, k);
    Earlier(f, version + 1, k);
    Earlier(f, over, k);
    VersionIsOne(f, version);
  }

  lemma VersionIsOne(f: Feed, i: nat)
    requires WellFormed(f.script) && InStream(f, i + 1, 0) && f.script[i].code == Version
    ensures |TokenText(f, i)| == 1
  {
    TokenAt(f.script, i);
  }
}
