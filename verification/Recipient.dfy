/** A recipient of responses after sections 3.1 to 3.3 of RFC 7230, and what it reads of a head. */
module Recipient {
  import opened Chunked
  import opened HeaderLists
  import opened Numbers
  import opened Results
  import opened Text

  type Field = (string, string)

  datatype Head = Head(modern: bool, status: nat, reason: string, fields: seq<Field>)

  datatype Reply = Reply(head: Head, body: string, trailers: seq<Field>, rest: string)

  // ---- reading ----

  /** HTTP-version SP three digits SP reason-phrase */
  function ReadStatus(line: string): Option<(bool, nat, string)> {
    if |line| < 13 || line[8] != ' ' || line[12] != ' ' || !AllDigits(line[9..12]) then None
    else if line[..8] == "HTTP/1.1" then Some((true, Val(line[9..12]), line[13..]))
    else if line[..8] == "HTTP/1.0" then Some((false, Val(line[9..12]), line[13..]))
    else None
  }

  /** field-name ":" OWS field-value OWS */
  function ReadField(line: string): Option<Field> {
    var colon := Find(line, ':', 0);
    if colon == 0 || colon == |line| then None else Some((line[..colon], Trim(line[colon + 1..])))
  }

  function ReadFields(lines: seq<string>): Option<seq<Field>> {
    if lines == [] then Some([])
    else
      match (ReadField(lines[0]), ReadFields(lines[1..]))
      case (Some(f), Some(fields)) => Some([f] + fields)
      case _ => None
  }

  /** The status line and the fields up to the empty line, and what follows. */
  function ReadHead(s: string): Option<(Head, string)> {
    match Line(s)
    case None => None
    case Some((line, rest)) =>
      match (ReadStatus(line), Trailers(rest))
      case (Some((modern, status, reason)), Some((lines, rest'))) =>
        (match ReadFields(lines)
         case None => None
         case Some(fields) => Some((Head(modern, status, reason, fields), rest')))
      case _ => None
  }

  /** The values of the fields of a name, which is in lower case. */
  function ValuesOf(fields: seq<Field>, name: string): seq<string> {
    if fields == [] then []
    else (if Lower(fields[0].0) == name then [fields[0].1] else []) + ValuesOf(fields[1..], name)
  }

  /** Section 3.3.3; `connect` when the request was a CONNECT.  A body that lasts until the end takes all. */
  function ReadReply(connect: bool, s: string): Option<Reply> {
    match ReadHead(s)
    case None => None
    case Some((head, rest)) =>
      var codings, lengths := ValuesOf(head.fields, "transfer-encoding"), ValuesOf(head.fields, "content-length");
      if 100 <= head.status < 200 || head.status == 204 || head.status == 304 || (connect && 200 <= head.status < 300) then
        Some(Reply(head, "", [], rest))
      else if codings != [] then
        if codings != ["chunked"] then Some(Reply(head, rest, [], "")) else ReadChunked(head, rest)
      else if lengths != [] then
        if |lengths| != 1 || lengths[0] == "" || !AllDigits(lengths[0]) || |rest| < Val(lengths[0]) then None
        else Some(Reply(head, rest[..Val(lengths[0])], [], rest[Val(lengths[0])..]))
      else Some(Reply(head, rest, [], ""))
  }

  function ReadChunked(head: Head, s: string): Option<Reply> {
    match Decode(s)
    case None => None
    case Some(b) =>
      match ReadFields(b.trailers)
      case None => None
      case Some(fields) => Some(Reply(head, b.data, fields, b.rest))
  }

  // ---- what it reads of what is written ----

  /** A field that can be read back: one line, no colon in its name, no blanks around its value. */
  ghost predicate Readable(f: Field) {
    f.0 != "" && Free(f.0, ':') && Unbroken(f.0) && Unbroken(f.1) && Trim(f.1) == f.1
  }

  ghost predicate AllReadable(fields: seq<Field>) {
    forall k :: 0 <= k < |fields| ==> Readable(fields[k])
  }

  lemma TrimBlank(v: string)
    ensures Trim([' '] + v) == Trim(v)
  {
    assert ([' '] + v)[1..] == v;
  }

  lemma FieldRead(f: Field)
    requires f.0 != "" && Free(f.0, ':')
    ensures ReadField(FieldLine(f)) == Some((f.0, Trim(f.1)))
  {
    hide Trim, Find;
    var after := [' '] + f.1;
    assert FieldLine(f) == f.0 + [':'] + after;
    FindIn(f.0, after, ':', 0);
    assert FieldLine(f)[|f.0| + 1..] == after && FieldLine(f)[..|f.0|] == f.0;
    TrimBlank(f.1);
  }

  /** Without a line feed at the front of the second, two parts break no line exactly if their sum does not. */
  lemma UnbrokenBoth(a: string, b: string)
    requires b != "" ==> b[0] != '\n'
    ensures Unbroken(a + b) <==> Unbroken(a) && Unbroken(b)
  {
    var l := a + b;
    if Unbroken(l) {
      forall k | 0 <= k < |a| - 1
        ensures a[k] != '\r' || a[k + 1] != '\n'
      {
        assert l[k] == a[k] && l[k + 1] == a[k + 1];
      }
      forall k | 0 <= k < |b| - 1
        ensures b[k] != '\r' || b[k + 1] != '\n'
      {
        var j := |a| + k;
        assert l[j] == b[k] && l[j + 1] == b[k + 1];
      }
    }
    if Unbroken(a) && Unbroken(b) {
      forall k | 0 <= k < |l| - 1
        ensures l[k] != '\r' || l[k + 1] != '\n'
      {
        if k >= |a| {
          var j := k - |a|;
          assert l[k] == b[j] && l[k + 1] == b[j + 1];
        } else if k < |a| - 1 {
          assert l[k] == a[k] && l[k + 1] == a[k + 1];
        } else {
          assert l[k + 1] == b[0];
        }
      }
    }
  }

  /** The two parts of a field break no line exactly if the field does not. */
  lemma PartsUnbroken(f: Field)
    ensures OneLine(f) <==> Unbroken(f.0) && Unbroken(f.1)
  {
    hide Unbroken;
    assert FieldLine(f) == f.0 + (": " + f.1);
    UnbrokenBoth(f.0, ": " + f.1);
    assert ": " + f.1 == [':'] + ([' '] + f.1);
    UnbrokenChar(':', [' '] + f.1);
    UnbrokenChar(' ', f.1);
  }

  lemma UnbrokenChar(c: char, v: string)
    requires c != '\r'
    ensures Unbroken([c] + v) <==> Unbroken(v)
  {
    if Unbroken([c] + v) {
      forall k | 0 <= k < |v| - 1
        ensures v[k] != '\r' || v[k + 1] != '\n'
      {
        var j := k + 1;
        assert ([c] + v)[j] != '\r' || ([c] + v)[j + 1] != '\n';
      }
    }
  }

  lemma {:induction false} FieldsRead(fields: seq<Field>)
    ensures AllReadable(fields) ==> ReadFields(Lines(fields)) == Some(fields)
    decreases fields
  {
    hide Readable, ReadField, FieldLine;
    if AllReadable(fields) && fields != [] {
      ReadableSays(fields[0]);
      FieldRead(fields[0]);
      FieldsRead(fields[1..]);
      assert Lines(fields)[1..] == Lines(fields[1..]) && fields == [fields[0]] + fields[1..];
    }
  }

  lemma ReadableSays(f: Field)
    requires Readable(f)
    ensures f.0 != "" && Free(f.0, ':') && Trim(f.1) == f.1 && OneLine(f)
  {
    PartsUnbroken(f);
  }

  // ---- what it reads can be written ----

  lemma SliceUnbroken(s: string, i: nat, j: nat)
    requires i <= j <= |s| && Unbroken(s)
    ensures Unbroken(s[i..j])
  {
    forall k | 0 <= k < j - i - 1
      ensures s[i..j][k] != '\r' || s[i..j][k + 1] != '\n'
    {
      assert s[i..j][k] == s[i + k] && s[i..j][k + 1] == s[i + k + 1];
    }
  }

  lemma {:induction false} TrimLeftUnbroken(s: string)
    requires Unbroken(s)
    ensures Unbroken(TrimLeft(s))
  {
    hide Unbroken;
    if s != "" {
      SliceUnbroken(s, 1, |s|);
      assert s[1..|s|] == s[1..];
      if IsSpace(s[0]) { TrimLeftUnbroken(s[1..]); }
    }
  }

  lemma {:induction false} TrimRightUnbroken(s: string)
    requires Unbroken(s)
    ensures Unbroken(TrimRight(s))
  {
    hide Unbroken;
    if s != "" {
      SliceUnbroken(s, 0, |s| - 1);
      if IsSpace(s[|s| - 1]) { TrimRightUnbroken(s[..|s| - 1]); }
    }
  }

  lemma ReadIsReadable(line: string)
    requires Unbroken(line) && ReadField(line).Some?
    ensures Readable(ReadField(line).value)
  {
    hide Unbroken, TrimLeft, TrimRight;
    var colon := Find(line, ':', 0);
    SliceUnbroken(line, 0, colon);
    SliceUnbroken(line, colon + 1, |line|);
    assert line[colon + 1..|line|] == line[colon + 1..];
    TrimLeftUnbroken(line[colon + 1..]);
    TrimRightUnbroken(TrimLeft(line[colon + 1..]));
    TrimTwice(line[colon + 1..]);
    assert forall k :: 0 <= k < colon ==> line[..colon][k] == line[k];
  }

  lemma {:induction false} AllReadAreReadable(lines: seq<string>)
    requires (forall k :: 0 <= k < |lines| ==> Unbroken(lines[k])) && ReadFields(lines).Some?
    ensures AllReadable(ReadFields(lines).value)
  {
    hide Unbroken, ReadField, Readable;
    if lines != [] {
      ReadIsReadable(lines[0]);
      AllReadAreReadable(lines[1..]);
    }
  }

  /** What is read of a head has a status of three digits and fields that can be written. */
  lemma HeadReadable(s: string)
    requires ReadHead(s).Some?
    ensures var (head, rest) := ReadHead(s).value;
            head.status <= 999 && Unbroken(head.reason) && AllReadable(head.fields)
  {
    hide Unbroken, ReadFields, Line, Trailers, Val;
    LineUnbroken(s);
    var (line, rest) := Line(s).value;
    TrailersUnbroken(rest);
    AllReadAreReadable(Trailers(rest).value.0);
    SliceUnbroken(line, 13, |line|);
    assert line[13..|line|] == line[13..];
    ThreeDigits(line[9..12]);
  }

  lemma ThreeDigits(s: string)
    requires |s| == 3 && AllDigits(s)
    ensures Val(s) <= 999
  {
    var a, b := s[..2], s[..1];
    assert a[..1] == b && b[..0] == "";
    assert Val(b) == DigitValue(s[0]) && Val(a) == 10 * Val(b) + DigitValue(s[1]);
    assert Val(s) == 10 * Val(a) + DigitValue(s[2]);
  }

  // ---- the values of a name ----

  lemma {:induction false} ValuesOfBoth(a: seq<Field>, b: seq<Field>, name: string)
    ensures ValuesOf(a + b, name) == ValuesOf(a, name) + ValuesOf(b, name)
  {
    hide Lower;
    if a == [] {
      assert a + b == b;
    } else {
      ValuesOfBoth(a[1..], b, name);
      assert (a + b)[1..] == a[1..] + b;
      var first := if Lower(a[0].0) == name then [a[0].1] else [];
      assert first + (ValuesOf(a[1..], name) + ValuesOf(b, name)) == first + ValuesOf(a[1..], name) + ValuesOf(b, name);
    }
  }

  lemma {:induction false} NoValues(headers: seq<Field>, name: string)
    requires forall k :: 0 <= k < |headers| ==> Lower(headers[k].0) != name
    ensures ValuesOf(headers, name) == []
  {
    if headers != [] {
      NoValues(headers[1..], name);
    }
  }

  lemma OneValue(f: Field, name: string)
    ensures ValuesOf([f], name) == if Lower(f.0) == name then [f.1] else []
  {
    assert [f][1..] == [];
  }
}
