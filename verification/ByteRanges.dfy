/**
 * A recipient of multipart/byteranges bodies after appendix A of RFC 7233 and section 5.1.1 of
 * RFC 2046, and what it reads of the bodies that the file server writes.
 */
module ByteRanges {
  import opened Chunked
  import opened HeaderLists
  import opened Numbers
  import opened Recipient
  import opened Results
  import opened Text

  datatype ByteRange = ByteRange(contentType: Option<string>, first: nat, last: nat, size: nat, data: string)

  // ---- reading ----

  /** The first place from i on where d stands in s. */
  function FindText(s: string, d: string, i: nat): (at: Option<nat>)
    ensures at.Some? ==> i <= at.value && at.value + |d| <= |s|
    decreases |s| - i
  {
    if i + |d| > |s| then None
    else if s[i..i + |d|] == d then Some(i)
    else if i == |s| then None else FindText(s, d, i + 1)
  }

  function Number(s: string): Option<nat> {
    if s == "" || !AllDigits(s) then None else Some(Val(s))
  }

  /** "bytes" SP first "-" last "/" size */
  function ReadContentRange(value: string): Option<(nat, nat, nat)> {
    if |value| < 6 || value[..6] != "bytes " then None else ReadRange(value[6..])
  }

  function ReadRange(range: string): Option<(nat, nat, nat)> {
    var dash, slash := Find(range, '-', 0), Find(range, '/', 0);
    if slash <= dash || slash == |range| then None
    else AllThree(Number(range[..dash]), Number(range[dash + 1..slash]), Number(range[slash + 1..]))
  }

  function AllThree(first: Option<nat>, last: Option<nat>, size: Option<nat>): Option<(nat, nat, nat)> {
    if first.Some? && last.Some? && size.Some? then Some((first.value, last.value, size.value)) else None
  }

  /** A part: its fields up to the empty line, and its data. */
  function ReadPart(s: string): Option<ByteRange> {
    match Trailers(s)
    case None => None
    case Some((lines, data)) =>
      match ReadFields(lines)
      case None => None
      case Some(fields) =>
        var types, ranges := ValuesOf(fields, "content-type"), ValuesOf(fields, "content-range");
        if |ranges| != 1 then None
        else
          match ReadContentRange(ranges[0])
          case None => None
          case Some((first, last, size)) =>
            Some(ByteRange(if types == [] then None else Some(types[0]), first, last, size, data))
  }

  /** The parts behind a delimiter, up to the closing one. */
  function ReadParts(delimiter: string, s: string): Option<seq<ByteRange>>
    decreases |s|
  {
    if |s| < 2 then None
    else if s[..2] == "--" then Some([])
    else if s[..2] != CRLF then None
    else
      match FindText(s, delimiter, 2)
      case None => None
      case Some(at) =>
        match (ReadPart(s[2..at]), ReadParts(delimiter, s[at + |delimiter|..]))
        case (Some(part), Some(parts)) => Some([part] + parts)
        case _ => None
  }

  /** The parts of a body; what stands before the first delimiter is left out. */
  function ReadByteRanges(boundary: string, s: string): Option<seq<ByteRange>> {
    var delimiter := "\r\n--" + boundary;
    match FindText(s, delimiter, 0)
    case None => None
    case Some(at) => ReadParts(delimiter, s[at + |delimiter|..])
  }

  // ---- where delimiters stand ----

  predicate Occurs(s: string, d: string, i: nat) {
    i + |d| <= |s| && s[i..i + |d|] == d
  }

  ghost predicate Nowhere(s: string, d: string) {
    forall i :: 0 <= i < |s| ==> !Occurs(s, d, i)
  }

  lemma {:induction false} FoundFirst(s: string, d: string, i: nat, k: nat)
    requires i <= k && Occurs(s, d, k) && forall j :: i <= j < k ==> !Occurs(s, d, j)
    ensures FindText(s, d, i) == Some(k)
    decreases k - i
  {
    if i < k {
      assert !Occurs(s, d, i);
      FoundFirst(s, d, i + 1, k);
    }
  }

  /** A delimiter that starts before another does not reach into it. */
  lemma NotAcross(a: string, d: string, b: string, i: nat)
    requires d != "" && (forall k :: 1 <= k < |d| ==> d[k] != d[0]) && Nowhere(a, d) && i < |a|
    ensures !Occurs(a + d + b, d, i)
  {
    var s := a + d + b;
    if i + |d| <= |a| {
      assert s[i..i + |d|] == a[i..i + |d|] && !Occurs(a, d, i);
    } else {
      var k := |a| - i;
      assert s[i + k] == d[0];
      assert i + |d| <= |s| ==> s[i..i + |d|][k] == s[i + k];
    }
  }

  /** A line that does not start with a dash, and what follows it, hold no delimiter if the rest does not. */
  lemma LineClear(line: string, rest: string, boundary: string)
    requires line != "" && line[0] != '-' && Unbroken(line) && |rest| >= 2 && rest[..2] == CRLF
    requires Nowhere(rest, "\r\n--" + boundary)
    ensures Nowhere(CRLF + line + rest, "\r\n--" + boundary)
  {
    var s, d, n := CRLF + line + rest, "\r\n--" + boundary, |line| + 2;
    forall i | 0 <= i < |s|
      ensures !Occurs(s, d, i)
    {
      if i >= n {
        assert s[n..] == rest;
        assert i + |d| <= |s| ==> s[i..i + |d|] == rest[i - n..i - n + |d|];
        assert !Occurs(rest, d, i - n);
      } else {
        assert i >= 2 ==> s[i] == line[i - 2] && s[i + 1] == if i + 1 < n then line[i - 1] else rest[0];
        if Occurs(s, d, i) {
          StartsSo(s, boundary, i);
        }
      }
    }
  }

  lemma StartsSo(s: string, boundary: string, i: nat)
    requires Occurs(s, "\r\n--" + boundary, i)
    ensures i + 4 <= |s| && s[i] == '\r' && s[i + 1] == '\n' && s[i + 2] == '-'
  {
    var d := "\r\n--" + boundary;
    assert s[i..i + |d|][0] == s[i] && s[i..i + |d|][1] == s[i + 1] && s[i..i + |d|][2] == s[i + 2];
  }

  lemma EmptyLineClear(data: string, boundary: string)
    requires Nowhere(CRLF + data, "\r\n--" + boundary)
    ensures Nowhere(CRLF + (CRLF + data), "\r\n--" + boundary)
  {
    var s, d, rest := CRLF + (CRLF + data), "\r\n--" + boundary, CRLF + data;
    forall i | 0 <= i < |s|
      ensures !Occurs(s, d, i)
    {
      if i >= 2 {
        assert i + |d| <= |s| ==> s[i..i + |d|] == rest[i - 2..i - 2 + |d|];
        assert !Occurs(rest, d, i - 2);
      } else if Occurs(s, d, i) {
        StartsSo(s, boundary, i);
      }
    }
  }

  /** Fields, the empty line and data hold no delimiter if the data, with the line break before it, does not. */
  lemma {:induction false} FieldsClear(fields: seq<Field>, data: string, boundary: string)
    requires forall k :: 0 <= k < |fields| ==> fields[k].0 != "" && fields[k].0[0] != '-' && OneLine(fields[k])
    requires Nowhere(CRLF + data, "\r\n--" + boundary)
    ensures Nowhere(CRLF + (FieldLines(fields) + CRLF + data), "\r\n--" + boundary)
    decreases fields
  {
    hide Nowhere, Unbroken, FieldLine;
    if fields == [] {
      EmptyLineClear(data, boundary);
      assert FieldLines(fields) + CRLF + data == CRLF + data;
    } else {
      var line, more := FieldLine(fields[0]), FieldLines(fields[1..]);
      FieldsClear(fields[1..], data, boundary);
      StartsWithName(fields[0]);
      assert (CRLF + (more + CRLF + data))[..2] == CRLF;
      LineClear(line, CRLF + (more + CRLF + data), boundary);
      LinesJoin(line, more, data);
    }
  }

  lemma StartsWithName(f: Field)
    requires f.0 != ""
    ensures FieldLine(f) != "" && FieldLine(f)[0] == f.0[0]
  {
  }

  lemma LinesJoin(line: string, more: string, data: string)
    ensures CRLF + line + (CRLF + (more + CRLF + data)) == CRLF + (line + CRLF + more + CRLF + data)
  {
  }

  /** What is read behind a delimiter when a part and the next delimiter follow. */
  lemma OnePartRead(boundary: string, d: string, part: string, more: string)
    requires d == "\r\n--" + boundary && Free(boundary, '\r') && Nowhere(CRLF + part, d)
    ensures ReadParts(d, CRLF + part + d + more) ==
            match (ReadPart(part), ReadParts(d, more))
            case (Some(p), Some(parts)) => Some([p] + parts)
            case _ => None
  {
    hide ReadPart, Nowhere;
    var a := CRLF + part;
    var s := a + d + more;
    assert forall k :: 1 <= k < |d| ==> d[k] != d[0];
    forall j | 2 <= j < |a|
      ensures !Occurs(s, d, j)
    {
      NotAcross(a, d, more, j);
    }
    assert s[|a|..|a| + |d|] == d && s[|a| + |d|..] == more && s[2..|a|] == part && s[..2] == CRLF;
    FoundFirst(s, d, 2, |a|);
  }

  lemma EndRead(d: string)
    ensures ReadParts(d, "--\r\n") == Some([])
  {
  }

  lemma FirstDelimiter(boundary: string, more: string)
    ensures ReadByteRanges(boundary, "\r\n--" + boundary + more) == ReadParts("\r\n--" + boundary, more)
  {
    var d := "\r\n--" + boundary;
    assert (d + more)[..|d|] == d && (d + more)[|d|..] == more;
  }

  // ---- what is read of a range ----

  /** Three texts of digits with a dash and a slash between them are told apart. */
  lemma RangeSplit(a: string, b: string, c: string)
    requires Free(a, '-') && Free(a, '/') && Free(b, '/')
    ensures var range := a + ['-'] + b + ['/'] + c;
            && Find(range, '-', 0) == |a| && Find(range, '/', 0) == |a| + 1 + |b|
            && range[..|a|] == a && range[|a| + 1..|a| + 1 + |b|] == b && range[|a| + |b| + 2..] == c
  {
    hide Find;
    var range := a + ['-'] + b + ['/'] + c;
    assert range == a + ['-'] + (b + ['/'] + c) && range == (a + ['-'] + b) + ['/'] + c;
    FindIn(a, b + ['/'] + c, '-', 0);
    FindIn(a + ['-'] + b, c, '/', 0);
  }

  lemma ContentRangeRead(first: nat, last: nat, size: nat)
    ensures ReadContentRange("bytes " + (ToString(first) + ['-'] + ToString(last) + ['/'] + ToString(size))) ==
            Some((first, last, size))
  {
    hide ToString, ReadRange;
    var range := ToString(first) + ['-'] + ToString(last) + ['/'] + ToString(size);
    RangeRead(first, last, size);
    assert ("bytes " + range)[..6] == "bytes " && ("bytes " + range)[6..] == range;
  }

  lemma RangeRead(first: nat, last: nat, size: nat)
    ensures ReadRange(ToString(first) + ['-'] + ToString(last) + ['/'] + ToString(size)) == Some((first, last, size))
  {
    hide ReadRange, ToString, Val;
    ToStringVal(first);
    ToStringVal(last);
    ToStringVal(size);
    DigitsRead(ToString(first), ToString(last), ToString(size));
  }

  lemma DigitsRead(a: string, b: string, c: string)
    requires a != "" && b != "" && c != "" && AllDigits(a) && AllDigits(b) && AllDigits(c)
    ensures ReadRange(a + ['-'] + b + ['/'] + c) == Some((Val(a), Val(b), Val(c)))
  {
    hide Val, Find, Free, ReadRange, Number;
    NoneInDigits(a);
    NoneInDigits(b);
    RangeSplit(a, b, c);
    NumberRead(a);
    NumberRead(b);
    NumberRead(c);
    PiecesRead(a + ['-'] + b + ['/'] + c, |a|, |a| + 1 + |b|, Val(a), Val(b), Val(c));
  }

  lemma PiecesRead(range: string, dash: nat, slash: nat, first: nat, last: nat, size: nat)
    requires dash < slash < |range| && Find(range, '-', 0) == dash && Find(range, '/', 0) == slash
    requires Number(range[..dash]) == Some(first) && Number(range[dash + 1..slash]) == Some(last)
    requires Number(range[slash + 1..]) == Some(size)
    ensures ReadRange(range) == Some((first, last, size))
  {
    hide Number, Find;
  }

  lemma NumberRead(s: string)
    requires s != "" && AllDigits(s)
    ensures Number(s) == Some(Val(s))
  {
  }

  lemma NoneInDigits(s: string)
    requires AllDigits(s)
    ensures Free(s, '-') && Free(s, '/')
  {
    assert forall k :: 0 <= k < |s| ==> IsDigit(s[k]);
  }
}
