/** What a recipient of byte ranges reads of the file server's multipart bodies. */
module ByteRangesRead {
  import opened ByteRanges
  import opened Chunked
  import opened HeaderLists
  import opened Numbers
  import opened Recipient
  import opened Results
  import opened Text
  import Multipart
  import Ranges

  type Plan = Multipart.Plan

  // ---- one part as it is written ----

  function Delimiter(p: Plan): string {
    "\r\n--" + p.boundary
  }

  /** first "-" last "/" size */
  function RangeText(p: Plan, i: nat): string
    requires i < |p.ranges|
  {
    "bytes " + (ToString(p.ranges[i].first as nat) + ['-'] + ToString(p.ranges[i].second as nat) + ['/'] + ToString(p.size))
  }

  function PartFields(p: Plan, i: nat): seq<Recipient.Field>
    requires i < |p.ranges|
  {
    (if p.contentType == "" then [] else [("content-type", p.contentType)]) + [("content-range", RangeText(p, i))]
  }

  function Data(file: string, p: Plan, i: nat): string
    requires i < |p.ranges| && p.ranges[i].first <= p.ranges[i].second && p.ranges[i].second as nat < |file|
  {
    file[p.ranges[i].first as nat..p.ranges[i].second as nat + 1]
  }

  function PartText(file: string, p: Plan, i: nat): string
    requires i < |p.ranges| && p.ranges[i].first <= p.ranges[i].second && p.ranges[i].second as nat < |file|
  {
    FieldLines(PartFields(p, i)) + CRLF + Data(file, p, i)
  }

  /** What stands behind the delimiter of the i-th part, or behind the last part's. */
  ghost function Behind(file: string, p: Plan, i: nat): string
    requires Multipart.Checked(p) && |file| == p.size && i <= |p.ranges|
    decreases |p.ranges| - i
  {
    if i == |p.ranges| then "--\r\n" else CRLF + PartText(file, p, i) + Delimiter(p) + Behind(file, p, i + 1)
  }

  /** The text from the i-th part's own delimiter on. */
  ghost function FromPart(file: string, p: Plan, i: nat): string
    requires Multipart.Checked(p) && |file| == p.size && i < |p.ranges|
  {
    Multipart.Total(file, p, Multipart.BoundaryLine, i, "")
  }

  lemma TypeLaid(file: string, p: Plan, i: nat)
    requires Multipart.Checked(p) && |file| == p.size && i < |p.ranges|
    ensures FromPart(file, p, i) ==
            Multipart.Total(file, p, Multipart.ContentRangeKey, i,
                            Delimiter(p) + CRLF + if p.contentType == "" then "" else "content-type: " + p.contentType + CRLF)
  {
    hide Multipart.Total;
    var r := "\r\n--" + p.boundary + "\r\n";
    Multipart.Append(file, p, Multipart.BoundaryLine, i, "", r);
    assert "" + r == r == Delimiter(p) + CRLF;
    if p.contentType != "" {
      Multipart.Append(file, p, Multipart.ContentTypeKey, i, r, "content-type: ");
      Multipart.Append(file, p, Multipart.ContentTypeValue, i, r + "content-type: ", p.contentType);
      Multipart.Append(file, p, Multipart.ContentTypeCrlf, i, r + "content-type: " + p.contentType, CRLF);
      assert r + "content-type: " + p.contentType + CRLF == r + ("content-type: " + p.contentType + CRLF);
    } else {
      assert r + "" == r;
    }
  }

  lemma RangeLaid(file: string, p: Plan, i: nat, r: string)
    requires Multipart.Checked(p) && |file| == p.size && i < |p.ranges|
    ensures Multipart.Total(file, p, Multipart.ContentRangeKey, i, r) ==
            Multipart.Total(file, p, Multipart.BodyState, i, r + ("content-range: " + RangeText(p, i) + CRLF + CRLF))
  {
    hide Multipart.Total, ToString;
    var first, last, size := ToString(p.ranges[i].first as nat), ToString(p.ranges[i].second as nat), ToString(p.size);
    var r1 := r + "content-range: bytes ";
    Multipart.Append(file, p, Multipart.ContentRangeKey, i, r, "content-range: bytes ");
    var r2 := r1 + first;
    Multipart.Append(file, p, Multipart.ValueFirst, i, r1, first);
    var r3 := r2 + "-";
    Multipart.Append(file, p, Multipart.ValueDash, i, r2, "-");
    var r4 := r3 + last;
    Multipart.Append(file, p, Multipart.ValueSecond, i, r3, last);
    var r5 := r4 + "/";
    Multipart.Append(file, p, Multipart.ValueSlash, i, r4, "/");
    var r6 := r5 + size;
    Multipart.Append(file, p, Multipart.ValueSize, i, r5, size);
    Multipart.Append(file, p, Multipart.ContentRangeCrlf, i, r6, "\r\n\r\n");
    RangeJoin(r, first, last, size);
  }

  lemma RangeJoin(r: string, first: string, last: string, size: string)
    ensures r + "content-range: bytes " + first + "-" + last + "/" + size + "\r\n\r\n" ==
            r + ("content-range: " + ("bytes " + (first + ['-'] + last + ['/'] + size)) + CRLF + CRLF)
  {
  }

  lemma FieldsLaid(p: Plan, i: nat)
    requires i < |p.ranges|
    ensures FieldLines(PartFields(p, i)) + CRLF ==
            (if p.contentType == "" then "" else "content-type: " + p.contentType + CRLF)
            + ("content-range: " + RangeText(p, i) + CRLF + CRLF)
  {
    hide RangeText;
    var ct, cr := ("content-type", p.contentType), ("content-range", RangeText(p, i));
    assert [cr][1..] == [];
    assert FieldLines([cr]) == "content-range: " + RangeText(p, i) + CRLF by {
      assert FieldLine(cr) == "content-range: " + RangeText(p, i);
    }
    if p.contentType != "" {
      assert [ct] + [cr] == [ct, cr] && [ct, cr][1..] == [cr];
      assert FieldLine(ct) == "content-type: " + p.contentType;
    } else {
      assert [] + [cr] == [cr];
    }
  }

  lemma DataIs(file: string, p: Plan, i: nat)
    requires Multipart.Checked(p) && |file| == p.size && i < |p.ranges|
    ensures var r := Ranges.ToCppRange(p.ranges[i]);
            file[r.first as nat..r.first as nat + r.second as nat] == Data(file, p, i)
  {
  }

  /** What follows `body` when it ends with the i-th part. */
  lemma NextLaid(file: string, p: Plan, i: nat, body: string)
    requires Multipart.Checked(p) && |file| == p.size && i < |p.ranges|
    ensures Multipart.Total(file, p, Multipart.BodyState, i, body) ==
            body + Data(file, p, i) + if i + 1 == |p.ranges| then Delimiter(p) + "--\r\n" else FromPart(file, p, i + 1)
  {
    hide Multipart.Flat, Multipart.Rest;
    Multipart.AppendPart(file, p, i, body);
    DataIs(file, p, i);
    if i + 1 == |p.ranges| {
      Multipart.LastOne(file, p, i);
      assert Multipart.FinalText(p.boundary) == Delimiter(p) + "--\r\n";
    } else {
      Multipart.RestWithin(p, Multipart.BoundaryLine, i + 1);
      var rest := Multipart.Flat(file, Multipart.Rest(p, Multipart.BoundaryLine, i + 1));
      assert "" + rest == rest;
    }
  }

  /** From each part on, the body is a delimiter, the part, and what is behind it. */
  lemma {:induction false} PartLaid(file: string, p: Plan, i: nat)
    requires Multipart.Checked(p) && |file| == p.size && i < |p.ranges|
    ensures FromPart(file, p, i) == Delimiter(p) + Behind(file, p, i)
    decreases |p.ranges| - i
  {
    hide Multipart.Total, FromPart, RangeText, Data, FieldLines, Multipart.Checked;
    CheckedSays(p, i);
    var types := if p.contentType == "" then "" else "content-type: " + p.contentType + CRLF;
    var range := "content-range: " + RangeText(p, i) + CRLF + CRLF;
    var front := Delimiter(p) + CRLF + types;
    TypeLaid(file, p, i);
    RangeLaid(file, p, i, front);
    NextLaid(file, p, i, front + range);
    FieldsLaid(p, i);
    var fields, data := FieldLines(PartFields(p, i)) + CRLF, Data(file, p, i);
    var next := if i + 1 == |p.ranges| then Delimiter(p) + "--\r\n" else FromPart(file, p, i + 1);
    assert FromPart(file, p, i) == front + range + data + next;
    if i + 1 < |p.ranges| {
      PartLaid(file, p, i + 1);
    }
    assert next == Delimiter(p) + Behind(file, p, i + 1);
    LastJoin(Delimiter(p), types, range, data, Behind(file, p, i + 1));
  }

  lemma CheckedSays(p: Plan, i: nat)
    requires Multipart.Checked(p) && i < |p.ranges|
    ensures p.ranges[i].first <= p.ranges[i].second && p.ranges[i].second as nat < p.size
  {
  }

  lemma LastJoin(d: string, types: string, range: string, data: string, more: string)
    ensures d + CRLF + types + range + data + (d + more) == d + (CRLF + (types + range + data) + d + more)
  {
  }

  // ---- what is read of it ----

  /** The delimiter is one line and stands in no part's data; a content type is one trimmed line. */
  ghost predicate Parseable(file: string, p: Plan)
    requires Multipart.Checked(p) && |file| == p.size
  {
    && Free(p.boundary, '\r') && Unbroken(p.contentType) && Trim(p.contentType) == p.contentType
    && forall i :: 0 <= i < |p.ranges| ==> Nowhere(CRLF + Data(file, p, i), Delimiter(p))
  }

  /** What the recipient is to get for the i-th range. */
  ghost function Wanted(file: string, p: Plan, i: nat): ByteRange
    requires Multipart.Checked(p) && |file| == p.size && i < |p.ranges|
  {
    ByteRange(if p.contentType == "" then None else Some(p.contentType),
              p.ranges[i].first as nat, p.ranges[i].second as nat, p.size,
              file[p.ranges[i].first as nat..p.ranges[i].second as nat + 1])
  }

  ghost function WantedFrom(file: string, p: Plan, i: nat): (parts: seq<ByteRange>)
    requires Multipart.Checked(p) && |file| == p.size && i <= |p.ranges|
    ensures |parts| == |p.ranges| - i
    decreases |p.ranges| - i
  {
    if i == |p.ranges| then [] else [Wanted(file, p, i)] + WantedFrom(file, p, i + 1)
  }

  lemma {:induction false} WantedAt(file: string, p: Plan, i: nat, k: nat)
    requires Multipart.Checked(p) && |file| == p.size && i <= k < |p.ranges|
    ensures WantedFrom(file, p, i)[k - i] == Wanted(file, p, k)
    decreases k - i
  {
    hide Wanted;
    if i < k {
      WantedAt(file, p, i + 1, k);
    }
  }

  lemma RangeTextReadable(p: Plan, i: nat)
    requires i < |p.ranges|
    ensures Readable(("content-range", RangeText(p, i)))
    ensures ReadContentRange(RangeText(p, i)) ==
            Some((p.ranges[i].first as nat, p.ranges[i].second as nat, p.size))
  {
    hide ToString, Val, ReadContentRange;
    var first, last, size := p.ranges[i].first as nat, p.ranges[i].second as nat, p.size;
    ContentRangeRead(first, last, size);
    ToStringVal(first);
    ToStringVal(last);
    ToStringVal(size);
    DigitsReadable(ToString(first), ToString(last), ToString(size));
  }

  lemma DigitsReadable(a: string, b: string, c: string)
    requires c != "" && AllDigits(a) && AllDigits(b) && AllDigits(c)
    ensures Readable(("content-range", "bytes " + (a + ['-'] + b + ['/'] + c)))
  {
    var v := "bytes " + (a + ['-'] + b + ['/'] + c);
    assert forall k :: 0 <= k < |v| ==> v[k] != '\r';
    assert v[0] == 'b' && v[|v| - 1] == c[|c| - 1] && IsDigit(c[|c| - 1]);
  }

  lemma PartRead(file: string, p: Plan, i: nat)
    requires Multipart.Checked(p) && |file| == p.size && i < |p.ranges| && Parseable(file, p)
    ensures ReadPart(PartText(file, p, i)) == Some(Wanted(file, p, i))
  {
    hide RangeText, FieldLines, Readable, Lines, ReadFields, Chunked.Trailers, ValuesOf, ReadContentRange, Nowhere, Unbroken,
         Lower, Trim;
    var fields := PartFields(p, i);
    RangeTextReadable(p, i);
    TypeReadable(p.contentType);
    forall k | 0 <= k < |fields|
      ensures Readable(fields[k]) && OneLine(fields[k])
    {
      ReadableSays(fields[k]);
    }
    TrailersOf(fields, Data(file, p, i));
    FieldsRead(fields);
    ValuesRead(p.contentType, RangeText(p, i));
  }

  lemma TypeReadable(contentType: string)
    requires Unbroken(contentType) && Trim(contentType) == contentType
    ensures Readable(("content-type", contentType))
  {
  }

  lemma ValuesRead(contentType: string, range: string)
    ensures var fields := (if contentType == "" then [] else [("content-type", contentType)]) + [("content-range", range)];
            && ValuesOf(fields, "content-type") == (if contentType == "" then [] else [contentType])
            && ValuesOf(fields, "content-range") == [range]
  {
    hide Lower, ValuesOf;
    LowerNames();
    var types: seq<Recipient.Field> := if contentType == "" then [] else [("content-type", contentType)];
    var ranges: seq<Recipient.Field> := [("content-range", range)];
    ValuesOfBoth(types, ranges, "content-type");
    ValuesOfBoth(types, ranges, "content-range");
    OneValue(("content-type", contentType), "content-type");
    OneValue(("content-type", contentType), "content-range");
    OneValue(("content-range", range), "content-type");
    OneValue(("content-range", range), "content-range");
    NoValues([], "content-type");
    NoValues([], "content-range");
  }

  lemma LowerNames()
    ensures Lower("content-range") == "content-range" && Lower("content-type") == "content-type"
    ensures "content-range" != "content-type"
  {
    assert |"content-range"| != |"content-type"|;
  }

  /** No delimiter stands in a part, the line break before it included. */
  lemma PartClear(file: string, p: Plan, i: nat)
    requires Multipart.Checked(p) && |file| == p.size && i < |p.ranges| && Parseable(file, p)
    ensures Nowhere(CRLF + PartText(file, p, i), Delimiter(p))
  {
    hide RangeText, FieldLines, Nowhere, Readable, Unbroken, Trim, Data;
    var fields := PartFields(p, i);
    RangeTextReadable(p, i);
    TypeReadable(p.contentType);
    forall k | 0 <= k < |fields|
      ensures fields[k].0 != "" && fields[k].0[0] != '-' && OneLine(fields[k])
    {
      ReadableSays(fields[k]);
    }
    FieldsClear(fields, Data(file, p, i), p.boundary);
  }

  lemma {:induction false} BehindRead(file: string, p: Plan, i: nat)
    requires Multipart.Checked(p) && |file| == p.size && i <= |p.ranges| && Parseable(file, p)
    ensures ReadParts(Delimiter(p), Behind(file, p, i)) == Some(WantedFrom(file, p, i))
    decreases |p.ranges| - i
  {
    hide PartText, ReadPart, ReadParts, Wanted, Nowhere, Multipart.Checked;
    if i == |p.ranges| {
      EndRead(Delimiter(p));
    } else {
      CheckedSays(p, i);
      PartRead(file, p, i);
      PartClear(file, p, i);
      BehindRead(file, p, i + 1);
      OnePartRead(p.boundary, Delimiter(p), PartText(file, p, i), Behind(file, p, i + 1));
    }
  }

  /**
   * The recipient reads, range by range and in their order, the content type, the range as it was
   * checked, the size of the file and exactly its bytes, up to the closing delimiter.
   */
  ghost predicate ReadsAll(file: string, p: Plan, body: string)
    requires Multipart.Checked(p) && |file| == p.size
  {
    match ReadByteRanges(p.boundary, body)
    case None => false
    case Some(parts) => |parts| == |p.ranges| && forall k :: 0 <= k < |parts| ==> parts[k] == Wanted(file, p, k)
  }

  /** Of the one-shot body, whenever the delimiter does not occur in the data. */
  lemma BodyRead(file: string, p: Plan)
    requires Multipart.Checked(p) && |file| == p.size && Parseable(file, p)
    ensures ReadsAll(file, p, Multipart.FlatOf(file, p))
  {
    hide Wanted, Parseable, ReadParts, ReadByteRanges, Multipart.Rest, Multipart.Flat, Multipart.Checked, WantedFrom;
    NotEmpty(p);
    AtOnce(file, p);
    PartLaid(file, p, 0);
    BehindRead(file, p, 0);
    FirstDelimiter(p.boundary, Behind(file, p, 0));
    forall k | 0 <= k < |p.ranges|
      ensures WantedFrom(file, p, 0)[k] == Wanted(file, p, k)
    {
      WantedAt(file, p, 0, k);
    }
  }

  lemma NotEmpty(p: Plan)
    requires Multipart.Checked(p)
    ensures |p.ranges| > 0
  {
  }

  lemma AtOnce(file: string, p: Plan)
    requires Multipart.Checked(p) && |file| == p.size
    ensures FromPart(file, p, 0) == Multipart.FlatOf(file, p)
  {
    var body := Multipart.FlatOf(file, p);
    assert "" + body == body;
  }

  /** Of the machine's output just the same, if no part is split over two buffers. */
  lemma OutputRead(file: string, p: Plan, n: nat)
    requires Multipart.Checked(p) && |file| == p.size && Parseable(file, p) && n > 0
    requires Multipart.Whole(Multipart.Layout(p), 0, n)
    ensures ReadsAll(file, p, Multipart.Output(file, p, n))
  {
    hide Multipart.Whole, Multipart.Output, Multipart.FlatOf, Parseable, ReadsAll;
    Multipart.ResumesAsOneShot(p, n);
    BodyRead(file, p);
  }
}
