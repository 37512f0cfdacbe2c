/** The "range" header of section 2.1 of RFC 7233, in 64-bit unsigned arithmetic. */
module Ranges {
  import opened Text
  import opened HeaderLists
  import opened Numbers
  import opened Results

  newtype uint64 = x: int | 0 <= x < 0x1_0000_0000_0000_0000

  const MAX := 0xFFFF_FFFF_FFFF_FFFF

  datatype Range = Range(first: uint64, second: uint64)

  // ---- what a range set means, over unbounded numbers ----

  datatype Spec = Malformed | Unsatisfiable | Bytes(first: nat, last: nat)

  /** The position of the '-' when the text has the form of digits, '-', digits. */
  function Dash(e: string): (i: Option<nat>)
    ensures i.Some? ==> i.value < |e| && e[i.value] == '-'
    ensures i.Some? ==> AllDigits(e[..i.value]) && AllDigits(e[i.value + 1..])
  {
    var i := Find(e, '-', 0);
    if i < |e| && (forall k :: 0 <= k < |e| && k != i ==> IsDigit(e[k])) then Some(i) else None
  }

  /** One element of the list, for a file of `size` bytes. */
  ghost function Ideal(e: string, size: nat): (spec: Spec)
    requires size > 0
    ensures spec.Bytes? ==> spec.first <= spec.last < size
  {
    match Dash(e)
    case None => Malformed
    case Some(i) =>
      var a, b := e[..i], e[i + 1..];
      if a == "" && b == "" then Malformed
      else if a == "" then
        var n := Val(b);
        if n == 0 then Unsatisfiable
        else Bytes(if n >= size then 0 else size - n, size - 1)
      else
        var f := Val(a);
        if f >= size then Unsatisfiable
        else if b == "" || Val(b) > size - 1 then Bytes(f, size - 1)
        else if Val(b) < f then Unsatisfiable
        else Bytes(f, Val(b))
  }

  /** Whether a well-formed element asks for the byte at position p of a file of `size` bytes. */
  ghost predicate Selects(e: string, size: nat, p: nat)
    requires Dash(e).Some?
  {
    var a, b := e[..Dash(e).value], e[Dash(e).value + 1..];
    if a == "" then p + Val(b) >= size
    else Val(a) <= p && (b == "" || p <= Val(b))
  }

  /** An element is read as exactly the bytes it selects, and as no range when it selects none. */
  lemma IdealSelects(e: string, size: nat, p: nat)
    requires size > 0 && Dash(e).Some? && |e| > 1 && p < size
    ensures !Ideal(e, size).Malformed?
    ensures Selects(e, size, p) <==> Ideal(e, size).Bytes? && Ideal(e, size).first <= p <= Ideal(e, size).last
  {
    var i := Dash(e).value;
    assert |e[..i]| + |e[i + 1..]| == |e| - 1;
  }

  /** The satisfiable ranges of the elements before the first malformed one, in order. */
  ghost function IdealRanges(es: seq<string>, size: uint64): (rs: seq<Range>)
    requires size > 0
    ensures forall r <- rs :: r.first <= r.second < size
  {
    if es == [] then []
    else
      match Ideal(es[0], size as nat)
      case Malformed => []
      case Unsatisfiable => IdealRanges(es[1..], size)
      case Bytes(f, l) => [Range(f as uint64, l as uint64)] + IdealRanges(es[1..], size)
  }

  // ---- the code, in bounded arithmetic ----

  /** What Numbers.FromDecimalString returns for the 64-bit type. */
  function FromDecimal(s: string): (r: Parsed<uint64>)
    requires AllDigits(s)
  {
    match Bounded(Val(s), MAX)
    case Value(v) => Value(v as uint64)
    case Overflow => Overflow
  }

  /** The lambda run on every element: it appends a range, or asks the scanner to stop. */
  function AccumulateRange(size: uint64, rs: seq<Range>, e: string): (seq<Range>, bool)
    requires size > 0
  {
    match Dash(e)
    case None => (rs, true)
    case Some(i) =>
      var a, b := e[..i], e[i + 1..];
      if |a| == 0 && |b| == 0 then (rs, true)
      else if |a| > 0 then
        match FromDecimal(a) {
          case Overflow => (rs, false)
          case Value(first) =>
            if first >= size then (rs, false)
            else if |b| > 0 then
              match FromDecimal(b) {
                case Overflow => (rs + [Range(first, size - 1)], false)
                case Value(second) =>
                  if second < first then (rs, false)
                  else (rs + [Range(first, if second > size - 1 then size - 1 else second)], false)
              }
            else (rs + [Range(first, size - 1)], false)
        }
      else
        match FromDecimal(b) {
          case Overflow => (rs + [Range(0, size - 1)], false)
          case Value(n) =>
            if n == 0 then (rs, false)
            else (rs + [Range(size - (if n > size then size else n), size - 1)], false)
        }
  }

  lemma StepIsIdeal(size: uint64, rs: seq<Range>, e: string)
    requires size > 0
    ensures AccumulateRange(size, rs, e) ==
            match Ideal(e, size as nat)
            case Malformed => (rs, true)
            case Unsatisfiable => (rs, false)
            case Bytes(f, l) => (rs + [Range(f as uint64, l as uint64)], false)
  {
  }

  ghost predicate SomeMalformed(es: seq<string>, size: uint64)
    requires size > 0
  {
    exists k :: 0 <= k < |es| && Ideal(es[k], size as nat).Malformed?
  }

  lemma MalformedFirst(es: seq<string>, size: uint64)
    requires size > 0 && es != []
    ensures SomeMalformed(es, size) <==> Ideal(es[0], size as nat).Malformed? || SomeMalformed(es[1..], size)
  {
    assert forall k :: 0 <= k < |es[1..]| ==> es[1..][k] == es[k + 1];
    assert forall k :: 1 <= k < |es| ==> es[k] == es[1..][k - 1];
  }

  lemma {:induction false} RunIsIdeal(size: uint64, rs: seq<Range>, es: seq<string>)
    requires size > 0
    ensures var p := (s, e) => AccumulateRange(size, s, e);
            RunUntil(p, rs, es) ==
            (rs + IdealRanges(es, size), SomeMalformed(es, size))
    decreases es
  {
    if es == [] {
      assert rs + [] == rs;
    } else {
      var rest := es[1..];
      MalformedFirst(es, size);
      StepIsIdeal(size, rs, es[0]);
      match Ideal(es[0], size as nat) {
        case Malformed =>
          assert rs + [] == rs;
        case Unsatisfiable => RunIsIdeal(size, rs, rest);
        case Bytes(f, l) =>
          var r := Range(f as uint64, l as uint64);
          RunIsIdeal(size, rs + [r], rest);
          assert rs + [r] + IdealRanges(rest, size) == rs + ([r] + IdealRanges(rest, size));
      }
    }
  }

  ghost predicate HasPrefix(value: string) {
    |value| > 6 && value[..6] == "bytes="
  }

  /**
   * Appends the ranges of a header value to `ranges`.  True exactly when the value has the
   * prefix, no element of the list is malformed and some range is there; the ranges found
   * before a malformed element stay.
   */
  method IsValidRange(value: string, size: uint64, ranges: seq<Range>) returns (ok: bool, rs: seq<Range>)
    requires size > 0
    ensures rs == ranges + if HasPrefix(value) then IdealRanges(Elements(value[6..]), size) else []
    ensures ok <==> HasPrefix(value) && rs != [] &&
                    !SomeMalformed(Elements(value[6..]), size)
  {
    rs := ranges;
    if |value| <= 6 {
      return false, rs;
    }
    if value[..6] != "bytes=" {
      return false, rs;
    }
    var failed;
    RunIsIdeal(size, rs, Elements(value[6..]));
    failed, rs := HeaderValueAnyOf(value[6..], (s, e) => AccumulateRange(size, s, e), rs);
    ok := !failed && rs != [];
  }

  /** From [first, second] to first and length; the range must have been checked. */
  function ToCppRange(r: Range): (c: Range)
    requires r.first <= r.second < MAX as uint64
    ensures c.first == r.first && c.second as int == r.second as int - r.first as int + 1
    ensures c.first as int + c.second as int == r.second as int + 1 <= MAX
  {
    var length := r.second - r.first;
    Range(r.first, length + 1)
  }

  /** The loop reads what FromDecimal stands for. */
  method FromDecimal64(s: string) returns (r: Parsed<uint64>)
    requires AllDigits(s)
    ensures r == FromDecimal(s)
  {
    var v := FromDecimalString(s, MAX);
    match v {
      case Value(n) => return Value(n as uint64);
      case Overflow => return Overflow;
    }
  }

  // ---- headers as they are written ----

  /** The three forms of a range in section 2.1 of RFC 7233. */
  datatype Asked = FromTo(first: nat, last: nat) | From(first: nat) | LastBytes(n: nat)

  function AskedText(a: Asked): string {
    match a
    case FromTo(first, last) => ToString(first) + ['-'] + ToString(last)
    case From(first) => ToString(first) + ['-']
    case LastBytes(n) => ['-'] + ToString(n)
  }

  /** The first and last byte of a file of `size` bytes that are asked for, if there are any. */
  function Granted(a: Asked, size: nat): Option<(nat, nat)> {
    match a
    case FromTo(first, last) =>
      if first >= size || last < first then None else Some((first, if last < size then last else size - 1))
    case From(first) => if first >= size then None else Some((first, size - 1))
    case LastBytes(n) => if n == 0 || size == 0 then None else Some((if n < size then size - n else 0, size - 1))
  }

  lemma NumberText(n: nat)
    ensures ToString(n) != "" && AllDigits(ToString(n)) && Val(ToString(n)) == n && Free(ToString(n), '-')
    ensures Free(ToString(n), ',') && Trim(ToString(n)) == ToString(n)
  {
    hide ToString, Val;
    ToStringVal(n);
    var s := ToString(n);
    assert forall k :: 0 <= k < |s| ==> IsDigit(s[k]);
    assert IsDigit(s[0]) && IsDigit(s[|s| - 1]);
  }

  /** The dash of two texts of digits with a dash between them. */
  lemma DashRead(a: string, b: string)
    requires AllDigits(a) && AllDigits(b)
    ensures var e := a + ['-'] + b; Dash(e) == Some(|a|) && e[..|a|] == a && e[|a| + 1..] == b
  {
    hide Find;
    var e := a + ['-'] + b;
    assert forall k :: 0 <= k < |a| ==> IsDigit(a[k]);
    FindIn(a, b, '-', 0);
    assert forall k :: 0 <= k < |e| && k != |a| ==> e[k] == if k < |a| then a[k] else b[k - |a| - 1];
  }

  lemma AskedRead(a: Asked, size: nat)
    requires size > 0
    ensures Ideal(AskedText(a), size) ==
            match Granted(a, size)
            case None => Unsatisfiable
            case Some((first, last)) => Bytes(first, last)
    ensures AskedText(a) != "" && Trim(AskedText(a)) == AskedText(a) && Free(AskedText(a), ',')
  {
    hide ToString, Val, Ideal, Trim;
    match a {
      case FromTo(first, last) =>
        NumberText(first);
        NumberText(last);
        DigitsRead(ToString(first), ToString(last), size);
        RangeTrimmed(ToString(first), ToString(last));
      case From(first) =>
        NumberText(first);
        DigitsRead(ToString(first), "", size);
        RangeTrimmed(ToString(first), "");
        assert ToString(first) + ['-'] + "" == ToString(first) + ['-'];
      case LastBytes(n) =>
        NumberText(n);
        DigitsRead("", ToString(n), size);
        RangeTrimmed("", ToString(n));
        assert "" + ['-'] + ToString(n) == ['-'] + ToString(n);
    }
  }

  /** Digits, a dash, and digits, of which one may be missing. */
  lemma DigitsRead(a: string, b: string, size: nat)
    requires size > 0 && AllDigits(a) && AllDigits(b) && (a != "" || b != "")
    ensures Ideal(a + ['-'] + b, size) ==
            var asked := if a == "" then LastBytes(Val(b)) else if b == "" then From(Val(a)) else FromTo(Val(a), Val(b));
            match Granted(asked, size)
            case None => Unsatisfiable
            case Some((first, last)) => Bytes(first, last)
  {
    hide Val, Dash;
    DashRead(a, b);
  }

  lemma RangeTrimmed(a: string, b: string)
    requires AllDigits(a) && AllDigits(b)
    ensures var e := a + ['-'] + b; Trim(e) == e && Free(e, ',')
  {
    var e := a + ['-'] + b;
    assert forall k :: 0 <= k < |e| ==> e[k] == (if k < |a| then a[k] else if k == |a| then '-' else b[k - |a| - 1]);
    assert !IsSpace(e[0]) && !IsSpace(e[|e| - 1]);
  }

  function AskedTexts(asked: seq<Asked>): seq<string> {
    if asked == [] then [] else [AskedText(asked[0])] + AskedTexts(asked[1..])
  }

  /** The ranges that are granted, in the order in which they are asked for. */
  ghost function GrantedRanges(asked: seq<Asked>, size: uint64): seq<Range> {
    if asked == [] then []
    else
      match Granted(asked[0], size as nat)
      case None => GrantedRanges(asked[1..], size)
      case Some((first, last)) => [Range(first as uint64, last as uint64)] + GrantedRanges(asked[1..], size)
  }

  lemma {:induction false} AllAskedRead(asked: seq<Asked>, size: uint64)
    requires size > 0
    ensures IdealRanges(AskedTexts(asked), size) == GrantedRanges(asked, size) && !SomeMalformed(AskedTexts(asked), size)
    ensures forall k :: 0 <= k < |AskedTexts(asked)| ==>
              AskedTexts(asked)[k] != "" && Trim(AskedTexts(asked)[k]) == AskedTexts(asked)[k] && Free(AskedTexts(asked)[k], ',')
  {
    hide AskedText, Ideal, Granted, SomeMalformed, Trim;
    if asked == [] {
      NoneMalformed(size);
    } else {
      AskedRead(asked[0], size as nat);
      AllAskedRead(asked[1..], size);
      MalformedFirst(AskedTexts(asked), size);
      assert AskedTexts(asked)[1..] == AskedTexts(asked[1..]);
    }
  }

  lemma NoneMalformed(size: uint64)
    requires size > 0
    ensures !SomeMalformed([], size)
  {
  }

  /** A header written from the grammar is read as the ranges that it asks for, as far as they exist. */
  lemma HeaderRead(asked: seq<Asked>, size: uint64)
    requires size > 0 && asked != []
    ensures var value := "bytes=" + Join(AskedTexts(asked), ',');
            && HasPrefix(value) && !SomeMalformed(Elements(value[6..]), size)
            && IdealRanges(Elements(value[6..]), size) == GrantedRanges(asked, size)
  {
    hide AskedText, Elements, SomeMalformed, IdealRanges, Trim;
    AllAskedRead(asked, size);
    ElementsOfJoined(AskedTexts(asked));
    var list := Join(AskedTexts(asked), ',');
    assert ("bytes=" + list)[6..] == list && ("bytes=" + list)[..6] == "bytes=";
    assert AskedTexts(asked)[0] != "";
    JoinedSome(AskedTexts(asked));
  }

  lemma JoinedSome(parts: seq<string>)
    requires parts != [] && parts[0] != ""
    ensures Join(parts, ',') != ""
  {
  }

  /** Nothing else has the prefix. */
  lemma PrefixIs(value: string)
    ensures HasPrefix(value) <==> exists list :: list != "" && value == "bytes=" + list
  {
    if HasPrefix(value) {
      assert value == "bytes=" + value[6..];
    }
  }
}
