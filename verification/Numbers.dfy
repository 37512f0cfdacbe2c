/** Decimal and hexadecimal digit strings, in the bounded integers the library computes with. */
module Numbers {

  datatype Parsed<+T> = Value(value: T) | Overflow

  predicate IsDigit(c: char) {
    '0' <= c <= '9'
  }

  predicate AllDigits(s: string) {
    forall i :: 0 <= i < |s| ==> IsDigit(s[i])
  }

  function DigitValue(c: char): (d: nat)
    requires IsDigit(c)
    ensures d <= 9
  {
    (c - '0') as nat
  }

  /** The number that a digit string denotes, without any bound. */
  function Val(s: string): nat
    requires AllDigits(s)
  {
    if s == "" then 0 else 10 * Val(s[..|s| - 1]) + DigitValue(s[|s| - 1])
  }

  ghost function Pow10(n: nat): (p: nat)
    ensures p >= 1
  {
    if n == 0 then 1 else 10 * Pow10(n - 1)
  }

  lemma Shifted(a: nat, p: nat, b: nat, d: nat)
    ensures 10 * (a * p + b) + d == a * (10 * p) + (10 * b + d)
  {
    assert 10 * (a * p) == a * (10 * p);
  }

  lemma LastDigit(s: string)
    requires AllDigits(s) && s != ""
    ensures Val(s) == 10 * Val(s[..|s| - 1]) + DigitValue(s[|s| - 1]) && Pow10(|s|) == 10 * Pow10(|s| - 1)
  {
  }

  lemma {:induction false} ValSplit(a: string, b: string)
    requires AllDigits(a) && AllDigits(b)
    ensures AllDigits(a + b) && Val(a + b) == Val(a) * Pow10(|b|) + Val(b)
  {
    hide Val, Pow10;
    if b == "" {
      NoDigits();
      assert a + b == a;
    } else {
      var c, d := b[..|b| - 1], DigitValue(b[|b| - 1]);
      ValSplit(a, c);
      assert (a + b)[..|a + b| - 1] == a + c;
      LastDigit(a + b);
      LastDigit(b);
      Shifted(Val(a), Pow10(|c|), Val(c), d);
    }
  }

  lemma NoDigits()
    ensures Val("") == 0 && Pow10(0) == 1
  {
  }

  /** Arithmetic that must stay within the target type: its preconditions rule out a wrap. */
  function Times(a: nat, b: nat, max: nat): nat
    requires a * b <= max
  {
    a * b
  }

  function Plus(a: nat, b: nat, max: nat): nat
    requires a + b <= max
  {
    a + b
  }

  /** The exact value when it fits the target type, an overflow error otherwise. */
  function Bounded(v: nat, max: nat): Parsed<nat> {
    if v <= max then Value(v) else Overflow
  }

  lemma AtLeast(v: nat, d: nat)
    requires v > 0
    ensures v * d >= d
  {
  }

  lemma DivLess(max: nat, d: nat, v: nat)
    requires d > 0
    ensures max / d < v <==> max < v * d
    ensures max / d < v <==> max < d * v
  {
    assert max == (max / d) * d + max % d;
    if max / d < v {
      assert (max / d + 1) * d <= v * d;
    } else {
      assert v * d <= (max / d) * d;
    }
  }

  /**
   * Reads a digit string from its last digit to its first, in a type whose largest value is
   * `max`.  `digit` stops growing at the largest power of ten that fits; from then on only
   * zeros may follow.
   */
  method FromDecimalString(s: string, max: nat) returns (r: Parsed<nat>)
    requires AllDigits(s) && max >= 9
    ensures r == Bounded(Val(s), max)
  {
    hide Val, Pow10;
    NoDigits();
    assert s[|s|..] == "";
    var ret, digit := 0, 1;
    var overflow := false;
    var i: nat := |s|;
    while i > 0
      invariant i <= |s| && 1 <= digit <= max && ret <= max
      invariant ret == Val(s[i..])
      invariant !overflow ==> digit == Pow10(|s| - i)
      invariant overflow ==> Pow10(|s| - i) > max && max / 10 < digit
    {
      i := i - 1;
      var value := DigitValue(s[i]);
      ghost var place := Pow10(|s| - i - 1);
      ghost var product := value * place;
      SplitLast(s, i);
      SuffixLess(s, i);
      assert Val(s[i..]) == product + ret;
      if value != 0 {
        if overflow {
          AtLeast(value, place);
          return Overflow;
        }
        DivLess(max, digit, value);
        if max / digit < value {
          return Overflow;
        }
        value := Times(value, digit, max);
        assert value == product;
        if max - value < ret {
          return Overflow;
        }
        ret := Plus(ret, value, max);
      }
      TenTimes(|s| - i - 1);
      DivLess(max, 10, digit);
      if max / 10 < digit {
        overflow := true;
      } else {
        digit := Times(digit, 10, max);
      }
    }
    assert s[0..] == s;
    r := Value(ret);
  }

  lemma TenTimes(n: nat)
    ensures Pow10(n + 1) == 10 * Pow10(n)
  {
  }

  /** Val of a suffix that grows by one digit. */
  lemma SplitLast(s: string, i: nat)
    requires AllDigits(s) && i < |s|
    ensures Val(s[i..]) == DigitValue(s[i]) * Pow10(|s| - i - 1) + Val(s[i + 1..])
  {
    var first, rest := [s[i]], s[i + 1..];
    assert Val(first) == DigitValue(s[i]) by {
      assert first[..0] == "";
    }
    hide Val, Pow10;
    assert s[i..] == first + rest;
    ValSplit(first, rest);
    assert |rest| == |s| - i - 1;
  }

  lemma SuffixLess(s: string, i: nat)
    requires AllDigits(s) && i <= |s|
    ensures Val(s[i..]) <= Val(s)
  {
    hide Val, Pow10;
    assert s == s[..i] + s[i..];
    ValSplit(s[..i], s[i..]);
    NotNegative(Val(s[..i]), Pow10(|s[i..]|));
  }

  lemma NotNegative(a: nat, b: nat)
    ensures a * b >= 0
  {
  }

  // ---- printing in a fixed number of digits ----

  function DigitChar(d: nat): (c: char)
    requires d <= 9
    ensures IsDigit(c) && DigitValue(c) == d
  {
    '0' + d as char
  }

  /** The last n decimal digits of v. */
  function Digits(v: nat, n: nat): (s: string)
    ensures |s| == n
  {
    if n == 0 then "" else Digits(v / 10, n - 1) + [DigitChar(v % 10)]
  }

  /** Fills a small buffer from its end and appends it. */
  method AppendNumber(s: string, n: nat, value: nat) returns (r: string)
    ensures r == s + Digits(value, n)
  {
    var buffer := new char[if n > 0 then n else 1];
    var i: nat, v: nat := n, value;
    while i > 0
      invariant i <= n
      invariant Digits(value, n) == Digits(v, i) + buffer[i..n]
    {
      ghost var done := buffer[i..n];
      buffer[i - 1] := DigitChar(v % 10);
      assert buffer[i - 1..n] == [DigitChar(v % 10)] + done;
      assert Digits(v, i) == Digits(v / 10, i - 1) + [DigitChar(v % 10)];
      v := v / 10;
      i := i - 1;
    }
    r := s + buffer[..n];
  }

  /** The digits printed denote the number modulo the power of ten. */
  lemma {:induction false} DigitsVal(v: nat, n: nat)
    ensures AllDigits(Digits(v, n)) && Val(Digits(v, n)) == v % Pow10(n)
  {
    if n > 0 {
      DigitsVal(v / 10, n - 1);
      var s := Digits(v, n);
      assert s[..n - 1] == Digits(v / 10, n - 1);
      ModTen(v, Pow10(n - 1));
    }
  }

  lemma ModTen(v: nat, p: nat)
    requires p >= 1
    ensures 10 * ((v / 10) % p) + v % 10 == v % (10 * p)
  {
    var q, r := v / 10 / p, (v / 10) % p;
    assert v / 10 == p * q + r;
    assert v == 10 * (p * q) + (10 * r + v % 10);
    assert 10 * (p * q) == (10 * p) * q;
    assert 0 <= 10 * r + v % 10 < 10 * p;
    DivModUnique(v, 10 * p, q, 10 * r + v % 10);
  }

  lemma DivModUnique(v: nat, m: nat, q: nat, r: nat)
    requires m > 0 && r < m && v == m * q + r
    ensures v / m == q && v % m == r
  {
    var k := q - v / m;
    assert m * k == v % m - r;
    if k >= 1 { AtLeast(k, m); } else if k <= -1 { AtLeast(-k, m); }
  }

  /** Printing inverts reading on strings of the same length. */
  lemma {:induction false} DigitsOfVal(s: string)
    requires AllDigits(s)
    ensures Digits(Val(s), |s|) == s
  {
    if s != "" {
      var front, d := s[..|s| - 1], DigitValue(s[|s| - 1]);
      DigitsOfVal(front);
      assert Val(s) / 10 == Val(front) && Val(s) % 10 == d;
      assert s == front + [DigitChar(d)];
    }
  }

  // ---- printing in as many digits as needed ----

  /** std::to_string of an unsigned number. */
  function ToString(v: nat): (s: string)
    ensures |s| >= 1
  {
    if v < 10 then [DigitChar(v)] else ToString(v / 10) + [DigitChar(v % 10)]
  }

  lemma {:induction false} ToStringVal(v: nat)
    ensures AllDigits(ToString(v)) && Val(ToString(v)) == v
  {
    var s := ToString(v);
    if v < 10 {
      assert s[..0] == "";
    } else {
      ToStringVal(v / 10);
      assert s[..|s| - 1] == ToString(v / 10);
    }
  }

  predicate IsHexDigit(c: char) {
    '0' <= c <= '9' || 'a' <= c <= 'f' || 'A' <= c <= 'F'
  }

  function HexDigitValue(c: char): (d: nat)
    requires IsHexDigit(c)
    ensures d <= 15
  {
    if '0' <= c <= '9' then (c - '0') as nat
    else if 'a' <= c <= 'f' then (c - 'a') as nat + 10
    else (c - 'A') as nat + 10
  }

  predicate AllHex(s: string) {
    forall i :: 0 <= i < |s| ==> IsHexDigit(s[i])
  }

  function HexVal(s: string): nat
    requires AllHex(s)
  {
    if s == "" then 0 else 16 * HexVal(s[..|s| - 1]) + HexDigitValue(s[|s| - 1])
  }

  function HexDigitChar(d: nat): (c: char)
    requires d <= 15
    ensures IsHexDigit(c) && HexDigitValue(c) == d
  {
    if d <= 9 then '0' + d as char else 'a' + (d - 10) as char
  }

  /** What an output stream in std::hex mode prints. */
  function ToHex(v: nat): (s: string)
    ensures |s| >= 1
  {
    if v < 16 then [HexDigitChar(v)] else ToHex(v / 16) + [HexDigitChar(v % 16)]
  }

  lemma {:induction false} ToHexVal(v: nat)
    ensures AllHex(ToHex(v)) && HexVal(ToHex(v)) == v
  {
    var s := ToHex(v);
    if v < 16 {
      assert s[..0] == "";
    } else {
      ToHexVal(v / 16);
      assert s[..|s| - 1] == ToHex(v / 16);
    }
  }

  /** The digits, written out. */
  lemma DigitsAre()
    ensures [DigitChar(0), DigitChar(1), DigitChar(2), DigitChar(3), DigitChar(4)] == "01234"
    ensures [DigitChar(5), DigitChar(6), DigitChar(7), DigitChar(8), DigitChar(9)] == "56789"
    ensures [HexDigitChar(0), HexDigitChar(5), HexDigitChar(9), HexDigitChar(10), HexDigitChar(11)] == "059ab"
    ensures [HexDigitChar(12), HexDigitChar(13), HexDigitChar(14), HexDigitChar(15)] == "cdef"
  {
  }
}
