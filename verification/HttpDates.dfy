/** HTTP dates in the preferred format of section 7.1.1.1 of RFC 7231. */
module HttpDates {
  import opened Numbers
  import opened Results

  /** A calendar date and a time of day in whole seconds. */
  datatype DateTime = DateTime(year: nat, month: nat, day: nat, seconds: nat)

  datatype Weekday = Mon | Tue | Wed | Thu | Fri | Sat | Sun

  const SHORT_MAX := 0xFFFF
  const LONG_MAX := 0x7FFF_FFFF_FFFF_FFFF

  predicate IsLeap(y: nat) {
    y % 4 == 0 && (y % 100 != 0 || y % 400 == 0)
  }

  function DaysIn(y: nat, m: nat): nat {
    if m == 2 then if IsLeap(y) then 29 else 28
    else if m == 4 || m == 6 || m == 9 || m == 11 then 30
    else 31
  }

  /** The dates that the calendar library accepts. */
  predicate IsDate(y: nat, m: nat, d: nat) {
    1400 <= y <= 9999 && 1 <= m <= 12 && 1 <= d <= DaysIn(y, m)
  }

  predicate IsDateTime(t: DateTime) {
    IsDate(t.year, t.month, t.day) && t.seconds < 86400
  }

  // ---- the calendar ----

  /** The days of the years before y, of the months before m, and of all up to a date. */
  function DaysBefore(y: nat): nat
    requires y > 0
  {
    365 * (y - 1) + (y - 1) / 4 - (y - 1) / 100 + (y - 1) / 400
  }

  function DaysBeforeMonth(y: nat, m: nat): nat {
    if m <= 1 then 0 else DaysBeforeMonth(y, m - 1) + DaysIn(y, m - 1)
  }

  function DayNumber(y: nat, m: nat, d: nat): nat
    requires y > 0
  {
    DaysBefore(y) + DaysBeforeMonth(y, m) + d
  }

  const WEEK := [Sun, Mon, Tue, Wed, Thu, Fri, Sat]

  /** The day of the week of a date. */
  function WeekdayOf(t: DateTime): Weekday
    requires t.year > 0
  {
    WEEK[DayNumber(t.year, t.month, t.day) % 7]
  }

  function DayAfter(w: Weekday): Weekday {
    match w
    case Mon => Tue case Tue => Wed case Wed => Thu case Thu => Fri case Fri => Sat case Sat => Sun case Sun => Mon
  }

  function NextDate(t: DateTime): DateTime {
    if t.day < DaysIn(t.year, t.month) then t.(day := t.day + 1)
    else if t.month < 12 then t.(month := t.month + 1, day := 1)
    else t.(year := t.year + 1, month := 1, day := 1)
  }

  lemma YearDays(y: nat)
    requires y > 0
    ensures DaysBefore(y + 1) == DaysBefore(y) + DaysBeforeMonth(y, 12) + DaysIn(y, 12)
  {
    MonthsDays(y);
    Leaps(y);
  }

  lemma MonthsDays(y: nat)
    ensures DaysBeforeMonth(y, 11) == 304 + if IsLeap(y) then 1 else 0
    ensures DaysBeforeMonth(y, 12) == 334 + if IsLeap(y) then 1 else 0
  {
    var feb := DaysIn(y, 2);
    assert DaysBeforeMonth(y, 2) == 31 && DaysBeforeMonth(y, 3) == 31 + feb;
    assert DaysBeforeMonth(y, 5) == 92 + feb;
    assert DaysBeforeMonth(y, 7) == 153 + feb;
    assert DaysBeforeMonth(y, 9) == 215 + feb;
    assert DaysBeforeMonth(y, 10) == 245 + feb;
  }

  lemma Leaps(y: nat)
    requires y > 0
    ensures y / 4 - y / 100 + y / 400 ==
            (y - 1) / 4 - (y - 1) / 100 + (y - 1) / 400 + if IsLeap(y) then 1 else 0
  {
    MoreFours(y);
    MoreHundreds(y);
    MoreFourHundreds(y);
    LeapsByThese(y, y / 4, (y - 1) / 4, y / 100, (y - 1) / 100, y / 400, (y - 1) / 400);
  }

  lemma LeapsByThese(y: nat, a: nat, a': nat, b: nat, b': nat, c: nat, c': nat)
    requires a == a' + if y % 4 == 0 then 1 else 0
    requires b == b' + if y % 100 == 0 then 1 else 0
    requires c == c' + if y % 400 == 0 then 1 else 0
    ensures a - b + c == a' - b' + c' + if IsLeap(y) then 1 else 0
  {
    if y % 400 == 0 {
      Divides(y, 100, 4);
    }
    if y % 100 == 0 {
      Divides(y, 4, 25);
    }
  }

  lemma Divides(y: nat, m: nat, k: nat)
    requires m > 0 && k > 0 && y % (m * k) == 0
    ensures y % m == 0
  {
    var q := y / (m * k);
    assert y == (m * k) * q;
    assert (m * k) * q == m * (k * q);
    DivModUnique(y, m, k * q, 0);
  }

  lemma MoreFours(y: nat)
    requires y > 0
    ensures y / 4 == (y - 1) / 4 + if y % 4 == 0 then 1 else 0
  {
  }

  lemma MoreHundreds(y: nat)
    requires y > 0
    ensures y / 100 == (y - 1) / 100 + if y % 100 == 0 then 1 else 0
  {
  }

  lemma MoreFourHundreds(y: nat)
    requires y > 0
    ensures y / 400 == (y - 1) / 400 + if y % 400 == 0 then 1 else 0
  {
  }

  /** Every date follows on the weekday after that of the date before it. */
  lemma WeekdaysFollow(t: DateTime)
    requires IsDateTime(t)
    ensures WeekdayOf(NextDate(t)) == DayAfter(WeekdayOf(t))
  {
    hide DaysBefore, IsLeap;
    if t.month == 12 && t.day == 31 {
      YearDays(t.year);
    }
    var n, n' := DayNumber(t.year, t.month, t.day), NextDate(t);
    assert DayNumber(n'.year, n'.month, n'.day) == n + 1;
  }

  /** The date of the examples in section 7.1.1.1 of RFC 7231 is a Sunday. */
  lemma Anchor()
    ensures WeekdayOf(DateTime(1994, 11, 6, 0)) == Sun
  {
    MonthsDays(1994);
  }

  function DayName(w: Weekday): (s: string)
    ensures |s| == 3
  {
    match w
    case Mon => "Mon" case Tue => "Tue" case Wed => "Wed" case Thu => "Thu"
    case Fri => "Fri" case Sat => "Sat" case Sun => "Sun"
  }

  /** The month's name and the space after it. */
  function MonthText(m: nat): (s: string)
    requires 1 <= m <= 12
    ensures |s| == 4
  {
    ["Jan ", "Feb ", "Mar ", "Apr ", "May ", "Jun ",
     "Jul ", "Aug ", "Sep ", "Oct ", "Nov ", "Dec "][m - 1]
  }

  // ---- printing ----

  /** The printed date; t.seconds counts from midnight. */
  function HttpDate(w: Weekday, t: DateTime): (s: string)
    requires 1 <= t.month <= 12
    ensures |s| == 29
  {
    DayName(w) + ", " + Digits(t.day, 2) + " " + MonthText(t.month) + Digits(t.year, 4) + " "
    + Digits(t.seconds / 3600, 2) + ":" + Digits(t.seconds / 60 % 60, 2) + ":"
    + Digits(t.seconds % 60, 2) + " GMT"
  }

  method AppendMonth(s: string, month: nat) returns (r: string)
    requires 1 <= month <= 12
    ensures r == s + MonthText(month)
  {
    match month {
      case 1 => r := s + "Jan ";
      case 2 => r := s + "Feb ";
      case 3 => r := s + "Mar ";
      case 4 => r := s + "Apr ";
      case 5 => r := s + "May ";
      case 6 => r := s + "Jun ";
      case 7 => r := s + "Jul ";
      case 8 => r := s + "Aug ";
      case 9 => r := s + "Sep ";
      case 10 => r := s + "Oct ";
      case 11 => r := s + "Nov ";
      case _ => r := s + "Dec ";
    }
  }

  method ToHttpDate(t: DateTime) returns (r: string)
    requires IsDateTime(t)
    ensures r == HttpDate(WeekdayOf(t), t)
  {
    hide WeekdayOf;
    r := DayName(WeekdayOf(t)) + ", ";
    r := AppendNumber(r, 2, t.day);
    r := r + " ";
    r := AppendMonth(r, t.month);
    r := AppendNumber(r, 4, t.year);
    r := r + " ";
    r := AppendNumber(r, 2, t.seconds / 3600);
    r := r + ":";
    r := AppendNumber(r, 2, t.seconds / 60 % 60);
    r := r + ":";
    r := AppendNumber(r, 2, t.seconds % 60);
    r := r + " GMT";
  }

  // ---- reading ----

  /** The month of a name that the date layout has already checked. */
  function FromSubmatchToMonth(m: string): nat
    requires |m| == 3
  {
    match m[0]
    case 'A' => if m[1] == 'p' then 4 else 8
    case 'D' => 12
    case 'F' => 2
    case 'J' => if m[1] == 'a' then 1 else if m[2] == 'n' then 6 else 7
    case 'M' => if m[2] == 'r' then 3 else 5
    case 'N' => 11
    case 'O' => 10
    case _ => 9
  }

  predicate IsDayName(s: string) {
    exists w: Weekday :: s == DayName(w)
  }

  predicate IsMonthText(s: string) {
    exists m :: 1 <= m <= 12 && s == MonthText(m)
  }

  predicate DigitsAt(s: string, i: nat, n: nat) {
    i + n <= |s| && forall k :: i <= k < i + n ==> IsDigit(s[k])
  }

  /** The regular expression of the reader, position by position. */
  predicate MatchesLayout(s: string) {
    && |s| == 29
    && IsDayName(s[..3]) && s[3..5] == ", "
    && DigitsAt(s, 5, 2) && s[7] == ' '
    && IsMonthText(s[8..12])
    && DigitsAt(s, 12, 4) && s[16] == ' '
    && DigitsAt(s, 17, 2) && s[19] == ':'
    && DigitsAt(s, 20, 2) && s[22] == ':'
    && DigitsAt(s, 23, 2) && s[25..] == " GMT"
  }

  /** The date that a text denotes, if it denotes one; numbers are not bounded here. */
  ghost function Read(s: string): Option<DateTime> {
    if !MatchesLayout(s) then None
    else
      var day, year := Val(s[5..7]), Val(s[12..16]);
      var hour, min, sec := Val(s[17..19]), Val(s[20..22]), Val(s[23..25]);
      var month := FromSubmatchToMonth(s[8..11]);
      if hour > 23 || min > 59 || sec > 60 || !IsDate(year, month, day) then None
      else Some(DateTime(year, month, day, hour * 3600 + min * 60 + sec))
  }

  lemma {:induction false} DigitsBound(s: string)
    requires AllDigits(s)
    ensures Val(s) < Pow10(|s|)
  {
    if s != "" { DigitsBound(s[..|s| - 1]); }
  }

  lemma Fits(s: string, i: nat, n: nat)
    requires DigitsAt(s, i, n) && n <= 4
    ensures AllDigits(s[i..i + n]) && Val(s[i..i + n]) <= SHORT_MAX < LONG_MAX
  {
    DigitsBound(s[i..i + n]);
    assert Pow10(0) == 1 && Pow10(1) == 10 && Pow10(2) == 100 && Pow10(3) == 1000 && Pow10(4) == 10000;
  }

  /**
   * Reads the layout; None stands for the answer false.  A leap second is kept as it is
   * summed into the seconds of the day.
   */
  method Rfc1123(s: string) returns (r: Option<DateTime>)
    ensures r == Read(s)
  {
    hide IsDayName, IsMonthText, FromSubmatchToMonth, IsDate, Val;
    if !MatchesLayout(s) {
      return None;
    }
    Fits(s, 17, 2); Fits(s, 20, 2); Fits(s, 23, 2); Fits(s, 5, 2); Fits(s, 12, 4);
    var hour := FromDecimalString(s[17..19], LONG_MAX);
    var min := FromDecimalString(s[20..22], LONG_MAX);
    var sec := FromDecimalString(s[23..25], LONG_MAX);
    if hour.value > 23 || min.value > 59 || sec.value > 60 {
      return None;
    }
    var year := FromDecimalString(s[12..16], SHORT_MAX);
    var month := FromSubmatchToMonth(s[8..11]);
    var day := FromDecimalString(s[5..7], SHORT_MAX);
    if !IsDate(year.value, month, day.value) {
      return None;
    }
    return Some(DateTime(year.value, month, day.value,
                         hour.value * 3600 + min.value * 60 + sec.value));
  }

  // ---- the two are inverse ----

  lemma MonthBack(m: nat)
    requires 1 <= m <= 12
    ensures IsMonthText(MonthText(m)) && FromSubmatchToMonth(MonthText(m)[..3]) == m
  {
  }

  lemma MonthForth(s: string)
    requires IsMonthText(s)
    ensures var m := FromSubmatchToMonth(s[..3]); 1 <= m <= 12 && s == MonthText(m)
  {
    var m :| 1 <= m <= 12 && s == MonthText(m);
    MonthBack(m);
  }

  /** A text is the printed date exactly when its fields are the printed fields. */
  lemma ByFields(s: string, w: Weekday, t: DateTime)
    requires 1 <= t.month <= 12
    ensures s == HttpDate(w, t) <==>
            && |s| == 29
            && s[..3] == DayName(w) && s[3..5] == ", "
            && s[5..7] == Digits(t.day, 2) && s[7] == ' '
            && s[8..12] == MonthText(t.month)
            && s[12..16] == Digits(t.year, 4) && s[16] == ' '
            && s[17..19] == Digits(t.seconds / 3600, 2) && s[19] == ':'
            && s[20..22] == Digits(t.seconds / 60 % 60, 2) && s[22] == ':'
            && s[23..25] == Digits(t.seconds % 60, 2) && s[25..] == " GMT"
  {
    hide Digits, DayName, MonthText;
    var p := HttpDate(w, t);
    assert p[..3] == DayName(w) && p[3..5] == ", ";
    assert p[5..7] == Digits(t.day, 2) && p[7] == ' ';
    assert p[8..12] == MonthText(t.month) && p[12..16] == Digits(t.year, 4) && p[16] == ' ';
    assert p[17..19] == Digits(t.seconds / 3600, 2) && p[19] == ':';
    assert p[20..22] == Digits(t.seconds / 60 % 60, 2) && p[22] == ':';
    assert p[23..25] == Digits(t.seconds % 60, 2) && p[25..] == " GMT";
    if |s| == 29 {
      assert s == s[..3] + s[3..5] + s[5..7] + [s[7]] + s[8..12] + s[12..16] + [s[16]]
                  + s[17..19] + [s[19]] + s[20..22] + [s[22]] + s[23..25] + s[25..];
    }
  }

  lemma SmallMod(v: nat, m: nat)
    requires v < m
    ensures v % m == v
  {
  }

  lemma FieldBack(s: string, i: nat, n: nat, v: nat)
    requires i + n <= |s| && s[i..i + n] == Digits(v, n) && v < Pow10(n)
    ensures DigitsAt(s, i, n) && Val(s[i..i + n]) == v
  {
    hide Digits, Val, Pow10;
    DigitsVal(v, n);
    SmallMod(v, Pow10(n));
    var field := s[i..i + n];
    forall k | i <= k < i + n
      ensures IsDigit(s[k])
    {
      assert s[k] == field[k - i];
    }
  }

  lemma FieldForth(s: string, i: nat, n: nat)
    requires DigitsAt(s, i, n) && n <= 4
    ensures Val(s[i..i + n]) <= SHORT_MAX && s[i..i + n] == Digits(Val(s[i..i + n]), n)
  {
    Fits(s, i, n);
    DigitsOfVal(s[i..i + n]);
  }

  lemma Powers()
    ensures Pow10(2) == 100 && Pow10(4) == 10000
  {
    assert Pow10(0) == 1 && Pow10(1) == 10 && Pow10(3) == 1000;
  }

  lemma Clock(seconds: nat)
    requires seconds < 86400
    ensures var h, m, s := seconds / 3600, seconds / 60 % 60, seconds % 60;
            h <= 23 && m <= 59 && s <= 59 && h * 3600 + m * 60 + s == seconds
  {
  }

  lemma ClockBack(t: nat, h: nat, m: nat, s: nat)
    requires h <= 23 && m <= 59 && s <= 59 && t == h * 3600 + m * 60 + s
    ensures t < 86400 && t / 3600 == h && t / 60 % 60 == m && t % 60 == s
  {
    DivModUnique(t, 3600, h, m * 60 + s);
    DivModUnique(t, 60, h * 60 + m, s);
    DivModUnique(h * 60 + m, 60, h, m);
  }

  lemma ValOfTwo(s: string)
    requires |s| == 2 && AllDigits(s)
    ensures Val(s) == 10 * DigitValue(s[0]) + DigitValue(s[1])
  {
    var front := s[..1];
    assert front[..0] == "";
    assert Val(front) == DigitValue(s[0]);
  }

  lemma PrintedLayout(w: Weekday, t: DateTime)
    requires IsDateTime(t)
    ensures var s := HttpDate(w, t);
            && MatchesLayout(s) && s[23..25] != "60"
            && Val(s[5..7]) == t.day && FromSubmatchToMonth(s[8..11]) == t.month && Val(s[12..16]) == t.year
            && Val(s[17..19]) == t.seconds / 3600 && Val(s[20..22]) == t.seconds / 60 % 60
            && Val(s[23..25]) == t.seconds % 60
  {
    hide HttpDate, FromSubmatchToMonth, MonthText, DayName, Digits, Val;
    var s := HttpDate(w, t);
    ByFields(s, w, t);
    FieldsBack(s, t.day, t.year, t.seconds / 3600, t.seconds / 60 % 60, t.seconds % 60);
    MonthBack(t.month);
    assert s[8..11] == s[8..12][..3];
    assert s[23..25] != "60" by { ValOfTwo("60"); }
  }

  lemma RoundTrip(w: Weekday, t: DateTime)
    requires IsDateTime(t)
    ensures Read(HttpDate(w, t)) == Some(t)
  {
    hide HttpDate, MatchesLayout, Val, FromSubmatchToMonth;
    PrintedLayout(w, t);
    Clock(t.seconds);
  }

  lemma FieldsBack(s: string, day: nat, year: nat, hour: nat, min: nat, sec: nat)
    requires |s| == 29 && day <= 99 && year <= 9999 && hour <= 99 && min <= 99 && sec <= 99
    requires s[5..7] == Digits(day, 2) && s[12..16] == Digits(year, 4)
    requires s[17..19] == Digits(hour, 2) && s[20..22] == Digits(min, 2) && s[23..25] == Digits(sec, 2)
    ensures DigitsAt(s, 5, 2) && Val(s[5..7]) == day
    ensures DigitsAt(s, 12, 4) && Val(s[12..16]) == year
    ensures DigitsAt(s, 17, 2) && Val(s[17..19]) == hour
    ensures DigitsAt(s, 20, 2) && Val(s[20..22]) == min
    ensures DigitsAt(s, 23, 2) && Val(s[23..25]) == sec
  {
    Powers();
    FieldBack(s, 5, 2, day); FieldBack(s, 12, 4, year);
    FieldBack(s, 17, 2, hour); FieldBack(s, 20, 2, min); FieldBack(s, 23, 2, sec);
  }

  lemma Converse(s: string, t: DateTime) returns (w: Weekday)
    requires Read(s) == Some(t) && s[23..25] != "60"
    ensures IsDateTime(t) && s == HttpDate(w, t)
  {
    w :| s[..3] == DayName(w);
    assert 1 <= t.month <= 12 && s[8..12] == MonthText(t.month) by {
      MonthForth(s[8..12]);
      assert s[8..11] == s[8..12][..3];
    }
    var h, m, sec := Val(s[17..19]), Val(s[20..22]), Val(s[23..25]);
    assert t.seconds == h * 3600 + m * 60 + sec && t.day == Val(s[5..7]) && t.year == Val(s[12..16]);
    hide DayName, MonthText, Digits, Val, FromSubmatchToMonth, Read;
    FieldsForth(s);
    ClockBack(t.seconds, h, m, sec);
    ByFields(s, w, t);
  }

  lemma FieldsForth(s: string)
    requires |s| == 29 && DigitsAt(s, 5, 2) && DigitsAt(s, 12, 4) && DigitsAt(s, 17, 2)
    requires DigitsAt(s, 20, 2) && DigitsAt(s, 23, 2)
    ensures s[5..7] == Digits(Val(s[5..7]), 2) && s[12..16] == Digits(Val(s[12..16]), 4)
    ensures s[17..19] == Digits(Val(s[17..19]), 2) && s[20..22] == Digits(Val(s[20..22]), 2)
    ensures s[23..25] == Digits(Val(s[23..25]), 2)
    ensures Val(s[23..25]) == 60 ==> s[23..25] == "60"
  {
    hide Val;
    FieldForth(s, 5, 2); FieldForth(s, 12, 4);
    FieldForth(s, 17, 2); FieldForth(s, 20, 2); FieldForth(s, 23, 2);
    assert Digits(60, 2) == "60" by { assert Digits(6, 1) == "6"; }
  }

  /**
   * A text without a leap second is read as t exactly when it is what the printer makes of
   * t under some day name (which the reader accepts unchecked).
   */
  lemma ReadInvertsPrint(s: string, t: DateTime)
    ensures (Read(s) == Some(t) && s[23..25] != "60") <==>
            (IsDateTime(t) && exists w :: s == HttpDate(w, t))
  {
    if Read(s) == Some(t) && s[23..25] != "60" {
      var w := Converse(s, t);
    }
    if IsDateTime(t) && exists w :: s == HttpDate(w, t) {
      var w :| s == HttpDate(w, t);
      RoundTrip(w, t);
      PrintedLayout(w, t);
    }
  }

  /** The texts that are printed for t are those that are read as t, without a leap second and with its weekday. */
  lemma PrintedExactly(s: string, t: DateTime)
    ensures (IsDateTime(t) && s == HttpDate(WeekdayOf(t), t)) <==>
            (Read(s) == Some(t) && s[23..25] != "60" && s[..3] == DayName(WeekdayOf(t)))
  {
    hide HttpDate, WeekdayOf;
    ReadInvertsPrint(s, t);
    if Read(s) == Some(t) && s[23..25] != "60" {
      var w :| s == HttpDate(w, t);
      ByFields(s, w, t);
      NamesApart(w, WeekdayOf(t));
    }
    if IsDateTime(t) && s == HttpDate(WeekdayOf(t), t) {
      ByFields(s, WeekdayOf(t), t);
    }
  }

  lemma NamesApart(v: Weekday, w: Weekday)
    ensures DayName(v) == DayName(w) ==> v == w
  {
  }

  // ---- texts written out ----

  /** The names of the days and months, as section 7.1.1.1 of RFC 7231 has them, and back. */
  lemma NamesAre()
    ensures [DayName(Mon), DayName(Tue), DayName(Wed), DayName(Thu), DayName(Fri), DayName(Sat), DayName(Sun)]
            == ["Mon", "Tue", "Wed", "Thu", "Fri", "Sat", "Sun"]
    ensures [MonthText(1), MonthText(2), MonthText(3), MonthText(4), MonthText(5), MonthText(6)]
            == ["Jan ", "Feb ", "Mar ", "Apr ", "May ", "Jun "]
    ensures [MonthText(7), MonthText(8), MonthText(9), MonthText(10), MonthText(11), MonthText(12)]
            == ["Jul ", "Aug ", "Sep ", "Oct ", "Nov ", "Dec "]
  {
  }

  lemma MonthsRead()
    ensures FromSubmatchToMonth("Jan") == 1 && FromSubmatchToMonth("Feb") == 2 && FromSubmatchToMonth("Mar") == 3
    ensures FromSubmatchToMonth("Apr") == 4 && FromSubmatchToMonth("May") == 5 && FromSubmatchToMonth("Jun") == 6
    ensures FromSubmatchToMonth("Jul") == 7 && FromSubmatchToMonth("Aug") == 8 && FromSubmatchToMonth("Sep") == 9
    ensures FromSubmatchToMonth("Oct") == 10 && FromSubmatchToMonth("Nov") == 11 && FromSubmatchToMonth("Dec") == 12
  {
  }

  /** The lengths of the months, which years are leap years, and the first and last date of the calendar. */
  lemma MonthLengths(y: nat)
    ensures [DaysIn(y, 1), DaysIn(y, 3), DaysIn(y, 4), DaysIn(y, 5), DaysIn(y, 6), DaysIn(y, 7)] == [31, 31, 30, 31, 30, 31]
    ensures [DaysIn(y, 8), DaysIn(y, 9), DaysIn(y, 10), DaysIn(y, 11), DaysIn(y, 12)] == [31, 30, 31, 30, 31]
    ensures DaysIn(1900, 2) == DaysIn(2015, 2) == 28 && DaysIn(2000, 2) == DaysIn(2016, 2) == 29
    ensures IsDate(1400, 1, 1) && IsDate(9999, 12, 31) && !IsDate(1399, 12, 31) && !IsDate(10000, 1, 1)
  {
  }

  const EXAMPLE := DateTime(1994, 11, 6, 8 * 3600 + 49 * 60 + 37)

  /** The example of section 7.1.1.1 of RFC 7231. */
  lemma ExamplePrinted()
    ensures HttpDate(WeekdayOf(EXAMPLE), EXAMPLE) == "Sun, 06 Nov 1994 08:49:37 GMT"
  {
    hide WeekdayOf, Digits;
    assert WeekdayOf(EXAMPLE) == Sun by {
      ExampleIsSunday();
    }
    assert EXAMPLE.seconds / 3600 == 8 && EXAMPLE.seconds / 60 % 60 == 49 && EXAMPLE.seconds % 60 == 37;
    ExampleDigits();
  }

  lemma ExampleIsSunday()
    ensures WeekdayOf(EXAMPLE) == Sun
  {
    Anchor();
  }

  lemma ExampleDigits()
    ensures Digits(6, 2) == "06" && Digits(8, 2) == "08" && Digits(49, 2) == "49" && Digits(37, 2) == "37"
    ensures Digits(1994, 4) == "1994"
  {
    assert Digits(0, 1) == "0" && Digits(4, 1) == "4" && Digits(3, 1) == "3";
    assert Digits(1, 1) == "1" && Digits(19, 2) == "19" && Digits(199, 3) == "199";
  }

  /** A leap second is read, as the second behind the last of its minute. */
  lemma LeapSecondRead(w: Weekday, t: DateTime)
    requires IsDateTime(t) && t.seconds % 60 == 59
    ensures Read(HttpDate(w, t)[..23] + "60 GMT") == Some(t.(seconds := t.seconds + 1))
  {
    hide HttpDate, FromSubmatchToMonth, MonthText, DayName, Digits, Val, IsDayName, IsMonthText;
    var p, s := HttpDate(w, t), HttpDate(w, t)[..23] + "60 GMT";
    PrintedLayout(w, t);
    Clock(t.seconds);
    assert s[..3] == p[..3] && s[3..5] == p[3..5] && s[5..7] == p[5..7] && s[8..12] == p[8..12] && s[8..11] == p[8..11];
    assert s[12..16] == p[12..16] && s[17..19] == p[17..19] && s[20..22] == p[20..22];
    assert s[23..25] == "60" && s[25..] == " GMT";
    assert forall k :: 0 <= k < 23 ==> s[k] == p[k];
    assert Val("60") == 60 by { ValOfTwo("60"); }
  }
}
