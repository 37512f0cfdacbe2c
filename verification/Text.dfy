/** Strings as the library's algorithms see them: searching, splitting and joining. */
module Text {

  /** The first index from `i` on that holds `c`, or |s| (what std::find returns). */
  function Find(s: string, c: char, i: nat): (j: nat)
    requires i <= |s|
    ensures i <= j <= |s|
    ensures forall k :: i <= k < j ==> s[k] != c
    ensures j < |s| ==> s[j] == c
    decreases |s| - i
  {
    if i == |s| || s[i] == c then i else Find(s, c, i + 1)
  }

  /** The pieces of s[i..] between the occurrences of `c`; always at least one. */
  function SplitFrom(s: string, c: char, i: nat): (parts: seq<string>)
    requires i <= |s|
    ensures |parts| >= 1
    decreases |s| - i
  {
    var j := Find(s, c, i);
    if j == |s| then [s[i..j]] else [s[i..j]] + SplitFrom(s, c, j + 1)
  }

  function Split(s: string, c: char): seq<string> {
    SplitFrom(s, c, 0)
  }

  /** The pieces with a `c` between any two neighbours. */
  function Join(parts: seq<string>, c: char): string {
    if parts == [] then ""
    else if |parts| == 1 then parts[0]
    else parts[0] + [c] + Join(parts[1..], c)
  }

  ghost predicate Free(s: string, c: char) {
    forall k :: 0 <= k < |s| ==> s[k] != c
  }

  lemma {:induction false} FindIn(head: string, tail: string, c: char, i: nat)
    requires Free(head, c) && i <= |head|
    ensures Find(head + [c] + tail, c, i) == |head|
    decreases |head| - i
  {
    if i < |head| { FindIn(head, tail, c, i + 1); }
  }

  lemma {:induction false} FindNone(s: string, c: char, i: nat)
    requires Free(s, c) && i <= |s|
    ensures Find(s, c, i) == |s|
    decreases |s| - i
  {
    if i < |s| { FindNone(s, c, i + 1); }
  }

  lemma {:induction false} FindShift(p: string, s: string, c: char, i: nat)
    requires i <= |s|
    ensures Find(p + s, c, |p| + i) == |p| + Find(s, c, i)
    decreases |s| - i
  {
    if i < |s| && s[i] != c { FindShift(p, s, c, i + 1); }
  }

  lemma {:induction false} SplitShift(p: string, s: string, c: char, i: nat)
    requires i <= |s|
    ensures SplitFrom(p + s, c, |p| + i) == SplitFrom(s, c, i)
    decreases |s| - i
  {
    hide Find;
    var j := Find(s, c, i);
    FindShift(p, s, c, i);
    assert (p + s)[|p| + i..|p| + j] == s[i..j];
    if j < |s| { SplitShift(p, s, c, j + 1); }
  }

  lemma {:induction false} PiecesFree(s: string, c: char, i: nat)
    requires i <= |s|
    ensures forall k :: 0 <= k < |SplitFrom(s, c, i)| ==> Free(SplitFrom(s, c, i)[k], c)
    decreases |s| - i
  {
    var j := Find(s, c, i);
    if j < |s| { PiecesFree(s, c, j + 1); }
  }

  lemma SplitFirst(head: string, tail: string, c: char)
    requires Free(head, c)
    ensures Split(head + [c] + tail, c) == [head] + Split(tail, c)
  {
    FindIn(head, tail, c, 0);
    SplitShift(head + [c], tail, c, 0);
    assert (head + [c] + tail)[0..|head|] == head;
  }

  lemma SplitWhole(s: string, c: char)
    requires Free(s, c)
    ensures Split(s, c) == [s]
  {
    FindNone(s, c, 0);
    assert s[0..|s|] == s;
  }

  /** Joining pieces without the separator is undone by splitting. */
  lemma {:induction false} SplitJoin(parts: seq<string>, c: char)
    requires parts != []
    requires forall k :: 0 <= k < |parts| ==> Free(parts[k], c)
    ensures Split(Join(parts, c), c) == parts
  {
    if |parts| == 1 {
      SplitWhole(parts[0], c);
    } else {
      SplitFirst(parts[0], Join(parts[1..], c), c);
      SplitJoin(parts[1..], c);
    }
  }

  /** ASCII lower case, what std::tolower does in the C locale. */
  function LowerChar(c: char): char {
    if 'A' <= c <= 'Z' then c + 32 as char else c
  }

  function Lower(s: string): (r: string)
    ensures |r| == |s|
    ensures forall i :: 0 <= i < |s| ==> r[i] == LowerChar(s[i])
  {
    seq(|s|, i requires 0 <= i < |s| => LowerChar(s[i]))
  }

  /** The letters, written out; nothing else changes. */
  lemma LowerLetters(c: char)
    ensures Lower("ABCDEFGHIJKLM") == "abcdefghijklm" && Lower("NOPQRSTUVWXYZ") == "nopqrstuvwxyz"
    ensures c !in "ABCDEFGHIJKLM" && c !in "NOPQRSTUVWXYZ" ==> LowerChar(c) == c
  {
    if 'A' <= c <= 'M' {
      assert "ABCDEFGHIJKLM"[(c - 'A') as int] == c;
    } else if 'N' <= c <= 'Z' {
      assert "NOPQRSTUVWXYZ"[(c - 'N') as int] == c;
    }
  }

  /** Equality up to ASCII case (boost::algorithm::iequals in the C locale). */
  predicate EqualsIgnoringCase(a: string, b: string) {
    Lower(a) == Lower(b)
  }
}
