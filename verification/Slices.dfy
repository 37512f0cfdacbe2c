/** Slices of a byte buffer that moves, and of the stream that it holds a part of. */
module Slices {

  /** `s` with the bytes of `t` in place of its own from `at` on. */
  function Spliced(s: string, at: nat, t: string): (r: string)
    requires at + |t| <= |s|
    ensures |r| == |s|
  {
    s[..at] + t + s[at + |t|..]
  }

  lemma IsSpliced(s: string, at: nat, t: string, r: string)
    requires at + |t| <= |s| == |r|
    requires forall j :: 0 <= j < |s| ==> r[j] == if at <= j < at + |t| then t[j - at] else s[j]
    ensures r == Spliced(s, at, t)
  {
  }

  lemma SplicedParts(s: string, at: nat, t: string)
    requires at + |t| <= |s|
    ensures var r := Spliced(s, at, t);
            r[at..at + |t|] == t && r[..at] == s[..at] && r[at + |t|..] == s[at + |t|..]
  {
  }

  lemma MovedRest(b: string, i: nat, j: nat)
    requires i <= j <= |b|
    ensures Spliced(b, 0, b[i..j])[0..j - i] == b[i..j]
  {
    SplicedParts(b, 0, b[i..j]);
  }

  /** Moving a name to the front and the rest behind it loses neither. */
  lemma MovedBoth(b: string, at: nat, n: nat, i: nat, j: nat)
    requires at + n <= i <= j <= |b|
    ensures var named := Spliced(b, 0, b[at..at + n]);
            var both := Spliced(named, n, named[i..j]);
            both[..n] == b[at..at + n] && both[n..n + (j - i)] == b[i..j]
  {
    var named := Spliced(b, 0, b[at..at + n]);
    SplicedParts(b, 0, b[at..at + n]);
    assert named[i..j] == b[i..j] by {
      assert named[i..j] == named[n..][i - n..j - n] && b[i..j] == b[n..][i - n..j - n];
    }
    SplicedParts(named, n, named[i..j]);
  }

  lemma JoinSlices(b: string, i: nat, j: nat, k: nat, s: string, p: nat, q: nat, r: nat)
    requires i <= j <= k <= |b| && p <= q <= r <= |s| && b[i..j] == s[p..q] && b[j..k] == s[q..r]
    ensures b[i..k] == s[p..r]
  {
    assert b[i..k] == b[i..j] + b[j..k] && s[p..r] == s[p..q] + s[q..r];
  }

  /** A slice of a common slice. */
  lemma Within(b: string, i: nat, j: nat, s: string, p: nat, q: nat, n: nat)
    requires i <= j <= |b| && p <= q <= |s| && b[i..j] == s[p..q] && n <= j - i
    ensures p + n <= q && b[i..i + n] == s[p..p + n] && b[i + n..j] == s[p + n..q]
  {
    assert b[i..j][..n] == b[i..i + n] && b[i..j][n..] == b[i + n..j];
    assert s[p..q][..n] == s[p..p + n] && s[p..q][n..] == s[p + n..q];
  }

  lemma PutBehind(before: string, after: string, at: nat, t: string)
    requires at <= |before| && at + |t| <= |after|
    requires forall j :: 0 <= j < at ==> after[j] == before[j]
    requires forall j :: at <= j < at + |t| ==> after[j] == t[j - at]
    ensures after[..at] == before[..at] && after[at..at + |t|] == t
  {
  }

  lemma SamePrefix(a: string, b: string, i: nat, n: nat)
    requires i <= n <= |a| && n <= |b| && a[..n] == b[..n]
    ensures a[i..n] == b[i..n] && a[..i] == b[..i]
  {
    assert a[..n][i..] == a[i..n] && b[..n][i..] == b[i..n];
    assert a[..n][..i] == a[..i] && b[..n][..i] == b[..i];
  }

  lemma Slice(a: string, b: string, i: nat, j: nat)
    requires |a| == |b| && i <= j <= |a| && a[i..] == b[i..]
    ensures a[i..j] == b[i..j]
  {
    assert a[i..j] == a[i..][..j - i] && b[i..j] == b[i..][..j - i];
  }

  /** The unparsed rest after n bytes more, whether these are overwritten by `t` or not. */
  lemma RestMoves(b: string, b': string, i: nat, j: nat, s: string, p: nat, q: nat, n: nat, t: string, spliced: bool)
    requires i <= j <= |b| && p <= q <= |s| && b[i..j] == s[p..q] && n <= j - i
    requires if spliced then |t| == n && b' == Spliced(b, i, t) else b' == b
    ensures |b'| == |b| && p + n <= q && b'[i + n..j] == s[p + n..q]
    ensures spliced ==> b'[i..i + n] == t
  {
    Within(b, i, j, s, p, q, n);
    if spliced {
      SplicedParts(b, i, t);
      Slice(b, b', i + n, j);
    }
  }
}
