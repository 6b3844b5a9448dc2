/** String primitives of the Python runtime that the pipeline relies on:
    `str.find`, `str.join` and `str(n)` for a non-negative integer. It also
    holds a one-character split, used only to read the citation block
    back. Strings are `seq<char>`. */
module Text {
  import opened Wrappers

  /** `pat` occurs in `s` starting at position `j`. */
  predicate OccursAt(s: string, pat: string, j: nat) {
    j + |pat| <= |s| && s[j..j + |pat|] == pat
  }

  predicate Contains(s: string, pat: string) {
    exists j: nat :: j <= |s| && OccursAt(s, pat, j)
  }

  predicate EndsWith(s: string, suffix: string) {
    |suffix| <= |s| && s[|s| - |suffix|..] == suffix
  }

  /** `r` is what Python's `s.find(pat)` returns: the lowest index at
      which `pat` occurs, or -1 when it does not occur. */
  predicate IsFindResult(s: string, pat: string, r: int) {
    && -1 <= r <= |s|
    && (r == -1 <==> !Contains(s, pat))
    && (r >= 0 ==> OccursAt(s, pat, r))
    && (r >= 0 ==> forall j: nat :: j < r ==> !OccursAt(s, pat, j))
  }

  /** Python's `s.find(pat)`; FindCorrect shows it meets IsFindResult. */
  function Find(s: string, pat: string): (r: int)
    ensures r == -1 || (r >= 0 && OccursAt(s, pat, r))
    decreases |s|
  {
    if |s| < |pat| then -1
    else if s[..|pat|] == pat then
      assert OccursAt(s, pat, 0);
      0
    else
      var r := Find(s[1..], pat);
      if r == -1 then -1
      else
        OccursAfterFirst(s, pat, r);
        r + 1
  }

  /** An occurrence in `s[1..]` is one in `s`, a position further on. */
  lemma OccursAfterFirst(s: string, pat: string, j: nat)
    requires |s| > 0 && OccursAt(s[1..], pat, j)
    ensures OccursAt(s, pat, j + 1)
  {
    var w := s[j + 1..j + 1 + |pat|];
    forall k | 0 <= k < |pat|
      ensures w[k] == pat[k]
    {
      assert w[k] == s[1..][j + k];
      assert s[1..][j..j + |pat|][k] == pat[k];
    }
  }

  /** `Find` reports the lowest occurrence, and -1 exactly when there is none. */
  lemma {:induction false} FindCorrect(s: string, pat: string)
    ensures IsFindResult(s, pat, Find(s, pat))
    decreases |s|
  {
    if |s| < |pat| {
      NoRoom(s, pat);
    } else if s[..|pat|] == pat {
      assert OccursAt(s, pat, 0);
    } else {
      FindCorrect(s[1..], pat);
      FindStep(s, pat, Find(s[1..], pat));
    }
  }

  /** Searching `s` when `pat` does not start it is searching `s[1..]`,
      with the answer shifted by one. */
  lemma FindStep(s: string, pat: string, r: int)
    requires |s| >= |pat| && s[..|pat|] != pat
    requires IsFindResult(s[1..], pat, r)
    ensures IsFindResult(s, pat, if r == -1 then -1 else r + 1)
  {
    ShiftOccurrence(s, pat);
    assert !OccursAt(s, pat, 0);
    if r == -1 {
      forall j: nat | 0 < j <= |s|
        ensures !OccursAt(s, pat, j)
      {
        assert !OccursAt(s[1..], pat, j - 1);
      }
    } else {
      forall j: nat | 0 < j <= r
        ensures !OccursAt(s, pat, j)
      {
        assert !OccursAt(s[1..], pat, j - 1);
      }
    }
  }

  /** Nothing before the position `find` reports contains `pat`. */
  lemma FindPrefixClear(s: string, pat: string)
    requires |pat| > 0 && Find(s, pat) >= 0
    ensures !Contains(s[..Find(s, pat)], pat)
  {
    var i := Find(s, pat);
    FindCorrect(s, pat);
    forall j: nat | j <= i && OccursAt(s[..i], pat, j)
      ensures false
    {
      PrefixOccurrence(s, pat, i, j);
    }
  }

  lemma NoRoom(s: string, pat: string)
    requires |s| < |pat|
    ensures !Contains(s, pat)
  {
  }

  /** Occurrences in `s[1..]` are the occurrences in `s` shifted by one. */
  lemma ShiftOccurrence(s: string, pat: string)
    requires |s| > 0
    ensures forall j: nat :: OccursAt(s[1..], pat, j) <==> OccursAt(s, pat, j + 1)
  {
    forall j: nat
      ensures OccursAt(s[1..], pat, j) <==> OccursAt(s, pat, j + 1)
    {
      if j + |pat| <= |s[1..]| {
        assert s[1..][j..j + |pat|] == s[j + 1..j + 1 + |pat|];
      }
    }
  }

  /** An occurrence inside a prefix is an occurrence in the whole string,
      and conversely for one that ends within the prefix. */
  lemma PrefixOccurrence(s: string, pat: string, i: nat, j: nat)
    requires i <= |s|
    requires j + |pat| <= i
    ensures OccursAt(s[..i], pat, j) <==> OccursAt(s, pat, j)
  {
    assert s[..i][j..j + |pat|] == s[j..j + |pat|];
  }

  /** An occurrence cuts `s` into the text before it, `pat`, and the rest. */
  lemma SplitAtOccurrence(s: string, pat: string, i: nat)
    requires OccursAt(s, pat, i)
    ensures s == s[..i] + pat + s[i + |pat|..]
  {
  }

  /** In `x + pat + y`, `pat` occurs right after `x`, and cutting it out
      gives back `x` and `y`. */
  lemma JoinedParts(x: string, pat: string, y: string)
    ensures OccursAt(x + pat + y, pat, |x|)
    ensures (x + pat + y)[..|x|] == x
    ensures (x + pat + y)[|x| + |pat|..] == y
  {
    var s := x + pat + y;
    assert s[|x|..|x| + |pat|] == pat;
  }

  /** The three parts of `head + mid + tail` can be cut back out. */
  lemma Unframe(head: string, mid: string, tail: string)
    ensures var s := head + mid + tail;
      && s[..|head|] == head
      && s[|head|..|s| - |tail|] == mid
      && s[|s| - |tail|..] == tail
  {
  }

  /** Concatenation regrouped. */
  lemma Regroup(a: string, b: string, c: string, d: string)
    ensures (a + b + c) + d == a + b + (c + d)
    ensures a + (b + c + d) == (a + b) + c + d
  {
  }

  /** No proper suffix of `pat` starts with `pat`'s first character, so two
      occurrences of `pat` never overlap. */
  predicate NoSelfOverlap(pat: string) {
    forall d :: 0 < d < |pat| ==> pat[d] != pat[0]
  }

  /** A match cannot start strictly inside another match of a pattern that
      does not overlap itself. */
  lemma NoOverlapAt(s: string, pat: string, j: nat, k: nat)
    requires NoSelfOverlap(pat)
    requires OccursAt(s, pat, k)
    requires j < k < j + |pat|
    ensures !OccursAt(s, pat, j)
  {
    var d := k - j;
    assert pat[d] != pat[0];
    assert s[k] == pat[0];
  }

  /** When `x` does not contain `pat`, and `pat` cannot overlap itself,
      `find` on `x + pat + y` stops exactly at the end of `x`: a match that
      starts inside `x` would lie within `x` or overlap the `pat` after it. */
  lemma FindAfterClear(x: string, pat: string, y: string)
    requires |pat| > 0 && NoSelfOverlap(pat)
    requires !Contains(x, pat)
    ensures Find(x + pat + y, pat) == |x|
  {
    var s := x + pat + y;
    JoinedParts(x, pat, y);
    FindCorrect(s, pat);
    forall j: nat | j < |x|
      ensures !OccursAt(s, pat, j)
    {
      if j + |pat| <= |x| {
        PrefixOccurrence(s, pat, |x|, j);
      } else {
        NoOverlapAt(s, pat, j, |x|);
      }
    }
  }

  // Sequence facts stated once, generically, so that proofs about
  // particular sequences need not rediscover them.

  lemma HeadTailAppend<T>(a: seq<T>, b: seq<T>)
    requires |a| > 0
    ensures (a + b)[0] == a[0] && (a + b)[1..] == a[1..] + b
  {
  }

  lemma AppendAssoc<T>(x: seq<T>, y: seq<T>, z: seq<T>)
    ensures x + (y + z) == (x + y) + z
  {
  }

  lemma AppendEmpty<T>(x: seq<T>, y: seq<T>)
    ensures y == [] ==> x + y == x
    ensures x == [] ==> x + y == y
  {
  }

  /** Python's `sep.join(xs)`. */
  function Join(xs: seq<string>, sep: string): string
  {
    if |xs| == 0 then ""
    else if |xs| == 1 then xs[0]
    else xs[0] + sep + Join(xs[1..], sep)
  }

  /** `"".join(xs)`: plain concatenation. */
  function Concat(xs: seq<string>): string
  {
    if |xs| == 0 then "" else xs[0] + Concat(xs[1..])
  }

  lemma {:induction false} ConcatAppend(xs: seq<string>, ys: seq<string>)
    ensures Concat(xs + ys) == Concat(xs) + Concat(ys)
  {
    if |xs| == 0 {
      assert xs + ys == ys;
    } else {
      assert (xs + ys)[1..] == xs[1..] + ys;
      ConcatAppend(xs[1..], ys);
    }
  }

  /** Python's `s.split(c)` for a one-character separator: always at
      least one field, and no field contains `c`. */
  function SplitOn(s: string, c: char): (r: seq<string>)
    ensures |r| >= 1
    ensures forall i :: 0 <= i < |r| ==> c !in r[i]
    ensures Join(r, [c]) == s
    decreases |s|
  {
    if |s| == 0 then [""]
    else
      var rest := SplitOn(s[1..], c);
      if s[0] == c then
        assert s == [c] + s[1..];
        [""] + rest
      else
        assert s == [s[0]] + s[1..];
        [[s[0]] + rest[0]] + rest[1..]
  }

  /** Splitting a field that does not contain the separator gives the
      field back. */
  lemma {:induction false} SplitOnPlain(x: string, c: char)
    requires c !in x
    ensures SplitOn(x, c) == [x]
    decreases |x|
  {
    if |x| > 0 {
      SplitOnPlain(x[1..], c);
      assert [x[0]] + x[1..] == x;
    }
  }

  /** Splitting at the first separator peels off the first field. */
  lemma {:induction false} SplitOnCons(x: string, c: char, rest: string)
    requires c !in x
    ensures SplitOn(x + [c] + rest, c) == [x] + SplitOn(rest, c)
    decreases |x|
  {
    if |x| == 0 {
      assert x + [c] + rest == [c] + rest;
      assert ([c] + rest)[1..] == rest;
    } else {
      assert (x + [c] + rest)[1..] == x[1..] + [c] + rest;
      SplitOnCons(x[1..], c, rest);
      assert [x[0]] + x[1..] == x;
    }
  }

  /** `split` undoes `join` when no field contains the separator. */
  lemma {:induction false} SplitJoin(xs: seq<string>, c: char)
    requires |xs| >= 1
    requires forall i :: 0 <= i < |xs| ==> c !in xs[i]
    ensures SplitOn(Join(xs, [c]), c) == xs
    decreases |xs|
  {
    if |xs| == 1 {
      SplitOnPlain(xs[0], c);
    } else {
      SplitJoin(xs[1..], c);
      SplitOnCons(xs[0], c, Join(xs[1..], [c]));
      assert xs == [xs[0]] + xs[1..];
    }
  }

  predicate IsDigit(ch: char) {
    '0' <= ch <= '9'
  }

  function DigitChar(d: nat): (ch: char)
    requires d < 10
    ensures IsDigit(ch)
    ensures DigitValue(ch) == d
  {
    "0123456789"[d]
  }

  function DigitValue(ch: char): nat
    requires IsDigit(ch)
  {
    (ch as int - '0' as int) as nat
  }

  /** Python's `str(n)` for `n >= 0`: its decimal digits, no leading zero. */
  function NatToString(n: nat): (s: string)
    ensures |s| >= 1
    ensures forall i :: 0 <= i < |s| ==> IsDigit(s[i])
    ensures n > 0 ==> s[0] != '0'
  {
    if n < 10 then [DigitChar(n)]
    else NatToString(n / 10) + [DigitChar(n % 10)]
  }

  /** Reads a non-empty run of decimal digits back as a number. */
  function ParseNat(s: string): Option<nat>
  {
    if |s| == 0 || !IsDigit(s[|s| - 1]) then None
    else if |s| == 1 then Some(DigitValue(s[0]))
    else
      match ParseNat(s[..|s| - 1])
      case None => None
      case Some(m) => Some(10 * m + DigitValue(s[|s| - 1]))
  }

  lemma {:induction false} ParseNatToString(n: nat)
    ensures ParseNat(NatToString(n)) == Some(n)
  {
    if n >= 10 {
      ParseNatToString(n / 10);
      var s := NatToString(n);
      assert s[..|s| - 1] == NatToString(n / 10);
    }
  }
}
