/**
 * String primitives the program relies on from Python's `str`: ASCII case folding,
 * the whitespace set of `str.isspace()` (also what `\s` and `strip()` use),
 * prefix tests, substring containment and the `lstrip`/`rstrip` family.
 */
module Text {
  import opened Wrappers

  /** Python's `str.isspace()` characters: what `\s` matches and what `strip()` removes. */
  predicate IsSpace(c: char) {
    || c == ' '
    || ('\t' <= c <= '\r')
    || ('\U{1C}' <= c <= '\U{1F}')
    || c == '\U{85}' || c == '\U{A0}' || c == '\U{1680}'
    || ('\U{2000}' <= c <= '\U{200A}')
    || c == '\U{2028}' || c == '\U{2029}' || c == '\U{202F}' || c == '\U{205F}' || c == '\U{3000}'
  }

  predicate IsUpper(c: char) { 'A' <= c <= 'Z' }

  predicate IsLower(c: char) { 'a' <= c <= 'z' }

  predicate IsAsciiLetter(c: char) { IsUpper(c) || IsLower(c) }

  predicate IsDigit(c: char) { '0' <= c <= '9' }

  /** ASCII case folding of one character; every other character is left alone. */
  function LowerChar(c: char): (r: char)
    ensures IsUpper(c) ==> IsLower(r) && r as int - c as int == 'a' as int - 'A' as int
    ensures !IsUpper(c) ==> r == c
    ensures !IsUpper(r)
  {
    if IsUpper(c) then (c as int - 'A' as int + 'a' as int) as char else c
  }

  /** `s.lower()` restricted to ASCII letters. */
  function Lower(s: string): (r: string)
    ensures |r| == |s|
    ensures forall i :: 0 <= i < |s| ==> r[i] == LowerChar(s[i])
  {
    seq(|s|, i requires 0 <= i < |s| => LowerChar(s[i]))
  }

  /** `s.startswith(p)`. */
  predicate StartsWith(s: string, p: string) {
    |p| <= |s| && s[..|p|] == p
  }

  /** `sub in s` for strings: `sub` occurs at some offset of `s`. */
  predicate Contains(s: string, sub: string) {
    exists i :: 0 <= i <= |s| - |sub| && StartsWith(s[i..], sub)
  }

  /** Every string contains itself. */
  lemma ContainsSelf(s: string)
    ensures Contains(s, s)
  {
    assert StartsWith(s[0..], s);
  }

  /** Removes the leading characters that satisfy `p` (`s.lstrip(chars)`). */
  function LStrip(s: string, p: char -> bool): (r: string)
    ensures |r| <= |s| && r == s[|s| - |r|..]
    ensures forall i :: 0 <= i < |s| - |r| ==> p(s[i])
    ensures r == [] || !p(r[0])
    decreases |s|
  {
    if |s| > 0 && p(s[0]) then LStrip(s[1..], p) else s
  }

  /** Removes the trailing characters that satisfy `p` (`s.rstrip(chars)`). */
  function RStrip(s: string, p: char -> bool): (r: string)
    ensures |r| <= |s| && r == s[..|r|]
    ensures forall i :: |r| <= i < |s| ==> p(s[i])
    ensures r == [] || !p(r[|r| - 1])
    decreases |s|
  {
    if |s| > 0 && p(s[|s| - 1]) then RStrip(s[..|s| - 1], p) else s
  }

  /**
   * `r` is what `strip()` leaves of `s`: a slice of `s` with only whitespace cut off
   * before and after it, and no whitespace at either of its own ends.
   */
  ghost predicate StripOf(s: string, r: string) {
    && (r == [] || (!IsSpace(r[0]) && !IsSpace(r[|r| - 1])))
    && exists i, j :: StripCut(s, r, i, j)
  }

  /** `r` is `s[i..j]` and everything of `s` outside `i..j` is whitespace. */
  predicate StripCut(s: string, r: string, i: int, j: int) {
    && 0 <= i <= j <= |s| && r == s[i..j]
    && (forall n :: 0 <= n < i ==> IsSpace(s[n]))
    && (forall n :: j <= n < |s| ==> IsSpace(s[n]))
  }

  /** `s.strip()`: removes leading and trailing whitespace. */
  function Strip(s: string): (r: string)
    ensures r == [] || (!IsSpace(r[0]) && !IsSpace(r[|r| - 1]))
    ensures exists i, j :: 0 <= i <= j <= |s| && r == s[i..j]
  {
    var l := LStrip(s, IsSpace);
    var r := RStrip(l, IsSpace);
    assert r == s[|s| - |l|..|s| - |l| + |r|];
    r
  }

  /** Only a non-empty string strips to something non-empty. */
  lemma StripNonEmpty(s: string)
    requires Strip(s) != []
    ensures s != []
  {
    var i, j :| 0 <= i <= j <= |s| && Strip(s) == s[i..j];
  }

  /** A character missing from a string is missing from its strip. */
  lemma NotInStrip(s: string, c: char)
    requires c !in s
    ensures c !in Strip(s)
  {
    var i, j :| 0 <= i <= j <= |s| && Strip(s) == s[i..j];
  }

  /** `strip()` removes whitespace and nothing else, from both ends. */
  lemma StripSpec(s: string)
    ensures StripOf(s, Strip(s))
  {
    var l := LStrip(s, IsSpace);
    var r := RStrip(l, IsSpace);
    assert Strip(s) == r;
    CutFromBothEnds(s, l, r);
  }

  /** Whitespace cut from the front of `s`, leaving `l`, then from the back of `l`, leaving `r`. */
  lemma CutFromBothEnds(s: string, l: string, r: string)
    requires |l| <= |s| && l == s[|s| - |l|..]
    requires forall n :: 0 <= n < |s| - |l| ==> IsSpace(s[n])
    requires |r| <= |l| && r == l[..|r|]
    requires forall n :: |r| <= n < |l| ==> IsSpace(l[n])
    ensures StripCut(s, r, |s| - |l|, |s| - |l| + |r|)
    ensures exists i, j :: StripCut(s, r, i, j)
  {
    var i := |s| - |l|;
    forall n | i + |r| <= n < |s|
      ensures IsSpace(s[n])
    {
      assert s[n] == l[n - i];
    }
  }

  /** What `strip()` leaves is empty exactly when the string is all whitespace. */
  lemma EmptyStripIffAllSpace(s: string, r: string)
    requires StripOf(s, r)
    ensures r == [] <==> forall n :: 0 <= n < |s| ==> IsSpace(s[n])
  {
    var i, j :| StripCut(s, r, i, j);
    if r != [] {
      assert s[i] == r[0];
    }
  }

  /** Only one string is what `strip()` leaves of `s`. */
  lemma StripOfUnique(s: string, r1: string, r2: string)
    requires StripOf(s, r1) && StripOf(s, r2)
    ensures r1 == r2
  {
    EmptyStripIffAllSpace(s, r1);
    EmptyStripIffAllSpace(s, r2);
    if r1 != [] {
      var i1, j1 :| StripCut(s, r1, i1, j1);
      var i2, j2 :| StripCut(s, r2, i2, j2);
      CutsAgree(s, r1, i1, j1, r2, i2, j2);
    }
  }

  /** Two non-empty cuts with no whitespace at their ends are the same cut. */
  lemma CutsAgree(s: string, r1: string, i1: int, j1: int, r2: string, i2: int, j2: int)
    requires StripCut(s, r1, i1, j1) && StripCut(s, r2, i2, j2)
    requires r1 != [] && !IsSpace(r1[0]) && !IsSpace(r1[|r1| - 1])
    requires r2 != [] && !IsSpace(r2[0]) && !IsSpace(r2[|r2| - 1])
    ensures i1 == i2 && j1 == j2
  {
    assert s[i1] == r1[0] && s[i2] == r2[0];
    assert s[j1 - 1] == r1[|r1| - 1] && s[j2 - 1] == r2[|r2| - 1];
  }

  /** Whitespace added around a string does not change its strip. */
  lemma StripPadded(pre: string, s: string, post: string)
    requires forall n :: 0 <= n < |pre| ==> IsSpace(pre[n])
    requires forall n :: 0 <= n < |post| ==> IsSpace(post[n])
    ensures Strip(pre + s + post) == Strip(s)
  {
    var t := pre + s + post;
    var r := Strip(s);
    StripSpec(s);
    StripSpec(t);
    var i, j :| StripCut(s, r, i, j);
    PaddedCut(pre, s, post, r, i, j);
    assert StripOf(t, r);
    StripOfUnique(t, Strip(t), r);
  }

  /** A string with no whitespace at either end is the strip of itself plus one space. */
  lemma StripTrailingSpace(s: string)
    requires s == [] || (!IsSpace(s[0]) && !IsSpace(s[|s| - 1]))
    ensures Strip(s + " ") == s
  {
    assert [] + s + " " == s + " ";
    StripPadded([], s, " ");
    StripFixed(s);
  }

  /** A cut of `s` is a cut of `s` with whitespace around it, shifted past the leading part. */
  lemma PaddedCut(pre: string, s: string, post: string, r: string, i: int, j: int)
    requires forall n :: 0 <= n < |pre| ==> IsSpace(pre[n])
    requires forall n :: 0 <= n < |post| ==> IsSpace(post[n])
    requires StripCut(s, r, i, j)
    ensures StripCut(pre + s + post, r, |pre| + i, |pre| + j)
  {
    var t := pre + s + post;
    var k := |pre|;
    assert r == t[k + i..k + j];
    forall n | 0 <= n < k + i
      ensures IsSpace(t[n])
    {
      if n < k { assert t[n] == pre[n]; } else { assert t[n] == s[n - k]; }
    }
    forall n | k + j <= n < |t|
      ensures IsSpace(t[n])
    {
      if n < k + |s| { assert t[n] == s[n - k]; } else { assert t[n] == post[n - k - |s|]; }
    }
  }

  /** A string that does not start with a `p` character is its own `lstrip`. */
  lemma {:induction false} LStripFixed(s: string, p: char -> bool)
    requires s == [] || !p(s[0])
    ensures LStrip(s, p) == s
  {
  }

  /** A string that does not end with a `p` character is its own `rstrip`. */
  lemma {:induction false} RStripFixed(s: string, p: char -> bool)
    requires s == [] || !p(s[|s| - 1])
    ensures RStrip(s, p) == s
  {
  }

  /** Stripping twice is stripping once. */
  lemma {:induction false} StripIdempotent(s: string)
    ensures Strip(Strip(s)) == Strip(s)
  {
    var t := Strip(s);
    LStripFixed(t, IsSpace);
    RStripFixed(t, IsSpace);
  }

  /** A string with no whitespace at either end is its own strip. */
  lemma {:induction false} StripFixed(s: string)
    requires s == [] || (!IsSpace(s[0]) && !IsSpace(s[|s| - 1]))
    ensures Strip(s) == s
  {
    LStripFixed(s, IsSpace);
    RStripFixed(s, IsSpace);
  }

  /** The index of the first `c` in `s`. */
  function IndexOf(s: string, c: char): (r: Option<nat>)
    ensures r.Some? ==> r.value < |s| && s[r.value] == c && c !in s[..r.value]
    ensures r.None? <==> c !in s
  {
    if |s| == 0 then None
    else if s[0] == c then Some(0)
    else
      var r := IndexOf(s[1..], c);
      if r.Some? then
        assert s[..r.value + 1] == [s[0]] + s[1..][..r.value];
        Some(r.value + 1)
      else None
  }

  /** The index of the last `c` in `s` (what `rsplit(c, 1)` splits at). */
  function LastIndexOf(s: string, c: char): (r: Option<nat>)
    ensures r.Some? ==> r.value < |s| && s[r.value] == c && c !in s[r.value + 1..]
    ensures r.None? <==> c !in s
  {
    if |s| == 0 then None
    else if s[|s| - 1] == c then Some(|s| - 1)
    else
      var r := LastIndexOf(s[..|s| - 1], c);
      if r.Some? then
        assert s[r.value + 1..] == s[..|s| - 1][r.value + 1..] + [s[|s| - 1]];
        r
      else
        assert s == s[..|s| - 1] + [s[|s| - 1]];
        None
  }
}
