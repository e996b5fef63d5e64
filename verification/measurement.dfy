/**
 * The measurement parser: the first match of `([\d.]+)\s*([a-zA-Z]+)` in a string,
 * read as an optional float quantity and a lower-cased unit.
 */
module Measurement {
  import opened Wrappers
  import opened Text

  /** What `[\d.]` matches (ASCII digits and the dot). */
  predicate IsNumChar(c: char) { IsDigit(c) || c == '.' }

  /** The parser's answer: `(qty, unit)`, each possibly `None`. */
  datatype Measurement = Measurement(qty: Option<real>, unit: Option<string>)

  /** Group boundaries of one regex match: group 1 is `s[numStart..numEnd]`, group 2 `s[unitStart..unitEnd]`. */
  datatype Span = Span(numStart: nat, numEnd: nat, unitStart: nat, unitEnd: nat)

  /** An instance of the pattern in `s` with groups `s[i..j]` and `s[k..l]`, with no greediness asked for. */
  ghost predicate PatternAt(s: string, i: int, j: int, k: int, l: int) {
    && 0 <= i < j <= k < l <= |s|
    && (forall n :: i <= n < j ==> IsNumChar(s[n]))
    && (forall n :: j <= n < k ==> IsSpace(s[n]))
    && (forall n :: k <= n < l ==> IsAsciiLetter(s[n]))
  }

  /** Some instance of the pattern begins at index `i`. */
  ghost predicate MatchStartsAt(s: string, i: int) {
    exists j, k, l :: PatternAt(s, i, j, k, l)
  }

  /** The instance the regex engine reports at its start: every group as long as it can be. */
  ghost predicate IsGreedyMatch(s: string, m: Span) {
    && PatternAt(s, m.numStart, m.numEnd, m.unitStart, m.unitEnd)
    && (m.numEnd == |s| || !IsNumChar(s[m.numEnd]))
    && (m.unitStart == |s| || !IsSpace(s[m.unitStart]))
    && (m.unitEnd == |s| || !IsAsciiLetter(s[m.unitEnd]))
  }

  /** The end of the longest run of characters satisfying `p` that begins at `i`. */
  function RunEnd(s: string, i: nat, p: char -> bool): (j: nat)
    requires i <= |s|
    ensures i <= j <= |s|
    ensures i < |s| && p(s[i]) ==> i < j
    decreases |s| - i
  {
    if i < |s| && p(s[i]) then RunEnd(s, i + 1, p) else i
  }

  /** The run is the longest one: everything in it satisfies `p`, and the character after it does not. */
  lemma {:induction false} RunEndSpec(s: string, i: nat, p: char -> bool)
    requires i <= |s|
    ensures forall n :: i <= n < RunEnd(s, i, p) ==> p(s[n])
    ensures RunEnd(s, i, p) == |s| || !p(s[RunEnd(s, i, p)])
    decreases |s| - i
  {
    if i < |s| && p(s[i]) {
      RunEndSpec(s, i + 1, p);
    }
  }

  /** A run of `p` characters up to `l` is covered by the longest run. */
  lemma {:induction false} RunEndCovers(s: string, i: nat, l: nat, p: char -> bool)
    requires i <= l <= |s|
    requires forall n :: i <= n < l ==> p(s[n])
    ensures RunEnd(s, i, p) >= l
    decreases l - i
  {
    if i < l {
      RunEndCovers(s, i + 1, l, p);
    }
  }

  /** A run of `p` characters that ends where `p` fails is the longest run. */
  lemma RunEndExact(s: string, i: nat, j: nat, p: char -> bool)
    requires i <= j <= |s|
    requires forall n :: i <= n < j ==> p(s[n])
    requires j == |s| || !p(s[j])
    ensures RunEnd(s, i, p) == j
  {
    RunEndCovers(s, i, j, p);
    RunEndSpec(s, i, p);
  }

  /** The regex tried at start `i`: greedy digits/dots, greedy whitespace, greedy letters. */
  function MatchAt(s: string, i: nat): (r: Option<Span>)
    requires i <= |s|
    ensures r.Some? ==> r.value.numStart == i < r.value.numEnd <= r.value.unitStart < r.value.unitEnd <= |s|
  {
    if i == |s| || !IsNumChar(s[i]) then
      None
    else
      var j := RunEnd(s, i, IsNumChar);
      var k := RunEnd(s, j, IsSpace);
      var l := RunEnd(s, k, IsAsciiLetter);
      if k < l then Some(Span(i, j, k, l)) else None
  }

  /** An attempt at `i` succeeds exactly when an instance of the pattern starts there, and reports the greedy groups. */
  lemma MatchAtSpec(s: string, i: nat)
    requires i <= |s|
    ensures MatchAt(s, i).Some? ==> IsGreedyMatch(s, MatchAt(s, i).value)
    ensures MatchAt(s, i).Some? <==> MatchStartsAt(s, i)
  {
    if i < |s| && IsNumChar(s[i]) {
      var j := RunEnd(s, i, IsNumChar);
      var k := RunEnd(s, j, IsSpace);
      var l := RunEnd(s, k, IsAsciiLetter);
      RunEndSpec(s, i, IsNumChar);
      RunEndSpec(s, j, IsSpace);
      RunEndSpec(s, k, IsAsciiLetter);
      if k < l {
        assert PatternAt(s, i, j, k, l);
      }
    }
    PatternFixesGreedyGroups(s, i);
  }

  /**
   * Backtracking cannot change the groups: in any instance of the pattern starting at `i`,
   * the number run and the whitespace run are already maximal, because a shorter number
   * run would leave a digit or dot where whitespace or a letter must follow, and a
   * shorter whitespace run would leave whitespace where a letter must follow.
   */
  lemma PatternFixesGreedyGroups(s: string, i: nat)
    requires i <= |s|
    ensures forall j, k, l :: PatternAt(s, i, j, k, l) ==>
      && RunEnd(s, i, IsNumChar) == j
      && RunEnd(s, j, IsSpace) == k
      && RunEnd(s, k, IsAsciiLetter) >= l
  {
    forall j, k, l | PatternAt(s, i, j, k, l)
      ensures RunEnd(s, i, IsNumChar) == j
      ensures RunEnd(s, j, IsSpace) == k
      ensures RunEnd(s, k, IsAsciiLetter) >= l
    {
      assert !IsNumChar(s[j]);
      assert !IsSpace(s[k]);
      RunEndExact(s, i, j, IsNumChar);
      RunEndExact(s, j, k, IsSpace);
      RunEndCovers(s, k, l, IsAsciiLetter);
    }
  }

  /** `re.search`: the match with the leftmost start at or after `from`. */
  function FirstMatch(s: string, from: nat): (r: Option<Span>)
    requires from <= |s|
    ensures r.Some? ==> from <= r.value.numStart <= |s| && MatchAt(s, r.value.numStart) == r
    decreases |s| - from
  {
    var m := MatchAt(s, from);
    if m.Some? then m
    else if from == |s| then None
    else FirstMatch(s, from + 1)
  }

  /** Every attempt before the reported start fails. */
  lemma {:induction false} FirstMatchLeftmost(s: string, from: nat)
    requires from <= |s| && FirstMatch(s, from).Some?
    ensures forall i :: from <= i < FirstMatch(s, from).value.numStart ==> MatchAt(s, i).None?
    decreases |s| - from
  {
    if MatchAt(s, from).None? {
      FirstMatchLeftmost(s, from + 1);
    }
  }

  /** The search answers `None` exactly when every attempt fails. */
  lemma {:induction false} FirstMatchNone(s: string, from: nat)
    requires from <= |s|
    ensures FirstMatch(s, from).None? <==> forall i :: from <= i <= |s| ==> MatchAt(s, i).None?
    decreases |s| - from
  {
    if MatchAt(s, from).None? && from < |s| {
      FirstMatchNone(s, from + 1);
    }
  }

  /** The groups of a successful attempt: digits and dots, then ASCII letters. */
  lemma MatchGroups(s: string, i: nat)
    requires i <= |s| && MatchAt(s, i).Some?
    ensures var m := MatchAt(s, i).value;
      && AllNumChars(s[m.numStart..m.numEnd])
      && forall n :: m.unitStart <= n < m.unitEnd ==> IsAsciiLetter(s[n])
  {
    var m := MatchAt(s, i).value;
    RunEndSpec(s, i, IsNumChar);
    RunEndSpec(s, m.unitStart, IsAsciiLetter);
  }

  predicate AllDigits(t: string) {
    forall n :: 0 <= n < |t| ==> IsDigit(t[n])
  }

  predicate AllNumChars(t: string) {
    forall n :: 0 <= n < |t| ==> IsNumChar(t[n])
  }

  /** The numeric value of a run of ASCII digits. */
  function DigitsValue(t: string): (v: nat)
    requires AllDigits(t)
    decreases |t|
  {
    if |t| == 0 then 0
    else
      assert IsDigit(t[|t| - 1]);
      DigitsValue(t[..|t| - 1]) * 10 + (t[|t| - 1] as int - '0' as int)
  }

  /** The value of the digits after a decimal point: `"25"` is `0.25`. */
  function FractionValue(t: string): (v: real)
    requires AllDigits(t)
    ensures 0.0 <= v <= 1.0
    decreases |t|
  {
    if |t| == 0 then 0.0
    else
      assert IsDigit(t[0]);
      assert AllDigits(t[1..]) by { assert forall n :: 0 <= n < |t| - 1 ==> t[1..][n] == t[n + 1]; }
      ((t[0] as int - '0' as int) as real + FractionValue(t[1..])) / 10.0
  }

  /** A text Python's `float()` accepts, among runs of digits and dots: a digit somewhere, at most one dot. */
  ghost predicate IsFloatLiteral(t: string) {
    && (exists n :: 0 <= n < |t| && IsDigit(t[n]))
    && (forall a, b :: 0 <= a < b < |t| && t[a] == '.' ==> t[b] != '.')
  }

  /** Without a dot, a run of digits and dots is all digits, and a literal exactly when non-empty. */
  lemma NoDotLiteral(t: string)
    requires AllNumChars(t) && '.' !in t
    ensures AllDigits(t)
    ensures IsFloatLiteral(t) <==> |t| > 0
  {
    assert forall n :: 0 <= n < |t| ==> IsNumChar(t[n]) && t[n] != '.';
    if |t| > 0 {
      assert IsDigit(t[0]);
    }
  }

  /**
   * With its first dot at `p`, a run of digits and dots is a literal exactly when no
   * second dot follows and it is longer than the dot; then both sides are all digits.
   */
  lemma DotLiteral(t: string, p: nat)
    requires AllNumChars(t) && p < |t| && t[p] == '.' && '.' !in t[..p]
    ensures IsFloatLiteral(t) <==> '.' !in t[p + 1..] && |t| > 1
    ensures '.' !in t[p + 1..] ==> AllDigits(t[..p]) && AllDigits(t[p + 1..])
  {
    var whole, frac := t[..p], t[p + 1..];
    assert forall n :: 0 <= n < |whole| ==> whole[n] == t[n] && IsNumChar(t[n]) && whole[n] != '.';
    assert forall n :: 0 <= n < |frac| ==> frac[n] == t[p + 1 + n] && IsNumChar(t[p + 1 + n]);
    if '.' in frac {
      var q :| 0 <= q < |frac| && frac[q] == '.';
      assert t[p] == '.' && t[p + 1 + q] == '.';
    } else {
      assert forall n :: 0 <= n < |frac| ==> frac[n] != '.';
      if |t| > 1 {
        if p > 0 {
          assert IsDigit(t[0]);
        } else {
          assert IsDigit(t[p + 1]);
        }
      }
      forall a, b | 0 <= a < b < |t| && t[a] == '.'
        ensures t[b] != '.'
      {
        assert a == p;
        assert t[b] == frac[b - p - 1];
      }
    }
  }

  /**
   * `float(t)` for a run of digits and dots: `None` where Python raises `ValueError`
   * (no digit, or two dots), otherwise the decimal value.
   */
  function ParseFloat(t: string): (r: Option<real>)
    requires AllNumChars(t)
    ensures r.Some? ==> 0.0 <= r.value
    ensures t == [] ==> r.None?
  {
    var dot := IndexOf(t, '.');
    if dot.None? then
      NoDotLiteral(t);
      if |t| == 0 then None else Some(DigitsValue(t) as real)
    else
      var p := dot.value;
      DotLiteral(t, p);
      if '.' in t[p + 1..] || |t| == 1 then
        None
      else
        Some(DigitsValue(t[..p]) as real + FractionValue(t[p + 1..]))
  }

  /** `float()` accepts exactly the literals, and reads an all-digit run as its decimal value. */
  lemma ParseFloatSpec(t: string)
    requires AllNumChars(t)
    ensures ParseFloat(t).Some? <==> IsFloatLiteral(t)
    ensures AllDigits(t) && |t| > 0 ==> ParseFloat(t) == Some(DigitsValue(t) as real)
  {
    var dot := IndexOf(t, '.');
    if dot.None? {
      NoDotLiteral(t);
    } else {
      DotLiteral(t, dot.value);
    }
  }

  /** A run with one dot reads as its decimal value: `"1.5"` is 1.5 and `".25"` is 0.25. */
  lemma DecimalExamples()
    ensures AllNumChars("1.5") && ParseFloat("1.5") == Some(1.5)
    ensures AllNumChars(".25") && ParseFloat(".25") == Some(0.25)
  {
    assert IndexOf("1.5", '.') == Some(1);
    assert "1.5"[..1] == "1" && "1.5"[2..] == "5";
    assert "1"[..0] == "" && "5"[1..] == "";
    assert IndexOf(".25", '.') == Some(0);
    assert ".25"[..0] == "" && ".25"[1..] == "25";
    assert "25"[1..] == "5" && "5"[1..] == "";
  }

  /** `parse_measurement(s)`. */
  function ParseMeasurement(s: string): (r: Measurement)
    ensures r.unit.None? ==> r.qty.None?
    ensures r.unit.Some? ==> |r.unit.value| > 0 && forall n :: 0 <= n < |r.unit.value| ==> IsLower(r.unit.value[n])
  {
    match FirstMatch(s, 0)
    case None => Measurement(None, None)
    case Some(m) =>
      MatchGroups(s, m.numStart);
      Measurement(ParseFloat(s[m.numStart..m.numEnd]), Some(Lower(s[m.unitStart..m.unitEnd])))
  }

  /** `parse_measurement` answers `(None, None)` exactly when the pattern occurs nowhere in `s`. */
  lemma NoMatchIffNone(s: string)
    ensures ParseMeasurement(s) == Measurement(None, None) <==> forall i :: 0 <= i <= |s| ==> !MatchStartsAt(s, i)
    ensures ParseMeasurement(s).unit.None? <==> forall i :: 0 <= i <= |s| ==> !MatchStartsAt(s, i)
  {
    FirstMatchNone(s, 0);
    forall i | 0 <= i <= |s|
      ensures MatchAt(s, i).Some? <==> MatchStartsAt(s, i)
    {
      MatchAtSpec(s, i);
    }
  }

  /**
   * When the leftmost instance of the pattern starts at `i` with number run `s[i..j]`
   * and letters from `k`, the quantity is `float(s[i..j])` (or `None`) and the unit is
   * the whole letter run from `k`, lower-cased; later instances play no part.
   */
  lemma LeftmostMatchDecides(s: string, i: nat, j: nat, k: nat, l: nat)
    requires PatternAt(s, i, j, k, l)
    requires forall i' :: 0 <= i' < i ==> !MatchStartsAt(s, i')
    ensures AllNumChars(s[i..j])
    ensures ParseMeasurement(s) == Measurement(ParseFloat(s[i..j]), Some(Lower(s[k..RunEnd(s, k, IsAsciiLetter)])))
  {
    forall i' | 0 <= i' < i
      ensures MatchAt(s, i').None?
    {
      MatchAtSpec(s, i');
    }
    assert MatchStartsAt(s, i);
    MatchAtSpec(s, i);
    PatternFixesGreedyGroups(s, i);
    var m := Span(i, j, k, RunEnd(s, k, IsAsciiLetter));
    assert MatchAt(s, i) == Some(m);
    FirstAttemptWins(s, 0, i);
    MatchGroups(s, i);
  }

  /** When the attempt at `i` is the first to succeed, the search reports it. */
  lemma {:induction false} FirstAttemptWins(s: string, from: nat, i: nat)
    requires from <= i <= |s| && MatchAt(s, i).Some?
    requires forall i' :: from <= i' < i ==> MatchAt(s, i').None?
    ensures FirstMatch(s, from) == MatchAt(s, i)
    decreases i - from
  {
    if from < i {
      FirstAttemptWins(s, from + 1, i);
    }
  }

  /**
   * A run of digits and dots, optional whitespace and letters parse to `float()` of
   * the run and the lower-cased letters, e.g. `"250g"`, `"200 g"`, `"1.5ml"`.
   */
  lemma {:induction false} NumberRunThenUnit(num: string, ws: string, unit: string)
    requires |num| > 0 && AllNumChars(num)
    requires forall n :: 0 <= n < |ws| ==> IsSpace(ws[n])
    requires |unit| > 0 && forall n :: 0 <= n < |unit| ==> IsAsciiLetter(unit[n])
    ensures ParseMeasurement(num + ws + unit) == Measurement(ParseFloat(num), Some(Lower(unit)))
  {
    var s := num + ws + unit;
    var j, k := |num|, |num| + |ws|;
    ConcatPattern(num, ws, unit);
    RunEndCovers(s, k, |s|, IsAsciiLetter);
    assert s[k..RunEnd(s, k, IsAsciiLetter)] == unit;
    LeftmostMatchDecides(s, 0, j, k, |s|);
  }

  /** The three pieces laid end to end form an instance of the pattern at index 0. */
  lemma ConcatPattern(num: string, ws: string, unit: string)
    requires |num| > 0 && AllNumChars(num)
    requires forall n :: 0 <= n < |ws| ==> IsSpace(ws[n])
    requires |unit| > 0 && forall n :: 0 <= n < |unit| ==> IsAsciiLetter(unit[n])
    ensures var s := num + ws + unit;
      && PatternAt(s, 0, |num|, |num| + |ws|, |s|)
      && s[0..|num|] == num && s[|num| + |ws|..|s|] == unit
  {
    var s := num + ws + unit;
    var j, k := |num|, |num| + |ws|;
    assert s[0..j] == num;
    assert s[k..|s|] == unit;
    assert forall n :: 0 <= n < j ==> s[n] == num[n];
    assert forall n :: j <= n < k ==> s[n] == ws[n - j];
    assert forall n :: k <= n < |s| ==> s[n] == unit[n - k];
  }

  /** Digits before a unit give their value as the quantity. */
  lemma NumberThenUnit(digits: string, ws: string, unit: string)
    requires |digits| > 0 && AllDigits(digits)
    requires forall n :: 0 <= n < |ws| ==> IsSpace(ws[n])
    requires |unit| > 0 && forall n :: 0 <= n < |unit| ==> IsAsciiLetter(unit[n])
    ensures ParseMeasurement(digits + ws + unit) == Measurement(Some(DigitsValue(digits) as real), Some(Lower(unit)))
  {
    assert AllNumChars(digits) by {
      assert forall n :: 0 <= n < |digits| ==> IsDigit(digits[n]);
    }
    NumberRunThenUnit(digits, ws, unit);
    ParseFloatSpec(digits);
  }

  /**
   * A number run `float()` rejects, such as `".."` in `"..g"`, leaves the quantity
   * `None` but the unit is still reported: the parser never fails.
   */
  lemma DotsThenUnit(dots: string, unit: string)
    requires |dots| > 0 && forall n :: 0 <= n < |dots| ==> dots[n] == '.'
    requires |unit| > 0 && forall n :: 0 <= n < |unit| ==> IsAsciiLetter(unit[n])
    ensures ParseMeasurement(dots + unit) == Measurement(None, Some(Lower(unit)))
  {
    assert AllNumChars(dots) by {
      assert forall n :: 0 <= n < |dots| ==> IsNumChar(dots[n]);
    }
    assert !IsFloatLiteral(dots) by {
      assert forall n :: 0 <= n < |dots| ==> !IsDigit(dots[n]);
    }
    ParseFloatSpec(dots);
    assert dots + "" + unit == dots + unit;
    NumberRunThenUnit(dots, "", unit);
  }

  /** The decimal digits of `n`, most significant first. */
  function NatToDigits(n: nat): (t: string)
    ensures |t| > 0 && AllDigits(t)
  {
    var d := ['0' + (n % 10) as char];
    if n < 10 then d else NatToDigits(n / 10) + d
  }

  /** Writing a natural number in decimal and reading it back gives the number. */
  lemma {:induction false} DigitsRoundTrip(n: nat)
    ensures DigitsValue(NatToDigits(n)) == n
  {
    var t := NatToDigits(n);
    if n >= 10 {
      DigitsRoundTrip(n / 10);
      assert t[..|t| - 1] == NatToDigits(n / 10);
    }
  }

  /** A whole quantity written in decimal before a unit parses back to itself. */
  lemma {:induction false} WholeQuantityRoundTrip(n: nat, unit: string)
    requires |unit| > 0 && forall i :: 0 <= i < |unit| ==> IsAsciiLetter(unit[i])
    ensures ParseMeasurement(NatToDigits(n) + unit) == Measurement(Some(n as real), Some(Lower(unit)))
  {
    var d := NatToDigits(n);
    DigitsRoundTrip(n);
    assert d + "" + unit == d + unit;
    NumberThenUnit(d, "", unit);
  }
}
