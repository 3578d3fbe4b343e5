/** Numbers in text: the literal syntax `pd.to_numeric` accepts (decimal
    notation), and the first-match searches of the regular expressions
    `(\d+)` and `(\d+\.?\d*)` used with `str.extract`. */
module Numerals {
  import opened Cells

  predicate IsDigit(c: char) {
    '0' <= c <= '9'
  }

  predicate AllDigits(s: string) {
    forall i :: 0 <= i < |s| ==> IsDigit(s[i])
  }

  function DigitValue(c: char): (d: nat)
    requires IsDigit(c)
    ensures d < 10
  {
    c as int - '0' as int
  }

  /** The value of a string of decimal digits, read left to right. */
  function DigitsValue(d: string): nat
    requires AllDigits(d)
    decreases |d|
  {
    if d == [] then 0 else DigitsValue(d[..|d| - 1]) * 10 + DigitValue(d[|d| - 1])
  }

  function Pow10(n: nat): (p: nat)
    ensures p >= 1
  {
    if n == 0 then 1 else 10 * Pow10(n - 1)
  }

  /** The value of the digits after a decimal point. */
  function FractionValue(f: string): real
    requires AllDigits(f)
  {
    DigitsValue(f) as real / Pow10(|f|) as real
  }

  /** The end of the run of digits that starts at `i`. */
  function RunEnd(s: string, i: nat): (j: nat)
    requires i <= |s|
    ensures i <= j <= |s|
    ensures forall k :: i <= k < j ==> IsDigit(s[k])
    ensures j == |s| || !IsDigit(s[j])
    decreases |s| - i
  {
    if i < |s| && IsDigit(s[i]) then RunEnd(s, i + 1) else i
  }

  /** The position of the first digit at or after `i`, or |s|. */
  function FindDigit(s: string, i: nat): (j: nat)
    requires i <= |s|
    ensures i <= j <= |s|
    ensures forall k :: i <= k < j ==> !IsDigit(s[k])
    ensures j < |s| ==> IsDigit(s[j])
    decreases |s| - i
  {
    if i < |s| && !IsDigit(s[i]) then FindDigit(s, i + 1) else i
  }

  // ---------------------------------------------------------------------
  // Numeric parse

  /** An unsigned decimal literal: digits with at most one point, and at
      least one digit (`12`, `12.`, `12.5`, `.5`). */
  function ParseUnsigned(b: string): Option<real> {
    var j := RunEnd(b, 0);
    if j == |b| then
      if j > 0 then Some(DigitsValue(b) as real) else None
    else if b[j] == '.' then
      var k := RunEnd(b, j + 1);
      if k == |b| && (j > 0 || k > j + 1) then
        Some(DigitsValue(b[..j]) as real + FractionValue(b[j + 1..]))
      else None
    else None
  }

  /** The number a cell's text denotes for `pd.to_numeric`, if any: an
      optional sign followed by an unsigned decimal literal. */
  function ParseNumber(s: string): Option<real> {
    if |s| > 0 && (s[0] == '+' || s[0] == '-') then
      match ParseUnsigned(s[1..])
      case None => None
      case Some(v) => Some(if s[0] == '-' then -v else v)
    else ParseUnsigned(s)
  }

  /** The literal syntax, stated without reference to the parser. */
  ghost predicate IsUnsignedLiteral(b: string) {
    || (|b| > 0 && AllDigits(b))
    || (|b| > 1 && exists p :: 0 <= p < |b| && b[p] == '.' && AllDigits(b[..p]) && AllDigits(b[p + 1..]))
  }

  lemma ParseUnsignedAcceptsLiterals(b: string)
    ensures ParseUnsigned(b).Some? <==> IsUnsignedLiteral(b)
  {
    var j := RunEnd(b, 0);
    if ParseUnsigned(b).Some? {
      if j < |b| {
        assert AllDigits(b[..j]);
        var k := RunEnd(b, j + 1);
        ghost var tail := b[j + 1..];
        assert AllDigits(tail) by {
          forall i | 0 <= i < |tail| ensures IsDigit(tail[i]) {
            assert tail[i] == b[j + 1 + i];
          }
        }
      }
    }
    if IsUnsignedLiteral(b) {
      if |b| > 0 && AllDigits(b) {
        assert j == |b|;
      } else {
        var p :| 0 <= p < |b| && b[p] == '.' && AllDigits(b[..p]) && AllDigits(b[p + 1..]);
        assert forall i :: 0 <= i < p ==> IsDigit(b[..p][i]);
        assert j == p;
      }
    }
  }

  /** Digits alone parse to their value. */
  lemma ParseDigits(d: string)
    requires |d| > 0 && AllDigits(d)
    ensures ParseNumber(d) == Some(DigitsValue(d) as real)
  {
    assert RunEnd(d, 0) == |d|;
  }

  /** A run of digits ending at a non-digit (or the end) is what RunEnd finds. */
  lemma {:induction false} RunEndIs(s: string, i: nat, j: nat)
    requires i <= j <= |s|
    requires forall k :: i <= k < j ==> IsDigit(s[k])
    requires j == |s| || !IsDigit(s[j])
    ensures RunEnd(s, i) == j
    decreases j - i
  {
    if i < j {
      RunEndIs(s, i + 1, j);
    }
  }

  /** Digits, a point at `n` and digits, with at least one digit. */
  predicate PointLiteral(s: string, n: nat) {
    n < |s| && s[n] == '.' && |s| > 1 && AllDigits(s[..n]) && AllDigits(s[n + 1..])
  }

  /** Digits, a point and digits parse to the whole part plus the fraction. */
  lemma ParseDecimal(s: string, n: nat)
    requires PointLiteral(s, n)
    ensures ParseNumber(s) == Some(DigitsValue(s[..n]) as real + FractionValue(s[n + 1..]))
  {
    assert forall i :: 0 <= i < n ==> s[i] == s[..n][i];
    RunEndIs(s, 0, n);
    ghost var tail := s[n + 1..];
    assert forall i :: n + 1 <= i < |s| ==> s[i] == tail[i - n - 1];
    RunEndIs(s, n + 1, |s|);
    assert s[0] != '+' && s[0] != '-' by {
      if n > 0 { assert IsDigit(s[0]); }
    }
  }

  /** The decimal numeral of a natural number. */
  function ShowNat(n: nat): (s: string)
    ensures |s| > 0 && AllDigits(s)
  {
    var d := [(n % 10 + '0' as int) as char];
    if n < 10 then d else ShowNat(n / 10) + d
  }

  lemma {:induction false} ShowNatValue(n: nat)
    ensures DigitsValue(ShowNat(n)) == n
  {
    if n >= 10 {
      ShowNatValue(n / 10);
      var s := ShowNat(n);
      assert s[..|s| - 1] == ShowNat(n / 10);
    }
  }

  /** Printing a whole number and coercing it back gives the number. */
  lemma ParseShowNat(n: nat)
    ensures ParseNumber(ShowNat(n)) == Some(n as real)
    ensures ParseNumber("-" + ShowNat(n)) == Some(-(n as real))
  {
    ShowNatValue(n);
    ParseDigits(ShowNat(n));
    assert ("-" + ShowNat(n))[1..] == ShowNat(n);
  }

  /** A sign in front of digits negates or keeps their value. */
  lemma ParseSignedDigits(d: string)
    requires |d| > 0 && AllDigits(d)
    ensures ParseNumber("-" + d) == Some(-(DigitsValue(d) as real))
    ensures ParseNumber("+" + d) == Some(DigitsValue(d) as real)
  {
    ParseDigits(d);
    assert ("-" + d)[1..] == d && ("+" + d)[1..] == d;
    assert d[0] != '+' && d[0] != '-' by { assert IsDigit(d[0]); }
  }

  /** A sign in front of a decimal literal negates or keeps its value. */
  lemma ParseSignedDecimal(b: string, n: nat)
    requires PointLiteral(b, n)
    ensures ParseNumber("-" + b) == Some(-(DigitsValue(b[..n]) as real + FractionValue(b[n + 1..])))
    ensures ParseNumber("+" + b) == Some(DigitsValue(b[..n]) as real + FractionValue(b[n + 1..]))
  {
    ParseDecimal(b, n);
    assert ("-" + b)[1..] == b && ("+" + b)[1..] == b;
    assert b[0] != '+' && b[0] != '-' by {
      if n > 0 { assert IsDigit(b[..n][0]); }
    }
  }

  // ---------------------------------------------------------------------
  // Regular-expression search

  /** The span `[start, end)` of the text a search matched. */
  datatype Match = Match(start: nat, end: nat)

  /** `re.search(r'\d+', s)`: the first maximal run of digits. */
  function SearchInteger(s: string): (r: Option<Match>)
    ensures r.None? <==> forall k :: 0 <= k < |s| ==> !IsDigit(s[k])
    ensures r.Some? ==>
      && r.value.start < r.value.end <= |s|
      && (forall k :: 0 <= k < r.value.start ==> !IsDigit(s[k]))
      && AllDigits(s[r.value.start..r.value.end])
      && (r.value.end == |s| || !IsDigit(s[r.value.end]))
  {
    var i := FindDigit(s, 0);
    if i == |s| then None else Some(Match(i, RunEnd(s, i)))
  }

  /** `re.search(r'\d+\.?\d*', s)`: the first digit run, followed, when a
      point comes next, by the point and the digit run after it. */
  function SearchDecimal(s: string): (r: Option<Match>)
    ensures r.Some? ==> r.value.start < r.value.end <= |s|
  {
    var i := FindDigit(s, 0);
    if i == |s| then None
    else
      var j := RunEnd(s, i);
      if j < |s| && s[j] == '.' then Some(Match(i, RunEnd(s, j + 1))) else Some(Match(i, j))
  }

  /** Text the pattern `\d+\.?\d*` matches as a whole. */
  ghost predicate IsDecimalShape(t: string) {
    && |t| > 0 && IsDigit(t[0])
    && (AllDigits(t) || exists p :: 0 < p < |t| && t[p] == '.' && AllDigits(t[..p]) && AllDigits(t[p + 1..]))
  }

  /** The decimal search finds the leftmost place the pattern can match, and
      there takes the longest text the pattern matches, as the greedy
      regular expression does. */
  lemma SearchDecimalIsLeftmostLongest(s: string)
    ensures SearchDecimal(s).None? <==> forall k :: 0 <= k < |s| ==> !IsDigit(s[k])
    ensures SearchDecimal(s).Some? ==>
      var m := SearchDecimal(s).value;
      && m.start < m.end <= |s|
      && (forall k :: 0 <= k < m.start ==> !IsDigit(s[k]))
      && IsDecimalShape(s[m.start..m.end])
      && (forall e :: m.end < e <= |s| ==> !IsDecimalShape(s[m.start..e]))
  {
    var i := FindDigit(s, 0);
    if i < |s| {
      var j := RunEnd(s, i);
      if j < |s| && s[j] == '.' {
        PointMatchIsShape(s, i, j, RunEnd(s, j + 1));
        PointMatchIsLongest(s, i, j, RunEnd(s, j + 1));
      } else {
        RunMatchIsLongest(s, i, j);
      }
    }
  }

  lemma PointMatchIsLongest(s: string, i: nat, j: nat, k: nat)
    requires i < j < |s| && s[j] == '.' && k == RunEnd(s, j + 1)
    ensures forall e :: k < e <= |s| ==> !IsDecimalShape(s[i..e])
  {
    forall e | k < e <= |s|
      ensures !IsDecimalShape(s[i..e])
    {
      var u := s[i..e];
      assert u[j - i] == s[j] && u[k - i] == s[k];
      TwoNonDigitsNotShape(u, j - i, k - i);
    }
  }

  lemma RunMatchIsLongest(s: string, i: nat, j: nat)
    requires i < j <= |s| && (forall q :: i <= q < j ==> IsDigit(s[q]))
    requires j == |s| || (!IsDigit(s[j]) && s[j] != '.')
    ensures IsDecimalShape(s[i..j])
    ensures forall e :: j < e <= |s| ==> !IsDecimalShape(s[i..e])
  {
    var t := s[i..j];
    assert forall q :: 0 <= q < |t| ==> t[q] == s[i + q];
    forall e | j < e <= |s|
      ensures !IsDecimalShape(s[i..e])
    {
      var u := s[i..e];
      assert u[j - i] == s[j];
      StrayNotShape(u, j - i);
    }
  }

  /** Digits, a point, then digits up to `k`: the pattern matches it whole. */
  lemma PointMatchIsShape(s: string, i: nat, j: nat, k: nat)
    requires i < j < |s| && s[j] == '.' && k == RunEnd(s, j + 1)
    requires forall q :: i <= q < j ==> IsDigit(s[q])
    ensures IsDecimalShape(s[i..k])
  {
    var t := s[i..k];
    var p := j - i;
    assert t[p] == '.';
    assert t[..p] == s[i..j];
    assert forall q :: 0 <= q < p ==> t[..p][q] == s[i + q];
    ghost var tail := t[p + 1..];
    assert forall q :: 0 <= q < |tail| ==> tail[q] == s[j + 1 + q];
  }

  /** The pattern has room for at most one non-digit. */
  lemma TwoNonDigitsNotShape(u: string, q1: nat, q2: nat)
    requires q1 < q2 < |u| && !IsDigit(u[q1]) && !IsDigit(u[q2])
    ensures !IsDecimalShape(u)
  {
    if IsDecimalShape(u) {
      var p :| 0 < p < |u| && u[p] == '.' && AllDigits(u[..p]) && AllDigits(u[p + 1..]);
      NonDigitIsAt(u, p, q1);
      NonDigitIsAt(u, p, q2);
    }
  }

  /** ... and that non-digit must be a point. */
  lemma StrayNotShape(u: string, q: nat)
    requires q < |u| && !IsDigit(u[q]) && u[q] != '.'
    ensures !IsDecimalShape(u)
  {
    if IsDecimalShape(u) {
      var p :| 0 < p < |u| && u[p] == '.' && AllDigits(u[..p]) && AllDigits(u[p + 1..]);
      NonDigitIsAt(u, p, q);
    }
  }

  /** Around a point with digits on both sides, the point is the only
      non-digit. */
  lemma NonDigitIsAt(u: string, p: nat, q: nat)
    requires p < |u| && q < |u| && AllDigits(u[..p]) && AllDigits(u[p + 1..])
    requires !IsDigit(u[q])
    ensures q == p
  {
  }

  /** The text a search matched is a decimal literal, so `astype(float)`
      always succeeds on it. */
  lemma MatchedTextParses(s: string)
    ensures SearchInteger(s).Some? ==>
      var m := SearchInteger(s).value;
      ParseNumber(s[m.start..m.end]) == Some(DigitsValue(s[m.start..m.end]) as real)
    ensures SearchDecimal(s).Some? ==>
      var m := SearchDecimal(s).value;
      ParseNumber(s[m.start..m.end]).Some?
  {
    if SearchInteger(s).Some? {
      var m := SearchInteger(s).value;
      ParseDigits(s[m.start..m.end]);
    }
    if SearchDecimal(s).Some? {
      var m := SearchDecimal(s).value;
      SearchDecimalIsLeftmostLongest(s);
      ShapeParses(s[m.start..m.end]);
    }
  }

  /** Text the decimal pattern matches whole is a literal `to_numeric`
      accepts. */
  lemma ShapeParses(t: string)
    requires IsDecimalShape(t)
    ensures ParseNumber(t).Some?
  {
    ParseUnsignedAcceptsLiterals(t);
  }

  /** The value `str.extract(pattern).astype(float)` gives a text cell:
      the number the matched text denotes, or missing when nothing matched. */
  function ExtractWith(s: string, m: Option<Match>): Cell
    requires m.Some? ==> m.value.start <= m.value.end <= |s|
  {
    match m
    case None => Missing
    case Some(Match(a, b)) =>
      match ParseNumber(s[a..b])
      case Some(v) => Num(v)
      case None => Missing
  }
}
