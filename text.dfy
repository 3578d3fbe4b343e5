/** String rules of the pipeline: Python's `str.strip()`, and the column-name
    rewrite `re.sub(r'[\s/()-]+', '_', col).lower().strip('_')`. */
module Text {

  /** Python's `str.isspace()`, which is also the set the class `\s` matches
      in a regular expression over `str`. */
  predicate IsSpace(c: char) {
    || ('\U{9}' <= c <= '\U{D}')
    || ('\U{1C}' <= c <= ' ')
    || c == '\U{85}' || c == '\U{A0}' || c == '\U{1680}'
    || ('\U{2000}' <= c <= '\U{200A}')
    || c == '\U{2028}' || c == '\U{2029}' || c == '\U{202F}' || c == '\U{205F}' || c == '\U{3000}'
  }

  /** The character class `[\s/()-]` of the column-name rewrite. */
  predicate IsSeparator(c: char) {
    IsSpace(c) || c == '/' || c == '(' || c == ')' || c == '-'
  }

  predicate IsUpper(c: char) {
    'A' <= c <= 'Z'
  }

  predicate IsUnderscore(c: char) {
    c == '_'
  }

  /** The first position at or after `i` whose character `drop` keeps, or
      |s|. */
  function StartKept(s: string, drop: char -> bool, i: nat): (j: nat)
    requires i <= |s|
    ensures i <= j <= |s|
    ensures forall q :: i <= q < j ==> drop(s[q])
    ensures j == |s| || !drop(s[j])
    decreases |s| - i
  {
    if i < |s| && drop(s[i]) then StartKept(s, drop, i + 1) else i
  }

  /** The position after the last character before `j` (and from `a` on)
      that `drop` keeps, or `a`. */
  function EndKept(s: string, drop: char -> bool, a: nat, j: nat): (e: nat)
    requires a <= j <= |s|
    ensures a <= e <= j
    ensures forall q :: e <= q < j ==> drop(s[q])
    ensures e == a || !drop(s[e - 1])
    decreases j
  {
    if j > a && drop(s[j - 1]) then EndKept(s, drop, a, j - 1) else j
  }

  /** Python's `s.strip(chars)`, for the characters `drop` selects: the
      slice between the dropped characters at either end. */
  function Strip(s: string, drop: char -> bool): string {
    var a := StartKept(s, drop, 0);
    s[a..EndKept(s, drop, a, |s|)]
  }

  /** The result is the slice of `s` that starts after the leading dropped
      characters; it starts and ends with a kept character, and everything
      cut off on either side was a dropped one. */
  lemma StripIsSlice(s: string, drop: char -> bool)
    ensures var a, r := StartKept(s, drop, 0), Strip(s, drop);
      && a + |r| <= |s| && r == s[a..a + |r|]
      && (r == [] || (!drop(r[0]) && !drop(r[|r| - 1])))
      && (forall i :: 0 <= i < a ==> drop(s[i]))
      && (forall i :: a + |r| <= i < |s| ==> drop(s[i]))
  {
    var a := StartKept(s, drop, 0);
    var e := EndKept(s, drop, a, |s|);
    if a < e {
      assert s[a..e][0] == s[a] && s[a..e][e - a - 1] == s[e - 1];
    }
  }

  /** Stripping a string that has nothing to strip changes nothing, so a
      second strip is a no-op. */
  lemma {:induction false} StripIdempotent(s: string, drop: char -> bool)
    ensures Strip(Strip(s, drop), drop) == Strip(s, drop)
  {
    var r := Strip(s, drop);
    StripIsSlice(s, drop);
    StripNothingToStrip(r, drop);
  }

  lemma StripNothingToStrip(s: string, drop: char -> bool)
    requires s == [] || (!drop(s[0]) && !drop(s[|s| - 1]))
    ensures Strip(s, drop) == s
  {
    assert StartKept(s, drop, 0) == 0;
    assert EndKept(s, drop, 0, |s|) == |s|;
  }

  /** Python's `str.strip()` with no argument. */
  function StripSpace(s: string): string {
    Strip(s, IsSpace)
  }

  /** `re.sub(r'[\s/()-]+', '_', s)`: every maximal run of separators
      becomes one underscore. */
  function CollapseSeparators(s: string): (r: string)
    ensures forall i :: 0 <= i < |r| ==> !IsSeparator(r[i])
    decreases |s|
  {
    if s == [] then []
    else if IsSeparator(s[0]) then "_" + CollapseSeparators(s[StartKept(s, IsSeparator, 1)..])
    else [s[0]] + CollapseSeparators(s[1..])
  }

  /** A string without separators is left alone by the rewrite. */
  lemma {:induction false} CollapseWithoutSeparators(s: string)
    requires forall i :: 0 <= i < |s| ==> !IsSeparator(s[i])
    ensures CollapseSeparators(s) == s
    decreases |s|
  {
    if s != [] {
      assert !IsSeparator(s[0]);
      CollapseWithoutSeparators(s[1..]);
    }
  }

  /** A run of separators between a separator-free prefix and a rest that
      does not continue the run becomes exactly one underscore; the prefix
      is kept and the rest is rewritten on its own. */
  lemma {:induction false} CollapseRun(p: string, run: string, rest: string)
    requires forall i :: 0 <= i < |p| ==> !IsSeparator(p[i])
    requires |run| > 0 && forall i :: 0 <= i < |run| ==> IsSeparator(run[i])
    requires rest == [] || !IsSeparator(rest[0])
    ensures CollapseSeparators(p + run + rest) == p + "_" + CollapseSeparators(rest)
    decreases |p|
  {
    var s := p + run + rest;
    if p == [] {
      assert s == run + rest;
      var j := StartKept(s, IsSeparator, 1);
      assert |s| == |run| + |rest|;
      assert rest != [] ==> !IsSeparator(s[|run|]) by {
        if rest != [] { assert s[|run|] == rest[0]; }
      }
      assert j == |run|;
      assert s[j..] == rest;
    } else {
      assert s[0] == p[0] && s[1..] == p[1..] + run + rest;
      CollapseRun(p[1..], run, rest);
    }
  }

  /** `str.lower()` on the ASCII letters. */
  function LowerChar(c: char): (r: char)
    ensures !IsUpper(r)
    ensures IsSeparator(r) == IsSeparator(c)
    ensures !IsUpper(c) ==> r == c
  {
    if IsUpper(c) then (c as int + 32) as char else c
  }

  /** Each capital becomes the small letter at the same place in the
      alphabet. */
  lemma LowerLetters(c: char)
    requires IsUpper(c)
    ensures LowerChar(c) == "abcdefghijklmnopqrstuvwxyz"[c as int - 'A' as int]
  {
  }

  function ToLower(s: string): (r: string)
    ensures |r| == |s|
    ensures forall i :: 0 <= i < |s| ==> r[i] == LowerChar(s[i])
  {
    seq(|s|, i requires 0 <= i < |s| => LowerChar(s[i]))
  }

  /** Lower-casing changes a string exactly when it holds a capital. */
  lemma ToLowerFixpoint(s: string)
    ensures ToLower(s) == s <==> forall i :: 0 <= i < |s| ==> !IsUpper(s[i])
  {
    if ToLower(s) == s {
      forall i | 0 <= i < |s| ensures !IsUpper(s[i]) {
        assert s[i] == ToLower(s)[i];
      }
    }
  }

  /** Lower-casing twice is lower-casing once. */
  lemma ToLowerIdempotent(s: string)
    ensures ToLower(ToLower(s)) == ToLower(s)
  {
    ToLowerFixpoint(ToLower(s));
  }

  /** The column-name rule: collapse separator runs to `_`, lower-case,
      then strip leading and trailing underscores. */
  function NormalizeName(s: string): string {
    Strip(ToLower(CollapseSeparators(s)), IsUnderscore)
  }

  /** A name the rule produces: no separator, no upper-case letter, and no
      underscore at either end. */
  predicate IsCleanName(n: string) {
    && (forall i :: 0 <= i < |n| ==> !IsSeparator(n[i]) && !IsUpper(n[i]))
    && (n == [] || (n[0] != '_' && n[|n| - 1] != '_'))
  }

  lemma NormalizedNameIsClean(s: string)
    ensures IsCleanName(NormalizeName(s))
  {
    var c := CollapseSeparators(s);
    var l := ToLower(c);
    var n := Strip(l, IsUnderscore);
    StripIsSlice(l, IsUnderscore);
    var a := StartKept(l, IsUnderscore, 0);
    LowerSliceChars(c, a, n);
  }

  /** A slice of a lower-cased collapsed name has no separator and no
      upper-case letter. */
  lemma LowerSliceChars(c: string, a: nat, n: string)
    requires forall i :: 0 <= i < |c| ==> !IsSeparator(c[i])
    requires a + |n| <= |c| && n == ToLower(c)[a..a + |n|]
    ensures forall i :: 0 <= i < |n| ==> !IsSeparator(n[i]) && !IsUpper(n[i])
  {
    forall i | 0 <= i < |n|
      ensures !IsSeparator(n[i]) && !IsUpper(n[i])
    {
      assert n[i] == ToLower(c)[a + i] == LowerChar(c[a + i]);
    }
  }

  /** Clean names are exactly the fixed points of the rule. */
  lemma CleanNameIsFixpoint(n: string)
    ensures IsCleanName(n) <==> NormalizeName(n) == n
  {
    if IsCleanName(n) {
      CollapseWithoutSeparators(n);
      assert ToLower(n) == n;
      StripNothingToStrip(n, IsUnderscore);
    } else {
      NormalizedNameIsClean(n);
    }
  }

  /** Renaming a renamed column changes nothing. */
  lemma NormalizeIdempotent(s: string)
    ensures NormalizeName(NormalizeName(s)) == NormalizeName(s)
  {
    NormalizedNameIsClean(s);
    CleanNameIsFixpoint(NormalizeName(s));
  }
}
