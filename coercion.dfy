/** What each coercion rule of stage 4 does to one cell, proved from the
    rule definitions and the literal and pattern definitions. */
module Coercion {
  import opened Cells
  import opened Numerals
  import opened Cleaning

  // ---------------------------------------------------------------------
  // pd.to_numeric(col, errors='coerce')

  /** Numeric coercion never raises: a number stays as it is, text that is a
      decimal literal becomes its value, and anything else becomes missing;
      no text survives. */
  lemma ToNumericCell(c: Cell)
    ensures !Coerce(ToNumeric, c).Text?
    ensures c.Num? ==> Coerce(ToNumeric, c) == c
    ensures c.Missing? ==> Coerce(ToNumeric, c) == Missing
    ensures c.Text? ==>
      (Coerce(ToNumeric, c).Num? <==> ParseNumber(c.text).Some?)
    ensures c.Text? && ParseNumber(c.text).Some? ==>
      Coerce(ToNumeric, c) == Num(ParseNumber(c.text).value)
  {
  }

  /** A text cell parses exactly when it is a decimal literal, with an
      optional sign. */
  lemma ToNumericAcceptsLiterals(s: string)
    ensures Coerce(ToNumeric, Text(s)).Num? <==>
      || IsUnsignedLiteral(s)
      || (|s| > 0 && (s[0] == '+' || s[0] == '-') && IsUnsignedLiteral(s[1..]))
  {
    ParseUnsignedAcceptsLiterals(s);
    if |s| > 0 {
      ParseUnsignedAcceptsLiterals(s[1..]);
    }
  }

  /** Coercing twice is coercing once. */
  lemma ToNumericIdempotent(c: Cell)
    ensures Coerce(ToNumeric, Coerce(ToNumeric, c)) == Coerce(ToNumeric, c)
  {
    ToNumericCell(c);
    ToNumericCell(Coerce(ToNumeric, c));
  }

  /** Whole numbers written in digits, with or without a minus sign, come
      back as themselves. */
  lemma ToNumericWholeNumbers(n: nat)
    ensures Coerce(ToNumeric, Text(ShowNat(n))) == Num(n as real)
    ensures Coerce(ToNumeric, Text("-" + ShowNat(n))) == Num(-(n as real))
  {
    ParseShowNat(n);
  }

  // ---------------------------------------------------------------------
  // col.replace(codes)

  /** A dictionary replacement turns a listed answer into its code and leaves
      every other cell, missing ones included, exactly as it was. */
  lemma ReplaceCell(codes: map<string, int>, c: Cell)
    ensures c.Text? && c.text in codes ==> Coerce(Replace(codes), c) == Num(codes[c.text] as real)
    ensures !(c.Text? && c.text in codes) ==> Coerce(Replace(codes), c) == c
    ensures Coerce(Replace(codes), c).Text? ==> Coerce(Replace(codes), c) == c && c.text !in codes
  {
  }

  /** Replacing twice is replacing once: a code is never looked up again. */
  lemma ReplaceIdempotent(codes: map<string, int>, c: Cell)
    ensures Coerce(Replace(codes), Coerce(Replace(codes), c)) == Coerce(Replace(codes), c)
  {
  }

  /** The codes of the gender and relationship answers, and an answer that
      is in neither dictionary. */
  lemma CategoricalCodes()
    ensures Coerce(Replace(GenderCodes), Text("Male")) == Num(0.0)
    ensures Coerce(Replace(GenderCodes), Text("Female")) == Num(1.0)
    ensures Coerce(Replace(GenderCodes), Text("Non-binary")) == Num(2.0)
    ensures Coerce(Replace(GenderCodes), Text("Other")) == Num(2.0)
    ensures Coerce(Replace(GenderCodes), Text("Prefer not to say")) == Text("Prefer not to say")
    ensures Coerce(Replace(RelationshipCodes), Text("Other")) == Num(3.0)
    ensures Coerce(Replace(RelationshipCodes), Text("Married/Partnered")) == Num(2.0)
    ensures Coerce(Replace(RelationshipCodes), Missing) == Missing
  {
    assert "Prefer not to say" !in GenderCodes by {
      assert "Prefer not to say" != "Male" && "Prefer not to say" != "Female";
      assert "Prefer not to say" != "Non-binary" && "Prefer not to say" != "Other";
    }
  }

  // ---------------------------------------------------------------------
  // col.str.extract(pattern).astype(float)

  /** Integer extraction: a text cell with a digit becomes the value of its
      first maximal run of digits; a text cell without one, and any cell
      that is not text, becomes missing. */
  lemma ExtractIntegerCell(c: Cell)
    ensures !Coerce(ExtractInteger, c).Text?
    ensures !c.Text? ==> Coerce(ExtractInteger, c) == Missing
    ensures c.Text? ==>
      (Coerce(ExtractInteger, c).Num? <==> exists k :: 0 <= k < |c.text| && IsDigit(c.text[k]))
    ensures c.Text? && SearchInteger(c.text).Some? ==>
      var m := SearchInteger(c.text).value;
      Coerce(ExtractInteger, c) == Num(DigitsValue(c.text[m.start..m.end]) as real)
  {
    if c.Text? {
      MatchedTextParses(c.text);
    }
  }

  /** Decimal extraction: a text cell with a digit becomes the number the
      leftmost-longest match of `\d+\.?\d*` denotes; anything else becomes
      missing. */
  lemma ExtractDecimalCell(c: Cell)
    ensures !Coerce(ExtractDecimal, c).Text?
    ensures !c.Text? ==> Coerce(ExtractDecimal, c) == Missing
    ensures c.Text? ==>
      (Coerce(ExtractDecimal, c).Num? <==> exists k :: 0 <= k < |c.text| && IsDigit(c.text[k]))
    ensures c.Text? && SearchDecimal(c.text).Some? ==>
      var m := SearchDecimal(c.text).value;
      && IsDecimalShape(c.text[m.start..m.end])
      && Coerce(ExtractDecimal, c) == Num(ParseNumber(c.text[m.start..m.end]).value)
  {
    if c.Text? {
      MatchedTextParses(c.text);
      SearchDecimalIsLeftmostLongest(c.text);
    }
  }

  /** Answers of the kind the free-text number columns receive. */
  lemma ExtractDecimalLitres()
    ensures Coerce(ExtractDecimal, Text("2.5 litres")) == Num(2.5)
  {
    var s := "2.5 litres";
    LitresStartsWithDecimal();
    assert SearchDecimal(s) == Some(Match(0, 3));
  }

  /** In "2.5 litres" the first digit run "2" is followed by a point and
      the run "5", and "2.5" denotes 2.5. */
  lemma LitresStartsWithDecimal()
    ensures FindDigit("2.5 litres", 0) == 0 && RunEnd("2.5 litres", 0) == 1
    ensures "2.5 litres"[1] == '.' && RunEnd("2.5 litres", 2) == 3
    ensures "2.5 litres"[0..3] == "2.5"
    ensures ParseNumber("2.5") == Some(2.5)
  {
    var s := "2.5 litres";
    assert IsDigit(s[0]) && !IsDigit(s[1]) && IsDigit(s[2]) && !IsDigit(s[3]);
    assert RunEnd(s, 1) == 1 && RunEnd(s, 3) == 3;
    assert "2.5"[..1] == "2" && "2.5"[2..] == "5";
    ParseDecimal("2.5", 1);
  }

  lemma ExtractDecimalRange()
    ensures Coerce(ExtractDecimal, Text("2-3 cups")) == Num(2.0)
  {
    var s := "2-3 cups";
    RangeStartsWithTwo();
    assert SearchDecimal(s) == Some(Match(0, 1));
  }

  lemma ExtractIntegerRange()
    ensures Coerce(ExtractInteger, Text("2-3 cups")) == Num(2.0)
  {
    var s := "2-3 cups";
    RangeStartsWithTwo();
    assert SearchInteger(s) == Some(Match(0, 1));
  }

  /** In "2-3 cups" the first digit run is the leading "2", and a minus sign
      follows it. */
  lemma RangeStartsWithTwo()
    ensures FindDigit("2-3 cups", 0) == 0 && RunEnd("2-3 cups", 0) == 1
    ensures "2-3 cups"[1] == '-' && "2-3 cups"[0..1] == "2"
    ensures ParseNumber("2") == Some(2.0)
  {
    var s := "2-3 cups";
    assert IsDigit(s[0]) && !IsDigit(s[1]);
    assert RunEnd(s, 1) == 1;
    ParseDigits("2");
  }

  /** Text without a digit gives missing under both extractions. */
  lemma ExtractNoDigit(s: string)
    requires forall k :: 0 <= k < |s| ==> !IsDigit(s[k])
    ensures Coerce(ExtractDecimal, Text(s)) == Missing
    ensures Coerce(ExtractInteger, Text(s)) == Missing
  {
    SearchDecimalIsLeftmostLongest(s);
  }
}
