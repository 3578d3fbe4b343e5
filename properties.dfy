/** Properties of the whole of `clean_data`: what it reports when it fails,
    the shape and the labels of what it returns, and what becomes of the
    Yes/No answers. */
module Properties {
  import opened Cells
  import opened Text
  import opened Imputation
  import opened Cleaning
  import opened Pipeline
  import opened Preparation

  /** A failure names only labels that are absent: either the identifying
      labels missing from the input, or the first label of the column
      specification missing after renaming. */
  lemma CleanFailureNamesAbsentLabels(t: Table)
    ensures Clean(t).Failure? ==>
      || (Clean(t).error.keys != [] && forall k :: k in Clean(t).error.keys ==>
            k in Identifying && k !in Names(t.columns))
      || (exists p :: 0 <= p < |Schema| && Clean(t).error == KeyNotFound([Schema[p].name])
            && Schema[p].name !in Names(Prepared(t)))
  {
    if DropIdentifying(t.columns).Success? {
      var cleaned := MapColumns(MapColumns(MapColumns(Kept(t), RenameColumn), StripColumn), BlankTokens);
      assert cleaned == Prepared(t);
      CoerceAllFailsAtFirstAbsent(cleaned, Schema);
    }
  }

  /** No row is lost and every column keeps one cell per row. */
  lemma CleanKeepsRows(t: Table)
    requires WellFormed(t)
    ensures Clean(t).Success? ==> Clean(t).value.rows == t.rows && WellFormed(Clean(t).value)
  {
    CleanIsColumnwise(t);
    if Clean(t).Success? {
      ColumnwiseKeepsRows(t, Clean(t).value);
    }
  }

  /** A table made of the columns `clean_data` computes has one cell per
      row. */
  lemma ColumnwiseKeepsRows(t: Table, r: Table)
    requires WellFormed(t) && r.rows == t.rows && |r.columns| == |Kept(t)|
    requires forall j :: 0 <= j < |Kept(t)| ==> r.columns[j] == CleanColumn(t, j)
    ensures WellFormed(r)
  {
    KeptHaveRows(t);
    forall j | 0 <= j < |r.columns| ensures |r.columns[j].cells| == r.rows {
      CleanColumnShape(t, j);
    }
  }

  /** The columns kept by the drop are input columns, with one cell per row. */
  lemma KeptHaveRows(t: Table)
    requires WellFormed(t)
    ensures forall j :: 0 <= j < |Kept(t)| ==> |Kept(t)[j].cells| == t.rows
  {
    forall j | 0 <= j < |Kept(t)| ensures |Kept(t)[j].cells| == t.rows {
      assert Kept(t)[j] in t.columns;
    }
  }

  /** One output column: the input label normalised, and one cell per
      input cell. */
  lemma CleanColumnShape(t: Table, j: nat)
    requires j < |Kept(t)|
    ensures CleanColumn(t, j).name == NormalizeName(Kept(t)[j].name)
    ensures |CleanColumn(t, j).cells| == |Kept(t)[j].cells|
  {
    var c := CoerceWith(RuleAt(Prepared(t), Schema, j), Prepared(t)[j]);
    assert c.name == Prepared(t)[j].name && |c.cells| == |Prepared(t)[j].cells|;
    ImputeKeepsShape(c.cells);
  }

  /** The result holds one column per kept input column, in order, labelled
      with the normalised input label, and every label is clean. */
  lemma CleanLabels(t: Table)
    ensures Clean(t).Success? ==>
      && |Clean(t).value.columns| == |Kept(t)|
      && (forall j :: 0 <= j < |Kept(t)| ==>
            Clean(t).value.columns[j].name == NormalizeName(Kept(t)[j].name))
      && (forall j :: 0 <= j < |Kept(t)| ==> IsCleanName(Clean(t).value.columns[j].name))
  {
    CleanIsColumnwise(t);
    if Clean(t).Success? {
      forall j | 0 <= j < |Kept(t)|
        ensures Clean(t).value.columns[j].name == NormalizeName(Kept(t)[j].name)
        ensures IsCleanName(Clean(t).value.columns[j].name)
      {
        CleanColumnShape(t, j);
        NormalizedNameIsClean(Kept(t)[j].name);
      }
    }
  }

  /** The input columns that remain after the drop are exactly those not
      labelled `Timestamp` or `Username`. */
  lemma KeptColumns(t: Table)
    ensures forall c :: c in Kept(t) <==> c in t.columns && c.name != "Timestamp" && c.name != "Username"
  {
  }

  // ---------------------------------------------------------------------
  // The Yes/No answers

  /** What a Yes/No cell may hold after coercion: the code of "Yes", a gap,
      or an answer that is neither "Yes" nor "No". */
  predicate YesNoOutcome(x: Cell) {
    x == Num(1.0) || x == Missing || (x.Text? && x.text != "Yes" && x.text != "No")
  }

  /** Yes/No coercion of a cell that is missing or text other than "No". */
  lemma YesNoCell(x: Cell)
    requires x.Missing? || (x.Text? && x.text != "No")
    ensures YesNoOutcome(Coerce(Replace(YesNoCodes), x))
  {
  }

  /** "No" is one of the non-answer tokens. */
  lemma NotATokenNotNo(s: string)
    requires s !in NonAnswers
    ensures s != "No"
  {
    assert NonAnswers[3] == "No";
  }

  /** Yes/No coercion of a column blanked of its tokens: each cell ends as
      1, missing, or text that is neither "Yes" nor "No". */
  lemma YesNoOnBlanked(q: Column)
    requires forall i :: 0 <= i < |q.cells| ==>
      q.cells[i].Missing? || (q.cells[i].Text? && q.cells[i].text !in NonAnswers)
    ensures var r := CoerceColumn(Replace(YesNoCodes), q);
      forall i :: 0 <= i < |r.cells| ==> YesNoOutcome(r.cells[i])
  {
    forall i | 0 <= i < |q.cells|
      ensures q.cells[i].Missing? || (q.cells[i].Text? && q.cells[i].text != "No")
    {
      if q.cells[i].Text? {
        NotATokenNotNo(q.cells[i].text);
      }
    }
    forall i | 0 <= i < |q.cells| {
      YesNoCell(q.cells[i]);
    }
  }

  /** Yes/No coercion of a text column: since "No" is blanked first, each
      cell ends as 1, missing, or text that is neither "Yes" nor "No". */
  lemma YesNoAfterCoercion(c: Column)
    requires !IsNumeric(c.cells)
    ensures var r := CoerceColumn(Replace(YesNoCodes), Prepare(c));
      forall i :: 0 <= i < |r.cells| ==> YesNoOutcome(r.cells[i])
  {
    PreparedTextCells(c);
    YesNoOnBlanked(Prepare(c));
  }

  /** ... and after imputation no cell is 0: either text is left and the
      column is as coercion left it, or every cell is 1 or missing, and a
      column with a present cell is filled with 1. */
  lemma YesNoNeverZero(c: Column)
    requires !IsNumeric(c.cells)
    ensures var f := ImputeMeans(CoerceColumn(Replace(YesNoCodes), Prepare(c)));
      forall i :: 0 <= i < |f.cells| ==> YesNoOutcome(f.cells[i])
  {
    YesNoAfterCoercion(c);
    ImputeOnes(CoerceColumn(Replace(YesNoCodes), Prepare(c)));
  }

  /** Imputing a column of ones, gaps and other text keeps it so. */
  lemma ImputeOnes(r: Column)
    requires forall i :: 0 <= i < |r.cells| ==> YesNoOutcome(r.cells[i])
    ensures var f := ImputeMeans(r);
      forall i :: 0 <= i < |f.cells| ==> YesNoOutcome(f.cells[i])
  {
    if IsNumeric(r.cells) && Count(r.cells) > 0 {
      MeanOfConstant(r.cells, 1.0);
      ImputeFillsAndKeepsMean(r.cells);
    }
  }

  /** The three Yes/No fields of the specification, and the rule a lookup
      of each label finds. */
  lemma SmokingStatusIsYesNo()
    ensures Schema[9].name == "smoking_status"
    ensures Lookup(Schema, Schema[9].name) == Some(Replace(YesNoCodes))
  {
    LookupFirst(Schema, 9);
  }

  lemma ChronicHealthIssuesIsYesNo()
    ensures Schema[10].name == "chronic_health_issues"
    ensures Lookup(Schema, Schema[10].name) == Some(Replace(YesNoCodes))
  {
    LookupFirst(Schema, 10);
  }

  lemma MedicationUseIsYesNo()
    ensures Schema[11].name == "medication_use"
    ensures Lookup(Schema, Schema[11].name) == Some(Replace(YesNoCodes))
  {
    LookupFirst(Schema, 11);
  }

  /** In the cleaned table, a column reached by the Yes/No rule that was
      answered in text never holds 0. */
  lemma CleanYesNoNeverZero(t: Table, j: nat)
    requires Clean(t).Success? && j < |Kept(t)|
    requires RuleAt(Prepared(t), Schema, j) == Some(Replace(YesNoCodes))
    requires !IsNumeric(Kept(t)[j].cells)
    ensures j < |Clean(t).value.columns|
    ensures forall i :: 0 <= i < |Clean(t).value.columns[j].cells| ==>
      Clean(t).value.columns[j].cells[i] != Num(0.0)
  {
    CleanIsColumnwise(t);
    YesNoColumnAt(Prepared(t), Schema, j, Kept(t)[j]);
  }

  /** A text column reached by the Yes/No rule holds no 0 once coerced and
      imputed. */
  lemma YesNoColumnAt(cols: seq<Column>, sch: seq<Entry>, j: nat, c: Column)
    requires j < |cols| && RuleAt(cols, sch, j) == Some(Replace(YesNoCodes))
    requires cols[j] == Prepare(c) && !IsNumeric(c.cells)
    ensures forall i :: 0 <= i < |ImputeMeans(CoerceWith(RuleAt(cols, sch, j), cols[j])).cells| ==>
      ImputeMeans(CoerceWith(RuleAt(cols, sch, j), cols[j])).cells[i] != Num(0.0)
  {
    var f := ImputeMeans(CoerceColumn(Replace(YesNoCodes), Prepare(c)));
    assert ImputeMeans(CoerceWith(RuleAt(cols, sch, j), cols[j])) == f;
    YesNoNeverZero(c);
    NoZeroAmongOutcomes(f);
  }

  lemma NoZeroAmongOutcomes(f: Column)
    requires forall i :: 0 <= i < |f.cells| ==> YesNoOutcome(f.cells[i])
    ensures forall i :: 0 <= i < |f.cells| ==> f.cells[i] != Num(0.0)
  {
  }
}
