/** What stages 1 to 3 of `clean_data` keep and change: the drop of the
    identifying columns, the renaming, the trimming of text cells and the
    blanking of the non-answer tokens. */
module Preparation {
  import opened Cells
  import opened Text
  import opened Cleaning

  // ---------------------------------------------------------------------
  // Stage 1

  /** The drop keeps the other columns in their order: it distributes over
      concatenation, so each column is kept or dropped on its own. */
  lemma {:induction false} WithoutAppend(a: seq<Column>, b: seq<Column>, keys: seq<string>)
    ensures Without(a + b, keys) == Without(a, keys) + Without(b, keys)
    decreases |a|
  {
    if a == [] {
      assert a + b == b;
    } else {
      assert (a + b)[1..] == a[1..] + b;
      WithoutAppend(a[1..], b, keys);
    }
  }

  /** Columns none of whose labels is dropped are all kept, as they were. */
  lemma {:induction false} WithoutNoKeys(cols: seq<Column>, keys: seq<string>)
    requires forall j :: 0 <= j < |cols| ==> cols[j].name !in keys
    ensures Without(cols, keys) == cols
    decreases |cols|
  {
    if cols != [] {
      WithoutNoKeys(cols[1..], keys);
    }
  }

  // ---------------------------------------------------------------------
  // Stage 3

  /** Trimming touches only the text columns: there, text is stripped of
      surrounding white space and any other cell becomes missing. */
  lemma StripColumnCells(c: Column)
    ensures StripColumn(c).name == c.name && |StripColumn(c).cells| == |c.cells|
    ensures IsNumeric(c.cells) ==> StripColumn(c) == c
    ensures !IsNumeric(c.cells) ==> forall i :: 0 <= i < |c.cells| ==>
      StripColumn(c).cells[i] == (if c.cells[i].Text? then Text(StripSpace(c.cells[i].text)) else Missing)
  {
  }

  /** Token cleaning is exact: a cell changes exactly when it is text equal,
      case for case, to a non-answer token, and then it becomes missing. */
  lemma BlankTokensExact(c: Column)
    ensures BlankTokens(c).name == c.name && |BlankTokens(c).cells| == |c.cells|
    ensures forall i :: 0 <= i < |c.cells| ==>
      (BlankTokens(c).cells[i] != c.cells[i] <==> c.cells[i].Text? && c.cells[i].text in NonAnswers)
    ensures forall i :: 0 <= i < |c.cells| ==>
      BlankTokens(c).cells[i] != c.cells[i] ==> BlankTokens(c).cells[i] == Missing
    ensures forall i :: 0 <= i < |c.cells| ==>
      !(BlankTokens(c).cells[i].Text? && BlankTokens(c).cells[i].text in NonAnswers)
  {
  }

  /** Blanking twice is blanking once. */
  lemma BlankTokensIdempotent(c: Column)
    ensures BlankTokens(BlankTokens(c)) == BlankTokens(c)
  {
  }

  /** Stages 2 and 3 on one column: the label is normalised; in a text
      column a cell becomes missing exactly when it is not text or its
      trimmed text is a non-answer token, and otherwise holds its trimmed
      text; a numeric column keeps its cells. */
  lemma PrepareCells(c: Column)
    ensures Prepare(c).name == NormalizeName(c.name) && |Prepare(c).cells| == |c.cells|
    ensures IsNumeric(c.cells) ==> Prepare(c).cells == c.cells
    ensures !IsNumeric(c.cells) ==> forall i :: 0 <= i < |c.cells| ==>
      (Prepare(c).cells[i] == Missing <==> !c.cells[i].Text? || StripSpace(c.cells[i].text) in NonAnswers)
    ensures !IsNumeric(c.cells) ==> forall i :: 0 <= i < |c.cells| ==>
      Prepare(c).cells[i] != Missing ==> Prepare(c).cells[i] == Text(StripSpace(c.cells[i].text))
  {
    var s := StripColumn(RenameColumn(c));
    if IsNumeric(c.cells) {
      assert s == RenameColumn(c);
      assert Prepare(c).cells == c.cells by {
        forall i | 0 <= i < |c.cells| ensures Prepare(c).cells[i] == c.cells[i] {
          assert !c.cells[i].Text?;
        }
      }
    } else {
      forall i | 0 <= i < |c.cells|
        ensures Prepare(c).cells[i] == PrepareCell(c.cells[i])
      {
        assert s.cells[i] == StripCell(c.cells[i]);
      }
    }
  }

  /** Stages 3 on one cell of a text column. */
  function PrepareCell(x: Cell): (r: Cell)
    ensures r == Missing <==> !x.Text? || StripSpace(x.text) in NonAnswers
    ensures r != Missing ==> r == Text(StripSpace(x.text))
  {
    BlankToken(StripCell(x))
  }

  /** After stage 3 a text column holds only missing cells and text that
      is not a token. */
  lemma PreparedTextCells(c: Column)
    requires !IsNumeric(c.cells)
    ensures forall i :: 0 <= i < |c.cells| ==>
      Prepare(c).cells[i].Missing? || (Prepare(c).cells[i].Text? && Prepare(c).cells[i].text !in NonAnswers)
  {
    var r := RenameColumn(c);
    assert r.cells == c.cells;
    StrippedIsTextOrMissing(r);
    BlankedTextIsNoToken(StripColumn(r));
  }

  lemma StrippedIsTextOrMissing(c: Column)
    requires !IsNumeric(c.cells)
    ensures |StripColumn(c).cells| == |c.cells|
    ensures forall i :: 0 <= i < |c.cells| ==> StripColumn(c).cells[i].Missing? || StripColumn(c).cells[i].Text?
  {
  }

  lemma BlankedTextIsNoToken(c: Column)
    requires forall i :: 0 <= i < |c.cells| ==> c.cells[i].Missing? || c.cells[i].Text?
    ensures |BlankTokens(c).cells| == |c.cells|
    ensures forall i :: 0 <= i < |c.cells| ==>
      BlankTokens(c).cells[i].Missing? || (BlankTokens(c).cells[i].Text? && BlankTokens(c).cells[i].text !in NonAnswers)
  {
  }

  /** After stage 3 a text column holds only missing cells and trimmed text
      that is not a token. */
  lemma PreparedTextColumn(c: Column)
    requires !IsNumeric(c.cells)
    ensures forall i :: 0 <= i < |c.cells| ==>
      Prepare(c).cells[i].Missing? ||
      (Prepare(c).cells[i].Text? && Prepare(c).cells[i].text !in NonAnswers
       && StripSpace(Prepare(c).cells[i].text) == Prepare(c).cells[i].text)
  {
    PrepareCells(c);
    forall i | 0 <= i < |c.cells| && !Prepare(c).cells[i].Missing?
      ensures StripSpace(Prepare(c).cells[i].text) == Prepare(c).cells[i].text
    {
      StripIdempotent(c.cells[i].text, IsSpace);
    }
  }

  /** The "No" answer is a token whatever white space surrounds it ... */
  lemma PaddedTokenIsBlanked()
    ensures PrepareCell(Text(" No ")) == Missing
  {
    PaddedNoStrips();
    assert NonAnswers[3] == "No";
  }

  lemma PaddedNoStrips()
    ensures StripSpace(" No ") == "No"
  {
    var s := " No ";
    assert IsSpace(s[0]) && !IsSpace(s[1]) && !IsSpace(s[2]) && IsSpace(s[3]);
    assert StartKept(s, IsSpace, 0) == 1;
    assert EndKept(s, IsSpace, 1, 4) == 3;
    assert s[1..3] == "No";
  }

  /** ... while a lower-case "no" is not one. */
  lemma TokensAreCaseSensitive()
    ensures PrepareCell(Text("no")) == Text("no")
  {
    StripNothingToStrip("no", IsSpace);
    assert "no" !in NonAnswers by {
      forall i | 0 <= i < |NonAnswers| ensures NonAnswers[i] != "no" {
        assert NonAnswers[i][0] != 'n' || |NonAnswers[i]| != 2 || NonAnswers[i][1] != 'o';
      }
    }
  }
}
