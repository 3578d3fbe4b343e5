/** `clean_data` as the program runs it: one data frame, changed stage by
    stage in place, and the function-level pipeline of `Cleaning` as its
    specification. */
module Frames {
  import opened Cells
  import opened Imputation
  import opened Cleaning
  import opened Pipeline

  /** A pandas data frame: its columns in order and its row count. */
  class DataFrame {
    var columns: seq<Column>
    var rows: nat

    constructor (t: Table)
      ensures columns == t.columns && rows == t.rows
    {
      columns := t.columns;
      rows := t.rows;
    }

    /** `df.drop(columns=['Timestamp', 'Username'])`: on success the other
        columns remain in order; otherwise the frame is unchanged and the
        error lists every absent label. */
    method DropIdentifying() returns (err: Option<KeyError>)
      modifies this
      ensures rows == old(rows)
      ensures Cleaning.DropIdentifying(old(columns)).Failure? ==>
        err == Some(Cleaning.DropIdentifying(old(columns)).error) && columns == old(columns)
      ensures Cleaning.DropIdentifying(old(columns)).Success? ==>
        err == None && columns == Cleaning.DropIdentifying(old(columns)).value
    {
      var absent := Absent(Names(columns), Identifying);
      if absent != [] {
        return Some(KeyNotFound(absent));
      }
      columns := Without(columns, Identifying);
      err := None;
    }

    /** `df.columns = [... for col in df.columns]`: every label normalised. */
    method RenameColumns()
      modifies this
      ensures rows == old(rows)
      ensures columns == MapColumns(old(columns), RenameColumn)
    {
      var renamed: seq<Column> := [];
      var i := 0;
      while i < |columns|
        invariant 0 <= i <= |columns| && columns == old(columns) && rows == old(rows)
        invariant renamed == MapColumns(columns[..i], RenameColumn)
      {
        MapAppend(renamed, columns, RenameColumn, i);
        renamed := renamed + [RenameColumn(columns[i])];
        i := i + 1;
      }
      assert columns[..i] == columns;
      columns := renamed;
    }

    /** The loop over the `object` columns: each is stripped, the others are
        left as they are. */
    method StripTextColumns()
      modifies this
      ensures rows == old(rows)
      ensures columns == MapColumns(old(columns), StripColumn)
    {
      var i := 0;
      while i < |columns|
        invariant 0 <= i <= |old(columns)| && |columns| == |old(columns)| && rows == old(rows)
        invariant columns == MapColumns(old(columns)[..i], StripColumn) + old(columns)[i..]
      {
        MapUpdate(columns, old(columns), StripColumn, i);
        ghost var next := columns[i := StripColumn(old(columns)[i])];
        if !IsNumeric(columns[i].cells) {
          StripTextColumn(columns[i]);
          columns := columns[i := Column(columns[i].name, MapCells(columns[i].cells, StripCell))];
        } else {
          StripNumericColumn(columns[i]);
        }
        assert columns == next;
        i := i + 1;
      }
      assert old(columns)[..i] == old(columns) && old(columns)[i..] == [];
    }

    /** `df.replace(NonAnswers, np.nan, inplace=True)`. */
    method ReplaceTokens()
      modifies this
      ensures rows == old(rows)
      ensures columns == MapColumns(old(columns), BlankTokens)
    {
      var i := 0;
      while i < |columns|
        invariant 0 <= i <= |columns| && |columns| == |old(columns)| && rows == old(rows)
        invariant forall k :: 0 <= k < i ==> columns[k] == BlankTokens(old(columns)[k])
        invariant forall k :: i <= k < |columns| ==> columns[k] == old(columns)[k]
      {
        columns := columns[i := BlankTokens(columns[i])];
        i := i + 1;
      }
      assert columns == MapColumns(old(columns), BlankTokens);
    }

    /** `df[name] = rule(df[name])` for one entry of the specification: the
        first column with the label is replaced by its coerced version;
        reports whether the label was found, and changes nothing if not. */
    method CoerceEntry(e: Entry) returns (found: bool)
      modifies this
      ensures rows == old(rows)
      ensures found <==> e.name in Names(old(columns))
      ensures CoerceAll(old(columns), [e]) ==
        if found then Success(columns) else Failure(KeyNotFound([e.name]))
      ensures found ==> (var j := IndexOf(old(columns), e.name);
        columns == old(columns)[j := CoerceColumn(e.rule, old(columns)[j])])
      ensures !found ==> columns == old(columns)
    {
      var j := IndexOf(columns, e.name);
      found := j < |columns|;
      if found {
        columns := columns[j := CoerceColumn(e.rule, columns[j])];
      }
    }

    /** The loop over all columns: a numeric column has its gaps filled with
        its mean, the others are left as they are. */
    method FillMeans()
      modifies this
      ensures rows == old(rows)
      ensures columns == MapColumns(old(columns), ImputeMeans)
    {
      var i := 0;
      while i < |columns|
        invariant 0 <= i <= |columns| && |columns| == |old(columns)| && rows == old(rows)
        invariant forall k :: 0 <= k < i ==> columns[k] == ImputeMeans(old(columns)[k])
        invariant forall k :: i <= k < |columns| ==> columns[k] == old(columns)[k]
      {
        if IsNumeric(columns[i].cells) {
          columns := columns[i := ImputeMeans(columns[i])];
        }
        i := i + 1;
      }
      assert columns == MapColumns(old(columns), ImputeMeans);
    }
  }

  /** `clean_data(df)`: the stages run in place on one frame give exactly
      the result of the pipeline function. */
  method CleanData(raw: Table) returns (r: Result<Table>)
    ensures r == Clean(raw)
  {
    var df := new DataFrame(raw);
    var err := df.DropIdentifying();
    if err.Some? {
      return Failure(err.value);
    }
    df.RenameColumns();
    df.StripTextColumns();
    df.ReplaceTokens();
    ghost var prepared := df.columns;
    assert prepared == MapColumns(MapColumns(MapColumns(Kept(raw), RenameColumn), StripColumn), BlankTokens);
    var i := 0;
    while i < |Schema|
      invariant 0 <= i <= |Schema| && df.rows == raw.rows
      invariant CoerceAll(df.columns, Schema[i..]) == CoerceAll(prepared, Schema)
    {
      ghost var before := df.columns;
      var found := df.CoerceEntry(Schema[i]);
      CoerceAllStep(before, Schema, i);
      if !found {
        return Failure(KeyNotFound([Schema[i].name]));
      }
      i := i + 1;
    }
    df.FillMeans();
    r := Success(Table(df.columns, df.rows));
  }

  // ---------------------------------------------------------------------
  // A column-by-column loop computes the column map

  lemma StripTextColumn(c: Column)
    requires !IsNumeric(c.cells)
    ensures StripColumn(c) == Column(c.name, MapCells(c.cells, StripCell))
  {
  }

  lemma StripNumericColumn(c: Column)
    requires IsNumeric(c.cells)
    ensures StripColumn(c) == c
  {
  }

  lemma MapAppend(done: seq<Column>, cols: seq<Column>, f: Column -> Column, i: nat)
    requires i < |cols| && done == MapColumns(cols[..i], f)
    ensures done + [f(cols[i])] == MapColumns(cols[..i + 1], f)
  {
    assert cols[..i + 1][..i] == cols[..i];
  }

  lemma MapUpdate(cur: seq<Column>, cols: seq<Column>, f: Column -> Column, i: nat)
    requires i < |cols| && cur == MapColumns(cols[..i], f) + cols[i..]
    ensures |cur| == |cols| && cur[i] == cols[i]
    ensures cur[i := f(cols[i])] == MapColumns(cols[..i + 1], f) + cols[i + 1..]
  {
    assert cols[..i + 1][..i] == cols[..i];
  }
}
