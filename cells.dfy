/** The values the cleaning pipeline works on: cells, named columns, tables,
    and the lookup failure pandas raises when a column label is absent. */
module Cells {

  /** One cell of a survey table: absent (NaN), a number, or raw text. */
  datatype Cell = Missing | Num(value: real) | Text(text: string)

  /** A labelled column of cells. */
  datatype Column = Column(name: string, cells: seq<Cell>)

  /** A table: its columns in order, and the number of rows of its index. */
  datatype Table = Table(columns: seq<Column>, rows: nat)

  /** The error pandas raises when a label is not among the columns. */
  datatype KeyError = KeyNotFound(keys: seq<string>)

  datatype Result<T> = Success(value: T) | Failure(error: KeyError)

  datatype Option<T> = None | Some(value: T)

  /** Every column has one cell per row. */
  predicate WellFormed(t: Table) {
    forall j :: 0 <= j < |t.columns| ==> |t.columns[j].cells| == t.rows
  }

  /** A column that holds no text: pandas types it numerically (float64),
      and a column that holds some text is of the `object` dtype. */
  predicate IsNumeric(cells: seq<Cell>) {
    forall i :: 0 <= i < |cells| ==> !cells[i].Text?
  }

  function Names(cols: seq<Column>): (r: seq<string>)
    ensures |r| == |cols|
    ensures forall j :: 0 <= j < |cols| ==> r[j] == cols[j].name
  {
    seq(|cols|, j requires 0 <= j < |cols| => cols[j].name)
  }

  /** The position of the first occurrence of `name`, or |names| when there
      is none. */
  function Find(names: seq<string>, name: string): (j: nat)
    ensures j <= |names|
    ensures j < |names| ==> names[j] == name
    ensures forall k :: 0 <= k < j ==> names[k] != name
    ensures j == |names| <==> name !in names
  {
    if names == [] then 0
    else if names[0] == name then 0
    else 1 + Find(names[1..], name)
  }

  /** The position of the first column labelled `name`, or |cols| when there
      is none. For a label held by one column this is the column `df[name]`
      reads and writes. When two columns share a label, `df[name]` returns
      both as a frame and `clean_data` raises; reaching the first of them
      stands in for that case. */
  function IndexOf(cols: seq<Column>, name: string): nat {
    Find(Names(cols), name)
  }
}
