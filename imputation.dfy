/** Mean imputation of one column: `col.fillna(col.mean())`, where the mean
    skips missing cells and is NaN (so nothing is filled) when no cell is
    present. */
module Imputation {
  import opened Cells

  /** The number of present (numeric) cells. */
  function Count(cells: seq<Cell>): (n: nat)
    ensures n <= |cells|
  {
    if cells == [] then 0 else (if cells[0].Num? then 1 else 0) + Count(cells[1..])
  }

  /** The sum of the present cells. */
  function Sum(cells: seq<Cell>): real {
    if cells == [] then 0.0 else (if cells[0].Num? then cells[0].value else 0.0) + Sum(cells[1..])
  }

  /** `Series.mean()` with NaN skipped. */
  function Mean(cells: seq<Cell>): real
    requires Count(cells) > 0
  {
    Sum(cells) / Count(cells) as real
  }

  /** `fillna(v)`: every missing cell becomes `v`. */
  function FillMissing(cells: seq<Cell>, v: real): (r: seq<Cell>)
    ensures |r| == |cells|
  {
    seq(|cells|, i requires 0 <= i < |cells| => if cells[i].Missing? then Num(v) else cells[i])
  }

  /** The fill applied to one column: only a numeric column with a mean. */
  function ImputeColumn(cells: seq<Cell>): seq<Cell> {
    if IsNumeric(cells) && Count(cells) > 0 then FillMissing(cells, Mean(cells)) else cells
  }

  lemma FillMissingTail(cells: seq<Cell>, v: real)
    requires cells != []
    ensures FillMissing(cells, v)[1..] == FillMissing(cells[1..], v)
  {
  }

  /** Filling adds `v` once for every missing cell. */
  lemma {:induction false} SumAfterFill(cells: seq<Cell>, v: real)
    requires IsNumeric(cells)
    ensures Count(FillMissing(cells, v)) == |cells|
    ensures Sum(FillMissing(cells, v)) == Sum(cells) + (|cells| - Count(cells)) as real * v
  {
    if cells != [] {
      FillMissingTail(cells, v);
      SumAfterFill(cells[1..], v);
    }
  }

  /** In a numeric column that has a present cell, every gap is filled with
      the mean, the present cells are kept, and the column's mean does not
      change. */
  lemma ImputeFillsAndKeepsMean(cells: seq<Cell>)
    requires IsNumeric(cells) && Count(cells) > 0
    ensures var r := ImputeColumn(cells);
      && |r| == |cells|
      && (forall i :: 0 <= i < |r| ==> r[i].Num?)
      && (forall i :: 0 <= i < |r| ==> cells[i].Num? ==> r[i] == cells[i])
      && (forall i :: 0 <= i < |r| ==> cells[i].Missing? ==> r[i] == Num(Mean(cells)))
      && Count(r) == |cells| && Mean(r) == Mean(cells)
  {
    var m := Mean(cells);
    var r := FillMissing(cells, m);
    SumAfterFill(cells, m);
    MeanArithmetic(Sum(cells), Count(cells) as real, |cells| as real, m, Sum(r));
    assert Mean(r) == Sum(r) / |cells| as real;
  }

  /** Adding the mean `m = s / k` of `k` values once for each of `n - k`
      gaps gives a total `t` of `n` values with the same mean. */
  lemma MeanArithmetic(s: real, k: real, n: real, m: real, t: real)
    requires 0.0 < k <= n && m == s / k && t == s + (n - k) * m
    ensures t / n == m
  {
    assert s == k * m;
    assert t == n * m;
  }

  /** A column with no present cell (mean NaN), or one that holds text, is
      left as it is. */
  lemma ImputeSkips(cells: seq<Cell>)
    requires !IsNumeric(cells) || Count(cells) == 0
    ensures ImputeColumn(cells) == cells
  {
  }

  /** Nothing is ever removed, and no text appears. */
  lemma ImputeKeepsShape(cells: seq<Cell>)
    ensures |ImputeColumn(cells)| == |cells|
    ensures forall i :: 0 <= i < |cells| ==> ImputeColumn(cells)[i].Text? == cells[i].Text?
  {
  }

  /** When every present cell holds `v`, so does every cell the mean fills. */
  lemma {:induction false} MeanOfConstant(cells: seq<Cell>, v: real)
    requires Count(cells) > 0
    requires forall i :: 0 <= i < |cells| ==> cells[i].Num? ==> cells[i].value == v
    ensures Mean(cells) == v
  {
    SumOfConstant(cells, v);
  }

  lemma {:induction false} SumOfConstant(cells: seq<Cell>, v: real)
    requires forall i :: 0 <= i < |cells| ==> cells[i].Num? ==> cells[i].value == v
    ensures Sum(cells) == Count(cells) as real * v
  {
    if cells != [] {
      SumOfConstant(cells[1..], v);
    }
  }
}
