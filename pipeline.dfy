/** What `clean_data` does to a whole table, proved from the stage
    definitions: it fails exactly when a label it needs is absent, and
    otherwise transforms every kept column on its own. */
module Pipeline {
  import opened Cells
  import opened Text
  import opened Imputation
  import opened Cleaning

  /** The rule of the first specification entry for `name`. */
  function Lookup(sch: seq<Entry>, name: string): (r: Option<Rule>)
    ensures r.None? <==> forall p :: 0 <= p < |sch| ==> sch[p].name != name
  {
    if sch == [] then None
    else if sch[0].name == name then Some(sch[0].rule)
    else Lookup(sch[1..], name)
  }

  predicate DistinctNames(sch: seq<Entry>) {
    forall p, q :: 0 <= p < q < |sch| ==> sch[p].name != sch[q].name
  }

  /** No label is declared twice. */
  lemma SchemaNamesDistinct()
    ensures DistinctNames(Schema)
  {
    SchemaFirstHalfDistinct();
    SchemaSecondHalfDistinct();
    SchemaHalvesApart();
  }

  lemma SchemaFirstHalfDistinct()
    ensures forall p, q :: 0 <= p < q < 16 ==> Schema[p].name != Schema[q].name
  {
  }

  lemma SchemaSecondHalfDistinct()
    ensures forall p, q :: 16 <= p < q < 32 ==> Schema[p].name != Schema[q].name
  {
  }

  lemma SchemaHalvesApart()
    ensures forall p, q :: 0 <= p < 16 <= q < 32 ==> Schema[p].name != Schema[q].name
  {
  }

  /** With distinct labels, the entry for a label is the one at its position. */
  lemma {:induction false} LookupAt(sch: seq<Entry>, p: nat)
    requires DistinctNames(sch) && p < |sch|
    ensures Lookup(sch, sch[p].name) == Some(sch[p].rule)
  {
    if p > 0 {
      assert sch[0].name != sch[p].name;
      assert sch[1..][p - 1] == sch[p];
      LookupAt(sch[1..], p - 1);
    }
  }

  /** The entry for a label is the first one that carries it. */
  lemma {:induction false} LookupFirst(sch: seq<Entry>, p: nat)
    requires p < |sch| && forall q :: 0 <= q < p ==> sch[q].name != sch[p].name
    ensures Lookup(sch, sch[p].name) == Some(sch[p].rule)
  {
    if p > 0 {
      assert sch[1..][p - 1] == sch[p];
      forall q | 0 <= q < p - 1 ensures sch[1..][q].name != sch[p].name {
        assert sch[1..][q] == sch[q + 1];
      }
      LookupFirst(sch[1..], p - 1);
    }
  }

  /** The rule that reaches column `j`: the first column with a label is the
      one coerced. With distinct labels this is the column `df[label]`
      reads and writes; for a repeated label, where `clean_data` raises, it
      is a stand-in. */
  function RuleAt(cols: seq<Column>, sch: seq<Entry>, j: nat): Option<Rule>
    requires j < |cols|
  {
    if IndexOf(cols, cols[j].name) == j then Lookup(sch, cols[j].name) else None
  }

  function CoerceWith(rule: Option<Rule>, c: Column): Column {
    match rule
    case None => c
    case Some(r) => CoerceColumn(r, c)
  }

  /** Every column coerced by the rule that reaches it. */
  function Applied(cols: seq<Column>, sch: seq<Entry>): (r: seq<Column>)
    ensures |r| == |cols|
  {
    seq(|cols|, j requires 0 <= j < |cols| => CoerceWith(RuleAt(cols, sch, j), cols[j]))
  }

  /** The coercion stage succeeds exactly when every label of the
      specification is present, and then it coerces each column on its own. */
  lemma {:induction false} CoerceAllIsColumnwise(cols: seq<Column>, sch: seq<Entry>)
    requires DistinctNames(sch)
    ensures CoerceAll(cols, sch).Success? <==> forall p :: 0 <= p < |sch| ==> sch[p].name in Names(cols)
    ensures CoerceAll(cols, sch).Success? ==> CoerceAll(cols, sch).value == Applied(cols, sch)
    decreases |sch|
  {
    if sch == [] {
      assert Applied(cols, sch) == cols;
    } else {
      var e := sch[0];
      var j0 := IndexOf(cols, e.name);
      if j0 < |cols| {
        var next := cols[j0 := CoerceColumn(e.rule, cols[j0])];
        assert Names(next) == Names(cols);
        CoerceAllIsColumnwise(next, sch[1..]);
        PresentTail(cols, sch);
        AppliedStep(cols, sch, e, j0, next);
      }
    }
  }

  /** When the coercion stage fails, it names the first label of the
      specification that is absent. */
  lemma {:induction false} CoerceAllFailsAtFirstAbsent(cols: seq<Column>, sch: seq<Entry>)
    ensures CoerceAll(cols, sch).Failure? ==>
      exists p :: 0 <= p < |sch| && CoerceAll(cols, sch).error == KeyNotFound([sch[p].name])
        && sch[p].name !in Names(cols)
        && forall q :: 0 <= q < p ==> sch[q].name in Names(cols)
    decreases |sch|
  {
    if sch != [] {
      var e := sch[0];
      var j0 := IndexOf(cols, e.name);
      if j0 < |cols| {
        var next := cols[j0 := CoerceColumn(e.rule, cols[j0])];
        assert Names(next) == Names(cols);
        CoerceAllFailsAtFirstAbsent(next, sch[1..]);
        if CoerceAll(cols, sch).Failure? {
          var p :| 0 <= p < |sch[1..]| && CoerceAll(next, sch[1..]).error == KeyNotFound([sch[1..][p].name])
            && sch[1..][p].name !in Names(next)
            && forall q :: 0 <= q < p ==> sch[1..][q].name in Names(next);
          assert sch[1..][p] == sch[p + 1];
          forall q | 0 <= q < p + 1 ensures sch[q].name in Names(cols) {
            if q > 0 {
              assert sch[1..][q - 1] == sch[q];
            }
          }
        }
      }
    }
  }

  /** Coercing by the entries from `i` on is coercing by entry `i`, then by
      the rest. */
  lemma CoerceAllStep(cols: seq<Column>, sch: seq<Entry>, i: nat)
    requires i < |sch|
    ensures CoerceAll(cols, [sch[i]]).Failure? ==>
      CoerceAll(cols, sch[i..]) == CoerceAll(cols, [sch[i]])
    ensures CoerceAll(cols, [sch[i]]).Success? ==>
      CoerceAll(cols, sch[i..]) == CoerceAll(CoerceAll(cols, [sch[i]]).value, sch[i + 1..])
  {
    assert sch[i..][0] == sch[i] && sch[i..][1..] == sch[i + 1..];
    assert [sch[i]][1..] == [];
  }

  lemma PresentTail(cols: seq<Column>, sch: seq<Entry>)
    requires sch != [] && sch[0].name in Names(cols)
    ensures (forall p :: 0 <= p < |sch| ==> sch[p].name in Names(cols))
      <==> (forall p :: 0 <= p < |sch[1..]| ==> sch[1..][p].name in Names(cols))
  {
    forall p | 0 <= p < |sch[1..]| ensures sch[1..][p] == sch[p + 1] { }
  }

  /** One coercion step moves the first entry of the specification into
      the columns. */
  lemma AppliedStep(cols: seq<Column>, sch: seq<Entry>, e: Entry, j0: nat, next: seq<Column>)
    requires sch != [] && e == sch[0] && DistinctNames(sch)
    requires j0 == IndexOf(cols, e.name) && j0 < |cols|
    requires next == cols[j0 := CoerceColumn(e.rule, cols[j0])]
    ensures Applied(next, sch[1..]) == Applied(cols, sch)
  {
    forall j | 0 <= j < |cols|
      ensures Applied(next, sch[1..])[j] == Applied(cols, sch)[j]
    {
      AppliedStepAt(cols, sch, e, j0, next, j);
    }
  }

  lemma AppliedStepAt(cols: seq<Column>, sch: seq<Entry>, e: Entry, j0: nat, next: seq<Column>, j: nat)
    requires sch != [] && e == sch[0] && DistinctNames(sch)
    requires j0 == IndexOf(cols, e.name) && j0 < |cols| && j < |cols|
    requires next == cols[j0 := CoerceColumn(e.rule, cols[j0])]
    ensures CoerceWith(RuleAt(next, sch[1..], j), next[j]) == CoerceWith(RuleAt(cols, sch, j), cols[j])
  {
    assert Names(next) == Names(cols);
    assert next[j].name == cols[j].name;
    if j == j0 {
      assert Lookup(sch[1..], e.name).None? by {
        forall p | 0 <= p < |sch[1..]| ensures sch[1..][p].name != e.name {
          assert sch[1..][p] == sch[p + 1];
        }
      }
    }
  }

  /** The columns after stage 1. */
  function Kept(t: Table): seq<Column> {
    Without(t.columns, Identifying)
  }

  /** The columns after stages 1 to 3. */
  function Prepared(t: Table): (r: seq<Column>)
    ensures |r| == |Kept(t)|
  {
    MapColumns(Kept(t), Prepare)
  }

  /** The column `clean_data` returns at position `j`. */
  function CleanColumn(t: Table, j: nat): Column
    requires j < |Kept(t)|
  {
    ImputeMeans(CoerceWith(RuleAt(Prepared(t), Schema, j), Prepared(t)[j]))
  }

  /** The pipeline fails exactly when one of the two dropped labels or one
      label of the specification (after renaming) is absent; otherwise its
      result keeps the row count and holds, in order, one column for each
      kept input column, transformed on its own. */
  lemma CleanIsColumnwise(t: Table)
    ensures Clean(t).Success? <==>
      && "Timestamp" in Names(t.columns) && "Username" in Names(t.columns)
      && forall p :: 0 <= p < |Schema| ==> Schema[p].name in Names(Prepared(t))
    ensures Clean(t).Success? ==>
      && Clean(t).value.rows == t.rows
      && |Clean(t).value.columns| == |Kept(t)|
      && forall j :: 0 <= j < |Kept(t)| ==> Clean(t).value.columns[j] == CleanColumn(t, j)
  {
    var absent := Absent(Names(t.columns), Identifying);
    assert absent == [] <==> "Timestamp" in Names(t.columns) && "Username" in Names(t.columns) by {
      assert "Timestamp" in Identifying && "Username" in Identifying;
      if absent != [] {
        assert absent[0] in Identifying;
      }
    }
    if absent == [] {
      var kept := Kept(t);
      var cleaned := MapColumns(MapColumns(MapColumns(kept, RenameColumn), StripColumn), BlankTokens);
      assert cleaned == Prepared(t);
      SchemaNamesDistinct();
      CoerceAllIsColumnwise(cleaned, Schema);
    }
  }
}
