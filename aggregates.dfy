/**
 * The aggregate branch of the active SELECT: COUNT, SUM and AVG over a group
 * of records, and the output row built for each group.
 */
module Aggregates {
  import opened Wrappers
  import opened Strings
  import opened Ast
  import opened Values
  import opened Seqs
  import opened Unique
  import opened Grouping
  import Assoc

  /** `f"{func}({col})"`: the name of an aggregate's output column. */
  function AggName(func: string, column: string): string
  {
    func + "(" + column + ")"
  }

  /** `r.get(col)` is truthy: the record has the column and its cell is not empty. */
  predicate Filled(r: Record, column: string)
  {
    Assoc.Lookup(r, column).Some? && Assoc.Lookup(r, column).value != ""
  }

  function FilledIn(column: string): Record -> bool
  {
    r => Filled(r, column)
  }

  /** `r.get(col) and r[col].replace('.', '', 1).isdigit()`: a cell SUM and AVG take. */
  predicate Summable(r: Record, column: string)
  {
    Filled(r, column) && IsPlainDecimal(Assoc.Lookup(r, column).value)
  }

  function SummableIn(column: string): Record -> bool
  {
    r => Summable(r, column)
  }

  /** `float(r[col])` of a cell SUM and AVG take. */
  function CellNumber(r: Record, column: string): (x: real)
    requires Summable(r, column)
    ensures x >= 0.0
  {
    var cell := Assoc.Lookup(r, column).value;
    PlainDecimalParses(cell);
    ParseNumber(cell).value
  }

  /** `[float(r[col]) for r in rows if ...]`. */
  function Summands(rows: seq<Record>, column: string): seq<real>
    decreases |rows|
  {
    if rows == [] then []
    else
      var r := rows[|rows| - 1];
      Summands(rows[..|rows| - 1], column) + (if Summable(r, column) then [CellNumber(r, column)] else [])
  }

  /** `sum(xs)`, as an exact sum. */
  function Sum(xs: seq<real>): real
    decreases |xs|
  {
    if xs == [] then 0.0 else Sum(xs[..|xs| - 1]) + xs[|xs| - 1]
  }

  /**
   * What an aggregate item stores in the row: `len(rows)` or the number of
   * filled cells for COUNT, `sum(vals)` for SUM, `sum(vals) / len(vals)` or
   * 0 for AVG. A function other than these three stores nothing.
   */
  function AggValue(func: string, column: string, rows: seq<Record>): (v: Option<Value>)
    // only the three aggregate functions store a value
    ensures v.Some? <==> func == "COUNT" || func == "SUM" || func == "AVG"
    // COUNT stores an int between 0 and the group's size
    ensures func == "COUNT" ==> v.Some? && v.value.IntVal? && 0 <= v.value.i <= |rows|
    // SUM and AVG store the int 0 or a non-negative float
    ensures func == "SUM" || func == "AVG" ==>
      v.Some? && (v.value == IntVal(0) || (v.value.FloatVal? && v.value.r >= 0.0))
  {
    if func == "COUNT" then
      Some(IntVal(if column == "*" then |rows| else |Filter(rows, FilledIn(column))|))
    else if func == "SUM" || func == "AVG" then
      var vals := Summands(rows, column);
      SummandsAreSummable(rows, column);
      SumNonNegative(vals);
      if vals == [] then Some(IntVal(0))
      else if func == "SUM" then Some(FloatVal(Sum(vals)))
      else Some(FloatVal(Sum(vals) / |vals| as real))
    else None
  }

  // ---------------------------------------------------------------------
  // Properties of the aggregates.

  lemma {:induction false} SummandsAreSummable(rows: seq<Record>, column: string)
    ensures |Summands(rows, column)| == |Filter(rows, SummableIn(column))|
    ensures forall i :: 0 <= i < |Summands(rows, column)| ==> Summands(rows, column)[i] >= 0.0
    decreases |rows|
  {
    if rows != [] {
      SummandsAreSummable(rows[..|rows| - 1], column);
    }
  }

  lemma {:induction false} SumNonNegative(xs: seq<real>)
    requires forall i :: 0 <= i < |xs| ==> xs[i] >= 0.0
    ensures Sum(xs) >= 0.0
    decreases |xs|
  {
    if xs != [] {
      var xs' := xs[..|xs| - 1];
      assert forall i :: 0 <= i < |xs'| ==> xs'[i] == xs[i];
      SumNonNegative(xs');
    }
  }

  /**
   * COUNT(col) is the number of filled cells: at most the group's size, all
   * of it exactly when every cell is filled, none exactly when none is;
   * COUNT(*) is the group's size.
   */
  lemma CountCounts(rows: seq<Record>, column: string)
    ensures AggValue("COUNT", "*", rows) == Some(IntVal(|rows|))
    ensures column != "*" ==> AggValue("COUNT", column, rows).Some? && AggValue("COUNT", column, rows).value.IntVal?
    ensures column != "*" ==> 0 <= AggValue("COUNT", column, rows).value.i <= |rows|
    ensures column != "*" ==>
      (AggValue("COUNT", column, rows).value.i == |rows| <==> forall i :: 0 <= i < |rows| ==> Filled(rows[i], column))
    ensures column != "*" ==>
      (AggValue("COUNT", column, rows).value.i == 0 <==> forall i :: 0 <= i < |rows| ==> !Filled(rows[i], column))
  {
    FilterFull(rows, FilledIn(column));
    FilterEmpty(rows, FilledIn(column));
  }

  /** Unfolds `AggValue` for SUM (a helper for the lemmas below). */
  lemma SumValue(rows: seq<Record>, column: string)
    ensures AggValue("SUM", column, rows) ==
      if Summands(rows, column) == [] then Some(IntVal(0)) else Some(FloatVal(Sum(Summands(rows, column))))
  {
    assert "SUM" != "COUNT";
  }

  /** Unfolds `AggValue` for AVG (a helper for the lemmas below). */
  lemma AverageValue(rows: seq<Record>, column: string)
    ensures AggValue("AVG", column, rows) ==
      if Summands(rows, column) == [] then Some(IntVal(0))
      else Some(FloatVal(Sum(Summands(rows, column)) / |Summands(rows, column)| as real))
  {
    assert "AVG" != "COUNT" && "AVG" != "SUM";
  }

  /** Summands exist exactly when some cell qualifies. */
  lemma SummandsEmpty(rows: seq<Record>, column: string)
    ensures Summands(rows, column) == [] <==> forall i :: 0 <= i < |rows| ==> !Summable(rows[i], column)
  {
    SummandsAreSummable(rows, column);
    FilterEmpty(rows, SummableIn(column));
  }

  /** SUM and AVG are 0 exactly when no cell qualifies. */
  lemma SumAndAverageZero(rows: seq<Record>, column: string)
    ensures AggValue("SUM", column, rows) == Some(IntVal(0)) <==> forall i :: 0 <= i < |rows| ==> !Summable(rows[i], column)
    ensures AggValue("AVG", column, rows) == Some(IntVal(0)) <==> forall i :: 0 <= i < |rows| ==> !Summable(rows[i], column)
  {
    SumValue(rows, column);
    AverageValue(rows, column);
    SummandsEmpty(rows, column);
  }

  /** With a qualifying cell, AVG and SUM are floats and AVG is SUM over the number of qualifying cells. */
  lemma AverageIsSumOverCount(rows: seq<Record>, column: string)
    ensures Summands(rows, column) != [] ==>
      AggValue("AVG", column, rows).Some? && AggValue("AVG", column, rows).value.FloatVal?
      && AggValue("SUM", column, rows).Some? && AggValue("SUM", column, rows).value.FloatVal?
      && AggValue("AVG", column, rows).value.r == AggValue("SUM", column, rows).value.r / (|Summands(rows, column)| as real)
  {
    SumValue(rows, column);
    AverageValue(rows, column);
  }

  // ---------------------------------------------------------------------
  // The output row of one group.

  /** `for i, col_name in enumerate(group_by_cols): linha_agregada[col_name] = key[i]`, as assignments. */
  function GroupPairs(columns: seq<string>, key: seq<string>): seq<(string, Value)>
    decreases |columns|
  {
    if columns == [] || key == [] then []
    else [(columns[0], Str(key[0]))] + GroupPairs(columns[1..], key[1..])
  }

  /** The assignments of the aggregate items, in select-list order. */
  function AggregatePairs(items: seq<SelectItem>, rows: seq<Record>): seq<(string, Value)>
    decreases |items|
  {
    if items == [] then []
    else AggregatePairs(items[..|items| - 1], rows) + ItemPairs(items[|items| - 1], rows)
  }

  /** The assignment one select item makes, if any. */
  function ItemPairs(item: SelectItem, rows: seq<Record>): seq<(string, Value)>
  {
    match item
    case Aggregate(f, c) => (match AggValue(f, c, rows) case Some(v) => [(AggName(f, c), v)] case None => [])
    case _ => []
  }

  /** `linha_agregada` once both loops have run. */
  function AggregateRowOf(key: seq<string>, rows: seq<Record>, columns: seq<string>, items: seq<SelectItem>): Row
  {
    Assoc.PutAll(Assoc.PutAll([], GroupPairs(columns, key)), AggregatePairs(items, rows))
  }

  /** executor.py:374-394 for one group. */
  method AggregateRow(key: seq<string>, rows: seq<Record>, columns: seq<string>, items: seq<SelectItem>)
    returns (row: Row)
    ensures row == AggregateRowOf(key, rows, columns, items)
  {
    row := [];
    var groupPairs := GroupPairs(columns, key);
    for i := 0 to |groupPairs|
      invariant row == Assoc.PutAll([], groupPairs[..i])
    {
      row := Assoc.Put(row, groupPairs[i].0, groupPairs[i].1);
      assert groupPairs[..i + 1][..i] == groupPairs[..i];
    }
    assert groupPairs[..|groupPairs|] == groupPairs;
    for i := 0 to |items|
      invariant row == Assoc.PutAll(Assoc.PutAll([], groupPairs), AggregatePairs(items[..i], rows))
    {
      assert items[..i + 1][..i] == items[..i];
      Assoc.PutAllAppend(Assoc.PutAll([], groupPairs), AggregatePairs(items[..i], rows), ItemPairs(items[i], rows));
      if items[i].Aggregate? {
        var v := AggValue(items[i].func, items[i].column, rows);
        if v.Some? {
          row := Assoc.Put(row, AggName(items[i].func, items[i].column), v.value);
        }
      }
    }
    assert items[..|items|] == items;
  }

  /** The GROUP BY columns come first, then the aggregates in select order, each column once. */
  lemma AggregateRowKeys(key: seq<string>, rows: seq<Record>, columns: seq<string>, items: seq<SelectItem>)
    ensures Assoc.Keys(AggregateRowOf(key, rows, columns, items)) ==
      Image(UniqBy(GroupPairs(columns, key) + AggregatePairs(items, rows), Assoc.PairKey), Assoc.PairKey)
    ensures Assoc.DistinctKeys(AggregateRowOf(key, rows, columns, items))
  {
    var gp, ap := GroupPairs(columns, key), AggregatePairs(items, rows);
    Assoc.PutAllAppend([], gp, ap);
    Assoc.PutAllKeys([], gp + ap);
    assert [] + (gp + ap) == gp + ap;
  }

  /** A GROUP BY column holds the group's common cell, as a string. */
  lemma {:induction false} GroupColumnValue(r: Record, columns: seq<string>, c: string)
    requires c in columns
    ensures Assoc.LastLookup(GroupPairs(columns, GroupKey(r, columns)), c) == Some(Str(CellOrEmpty(r, c)))
    decreases |columns|
  {
    var key := GroupKey(r, columns);
    var rest := GroupPairs(columns[1..], key[1..]);
    assert key[1..] == GroupKey(r, columns[1..]);
    Assoc.LastLookupAppend([(columns[0], Str(key[0]))], rest, c);
    assert [(columns[0], Str(key[0]))] + rest == GroupPairs(columns, key);
    if c in columns[1..] {
      GroupColumnValue(r, columns[1..], c);
    } else {
      NoLastLookup(columns[1..], key[1..], c);
    }
  }

  lemma {:induction false} NoLastLookup(columns: seq<string>, key: seq<string>, c: string)
    requires c !in columns
    ensures Assoc.LastLookup(GroupPairs(columns, key), c) == None
    decreases |columns|
  {
    if columns != [] && key != [] {
      NoLastLookup(columns[1..], key[1..], c);
      Assoc.LastLookupAppend([(columns[0], Str(key[0]))], GroupPairs(columns[1..], key[1..]), c);
    }
  }

  /** No aggregate item stores under the name `c`. */
  predicate StoresNothingUnder(items: seq<SelectItem>, c: string)
  {
    forall it :: it in items && it.Aggregate? ==> AggName(it.func, it.column) != c
  }

  lemma {:induction false} AggregatePairsMiss(items: seq<SelectItem>, rows: seq<Record>, c: string)
    requires StoresNothingUnder(items, c)
    ensures Assoc.LastLookup(AggregatePairs(items, rows), c) == None
    decreases |items|
  {
    if items != [] {
      var items', last := items[..|items| - 1], items[|items| - 1];
      assert forall it :: it in items' ==> it in items;
      AggregatePairsMiss(items', rows, c);
      assert last in items;
      assert Assoc.LastLookup(ItemPairs(last, rows), c) == None;
      Assoc.LastLookupAppend(AggregatePairs(items', rows), ItemPairs(last, rows), c);
    }
  }

  /** In the row of a group, a GROUP BY column holds the cell its members share. */
  lemma GroupColumnInRow(r: Record, rows: seq<Record>, columns: seq<string>, items: seq<SelectItem>, c: string)
    requires c in columns && StoresNothingUnder(items, c)
    ensures Assoc.Lookup(AggregateRowOf(GroupKey(r, columns), rows, columns, items), c) == Some(Str(CellOrEmpty(r, c)))
  {
    var gp := GroupPairs(columns, GroupKey(r, columns));
    GroupColumnValue(r, columns, c);
    AggregatePairsMiss(items, rows, c);
    Assoc.PutAllLookup(Assoc.PutAll([], gp), AggregatePairs(items, rows), c);
    Assoc.PutAllLookup([], gp, c);
  }

  /**
   * In the row of a group, an aggregate holds its value over the group's
   * records, unless a later item stores a different value under the same name.
   */
  lemma {:induction false} AggregateInRow(key: seq<string>, rows: seq<Record>, columns: seq<string>,
                                          items: seq<SelectItem>, i: nat)
    requires i < |items| && items[i].Aggregate? && AggValue(items[i].func, items[i].column, rows).Some?
    requires StoresNothingUnder(items[i + 1..], AggName(items[i].func, items[i].column))
    ensures Assoc.Lookup(AggregateRowOf(key, rows, columns, items), AggName(items[i].func, items[i].column)) ==
      AggValue(items[i].func, items[i].column, rows)
  {
    var name := AggName(items[i].func, items[i].column);
    var gp := GroupPairs(columns, key);
    AggregatePairsFind(items, rows, i);
    Assoc.PutAllLookup(Assoc.PutAll([], gp), AggregatePairs(items, rows), name);
  }

  lemma {:induction false} AggregatePairsFind(items: seq<SelectItem>, rows: seq<Record>, i: nat)
    requires i < |items| && items[i].Aggregate? && AggValue(items[i].func, items[i].column, rows).Some?
    requires StoresNothingUnder(items[i + 1..], AggName(items[i].func, items[i].column))
    ensures Assoc.LastLookup(AggregatePairs(items, rows), AggName(items[i].func, items[i].column)) ==
      AggValue(items[i].func, items[i].column, rows)
    decreases |items|
  {
    var items', last := items[..|items| - 1], items[|items| - 1];
    var name := AggName(items[i].func, items[i].column);
    Assoc.LastLookupAppend(AggregatePairs(items', rows), ItemPairs(last, rows), name);
    ItemPairsLookup(last, rows, name);
    if i < |items| - 1 {
      var later', later := items'[i + 1..], items[i + 1..];
      assert later == later' + [last];
      assert forall it :: it in later' ==> it in later;
      AggregatePairsFind(items', rows, i);
    }
  }

  /** The assignment of one select item holds its aggregate under its name and nothing else. */
  lemma ItemPairsLookup(item: SelectItem, rows: seq<Record>, c: string)
    ensures Assoc.LastLookup(ItemPairs(item, rows), c) ==
      if item.Aggregate? && AggName(item.func, item.column) == c then AggValue(item.func, item.column, rows) else None
  {
  }
}
