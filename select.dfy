/**
 * The active `executar_select` (executor.py:333-431): filter, then group and
 * aggregate or project, then DISTINCT, ORDER BY and LIMIT.
 */
module Select {
  import opened Wrappers
  import opened Ast
  import opened Values
  import opened Seqs
  import opened Unique
  import opened Conditions
  import opened Ordering
  import opened Grouping
  import opened Aggregates
  import Assoc

  /** What the statement shows: "no results", or a table headed by the first row's columns. */
  datatype Outcome = NoResults | Shown(columns: seq<string>, rows: seq<Row>)

  // ---------------------------------------------------------------------
  // WHERE.

  /** The list comprehension at executor.py:348: records tested in order, the first raise ends it. */
  function Where(records: seq<Record>, cond: Option<Condition>): Result<seq<Record>, ExecError>
    requires PlainWhere(cond)
    decreases |records|
  {
    if records == [] then Ok([])
    else
      var r := records[|records| - 1];
      var kept :- Where(records[..|records| - 1], cond);
      var keep :- Test(cond, r);
      Ok(kept + (if keep then [r] else []))
  }

  /** The filter keeps exactly the records that satisfy the condition, in order. */
  lemma {:induction false} WhereKeeps(records: seq<Record>, cond: Option<Condition>)
    requires PlainWhere(cond)
    ensures Where(records, cond).Ok? <==> forall i :: 0 <= i < |records| ==> Test(cond, records[i]).Ok?
    ensures Where(records, cond).Ok? ==> Where(records, cond).value == Filter(records, Satisfies(cond))
    decreases |records|
  {
    if records != [] {
      var s' := records[..|records| - 1];
      WhereKeeps(s', cond);
      assert forall i :: 0 <= i < |s'| ==> s'[i] == records[i];
    }
  }

  /** A filter that raises does so with the error of the first record whose test raises. */
  lemma {:induction false} WhereRaises(records: seq<Record>, cond: Option<Condition>)
    requires PlainWhere(cond) && Where(records, cond).Err?
    ensures exists i :: (0 <= i < |records| && Test(cond, records[i]) == Err(Where(records, cond).error)
      && forall j :: 0 <= j < i ==> Test(cond, records[j]).Ok?)
    decreases |records|
  {
    var s' := records[..|records| - 1];
    assert forall i :: 0 <= i < |s'| ==> s'[i] == records[i];
    if Where(s', cond).Err? {
      WhereRaises(s', cond);
    } else {
      WhereKeeps(s', cond);
    }
  }

  // ---------------------------------------------------------------------
  // Projection.

  /** The name under which a select item is looked up when the query does not aggregate. */
  function ItemName(item: SelectItem): string
  {
    match item
    case Star => "*"
    case Column(n) => n
    case Aggregate(f, c) => AggName(f, c)
  }

  /** `linha.get(col)`: the cell as a string, or None. */
  function CellValue(r: Record, column: string): Value
  {
    match Assoc.Lookup(r, column)
    case Some(v) => Str(v)
    case None => Null
  }

  /** The assignments of `{col: linha.get(col) for col in colunas_finais_nomes}`, in order. */
  function Cells(r: Record, names: seq<string>): seq<(string, Value)>
  {
    seq(|names|, i requires 0 <= i < |names| => (names[i], CellValue(r, names[i])))
  }

  /** The projected row. */
  function ProjectRow(r: Record, names: seq<string>): Row
  {
    Assoc.PutAll([], Cells(r, names))
  }

  /** A projected column holds the record's cell, or None when the record lacks it; no other column is present. */
  lemma {:induction false} ProjectRowLookup(r: Record, names: seq<string>, c: string)
    ensures Assoc.Lookup(ProjectRow(r, names), c) == if c in names then Some(CellValue(r, c)) else None
  {
    CellsLastLookup(r, names, c);
    Assoc.PutAllLookup([], Cells(r, names), c);
  }

  lemma {:induction false} CellsLastLookup(r: Record, names: seq<string>, c: string)
    ensures Assoc.LastLookup(Cells(r, names), c) == if c in names then Some(CellValue(r, c)) else None
    decreases |names|
  {
    if names != [] {
      var names' := names[..|names| - 1];
      assert Cells(r, names)[..|names| - 1] == Cells(r, names');
      assert names == names' + [names[|names| - 1]];
      CellsLastLookup(r, names', c);
    }
  }

  /** A projected row has each column once, and exactly the requested ones in order when they are distinct. */
  lemma ProjectRowKeys(r: Record, names: seq<string>)
    ensures Assoc.DistinctKeys(ProjectRow(r, names))
    ensures DistinctBy(names, n => n) ==> Assoc.Keys(ProjectRow(r, names)) == names
  {
    var cells := Cells(r, names);
    Assoc.PutAllKeys([], cells);
    assert [] + cells == cells;
    if DistinctBy(names, n => n) {
      assert DistinctBy(cells, Assoc.PairKey) by {
        forall i, j | 0 <= i < j < |cells| ensures Assoc.PairKey(cells[i]) != Assoc.PairKey(cells[j]) {
          assert cells[i].0 == names[i] && cells[j].0 == names[j];
        }
      }
      UniqByOfDistinct(cells, Assoc.PairKey);
    }
  }

  /** `colunas_finais_nomes`: the first row's columns for a leading `*`, else the items' names. */
  function ProjectionNames(items: seq<SelectItem>, first: Record): Result<seq<string>, ExecError>
  {
    if items == [] then Err(IndexError)
    else if items[0] == Star then Ok(Assoc.Keys(first))
    else Ok(seq(|items|, i requires 0 <= i < |items| => ItemName(items[i])))
  }

  /** The loop at executor.py:399-400. */
  method Project(records: seq<Record>, names: seq<string>) returns (rows: seq<Row>)
    ensures |rows| == |records|
    ensures forall i :: 0 <= i < |records| ==> rows[i] == ProjectRow(records[i], names)
  {
    rows := [];
    for i := 0 to |records|
      invariant |rows| == i
      invariant forall k :: 0 <= k < i ==> rows[k] == ProjectRow(records[k], names)
    {
      rows := rows + [ProjectRow(records[i], names)];
    }
  }

  // ---------------------------------------------------------------------
  // Aggregation.

  /** Some select item is an aggregate. */
  predicate IsAggregateQuery(items: seq<SelectItem>)
  {
    exists i :: 0 <= i < |items| && items[i].Aggregate?
  }

  /** `group_by_cols` is present and not empty. */
  predicate Grouped(groupBy: Option<seq<string>>)
  {
    groupBy.Some? && groupBy.value != []
  }

  /** One aggregate row per group, in group order; a single group of every record without GROUP BY. */
  function AggregatedOf(records: seq<Record>, groupBy: Option<seq<string>>, items: seq<SelectItem>): seq<Row>
  {
    if Grouped(groupBy) then
      var groups := GroupsOf(records, groupBy.value);
      seq(|groups|, i requires 0 <= i < |groups| => AggregateRowOf(groups[i].0, groups[i].1, groupBy.value, items))
    else [AggregateRowOf([], records, [], items)]
  }

  /** The loop at executor.py:373-396. */
  method AggregateAll(records: seq<Record>, groupBy: Option<seq<string>>, items: seq<SelectItem>) returns (rows: seq<Row>)
    ensures rows == AggregatedOf(records, groupBy, items)
  {
    if Grouped(groupBy) {
      var groups := GroupRows(records, groupBy.value);
      rows := [];
      for i := 0 to |groups|
        invariant |rows| == i
        invariant forall k :: 0 <= k < i ==> rows[k] == AggregateRowOf(groups[k].0, groups[k].1, groupBy.value, items)
      {
        var row := AggregateRow(groups[i].0, groups[i].1, groupBy.value, items);
        rows := rows + [row];
      }
    } else {
      var row := AggregateRow([], records, [], items);
      rows := [row];
    }
  }

  /**
   * A grouped query yields one row per distinct key tuple, in order of first
   * appearance, each computed over exactly the records with that key.
   */
  lemma GroupedRows(records: seq<Record>, columns: seq<string>, items: seq<SelectItem>)
    requires columns != []
    ensures |AggregatedOf(records, Some(columns), items)| == |UniqBy(records, KeyOf(columns))|
    ensures forall i :: 0 <= i < |UniqBy(records, KeyOf(columns))| ==>
      var k := GroupKey(UniqBy(records, KeyOf(columns))[i], columns);
      AggregatedOf(records, Some(columns), items)[i] == AggregateRowOf(k, Filter(records, InGroup(columns, k)), columns, items)
  {
    var groups := GroupsOf(records, columns);
    var firsts := UniqBy(records, KeyOf(columns));
    GroupKeys(records, columns);
    assert |groups| == |Assoc.Keys(groups)| == |firsts|;
    forall i | 0 <= i < |firsts|
      ensures AggregatedOf(records, Some(columns), items)[i] ==
        AggregateRowOf(GroupKey(firsts[i], columns), Filter(records, InGroup(columns, GroupKey(firsts[i], columns))), columns, items)
    {
      var k := GroupKey(firsts[i], columns);
      assert groups[i].0 == Assoc.Keys(groups)[i] == k;
      GroupMembers(records, columns, k);
      LookupDistinct(groups, i);
      UniqByImage(records, KeyOf(columns), k);
      assert Image(firsts, KeyOf(columns))[i] == k;
    }
  }

  /** In a dictionary with distinct keys, looking up an entry's key finds that entry. */
  lemma {:induction false} LookupDistinct<K, V>(s: seq<(K, V)>, i: nat)
    requires i < |s| && Assoc.DistinctKeys(s)
    ensures Assoc.Lookup(s, s[i].0) == Some(s[i].1)
    decreases i
  {
    if i > 0 {
      assert Assoc.DistinctKeys(s[1..]) by {
        forall a, b | 0 <= a < b < |s[1..]| ensures s[1..][a].0 != s[1..][b].0 {
          assert s[1..][a] == s[a + 1] && s[1..][b] == s[b + 1];
        }
      }
      assert s[0].0 != s[i].0;
      LookupDistinct(s[1..], i - 1);
    }
  }

  /**
   * Without GROUP BY an aggregate query yields exactly one row, in which each
   * aggregate holds its value over every filtered record, unless a later
   * item stores under the same name.
   */
  lemma SingleGroup(records: seq<Record>, items: seq<SelectItem>, i: nat)
    requires i < |items| && items[i].Aggregate? && AggValue(items[i].func, items[i].column, records).Some?
    requires StoresNothingUnder(items[i + 1..], AggName(items[i].func, items[i].column))
    ensures |AggregatedOf(records, None, items)| == 1
    ensures Assoc.Lookup(AggregatedOf(records, None, items)[0], AggName(items[i].func, items[i].column)) ==
      AggValue(items[i].func, items[i].column, records)
  {
    AggregateInRow([], records, [], items, i);
  }

  /** Stage 3 of the pipeline. */
  function ProcessedOf(filtered: seq<Record>, groupBy: Option<seq<string>>, items: seq<SelectItem>): Result<seq<Row>, ExecError>
    requires filtered != []
  {
    if Grouped(groupBy) || IsAggregateQuery(items) then Ok(AggregatedOf(filtered, groupBy, items))
    else
      var names :- ProjectionNames(items, filtered[0]);
      Ok(seq(|filtered|, i requires 0 <= i < |filtered| => ProjectRow(filtered[i], names)))
  }

  // ---------------------------------------------------------------------
  // DISTINCT.

  /**
   * `tuple(sorted(d.items()))` as a value: with distinct column names the
   * sorted tuple is determined by the set of (column, value) pairs, and an
   * int and a float are equal when their numbers are.
   */
  function RowKey(row: Row): set<(string, Canon)>
  {
    set i | 0 <= i < |row| :: (row[i].0, CanonOf(row[i].1))
  }

  /** The `vistos` loop at executor.py:405-412: the first row of each key, in order. */
  method Distinct(rows: seq<Row>) returns (result: seq<Row>)
    ensures result == UniqBy(rows, RowKey)
  {
    var seen: set<set<(string, Canon)>> := {};
    result := [];
    for i := 0 to |rows|
      invariant result == UniqBy(rows[..i], RowKey)
      invariant forall t :: t in seen <==> t in Image(rows[..i], RowKey)
    {
      var t := RowKey(rows[i]);
      assert rows[..i + 1][..i] == rows[..i];
      assert Image(rows[..i + 1], RowKey) == Image(rows[..i], RowKey) + [t];
      if t !in seen {
        seen := seen + {t};
        result := result + [rows[i]];
      }
    }
    assert rows[..|rows|] == rows;
  }

  /** Two rows hold the same columns, and Canon-equal values under each column they share. */
  ghost predicate SameCells(a: Row, b: Row)
  {
    (forall c :: c in Assoc.Keys(a) <==> c in Assoc.Keys(b))
    && forall i, j :: 0 <= i < |a| && 0 <= j < |b| && a[i].0 == b[j].0 ==> CanonOf(a[i].1) == CanonOf(b[j].1)
  }

  /** Rows that DISTINCT treats as duplicates hold the same cells. */
  lemma DuplicatesSameCells(a: Row, b: Row)
    requires Assoc.DistinctKeys(b) && RowKey(a) == RowKey(b)
    ensures SameCells(a, b)
  {
    forall c | c in Assoc.Keys(a) ensures c in Assoc.Keys(b) {
      var i :| 0 <= i < |a| && Assoc.Keys(a)[i] == c;
      assert (a[i].0, CanonOf(a[i].1)) in RowKey(b);
    }
    forall c | c in Assoc.Keys(b) ensures c in Assoc.Keys(a) {
      var j :| 0 <= j < |b| && Assoc.Keys(b)[j] == c;
      assert (b[j].0, CanonOf(b[j].1)) in RowKey(a);
    }
    forall i, j | 0 <= i < |a| && 0 <= j < |b| && a[i].0 == b[j].0 ensures CanonOf(a[i].1) == CanonOf(b[j].1) {
      assert (a[i].0, CanonOf(a[i].1)) in RowKey(b);
      var j' :| 0 <= j' < |b| && (b[j'].0, CanonOf(b[j'].1)) == (a[i].0, CanonOf(a[i].1));
      assert j' == j;
    }
  }

  /** Rows with the same cells are duplicates for DISTINCT, whatever their column order. */
  lemma SameCellsDuplicates(a: Row, b: Row)
    requires SameCells(a, b)
    ensures RowKey(a) == RowKey(b)
  {
    forall e | e in RowKey(a) ensures e in RowKey(b) {
      var i :| 0 <= i < |a| && e == (a[i].0, CanonOf(a[i].1));
      assert a[i].0 in Assoc.Keys(a);
      var j :| 0 <= j < |b| && Assoc.Keys(b)[j] == a[i].0;
      assert e == (b[j].0, CanonOf(b[j].1));
    }
    forall e | e in RowKey(b) ensures e in RowKey(a) {
      var j :| 0 <= j < |b| && e == (b[j].0, CanonOf(b[j].1));
      assert b[j].0 in Assoc.Keys(b);
      var i :| 0 <= i < |a| && Assoc.Keys(a)[i] == b[j].0;
      assert e == (a[i].0, CanonOf(a[i].1));
    }
  }

  // ---------------------------------------------------------------------
  // LIMIT.

  /** `dados_finais[:limit]`: an int takes a prefix, anything else cannot index a slice. */
  function Limited(rows: seq<Row>, limit: Option<Literal>): Result<seq<Row>, ExecError>
  {
    match limit
    case None => Ok(rows)
    case Some(Num(IntNum(n))) => Ok(if n < |rows| then rows[..n] else rows)
    case Some(_) => Err(TypeError)
  }

  /** LIMIT n yields the first min(n, len) rows. */
  lemma LimitPrefix(rows: seq<Row>, n: nat)
    ensures Limited(rows, Some(Num(IntNum(n)))).Ok?
    ensures var r := Limited(rows, Some(Num(IntNum(n)))).value;
      |r| == (if n < |rows| then n else |rows|) && r == rows[..|r|]
  {
  }

  // ---------------------------------------------------------------------
  // The pipeline.

  /** Whether ORDER BY is present and not empty (`consulta.get('order_by')`). */
  predicate HasOrder(orderBy: Option<seq<OrderItem>>)
  {
    orderBy.Some? && orderBy.value != []
  }

  /** The outcome of the active `executar_select` over the records of its table. */
  function SelectOf(records: seq<Record>, q: Query): Result<Outcome, ExecError>
    requires q.SelectQuery? && PlainWhere(q.where)
  {
    var filtered :- Where(records, q.where);
    if filtered == [] then Ok(NoResults)
    else
      var processed :- ProcessedOf(filtered, q.groupBy, q.columns);
      FinishOf(processed, q)
  }

  /** DISTINCT, ORDER BY and LIMIT over the processed rows, then the outcome. */
  function FinishOf(processed: seq<Row>, q: Query): Result<Outcome, ExecError>
    requires q.SelectQuery?
  {
    var distinct := if q.distinct then UniqBy(processed, RowKey) else processed;
    var ordered :- if HasOrder(q.orderBy) then Ordered(distinct, q.orderBy.value) else Ok(distinct);
    var limited :- Limited(ordered, q.limit);
    if limited == [] then Ok(NoResults) else Ok(Shown(Assoc.Keys(limited[0]), limited))
  }

  /** The filter raises only what a WHERE test raises: TypeError. */
  lemma {:induction false} WhereErrors(records: seq<Record>, cond: Option<Condition>)
    requires PlainWhere(cond)
    ensures Where(records, cond).Err? ==> Where(records, cond).error == TypeError
    decreases |records|
  {
    if records != [] {
      WhereErrors(records[..|records| - 1], cond);
    }
  }

  /**
   * What a SELECT can raise: TypeError from WHERE, ORDER BY or LIMIT,
   * KeyError from ORDER BY, IndexError from an empty select list; never
   * anything else.
   */
  lemma SelectErrors(records: seq<Record>, q: Query)
    requires q.SelectQuery? && PlainWhere(q.where) && SelectOf(records, q).Err?
    ensures SelectOf(records, q).error in {TypeError, IndexError} || SelectOf(records, q).error.KeyError?
  {
    WhereErrors(records, q.where);
    var filtered := Where(records, q.where);
    if filtered.Ok? && filtered.value != [] {
      var processed := ProcessedOf(filtered.value, q.groupBy, q.columns);
      if processed.Ok? {
        var distinct := if q.distinct then UniqBy(processed.value, RowKey) else processed.value;
        if HasOrder(q.orderBy) {
          OrderedErrors(distinct, q.orderBy.value);
        }
      }
    }
  }

  /** No record passing WHERE ends the statement with "no results" before any other stage runs. */
  lemma EarlyExit(records: seq<Record>, q: Query)
    requires q.SelectQuery? && PlainWhere(q.where)
    requires forall i :: 0 <= i < |records| ==> Test(q.where, records[i]) == Ok(false)
    ensures SelectOf(records, q) == Ok(NoResults)
  {
    WhereKeeps(records, q.where);
    FilterNone(records, Satisfies(q.where));
  }

  /** A shown result is never empty, is headed by its first row's columns and respects LIMIT. */
  lemma ShownShape(records: seq<Record>, q: Query)
    requires q.SelectQuery? && PlainWhere(q.where)
    requires SelectOf(records, q).Ok? && SelectOf(records, q).value.Shown?
    ensures var out := SelectOf(records, q).value;
      out.rows != [] && out.columns == Assoc.Keys(out.rows[0])
      && (q.limit.Some? ==> q.limit.value.Num? && q.limit.value.num.IntNum? && |out.rows| <= q.limit.value.num.n)
  {
  }

  /** A non-aggregate query shows, for a leading `*`, the columns of the first record that passed WHERE. */
  lemma StarColumns(records: seq<Record>, q: Query)
    requires q.SelectQuery? && PlainWhere(q.where) && q.columns != [] && q.columns[0] == Star
    requires !Grouped(q.groupBy) && !IsAggregateQuery(q.columns) && !q.distinct && !HasOrder(q.orderBy) && q.limit.None?
    requires Where(records, q.where).Ok? && Where(records, q.where).value != []
    requires Assoc.DistinctKeys(Where(records, q.where).value[0])
    ensures SelectOf(records, q).Ok? && SelectOf(records, q).value.Shown?
    ensures SelectOf(records, q).value.columns == Assoc.Keys(Where(records, q.where).value[0])
  {
    var first := Where(records, q.where).value[0];
    var names := Assoc.Keys(first);
    assert DistinctBy(names, n => n) by {
      forall i, j | 0 <= i < j < |names| ensures names[i] != names[j] {
        assert names[i] == first[i].0 && names[j] == first[j].0;
      }
    }
    ProjectRowKeys(first, names);
  }

  /**
   * executor.py:333-431 over the records of the table named in FROM (a JOIN
   * clause is ignored, as the source's placeholder does).
   */
  method ExecuteSelect(records: seq<Record>, q: Query) returns (r: Result<Outcome, ExecError>)
    requires q.SelectQuery? && PlainWhere(q.where)
    ensures r == SelectOf(records, q)
    ensures r.Ok? && r.value.Shown? && HasOrder(q.orderBy) ==> LexSorted(r.value.rows, q.orderBy.value)
  {
    var filtered :- Where(records, q.where);
    if filtered == [] {
      return Ok(NoResults);
    }
    var processed: seq<Row>;
    if Grouped(q.groupBy) || IsAggregateQuery(q.columns) {
      processed := AggregateAll(filtered, q.groupBy, q.columns);
    } else {
      var names :- ProjectionNames(q.columns, filtered[0]);
      processed := Project(filtered, names);
      assert processed == seq(|filtered|, i requires 0 <= i < |filtered| => ProjectRow(filtered[i], names));
    }
    assert ProcessedOf(filtered, q.groupBy, q.columns) == Ok(processed);
    r := Finish(processed, q);
  }

  /** executor.py:404-431: DISTINCT, ORDER BY and LIMIT, then the result; ORDER BY leaves the rows shown sorted. */
  method Finish(processed: seq<Row>, q: Query) returns (r: Result<Outcome, ExecError>)
    requires q.SelectQuery?
    ensures r == FinishOf(processed, q)
    ensures r.Ok? && r.value.Shown? && HasOrder(q.orderBy) ==> LexSorted(r.value.rows, q.orderBy.value)
  {
    var finalRows := processed;
    if q.distinct {
      finalRows := Distinct(finalRows);
    }
    if HasOrder(q.orderBy) {
      finalRows :- SortStage(finalRows, q.orderBy.value);
    }
    var limited :- Limited(finalRows, q.limit);
    assert limited == finalRows[..|limited|];
    if HasOrder(q.orderBy) {
      PrefixSorted(finalRows, |limited|, q.orderBy.value);
    }
    if limited == [] {
      return Ok(NoResults);
    }
    return Ok(Shown(Assoc.Keys(limited[0]), limited));
  }

  /** ORDER BY as the pipeline sees it: the stable sort or its error, sorted when it succeeds. */
  method SortStage(rows: seq<Row>, items: seq<OrderItem>) returns (r: Result<seq<Row>, ExecError>)
    ensures r == Ordered(rows, items)
    ensures r.Ok? ==> LexSorted(r.value, items)
  {
    r := OrderRows(rows, items);
  }

  lemma PrefixSorted(s: seq<Row>, n: nat, items: seq<OrderItem>)
    requires n <= |s| && LexSorted(s, items)
    ensures LexSorted(s[..n], items)
  {
    forall i, j | 0 <= i < j < n ensures InOrderRel(items)(s[..n][i], s[..n][j]) {
      assert s[..n][i] == s[i] && s[..n][j] == s[j];
    }
  }
}
