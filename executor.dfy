/**
 * `executar`: one parsed statement against a store of tables, each table
 * named as its file is. Every exception a statement raises is caught and
 * reported, so a statement either reports what it did or the error that
 * stopped it, and the store holds whatever was written before the error.
 */
module Executor {
  import opened Wrappers
  import opened Ast
  import opened Values
  import opened Seqs
  import opened Conditions
  import opened Select
  import opened Mutations
  import Aggregates

  /** What a statement reports. */
  datatype Report =
    | Selected(outcome: Outcome)
    | Counted(count: nat)
    | Inserted
    | Updated(updated: nat)
    | Deleted(deleted: nat)
    | Failed(error: ExecError)

  /** The tables on disk, by name. */
  type Store = map<string, Table>

  /** The table stored under `name`, or None when its file is missing. */
  function Stored(store: Store, name: string): Option<Table>
  {
    if name in store then Some(store[name]) else None
  }

  /** `s.startswith(prefix)`. */
  predicate StartsWith(s: string, prefix: string)
  {
    |prefix| <= |s| && s[..|prefix|] == prefix
  }

  /** `coluna_count_str[6:-1]`: the text between `COUNT(` and the last character. */
  function CountTarget(item: string): (target: string)
    ensures |item| > 7 ==> target == item[6..|item| - 1]
    ensures |item| <= 7 ==> target == ""
  {
    if |item| > 7 then item[6..|item| - 1] else ""
  }

  /** A record `executar_count` counts: `*` counts every record, a column its filled cells. */
  function CountedIn(target: string): Record -> bool
  {
    r => target == "*" || Aggregates.Filled(r, target)
  }

  /** The loop of `executar_count`: records that pass WHERE and are counted; the first raise ends it. */
  function CountOf(records: seq<Record>, cond: Option<Condition>, target: string): Result<nat, ExecError>
    requires PlainWhere(cond)
    decreases |records|
  {
    if records == [] then Ok(0)
    else
      var r := records[|records| - 1];
      var n :- CountOf(records[..|records| - 1], cond, target);
      var hit :- Test(cond, r);
      Ok(if hit && CountedIn(target)(r) then n + 1 else n)
  }

  /**
   * The count is the number of records a SELECT with the same WHERE keeps
   * whose target is `*` or a filled cell, and it raises exactly when WHERE does.
   */
  lemma {:induction false} CountIsWhere(records: seq<Record>, cond: Option<Condition>, target: string)
    requires PlainWhere(cond)
    ensures CountOf(records, cond, target).Ok? <==> Where(records, cond).Ok?
    ensures CountOf(records, cond, target).Ok? ==>
      CountOf(records, cond, target).value == |Filter(Where(records, cond).value, CountedIn(target))|
    decreases |records|
  {
    if records != [] {
      var s', r := records[..|records| - 1], records[|records| - 1];
      CountIsWhere(s', cond, target);
      if CountOf(s', cond, target).Ok? && Test(cond, r).Ok? {
        var w := Where(s', cond).value;
        var tail := if Test(cond, r).value then [r] else [];
        assert Where(records, cond) == Ok(w + tail);
        FilterAppend(w, tail, CountedIn(target));
      }
    }
  }

  /** `COUNT(*)` counts every record that passes WHERE. */
  lemma CountStar(records: seq<Record>, cond: Option<Condition>)
    requires PlainWhere(cond) && Where(records, cond).Ok?
    ensures CountOf(records, cond, "*") == Ok(|Where(records, cond).value|)
  {
    CountIsWhere(records, cond, "*");
    FilterAll(Where(records, cond).value, CountedIn("*"));
  }

  /** Every WHERE clause of the statement avoids regex metacharacters in its LIKE patterns. */
  predicate PlainQuery(q: Query)
  {
    match q
    case SelectQuery(_, _, _, _, where, _, _, _) => PlainWhere(where)
    case InsertQuery(_, _, _) => true
    case UpdateQuery(_, _, where) => PlainWhere(where)
    case DeleteQuery(_, where) => PlainWhere(where)
  }

  /** The first select item is an aggregate dict, on which `.startswith` raises. */
  predicate LeadsWithAggregate(q: Query)
    requires q.SelectQuery?
  {
    q.columns != [] && q.columns[0].Aggregate?
  }

  /** The first select item is a column name starting with `COUNT(`. */
  predicate LeadsWithCount(q: Query)
    requires q.SelectQuery?
  {
    q.columns != [] && q.columns[0].Column? && StartsWith(q.columns[0].name, "COUNT(")
  }

  /** The store after a mutation writes its table back, and the report. */
  function Commit(store: Store, table: string, e: Effect, done: nat -> Report): (Store, Report)
  {
    (if e.stored.Some? then store[table := e.stored.value] else store,
     match e.report case Ok(n) => done(n) case Err(err) => Failed(err))
  }

  /** A SELECT: a leading aggregate fails, then the table is read and COUNT( or the pipeline runs. */
  function RunSelect(store: Store, q: Query): Report
    requires q.SelectQuery? && PlainQuery(q)
  {
    if LeadsWithAggregate(q) then Failed(AttributeError)
    else if q.table !in store then Failed(TableNotFound(q.table))
    else if LeadsWithCount(q) then
      (match CountOf(store[q.table].records, q.where, CountTarget(q.columns[0].name))
       case Ok(n) => Counted(n)
       case Err(e) => Failed(e))
    else
      (match SelectOf(store[q.table].records, q)
       case Ok(outcome) => Selected(outcome)
       case Err(e) => Failed(e))
  }

  /**
   * executor.py:11-26: dispatch on the statement's kind, with UPDATE and
   * DELETE as written. A statement writes at most the table it names: every
   * other table is stored as before, and a SELECT writes nothing.
   */
  function Execute(store: Store, q: Query): (result: (Store, Report))
    requires PlainQuery(q)
    ensures q.SelectQuery? ==> result.0 == store
    ensures forall other :: other in store && other != q.table ==> other in result.0 && result.0[other] == store[other]
    ensures forall other :: other in result.0 ==> other in store || other == q.table
  {
    match q
    case SelectQuery(_, _, _, _, _, _, _, _) => (store, RunSelect(store, q))
    case InsertQuery(table, columns, values) =>
      (store[table := InsertOf(Stored(store, table), columns, values)], Inserted)
    case UpdateQuery(table, assignments, where) =>
      Commit(store, table, UpdateOf(Stored(store, table), table, assignments, where), (n: nat) => Updated(n))
    case DeleteQuery(table, where) =>
      Commit(store, table, DeleteOf(Stored(store, table), table, where), (n: nat) => Deleted(n))
  }

  /**
   * The dispatch as evidently intended: UPDATE checks its SET columns
   * first (`UpdateChecked`) and DELETE without WHERE removes every row
   * (`DeleteIntended`). It too writes at most the table it names.
   */
  function ExecuteIntended(store: Store, q: Query): (result: (Store, Report))
    requires PlainQuery(q)
    ensures q.SelectQuery? ==> result.0 == store
    ensures forall other :: other in store && other != q.table ==> other in result.0 && result.0[other] == store[other]
    ensures forall other :: other in result.0 ==> other in store || other == q.table
  {
    match q
    case UpdateQuery(table, assignments, where) =>
      Commit(store, table, UpdateChecked(Stored(store, table), table, assignments, where), (n: nat) => Updated(n))
    case DeleteQuery(table, where) =>
      Commit(store, table, DeleteIntended(Stored(store, table), table, where), (n: nat) => Deleted(n))
    case _ => Execute(store, q)
  }

  /**
   * A SELECT reports AttributeError exactly when its first item is an
   * aggregate, whatever the store holds: no later stage raises it.
   */
  lemma LeadingAggregateFails(store: Store, q: Query)
    requires q.SelectQuery? && PlainQuery(q)
    ensures Execute(store, q).1 == Failed(AttributeError) <==> LeadsWithAggregate(q)
  {
    if !LeadsWithAggregate(q) && q.table in store {
      if LeadsWithCount(q) {
        CountRaises(store[q.table].records, q.where, CountTarget(q.columns[0].name));
      } else if SelectOf(store[q.table].records, q).Err? {
        SelectErrors(store[q.table].records, q);
      }
    }
  }

  /** COUNT raises only what WHERE raises: TypeError. */
  lemma {:induction false} CountRaises(records: seq<Record>, cond: Option<Condition>, target: string)
    requires PlainWhere(cond)
    ensures CountOf(records, cond, target).Err? ==> CountOf(records, cond, target).error == TypeError
    decreases |records|
  {
    if records != [] {
      CountRaises(records[..|records| - 1], cond, target);
    }
  }

  /**
   * Two INSERTs in a row into the same table assign consecutive ids, and the
   * first INSERT into a missing table assigns 1.
   */
  lemma ConsecutiveInserts(store: Store, table: string, columns: Option<seq<string>>, values: seq<Literal>,
                           later: Option<seq<string>>)
    ensures var store' := Execute(store, InsertQuery(table, columns, values)).0;
      AssignedId(Stored(store', table), later) == AssignedId(Stored(store, table), columns) + 1
    ensures table !in store ==> AssignedId(Stored(store, table), columns) == 1
  {
    InsertThenNextId(Stored(store, table), columns, values, later);
  }

  /** A SELECT over a table none of whose records satisfies its WHERE shows no results. */
  lemma SelectFindsNothing(store: Store, q: Query)
    requires q.SelectQuery? && PlainQuery(q) && q.table in store
    requires !LeadsWithAggregate(q) && !LeadsWithCount(q)
    requires forall i :: 0 <= i < |store[q.table].records| ==> Test(q.where, store[q.table].records[i]) == Ok(false)
    ensures Execute(store, q) == (store, Selected(NoResults))
  {
    EarlyExit(store[q.table].records, q);
  }

  /**
   * After a DELETE whose WHERE raised on no record, a SELECT with the same
   * WHERE on that table finds nothing.
   */
  lemma DeleteThenSelect(store: Store, table: string, c: Condition, q: Query)
    requires PlainPatterns(c)
    requires Execute(store, DeleteQuery(table, Some(c))).1.Deleted?
    requires q.SelectQuery? && q.table == table && q.where == Some(c)
    requires !LeadsWithAggregate(q) && !LeadsWithCount(q)
    ensures var store' := Execute(store, DeleteQuery(table, Some(c))).0;
      Execute(store', q) == (store', Selected(NoResults))
  {
    var e := DeleteOf(Stored(store, table), table, Some(c));
    assert Execute(store, DeleteQuery(table, Some(c))) == Commit(store, table, e, (n: nat) => Deleted(n));
    assert e.report.Ok?;
    DeleteLeavesNoMatch(store[table], table, c);
    SelectFindsNothing(store[table := e.stored.value], q);
  }

  /**
   * After an UPDATE of a well-formed table that reported a count, every
   * record the WHERE clause selected holds, in each assigned column, the
   * value given last for it.
   */
  lemma UpdateThenLookup(store: Store, table: string, assignments: seq<(string, Literal)>, cond: Option<Condition>,
                         i: nat, col: string)
    requires PlainWhere(cond) && table in store && WellFormedTable(store[table]) && store[table].header != []
    requires AssignsKnown(store[table].header, assignments)
    requires Execute(store, UpdateQuery(table, assignments, cond)).1.Updated?
    requires i < |store[table].records| && Satisfies(cond)(store[table].records[i])
    requires Assoc.LastLookup(AsText(assignments), col).Some?
    ensures var store' := Execute(store, UpdateQuery(table, assignments, cond)).0;
      i < |store'[table].records| && Assoc.Lookup(store'[table].records[i], col) == Assoc.LastLookup(AsText(assignments), col)
  {
    var t := store[table];
    var e := UpdateOf(Some(t), table, assignments, cond);
    assert Execute(store, UpdateQuery(table, assignments, cond)) == Commit(store, table, e, (n: nat) => Updated(n));
    assert UpdateLoop(t.records, cond, assignments).Ok?;
    UpdateLoopFacts(t.records, cond, assignments);
    UpdateKnownColumns(t, table, assignments, cond);
    AssignLookup(t.records[i], assignments, col);
  }

  /**
   * DELETE without WHERE: as written it leaves the table as it was and
   * reports 0 removed; as intended it empties the table and reports how
   * many rows it held.
   */
  lemma DeleteWithoutWhere(store: Store, table: string)
    requires table in store && store[table].header != []
    ensures Execute(store, DeleteQuery(table, None)) == (store, Deleted(0))
    ensures ExecuteIntended(store, DeleteQuery(table, None)) ==
      (store[table := Table(store[table].header, [])], Deleted(|store[table].records|))
  {
    DeleteWithoutWhereKeepsAll(store[table], table);
    assert store[table := store[table]] == store;
  }

  /**
   * An UPDATE whose SET names a column the header lacks, where WHERE raises
   * on no record and selects record `i`: as written the writer raises
   * ValueError and the table is left with at most the `i` rows before that
   * record; as intended KeyError is reported and no table changes.
   */
  lemma UnknownColumn(store: Store, table: string, assignments: seq<(string, Literal)>, cond: Option<Condition>, i: nat)
    requires PlainWhere(cond) && table in store && store[table].header != []
    requires !AssignsKnown(store[table].header, assignments)
    requires forall k :: 0 <= k < |store[table].records| ==> Test(cond, store[table].records[k]).Ok?
    requires i < |store[table].records| && Satisfies(cond)(store[table].records[i])
    ensures var (store', report) := Execute(store, UpdateQuery(table, assignments, cond));
      report == Failed(ValueError) && table in store' && |store'[table].records| <= i
    ensures ExecuteIntended(store, UpdateQuery(table, assignments, cond)) ==
      (store, Failed(KeyError(FirstUnknown(store[table].header, assignments))))
  {
    var t := store[table];
    UnknownColumnTruncates(t, table, assignments, cond, i);
    assert store[table := t] == store;
  }
}
