/**
 * The in-memory part of INSERT, UPDATE and DELETE: the primary-key
 * heuristic, the surrogate id, the row an INSERT appends, the rows an UPDATE
 * rewrites and the rows a DELETE keeps. The table store hands in the table
 * it read (None when the file is missing) and takes back what is written.
 */
module Mutations {
  import opened Wrappers
  import opened Strings
  import opened Ast
  import opened Values
  import opened Seqs
  import opened Unique
  import opened Conditions
  import Assoc
  import Select

  // ---------------------------------------------------------------------
  // The primary key.

  /** `name.endswith('_id')`. */
  predicate EndsWithId(name: string)
  {
    |name| >= 3 && name[|name| - 3..] == "_id"
  }

  /** The index of the first column, from `i` on, whose name ends with `_id`. */
  function FirstIdSuffixed(header: seq<string>, i: nat): (r: Option<nat>)
    requires i <= |header|
    ensures r.Some? ==> i <= r.value < |header| && EndsWithId(header[r.value])
    ensures r.Some? ==> forall k :: i <= k < r.value ==> !EndsWithId(header[k])
    ensures r.None? ==> forall k :: i <= k < |header| ==> !EndsWithId(header[k])
    decreases |header| - i
  {
    if i == |header| then None
    else if EndsWithId(header[i]) then Some(i)
    else FirstIdSuffixed(header, i + 1)
  }

  /**
   * `get_pk_column`: `id` for an empty header or one holding `id`; otherwise
   * the first column whose name ends with `_id`, and the first column when
   * there is none.
   */
  function PkColumn(header: seq<string>): (pk: string)
    ensures header == [] || "id" in header ==> pk == "id"
    ensures header != [] && "id" !in header ==>
      exists j :: 0 <= j < |header| && header[j] == pk
        && (forall k :: 0 <= k < j ==> !EndsWithId(header[k]))
        && (EndsWithId(pk) || (j == 0 && forall k :: 0 <= k < |header| ==> !EndsWithId(header[k])))
  {
    if header == [] then "id"
    else if "id" in header then "id"
    else match FirstIdSuffixed(header, 0)
      case Some(j) => header[j]
      case None => header[0]
  }

  /** The primary key of a non-empty header is one of its columns. */
  lemma PkInHeader(header: seq<string>)
    requires header != []
    ensures PkColumn(header) in header
  {
  }

  // ---------------------------------------------------------------------
  // The surrogate id.

  /** `r[pk]` is an all-digit cell whose value is `n`. */
  predicate KeyCell(r: Record, pk: string, n: nat)
  {
    Assoc.Lookup(r, pk).Some? && IsDigitString(Assoc.Lookup(r, pk).value)
    && DigitsValue(Assoc.Lookup(r, pk).value) == n
  }

  /** `[int(linha[pk]) for linha in leitor if pk in linha and linha[pk].isdigit()]`. */
  function KeyNumbers(records: seq<Record>, pk: string): seq<nat>
    decreases |records|
  {
    if records == [] then []
    else
      var r := records[|records| - 1];
      var cell := Assoc.Lookup(r, pk);
      KeyNumbers(records[..|records| - 1], pk)
        + (if cell.Some? && IsDigitString(cell.value) then [DigitsValue(cell.value)] else [])
  }

  /** `max(ns)`. */
  function Max(ns: seq<nat>): (m: nat)
    requires ns != []
    ensures m in ns && forall k :: 0 <= k < |ns| ==> ns[k] <= m
    decreases |ns|
  {
    if |ns| == 1 then ns[0]
    else
      var m' := Max(ns[..|ns| - 1]);
      assert forall k :: 0 <= k < |ns| - 1 ==> ns[..|ns| - 1][k] == ns[k];
      if ns[|ns| - 1] > m' then ns[|ns| - 1] else m'
  }

  /** `novo_id`: one more than the largest all-digit key, or 1 when there is none. */
  function NextId(records: seq<Record>, pk: string): nat
  {
    var ns := KeyNumbers(records, pk);
    if ns == [] then 1 else Max(ns) + 1
  }

  /** The numbers collected are exactly the values of the all-digit key cells. */
  lemma {:induction false} KeyNumbersAre(records: seq<Record>, pk: string, n: nat)
    ensures n in KeyNumbers(records, pk) <==> exists i :: 0 <= i < |records| && KeyCell(records[i], pk, n)
    decreases |records|
  {
    if records != [] {
      KeyNumbersAre(records[..|records| - 1], pk, n);
      KeyCellStep(records, pk, n);
    }
  }

  /** Some record holds `n` as its all-digit key. */
  predicate HoldsKey(records: seq<Record>, pk: string, n: nat)
  {
    exists i :: 0 <= i < |records| && KeyCell(records[i], pk, n)
  }

  /** Some record holds key `n` exactly when one before the last does, or the last does. */
  lemma KeyCellStep(records: seq<Record>, pk: string, n: nat)
    requires records != []
    ensures HoldsKey(records, pk, n) <==>
      HoldsKey(records[..|records| - 1], pk, n) || KeyCell(records[|records| - 1], pk, n)
  {
    var s' := records[..|records| - 1];
    if exists i :: 0 <= i < |s'| && KeyCell(s'[i], pk, n) {
      var i :| 0 <= i < |s'| && KeyCell(s'[i], pk, n);
      assert records[i] == s'[i];
    }
    if exists i :: 0 <= i < |records| && KeyCell(records[i], pk, n) {
      var i :| 0 <= i < |records| && KeyCell(records[i], pk, n);
      if i < |s'| { assert records[i] == s'[i]; }
    }
  }

  /**
   * The new id is above every all-digit key of the table, and is 1 or one
   * more than some such key.
   */
  lemma NextIdFresh(records: seq<Record>, pk: string)
    ensures NextId(records, pk) >= 1
    ensures forall i, n: nat :: 0 <= i < |records| && KeyCell(records[i], pk, n) ==> n < NextId(records, pk)
    ensures NextId(records, pk) == 1 || exists i :: 0 <= i < |records| && KeyCell(records[i], pk, NextId(records, pk) - 1)
  {
    var ns := KeyNumbers(records, pk);
    forall i, n: nat | 0 <= i < |records| && KeyCell(records[i], pk, n) ensures n < NextId(records, pk) {
      KeyNumbersAre(records, pk, n);
    }
    if ns != [] {
      KeyNumbersAre(records, pk, Max(ns));
    }
  }

  /** Appending a record whose key is the new id makes the next id one larger. */
  lemma NextIdAfter(records: seq<Record>, pk: string, r: Record)
    requires Assoc.Lookup(r, pk) == Some(NatToString(NextId(records, pk)))
    ensures NextId(records + [r], pk) == NextId(records, pk) + 1
  {
    var id := NextId(records, pk);
    var ns := KeyNumbers(records, pk);
    assert (records + [r])[..|records|] == records;
    NatToStringRoundTrip(id);
    assert KeyNumbers(records + [r], pk) == ns + [id];
    var m := Max(ns + [id]);
    assert (ns + [id])[|ns|] == id;
    if ns != [] {
      forall k | 0 <= k < |ns| ensures ns[k] < id { }
      assert forall k :: 0 <= k < |ns + [id]| ==> (ns + [id])[k] <= id;
    }
  }

  // ---------------------------------------------------------------------
  // INSERT.

  /** `fieldnames.insert(0, 'id')` unless a column is `id` or ends with `_id`. */
  function WithIdColumn(columns: seq<string>): seq<string>
  {
    if "id" in columns || FirstIdSuffixed(columns, 0).Some? then columns else ["id"] + columns
  }

  /** The file exists and is not empty: its first row is the header. */
  predicate HasHeader(existing: Option<Table>)
  {
    existing.Some? && existing.value.header != []
  }

  /** The columns an INSERT names, when it names any (`if colunas_usuario:`). */
  predicate NamesColumns(columns: Option<seq<string>>)
  {
    columns.Some? && columns.value != []
  }

  /**
   * `fieldnames`: the file's header, or for a missing or empty file the
   * INSERT's own columns with the surrogate column added, or nothing.
   */
  function InsertHeader(existing: Option<Table>, columns: Option<seq<string>>): seq<string>
  {
    if HasHeader(existing) then existing.value.header
    else if NamesColumns(columns) then WithIdColumn(columns.value)
    else []
  }

  /** The records already stored. */
  function StoredRecords(existing: Option<Table>): seq<Record>
  {
    if existing.Some? then existing.value.records else []
  }

  /** The id an INSERT assigns. */
  function AssignedId(existing: Option<Table>, columns: Option<seq<string>>): nat
  {
    NextId(StoredRecords(existing), PkColumn(InsertHeader(existing, columns)))
  }

  /** `zip(names, values)`, each value as the CSV writer prints it. */
  function Zip(names: seq<string>, values: seq<Literal>): (z: seq<(string, string)>)
    ensures |z| == if |names| < |values| then |names| else |values|
    ensures forall i :: 0 <= i < |z| ==> z[i] == (names[i], LiteralText(values[i]))
  {
    var n := if |names| < |values| then |names| else |values|;
    seq(n, i requires 0 <= i < n => (names[i], LiteralText(values[i])))
  }

  function IsNot(pk: string): string -> bool
  {
    h => h != pk
  }

  /** The assignments of `dict(zip(...))`: the named columns, or the header without the key, paired with the values. */
  function InsertPairs(header: seq<string>, pk: string, columns: Option<seq<string>>, values: seq<Literal>): seq<(string, string)>
  {
    if NamesColumns(columns) then Zip(columns.value, values) else Zip(Filter(header, IsNot(pk)), values)
  }

  /** `linha_para_inserir` once `linha_para_inserir[pk] = novo_id` has run. */
  function NewRow(header: seq<string>, pk: string, id: nat, columns: Option<seq<string>>, values: seq<Literal>): Record
  {
    Assoc.Put(Assoc.PutAll([], InsertPairs(header, pk, columns, values)), pk, NatToString(id))
  }

  /** `final_fieldnames`: each key is appended unless the list already holds it. */
  function Extend(fields: seq<string>, keys: seq<string>): seq<string>
    decreases |keys|
  {
    if keys == [] then fields
    else
      var prev := Extend(fields, keys[..|keys| - 1]);
      var k := keys[|keys| - 1];
      if k in prev then prev else prev + [k]
  }

  /** The extended list starts with the header and holds exactly its columns and the keys. */
  lemma {:induction false} ExtendFacts(fields: seq<string>, keys: seq<string>)
    ensures |Extend(fields, keys)| >= |fields| && Extend(fields, keys)[..|fields|] == fields
    ensures forall x :: x in Extend(fields, keys) <==> x in fields || x in keys
    decreases |keys|
  {
    if keys != [] {
      var keys' := keys[..|keys| - 1];
      ExtendFacts(fields, keys');
      assert keys == keys' + [keys[|keys| - 1]];
      var prev := Extend(fields, keys');
      assert (prev + [keys[|keys| - 1]])[..|fields|] == prev[..|fields|];
    }
  }

  /** The header is not extended by keys it already holds. */
  lemma {:induction false} ExtendNothing(fields: seq<string>, keys: seq<string>)
    requires forall x :: x in keys ==> x in fields
    ensures Extend(fields, keys) == fields
    decreases |keys|
  {
    if keys != [] {
      ExtendNothing(fields, keys[..|keys| - 1]);
      assert keys[|keys| - 1] in keys;
    }
  }

  /** The record `DictWriter.writerow` writes: each field in order, `''` for a field the row lacks. */
  function Written(fields: seq<string>, row: Record): (w: Record)
    ensures Assoc.Keys(w) == fields
  {
    var w := seq(|fields|, i requires 0 <= i < |fields| =>
      (fields[i], match Assoc.Lookup(row, fields[i]) case Some(v) => v case None => ""));
    assert forall j :: 0 <= j < |fields| ==> Assoc.Keys(w)[j] == fields[j];
    w
  }

  /** A written field holds the row's cell, or `''` when the row lacks it. */
  lemma {:induction false} WrittenLookup(fields: seq<string>, row: Record, c: string)
    ensures Assoc.Lookup(Written(fields, row), c) ==
      if c !in fields then None
      else Some(match Assoc.Lookup(row, c) case Some(v) => v case None => "")
    decreases |fields|
  {
    if fields != [] {
      WrittenLookup(fields[1..], row, c);
      assert Written(fields, row)[1..] == Written(fields[1..], row);
    }
  }

  /**
   * What INSERT leaves in the store: the old records and one more. A file
   * that already had a header keeps it; otherwise the header written first
   * is the final field list.
   */
  function InsertOf(existing: Option<Table>, columns: Option<seq<string>>, values: seq<Literal>): Table
  {
    var header := InsertHeader(existing, columns);
    var pk := PkColumn(header);
    var id := NextId(StoredRecords(existing), pk);
    var row := NewRow(header, pk, id, columns, values);
    var fields := Extend(header, Assoc.Keys(row));
    Table(if HasHeader(existing) then existing.value.header else fields, StoredRecords(existing) + [Written(fields, row)])
  }

  /** executor.py:149-211 without the file access. */
  method ExecuteInsert(existing: Option<Table>, columns: Option<seq<string>>, values: seq<Literal>) returns (t: Table)
    ensures t == InsertOf(existing, columns, values)
  {
    var fieldnames: seq<string> := [];
    if HasHeader(existing) {
      fieldnames := existing.value.header;
    } else if NamesColumns(columns) {
      fieldnames := columns.value;
      if "id" !in fieldnames && FirstIdSuffixed(fieldnames, 0).None? {
        fieldnames := ["id"] + fieldnames;
      }
    }
    assert fieldnames == InsertHeader(existing, columns);
    var pk := PkColumn(fieldnames);
    var records := StoredRecords(existing);
    var id := NextId(records, pk);
    var row := Assoc.PutAll([], InsertPairs(fieldnames, pk, columns, values));
    row := Assoc.Put(row, pk, NatToString(id));
    assert row == NewRow(fieldnames, pk, id, columns, values);
    var finalFields := ExtendFields(fieldnames, Assoc.Keys(row));
    var header := if HasHeader(existing) then existing.value.header else finalFields;
    t := Table(header, records + [Written(finalFields, row)]);
  }

  /** executor.py:195-198: the loop that appends the row's new keys to the field names. */
  method ExtendFields(fieldnames: seq<string>, keys: seq<string>) returns (finalFields: seq<string>)
    ensures finalFields == Extend(fieldnames, keys)
  {
    finalFields := fieldnames;
    for i := 0 to |keys|
      invariant finalFields == Extend(fieldnames, keys[..i])
    {
      assert keys[..i + 1][..i] == keys[..i];
      if keys[i] !in finalFields {
        finalFields := finalFields + [keys[i]];
      }
    }
    assert keys[..|keys|] == keys;
  }

  /** The columns the assignments of a new row set. */
  lemma PairsKeys(pairs: seq<(string, string)>, x: string)
    ensures x in Assoc.Keys(Assoc.PutAll([], pairs)) <==> x in Assoc.Keys(pairs)
  {
    Assoc.PutAllKeys([], pairs);
    assert [] + pairs == pairs;
    UniqByImage(pairs, Assoc.PairKey, x);
    Assoc.KeysImage(pairs);
  }

  /** A column of the new row is one of the INSERT's columns, or the header's, or the key. */
  lemma NewRowKeys(header: seq<string>, pk: string, id: nat, columns: Option<seq<string>>, values: seq<Literal>, x: string)
    requires x in Assoc.Keys(NewRow(header, pk, id, columns, values))
    ensures x == pk || (NamesColumns(columns) && x in columns.value) || (!NamesColumns(columns) && x in header)
  {
    var pairs := InsertPairs(header, pk, columns, values);
    var before := Assoc.PutAll([], pairs);
    Assoc.PutKeys(before, pk, NatToString(id));
    if x != pk {
      PairsKeys(pairs, x);
      var j :| 0 <= j < |pairs| && Assoc.Keys(pairs)[j] == x;
      if !NamesColumns(columns) {
        assert x in Filter(header, IsNot(pk));
      }
    }
  }

  /**
   * The new record: the old records come first and are unchanged, the key
   * column holds the new id whatever the INSERT gave it, and the header keeps
   * or gains the key column.
   */
  lemma InsertRecord(existing: Option<Table>, columns: Option<seq<string>>, values: seq<Literal>)
    ensures var t := InsertOf(existing, columns, values);
      var pk := PkColumn(InsertHeader(existing, columns));
      |t.records| == |StoredRecords(existing)| + 1
      && t.records[..|StoredRecords(existing)|] == StoredRecords(existing)
      && Assoc.Lookup(t.records[|t.records| - 1], pk) == Some(NatToString(AssignedId(existing, columns)))
  {
    var header := InsertHeader(existing, columns);
    var pk := PkColumn(header);
    var id := AssignedId(existing, columns);
    var row := NewRow(header, pk, id, columns, values);
    var fields := Extend(header, Assoc.Keys(row));
    var t := InsertOf(existing, columns, values);
    Assoc.PutLookup(Assoc.PutAll([], InsertPairs(header, pk, columns, values)), pk, NatToString(id), pk);
    Assoc.PutKeys(Assoc.PutAll([], InsertPairs(header, pk, columns, values)), pk, NatToString(id));
    ExtendFacts(header, Assoc.Keys(row));
    WrittenLookup(fields, row, pk);
    assert (StoredRecords(existing) + [Written(fields, row)])[..|StoredRecords(existing)|] == StoredRecords(existing);
  }

  /**
   * A named column other than the key holds the value given last for it in
   * the INSERT's column list.
   */
  lemma InsertValue(existing: Option<Table>, columns: Option<seq<string>>, values: seq<Literal>, c: string)
    requires NamesColumns(columns) && c != PkColumn(InsertHeader(existing, columns))
    requires Assoc.LastLookup(Zip(columns.value, values), c).Some?
    ensures var t := InsertOf(existing, columns, values);
      Assoc.Lookup(t.records[|t.records| - 1], c) == Assoc.LastLookup(Zip(columns.value, values), c)
  {
    var header := InsertHeader(existing, columns);
    var pk := PkColumn(header);
    var id := AssignedId(existing, columns);
    var pairs := InsertPairs(header, pk, columns, values);
    var before := Assoc.PutAll([], pairs);
    var row := NewRow(header, pk, id, columns, values);
    var fields := Extend(header, Assoc.Keys(row));
    Assoc.PutAllLookup([], pairs, c);
    Assoc.PutLookup(before, pk, NatToString(id), c);
    Assoc.LookupKeys(row, c);
    ExtendFacts(header, Assoc.Keys(row));
    WrittenLookup(fields, row, c);
  }

  /** When the INSERT's columns lie within a non-empty header, the final field list is that header. */
  lemma FieldsAreHeader(header: seq<string>, pk: string, id: nat, columns: Option<seq<string>>, values: seq<Literal>)
    requires header != [] && pk == PkColumn(header)
    requires NamesColumns(columns) ==> forall c :: c in columns.value ==> c in header
    ensures Extend(header, Assoc.Keys(NewRow(header, pk, id, columns, values))) == header
  {
    var row := NewRow(header, pk, id, columns, values);
    PkInHeader(header);
    forall x | x in Assoc.Keys(row) ensures x in header {
      NewRowKeys(header, pk, id, columns, values, x);
    }
    ExtendNothing(header, Assoc.Keys(row));
  }

  /** Without a header and without columns, the new row holds the key alone. */
  lemma FieldsAreKey(pk: string, id: nat, columns: Option<seq<string>>, values: seq<Literal>)
    requires !NamesColumns(columns)
    ensures Extend([], Assoc.Keys(NewRow([], pk, id, columns, values))) == [pk]
  {
    assert Filter([], IsNot(pk)) == [];
    assert InsertPairs([], pk, columns, values) == [];
    assert Assoc.PutAll([], InsertPairs([], pk, columns, values)) == [];
    assert NewRow([], pk, id, columns, values) == [(pk, NatToString(id))];
    assert Assoc.Keys(NewRow([], pk, id, columns, values)) == [pk];
    assert Extend([], [pk]) == [pk];
  }

  /** After an INSERT the table has a header whose key column is the one the INSERT used. */
  lemma InsertKeepsKey(existing: Option<Table>, columns: Option<seq<string>>, values: seq<Literal>)
    ensures InsertOf(existing, columns, values).header != []
    ensures PkColumn(InsertOf(existing, columns, values).header) == PkColumn(InsertHeader(existing, columns))
  {
    var header := InsertHeader(existing, columns);
    var pk := PkColumn(header);
    var id := AssignedId(existing, columns);
    if !HasHeader(existing) {
      if NamesColumns(columns) {
        FieldsAreHeader(header, pk, id, columns, values);
      } else {
        FieldsAreKey(pk, id, columns, values);
        assert PkColumn(["id"]) == "id";
      }
    }
  }

  /** After an INSERT the next INSERT assigns the next id. */
  lemma InsertThenNextId(existing: Option<Table>, columns: Option<seq<string>>, values: seq<Literal>, later: Option<seq<string>>)
    ensures AssignedId(Some(InsertOf(existing, columns, values)), later) == AssignedId(existing, columns) + 1
  {
    var pk := PkColumn(InsertHeader(existing, columns));
    var t := InsertOf(existing, columns, values);
    InsertRecord(existing, columns, values);
    InsertKeepsKey(existing, columns, values);
    assert InsertHeader(Some(t), later) == t.header;
    var last := t.records[|t.records| - 1];
    assert t.records == StoredRecords(existing) + [last];
    NextIdAfter(StoredRecords(existing), pk, last);
  }

  /** Inserting into an empty or missing table assigns id 1. */
  lemma FirstId(existing: Option<Table>, columns: Option<seq<string>>)
    requires StoredRecords(existing) == []
    ensures AssignedId(existing, columns) == 1
  {
  }

  /**
   * Inserting into a table whose INSERT names only columns of its header
   * keeps the table rectangular: the new record is keyed by the header.
   */
  lemma InsertWellFormed(t: Table, columns: Option<seq<string>>, values: seq<Literal>)
    requires WellFormedTable(t) && t.header != []
    requires NamesColumns(columns) ==> forall c :: c in columns.value ==> c in t.header
    ensures WellFormedTable(InsertOf(Some(t), columns, values))
  {
    var pk := PkColumn(t.header);
    var id := AssignedId(Some(t), columns);
    FieldsAreHeader(t.header, pk, id, columns, values);
    InsertIntoHeader(t, columns, values);
    AppendKeyed(t.records, Written(t.header, NewRow(t.header, pk, id, columns, values)), t.header);
  }

  /** INSERT into a table with a header keeps that header and appends the written row. */
  lemma InsertIntoHeader(t: Table, columns: Option<seq<string>>, values: seq<Literal>)
    requires t.header != []
    ensures var row := NewRow(t.header, PkColumn(t.header), AssignedId(Some(t), columns), columns, values);
      InsertOf(Some(t), columns, values) ==
        Table(t.header, t.records + [Written(Extend(t.header, Assoc.Keys(row)), row)])
  {
  }

  /** Appending a record keyed by the header to records keyed by it. */
  lemma AppendKeyed(records: seq<Record>, w: Record, header: seq<string>)
    requires forall k :: 0 <= k < |records| ==> Assoc.Keys(records[k]) == header
    requires Assoc.Keys(w) == header
    ensures forall k :: 0 <= k < |records + [w]| ==> Assoc.Keys((records + [w])[k]) == header
  {
    forall k | 0 <= k < |records + [w]| ensures Assoc.Keys((records + [w])[k]) == header {
      if k < |records| {
        assert (records + [w])[k] == records[k];
      }
    }
  }

  // ---------------------------------------------------------------------
  // Writing a whole table back.

  /** Every column of the row is a field of the header. */
  predicate Fits(header: seq<string>, row: Record)
  {
    forall j :: 0 <= j < |row| ==> row[j].0 in header
  }

  /**
   * `writer.writerows(rows)` after `writeheader()`: rows are written in order
   * until one holds a column outside the header, which raises ValueError and
   * leaves the rows before it in the file. The flag is true when every row
   * was written.
   */
  function WriteRows(header: seq<string>, rows: seq<Record>): (w: (seq<Record>, bool))
    ensures |w.0| <= |rows| && w.0 == rows[..|w.0|]
    ensures w.1 <==> forall i :: 0 <= i < |rows| ==> Fits(header, rows[i])
    ensures w.1 ==> w.0 == rows
    ensures !w.1 ==> |w.0| < |rows| && !Fits(header, rows[|w.0|])
    ensures forall i :: 0 <= i < |w.0| ==> Fits(header, rows[i])
    decreases |rows|
  {
    if rows == [] then ([], true)
    else if !Fits(header, rows[0]) then ([], false)
    else
      var (rest, ok) := WriteRows(header, rows[1..]);
      assert forall i :: 1 <= i < |rows| ==> rows[i] == rows[1..][i - 1];
      ([rows[0]] + rest, ok)
  }

  /** What a mutation leaves in the store and what it reports: a row count, or the error it raised. */
  datatype Effect = Effect(stored: Option<Table>, report: Result<nat, ExecError>)

  // ---------------------------------------------------------------------
  // UPDATE.

  /** The SET entries with their values as the CSV writer prints them. */
  function AsText(assignments: seq<(string, Literal)>): (r: seq<(string, string)>)
    ensures |r| == |assignments|
    ensures forall i :: 0 <= i < |r| ==> r[i] == (assignments[i].0, LiteralText(assignments[i].1))
  {
    seq(|assignments|, i requires 0 <= i < |assignments| => (assignments[i].0, LiteralText(assignments[i].1)))
  }

  /** `for col, val in set_list.items(): linha[col] = val`. */
  function Assign(r: Record, assignments: seq<(string, Literal)>): Record
  {
    Assoc.PutAll(r, AsText(assignments))
  }

  /** An assigned column holds the last value given for it; every other column keeps its cell. */
  lemma AssignLookup(r: Record, assignments: seq<(string, Literal)>, c: string)
    ensures Assoc.Lookup(Assign(r, assignments), c) ==
      if Assoc.LastLookup(AsText(assignments), c).Some? then Assoc.LastLookup(AsText(assignments), c) else Assoc.Lookup(r, c)
  {
    Assoc.PutAllLookup(r, AsText(assignments), c);
  }

  /** The loop at executor.py:225-230: the rows after it and `atualizados`; the first raise ends it. */
  function UpdateLoop(records: seq<Record>, cond: Option<Condition>, assignments: seq<(string, Literal)>)
    : Result<(seq<Record>, nat), ExecError>
    requires PlainWhere(cond)
    decreases |records|
  {
    if records == [] then Ok(([], 0))
    else
      var r := records[|records| - 1];
      var (rows, n) :- UpdateLoop(records[..|records| - 1], cond, assignments);
      var hit :- Test(cond, r);
      Ok((rows + [if hit then Assign(r, assignments) else r], if hit then n + 1 else n))
  }

  /** The update loop raises only what a WHERE test raises: TypeError. */
  lemma {:induction false} UpdateLoopRaisesTypeError(records: seq<Record>, cond: Option<Condition>, assignments: seq<(string, Literal)>)
    requires PlainWhere(cond)
    ensures UpdateLoop(records, cond, assignments).Err? ==> UpdateLoop(records, cond, assignments).error == TypeError
    decreases |records|
  {
    if records != [] {
      UpdateLoopRaisesTypeError(records[..|records| - 1], cond, assignments);
    }
  }

  /** The loop itself, rewriting the rows in place and counting the matches. */
  method UpdateRows(records: seq<Record>, cond: Option<Condition>, assignments: seq<(string, Literal)>)
    returns (r: Result<(seq<Record>, nat), ExecError>)
    requires PlainWhere(cond)
    ensures r == UpdateLoop(records, cond, assignments)
  {
    var rows := records;
    var updated := 0;
    for i := 0 to |records|
      invariant |rows| == |records| && rows[i..] == records[i..]
      invariant UpdateLoop(records[..i], cond, assignments) == Ok((rows[..i], updated))
    {
      assert rows[i] == records[i];
      var hit := Test(cond, rows[i]);
      if hit.Err? {
        UpdateLoopRaises(records, cond, assignments, i);
        return Err(hit.error);
      }
      UpdateLoopStep(records, cond, assignments, i, rows[..i], updated);
      ghost var before := rows[..i];
      if hit.value {
        rows := rows[i := Assign(rows[i], assignments)];
        updated := updated + 1;
      }
      assert rows[..i + 1] == before + [rows[i]];
      assert rows[i + 1..] == records[i + 1..];
    }
    assert records[..|records|] == records && rows[..|records|] == rows;
    return Ok((rows, updated));
  }

  /** One more record extends the loop's rows by that record, rewritten when it satisfies WHERE. */
  lemma UpdateLoopStep(records: seq<Record>, cond: Option<Condition>, assignments: seq<(string, Literal)>,
                       i: nat, prefix: seq<Record>, n: nat)
    requires PlainWhere(cond) && i < |records| && Test(cond, records[i]).Ok?
    requires UpdateLoop(records[..i], cond, assignments) == Ok((prefix, n))
    ensures var hit := Test(cond, records[i]).value;
      UpdateLoop(records[..i + 1], cond, assignments) ==
        Ok((prefix + [if hit then Assign(records[i], assignments) else records[i]], if hit then n + 1 else n))
  {
    assert records[..i + 1][..i] == records[..i];
  }

  /** A raising WHERE test on record `i`, after none before it, is the loop's raise. */
  lemma UpdateLoopRaises(records: seq<Record>, cond: Option<Condition>, assignments: seq<(string, Literal)>, i: nat)
    requires PlainWhere(cond) && i < |records| && Test(cond, records[i]).Err?
    requires UpdateLoop(records[..i], cond, assignments).Ok?
    ensures UpdateLoop(records, cond, assignments) == Err(Test(cond, records[i]).error)
  {
    assert records[..i + 1][..i] == records[..i];
    PrefixRaises(records, cond, assignments, i + 1);
  }

  /** A raise in a prefix of the loop is the raise of the whole loop. */
  lemma {:induction false} PrefixRaises(records: seq<Record>, cond: Option<Condition>, assignments: seq<(string, Literal)>, k: nat)
    requires PlainWhere(cond) && k <= |records| && UpdateLoop(records[..k], cond, assignments).Err?
    ensures UpdateLoop(records, cond, assignments) == UpdateLoop(records[..k], cond, assignments)
    decreases |records| - k
  {
    if k < |records| {
      assert records[..k + 1][..k] == records[..k];
      PrefixRaises(records, cond, assignments, k + 1);
    } else {
      assert records[..k] == records;
    }
  }

  /** The loop raises exactly when some WHERE test raises. */
  lemma {:induction false} UpdateLoopOk(records: seq<Record>, cond: Option<Condition>, assignments: seq<(string, Literal)>)
    requires PlainWhere(cond)
    ensures UpdateLoop(records, cond, assignments).Ok? <==> forall i :: 0 <= i < |records| ==> Test(cond, records[i]).Ok?
    decreases |records|
  {
    if records != [] {
      var s' := records[..|records| - 1];
      UpdateLoopOk(s', cond, assignments);
      if UpdateLoop(s', cond, assignments).Err? {
        var i :| 0 <= i < |s'| && !Test(cond, s'[i]).Ok?;
        assert records[i] == s'[i];
      } else {
        assert forall i :: 0 <= i < |s'| ==> s'[i] == records[i];
      }
    }
  }

  /** A record after the loop: rewritten when it satisfies WHERE, as it was otherwise. */
  function Rewritten(r: Record, cond: Option<Condition>, assignments: seq<(string, Literal)>): Record
    requires PlainWhere(cond)
  {
    if Satisfies(cond)(r) then Assign(r, assignments) else r
  }

  /** A loop that does not raise rewrites each row as `Rewritten` says and counts the satisfying ones. */
  lemma {:induction false} UpdateLoopRows(records: seq<Record>, cond: Option<Condition>, assignments: seq<(string, Literal)>)
    requires PlainWhere(cond) && UpdateLoop(records, cond, assignments).Ok?
    ensures |UpdateLoop(records, cond, assignments).value.0| == |records|
    ensures forall i :: 0 <= i < |records| ==>
      UpdateLoop(records, cond, assignments).value.0[i] == Rewritten(records[i], cond, assignments)
    ensures UpdateLoop(records, cond, assignments).value.1 == |Filter(records, Satisfies(cond))|
    decreases |records|
  {
    if records != [] {
      var s', r := records[..|records| - 1], records[|records| - 1];
      var hit := Test(cond, r).value;
      UpdateLoopRows(s', cond, assignments);
      var rows' := UpdateLoop(s', cond, assignments).value.0;
      var rows := UpdateLoop(records, cond, assignments).value.0;
      assert rows == rows' + [Rewritten(r, cond, assignments)];
      RewrittenStep(records, cond, assignments, rows', rows);
    }
  }

  /** Rewriting all but the last record and then the last one rewrites every record. */
  lemma RewrittenStep(records: seq<Record>, cond: Option<Condition>, assignments: seq<(string, Literal)>,
                      rows': seq<Record>, rows: seq<Record>)
    requires PlainWhere(cond) && records != [] && rows == rows' + [Rewritten(records[|records| - 1], cond, assignments)]
    requires |rows'| == |records| - 1
    requires forall i :: 0 <= i < |rows'| ==> rows'[i] == Rewritten(records[i], cond, assignments)
    ensures |rows| == |records| && forall i :: 0 <= i < |records| ==> rows[i] == Rewritten(records[i], cond, assignments)
  {
  }

  /**
   * The loop raises exactly when some WHERE test raises; otherwise it keeps
   * the row count, rewrites exactly the rows that satisfy WHERE, leaves the
   * others as they were, and counts the rows a SELECT with the same WHERE keeps.
   */
  lemma UpdateLoopFacts(records: seq<Record>, cond: Option<Condition>, assignments: seq<(string, Literal)>)
    requires PlainWhere(cond)
    ensures UpdateLoop(records, cond, assignments).Ok? <==> forall i :: 0 <= i < |records| ==> Test(cond, records[i]).Ok?
    ensures UpdateLoop(records, cond, assignments).Ok? ==>
      var (rows, n) := UpdateLoop(records, cond, assignments).value;
      |rows| == |records|
      && (forall i :: 0 <= i < |records| ==>
            rows[i] == if Satisfies(cond)(records[i]) then Assign(records[i], assignments) else records[i])
      && n == |Filter(records, Satisfies(cond))|
  {
    UpdateLoopOk(records, cond, assignments);
    if UpdateLoop(records, cond, assignments).Ok? {
      UpdateLoopRows(records, cond, assignments);
    }
  }

  /** The count UPDATE reports is the number of rows the same WHERE selects. */
  lemma UpdateCountIsWhere(records: seq<Record>, cond: Option<Condition>, assignments: seq<(string, Literal)>)
    requires PlainWhere(cond) && UpdateLoop(records, cond, assignments).Ok?
    ensures Select.Where(records, cond).Ok?
    ensures UpdateLoop(records, cond, assignments).value.1 == |Select.Where(records, cond).value|
  {
    UpdateLoopFacts(records, cond, assignments);
    Select.WhereKeeps(records, cond);
  }

  /**
   * executor.py:213-242 without the file access: a missing table is
   * reported; a raising WHERE leaves the file alone; an empty file has no
   * header for the writer, which raises TypeError; otherwise the rows are
   * written back until one holds a column the header lacks.
   */
  function UpdateOf(existing: Option<Table>, table: string, assignments: seq<(string, Literal)>, cond: Option<Condition>)
    : (e: Effect)
    requires PlainWhere(cond)
    // a reported count: every row is kept, under the same header, and the count is the rows WHERE selects
    ensures e.report.Ok? ==>
      existing.Some? && e.stored.Some? && e.stored.value.header == existing.value.header
      && |e.stored.value.records| == |existing.value.records|
      && e.report.value == |Filter(existing.value.records, Satisfies(cond))|
    // a ValueError from the writer leaves the file with fewer rows than it had
    ensures e.report == Err(ValueError) ==>
      existing.Some? && e.stored.Some? && |e.stored.value.records| < |existing.value.records|
    // any other error leaves the table as it was
    ensures e.report.Err? && e.report.error != ValueError ==> e.stored == existing
  {
    if existing.None? then Effect(None, Err(TableNotFound(table)))
    else
      var t := existing.value;
      UpdateLoopFacts(t.records, cond, assignments);
      UpdateLoopRaisesTypeError(t.records, cond, assignments);
      match UpdateLoop(t.records, cond, assignments)
      case Err(e) => Effect(existing, Err(e))
      case Ok((rows, n)) =>
        if t.header == [] then Effect(existing, Err(TypeError))
        else
          var (written, ok) := WriteRows(t.header, rows);
          Effect(Some(Table(t.header, written)), if ok then Ok(n) else Err(ValueError))
  }

  /** `c` is assigned by some SET entry. */
  predicate AssignsTo(assignments: seq<(string, Literal)>, c: string)
  {
    exists i :: 0 <= i < |assignments| && assignments[i].0 == c
  }

  /** Every SET entry names a column of the header. */
  predicate AssignsKnown(header: seq<string>, assignments: seq<(string, Literal)>)
  {
    forall i :: 0 <= i < |assignments| ==> assignments[i].0 in header
  }

  /** Assigning only header columns keeps a record keyed by the header. */
  lemma AssignKeys(r: Record, header: seq<string>, assignments: seq<(string, Literal)>)
    requires Assoc.Keys(r) == header && AssignsKnown(header, assignments)
    ensures Assoc.Keys(Assign(r, assignments)) == header
  {
    AssignKeysFrom(r, AsText(assignments));
  }

  lemma {:induction false} AssignKeysFrom(r: Record, pairs: seq<(string, string)>)
    requires forall i :: 0 <= i < |pairs| ==> pairs[i].0 in Assoc.Keys(r)
    ensures Assoc.Keys(Assoc.PutAll(r, pairs)) == Assoc.Keys(r)
    decreases |pairs|
  {
    if pairs != [] {
      var p := pairs[|pairs| - 1];
      AssignKeysFrom(r, pairs[..|pairs| - 1]);
      Assoc.PutKeys(Assoc.PutAll(r, pairs[..|pairs| - 1]), p.0, p.1);
    }
  }

  /**
   * On a well-formed table whose SET names only header columns and whose
   * WHERE never raises, UPDATE keeps every row, rewrites exactly the rows
   * that satisfy WHERE, reports how many, and keeps the table well-formed.
   */
  lemma UpdateKnownColumns(t: Table, table: string, assignments: seq<(string, Literal)>, cond: Option<Condition>)
    requires WellFormedTable(t) && t.header != [] && AssignsKnown(t.header, assignments) && PlainWhere(cond)
    requires forall i :: 0 <= i < |t.records| ==> Test(cond, t.records[i]).Ok?
    ensures var e := UpdateOf(Some(t), table, assignments, cond);
      e.stored.Some? && e.stored.value.header == t.header
      && |e.stored.value.records| == |t.records|
      && (forall i :: 0 <= i < |t.records| ==>
            e.stored.value.records[i] ==
              (if Satisfies(cond)(t.records[i]) then Assign(t.records[i], assignments) else t.records[i]))
      && e.report == Ok(|Filter(t.records, Satisfies(cond))|)
      && WellFormedTable(e.stored.value)
  {
    UpdateLoopFacts(t.records, cond, assignments);
    var (rows, n) := UpdateLoop(t.records, cond, assignments).value;
    forall i | 0 <= i < |rows| ensures Fits(t.header, rows[i]) && Assoc.Keys(rows[i]) == t.header {
      if Satisfies(cond)(t.records[i]) {
        AssignKeys(t.records[i], t.header, assignments);
      }
      forall j | 0 <= j < |rows[i]| ensures rows[i][j].0 in t.header {
        assert rows[i][j].0 == Assoc.Keys(rows[i])[j];
      }
    }
  }

  // ---------------------------------------------------------------------
  // DELETE.

  /** `[linha for linha in linhas if condicao is None or not verifica_condicao(linha, condicao)]`. */
  function KeepLoop(records: seq<Record>, cond: Option<Condition>): (r: Result<seq<Record>, ExecError>)
    requires PlainWhere(cond)
    ensures r.Ok? ==> |r.value| <= |records|
    decreases |records|
  {
    if records == [] then Ok([])
    else
      var r := records[|records| - 1];
      var kept :- KeepLoop(records[..|records| - 1], cond);
      var hit :- Test(cond, r);
      Ok(kept + (if cond.None? || !hit then [r] else []))
  }

  /** The rows DELETE keeps: every row without WHERE, else those that fail it. */
  function Survives(cond: Option<Condition>): Record -> bool
    requires PlainWhere(cond)
  {
    r => cond.None? || Test(cond, r) != Ok(true)
  }

  /**
   * The comprehension raises exactly when some WHERE test raises; otherwise
   * it keeps, in order, the rows that do not satisfy WHERE, and every row
   * when there is no WHERE.
   */
  lemma {:induction false} KeepLoopFacts(records: seq<Record>, cond: Option<Condition>)
    requires PlainWhere(cond)
    ensures KeepLoop(records, cond).Ok? <==> forall i :: 0 <= i < |records| ==> Test(cond, records[i]).Ok?
    ensures KeepLoop(records, cond).Ok? ==> KeepLoop(records, cond).value == Filter(records, Survives(cond))
    decreases |records|
  {
    if records != [] {
      var s' := records[..|records| - 1];
      KeepLoopFacts(s', cond);
      assert forall i :: 0 <= i < |s'| ==> s'[i] == records[i];
    }
  }

  /**
   * executor.py:244-270 without the file access: the rows kept are written
   * back and the report is `len(linhas) - len(linhas_filtradas)`.
   */
  function DeleteOf(existing: Option<Table>, table: string, cond: Option<Condition>): (e: Effect)
    requires PlainWhere(cond)
    // a reported count: the rows DELETE spares are stored, and the count is the rows it removed
    ensures e.report.Ok? ==>
      existing.Some?
      && e.stored == Some(Table(existing.value.header, Filter(existing.value.records, Survives(cond))))
      && e.report.value + |Filter(existing.value.records, Survives(cond))| == |existing.value.records|
    // an error leaves the table as it was
    ensures e.report.Err? ==> e.stored == existing
  {
    if existing.None? then Effect(None, Err(TableNotFound(table)))
    else
      var t := existing.value;
      KeepLoopFacts(t.records, cond);
      match KeepLoop(t.records, cond)
      case Err(e) => Effect(existing, Err(e))
      case Ok(kept) =>
        if t.header == [] then Effect(existing, Err(TypeError))
        else Effect(Some(Table(t.header, kept)), Ok(|t.records| - |kept|))
  }

  /** A filter and its complement split a sequence. */
  lemma {:induction false} FilterSplit<T>(s: seq<T>, p: T -> bool, q: T -> bool)
    requires forall x :: x in s ==> (q(x) <==> !p(x))
    ensures |Filter(s, p)| + |Filter(s, q)| == |s|
    decreases |s|
  {
    if s != [] {
      FilterSplit(s[..|s| - 1], p, q);
    }
  }

  /**
   * With a WHERE clause that never raises, DELETE keeps exactly the rows that
   * do not satisfy it, in order, and reports as removed the number of rows a
   * SELECT with the same WHERE returns.
   */
  lemma DeleteWhere(t: Table, table: string, c: Condition)
    requires t.header != [] && PlainPatterns(c)
    requires forall i :: 0 <= i < |t.records| ==> Test(Some(c), t.records[i]).Ok?
    ensures var e := DeleteOf(Some(t), table, Some(c));
      e.stored == Some(Table(t.header, Filter(t.records, Survives(Some(c)))))
      && Select.Where(t.records, Some(c)).Ok?
      && e.report == Ok(|Select.Where(t.records, Some(c)).value|)
  {
    KeepLoopFacts(t.records, Some(c));
    Select.WhereKeeps(t.records, Some(c));
    FilterSplit(t.records, Satisfies(Some(c)), Survives(Some(c)));
  }

  /** After a DELETE with WHERE that reports a count, no stored record satisfies that WHERE. */
  lemma DeleteLeavesNoMatch(t: Table, table: string, c: Condition)
    requires PlainPatterns(c) && DeleteOf(Some(t), table, Some(c)).report.Ok?
    ensures var e := DeleteOf(Some(t), table, Some(c));
      e.stored.Some? && forall i :: 0 <= i < |e.stored.value.records| ==> Test(Some(c), e.stored.value.records[i]) == Ok(false)
  {
    assert KeepLoop(t.records, Some(c)).Ok?;
    KeepLoopFacts(t.records, Some(c));
    var kept := Filter(t.records, Survives(Some(c)));
    forall i | 0 <= i < |kept| ensures Test(Some(c), kept[i]) == Ok(false) {
      assert kept[i] in t.records && Survives(Some(c))(kept[i]);
      assert Test(Some(c), kept[i]) != Ok(true);
      var j :| 0 <= j < |t.records| && t.records[j] == kept[i];
      assert Test(Some(c), t.records[j]).Ok?;
      var v := Test(Some(c), kept[i]);
      assert v.Ok? && v.value != true;
      assert v == Ok(v.value);
    }
  }

  /** DELETE keeps a well-formed table well-formed. */
  lemma DeleteWellFormed(t: Table, table: string, cond: Option<Condition>)
    requires WellFormedTable(t) && PlainWhere(cond)
    ensures var e := DeleteOf(Some(t), table, cond); e.stored.Some? && WellFormedTable(e.stored.value)
  {
    KeepLoopFacts(t.records, cond);
    if KeepLoop(t.records, cond).Ok? && t.header != [] {
      var kept := KeepLoop(t.records, cond).value;
      forall k | 0 <= k < |kept| ensures Assoc.Keys(kept[k]) == t.header {
        assert kept[k] in Filter(t.records, Survives(cond));
        var i :| 0 <= i < |t.records| && t.records[i] == kept[k];
      }
    }
  }

  // ---------------------------------------------------------------------
  // Two discrepancies between what the code does and what it evidently means.

  /**
   * As written, DELETE without WHERE removes nothing: the comprehension keeps
   * a row when `condicao is None`.
   */
  lemma DeleteWithoutWhereKeepsAll(t: Table, table: string)
    requires t.header != []
    ensures DeleteOf(Some(t), table, None) == Effect(Some(t), Ok(0))
  {
    KeepLoopFacts(t.records, None);
    FilterAll(t.records, Survives(None));
  }

  /** The rows an unconditional or conditional DELETE is meant to remove: all of them without WHERE. */
  function Doomed(cond: Option<Condition>): Record -> bool
    requires PlainWhere(cond)
  {
    r => cond.None? || Test(cond, r) == Ok(true)
  }

  /** DELETE as intended: without WHERE every row goes; with WHERE the matching rows go. */
  function DeleteIntended(existing: Option<Table>, table: string, cond: Option<Condition>): Effect
    requires PlainWhere(cond)
  {
    if cond.None? then
      if existing.None? then Effect(None, Err(TableNotFound(table)))
      else if existing.value.header == [] then Effect(existing, Err(TypeError))
      else Effect(Some(Table(existing.value.header, [])), Ok(|existing.value.records|))
    else DeleteOf(existing, table, cond)
  }

  /**
   * The intended DELETE removes exactly the rows its WHERE selects (all of
   * them without WHERE), keeps the rest in order, and reports how many went.
   */
  lemma DeleteIntendedRemoves(t: Table, table: string, cond: Option<Condition>)
    requires t.header != [] && PlainWhere(cond)
    requires forall i :: 0 <= i < |t.records| ==> Test(cond, t.records[i]).Ok?
    ensures var e := DeleteIntended(Some(t), table, cond);
      var kept := Filter(t.records, r => !Doomed(cond)(r));
      e.stored == Some(Table(t.header, kept))
      && e.report == Ok(|Filter(t.records, Doomed(cond))|)
      && |kept| + |Filter(t.records, Doomed(cond))| == |t.records|
  {
    var notDoomed := (r: Record) => !Doomed(cond)(r);
    FilterSplit(t.records, Doomed(cond), notDoomed);
    if cond.None? {
      FilterNone(t.records, notDoomed);
      FilterAll(t.records, Doomed(cond));
    } else {
      KeepLoopFacts(t.records, cond);
      FilterExt(t.records, Survives(cond), notDoomed);
    }
  }

  /**
   * As written, an UPDATE whose SET names a column the header lacks rewrites
   * the file with only the rows before the first matching one: here a
   * one-row table loses its row.
   */
  lemma UpdateUnknownColumnLosesRows()
    ensures var t := Table(["id"], [[("id", "1")]]);
      UpdateOf(Some(t), "t", [("missing", Text("x"))], None) == Effect(Some(Table(["id"], [])), Err(ValueError))
  {
    var t := Table(["id"], [[("id", "1")]]);
    var a := [("missing", Text("x"))];
    var r := t.records[0];
    assert AsText(a) == [("missing", "x")];
    assert Assign(r, a) == [("id", "1"), ("missing", "x")];
    assert t.records[..|t.records| - 1] == [];
    assert UpdateLoop([], None, a) == Ok(([], 0));
    assert Test(None, r) == Ok(true);
    assert [] + [Assign(r, a)] == [Assign(r, a)];
    assert UpdateLoop(t.records, None, a) == Ok(([Assign(r, a)], 1));
    assert !Fits(["id"], Assign(r, a)) by {
      assert Assign(r, a)[1].0 == "missing";
    }
  }

  /** The first SET column the header lacks. */
  function FirstUnknown(header: seq<string>, assignments: seq<(string, Literal)>): (c: string)
    requires !AssignsKnown(header, assignments)
    ensures c !in header && AssignsTo(assignments, c)
    decreases |assignments|
  {
    if assignments[0].0 !in header then assignments[0].0
    else
      assert !AssignsKnown(header, assignments[1..]) by {
        var i :| 0 <= i < |assignments| && assignments[i].0 !in header;
        assert assignments[1..][i - 1] == assignments[i];
      }
      var c := FirstUnknown(header, assignments[1..]);
      var i :| 0 <= i < |assignments[1..]| && assignments[1..][i].0 == c;
      assert assignments[i + 1].0 == c;
      c
  }

  /** A record given a SET column the header lacks no longer fits the header, so the writer refuses it. */
  lemma UnknownAssignmentMisfits(header: seq<string>, r: Record, assignments: seq<(string, Literal)>)
    requires !AssignsKnown(header, assignments)
    ensures !Fits(header, Assign(r, assignments))
  {
    var c := FirstUnknown(header, assignments);
    var i :| 0 <= i < |assignments| && assignments[i].0 == c;
    assert AsText(assignments)[i].0 == c;
    Assoc.LastLookupPresent(AsText(assignments), c, i);
    AssignLookup(r, assignments, c);
    Assoc.LookupKeys(Assign(r, assignments), c);
    var j :| 0 <= j < |Assoc.Keys(Assign(r, assignments))| && Assoc.Keys(Assign(r, assignments))[j] == c;
    assert Assign(r, assignments)[j].0 == c;
  }

  /**
   * As written, an UPDATE whose SET names a column the header lacks, where
   * WHERE raises on no record and selects record `i`, makes the writer raise
   * ValueError and leaves at most the `i` rows before that record.
   */
  lemma UnknownColumnTruncates(t: Table, table: string, assignments: seq<(string, Literal)>, cond: Option<Condition>, i: nat)
    requires PlainWhere(cond) && t.header != [] && !AssignsKnown(t.header, assignments)
    requires forall k :: 0 <= k < |t.records| ==> Test(cond, t.records[k]).Ok?
    requires i < |t.records| && Satisfies(cond)(t.records[i])
    ensures var e := UpdateOf(Some(t), table, assignments, cond);
      e.report == Err(ValueError) && e.stored.Some? && |e.stored.value.records| <= i
  {
    UpdateLoopFacts(t.records, cond, assignments);
    var rows := UpdateLoop(t.records, cond, assignments).value.0;
    UnknownAssignmentMisfits(t.header, t.records[i], assignments);
    assert !Fits(t.header, rows[i]);
  }

  /**
   * UPDATE as intended: a SET column missing from the header is reported
   * before anything is written.
   */
  function UpdateChecked(existing: Option<Table>, table: string, assignments: seq<(string, Literal)>, cond: Option<Condition>): Effect
    requires PlainWhere(cond)
  {
    if existing.Some? && existing.value.header != [] && !AssignsKnown(existing.value.header, assignments) then
      Effect(existing, Err(KeyError(FirstUnknown(existing.value.header, assignments))))
    else UpdateOf(existing, table, assignments, cond)
  }

  /**
   * The checked UPDATE never loses a row of a well-formed table: it either
   * leaves the table as it was, or keeps every row and reports a count.
   */
  lemma UpdateCheckedSafe(t: Table, table: string, assignments: seq<(string, Literal)>, cond: Option<Condition>)
    requires WellFormedTable(t) && PlainWhere(cond)
    ensures var e := UpdateChecked(Some(t), table, assignments, cond);
      e.stored == Some(t) || (e.report.Ok? && e.stored.Some? && |e.stored.value.records| == |t.records|)
  {
    if t.header != [] && AssignsKnown(t.header, assignments) && UpdateLoop(t.records, cond, assignments).Ok? {
      UpdateLoopFacts(t.records, cond, assignments);
      UpdateKnownColumns(t, table, assignments, cond);
    }
  }
}
