/**
 * `ordenar_resultado`: ORDER BY as one stable sort per key, applied from the
 * last declared key to the first, each on the raw cell values and reversed
 * for DESC.
 */
module Ordering {
  import opened Wrappers
  import opened Strings
  import opened Ast
  import opened Values
  import opened Seqs
  import Assoc

  // ---------------------------------------------------------------------
  // One key.

  /**
   * A sort key as Python compares it: text, or a number. An int and a float
   * of the same value are one key, since `1 == 1.0`.
   */
  datatype SortKey = TextKey(s: string) | NumKey(r: real)

  /**
   * The sort key `x[column]`. A missing or None key gets a placeholder: a sort
   * that would compare it raises instead (see `Unsortable`).
   */
  function Key(row: Row, column: string): SortKey
  {
    var v: Option<Value> := Assoc.Lookup(row, column);
    if v.None? then TextKey("")
    else match v.value
      case Str(s) => TextKey(s)
      case IntVal(i) => NumKey(i as real)
      case FloatVal(r) => NumKey(r)
      case Null => TextKey("")
  }

  /**
   * `<` on keys: strings in string order, numbers by value. Text is put before
   * numbers only to make the order total; a sort that would compare the two
   * raises TypeError instead, so no successful sort relies on it.
   */
  predicate KeyLt(a: SortKey, b: SortKey)
  {
    match (a, b)
    case (TextKey(x), TextKey(y)) => StrLt(x, y)
    case (NumKey(x), NumKey(y)) => x < y
    case (TextKey(_), NumKey(_)) => true
    case (NumKey(_), TextKey(_)) => false
  }

  /** `a` goes strictly before `b`: ascending key order, or its reverse for DESC. */
  predicate Before(desc: bool, a: SortKey, b: SortKey)
  {
    if desc then KeyLt(b, a) else KeyLt(a, b)
  }

  lemma KeyLtIrreflexive(a: SortKey)
    ensures !KeyLt(a, a)
  {
    if a.TextKey? { StrLtIrreflexive(a.s); }
  }

  lemma KeyLtTransitive(a: SortKey, b: SortKey, c: SortKey)
    requires KeyLt(a, b) && KeyLt(b, c)
    ensures KeyLt(a, c)
  {
    if a.TextKey? && b.TextKey? && c.TextKey? { StrLtTransitive(a.s, b.s, c.s); }
  }

  lemma KeyLtTotal(a: SortKey, b: SortKey)
    ensures a == b || KeyLt(a, b) || KeyLt(b, a)
  {
    if a.TextKey? && b.TextKey? { StrLtTotal(a.s, b.s); }
  }

  lemma BeforeIrreflexive(desc: bool, a: SortKey)
    ensures !Before(desc, a, a)
  {
    KeyLtIrreflexive(a);
  }

  lemma BeforeTransitive(desc: bool, a: SortKey, b: SortKey, c: SortKey)
    requires Before(desc, a, b) && Before(desc, b, c)
    ensures Before(desc, a, c)
  {
    if desc { KeyLtTransitive(c, b, a); } else { KeyLtTransitive(a, b, c); }
  }

  lemma BeforeTotal(desc: bool, a: SortKey, b: SortKey)
    ensures a == b || Before(desc, a, b) || Before(desc, b, a)
  {
    KeyLtTotal(a, b);
  }

  /** No key comes strictly before an earlier one. */
  predicate SortedBy(s: seq<Row>, column: string, desc: bool)
  {
    forall i, j :: 0 <= i < j < |s| ==> !Before(desc, Key(s[j], column), Key(s[i], column))
  }

  /** `x` placed after every row it does not go strictly before. */
  function Insert(sorted: seq<Row>, x: Row, column: string, desc: bool): seq<Row>
    decreases |sorted|
  {
    if sorted == [] then [x]
    else if Before(desc, Key(x, column), Key(sorted[0], column)) then [x] + sorted
    else [sorted[0]] + Insert(sorted[1..], x, column, desc)
  }

  /** `list.sort(key=lambda x: x[column], reverse=desc)`, as a stable insertion sort. */
  function SortBy(s: seq<Row>, column: string, desc: bool): seq<Row>
    decreases |s|
  {
    if s == [] then [] else Insert(SortBy(s[..|s| - 1], column, desc), s[|s| - 1], column, desc)
  }

  /** Where `Insert` puts `x`: after the rows it does not precede, before the rest. */
  lemma {:induction false} InsertSplit(sorted: seq<Row>, x: Row, column: string, desc: bool) returns (m: nat)
    ensures m <= |sorted| && Insert(sorted, x, column, desc) == sorted[..m] + [x] + sorted[m..]
    ensures forall j :: 0 <= j < m ==> !Before(desc, Key(x, column), Key(sorted[j], column))
    ensures m < |sorted| ==> Before(desc, Key(x, column), Key(sorted[m], column))
    decreases |sorted|
  {
    if sorted == [] {
      m := 0;
    } else if Before(desc, Key(x, column), Key(sorted[0], column)) {
      m := 0;
    } else {
      var m' := InsertSplit(sorted[1..], x, column, desc);
      m := m' + 1;
      assert sorted[..m] == [sorted[0]] + sorted[1..][..m'];
      assert sorted[m..] == sorted[1..][m'..];
    }
  }

  /** In a sorted sequence, every row from the insertion point on comes strictly after `x`. */
  lemma AfterInsertionPoint(sorted: seq<Row>, x: Row, column: string, desc: bool, m: nat)
    requires SortedBy(sorted, column, desc) && m < |sorted|
    requires Before(desc, Key(x, column), Key(sorted[m], column))
    ensures forall j :: m <= j < |sorted| ==> Before(desc, Key(x, column), Key(sorted[j], column))
  {
    forall j | m < j < |sorted| ensures Before(desc, Key(x, column), Key(sorted[j], column)) {
      var a, b, c := Key(x, column), Key(sorted[m], column), Key(sorted[j], column);
      BeforeTotal(desc, b, c);
      if Before(desc, b, c) { BeforeTransitive(desc, a, b, c); }
    }
  }

  lemma InsertSorted(sorted: seq<Row>, x: Row, column: string, desc: bool)
    requires SortedBy(sorted, column, desc)
    ensures SortedBy(Insert(sorted, x, column, desc), column, desc)
  {
    var m := InsertSplit(sorted, x, column, desc);
    var r := Insert(sorted, x, column, desc);
    if m < |sorted| { AfterInsertionPoint(sorted, x, column, desc, m); }
    forall i, j | 0 <= i < j < |r| ensures !Before(desc, Key(r[j], column), Key(r[i], column)) {
      InsertedAt(sorted, x, m, r, i);
      InsertedAt(sorted, x, m, r, j);
      if i == m {
        var ki, kj := Key(x, column), Key(sorted[j - 1], column);
        BeforeTotal(desc, ki, kj);
        if ki == kj { BeforeIrreflexive(desc, ki); } else if Before(desc, kj, ki) { BeforeTransitive(desc, ki, kj, ki); BeforeIrreflexive(desc, ki); }
      }
    }
  }

  /** The row at `k` once `x` is placed at `m`. */
  lemma InsertedAt(sorted: seq<Row>, x: Row, m: nat, r: seq<Row>, k: nat)
    requires m <= |sorted| && r == sorted[..m] + [x] + sorted[m..] && k < |r|
    ensures r[k] == if k < m then sorted[k] else if k == m then x else sorted[k - 1]
  {
  }

  lemma {:induction false} SortBySorted(s: seq<Row>, column: string, desc: bool)
    ensures SortedBy(SortBy(s, column, desc), column, desc)
    decreases |s|
  {
    if s != [] {
      SortBySorted(s[..|s| - 1], column, desc);
      InsertSorted(SortBy(s[..|s| - 1], column, desc), s[|s| - 1], column, desc);
    }
  }

  lemma {:induction false} InsertPermutes(sorted: seq<Row>, x: Row, column: string, desc: bool)
    ensures multiset(Insert(sorted, x, column, desc)) == multiset(sorted) + multiset{x}
    decreases |sorted|
  {
    if sorted != [] {
      assert sorted == [sorted[0]] + sorted[1..];
      if !Before(desc, Key(x, column), Key(sorted[0], column)) {
        InsertPermutes(sorted[1..], x, column, desc);
      }
    }
  }

  lemma {:induction false} SortByPermutes(s: seq<Row>, column: string, desc: bool)
    ensures multiset(SortBy(s, column, desc)) == multiset(s)
    decreases |s|
  {
    if s != [] {
      var s', x := s[..|s| - 1], s[|s| - 1];
      SortByPermutes(s', column, desc);
      InsertPermutes(SortBy(s', column, desc), x, column, desc);
      assert SortBy(s, column, desc) == Insert(SortBy(s', column, desc), x, column, desc);
      LastMultiset(s);
    }
  }

  /** The test "the key under `column` is `k`". */
  function HasKey(column: string, k: SortKey): Row -> bool
  {
    x => Key(x, column) == k
  }

  /** The rows whose key under `column` is `k`, in order. */
  function KeyFilter(s: seq<Row>, column: string, k: SortKey): seq<Row>
  {
    Filter(s, HasKey(column, k))
  }

  /** Inserting into a sorted sequence puts `x` last among the rows with its key. */
  lemma InsertKeyFilter(sorted: seq<Row>, x: Row, column: string, desc: bool, k: SortKey)
    requires SortedBy(sorted, column, desc)
    ensures KeyFilter(Insert(sorted, x, column, desc), column, k) ==
      KeyFilter(sorted, column, k) + (if Key(x, column) == k then [x] else [])
  {
    var m := InsertSplit(sorted, x, column, desc);
    if Key(x, column) == k {
      InsertOwnKey(sorted, m, x, column, desc);
    } else {
      KeyFilterAround(sorted, m, x, column, k);
    }
  }

  /** `x` is the last row with its own key once inserted at `m`. */
  lemma InsertOwnKey(sorted: seq<Row>, m: nat, x: Row, column: string, desc: bool)
    requires SortedBy(sorted, column, desc) && m <= |sorted|
    requires m < |sorted| ==> Before(desc, Key(x, column), Key(sorted[m], column))
    ensures var k := Key(x, column);
      KeyFilter(sorted[..m] + [x] + sorted[m..], column, k) == KeyFilter(sorted, column, k) + [x]
  {
    var k := Key(x, column);
    KeyFilterAround(sorted, m, x, column, k);
    AfterKeyDiffers(sorted, x, column, desc, m);
    FilterNone(sorted[m..], HasKey(column, k));
  }

  /** Filtering by key a sequence with `x` inserted at position `m`. */
  lemma KeyFilterAround(sorted: seq<Row>, m: nat, x: Row, column: string, k: SortKey)
    requires m <= |sorted|
    ensures KeyFilter(sorted[..m] + [x] + sorted[m..], column, k) ==
      KeyFilter(sorted[..m], column, k) + (if Key(x, column) == k then [x] else []) + KeyFilter(sorted[m..], column, k)
    ensures KeyFilter(sorted, column, k) == KeyFilter(sorted[..m], column, k) + KeyFilter(sorted[m..], column, k)
  {
    var p := HasKey(column, k);
    assert sorted == sorted[..m] + sorted[m..];
    FilterAround(sorted[..m], x, sorted[m..], p);
    FilterAppend(sorted[..m], sorted[m..], p);
  }

  /** Filtering around one element. */
  lemma FilterAround<T>(lo: seq<T>, x: T, hi: seq<T>, p: T -> bool)
    ensures Filter(lo + [x] + hi, p) == Filter(lo, p) + (if p(x) then [x] else []) + Filter(hi, p)
  {
    FilterAppend(lo + [x], hi, p);
    FilterAppend(lo, [x], p);
    assert [x][..0] == [];
  }

  /** The rows after the insertion point have keys other than `x`'s. */
  lemma AfterKeyDiffers(sorted: seq<Row>, x: Row, column: string, desc: bool, m: nat)
    requires SortedBy(sorted, column, desc) && m <= |sorted|
    requires m < |sorted| ==> Before(desc, Key(x, column), Key(sorted[m], column))
    ensures forall y :: y in sorted[m..] ==> !HasKey(column, Key(x, column))(y)
  {
    if m < |sorted| { AfterInsertionPoint(sorted, x, column, desc, m); }
    forall y | y in sorted[m..] ensures !HasKey(column, Key(x, column))(y) {
      var j :| m <= j < |sorted| && sorted[j] == y;
      BeforeIrreflexive(desc, Key(x, column));
    }
  }

  /** The sort is stable: the rows sharing any one key keep their relative order. */
  lemma {:induction false} SortByStable(s: seq<Row>, column: string, desc: bool, k: SortKey)
    ensures KeyFilter(SortBy(s, column, desc), column, k) == KeyFilter(s, column, k)
    decreases |s|
  {
    if s != [] {
      var s', x := s[..|s| - 1], s[|s| - 1];
      SortByStable(s', column, desc, k);
      SortBySorted(s', column, desc);
      InsertKeyFilter(SortBy(s', column, desc), x, column, desc, k);
    }
  }

  // ---------------------------------------------------------------------
  // Several keys.

  /** `reverse=(direcao == 'DESC')`. */
  predicate IsDesc(o: OrderItem)
  {
    o.direction == "DESC"
  }

  /** `a` may come before `b`: the first key on which they differ puts `a` first. */
  predicate InOrder(items: seq<OrderItem>, a: Row, b: Row)
    decreases |items|
  {
    if items == [] then true
    else
      var ka, kb := Key(a, items[0].column), Key(b, items[0].column);
      if ka == kb then InOrder(items[1..], a, b) else Before(IsDesc(items[0]), ka, kb)
  }

  /** The keys of a row, in declared order. */
  function KeyTuple(row: Row, items: seq<OrderItem>): (t: seq<SortKey>)
    ensures |t| == |items|
    decreases |items|
  {
    if items == [] then [] else [Key(row, items[0].column)] + KeyTuple(row, items[1..])
  }

  /** The test "the key tuple is `t`". */
  function HasTuple(items: seq<OrderItem>, t: seq<SortKey>): Row -> bool
  {
    x => KeyTuple(x, items) == t
  }

  /** The rows whose whole key tuple is `t`, in order. */
  function TupleFilter(s: seq<Row>, items: seq<OrderItem>, t: seq<SortKey>): seq<Row>
  {
    Filter(s, HasTuple(items, t))
  }

  function InOrderRel(items: seq<OrderItem>): (Row, Row) -> bool
  {
    (a, b) => InOrder(items, a, b)
  }

  /** Ordered by the keys in priority order, each in its direction. */
  ghost predicate LexSorted(s: seq<Row>, items: seq<OrderItem>)
  {
    Pairwise(s, InOrderRel(items))
  }

  /** Rows with equal key tuples keep the relative order they had in `original`. */
  ghost predicate StableAgainst(s: seq<Row>, original: seq<Row>, items: seq<OrderItem>)
  {
    forall t :: TupleFilter(s, items, t) == TupleFilter(original, items, t)
  }

  /** The empty key list puts every row in order and every row in one class. */
  lemma NoKeys(s: seq<Row>, original: seq<Row>)
    ensures LexSorted(s, [])
    ensures StableAgainst(s, s, [])
  {
  }

  /**
   * Stably sorting a sequence ordered by `tail` on one more key orders it by
   * that key first and `tail` after it, and keeps equal tuples in order.
   */
  lemma SortStepSorted(prev: seq<Row>, head: OrderItem, tail: seq<OrderItem>)
    requires LexSorted(prev, tail)
    ensures LexSorted(SortBy(prev, head.column, IsDesc(head)), [head] + tail)
  {
    var col, desc := head.column, IsDesc(head);
    var out := SortBy(prev, col, desc);
    var items := [head] + tail;
    assert items[1..] == tail;
    SortBySorted(prev, col, desc);
    forall i, j | 0 <= i < j < |out| ensures InOrder(items, out[i], out[j]) {
      var ki, kj := Key(out[i], col), Key(out[j], col);
      if ki == kj {
        var p := HasKey(col, ki);
        FilterKeepsOrder(out, p, i, j);
        SortByStable(prev, col, desc, ki);
        FilterPairwise(prev, p, InOrderRel(tail));
      } else {
        BeforeTotal(desc, ki, kj);
      }
    }
  }

  /** A key tuple splits into its first key and the rest. */
  lemma TupleSplit(row: Row, head: OrderItem, tail: seq<OrderItem>, t: seq<SortKey>)
    ensures KeyTuple(row, [head] + tail) == t <==>
      |t| > 0 && Key(row, head.column) == t[0] && KeyTuple(row, tail) == t[1..]
  {
    assert ([head] + tail)[1..] == tail;
  }

  lemma SortStepStable(prev: seq<Row>, original: seq<Row>, head: OrderItem, tail: seq<OrderItem>)
    requires StableAgainst(prev, original, tail)
    ensures StableAgainst(SortBy(prev, head.column, IsDesc(head)), original, [head] + tail)
  {
    var col, desc := head.column, IsDesc(head);
    var out := SortBy(prev, col, desc);
    var items := [head] + tail;
    forall t ensures TupleFilter(out, items, t) == TupleFilter(original, items, t) {
      var whole := HasTuple(items, t);
      if |t| == 0 {
        FilterNone(out, whole);
        FilterNone(original, whole);
      } else {
        var first := HasKey(col, t[0]);
        var rest := HasTuple(tail, t[1..]);
        forall x ensures whole(x) <==> first(x) && rest(x) { TupleSplit(x, head, tail, t); }
        FilterFilter(out, first, rest, whole);
        SortByStable(prev, col, desc, t[0]);
        FilterFilter(prev, first, rest, whole);
        FilterFilter(prev, rest, first, whole);
        FilterFilter(original, rest, first, whole);
        assert TupleFilter(prev, tail, t[1..]) == TupleFilter(original, tail, t[1..]);
      }
    }
  }

  // ---------------------------------------------------------------------
  // `ordenar_resultado`.

  /** `x[column]` raises KeyError for some row. */
  predicate MissingKey(rows: seq<Row>, column: string)
  {
    exists i :: 0 <= i < |rows| && Assoc.Lookup(rows[i], column).None?
  }

  /** Some key under `column` is None, which `<` cannot compare with anything. */
  predicate NullKey(rows: seq<Row>, column: string)
  {
    exists i :: 0 <= i < |rows| && Assoc.Lookup(rows[i], column) == Some(Null)
  }

  /** Some key under `column` is a string. */
  predicate TextKeyed(rows: seq<Row>, column: string)
  {
    exists i :: 0 <= i < |rows| && Assoc.Lookup(rows[i], column).Some? && Assoc.Lookup(rows[i], column).value.Str?
  }

  /** Some key under `column` is an int or a float. */
  predicate NumberKeyed(rows: seq<Row>, column: string)
  {
    exists i :: 0 <= i < |rows| && Assoc.Lookup(rows[i], column).Some?
      && (Assoc.Lookup(rows[i], column).value.IntVal? || Assoc.Lookup(rows[i], column).value.FloatVal?)
  }

  /**
   * The keys cannot all be compared: one is None, or strings and numbers are
   * mixed. Among two or more rows a comparison sort must then compare such a
   * pair, since it has to compare every pair adjacent in its output.
   */
  predicate IncomparableKeys(rows: seq<Row>, column: string)
  {
    NullKey(rows, column) || (TextKeyed(rows, column) && NumberKeyed(rows, column))
  }

  /** Sorting on `column` raises: a key is missing, or two or more rows have keys that cannot be compared. */
  predicate Unsortable(rows: seq<Row>, column: string)
  {
    MissingKey(rows, column) || (|rows| >= 2 && IncomparableKeys(rows, column))
  }

  /** Rows that are a permutation of each other raise on the same keys. */
  lemma UnsortablePermutation(a: seq<Row>, b: seq<Row>, column: string)
    requires multiset(a) == multiset(b)
    ensures Unsortable(a, column) <==> Unsortable(b, column)
  {
    assert |a| == |multiset(a)| == |b|;
    SameKeysPermutation(a, b, column);
    SameKeysPermutation(b, a, column);
  }

  lemma SameKeysPermutation(a: seq<Row>, b: seq<Row>, column: string)
    requires multiset(a) == multiset(b)
    ensures MissingKey(a, column) ==> MissingKey(b, column)
    ensures IncomparableKeys(a, column) ==> IncomparableKeys(b, column)
  {
    if MissingKey(a, column) {
      var i :| 0 <= i < |a| && Assoc.Lookup(a[i], column).None?;
      var j := RowMoved(a, b, i);
    }
    if NullKey(a, column) {
      var i :| 0 <= i < |a| && Assoc.Lookup(a[i], column) == Some(Null);
      var j := RowMoved(a, b, i);
    }
    if TextKeyed(a, column) {
      var i :| 0 <= i < |a| && Assoc.Lookup(a[i], column).Some? && Assoc.Lookup(a[i], column).value.Str?;
      var j := RowMoved(a, b, i);
    }
    if NumberKeyed(a, column) {
      var i :| 0 <= i < |a| && Assoc.Lookup(a[i], column).Some?
        && (Assoc.Lookup(a[i], column).value.IntVal? || Assoc.Lookup(a[i], column).value.FloatVal?);
      var j := RowMoved(a, b, i);
    }
  }

  /** A row of `a` is also a row of its permutation `b`. */
  lemma RowMoved(a: seq<Row>, b: seq<Row>, i: nat) returns (j: nat)
    requires multiset(a) == multiset(b) && i < |a|
    ensures j < |b| && b[j] == a[i]
  {
    assert a[i] in multiset(b);
    j :| 0 <= j < |b| && b[j] == a[i];
  }

  /** One pass of the loop: `resultado.sort(key=lambda x: x[coluna], reverse=...)`. */
  function SortStep(rows: seq<Row>, item: OrderItem): Result<seq<Row>, ExecError>
  {
    if MissingKey(rows, item.column) then Err(KeyError(item.column))
    else if |rows| >= 2 && IncomparableKeys(rows, item.column) then Err(TypeError)
    else Ok(SortBy(rows, item.column, IsDesc(item)))
  }

  /**
   * Int and float keys sort among themselves without raising, by value, and
   * an int and a float of equal value keep their order.
   */
  lemma NumberKeysSort(rows: seq<Row>, item: OrderItem)
    requires forall i :: 0 <= i < |rows| ==>
      Assoc.Lookup(rows[i], item.column).Some?
      && (Assoc.Lookup(rows[i], item.column).value.IntVal? || Assoc.Lookup(rows[i], item.column).value.FloatVal?)
    ensures SortStep(rows, item).Ok?
    ensures SortStep(rows, item).value == SortBy(rows, item.column, IsDesc(item))
  {
  }

  /** A string key and a number key among the rows make the pass raise TypeError, unless a key is missing. */
  lemma MixedKeysRaise(rows: seq<Row>, item: OrderItem, i: nat, j: nat)
    requires i < |rows| && j < |rows| && !MissingKey(rows, item.column)
    requires Assoc.Lookup(rows[i], item.column).Some? && Assoc.Lookup(rows[i], item.column).value.Str?
    requires Assoc.Lookup(rows[j], item.column).Some? && Assoc.Lookup(rows[j], item.column).value.IntVal?
    ensures SortStep(rows, item) == Err(TypeError)
  {
  }

  /** The passes of `ordenar_resultado`, from the last key to the first; the first raise stops them. */
  function Ordered(rows: seq<Row>, items: seq<OrderItem>): Result<seq<Row>, ExecError>
    decreases |items|
  {
    if items == [] then Ok(rows)
    else
      var prev :- Ordered(rows, items[1..]);
      SortStep(prev, items[0])
  }

  /** The sort raises only KeyError, for a missing key, or TypeError, for keys that cannot be compared. */
  lemma {:induction false} OrderedErrors(rows: seq<Row>, items: seq<OrderItem>)
    ensures Ordered(rows, items).Err? ==> Ordered(rows, items).error.KeyError? || Ordered(rows, items).error == TypeError
    decreases |items|
  {
    if items != [] {
      OrderedErrors(rows, items[1..]);
    }
  }

  /** A pass that raises ends the whole sort with its error. */
  lemma {:induction false} OrderedRaises(rows: seq<Row>, items: seq<OrderItem>, j: nat)
    requires j <= |items| && Ordered(rows, items[j..]).Err?
    ensures Ordered(rows, items) == Ordered(rows, items[j..])
    decreases j
  {
    if j > 0 {
      assert items[j - 1..][1..] == items[j..];
      OrderedRaises(rows, items, j - 1);
    } else {
      assert items[0..] == items;
    }
  }

  /**
   * `ordenar_resultado(resultado, order_by)`: raises when some key cannot be
   * sorted on; otherwise returns the rows rearranged, ordered by the keys in
   * priority order and each key's direction, rows with equal keys in their
   * original order.
   */
  method OrderRows(rows: seq<Row>, items: seq<OrderItem>) returns (r: Result<seq<Row>, ExecError>)
    ensures r == Ordered(rows, items)
    ensures r.Err? <==> exists m :: 0 <= m < |items| && Unsortable(rows, items[m].column)
    ensures r.Ok? ==> multiset(r.value) == multiset(rows)
    ensures r.Ok? ==> LexSorted(r.value, items)
    ensures r.Ok? ==> StableAgainst(r.value, rows, items)
  {
    var result := rows;
    var j := |items|;
    assert items[j..] == [];
    NoKeys(rows, rows);
    while j > 0
      invariant 0 <= j <= |items|
      invariant multiset(result) == multiset(rows)
      invariant LexSorted(result, items[j..])
      invariant StableAgainst(result, rows, items[j..])
      invariant forall m :: j <= m < |items| ==> !Unsortable(rows, items[m].column)
      invariant Ordered(rows, items[j..]) == Ok(result)
    {
      j := j - 1;
      var column := items[j].column;
      UnsortablePermutation(result, rows, column);
      assert items[j..][1..] == items[j + 1..];
      if MissingKey(result, column) {
        OrderedRaises(rows, items, j);
        return Err(KeyError(column));
      }
      if |result| >= 2 && IncomparableKeys(result, column) {
        OrderedRaises(rows, items, j);
        return Err(TypeError);
      }
      assert items[j..] == [items[j]] + items[j + 1..];
      SortStepSorted(result, items[j], items[j + 1..]);
      SortStepStable(result, rows, items[j], items[j + 1..]);
      SortByPermutes(result, column, IsDesc(items[j]));
      result := SortBy(result, column, IsDesc(items[j]));
    }
    assert items[0..] == items;
    return Ok(result);
  }
}
