/**
 * The grammar of parser_sql.py, read as the recursive-descent parser it
 * amounts to. PLY resolves this grammar's shift/reduce conflicts by shifting,
 * so AND and OR bind equally and to the right, and NOT takes the whole rest of
 * the condition. Every function takes the tokens not yet consumed and returns
 * what it built together with the tokens left after it.
 */
module Parser {
  import opened Wrappers
  import opened Strings
  import opened Ast
  import opened Lexer
  import Assoc

  /**
   * Why parsing stopped: `p_error` was handed the offending token (None at the
   * end of the input), or a grammar action raised an exception.
   */
  datatype ParseError = SyntaxError(offending: Option<Token>) | ActionRaised

  /** A parsed value and the tokens that follow it. */
  type Parsed<T> = Result<(T, seq<Token>), ParseError>

  /** The syntax error at the front of `ts`. */
  function ErrorAt(ts: seq<Token>): ParseError
  {
    if ts == [] then SyntaxError(None) else SyntaxError(Some(ts[0]))
  }

  /** The next token has type `t`. */
  predicate Next(ts: seq<Token>, t: TokenType)
  {
    |ts| > 0 && ts[0].ttype == t
  }

  /** `rest` is what is left of `ts` once some tokens, maybe none, have been consumed. */
  predicate Suffix(ts: seq<Token>, rest: seq<Token>)
  {
    |rest| <= |ts| && rest == ts[|ts| - |rest|..]
  }

  /** `rest` is what is left of `ts` once at least one token has been consumed. */
  predicate Consumed(ts: seq<Token>, rest: seq<Token>)
  {
    |rest| < |ts| && Suffix(ts, rest)
  }

  lemma SuffixTrans(ts: seq<Token>, a: seq<Token>, b: seq<Token>)
    requires Suffix(ts, a) && Suffix(a, b)
    ensures Suffix(ts, b)
  {
    assert a[|a| - |b|..] == ts[|ts| - |b|..];
  }

  /** Consumes one token of type `t`. */
  function Expect(ts: seq<Token>, t: TokenType): (r: Result<seq<Token>, ParseError>)
    ensures r.Ok? <==> Next(ts, t)
    ensures r.Ok? ==> r.value == ts[1..]
  {
    if Next(ts, t) then Ok(ts[1..]) else Err(ErrorAt(ts))
  }

  /** An IDENTIFIER: its lexeme. */
  function ParseName(ts: seq<Token>): (r: Parsed<string>)
    ensures r.Ok? <==> Next(ts, Identifier)
    ensures r.Ok? ==> r.value == (TextOf(ts[0]), ts[1..])
  {
    if Next(ts, Identifier) then Ok((TextOf(ts[0]), ts[1..])) else Err(ErrorAt(ts))
  }

  // ---------------------------------------------------------------------
  // What the lexer guarantees and the grammar actions rely on.

  /** A keyword that an action reads back with `.upper()`. */
  predicate UpperedKeyword(t: TokenType)
  {
    t in {Kw(KwAnd), Kw(KwOr), Kw(KwCount), Kw(KwSum), Kw(KwAvg), Kw(KwAsc), Kw(KwDesc)}
  }

  /**
   * A token as the lexer builds it: NUMBER tokens, and only they, carry a
   * number; an IDENTIFIER starts with a letter or '_'; TIMES is written `*`;
   * an operator is at most two characters long; the keywords read back with
   * `.upper()` are spelled like their type, and LIKE lower-cases to "like".
   */
  predicate WellFormedToken(t: Token)
  {
    (t.ttype == Number <==> t.value.NumValue?)
    && (t.ttype == Identifier ==> |TextOf(t)| > 0 && IsIdentStart(TextOf(t)[0]))
    && (t.ttype == Sym(Times) ==> TextOf(t) == "*")
    && (t.ttype.Sym? ==> |TextOf(t)| <= 2)
    && (UpperedKeyword(t.ttype) ==> Upper(TextOf(t)) == KeywordName(t.ttype.kw))
    && (t.ttype == Kw(KwLike) ==> Lower(TextOf(t)) == "like")
  }

  predicate WellFormedTokens(ts: seq<Token>)
  {
    forall k :: 0 <= k < |ts| ==> WellFormedToken(ts[k])
  }

  /** A token that matches the text it was scanned from is well formed. */
  lemma MatchedWellFormed(text: string, t: Token)
    requires Matched(text, t)
    ensures WellFormedToken(t)
  {
    if t.ttype == Sym(Times) {
      var x := t.value.text;
      assert |x| == 1 && x[0] == '*';
      assert x == "*";
    } else if UpperedKeyword(t.ttype) {
      KeywordSpelling(t.value.text, t.ttype.kw);
    } else if t.ttype == Kw(KwLike) {
      LikeSpelling(t.value.text);
    }
  }

  /**
   * On well-formed tokens the `p[2].upper() == 'AND'` and `'OR'` tests of
   * `p_condition` hold exactly for the AND and OR tokens, so choosing the
   * branch by token type, as `ParseCondition` does, takes the same branch.
   */
  lemma ConnectiveTest(t: Token)
    requires WellFormedToken(t) && t.ttype in {Kw(KwAnd), Kw(KwOr)}
    ensures Upper(TextOf(t)) == "AND" <==> t.ttype == Kw(KwAnd)
    ensures Upper(TextOf(t)) == "OR" <==> t.ttype == Kw(KwOr)
  {
  }

  /**
   * On well-formed tokens the `p[2].lower() == 'like'` test of
   * `p_simple_condition` holds exactly for the LIKE token and for no
   * comparison operator, so `ParseSimple` takes the same branch.
   */
  lemma LikeTest(t: Token)
    requires WellFormedToken(t) && (t.ttype == Kw(KwLike) || CompOpOf(t.ttype).Some?)
    ensures Lower(TextOf(t)) == "like" <==> t.ttype == Kw(KwLike)
  {
  }

  /** The lexer only produces well-formed tokens. */
  lemma LexWellFormed(text: string)
    ensures WellFormedTokens(Lex(text))
  {
    var ts := Lex(text);
    ScanTokensMatch(text, 0, 1);
    forall k | 0 <= k < |ts| ensures WellFormedToken(ts[k]) {
      MatchedWellFormed(text, ts[k]);
    }
  }

  /** Every query parsed from a text satisfies `ValidQuery`. */
  lemma ParsedTextValid(text: string)
    ensures ParseText(text).Ok? ==> ValidQuery(ParseText(text).value)
  {
    LexWellFormed(text);
  }

  // ---------------------------------------------------------------------
  // The query trees the grammar can build from well-formed tokens.

  predicate ValidItem(item: SelectItem)
  {
    item.Aggregate? ==>
      item.func in {"COUNT", "SUM", "AVG"} && (item.column == "*" ==> item.func == "COUNT")
  }

  predicate ValidOrderItem(o: OrderItem)
  {
    o.direction in {"ASC", "DESC"}
  }

  predicate ValidWhere(w: Option<Condition>)
  {
    w.Some? ==> NotFree(w.value)
  }

  /**
   * DISTINCT set, a LEFT join, NOT-free conditions, non-empty lists,
   * upper-case aggregate names and directions, a numeric LIMIT, and one SET
   * entry per column.
   */
  predicate ValidQuery(q: Query)
  {
    match q
    case SelectQuery(distinct, columns, _, join, where, groupBy, orderBy, limit) =>
      distinct && |columns| > 0 && (forall k :: 0 <= k < |columns| ==> ValidItem(columns[k]))
      && (join.Some? ==> join.value.joinType == "LEFT")
      && ValidWhere(where)
      && (groupBy.Some? ==> |groupBy.value| > 0)
      && (orderBy.Some? ==> |orderBy.value| > 0 && forall k :: 0 <= k < |orderBy.value| ==> ValidOrderItem(orderBy.value[k]))
      && (limit.Some? ==> limit.value.Num?)
    case InsertQuery(_, columns, values) =>
      (columns.Some? ==> |columns.value| > 0) && |values| > 0
    case UpdateQuery(_, assignments, where) =>
      |assignments| > 0 && Assoc.DistinctKeys(assignments) && ValidWhere(where)
    case DeleteQuery(_, where) =>
      ValidWhere(where)
  }

  // ---------------------------------------------------------------------
  // Values and conditions.

  /** `p_value`: the token's value, a number or a string. */
  function LiteralOf(t: Token): Literal
  {
    match t.value
    case NumValue(n) => Num(n)
    case Lexeme(x) => Text(x)
  }

  /** `p_value`: a NUMBER or a STRING_LITERAL. */
  function ParseValue(ts: seq<Token>): (r: Parsed<Literal>)
    ensures r.Ok? <==> |ts| > 0 && ts[0].ttype in {Number, StringLiteral}
    ensures r.Ok? ==> r.value.1 == ts[1..]
    ensures r.Ok? && WellFormedTokens(ts) ==> (r.value.0.Num? <==> ts[0].ttype == Number)
  {
    if |ts| > 0 && ts[0].ttype in {Number, StringLiteral} then Ok((LiteralOf(ts[0]), ts[1..]))
    else Err(ErrorAt(ts))
  }

  /** `p_operator`: the comparison an operator token stands for. */
  function CompOpOf(t: TokenType): Option<CompOp>
  {
    match t
    case Sym(Eq) => Some(Equal)
    case Sym(Neq) => Some(NotEqual)
    case Sym(Gt) => Some(Greater)
    case Sym(Lt) => Some(Less)
    case Sym(Ge) => Some(GreaterEq)
    case Sym(Le) => Some(LessEq)
    case _ => None
  }

  /** `p_simple_condition`: `column operator value` or `column LIKE 'pattern'`. */
  function ParseSimple(ts: seq<Token>): (r: Parsed<Condition>)
    ensures r.Ok? ==> |ts| >= 3 && r.value.1 == ts[3..] && Next(ts, Identifier)
    ensures r.Ok? ==> match r.value.0
      case Like(c, p) => c == TextOf(ts[0]) && Next(ts[1..], Kw(KwLike)) && ts[2].ttype == StringLiteral && p == TextOf(ts[2])
      case Compare(c, op, v) => c == TextOf(ts[0]) && CompOpOf(ts[1].ttype) == Some(op) && v == LiteralOf(ts[2])
      case _ => false
  {
    var (column, a) :- ParseName(ts);
    if Next(a, Kw(KwLike)) then
      if Next(a[1..], StringLiteral) then Ok((Like(column, TextOf(a[1])), a[2..])) else Err(ErrorAt(a[1..]))
    else if |a| > 0 && CompOpOf(a[0].ttype).Some? then
      var (value, b) :- ParseValue(a[1..]);
      Ok((Compare(column, CompOpOf(a[0].ttype).value, value), b))
    else Err(ErrorAt(a))
  }

  /**
   * `p_condition`: an operand, then optionally AND or OR and a whole further
   * condition (PLY shifts, so the operators group to the right). A result is
   * never a NOT node, since the NOT alternative raises.
   */
  function ParseCondition(ts: seq<Token>): (r: Parsed<Condition>)
    ensures r.Ok? ==> Consumed(ts, r.value.1) && NotFree(r.value.0)
    ensures r.Ok? ==> !Next(r.value.1, Kw(KwAnd)) && !Next(r.value.1, Kw(KwOr))
    decreases |ts|, 1
  {
    var (left, a) :- ParseOperand(ts);
    if Next(a, Kw(KwAnd)) then
      var (right, b) :- ParseCondition(a[1..]);
      Ok((And(left, right), b))
    else if Next(a, Kw(KwOr)) then
      var (right, b) :- ParseCondition(a[1..]);
      Ok((Or(left, right), b))
    else Ok((left, a))
  }

  /**
   * An operand of AND/OR: `( condition )` is the inner tree itself, a
   * simple condition is itself, and `NOT condition` raises once its
   * condition has been read (the action calls `.upper()` on a dict).
   */
  function ParseOperand(ts: seq<Token>): (r: Parsed<Condition>)
    ensures r.Ok? ==> Consumed(ts, r.value.1) && NotFree(r.value.0)
    decreases |ts|, 0
  {
    if Next(ts, Kw(KwNot)) then
      var _ :- ParseCondition(ts[1..]);
      Err(ActionRaised)
    else if Next(ts, Sym(LParen)) then
      var (inner, a) :- ParseCondition(ts[1..]);
      var b :- Expect(a, Sym(RParen));
      Ok((inner, b))
    else ParseSimple(ts)
  }

  // ---------------------------------------------------------------------
  // Lists. Each holds at least one element, in the order written.

  /** `p_aggregate_function`: COUNT(*), COUNT(col), SUM(col) or AVG(col), named by the upper-cased keyword. */
  function ParseAggregate(ts: seq<Token>): (r: Parsed<SelectItem>)
    requires |ts| > 0 && ts[0].ttype in {Kw(KwCount), Kw(KwSum), Kw(KwAvg)}
    ensures r.Ok? ==> |ts| >= 4 && r.value.1 == ts[4..] && r.value.0 == Aggregate(Upper(TextOf(ts[0])), TextOf(ts[2]))
    ensures r.Ok? ==> |ts| >= 4 && (ts[2].ttype == Identifier || (ts[2].ttype == Sym(Times) && ts[0].ttype == Kw(KwCount)))
  {
    var a :- Expect(ts[1..], Sym(LParen));
    if |a| > 0 && (a[0].ttype == Identifier || (a[0].ttype == Sym(Times) && ts[0].ttype == Kw(KwCount))) then
      var b :- Expect(a[1..], Sym(RParen));
      Ok((Aggregate(Upper(TextOf(ts[0])), TextOf(a[0])), b))
    else Err(ErrorAt(a))
  }

  /** `p_select_item`: `*`, a column, or an aggregate. */
  function ParseSelectItem(ts: seq<Token>): (r: Parsed<SelectItem>)
    ensures r.Ok? ==> Consumed(ts, r.value.1)
    ensures r.Ok? && WellFormedTokens(ts) ==> ValidItem(r.value.0)
  {
    if Next(ts, Sym(Times)) then Ok((Star, ts[1..]))
    else if Next(ts, Identifier) then Ok((Column(TextOf(ts[0])), ts[1..]))
    else if |ts| > 0 && ts[0].ttype in {Kw(KwCount), Kw(KwSum), Kw(KwAvg)} then
      var r := ParseAggregate(ts);
      if r.Ok? && WellFormedTokens(ts) then
        assert WellFormedToken(ts[0]) && WellFormedToken(ts[2]);
        r
      else r
    else Err(ErrorAt(ts))
  }

  /** `p_select_list`. */
  function ParseSelectList(ts: seq<Token>): (r: Parsed<seq<SelectItem>>)
    ensures r.Ok? ==> Consumed(ts, r.value.1) && |r.value.0| > 0 && !Next(r.value.1, Sym(Comma))
    ensures r.Ok? && WellFormedTokens(ts) ==> forall k :: 0 <= k < |r.value.0| ==> ValidItem(r.value.0[k])
    decreases |ts|
  {
    var (item, a) :- ParseSelectItem(ts);
    if Next(a, Sym(Comma)) then
      var (items, b) :- ParseSelectList(a[1..]);
      Ok(([item] + items, b))
    else Ok(([item], a))
  }

  /** `p_column_list`: the identifiers, in order. */
  function ParseColumnList(ts: seq<Token>): (r: Parsed<seq<string>>)
    ensures r.Ok? ==> Consumed(ts, r.value.1) && |r.value.0| > 0 && !Next(r.value.1, Sym(Comma))
    decreases |ts|
  {
    var (name, a) :- ParseName(ts);
    if Next(a, Sym(Comma)) then
      var (names, b) :- ParseColumnList(a[1..]);
      Ok(([name] + names, b))
    else Ok(([name], a))
  }

  /** `p_value_list`. */
  function ParseValueList(ts: seq<Token>): (r: Parsed<seq<Literal>>)
    ensures r.Ok? ==> Consumed(ts, r.value.1) && |r.value.0| > 0 && !Next(r.value.1, Sym(Comma))
    decreases |ts|
  {
    var (value, a) :- ParseValue(ts);
    if Next(a, Sym(Comma)) then
      var (values, b) :- ParseValueList(a[1..]);
      Ok(([value] + values, b))
    else Ok(([value], a))
  }

  /** `p_order_item` and `p_asc_desc`: the direction is the upper-cased ASC/DESC lexeme, or "ASC". */
  function ParseOrderItem(ts: seq<Token>): (r: Parsed<OrderItem>)
    ensures r.Ok? ==> Consumed(ts, r.value.1) && Next(ts, Identifier) && r.value.0.column == TextOf(ts[0])
    ensures r.Ok? ==>
      if |ts| > 1 && ts[1].ttype in {Kw(KwAsc), Kw(KwDesc)} then r.value.0.direction == Upper(TextOf(ts[1]))
      else r.value.0.direction == "ASC"
    ensures r.Ok? && WellFormedTokens(ts) ==> ValidOrderItem(r.value.0)
  {
    var (column, a) :- ParseName(ts);
    if |a| > 0 && a[0].ttype in {Kw(KwAsc), Kw(KwDesc)} then
      assert WellFormedTokens(ts) ==> WellFormedToken(ts[1]);
      Ok((OrderItem(column, Upper(TextOf(a[0]))), a[1..]))
    else Ok((OrderItem(column, "ASC"), a))
  }

  /** `p_order_list`. */
  function ParseOrderList(ts: seq<Token>): (r: Parsed<seq<OrderItem>>)
    ensures r.Ok? ==> Consumed(ts, r.value.1) && |r.value.0| > 0 && !Next(r.value.1, Sym(Comma))
    ensures r.Ok? && WellFormedTokens(ts) ==> forall k :: 0 <= k < |r.value.0| ==> ValidOrderItem(r.value.0[k])
    decreases |ts|
  {
    var (item, a) :- ParseOrderItem(ts);
    if Next(a, Sym(Comma)) then
      var (items, b) :- ParseOrderList(a[1..]);
      Ok(([item] + items, b))
    else Ok(([item], a))
  }

  /** `p_set_item` repeated: the assignments as written, in order. */
  function ParseSetItems(ts: seq<Token>): (r: Parsed<seq<(string, Literal)>>)
    ensures r.Ok? ==> Consumed(ts, r.value.1) && |r.value.0| > 0 && !Next(r.value.1, Sym(Comma))
    decreases |ts|
  {
    var (column, a) :- ParseName(ts);
    var b :- Expect(a, Sym(Eq));
    var (value, c) :- ParseValue(b);
    if Next(c, Sym(Comma)) then
      var (items, d) :- ParseSetItems(c[1..]);
      Ok(([(column, value)] + items, d))
    else Ok(([(column, value)], c))
  }

  /**
   * `{**first, **rest}` for a one-entry `first`: its key keeps the front
   * place and takes `rest`'s value when `rest` assigns it too.
   */
  function MergeFirst(first: (string, Literal), rest: seq<(string, Literal)>): seq<(string, Literal)>
  {
    match Assoc.Lookup(rest, first.0)
    case Some(v) => [(first.0, v)] + Assoc.RemoveKey(rest, first.0)
    case None => [first] + rest
  }

  /** `p_set_list`: the assignments merged from the right, as the actions nest. */
  function MergeAssignments(items: seq<(string, Literal)>): seq<(string, Literal)>
    decreases |items|
  {
    if |items| <= 1 then items else MergeFirst(items[0], MergeAssignments(items[1..]))
  }

  /** The value of the last assignment to `x` in `items`, if any. */
  function LastAssigned(items: seq<(string, Literal)>, x: string): Option<Literal>
    decreases |items|
  {
    if items == [] then None
    else if items[|items| - 1].0 == x then Some(items[|items| - 1].1)
    else LastAssigned(items[..|items| - 1], x)
  }

  /** Reading `LastAssigned` from the front: a later assignment hides the first one. */
  lemma {:induction false} LastAssignedFront(first: (string, Literal), rest: seq<(string, Literal)>, x: string)
    ensures LastAssigned([first] + rest, x) ==
      if LastAssigned(rest, x).Some? then LastAssigned(rest, x) else if first.0 == x then Some(first.1) else None
    decreases |rest|
  {
    if rest != [] {
      var s := [first] + rest;
      assert s[..|s| - 1] == [first] + rest[..|rest| - 1];
      LastAssignedFront(first, rest[..|rest| - 1], x);
    }
  }

  /** One merge step keeps the keys distinct, adds `first`'s key, and lets `rest`'s values win. */
  lemma MergeFirstFacts(first: (string, Literal), rest: seq<(string, Literal)>)
    requires Assoc.DistinctKeys(rest)
    ensures Assoc.DistinctKeys(MergeFirst(first, rest))
    ensures forall x :: x in Assoc.Keys(MergeFirst(first, rest)) <==> x == first.0 || x in Assoc.Keys(rest)
    ensures forall x :: Assoc.Lookup(MergeFirst(first, rest), x) ==
                  if Assoc.Lookup(rest, x).Some? then Assoc.Lookup(rest, x) else if first.0 == x then Some(first.1) else None
  {
    var k := first.0;
    var m := MergeFirst(first, rest);
    Assoc.LookupKeys(rest, k);
    Assoc.RemoveKeyKeys(rest, k);
    var tail := if Assoc.Lookup(rest, k).Some? then Assoc.RemoveKey(rest, k) else rest;
    assert m == [m[0]] + tail && m[0].0 == k;
    assert Assoc.Keys(m) == [k] + Assoc.Keys(tail);
    forall i, j | 0 <= i < j < |m| ensures m[i].0 != m[j].0 {
      if i == 0 {
        assert m[j].0 == Assoc.Keys(tail)[j - 1];
      } else {
        assert m[i] == tail[i - 1] && m[j] == tail[j - 1];
      }
    }
    forall x ensures Assoc.Lookup(m, x) ==
      if Assoc.Lookup(rest, x).Some? then Assoc.Lookup(rest, x) else if k == x then Some(first.1) else None
    {
      Assoc.RemoveKeyLookup(rest, k, x);
      assert m[1..] == tail;
    }
  }

  /**
   * The merged SET list names each assigned column once, holds the value of
   * its last assignment, and is empty only when nothing was assigned.
   */
  lemma {:induction false} MergedAssignments(items: seq<(string, Literal)>)
    ensures Assoc.DistinctKeys(MergeAssignments(items))
    ensures forall x :: x in Assoc.Keys(MergeAssignments(items)) <==> x in Assoc.Keys(items)
    ensures forall x :: Assoc.Lookup(MergeAssignments(items), x) == LastAssigned(items, x)
    ensures |MergeAssignments(items)| > 0 <==> |items| > 0
    decreases |items|
  {
    if |items| == 1 {
      forall x ensures Assoc.Lookup(items, x) == LastAssigned(items, x) {
        assert items[..0] == [];
      }
    } else if |items| > 1 {
      var rest := MergeAssignments(items[1..]);
      MergedAssignments(items[1..]);
      MergeFirstFacts(items[0], rest);
      assert items == [items[0]] + items[1..];
      assert Assoc.Keys(items) == [items[0].0] + Assoc.Keys(items[1..]);
      forall x ensures Assoc.Lookup(MergeAssignments(items), x) == LastAssigned(items, x) {
        LastAssignedFront(items[0], items[1..], x);
        Assoc.LookupKeys(rest, x);
      }
    }
  }

  // ---------------------------------------------------------------------
  // Optional clauses: each is None when its first keyword is absent.

  /** `p_join_clause_opt` with `p_join_type` and `p_join_condition`; the type is "LEFT" whether or not LEFT is written. */
  function ParseJoin(ts: seq<Token>): (r: Parsed<Option<JoinClause>>)
    ensures r.Ok? && r.value.0.None? <==> r.Ok? && !Next(ts, Kw(KwLeft)) && !Next(ts, Kw(KwJoin))
    ensures r.Ok? && r.value.0.None? ==> r.value.1 == ts
    ensures r.Ok? && r.value.0.Some? ==> Consumed(ts, r.value.1) && r.value.0.value.joinType == "LEFT"
    ensures r.Ok? ==> Suffix(ts, r.value.1)
  {
    if Next(ts, Kw(KwLeft)) || Next(ts, Kw(KwJoin)) then
      var a := if Next(ts, Kw(KwLeft)) then ts[1..] else ts;
      var b :- Expect(a, Kw(KwJoin));
      var (table, c) :- ParseName(b);
      var d :- Expect(c, Kw(KwOn));
      var (left, e) :- ParseName(d);
      var f :- Expect(e, Sym(Eq));
      var (right, g) :- ParseName(f);
      Ok((Some(JoinClause("LEFT", table, left, right)), g))
    else Ok((None, ts))
  }

  /** `p_where_clause_opt`. */
  function ParseWhere(ts: seq<Token>): (r: Parsed<Option<Condition>>)
    ensures r.Ok? && r.value.0.None? <==> r.Ok? && !Next(ts, Kw(KwWhere))
    ensures r.Ok? && r.value.0.None? ==> r.value.1 == ts
    ensures r.Ok? && r.value.0.Some? ==> Consumed(ts, r.value.1) && NotFree(r.value.0.value)
    ensures r.Ok? && r.value.0.Some? ==> !Next(r.value.1, Kw(KwAnd)) && !Next(r.value.1, Kw(KwOr))
    ensures r.Ok? ==> Suffix(ts, r.value.1)
  {
    if Next(ts, Kw(KwWhere)) then
      var (c, a) :- ParseCondition(ts[1..]);
      Ok((Some(c), a))
    else Ok((None, ts))
  }

  /** `p_group_by_clause_opt`. */
  function ParseGroupBy(ts: seq<Token>): (r: Parsed<Option<seq<string>>>)
    ensures r.Ok? && r.value.0.None? <==> r.Ok? && !Next(ts, Kw(KwGroup))
    ensures r.Ok? && r.value.0.None? ==> r.value.1 == ts
    ensures r.Ok? && r.value.0.Some? ==> Consumed(ts, r.value.1) && |r.value.0.value| > 0
    ensures r.Ok? ==> Suffix(ts, r.value.1)
  {
    if Next(ts, Kw(KwGroup)) then
      var a :- Expect(ts[1..], Kw(KwBy));
      var (columns, b) :- ParseColumnList(a);
      Ok((Some(columns), b))
    else Ok((None, ts))
  }

  /** `p_order_by_opt`. */
  function ParseOrderBy(ts: seq<Token>): (r: Parsed<Option<seq<OrderItem>>>)
    ensures r.Ok? && r.value.0.None? <==> r.Ok? && !Next(ts, Kw(KwOrder))
    ensures r.Ok? && r.value.0.None? ==> r.value.1 == ts
    ensures r.Ok? && r.value.0.Some? ==> Consumed(ts, r.value.1) && |r.value.0.value| > 0
    ensures r.Ok? && r.value.0.Some? && WellFormedTokens(ts) ==>
      forall k :: 0 <= k < |r.value.0.value| ==> ValidOrderItem(r.value.0.value[k])
    ensures r.Ok? ==> Suffix(ts, r.value.1)
  {
    if Next(ts, Kw(KwOrder)) then
      var a :- Expect(ts[1..], Kw(KwBy));
      var (items, b) :- ParseOrderList(a);
      Ok((Some(items), b))
    else Ok((None, ts))
  }

  /** `p_limit_clause_opt`: the NUMBER's value. */
  function ParseLimit(ts: seq<Token>): (r: Parsed<Option<Literal>>)
    ensures r.Ok? && r.value.0.None? <==> r.Ok? && !Next(ts, Kw(KwLimit))
    ensures r.Ok? && r.value.0.None? ==> r.value.1 == ts
    ensures r.Ok? && r.value.0.Some? ==> |ts| >= 2 && r.value.1 == ts[2..] && r.value.0.value == LiteralOf(ts[1])
    ensures r.Ok? && r.value.0.Some? && WellFormedTokens(ts) ==> r.value.0.value.Num?
    ensures r.Ok? ==> Suffix(ts, r.value.1)
  {
    if Next(ts, Kw(KwLimit)) then
      if Next(ts[1..], Number) then Ok((Some(LiteralOf(ts[1])), ts[2..])) else Err(ErrorAt(ts[1..]))
    else Ok((None, ts))
  }

  /** A suffix of well-formed tokens is well formed. */
  lemma ConsumedWellFormed(ts: seq<Token>, rest: seq<Token>)
    requires WellFormedTokens(ts) && Suffix(ts, rest)
    ensures WellFormedTokens(rest)
  {
    forall k | 0 <= k < |rest| ensures WellFormedToken(rest[k]) {
      assert rest[k] == ts[|ts| - |rest| + k];
    }
  }

  // ---------------------------------------------------------------------
  // Statements.

  /** The optional clauses after `FROM table`, each None when absent. */
  datatype Clauses = Clauses(join: Option<JoinClause>, where: Option<Condition>, groupBy: Option<seq<string>>,
                             orderBy: Option<seq<OrderItem>>, limit: Option<Literal>)

  /** The clauses a SELECT may carry, in their fixed order. */
  predicate ValidClauses(c: Clauses)
  {
    (c.join.Some? ==> c.join.value.joinType == "LEFT")
    && ValidWhere(c.where)
    && (c.groupBy.Some? ==> |c.groupBy.value| > 0)
    && (c.orderBy.Some? ==> |c.orderBy.value| > 0 && forall k :: 0 <= k < |c.orderBy.value| ==> ValidOrderItem(c.orderBy.value[k]))
    && (c.limit.Some? ==> c.limit.value.Num?)
  }

  /** `join_clause_opt where_clause_opt group_by_clause_opt order_by_opt limit_clause_opt`. */
  function ParseClauses(ts: seq<Token>): (r: Parsed<Clauses>)
    ensures r.Ok? ==> Suffix(ts, r.value.1)
    ensures r.Ok? && WellFormedTokens(ts) ==> ValidClauses(r.value.0)
  {
    var (join, a) :- ParseJoin(ts);
    var (where, b) :- ParseWhere(a);
    var (groupBy, c) :- ParseGroupBy(b);
    var (orderBy, d) :- ParseOrderBy(c);
    var (limit, e) :- ParseLimit(d);
    SuffixTrans(ts, a, b);
    SuffixTrans(ts, b, c);
    SuffixTrans(ts, c, d);
    SuffixTrans(ts, d, e);
    var clauses := Clauses(join, where, groupBy, orderBy, limit);
    if WellFormedTokens(ts) then
      ConsumedWellFormed(ts, c);
      ConsumedWellFormed(ts, d);
      Ok((clauses, e))
    else Ok((clauses, e))
  }

  /** `p_select_query`: the nine fields, DISTINCT always set. */
  function ParseSelect(ts: seq<Token>): (r: Parsed<Query>)
    requires Next(ts, Kw(KwSelect))
    ensures r.Ok? ==> r.value.0.SelectQuery? && r.value.0.distinct && |r.value.1| < |ts|
    ensures r.Ok? && WellFormedTokens(ts) ==> ValidQuery(r.value.0)
  {
    var a := if Next(ts[1..], Kw(KwDistinct)) then ts[2..] else ts[1..];
    var (columns, b) :- ParseSelectList(a);
    var c :- Expect(b, Kw(KwFrom));
    var (table, d) :- ParseName(c);
    var (cl, e) :- ParseClauses(d);
    SelectParts(ts, a, b, c, d);
    Ok((SelectQuery(true, columns, table, cl.join, cl.where, cl.groupBy, cl.orderBy, cl.limit), e))
  }

  /** The tokens left for the items and for the clauses of a SELECT come from its own tokens. */
  lemma SelectParts(ts: seq<Token>, a: seq<Token>, b: seq<Token>, c: seq<Token>, d: seq<Token>)
    requires |ts| > 1 && (a == ts[1..] || (|ts| > 2 && a == ts[2..]))
    requires Suffix(a, b) && |b| > 0 && c == b[1..] && |c| > 0 && d == c[1..]
    ensures |d| < |ts| && Suffix(ts, d)
    ensures WellFormedTokens(ts) ==> WellFormedTokens(a) && WellFormedTokens(d)
  {
    assert Suffix(ts, a) && Suffix(b, c) && Suffix(c, d);
    SuffixTrans(ts, a, b);
    SuffixTrans(ts, b, c);
    SuffixTrans(ts, c, d);
    if WellFormedTokens(ts) {
      ConsumedWellFormed(ts, a);
      ConsumedWellFormed(ts, d);
    }
  }

  /** The optional `( column_list )` of `p_insert_query`. */
  function ParseInsertColumns(ts: seq<Token>): (r: Parsed<Option<seq<string>>>)
    ensures r.Ok? ==> (r.value.0.Some? <==> Next(ts, Sym(LParen)))
    ensures r.Ok? && r.value.0.None? ==> r.value.1 == ts
    ensures r.Ok? && r.value.0.Some? ==> Consumed(ts, r.value.1) && |r.value.0.value| > 0
  {
    if Next(ts, Sym(LParen)) then
      var (columns, a) :- ParseColumnList(ts[1..]);
      var b :- Expect(a, Sym(RParen));
      Ok((Some(columns), b))
    else Ok((None, ts))
  }

  /** `VALUES ( value_list )`. */
  function ParseValuesClause(ts: seq<Token>): (r: Parsed<seq<Literal>>)
    ensures r.Ok? ==> Consumed(ts, r.value.1) && |r.value.0| > 0
  {
    var a :- Expect(ts, Kw(KwValues));
    var b :- Expect(a, Sym(LParen));
    var (values, c) :- ParseValueList(b);
    var d :- Expect(c, Sym(RParen));
    Ok((values, d))
  }

  /** `p_insert_query`: with a column list, or with None for it. */
  function ParseInsert(ts: seq<Token>): (r: Parsed<Query>)
    requires Next(ts, Kw(KwInsert))
    ensures r.Ok? ==> r.value.0.InsertQuery? && ValidQuery(r.value.0) && |r.value.1| < |ts|
    ensures r.Ok? ==> (r.value.0.insertColumns.Some? <==> |ts| > 3 && ts[3].ttype == Sym(LParen))
  {
    var a :- Expect(ts[1..], Kw(KwInto));
    var (table, b) :- ParseName(a);
    var (columns, c) :- ParseInsertColumns(b);
    var (values, d) :- ParseValuesClause(c);
    Ok((InsertQuery(table, columns, values), d))
  }

  /** `p_update_query`: the SET list merged into one entry per column. */
  function ParseUpdate(ts: seq<Token>): (r: Parsed<Query>)
    requires Next(ts, Kw(KwUpdate))
    ensures r.Ok? ==> r.value.0.UpdateQuery? && ValidQuery(r.value.0) && |r.value.1| < |ts|
  {
    var (table, a) :- ParseName(ts[1..]);
    var b :- Expect(a, Kw(KwSet));
    var (items, c) :- ParseSetItems(b);
    var (where, d) :- ParseWhere(c);
    MergedAssignments(items);
    Ok((UpdateQuery(table, MergeAssignments(items), where), d))
  }

  /** `p_delete_query`. */
  function ParseDelete(ts: seq<Token>): (r: Parsed<Query>)
    requires Next(ts, Kw(KwDelete))
    ensures r.Ok? ==> r.value.0.DeleteQuery? && ValidQuery(r.value.0) && |r.value.1| < |ts|
  {
    var a :- Expect(ts[1..], Kw(KwFrom));
    var (table, b) :- ParseName(a);
    var (where, c) :- ParseWhere(b);
    Ok((DeleteQuery(table, where), c))
  }

  /** `p_query`: the statement its first keyword announces. */
  function ParseStatement(ts: seq<Token>): (r: Parsed<Query>)
    ensures r.Ok? ==> |r.value.1| < |ts|
    ensures r.Ok? && WellFormedTokens(ts) ==> ValidQuery(r.value.0)
  {
    if Next(ts, Kw(KwSelect)) then ParseSelect(ts)
    else if Next(ts, Kw(KwInsert)) then ParseInsert(ts)
    else if Next(ts, Kw(KwUpdate)) then ParseUpdate(ts)
    else if Next(ts, Kw(KwDelete)) then ParseDelete(ts)
    else Err(ErrorAt(ts))
  }

  /** A whole token stream: one statement, with no token left over. */
  function Parse(ts: seq<Token>): (r: Result<Query, ParseError>)
    ensures r.Ok? && WellFormedTokens(ts) ==> ValidQuery(r.value)
  {
    var (q, rest) :- ParseStatement(ts);
    if rest == [] then Ok(q) else Err(ErrorAt(rest))
  }

  /** The query a text stands for: its tokens, parsed (characters the lexer rejects are skipped). */
  function ParseText(text: string): Result<Query, ParseError>
  {
    Parse(Lex(text))
  }
}
