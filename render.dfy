/**
 * Query trees written back as token streams. Parsing a rendered query gives
 * the query back, so every tree `ValidQuery` admits is one the grammar builds.
 */
module Render {
  import opened Wrappers
  import opened Strings
  import opened Ast
  import opened Lexer
  import opened Parser
  import Assoc
  import Seqs

  function Tok(t: TokenType, x: string): Token
  {
    Token(t, Lexeme(x), 1, 0)
  }

  function KwTok(k: Keyword): Token
  {
    Tok(Kw(k), KeywordName(k))
  }

  /** The text of an operator token. */
  function SymbolText(s: Symbol): string
  {
    match s
    case Eq => "=" case Neq => "!=" case Gt => ">" case Lt => "<" case Ge => ">=" case Le => "<="
    case Comma => "," case LParen => "(" case RParen => ")" case Times => "*"
  }

  function SymTok(s: Symbol): Token
  {
    Tok(Sym(s), SymbolText(s))
  }

  function NameTok(x: string): Token
  {
    Tok(Identifier, x)
  }

  function LiteralTok(l: Literal): Token
  {
    match l
    case Num(n) => Token(Number, NumValue(n), 1, 0)
    case Text(x) => Tok(StringLiteral, x)
  }

  function OpSymbol(op: CompOp): Symbol
  {
    match op
    case Equal => Eq case NotEqual => Neq case Greater => Gt case Less => Lt
    case GreaterEq => Ge case LessEq => Le
  }

  // ---------------------------------------------------------------------
  // Conditions.

  function RenderSimple(c: Condition): seq<Token>
    requires c.Compare? || c.Like?
  {
    match c
    case Compare(column, op, v) => [NameTok(column), SymTok(OpSymbol(op)), LiteralTok(v)]
    case Like(column, p) => [NameTok(column), KwTok(KwLike), Tok(StringLiteral, p)]
  }

  /** A condition as a chain of operands joined by AND/OR, nesting to the right. */
  function RenderCondition(c: Condition): seq<Token>
    requires NotFree(c)
    decreases c, 1
  {
    match c
    case And(l, r) => RenderOperand(l) + [KwTok(KwAnd)] + RenderCondition(r)
    case Or(l, r) => RenderOperand(l) + [KwTok(KwOr)] + RenderCondition(r)
    case _ => RenderSimple(c)
  }

  /** An operand: an AND/OR tree goes in parentheses. */
  function RenderOperand(c: Condition): seq<Token>
    requires NotFree(c)
    decreases c, 2
  {
    if c.And? || c.Or? then [SymTok(LParen)] + RenderCondition(c) + [SymTok(RParen)] else RenderSimple(c)
  }

  lemma SimpleRoundTrip(c: Condition, rest: seq<Token>)
    requires c.Compare? || c.Like?
    ensures ParseSimple(RenderSimple(c) + rest) == Ok((c, rest))
  {
    var ts := RenderSimple(c) + rest;
    assert ts[3..] == rest;
  }

  /** A simple condition is an operand, and a whole condition when no AND/OR follows. */
  lemma SimpleOperandRoundTrip(c: Condition, rest: seq<Token>)
    requires c.Compare? || c.Like?
    ensures ParseOperand(RenderSimple(c) + rest) == Ok((c, rest))
    ensures !Next(rest, Kw(KwAnd)) && !Next(rest, Kw(KwOr)) ==> ParseCondition(RenderSimple(c) + rest) == Ok((c, rest))
  {
    var ts := RenderSimple(c) + rest;
    SimpleRoundTrip(c, rest);
    assert ParseOperand(ts) == ParseSimple(ts);
  }

  /** A rendered condition parses back to itself, up to the first token that is not AND or OR. */
  lemma {:induction false} ConditionRoundTrip(c: Condition, rest: seq<Token>)
    requires NotFree(c) && !Next(rest, Kw(KwAnd)) && !Next(rest, Kw(KwOr))
    ensures ParseCondition(RenderCondition(c) + rest) == Ok((c, rest))
    decreases c, 1
  {
    if c.And? || c.Or? {
      BinaryRoundTrip(c, rest);
    } else {
      SimpleOperandRoundTrip(c, rest);
    }
  }

  lemma {:induction false} BinaryRoundTrip(c: Condition, rest: seq<Token>)
    requires NotFree(c) && (c.And? || c.Or?) && !Next(rest, Kw(KwAnd)) && !Next(rest, Kw(KwOr))
    ensures ParseCondition(RenderCondition(c) + rest) == Ok((c, rest))
    decreases c, 0
  {
    var ts := RenderCondition(c) + rest;
    var op := if c.And? then KwAnd else KwOr;
    var tail := [KwTok(op)] + (RenderCondition(c.right) + rest);
    assert ts == RenderOperand(c.left) + tail;
    OperandRoundTrip(c.left, tail);
    assert tail[1..] == RenderCondition(c.right) + rest;
    ConditionRoundTrip(c.right, rest);
    ConditionStep(ts, c.left, tail);
  }

  /** `p_condition` after its first operand: the end, or AND/OR and a further condition. */
  lemma ConditionStep(ts: seq<Token>, left: Condition, a: seq<Token>)
    requires ParseOperand(ts) == Ok((left, a))
    ensures !Next(a, Kw(KwAnd)) && !Next(a, Kw(KwOr)) ==> ParseCondition(ts) == Ok((left, a))
    ensures Next(a, Kw(KwAnd)) && ParseCondition(a[1..]).Ok? ==>
      ParseCondition(ts) == Ok((And(left, ParseCondition(a[1..]).value.0), ParseCondition(a[1..]).value.1))
    ensures Next(a, Kw(KwOr)) && ParseCondition(a[1..]).Ok? ==>
      ParseCondition(ts) == Ok((Or(left, ParseCondition(a[1..]).value.0), ParseCondition(a[1..]).value.1))
  {
  }

  /** A rendered operand parses back to itself, whatever follows it. */
  lemma {:induction false} OperandRoundTrip(c: Condition, rest: seq<Token>)
    requires NotFree(c)
    ensures ParseOperand(RenderOperand(c) + rest) == Ok((c, rest))
    decreases c, 3
  {
    if c.And? || c.Or? {
      ParenRoundTrip(c, rest);
    } else {
      SimpleOperandRoundTrip(c, rest);
    }
  }

  lemma {:induction false} ParenRoundTrip(c: Condition, rest: seq<Token>)
    requires NotFree(c) && (c.And? || c.Or?)
    ensures ParseOperand(RenderOperand(c) + rest) == Ok((c, rest))
    decreases c, 2
  {
    var ts := RenderOperand(c) + rest;
    assert ts[0] == SymTok(LParen) && ts[1..] == RenderCondition(c) + ([SymTok(RParen)] + rest);
    ConditionRoundTrip(c, [SymTok(RParen)] + rest);
    ParenStep(ts, c, rest);
  }

  /** A '(' followed by a condition and a ')' is that condition as an operand. */
  lemma ParenStep(ts: seq<Token>, c: Condition, rest: seq<Token>)
    requires Next(ts, Sym(LParen)) && ParseCondition(ts[1..]) == Ok((c, [SymTok(RParen)] + rest))
    ensures ParseOperand(ts) == Ok((c, rest))
  {
    assert ([SymTok(RParen)] + rest)[1..] == rest;
  }

  // ---------------------------------------------------------------------
  // Select items and lists.

  /** The keyword an aggregate name is written with. */
  function AggregateKeyword(f: string): Keyword
  {
    if f == "COUNT" then KwCount else if f == "SUM" then KwSum else KwAvg
  }

  function RenderItem(item: SelectItem): seq<Token>
  {
    match item
    case Star => [SymTok(Times)]
    case Column(name) => [NameTok(name)]
    case Aggregate(f, c) =>
      [Tok(Kw(AggregateKeyword(f)), f), SymTok(LParen), if c == "*" then SymTok(Times) else NameTok(c), SymTok(RParen)]
  }

  lemma CountUpper() ensures Upper("COUNT") == "COUNT" { UpperOf("COUNT", "COUNT"); }
  lemma SumUpper() ensures Upper("SUM") == "SUM" { UpperOf("SUM", "SUM"); }
  lemma AvgUpper() ensures Upper("AVG") == "AVG" { UpperOf("AVG", "AVG"); }
  lemma AscUpper() ensures Upper("ASC") == "ASC" { UpperOf("ASC", "ASC"); }
  lemma DescUpper() ensures Upper("DESC") == "DESC" { UpperOf("DESC", "DESC"); }

  /** The upper-case names of the aggregates are their own upper-cased form. */
  lemma AggregateUpper(f: string)
    requires f in {"COUNT", "SUM", "AVG"}
    ensures Upper(f) == f
  {
    if f == "COUNT" { CountUpper(); } else if f == "SUM" { SumUpper(); } else { AvgUpper(); }
  }

  lemma AggregateRoundTrip(item: SelectItem, rest: seq<Token>)
    requires item.Aggregate? && ValidItem(item)
    ensures ParseAggregate(RenderItem(item) + rest) == Ok((item, rest))
  {
    var ts := RenderItem(item) + rest;
    AggregateUpper(item.func);
    assert ts[..4] == RenderItem(item) && ts[4..] == rest;
    AggregateStep(ts, item.func, item.column, rest);
  }

  /** `p_aggregate_function` over any four tokens laid out as an aggregate renders them. */
  lemma AggregateStep(ts: seq<Token>, f: string, c: string, rest: seq<Token>)
    requires |ts| >= 4 && ts[4..] == rest && Upper(f) == f
    requires ts[0].ttype in {Kw(KwCount), Kw(KwSum), Kw(KwAvg)} && TextOf(ts[0]) == f
    requires ts[1].ttype == Sym(LParen) && ts[3].ttype == Sym(RParen) && TextOf(ts[2]) == c
    requires ts[2].ttype == Identifier || (ts[2].ttype == Sym(Times) && ts[0].ttype == Kw(KwCount))
    ensures ParseAggregate(ts) == Ok((Aggregate(f, c), rest))
  {
    assert ts[1..][0] == ts[1] && ts[1..][1..] == ts[2..];
    assert ts[2..][0] == ts[2] && ts[2..][1..] == ts[3..];
    assert ts[3..][0] == ts[3] && ts[3..][1..] == ts[4..];
  }

  lemma ItemRoundTrip(item: SelectItem, rest: seq<Token>)
    requires ValidItem(item)
    ensures ParseSelectItem(RenderItem(item) + rest) == Ok((item, rest))
  {
    if item.Aggregate? {
      AggregateRoundTrip(item, rest);
    } else {
      assert (RenderItem(item) + rest)[1..] == rest;
    }
  }

  function RenderItems(items: seq<SelectItem>): seq<Token>
    requires |items| > 0
  {
    RenderItem(items[0]) + if |items| == 1 then [] else [SymTok(Comma)] + RenderItems(items[1..])
  }

  /** `p_select_list`'s two alternatives, one step at a time. */
  lemma SelectListStep(ts: seq<Token>, item: SelectItem, a: seq<Token>)
    requires ParseSelectItem(ts) == Ok((item, a))
    ensures !Next(a, Sym(Comma)) ==> ParseSelectList(ts) == Ok(([item], a))
    ensures Next(a, Sym(Comma)) && ParseSelectList(a[1..]).Ok? ==>
      ParseSelectList(ts) == Ok(([item] + ParseSelectList(a[1..]).value.0, ParseSelectList(a[1..]).value.1))
  {
  }

  lemma {:induction false} ItemsRoundTrip(items: seq<SelectItem>, rest: seq<Token>)
    requires |items| > 0 && (forall k :: 0 <= k < |items| ==> ValidItem(items[k])) && !Next(rest, Sym(Comma))
    ensures ParseSelectList(RenderItems(items) + rest) == Ok((items, rest))
    decreases |items|
  {
    var ts := RenderItems(items) + rest;
    if |items| == 1 {
      assert ts == RenderItem(items[0]) + rest;
      ItemRoundTrip(items[0], rest);
      SelectListStep(ts, items[0], rest);
      assert items == [items[0]];
    } else {
      var tail := [SymTok(Comma)] + (RenderItems(items[1..]) + rest);
      assert ts == RenderItem(items[0]) + tail;
      ItemRoundTrip(items[0], tail);
      assert tail[1..] == RenderItems(items[1..]) + rest;
      ItemsRoundTrip(items[1..], rest);
      SelectListStep(ts, items[0], tail);
      assert items == [items[0]] + items[1..];
    }
  }

  function RenderNames(names: seq<string>): seq<Token>
    requires |names| > 0
  {
    [NameTok(names[0])] + if |names| == 1 then [] else [SymTok(Comma)] + RenderNames(names[1..])
  }

  lemma {:induction false} NamesRoundTrip(names: seq<string>, rest: seq<Token>)
    requires |names| > 0 && !Next(rest, Sym(Comma))
    ensures ParseColumnList(RenderNames(names) + rest) == Ok((names, rest))
    decreases |names|
  {
    var ts := RenderNames(names) + rest;
    if |names| == 1 {
      assert ts[1..] == rest && names == [names[0]];
    } else {
      assert ts[1..][1..] == RenderNames(names[1..]) + rest;
      NamesRoundTrip(names[1..], rest);
      assert names == [names[0]] + names[1..];
    }
  }

  function RenderValues(values: seq<Literal>): seq<Token>
    requires |values| > 0
  {
    [LiteralTok(values[0])] + if |values| == 1 then [] else [SymTok(Comma)] + RenderValues(values[1..])
  }

  lemma LiteralRoundTrip(v: Literal, rest: seq<Token>)
    ensures ParseValue([LiteralTok(v)] + rest) == Ok((v, rest))
  {
    assert ([LiteralTok(v)] + rest)[1..] == rest;
  }

  lemma ValueListStep(ts: seq<Token>, v: Literal, a: seq<Token>)
    requires ParseValue(ts) == Ok((v, a))
    ensures !Next(a, Sym(Comma)) ==> ParseValueList(ts) == Ok(([v], a))
    ensures Next(a, Sym(Comma)) && ParseValueList(a[1..]).Ok? ==>
      ParseValueList(ts) == Ok(([v] + ParseValueList(a[1..]).value.0, ParseValueList(a[1..]).value.1))
  {
  }

  lemma {:induction false} ValuesRoundTrip(values: seq<Literal>, rest: seq<Token>)
    requires |values| > 0 && !Next(rest, Sym(Comma))
    ensures ParseValueList(RenderValues(values) + rest) == Ok((values, rest))
    decreases |values|
  {
    var ts := RenderValues(values) + rest;
    if |values| == 1 {
      assert ts == [LiteralTok(values[0])] + rest;
      LiteralRoundTrip(values[0], rest);
      ValueListStep(ts, values[0], rest);
      assert values == [values[0]];
    } else {
      var tail := [SymTok(Comma)] + (RenderValues(values[1..]) + rest);
      assert ts == [LiteralTok(values[0])] + tail;
      LiteralRoundTrip(values[0], tail);
      assert tail[1..] == RenderValues(values[1..]) + rest;
      ValuesRoundTrip(values[1..], rest);
      ValueListStep(ts, values[0], tail);
      assert values == [values[0]] + values[1..];
    }
  }

  function RenderOrderItem(o: OrderItem): seq<Token>
  {
    [NameTok(o.column), Tok(Kw(if o.direction == "ASC" then KwAsc else KwDesc), o.direction)]
  }

  lemma OrderItemRoundTrip(o: OrderItem, rest: seq<Token>)
    requires ValidOrderItem(o)
    ensures ParseOrderItem(RenderOrderItem(o) + rest) == Ok((o, rest))
  {
    var ts := RenderOrderItem(o) + rest;
    if o.direction == "ASC" { AscUpper(); } else { DescUpper(); }
    assert ts[1..][1..] == rest;
  }

  function RenderOrderItems(items: seq<OrderItem>): seq<Token>
    requires |items| > 0
  {
    RenderOrderItem(items[0]) + if |items| == 1 then [] else [SymTok(Comma)] + RenderOrderItems(items[1..])
  }

  lemma OrderListStep(ts: seq<Token>, item: OrderItem, a: seq<Token>)
    requires ParseOrderItem(ts) == Ok((item, a))
    ensures !Next(a, Sym(Comma)) ==> ParseOrderList(ts) == Ok(([item], a))
    ensures Next(a, Sym(Comma)) && ParseOrderList(a[1..]).Ok? ==>
      ParseOrderList(ts) == Ok(([item] + ParseOrderList(a[1..]).value.0, ParseOrderList(a[1..]).value.1))
  {
  }

  lemma {:induction false} OrderItemsRoundTrip(items: seq<OrderItem>, rest: seq<Token>)
    requires |items| > 0 && (forall k :: 0 <= k < |items| ==> ValidOrderItem(items[k])) && !Next(rest, Sym(Comma))
    ensures ParseOrderList(RenderOrderItems(items) + rest) == Ok((items, rest))
    decreases |items|
  {
    var ts := RenderOrderItems(items) + rest;
    if |items| == 1 {
      assert ts == RenderOrderItem(items[0]) + rest;
      OrderItemRoundTrip(items[0], rest);
      OrderListStep(ts, items[0], rest);
      assert items == [items[0]];
    } else {
      var tail := [SymTok(Comma)] + (RenderOrderItems(items[1..]) + rest);
      assert ts == RenderOrderItem(items[0]) + tail;
      OrderItemRoundTrip(items[0], tail);
      assert tail[1..] == RenderOrderItems(items[1..]) + rest;
      OrderItemsRoundTrip(items[1..], rest);
      OrderListStep(ts, items[0], tail);
      assert items == [items[0]] + items[1..];
    }
  }

  function RenderAssignments(items: seq<(string, Literal)>): seq<Token>
    requires |items| > 0
  {
    [NameTok(items[0].0), SymTok(Eq), LiteralTok(items[0].1)]
    + if |items| == 1 then [] else [SymTok(Comma)] + RenderAssignments(items[1..])
  }

  /** `set_list`'s two alternatives, one step at a time. */
  lemma SetItemsStep(ts: seq<Token>, v: Literal, a: seq<Token>)
    requires |ts| >= 3 && ts[0].ttype == Identifier && ts[1].ttype == Sym(Eq) && ParseValue(ts[2..]) == Ok((v, a))
    ensures !Next(a, Sym(Comma)) ==> ParseSetItems(ts) == Ok(([(TextOf(ts[0]), v)], a))
    ensures Next(a, Sym(Comma)) && ParseSetItems(a[1..]).Ok? ==>
      ParseSetItems(ts) == Ok(([(TextOf(ts[0]), v)] + ParseSetItems(a[1..]).value.0, ParseSetItems(a[1..]).value.1))
  {
    assert ts[1..][1..] == ts[2..];
  }

  lemma {:induction false} AssignmentsRoundTrip(items: seq<(string, Literal)>, rest: seq<Token>)
    requires |items| > 0 && !Next(rest, Sym(Comma))
    ensures ParseSetItems(RenderAssignments(items) + rest) == Ok((items, rest))
    decreases |items|
  {
    var ts := RenderAssignments(items) + rest;
    var tail := AssignmentsTail(items, rest);
    AssignmentSplit(items, rest);
    LiteralRoundTrip(items[0].1, tail);
    SetItemsStep(ts, items[0].1, tail);
    assert TextOf(ts[0]) == items[0].0;
    if |items| == 1 {
      assert items == [(items[0].0, items[0].1)];
    } else {
      var rest' := RenderAssignments(items[1..]) + rest;
      assert tail == [SymTok(Comma)] + rest' && tail[1..] == rest';
      AssignmentsRoundTrip(items[1..], rest);
      assert items == [(items[0].0, items[0].1)] + items[1..];
    }
  }

  /** What follows the first assignment's value: `rest`, or a comma and the other assignments. */
  function AssignmentsTail(items: seq<(string, Literal)>, rest: seq<Token>): seq<Token>
    requires |items| > 0
  {
    if |items| == 1 then rest else [SymTok(Comma)] + (RenderAssignments(items[1..]) + rest)
  }

  /** A rendered SET list opens with its first column, '=' and the first value. */
  lemma AssignmentSplit(items: seq<(string, Literal)>, rest: seq<Token>)
    requires |items| > 0
    ensures var ts := RenderAssignments(items) + rest;
      |ts| >= 3 && ts[0] == NameTok(items[0].0) && ts[1] == SymTok(Eq)
      && ts[2..] == [LiteralTok(items[0].1)] + AssignmentsTail(items, rest)
  {
    var head := [NameTok(items[0].0), SymTok(Eq), LiteralTok(items[0].1)];
    var more := if |items| == 1 then [] else [SymTok(Comma)] + RenderAssignments(items[1..]);
    Seqs.AppendAssoc(head, more, rest);
    if |items| > 1 {
      Seqs.AppendAssoc([SymTok(Comma)], RenderAssignments(items[1..]), rest);
    }
    var ts := RenderAssignments(items) + rest;
    assert ts == head + AssignmentsTail(items, rest);
    assert ts[2..] == [LiteralTok(items[0].1)] + AssignmentsTail(items, rest);
  }

  /** Merging a SET list whose columns are already distinct changes nothing. */
  lemma {:induction false} MergeDistinct(items: seq<(string, Literal)>)
    requires Assoc.DistinctKeys(items)
    ensures MergeAssignments(items) == items
    decreases |items|
  {
    if |items| > 1 {
      Assoc.TailDistinct(items);
      MergeDistinct(items[1..]);
      Assoc.LookupKeys(items[1..], items[0].0);
      assert items == [items[0]] + items[1..];
    }
  }

  // ---------------------------------------------------------------------
  // Clauses and statements.

  /** `ts` is empty or opens with one of the keywords `ks`. */
  predicate Opens(ts: seq<Token>, ks: set<Keyword>)
  {
    ts == [] || (ts[0].ttype.Kw? && ts[0].ttype.kw in ks)
  }

  function RenderJoin(j: Option<JoinClause>): seq<Token>
  {
    match j
    case None => []
    case Some(JoinClause(_, t, l, r)) =>
      [KwTok(KwLeft), KwTok(KwJoin), NameTok(t), KwTok(KwOn), NameTok(l), SymTok(Eq), NameTok(r)]
  }

  function RenderWhere(w: Option<Condition>): seq<Token>
    requires ValidWhere(w)
  {
    match w
    case None => []
    case Some(c) => [KwTok(KwWhere)] + RenderCondition(c)
  }

  function RenderGroupBy(g: Option<seq<string>>): seq<Token>
    requires g.Some? ==> |g.value| > 0
  {
    match g
    case None => []
    case Some(names) => [KwTok(KwGroup), KwTok(KwBy)] + RenderNames(names)
  }

  function RenderOrderBy(o: Option<seq<OrderItem>>): seq<Token>
    requires o.Some? ==> |o.value| > 0
  {
    match o
    case None => []
    case Some(items) => [KwTok(KwOrder), KwTok(KwBy)] + RenderOrderItems(items)
  }

  function RenderLimit(l: Option<Literal>): seq<Token>
  {
    match l
    case None => []
    case Some(v) => [KwTok(KwLimit), LiteralTok(v)]
  }

  function RenderClauses(c: Clauses): seq<Token>
    requires ValidClauses(c)
  {
    RenderJoin(c.join) + (RenderWhere(c.where) + (RenderGroupBy(c.groupBy) + (RenderOrderBy(c.orderBy) + RenderLimit(c.limit))))
  }

  lemma JoinRoundTrip(j: Option<JoinClause>, rest: seq<Token>)
    requires j.Some? ==> j.value.joinType == "LEFT"
    requires Opens(rest, {KwWhere, KwGroup, KwOrder, KwLimit})
    ensures ParseJoin(RenderJoin(j) + rest) == Ok((j, rest))
  {
    if j.Some? {
      var ts := RenderJoin(j) + rest;
      assert ts[..7] == RenderJoin(j) && ts[7..] == rest;
      JoinStep(ts, j.value.table, j.value.leftColumn, j.value.rightColumn);
    } else {
      assert RenderJoin(j) + rest == rest;
    }
  }

  /** `LEFT JOIN t ON l = r` read token by token. */
  lemma JoinStep(ts: seq<Token>, table: string, left: string, right: string)
    requires |ts| >= 7 && ts[0].ttype == Kw(KwLeft) && ts[1].ttype == Kw(KwJoin) && ts[3].ttype == Kw(KwOn)
    requires ts[5].ttype == Sym(Eq) && ts[2] == NameTok(table) && ts[4] == NameTok(left) && ts[6] == NameTok(right)
    ensures ParseJoin(ts) == Ok((Some(JoinClause("LEFT", table, left, right)), ts[7..]))
  {
    assert ts[1..][0] == ts[1] && ts[1..][1..] == ts[2..];
    assert ts[2..][0] == ts[2] && ts[2..][1..] == ts[3..];
    assert ts[3..][0] == ts[3] && ts[3..][1..] == ts[4..];
    assert ts[4..][0] == ts[4] && ts[4..][1..] == ts[5..];
    assert ts[5..][0] == ts[5] && ts[5..][1..] == ts[6..];
    assert ts[6..][0] == ts[6] && ts[6..][1..] == ts[7..];
  }

  lemma WhereRoundTrip(w: Option<Condition>, rest: seq<Token>)
    requires ValidWhere(w) && Opens(rest, {KwGroup, KwOrder, KwLimit})
    ensures ParseWhere(RenderWhere(w) + rest) == Ok((w, rest))
  {
    match w
    case Some(c) =>
      OpensNeither(rest, {KwGroup, KwOrder, KwLimit});
      WhereSomeRoundTrip(c, rest);
    case None =>
      assert RenderWhere(w) + rest == rest;
  }

  /** A clause keyword other than AND and OR up next rules both out. */
  lemma OpensNeither(rest: seq<Token>, ks: set<Keyword>)
    requires Opens(rest, ks) && KwAnd !in ks && KwOr !in ks
    ensures !Next(rest, Kw(KwAnd)) && !Next(rest, Kw(KwOr))
  {
  }

  lemma WhereSomeRoundTrip(c: Condition, rest: seq<Token>)
    requires NotFree(c) && !Next(rest, Kw(KwAnd)) && !Next(rest, Kw(KwOr))
    ensures ParseWhere(RenderWhere(Some(c)) + rest) == Ok((Some(c), rest))
  {
    Seqs.AppendAssoc([KwTok(KwWhere)], RenderCondition(c), rest);
    ConditionClauseRoundTrip(c, rest);
  }

  lemma ConditionClauseRoundTrip(c: Condition, rest: seq<Token>)
    requires NotFree(c) && !Next(rest, Kw(KwAnd)) && !Next(rest, Kw(KwOr))
    ensures ParseWhere([KwTok(KwWhere)] + (RenderCondition(c) + rest)) == Ok((Some(c), rest))
  {
    var body := RenderCondition(c) + rest;
    ConditionRoundTrip(c, rest);
    var ts := [KwTok(KwWhere)] + body;
    assert ts[1..] == body;
    WhereStep(ts, c, rest);
  }

  lemma WhereStep(ts: seq<Token>, c: Condition, rest: seq<Token>)
    requires Next(ts, Kw(KwWhere)) && ParseCondition(ts[1..]) == Ok((c, rest))
    ensures ParseWhere(ts) == Ok((Some(c), rest))
  {
  }

  lemma GroupByRoundTrip(g: Option<seq<string>>, rest: seq<Token>)
    requires (g.Some? ==> |g.value| > 0) && Opens(rest, {KwOrder, KwLimit})
    ensures ParseGroupBy(RenderGroupBy(g) + rest) == Ok((g, rest))
  {
    if g.Some? {
      Seqs.AppendAssoc([KwTok(KwGroup), KwTok(KwBy)], RenderNames(g.value), rest);
      NamesClauseRoundTrip(g.value, rest);
    } else {
      assert RenderGroupBy(g) + rest == rest;
    }
  }

  lemma NamesClauseRoundTrip(names: seq<string>, rest: seq<Token>)
    requires |names| > 0 && !Next(rest, Sym(Comma))
    ensures ParseGroupBy([KwTok(KwGroup), KwTok(KwBy)] + (RenderNames(names) + rest)) == Ok((Some(names), rest))
  {
    NamesRoundTrip(names, rest);
    GroupByStep([KwTok(KwGroup), KwTok(KwBy)] + (RenderNames(names) + rest), RenderNames(names) + rest, names, rest);
  }

  /** `GROUP BY` followed by a column list reads as that list. */
  lemma GroupByStep(ts: seq<Token>, body: seq<Token>, names: seq<string>, rest: seq<Token>)
    requires |ts| >= 2 && ts[0] == KwTok(KwGroup) && ts[1] == KwTok(KwBy) && ts[2..] == body
    requires ParseColumnList(body) == Ok((names, rest))
    ensures ParseGroupBy(ts) == Ok((Some(names), rest))
  {
    assert ts[1..][1..] == body;
  }

  lemma OrderByRoundTrip(o: Option<seq<OrderItem>>, rest: seq<Token>)
    requires (o.Some? ==> |o.value| > 0 && forall k :: 0 <= k < |o.value| ==> ValidOrderItem(o.value[k]))
    requires Opens(rest, {KwLimit})
    ensures ParseOrderBy(RenderOrderBy(o) + rest) == Ok((o, rest))
  {
    if o.Some? {
      Seqs.AppendAssoc([KwTok(KwOrder), KwTok(KwBy)], RenderOrderItems(o.value), rest);
      OrderClauseRoundTrip(o.value, rest);
    } else {
      assert RenderOrderBy(o) + rest == rest;
    }
  }

  lemma OrderClauseRoundTrip(items: seq<OrderItem>, rest: seq<Token>)
    requires |items| > 0 && (forall k :: 0 <= k < |items| ==> ValidOrderItem(items[k])) && !Next(rest, Sym(Comma))
    ensures ParseOrderBy([KwTok(KwOrder), KwTok(KwBy)] + (RenderOrderItems(items) + rest)) == Ok((Some(items), rest))
  {
    OrderItemsRoundTrip(items, rest);
    OrderByStep([KwTok(KwOrder), KwTok(KwBy)] + (RenderOrderItems(items) + rest), RenderOrderItems(items) + rest, items, rest);
  }

  /** `ORDER BY` followed by an order list reads as that list. */
  lemma OrderByStep(ts: seq<Token>, body: seq<Token>, items: seq<OrderItem>, rest: seq<Token>)
    requires |ts| >= 2 && ts[0] == KwTok(KwOrder) && ts[1] == KwTok(KwBy) && ts[2..] == body
    requires ParseOrderList(body) == Ok((items, rest))
    ensures ParseOrderBy(ts) == Ok((Some(items), rest))
  {
    assert ts[1..][1..] == body;
  }

  lemma LimitRoundTrip(l: Option<Literal>)
    requires l.Some? ==> l.value.Num?
    ensures ParseLimit(RenderLimit(l)) == Ok((l, []))
  {
    if l.Some? {
      var ts := RenderLimit(l);
      assert ts[1..] == [LiteralTok(l.value)] && ts[2..] == [];
    }
  }

  lemma ClausesRoundTrip(c: Clauses)
    requires ValidClauses(c)
    ensures ParseClauses(RenderClauses(c)) == Ok((c, []))
  {
    var l := RenderLimit(c.limit);
    var o := RenderOrderBy(c.orderBy) + l;
    var g := RenderGroupBy(c.groupBy) + o;
    var w := RenderWhere(c.where) + g;
    LimitRoundTrip(c.limit);
    LimitOpens(c.limit);
    OrderByRoundTrip(c.orderBy, l);
    OrderByOpens(c.orderBy, l);
    GroupByRoundTrip(c.groupBy, o);
    GroupByOpens(c.groupBy, o);
    WhereRoundTrip(c.where, g);
    WhereOpens(c.where, g);
    JoinRoundTrip(c.join, w);
    ClausesStep(RenderClauses(c), c, w, g, o, l);
  }

  /** The five optional clauses, each read back in turn, are the clauses read together. */
  lemma ClausesStep(ts: seq<Token>, c: Clauses, w: seq<Token>, g: seq<Token>, o: seq<Token>, l: seq<Token>)
    requires ParseJoin(ts) == Ok((c.join, w)) && ParseWhere(w) == Ok((c.where, g))
    requires ParseGroupBy(g) == Ok((c.groupBy, o)) && ParseOrderBy(o) == Ok((c.orderBy, l))
    requires ParseLimit(l) == Ok((c.limit, []))
    ensures ParseClauses(ts) == Ok((c, []))
  {
  }

  lemma LimitOpens(l: Option<Literal>)
    ensures Opens(RenderLimit(l), {KwLimit})
  {
  }

  lemma OrderByOpens(o: Option<seq<OrderItem>>, rest: seq<Token>)
    requires (o.Some? ==> |o.value| > 0) && Opens(rest, {KwLimit})
    ensures Opens(RenderOrderBy(o) + rest, {KwOrder, KwLimit})
  {
    if o.None? { assert RenderOrderBy(o) + rest == rest; }
  }

  lemma GroupByOpens(g: Option<seq<string>>, rest: seq<Token>)
    requires (g.Some? ==> |g.value| > 0) && Opens(rest, {KwOrder, KwLimit})
    ensures Opens(RenderGroupBy(g) + rest, {KwGroup, KwOrder, KwLimit})
  {
    if g.None? { assert RenderGroupBy(g) + rest == rest; }
  }

  lemma WhereOpens(w: Option<Condition>, rest: seq<Token>)
    requires ValidWhere(w) && Opens(rest, {KwGroup, KwOrder, KwLimit})
    ensures Opens(RenderWhere(w) + rest, {KwWhere, KwGroup, KwOrder, KwLimit})
  {
    if w.None? { assert RenderWhere(w) + rest == rest; }
  }

  /** The tokens of a query. */
  function Render(q: Query): seq<Token>
    requires ValidQuery(q)
  {
    match q
    case SelectQuery(_, columns, table, join, where, groupBy, orderBy, limit) =>
      [KwTok(KwSelect)] + (RenderItems(columns) + ([KwTok(KwFrom), NameTok(table)]
        + RenderClauses(Clauses(join, where, groupBy, orderBy, limit))))
    case InsertQuery(table, columns, values) =>
      [KwTok(KwInsert), KwTok(KwInto), NameTok(table)] + (RenderInsertColumns(columns) + RenderValuesClause(values))
    case UpdateQuery(table, assignments, where) =>
      [KwTok(KwUpdate), NameTok(table), KwTok(KwSet)] + (RenderAssignments(assignments) + RenderWhere(where))
    case DeleteQuery(table, where) =>
      [KwTok(KwDelete), KwTok(KwFrom), NameTok(table)] + RenderWhere(where)
  }

  lemma SelectRoundTrip(q: Query)
    requires q.SelectQuery? && ValidQuery(q)
    ensures ParseSelect(Render(q)) == Ok((q, []))
  {
    var ts := Render(q);
    var cl := Clauses(q.join, q.where, q.groupBy, q.orderBy, q.limit);
    var tail := [KwTok(KwFrom), NameTok(q.table)] + RenderClauses(cl);
    assert ts[1..] == RenderItems(q.columns) + tail;
    assert !Next(ts[1..], Kw(KwDistinct));
    ItemsRoundTrip(q.columns, tail);
    assert tail[1..][1..] == RenderClauses(cl);
    ClausesRoundTrip(cl);
    SelectSteps(ts, q.columns, tail, q.table, cl);
  }

  /** `p_select_query` read in order, when no DISTINCT is written. */
  lemma SelectSteps(ts: seq<Token>, columns: seq<SelectItem>, tail: seq<Token>, table: string, cl: Clauses)
    requires Next(ts, Kw(KwSelect)) && !Next(ts[1..], Kw(KwDistinct))
    requires ParseSelectList(ts[1..]) == Ok((columns, tail))
    requires |tail| >= 2 && Next(tail, Kw(KwFrom)) && ParseName(tail[1..]) == Ok((table, tail[2..]))
    requires ParseClauses(tail[2..]) == Ok((cl, []))
    ensures ParseSelect(ts) == Ok((SelectQuery(true, columns, table, cl.join, cl.where, cl.groupBy, cl.orderBy, cl.limit), []))
  {
    assert tail[1..][1..] == tail[2..];
  }

  function RenderInsertColumns(columns: Option<seq<string>>): seq<Token>
    requires columns.Some? ==> |columns.value| > 0
  {
    match columns
    case None => []
    case Some(names) => [SymTok(LParen)] + (RenderNames(names) + [SymTok(RParen)])
  }

  function RenderValuesClause(values: seq<Literal>): seq<Token>
    requires |values| > 0
  {
    [KwTok(KwValues), SymTok(LParen)] + (RenderValues(values) + [SymTok(RParen)])
  }

  lemma InsertColumnsRoundTrip(columns: Option<seq<string>>, rest: seq<Token>)
    requires (columns.Some? ==> |columns.value| > 0) && Next(rest, Kw(KwValues))
    ensures ParseInsertColumns(RenderInsertColumns(columns) + rest) == Ok((columns, rest))
  {
    if columns.Some? {
      var names := RenderNames(columns.value);
      Seqs.AppendAssoc([SymTok(LParen)], names + [SymTok(RParen)], rest);
      Seqs.AppendAssoc(names, [SymTok(RParen)], rest);
      ColumnListRoundTrip(columns.value, rest);
    } else {
      assert RenderInsertColumns(columns) + rest == rest;
    }
  }

  lemma ColumnListRoundTrip(names: seq<string>, rest: seq<Token>)
    requires |names| > 0
    ensures ParseInsertColumns([SymTok(LParen)] + (RenderNames(names) + ([SymTok(RParen)] + rest))) == Ok((Some(names), rest))
  {
    var body := RenderNames(names) + ([SymTok(RParen)] + rest);
    NamesRoundTrip(names, [SymTok(RParen)] + rest);
    var ts := [SymTok(LParen)] + body;
    assert ts[1..] == body;
    ColumnsStep(ts, names, rest);
  }

  /** A '(' followed by a column list and a ')' is that list of insert columns. */
  lemma ColumnsStep(ts: seq<Token>, names: seq<string>, rest: seq<Token>)
    requires Next(ts, Sym(LParen)) && ParseColumnList(ts[1..]) == Ok((names, [SymTok(RParen)] + rest))
    ensures ParseInsertColumns(ts) == Ok((Some(names), rest))
  {
    assert ([SymTok(RParen)] + rest)[1..] == rest;
  }

  lemma ValuesClauseRoundTrip(values: seq<Literal>)
    requires |values| > 0
    ensures ParseValuesClause(RenderValuesClause(values)) == Ok((values, []))
  {
    var ts := RenderValuesClause(values);
    assert ts[1..][1..] == RenderValues(values) + [SymTok(RParen)];
    ValuesRoundTrip(values, [SymTok(RParen)]);
  }

  /** `p_insert_query` read in order. */
  lemma InsertSteps(ts: seq<Token>, columns: Option<seq<string>>, c: seq<Token>, values: seq<Literal>)
    requires |ts| >= 3 && Next(ts, Kw(KwInsert)) && ts[1].ttype == Kw(KwInto) && ts[2].ttype == Identifier
    requires ParseInsertColumns(ts[3..]) == Ok((columns, c)) && ParseValuesClause(c) == Ok((values, []))
    ensures ParseInsert(ts) == Ok((InsertQuery(TextOf(ts[2]), columns, values), []))
  {
    assert ts[1..][1..] == ts[2..] && ts[2..][1..] == ts[3..];
  }

  lemma InsertRoundTrip(q: Query)
    requires q.InsertQuery? && ValidQuery(q)
    ensures ParseInsert(Render(q)) == Ok((q, []))
  {
    var ts := Render(q);
    var vs := RenderValuesClause(q.values);
    assert ts[3..] == RenderInsertColumns(q.insertColumns) + vs;
    InsertColumnsRoundTrip(q.insertColumns, vs);
    ValuesClauseRoundTrip(q.values);
    InsertSteps(ts, q.insertColumns, vs, q.values);
  }

  /** `p_update_query` read in order. */
  lemma UpdateSteps(ts: seq<Token>, items: seq<(string, Literal)>, c: seq<Token>, where: Option<Condition>)
    requires |ts| >= 3 && Next(ts, Kw(KwUpdate)) && ts[1].ttype == Identifier && ts[2].ttype == Kw(KwSet)
    requires ParseSetItems(ts[3..]) == Ok((items, c)) && ParseWhere(c) == Ok((where, []))
    ensures ParseUpdate(ts) == Ok((UpdateQuery(TextOf(ts[1]), MergeAssignments(items), where), []))
  {
    assert ts[1..][1..] == ts[2..] && ts[2..][1..] == ts[3..];
  }

  lemma UpdateRoundTrip(q: Query)
    requires q.UpdateQuery? && ValidQuery(q)
    ensures ParseUpdate(Render(q)) == Ok((q, []))
  {
    var ts := Render(q);
    var w := RenderWhere(q.where);
    assert ts[3..] == RenderAssignments(q.assignments) + w;
    AssignmentsRoundTrip(q.assignments, w);
    assert w + [] == w;
    WhereRoundTrip(q.where, []);
    MergeDistinct(q.assignments);
    UpdateSteps(ts, q.assignments, w, q.where);
  }

  lemma DeleteRoundTrip(q: Query)
    requires q.DeleteQuery? && ValidQuery(q)
    ensures ParseDelete(Render(q)) == Ok((q, []))
  {
    var ts := Render(q);
    assert ts[1..][1..][1..] == RenderWhere(q.where) + [];
    WhereRoundTrip(q.where, []);
  }

  /**
   * Every query `ValidQuery` admits is what the grammar builds from its
   * rendering: with `Parser.ParsedTextValid`, the trees parsing can produce
   * from a text are exactly the valid ones.
   */
  lemma RoundTrip(q: Query)
    requires ValidQuery(q)
    ensures Parse(Render(q)) == Ok(q)
  {
    StatementRoundTrip(q);
  }

  lemma StatementRoundTrip(q: Query)
    requires ValidQuery(q)
    ensures ParseStatement(Render(q)) == Ok((q, []))
  {
    RenderOpens(q);
    match q {
      case SelectQuery(_, _, _, _, _, _, _, _) => SelectRoundTrip(q);
      case InsertQuery(_, _, _) => InsertRoundTrip(q);
      case UpdateQuery(_, _, _) => UpdateRoundTrip(q);
      case DeleteQuery(_, _) => DeleteRoundTrip(q);
    }
    StatementStep(Render(q), q);
  }

  /** A statement's tokens read back through the parser its opening keyword selects. */
  lemma StatementStep(ts: seq<Token>, q: Query)
    requires |ts| > 0 && ts[0] == KwTok(StatementKeyword(q))
    requires q.SelectQuery? ==> ParseSelect(ts) == Ok((q, []))
    requires q.InsertQuery? ==> ParseInsert(ts) == Ok((q, []))
    requires q.UpdateQuery? ==> ParseUpdate(ts) == Ok((q, []))
    requires q.DeleteQuery? ==> ParseDelete(ts) == Ok((q, []))
    ensures ParseStatement(ts) == Ok((q, []))
  {
  }

  /** A rendered statement opens with the keyword of its kind. */
  lemma RenderOpens(q: Query)
    requires ValidQuery(q)
    ensures |Render(q)| > 0 && Render(q)[0] == KwTok(StatementKeyword(q))
  {
  }

  /** The keyword a statement of each kind opens with. */
  function StatementKeyword(q: Query): Keyword
  {
    match q
    case SelectQuery(_, _, _, _, _, _, _, _) => KwSelect
    case InsertQuery(_, _, _) => KwInsert
    case UpdateQuery(_, _, _) => KwUpdate
    case DeleteQuery(_, _) => KwDelete
  }
}
