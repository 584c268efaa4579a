/**
 * The query trees the grammar actions build (the source builds dicts and
 * lists; here each shape is a datatype) and the literal values they carry.
 */
module Ast {
  import opened Wrappers
  import opened Strings

  /** A NUMBER token's value: an int when the lexeme has no '.', else a float. */
  datatype Numeral =
    | IntNum(n: nat)
    | FloatNum(whole: string, frac: string)  // the digits before and after the '.'
  {
    ghost predicate Valid() {
      match this
      case IntNum(_) => true
      case FloatNum(w, f) => IsDigitString(w) && AllDigits(f)
    }
  }

  /** A `value` of the grammar: a number or the text of a string literal. */
  datatype Literal = Num(num: Numeral) | Text(text: string)

  /** A select-list item: `*`, a column name, or `{aggregate, column}`. */
  datatype SelectItem =
    | Star
    | Column(name: string)
    | Aggregate(func: string, column: string)

  datatype CompOp = Equal | NotEqual | Greater | Less | GreaterEq | LessEq

  /** The predicate tree of a WHERE clause. */
  datatype Condition =
    | Compare(column: string, op: CompOp, value: Literal)
    | Like(column: string, pattern: string)
    | And(left: Condition, right: Condition)
    | Or(left: Condition, right: Condition)
    | Not(inner: Condition)

  datatype JoinClause = JoinClause(joinType: string, table: string, leftColumn: string, rightColumn: string)

  datatype OrderItem = OrderItem(column: string, direction: string)

  datatype Query =
    | SelectQuery(distinct: bool, columns: seq<SelectItem>, table: string, join: Option<JoinClause>,
                  where: Option<Condition>, groupBy: Option<seq<string>>, orderBy: Option<seq<OrderItem>>,
                  limit: Option<Literal>)
    | InsertQuery(table: string, insertColumns: Option<seq<string>>, values: seq<Literal>)
    | UpdateQuery(table: string, assignments: seq<(string, Literal)>, where: Option<Condition>)
    | DeleteQuery(table: string, where: Option<Condition>)

  /** True when no NOT node occurs in the tree. */
  predicate NotFree(c: Condition)
  {
    match c
    case Compare(_, _, _) => true
    case Like(_, _) => true
    case And(l, r) => NotFree(l) && NotFree(r)
    case Or(l, r) => NotFree(l) && NotFree(r)
    case Not(_) => false
  }
}
