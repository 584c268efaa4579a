/**
 * `verifica_condicao`: a WHERE tree evaluated against one CSV record, with
 * the numeric-or-string comparison of leaves and the LIKE matcher built from
 * an anchored regular expression.
 */
module Conditions {
  import opened Wrappers
  import opened Strings
  import opened Ast
  import opened Values
  import Assoc

  // ---------------------------------------------------------------------
  // LIKE. The pattern becomes the regex `^...$` with `%` -> `.*` and `_` -> `.`,
  // matched with re.IGNORECASE: `.` takes any character but a newline, and
  // `$` also matches just before a newline that ends the text.

  /** A character with a meaning of its own in a Python regular expression. */
  predicate IsRegexMeta(c: char)
  {
    c in ".^$*+?{}[]\\|()"
  }

  /** A LIKE pattern whose characters other than `%` and `_` all stand for themselves. */
  predicate PlainPattern(p: string)
  {
    forall i :: 0 <= i < |p| ==> !IsRegexMeta(p[i])
  }

  /** One pattern character against one text character: `_` is any but a newline, others ignore case. */
  predicate CharMatches(pc: char, c: char)
  {
    if pc == '_' then c != '\n' else LowerChar(pc) == LowerChar(c)
  }

  /** The translated pattern matches all of `s`. */
  predicate Matches(p: string, s: string)
    decreases |p| + |s|
  {
    if p == [] then s == []
    else if p[0] == '%' then Matches(p[1..], s) || (s != [] && s[0] != '\n' && Matches(p, s[1..]))
    else s != [] && CharMatches(p[0], s[0]) && Matches(p[1..], s[1..])
  }

  /** `re.match("^" + regex + "$", s, re.IGNORECASE)` succeeds. */
  predicate LikeMatch(p: string, s: string)
  {
    Matches(p, s) || (|s| > 0 && s[|s| - 1] == '\n' && Matches(p, s[..|s| - 1]))
  }

  /** A pattern without a newline matches no text with one: neither `%` nor `_` takes a newline. */
  lemma {:induction false} NewlineBlocksMatch(p: string, s: string, i: nat)
    requires '\n' !in p && i < |s| && s[i] == '\n'
    ensures !Matches(p, s)
    decreases |p| + |s|
  {
    if p != [] {
      assert p[0] in p && forall c :: c in p[1..] ==> c in p;
      if p[0] == '%' {
        NewlineBlocksMatch(p[1..], s, i);
        if i > 0 {
          NewlineBlocksMatch(p, s[1..], i - 1);
        }
      } else if i > 0 {
        NewlineBlocksMatch(p[1..], s[1..], i - 1);
      }
    }
  }

  /**
   * `$` lets one final newline through: a pattern without a newline matches
   * a text followed by a newline exactly when it matches the text itself,
   * and never a text with a newline anywhere else.
   */
  lemma LikeFinalNewline(p: string, s: string)
    requires '\n' !in p
    ensures LikeMatch(p, s + "\n") <==> LikeMatch(p, s) && '\n' !in s
  {
    var t := s + "\n";
    assert t[..|t| - 1] == s;
    NewlineBlocksMatch(p, t, |t| - 1);
    if i :| 0 <= i < |s| && s[i] == '\n' {
      NewlineBlocksMatch(p, s, i);
    }
  }

  /** `%` alone matches exactly the texts without a newline. */
  lemma {:induction false} PercentMatches(s: string)
    ensures Matches("%", s) <==> '\n' !in s
    decreases |s|
  {
    assert "%"[1..] == [];
    if s != [] {
      PercentMatches(s[1..]);
      assert s == [s[0]] + s[1..];
    }
  }

  /** A single non-`%` pattern character matches exactly the one-character texts it accepts. */
  lemma OneCharMatches(c: char, s: string)
    requires c != '%'
    ensures Matches([c], s) <==> |s| == 1 && CharMatches(c, s[0])
  {
    assert [c][1..] == [];
  }

  /** Matching a concatenated pattern against a concatenated text, piece by piece. */
  lemma {:induction false} MatchesConcat(p1: string, p2: string, s1: string, s2: string)
    requires Matches(p1, s1) && Matches(p2, s2)
    ensures Matches(p1 + p2, s1 + s2)
    decreases |p1| + |s1|
  {
    if p1 == [] {
      assert p1 + p2 == p2 && s1 + s2 == s2;
    } else if p1[0] == '%' {
      assert (p1 + p2)[1..] == p1[1..] + p2;
      if Matches(p1[1..], s1) {
        MatchesConcat(p1[1..], p2, s1, s2);
      } else {
        MatchesConcat(p1, p2, s1[1..], s2);
        assert (s1 + s2)[1..] == s1[1..] + s2;
      }
    } else {
      assert (p1 + p2)[1..] == p1[1..] + p2;
      assert (s1 + s2)[1..] == s1[1..] + s2;
      MatchesConcat(p1[1..], p2, s1[1..], s2);
    }
  }

  /** A match of a concatenated pattern splits the text between the two parts. */
  lemma {:induction false} MatchesSplit(p1: string, p2: string, s: string) returns (k: nat)
    requires Matches(p1 + p2, s)
    ensures k <= |s| && Matches(p1, s[..k]) && Matches(p2, s[k..])
    decreases |p1| + |s|
  {
    var p := p1 + p2;
    if p1 == [] {
      assert p == p2 && s[0..] == s;
      k := 0;
    } else if p1[0] == '%' {
      assert p[1..] == p1[1..] + p2;
      if Matches(p[1..], s) {
        k := MatchesSplit(p1[1..], p2, s);
      } else {
        var k' := MatchesSplit(p1, p2, s[1..]);
        k := k' + 1;
        assert s[1..][..k'] == s[..k][1..] && s[1..][k'..] == s[k..];
      }
    } else {
      assert p[1..] == p1[1..] + p2;
      var k' := MatchesSplit(p1[1..], p2, s[1..]);
      k := k' + 1;
      assert s[1..][..k'] == s[..k][1..] && s[1..][k'..] == s[k..];
    }
  }

  /** A pattern without `%` matches only texts of its own length. */
  lemma {:induction false} FixedWidth(p: string, s: string)
    requires '%' !in p && Matches(p, s)
    ensures |s| == |p|
    decreases |p|
  {
    if p != [] {
      FixedWidth(p[1..], s[1..]);
    }
  }

  /** Case never matters to LIKE: matching against the lower-cased text gives the same answer. */
  lemma {:induction false} MatchesIgnoresCase(p: string, s: string)
    ensures Matches(p, s) <==> Matches(p, Lower(s))
    decreases |p| + |s|
  {
    var l := Lower(s);
    if s != [] {
      assert l[1..] == Lower(s[1..]);
      assert l[0] == LowerChar(s[0]);
      assert LowerChar(LowerChar(s[0])) == LowerChar(s[0]);
    }
    if p != [] {
      if p[0] == '%' {
        MatchesIgnoresCase(p[1..], s);
        if s != [] {
          MatchesIgnoresCase(p, s[1..]);
        }
      } else if s != [] {
        MatchesIgnoresCase(p[1..], s[1..]);
      }
    }
  }

  // ---------------------------------------------------------------------
  // Comparison leaves.

  /** Comparing two numbers. */
  function CompareNumbers(op: CompOp, x: real, y: real): bool
  {
    match op
    case Equal => x == y
    case NotEqual => x != y
    case Greater => x > y
    case Less => x < y
    case GreaterEq => x >= y
    case LessEq => x <= y
  }

  /** Comparing two strings: equality, or Python's code-point order. */
  function CompareStrings(op: CompOp, a: string, b: string): bool
  {
    match op
    case Equal => a == b
    case NotEqual => a != b
    case Greater => StrLt(b, a)
    case Less => StrLt(a, b)
    case GreaterEq => !StrLt(a, b)
    case LessEq => !StrLt(b, a)
  }

  /** The operators Python refuses between a string and a number. */
  predicate IsOrdering(op: CompOp)
  {
    op != Equal && op != NotEqual
  }

  /**
   * A cell against a literal: both are converted with `float()` and compared
   * as numbers when both convert; otherwise the cell text is compared with the
   * literal as it is, so a number literal is unequal to any text and cannot
   * be ordered against it.
   */
  function CompareCell(op: CompOp, cell: string, v: Literal): (r: Result<bool, ExecError>)
    // raises exactly for an ordering against a NUMBER the cell cannot be compared with as a number
    ensures r.Err? <==> IsOrdering(op) && v.Num? && !(ParseNumber(cell).Some? && LiteralNumber(v).Some?)
    ensures r.Err? ==> r.error == TypeError
    // `=` holds exactly for the literal's own text, or for a cell spelling the literal's number
    ensures op == Equal ==>
      (r == Ok(true) <==> v == Text(cell) || (ParseNumber(cell).Some? && ParseNumber(cell) == LiteralNumber(v)))
  {
    if ParseNumber(cell).Some? && LiteralNumber(v).Some? then
      Ok(CompareNumbers(op, ParseNumber(cell).value, LiteralNumber(v).value))
    else match v
      case Text(t) => Ok(CompareStrings(op, cell, t))
      case Num(_) =>
        if op == Equal then Ok(false) else if op == NotEqual then Ok(true) else Err(TypeError)
  }

  /** `verifica_condicao`: AND and OR stop early, a leaf on a column the record lacks is false. */
  function Eval(row: Record, c: Condition): (r: Result<bool, ExecError>)
    requires PlainPatterns(c)
    ensures r.Err? ==> r.error == TypeError && OrdersAgainstNumber(c)
    ensures IsLeaf(c) && Assoc.Lookup(row, c.column).None? ==> r == Ok(false)
  {
    match c
    case And(l, r) =>
      var a :- Eval(row, l);
      if a then Eval(row, r) else Ok(false)
    case Or(l, r) =>
      var a :- Eval(row, l);
      if a then Ok(true) else Eval(row, r)
    case Not(inner) =>
      var a :- Eval(row, inner);
      Ok(!a)
    case Compare(column, op, v) =>
      (match Assoc.Lookup(row, column)
       case None => Ok(false)
       case Some(cell) => CompareCell(op, cell, v))
    case Like(column, p) =>
      (match Assoc.Lookup(row, column)
       case None => Ok(false)
       case Some(cell) => Ok(LikeMatch(p, cell)))
  }

  /** Every LIKE pattern in the tree is plain. */
  predicate PlainPatterns(c: Condition)
  {
    match c
    case Compare(_, _, _) => true
    case Like(_, p) => PlainPattern(p)
    case And(l, r) => PlainPatterns(l) && PlainPatterns(r)
    case Or(l, r) => PlainPatterns(l) && PlainPatterns(r)
    case Not(inner) => PlainPatterns(inner)
  }

  /** A leaf names a column. */
  predicate IsLeaf(c: Condition)
  {
    c.Compare? || c.Like?
  }

  /** A leaf on a column the record lacks is false whatever its operator, and its negation is true. */
  lemma MissingColumn(row: Record, c: Condition)
    requires IsLeaf(c) && PlainPatterns(c) && c.column !in Assoc.Keys(row)
    ensures Eval(row, c) == Ok(false)
    ensures Eval(row, Not(c)) == Ok(true)
  {
    Assoc.LookupKeys(row, c.column);
  }

  /** AND, OR and NOT are the boolean operations on their operands' values. */
  lemma Connectives(row: Record, l: Condition, r: Condition, a: bool, b: bool)
    requires PlainPatterns(l) && PlainPatterns(r)
    requires Eval(row, l) == Ok(a) && Eval(row, r) == Ok(b)
    ensures Eval(row, And(l, r)) == Ok(a && b)
    ensures Eval(row, Or(l, r)) == Ok(a || b)
    ensures Eval(row, Not(l)) == Ok(!a)
  {
  }

  /**
   * The right operand of AND matters only when the left one is true, and
   * that of OR only when the left one is false: otherwise it is never
   * evaluated, so whatever it is (even one that would raise) the answer is
   * the same.
   */
  lemma ShortCircuit(row: Record, l: Condition, r1: Condition, r2: Condition)
    requires PlainPatterns(l) && PlainPatterns(r1) && PlainPatterns(r2)
    ensures Eval(row, l) != Ok(true) ==> Eval(row, And(l, r1)) == Eval(row, And(l, r2))
    ensures Eval(row, l) != Ok(false) ==> Eval(row, Or(l, r1)) == Eval(row, Or(l, r2))
  {
  }

  /**
   * De Morgan's laws hold for the evaluator, raises and short-circuits
   * included: NOT (l AND r) behaves as NOT l OR NOT r, and NOT (l OR r) as
   * NOT l AND NOT r.
   */
  lemma DeMorgan(row: Record, l: Condition, r: Condition)
    requires PlainPatterns(l) && PlainPatterns(r)
    ensures PlainPatterns(Or(Not(l), Not(r))) && PlainPatterns(And(Not(l), Not(r)))
    ensures Eval(row, Not(And(l, r))) == Eval(row, Or(Not(l), Not(r)))
    ensures Eval(row, Not(Or(l, r))) == Eval(row, And(Not(l), Not(r)))
  {
  }

  /**
   * A chain of one connective means the same however it is grouped, so the
   * right grouping the grammar gives `a AND b AND c` (and `a OR b OR c`)
   * agrees with the left grouping, raises included.
   */
  lemma Regroup(row: Record, a: Condition, b: Condition, c: Condition)
    requires PlainPatterns(a) && PlainPatterns(b) && PlainPatterns(c)
    ensures Eval(row, And(a, And(b, c))) == Eval(row, And(And(a, b), c))
    ensures Eval(row, Or(a, Or(b, c))) == Eval(row, Or(Or(a, b), c))
  {
  }

  /**
   * Against a literal that reads as a number, only the number a cell spells
   * matters: `1`, `01` and `1.0` compare alike with every operator.
   */
  lemma NumberSpelling(op: CompOp, cell1: string, cell2: string, v: Literal)
    requires ParseNumber(cell1).Some? && ParseNumber(cell1) == ParseNumber(cell2) && LiteralNumber(v).Some?
    ensures CompareCell(op, cell1, v) == CompareCell(op, cell2, v)
  {
  }

  /**
   * The six operators agree with one another: `=` and `!=` never raise and
   * are each other's negation, and where the ordering operators do not
   * raise, exactly one of `<`, `=`, `>` holds, `>=` is `>` or `=`, and `<=`
   * is `<` or `=`.
   */
  lemma ComparisonsAgree(cell: string, v: Literal)
    ensures CompareCell(Equal, cell, v).Ok? && CompareCell(NotEqual, cell, v).Ok?
    ensures CompareCell(NotEqual, cell, v).value == !CompareCell(Equal, cell, v).value
    ensures CompareCell(Less, cell, v).Ok? <==> CompareCell(Greater, cell, v).Ok?
    ensures CompareCell(Less, cell, v).Ok? ==>
      var lt, eq, gt := CompareCell(Less, cell, v).value, CompareCell(Equal, cell, v).value, CompareCell(Greater, cell, v).value;
      (lt || eq || gt) && !(lt && eq) && !(lt && gt) && !(eq && gt)
      && CompareCell(GreaterEq, cell, v) == Ok(gt || eq)
      && CompareCell(LessEq, cell, v) == Ok(lt || eq)
  {
    if !(ParseNumber(cell).Some? && LiteralNumber(v).Some?) && v.Text? {
      var t := v.text;
      StrLtTotal(cell, t);
      if StrLt(cell, t) {
        StrLtAsymmetric(cell, t);
        StrLtIrreflexive(cell);
      }
      if StrLt(t, cell) {
        StrLtAsymmetric(t, cell);
        StrLtIrreflexive(cell);
      }
    }
  }

  /** Some comparison in the tree orders against a NUMBER literal, the only leaf that can raise. */
  predicate OrdersAgainstNumber(c: Condition)
  {
    match c
    case Compare(_, op, v) => IsOrdering(op) && v.Num?
    case Like(_, _) => false
    case And(l, r) => OrdersAgainstNumber(l) || OrdersAgainstNumber(r)
    case Or(l, r) => OrdersAgainstNumber(l) || OrdersAgainstNumber(r)
    case Not(inner) => OrdersAgainstNumber(inner)
  }

  /** A tree with no ordering comparison against a NUMBER never raises. */
  lemma {:induction false} EvalTotal(row: Record, c: Condition)
    requires PlainPatterns(c) && !OrdersAgainstNumber(c)
    ensures Eval(row, c).Ok?
  {
    match c
    case Compare(_, _, _) =>
    case Like(_, _) =>
    case And(l, r) => EvalTotal(row, l); EvalTotal(row, r);
    case Or(l, r) => EvalTotal(row, l); EvalTotal(row, r);
    case Not(inner) => EvalTotal(row, inner);
  }

  // ---------------------------------------------------------------------
  // The WHERE test every statement applies to a record.

  /** Every LIKE pattern of the WHERE clause is plain. */
  predicate PlainWhere(cond: Option<Condition>)
  {
    cond.Some? ==> PlainPatterns(cond.value)
  }

  /** `condicao is None or verifica_condicao(r, condicao)`. */
  function Test(cond: Option<Condition>, r: Record): Result<bool, ExecError>
    requires PlainWhere(cond)
  {
    if cond.None? then Ok(true) else Eval(r, cond.value)
  }

  function Satisfies(cond: Option<Condition>): Record -> bool
    requires PlainWhere(cond)
  {
    r => Test(cond, r) == Ok(true)
  }
}
