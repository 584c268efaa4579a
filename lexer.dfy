/**
 * The tokenizer: the keyword table, the token rules, whitespace and newline
 * handling and skip-one-character error recovery of the PLY lexer, as a
 * scanner over a string.
 */
module Lexer {
  import opened Wrappers
  import opened Strings
  import opened Ast
  import opened Seqs

  /** The token types of the operator rules. */
  datatype Symbol = Eq | Neq | Gt | Lt | Ge | Le | Comma | LParen | RParen | Times

  /** The token types the keyword table hands out. */
  datatype Keyword =
    | KwSelect | KwDelete | KwUpdate | KwInsert | KwFrom | KwWhere | KwAnd | KwOr | KwNot
    | KwCount | KwSum | KwAvg | KwInto | KwSet | KwValues | KwOrder | KwBy | KwGroup
    | KwAsc | KwDesc | KwJoin | KwOn | KwLeft | KwLimit | KwDistinct | KwLike

  /** Every token type of the lexer: the `tokens` list. */
  datatype TokenType = Identifier | StringLiteral | Number | Sym(sym: Symbol) | Kw(kw: Keyword)

  /** The number of entries of the `keywords` dictionary. */
  const KeywordCount := 26

  /** Entry `k` of the `keywords` dictionary, in insertion order: lower-case spelling and token type. */
  function KeywordEntry(k: nat): (string, Keyword)
    requires k < KeywordCount
  {
    match k
    case 0 => ("select", KwSelect)
    case 1 => ("delete", KwDelete)
    case 2 => ("update", KwUpdate)
    case 3 => ("insert", KwInsert)
    case 4 => ("from", KwFrom)
    case 5 => ("where", KwWhere)
    case 6 => ("and", KwAnd)
    case 7 => ("or", KwOr)
    case 8 => ("not", KwNot)
    case 9 => ("count", KwCount)
    case 10 => ("sum", KwSum)
    case 11 => ("avg", KwAvg)
    case 12 => ("into", KwInto)
    case 13 => ("set", KwSet)
    case 14 => ("values", KwValues)
    case 15 => ("order", KwOrder)
    case 16 => ("by", KwBy)
    case 17 => ("group", KwGroup)
    case 18 => ("asc", KwAsc)
    case 19 => ("desc", KwDesc)
    case 20 => ("join", KwJoin)
    case 21 => ("on", KwOn)
    case 22 => ("left", KwLeft)
    case 23 => ("limit", KwLimit)
    case 24 => ("distinct", KwDistinct)
    case _ => ("like", KwLike)
  }

  /** `keywords.get(w)`, searching the entries from `k` on. */
  function KeywordFrom(w: string, k: nat): Option<Keyword>
    requires k <= KeywordCount
    decreases KeywordCount - k
  {
    if k == KeywordCount then None
    else if KeywordEntry(k).0 == w then Some(KeywordEntry(k).1)
    else KeywordFrom(w, k + 1)
  }

  /** The `tokens` list: the fixed types followed by the keyword types. */
  const Tokens: seq<TokenType> := [
    Identifier, StringLiteral, Number,
    Sym(Eq), Sym(Neq), Sym(Gt), Sym(Lt), Sym(Ge), Sym(Le), Sym(Comma), Sym(LParen), Sym(RParen), Sym(Times),
    Kw(KwSelect), Kw(KwDelete), Kw(KwUpdate), Kw(KwInsert), Kw(KwFrom), Kw(KwWhere), Kw(KwAnd), Kw(KwOr),
    Kw(KwNot), Kw(KwCount), Kw(KwSum), Kw(KwAvg), Kw(KwInto), Kw(KwSet), Kw(KwValues), Kw(KwOrder),
    Kw(KwBy), Kw(KwGroup), Kw(KwAsc), Kw(KwDesc), Kw(KwJoin), Kw(KwOn), Kw(KwLeft), Kw(KwLimit),
    Kw(KwDistinct), Kw(KwLike)]

  /** The type's name as the lexer spells it. */
  function TypeName(t: TokenType): string
  {
    match t
    case Identifier => "IDENTIFIER" case StringLiteral => "STRING_LITERAL" case Number => "NUMBER"
    case Sym(s) => SymbolName(s)
    case Kw(k) => KeywordName(k)
  }

  function SymbolName(s: Symbol): string
  {
    match s
    case Eq => "EQ" case Neq => "NEQ" case Gt => "GT" case Lt => "LT" case Ge => "GE" case Le => "LE"
    case Comma => "COMMA" case LParen => "LPAREN" case RParen => "RPAREN" case Times => "TIMES"
  }

  /** The keyword's type name: its upper-case spelling. */
  function KeywordName(k: Keyword): string
  {
    match k
    case KwSelect => "SELECT" case KwDelete => "DELETE" case KwUpdate => "UPDATE" case KwInsert => "INSERT"
    case KwFrom => "FROM" case KwWhere => "WHERE" case KwAnd => "AND" case KwOr => "OR" case KwNot => "NOT"
    case KwCount => "COUNT" case KwSum => "SUM" case KwAvg => "AVG" case KwInto => "INTO" case KwSet => "SET"
    case KwValues => "VALUES" case KwOrder => "ORDER" case KwBy => "BY" case KwGroup => "GROUP"
    case KwAsc => "ASC" case KwDesc => "DESC" case KwJoin => "JOIN" case KwOn => "ON" case KwLeft => "LEFT"
    case KwLimit => "LIMIT" case KwDistinct => "DISTINCT" case KwLike => "LIKE"
  }

  /** A keyword the table holds at entry `j` or later is found, with that entry's type. */
  lemma {:induction false} KeywordFromFound(w: string, k: nat)
    requires k <= KeywordCount && KeywordFrom(w, k).Some?
    ensures exists j :: k <= j < KeywordCount && KeywordEntry(j) == (w, KeywordFrom(w, k).value)
    decreases KeywordCount - k
  {
    if KeywordEntry(k).0 != w {
      KeywordFromFound(w, k + 1);
    }
  }

  /** A word spelled like an entry at `j` or later is found. */
  lemma {:induction false} KeywordFromComplete(w: string, k: nat, j: nat)
    requires k <= j < KeywordCount && KeywordEntry(j).0 == w
    ensures KeywordFrom(w, k).Some?
    decreases j - k
  {
    if KeywordEntry(k).0 != w {
      KeywordFromComplete(w, k + 1, j);
    }
  }

  /** Every type the table hands out is a keyword type of the `tokens` list. */
  lemma EntryListed(j: nat)
    requires j < KeywordCount
    ensures Kw(KeywordEntry(j).1) in Tokens
  {
  }

  datatype TokenValue = Lexeme(text: string) | NumValue(num: Numeral)

  /** A token with the line number and offset at which it was matched. */
  datatype Token = Token(ttype: TokenType, value: TokenValue, line: nat, pos: nat)

  /** The text of a token: its lexeme, or "" for a number. */
  function TextOf(t: Token): string
  {
    if t.value.Lexeme? then t.value.text else ""
  }

  /** `t_IDENTIFIER`'s action: the keyword type of the lower-cased lexeme, or IDENTIFIER. */
  function ClassifyWord(w: string): TokenType
  {
    match KeywordFrom(Lower(w), 0)
    case Some(k) => Kw(k)
    case None => Identifier
  }

  /**
   * A word is a keyword exactly when its lower-case form is in the table, and
   * then its type is that entry's: the upper-cased word, one of the `tokens`.
   */
  lemma ClassifyWordType(w: string)
    ensures ClassifyWord(w) != Identifier <==> exists j :: 0 <= j < KeywordCount && KeywordEntry(j).0 == Lower(w)
    ensures ClassifyWord(w) != Identifier ==> ClassifyWord(w).Kw? && ClassifyWord(w) in Tokens
  {
    var l := Lower(w);
    if KeywordFrom(l, 0).Some? {
      KeywordFromFound(l, 0);
      var j :| 0 <= j < KeywordCount && KeywordEntry(j) == (l, KeywordFrom(l, 0).value);
      EntryListed(j);
    } else {
      forall j | 0 <= j < KeywordCount ensures KeywordEntry(j).0 != l {
        if KeywordEntry(j).0 == l { KeywordFromComplete(l, 0, j); }
      }
    }
  }

  /** A word classified as keyword `kw` is spelled, in lower case, like `kw`'s entry. */
  lemma ClassifiedEntry(w: string, kw: Keyword) returns (j: nat)
    requires ClassifyWord(w) == Kw(kw)
    ensures j < KeywordCount && KeywordEntry(j) == (Lower(w), kw)
  {
    KeywordFromFound(Lower(w), 0);
    j :| 0 <= j < KeywordCount && KeywordEntry(j) == (Lower(w), kw);
  }

  /**
   * The upper-cased lexeme of a word classified AND, OR, COUNT, SUM, AVG, ASC
   * or DESC (the keywords `p_condition`, `p_aggregate_function` and
   * `p_asc_desc` read back with `.upper()`) is the keyword's type name.
   */
  lemma KeywordSpelling(w: string, kw: Keyword)
    requires kw in {KwAnd, KwOr, KwCount, KwSum, KwAvg, KwAsc, KwDesc} && ClassifyWord(w) == Kw(kw)
    ensures Upper(w) == KeywordName(kw)
  {
    var j := ClassifiedEntry(w, kw);
    EntrySpelling(w, j, kw);
  }

  lemma EntrySpelling(w: string, j: nat, kw: Keyword)
    requires kw in {KwAnd, KwOr, KwCount, KwSum, KwAvg, KwAsc, KwDesc}
    requires j < KeywordCount && KeywordEntry(j) == (Lower(w), kw)
    ensures Upper(w) == KeywordName(kw)
  {
    match kw
    case KwAnd => AndSpelling(w, j);
    case KwOr => OrSpelling(w, j);
    case KwCount => CountSpelling(w, j);
    case KwSum => SumSpelling(w, j);
    case KwAvg => AvgSpelling(w, j);
    case KwAsc => AscSpelling(w, j);
    case KwDesc => DescSpelling(w, j);
  }

  lemma AndSpelling(w: string, j: nat)
    requires j < KeywordCount && KeywordEntry(j) == (Lower(w), KwAnd)
    ensures Upper(w) == "AND"
  {
    assert j == 6;
    assert Lower(w) == "and";
    UpperOf("and", "AND");
    UpperOfLower(w);
  }

  lemma OrSpelling(w: string, j: nat)
    requires j < KeywordCount && KeywordEntry(j) == (Lower(w), KwOr)
    ensures Upper(w) == "OR"
  {
    assert j == 7;
    assert Lower(w) == "or";
    UpperOf("or", "OR");
    UpperOfLower(w);
  }

  /** The lower-cased lexeme of a word classified LIKE (read back by `p_simple_condition` with `.lower()`) is "like". */
  lemma LikeSpelling(w: string)
    requires ClassifyWord(w) == Kw(KwLike)
    ensures Lower(w) == "like"
  {
    var j := ClassifiedEntry(w, KwLike);
  }

  lemma CountSpelling(w: string, j: nat)
    requires j < KeywordCount && KeywordEntry(j) == (Lower(w), KwCount)
    ensures Upper(w) == "COUNT"
  {
    assert j == 9;
    assert Lower(w) == "count";
    UpperOf("count", "COUNT");
    UpperOfLower(w);
  }

  lemma SumSpelling(w: string, j: nat)
    requires j < KeywordCount && KeywordEntry(j) == (Lower(w), KwSum)
    ensures Upper(w) == "SUM"
  {
    assert j == 10;
    assert Lower(w) == "sum";
    UpperOf("sum", "SUM");
    UpperOfLower(w);
  }

  lemma AvgSpelling(w: string, j: nat)
    requires j < KeywordCount && KeywordEntry(j) == (Lower(w), KwAvg)
    ensures Upper(w) == "AVG"
  {
    assert j == 11;
    assert Lower(w) == "avg";
    UpperOf("avg", "AVG");
    UpperOfLower(w);
  }

  lemma AscSpelling(w: string, j: nat)
    requires j < KeywordCount && KeywordEntry(j) == (Lower(w), KwAsc)
    ensures Upper(w) == "ASC"
  {
    assert j == 18;
    assert Lower(w) == "asc";
    UpperOf("asc", "ASC");
    UpperOfLower(w);
  }

  lemma DescSpelling(w: string, j: nat)
    requires j < KeywordCount && KeywordEntry(j) == (Lower(w), KwDesc)
    ensures Upper(w) == "DESC"
  {
    assert j == 19;
    assert Lower(w) == "desc";
    UpperOf("desc", "DESC");
    UpperOfLower(w);
  }

  /** Keyword recognition ignores case. */
  lemma ClassifyIgnoresCase(w: string)
    ensures ClassifyWord(w) == ClassifyWord(Upper(w)) == ClassifyWord(Lower(w))
  {
    LowerOfUpper(w);
    var l := Lower(w);
    assert Lower(l) == l by {
      forall i | 0 <= i < |l| ensures Lower(l)[i] == l[i] { }
    }
  }

  /** `\d+\.?\d*` written as a lexeme: digits, then at most one '.' and digits. */
  predicate NumberLexeme(x: string)
  {
    0 < |x| && IsDigit(x[0])
    && match IndexOf(x, '.')
       case None => AllDigits(x)
       case Some(k) => AllDigits(x[..k]) && AllDigits(x[k + 1..])
  }

  /** `t_NUMBER`'s action: an int when the lexeme has no '.', otherwise a float. */
  function NumberValue(x: string): (r: Numeral)
    requires NumberLexeme(x)
    ensures r.IntNum? <==> '.' !in x
    ensures r.FloatNum? ==> x == r.whole + "." + r.frac && r.Valid()
  {
    match IndexOf(x, '.')
    case None => IntNum(DigitsValue(x))
    case Some(k) => FloatNum(x[..k], x[k + 1..])
  }

  /** Reading back a printed natural number gives an int token of that value. */
  lemma NumberOfNat(n: nat)
    ensures NumberLexeme(NatToString(n)) && NumberValue(NatToString(n)) == IntNum(n)
  {
    var x := NatToString(n);
    NatToStringRoundTrip(n);
    assert '.' !in x by { assert forall i :: 0 <= i < |x| ==> IsDigit(x[i]); }
  }

  // ---------------------------------------------------------------------
  // Scanning one lexeme.

  function IdentEnd(text: string, j: nat): (k: nat)
    requires j <= |text|
    ensures j <= k <= |text|
    ensures k < |text| ==> !IsIdentChar(text[k])
    decreases |text| - j
  {
    if j < |text| && IsIdentChar(text[j]) then IdentEnd(text, j + 1) else j
  }

  function DigitsEnd(text: string, j: nat): (k: nat)
    requires j <= |text|
    ensures j <= k <= |text|
    ensures k < |text| ==> !IsDigit(text[k])
    decreases |text| - j
  {
    if j < |text| && IsDigit(text[j]) then DigitsEnd(text, j + 1) else j
  }

  /** The end of the greedy match of `\d+\.?\d*` at a digit `i`. */
  function NumeralEnd(text: string, i: nat): (k: nat)
    requires i < |text|
  {
    var k := DigitsEnd(text, i + 1);
    if k < |text| && text[k] == '.' then DigitsEnd(text, k + 1) else k
  }

  function NewlinesEnd(text: string, j: nat): (k: nat)
    requires j <= |text|
    ensures j <= k <= |text|
    ensures k < |text| ==> text[k] != '\n'
    decreases |text| - j
  {
    if j < |text| && text[j] == '\n' then NewlinesEnd(text, j + 1) else j
  }

  /** The index of the first `q` at or after `j`, if any. */
  function QuoteEnd(text: string, j: nat, q: char): (r: Option<nat>)
    requires j <= |text|
    ensures r.Some? ==> j <= r.value < |text| && text[r.value] == q && q !in text[j..r.value]
    ensures r.None? ==> q !in text[j..]
    decreases |text| - j
  {
    if j == |text| then None
    else if text[j] == q then Some(j)
    else
      var r := QuoteEnd(text, j + 1, q);
      assert r.Some? ==> text[j..r.value] == [text[j]] + text[j + 1..r.value];
      assert r.None? ==> text[j..] == [text[j]] + text[j + 1..];
      r
  }

  /** The rule the lexer applies at one position, and how much text it consumes. */
  datatype Step =
    | Skip                                  // a `t_ignore` character
    | Newlines(count: nat)                  // `t_newline`
    | Word(width: nat)                      // `t_IDENTIFIER`
    | Quoted(width: nat)                    // `t_STRING_LITERAL`, quotes included
    | Numeral(width: nat)                   // `t_NUMBER`
    | Operator(sym: Symbol, width: nat)     // one of the string rules
    | Invalid                               // `t_error`
  {
    /** The number of characters the step consumes. */
    function Width(): nat
    {
      match this
      case Skip => 1
      case Newlines(n) => n
      case Word(w) => w
      case Quoted(w) => w
      case Numeral(w) => w
      case Operator(_, w) => w
      case Invalid => 1
    }

    /** The number of lines the step advances the line counter by. */
    function Lines(): nat
    {
      if Newlines? then count else 0
    }

    /** The step's rule returns a token. */
    predicate Emits()
    {
      Word? || Quoted? || Numeral? || Operator?
    }
  }

  function OperatorType(c: char, twoChar: bool): Option<Symbol>
  {
    if twoChar then
      (if c == '!' then Some(Neq) else if c == '>' then Some(Ge) else if c == '<' then Some(Le) else None)
    else if c == '=' then Some(Eq) else if c == '>' then Some(Gt) else if c == '<' then Some(Lt)
    else if c == ',' then Some(Comma) else if c == '(' then Some(LParen) else if c == ')' then Some(RParen)
    else if c == '*' then Some(Times) else None
  }

  /**
   * The rule the master pattern selects at position `i`: the function rules in
   * definition order, then the string rules longest pattern first.
   */
  function ScanAt(text: string, i: nat): (st: Step)
    requires i < |text|
    ensures 1 <= st.Width() && i + st.Width() <= |text|
  {
    var c := text[i];
    if c == ' ' || c == '\t' then Skip
    else if IsIdentStart(c) then Word(IdentEnd(text, i + 1) - i)
    else if c == '"' || c == '\'' then
      match QuoteEnd(text, i + 1, c)
      case None => Invalid
      case Some(k) => Quoted(k + 1 - i)
    else if IsDigit(c) then Numeral(NumeralEnd(text, i) - i)
    else if c == '\n' then Newlines(NewlinesEnd(text, i + 1) - i)
    else if i + 1 < |text| && text[i + 1] == '=' && OperatorType(c, true).Some? then
      Operator(OperatorType(c, true).value, 2)
    else if OperatorType(c, false).Some? then Operator(OperatorType(c, false).value, 1)
    else Invalid
  }

  /** The digits from `j` to the end of their run. */
  lemma {:induction false} DigitRun(text: string, j: nat)
    requires j <= |text|
    ensures AllDigits(text[j..DigitsEnd(text, j)])
    decreases |text| - j
  {
    if j < |text| && IsDigit(text[j]) {
      DigitRun(text, j + 1);
      assert text[j..DigitsEnd(text, j)] == [text[j]] + text[j + 1..DigitsEnd(text, j + 1)];
    }
  }

  /** The identifier characters from `j` to the end of their run. */
  lemma {:induction false} IdentRun(text: string, j: nat)
    requires j <= |text|
    ensures forall m :: j <= m < IdentEnd(text, j) ==> IsIdentChar(text[m])
    decreases |text| - j
  {
    if j < |text| && IsIdentChar(text[j]) {
      IdentRun(text, j + 1);
    }
  }

  /** The newlines from `j` to the end of their run. */
  lemma {:induction false} NewlineRun(text: string, j: nat)
    requires j <= |text|
    ensures forall m :: j <= m < NewlinesEnd(text, j) ==> text[m] == '\n'
    decreases |text| - j
  {
    if j < |text| && text[j] == '\n' {
      NewlineRun(text, j + 1);
    }
  }

  /** Digits not followed by '.' are an int lexeme: the maximal digit run, read as a number. */
  lemma IntLexeme(text: string, i: nat)
    requires i < |text| && IsDigit(text[i])
    requires var k := DigitsEnd(text, i + 1); !(k < |text| && text[k] == '.')
    ensures var k := DigitsEnd(text, i + 1); var x := text[i..k];
      NumeralEnd(text, i) == k && AllDigits(x) && NumberLexeme(x) && NumberValue(x) == IntNum(DigitsValue(x))
      && IntAt(text, i, DigitsValue(x)) && '\n' !in x
  {
    var k := DigitsEnd(text, i + 1);
    assert DigitsEnd(text, i) == k;
    DigitRun(text, i);
    var x := text[i..k];
    assert '.' !in x && '\n' !in x by {
      assert forall j :: 0 <= j < |x| ==> IsDigit(x[j]);
    }
  }

  /** Digits, a '.' and digits are a float lexeme made of the two digit runs. */
  lemma FloatLexeme(text: string, i: nat)
    requires i < |text| && IsDigit(text[i])
    requires var k := DigitsEnd(text, i + 1); k < |text| && text[k] == '.'
    ensures var k := DigitsEnd(text, i + 1); var e := DigitsEnd(text, k + 1); var x := text[i..e];
      NumeralEnd(text, i) == e && NumberLexeme(x) && NumberValue(x) == FloatNum(text[i..k], text[k + 1..e])
  {
    var k := DigitsEnd(text, i + 1);
    var e := DigitsEnd(text, k + 1);
    assert DigitsEnd(text, i) == k;
    DigitRun(text, i);
    DigitRun(text, k + 1);
    DotSlice(text, i, k, e);
  }

  /** Digits from `i` to a '.' at `k` and digits on to `e` are a float lexeme. */
  lemma DotSlice(text: string, i: nat, k: nat, e: nat)
    requires i < k < e <= |text| && text[k] == '.' && IsDigit(text[i])
    requires AllDigits(text[i..k]) && AllDigits(text[k + 1..e])
    ensures NumberLexeme(text[i..e]) && NumberValue(text[i..e]) == FloatNum(text[i..k], text[k + 1..e])
  {
    var x := text[i..e];
    SliceAround(text, i, k, e);
    assert x[0] == text[i];
    DotLexeme(x, k - i);
  }

  /** The two digit runs of a float lexeme are written at `i`, around its '.', and hold no newline. */
  lemma FloatWritten(text: string, i: nat)
    requires i < |text| && IsDigit(text[i])
    requires var k := DigitsEnd(text, i + 1); k < |text| && text[k] == '.'
    ensures var k := DigitsEnd(text, i + 1); var e := DigitsEnd(text, k + 1);
      FloatAt(text, i, text[i..k], text[k + 1..e]) && '\n' !in text[i..e]
  {
    var k := DigitsEnd(text, i + 1);
    var e := DigitsEnd(text, k + 1);
    assert DigitsEnd(text, i) == k;
    DigitRun(text, i);
    DigitRun(text, k + 1);
    FloatSlices(text, i, k, e);
  }

  /** Digits from `i` to a '.' at `k` and a maximal digit run on to `e` are a float written at `i`. */
  lemma FloatSlices(text: string, i: nat, k: nat, e: nat)
    requires i < k < e <= |text| && text[k] == '.' && e == DigitsEnd(text, k + 1)
    requires AllDigits(text[i..k]) && AllDigits(text[k + 1..e])
    ensures FloatAt(text, i, text[i..k], text[k + 1..e]) && '\n' !in text[i..e]
  {
    var w, f := text[i..k], text[k + 1..e];
    assert i + |w| == k && k + 1 + |f| == e;
    var x := text[i..e];
    forall j | 0 <= j < |x| ensures x[j] != '\n' {
      if j < k - i { assert x[j] == w[j]; }
      else if j > k - i { assert x[j] == f[j - (k - i) - 1]; }
    }
  }

  /** A lexeme with digits, a '.' and digits reads as the float of its two digit runs. */
  lemma DotLexeme(x: string, p: nat)
    requires p < |x| && x[p] == '.' && IsDigit(x[0]) && AllDigits(x[..p]) && AllDigits(x[p + 1..])
    ensures NumberLexeme(x) && NumberValue(x) == FloatNum(x[..p], x[p + 1..])
  {
    FirstDot(x, p);
  }

  /** A '.' after a run of digits is the first '.'. */
  lemma FirstDot(x: string, p: nat)
    requires p < |x| && x[p] == '.' && AllDigits(x[..p])
    ensures IndexOf(x, '.') == Some(p)
  {
    assert x[..p + 1][p] == '.';
  }

  /** The text a numeral step consumes is a lexeme of `t_NUMBER`. */
  lemma NumeralLexeme(text: string, i: nat)
    requires i < |text| && IsDigit(text[i])
    ensures NumberLexeme(text[i..NumeralEnd(text, i)])
  {
    var k := DigitsEnd(text, i + 1);
    if k < |text| && text[k] == '.' { FloatLexeme(text, i); } else { IntLexeme(text, i); }
  }

  /** The token the rule of step `st` returns at `i`, built by the rule's action from the lexeme. */
  function TokenAt(text: string, i: nat, st: Step, line: nat): Token
    requires i < |text| && st == ScanAt(text, i) && st.Emits()
  {
    var x := text[i..i + st.Width()];
    match st
    case Word(_) => Token(ClassifyWord(x), Lexeme(x), line, i)
    case Quoted(w) => Token(StringLiteral, Lexeme(text[i + 1..i + w - 1]), line, i)  // the lexeme without its quotes
    case Numeral(_) => NumeralLexeme(text, i); Token(Number, NumValue(NumberValue(x)), line, i)
    case Operator(s, _) => Token(Sym(s), Lexeme(x), line, i)
  }

  /**
   * Some rule can match at `i`: a blank, a newline, an identifier, a digit, a
   * one-character operator, "!=", or a quote that is closed further on.
   */
  predicate RuleMatchesAt(text: string, i: nat)
    requires i < |text|
  {
    var c := text[i];
    c == ' ' || c == '\t' || c == '\n' || IsIdentStart(c) || IsDigit(c) || c in "=<>,()*"
    || (c == '!' && i + 1 < |text| && text[i + 1] == '=')
    || ((c == '"' || c == '\'') && c in text[i + 1..])
  }

  /** `t_error` fires exactly where no rule of the master pattern matches. */
  lemma InvalidIffNoRuleMatches(text: string, i: nat)
    requires i < |text|
    ensures ScanAt(text, i) == Invalid <==> !RuleMatchesAt(text, i)
  {
    var c := text[i];
    if c == '"' || c == '\'' {
      match QuoteEnd(text, i + 1, c)
      case None =>
      case Some(k) => assert text[i + 1..][k - i - 1] == c;
    }
  }

  // ---------------------------------------------------------------------
  // What a token says about the text it came from.

  /** A maximal run of digits at `p`, not followed by '.', reads as `n`. */
  predicate IntAt(text: string, p: nat, n: nat)
  {
    p < |text|
    && (var k := DigitsEnd(text, p);
        p < k && AllDigits(text[p..k]) && DigitsValue(text[p..k]) == n && (k == |text| || text[k] != '.'))
  }

  /** `w.f` is written at `p`, with digits on the left and no digit after it. */
  predicate FloatAt(text: string, p: nat, w: string, f: string)
  {
    var q := p + |w|;
    IsDigitString(w) && AllDigits(f) && q + 1 + |f| <= |text|
    && text[p..q] == w && text[q] == '.' && text[q + 1..q + 1 + |f|] == f
    && (q + 1 + |f| == |text| || !IsDigit(text[q + 1 + |f|]))
  }

  /** `x` is written between two equal quotes at `p` and holds no such quote. */
  predicate QuotedAt(text: string, p: nat, x: string)
  {
    p + |x| + 2 <= |text| && (text[p] == '"' || text[p] == '\'') && text[p + 1..p + 1 + |x|] == x
    && text[p + 1 + |x|] == text[p] && text[p] !in x
  }

  /** A maximal identifier of `n` characters is written at `p`. */
  predicate WordAt(text: string, p: nat, n: nat)
  {
    0 < n && p + n <= |text| && IsIdentStart(text[p])
    && (forall k :: p <= k < p + n ==> IsIdentChar(text[k]))
    && (p + n == |text| || !IsIdentChar(text[p + n]))
  }

  /** `x` is the longest operator written at `p`, of type `t`. */
  predicate OperatorAt(text: string, p: nat, x: string, t: Symbol)
  {
    0 < |x| && p + |x| <= |text| && text[p..p + |x|] == x
    && ((|x| == 2 && x[1] == '=' && OperatorType(x[0], true) == Some(t))
        || (|x| == 1 && OperatorType(x[0], false) == Some(t)
            && !(p + 1 < |text| && text[p + 1] == '=' && OperatorType(x[0], true).Some?)))
  }

  /**
   * The token is what the text holds at `t.pos`: a quoted string without its
   * delimiters, a maximal number, a maximal identifier classified by the keyword
   * table, or the longest operator.
   */
  predicate Matched(text: string, t: Token)
  {
    var p := t.pos;
    if t.ttype == Number then
      match t.value
      case NumValue(IntNum(n)) => IntAt(text, p, n)
      case NumValue(FloatNum(w, f)) => FloatAt(text, p, w, f)
      case Lexeme(_) => false
    else if !t.value.Lexeme? then false
    else if t.ttype == StringLiteral then QuotedAt(text, p, t.value.text)
    else if t.ttype.Sym? then OperatorAt(text, p, t.value.text, t.ttype.sym)
    else
      var x := t.value.text;
      WordAt(text, p, |x|) && text[p..p + |x|] == x && t.ttype == ClassifyWord(x)
  }

  /** What an emitting step promises: a matching token, and no newline consumed outside a string. */
  predicate StepMatched(text: string, i: nat, line: nat)
    requires i < |text| && ScanAt(text, i).Emits()
  {
    var st := ScanAt(text, i);
    Matched(text, TokenAt(text, i, st, line))
    && (!st.Quoted? ==> '\n' !in text[i..i + st.Width()])
  }

  /** An identifier match yields a maximal word classified by the keyword table. */
  lemma WordMatches(text: string, i: nat, line: nat)
    requires i < |text| && IsIdentStart(text[i])
    ensures var x := text[i..IdentEnd(text, i + 1)];
      Matched(text, Token(ClassifyWord(x), Lexeme(x), line, i)) && '\n' !in x
  {
    WordScanned(text, i);
    WordMatchedToken(text, i, IdentEnd(text, i + 1), line);
  }

  /** A maximal word between `i` and `k`, classified by the keyword table, matches. */
  lemma WordMatchedToken(text: string, i: nat, k: nat, line: nat)
    requires i < k <= |text| && WordAt(text, i, k - i)
    ensures Matched(text, Token(ClassifyWord(text[i..k]), Lexeme(text[i..k]), line, i))
  {
    var x := text[i..k];
    assert |x| == k - i && text[i..i + |x|] == x;
  }

  /** The identifier characters from an identifier start form a maximal word with no newline. */
  lemma WordScanned(text: string, i: nat)
    requires i < |text| && IsIdentStart(text[i])
    ensures var k := IdentEnd(text, i + 1); WordAt(text, i, k - i) && '\n' !in text[i..k]
  {
    IdentRun(text, i + 1);
  }

  /** A string match yields the text between two equal quotes, free of that quote. */
  lemma QuotedMatches(text: string, i: nat, k: nat, line: nat)
    requires i < |text| && (text[i] == '"' || text[i] == '\'')
    requires QuoteEnd(text, i + 1, text[i]) == Some(k)
    ensures Matched(text, Token(StringLiteral, Lexeme(text[i + 1..k]), line, i))
  {
    QuotedScanned(text, i, k);
  }

  /** The text between a quote and the next equal quote is what a string literal holds. */
  lemma QuotedScanned(text: string, i: nat, k: nat)
    requires i < |text| && (text[i] == '"' || text[i] == '\'')
    requires QuoteEnd(text, i + 1, text[i]) == Some(k)
    ensures QuotedAt(text, i, text[i + 1..k])
  {
    var y := text[i + 1..k];
    assert i + 1 + |y| == k;
    assert text[i + 1..i + 1 + |y|] == y;
  }

  /** A number match yields a maximal int or float, as `'.' in value` decides. */
  lemma NumeralMatches(text: string, i: nat, line: nat)
    requires i < |text| && IsDigit(text[i])
    ensures var x := text[i..NumeralEnd(text, i)];
      NumberLexeme(x) && Matched(text, Token(Number, NumValue(NumberValue(x)), line, i)) && '\n' !in x
  {
    var k := DigitsEnd(text, i + 1);
    if k < |text| && text[k] == '.' {
      FloatLexeme(text, i);
      FloatWritten(text, i);
    } else {
      IntLexeme(text, i);
    }
  }

  /** An operator match yields the longest operator at `i`. */
  lemma OperatorMatches(text: string, i: nat, line: nat)
    requires i < |text| && ScanAt(text, i).Operator?
    ensures StepMatched(text, i, line)
  {
  }

  /** Every token a rule returns matches the text it was read from. */
  lemma StepTokenMatches(text: string, i: nat, line: nat)
    requires i < |text| && ScanAt(text, i).Emits()
    ensures StepMatched(text, i, line)
  {
    var st := ScanAt(text, i);
    if st.Word? {
      WordStep(text, i, line);
    } else if st.Quoted? {
      QuotedStep(text, i, line);
    } else if st.Numeral? {
      NumeralStep(text, i, line);
    } else {
      OperatorMatches(text, i, line);
    }
  }

  /** `ScanAt` takes the identifier rule exactly at an identifier start. */
  lemma ScanWord(text: string, i: nat)
    requires i < |text|
    ensures ScanAt(text, i).Word? <==> IsIdentStart(text[i])
    ensures IsIdentStart(text[i]) ==> ScanAt(text, i) == Word(IdentEnd(text, i + 1) - i)
  {
  }

  /** `ScanAt` takes the string rule exactly at a quote that is closed further on. */
  lemma ScanQuote(text: string, i: nat)
    requires i < |text|
    ensures ScanAt(text, i).Quoted? <==> (text[i] == '"' || text[i] == '\'') && QuoteEnd(text, i + 1, text[i]).Some?
    ensures ScanAt(text, i).Quoted? ==> ScanAt(text, i) == Quoted(QuoteEnd(text, i + 1, text[i]).value + 1 - i)
  {
  }

  /** `ScanAt` takes the number rule exactly at a digit. */
  lemma ScanDigit(text: string, i: nat)
    requires i < |text|
    ensures ScanAt(text, i).Numeral? <==> IsDigit(text[i])
    ensures IsDigit(text[i]) ==> ScanAt(text, i) == Numeral(NumeralEnd(text, i) - i)
  {
  }

  /** The token the identifier rule returns at an identifier start. */
  lemma WordToken(text: string, i: nat, line: nat)
    requires i < |text| && IsIdentStart(text[i])
    ensures ScanAt(text, i) == Word(IdentEnd(text, i + 1) - i)
    ensures var x := text[i..IdentEnd(text, i + 1)];
      TokenAt(text, i, ScanAt(text, i), line) == Token(ClassifyWord(x), Lexeme(x), line, i)
  {
    ScanWord(text, i);
    TokenAtWord(text, i, IdentEnd(text, i + 1), line);
  }

  lemma TokenAtWord(text: string, i: nat, k: nat, line: nat)
    requires i < k <= |text| && ScanAt(text, i) == Word(k - i)
    ensures TokenAt(text, i, Word(k - i), line) == Token(ClassifyWord(text[i..k]), Lexeme(text[i..k]), line, i)
  {
    assert text[i..i + Word(k - i).Width()] == text[i..k];
  }

  lemma WordStep(text: string, i: nat, line: nat)
    requires i < |text| && ScanAt(text, i).Word?
    ensures StepMatched(text, i, line)
  {
    ScanWord(text, i);
    WordToken(text, i, line);
    WordMatches(text, i, line);
  }

  lemma QuotedStep(text: string, i: nat, line: nat)
    requires i < |text| && ScanAt(text, i).Quoted?
    ensures StepMatched(text, i, line)
  {
    ScanQuote(text, i);
    var k := QuoteEnd(text, i + 1, text[i]).value;
    var st := Quoted(k + 1 - i);
    assert TokenAt(text, i, st, line) == Token(StringLiteral, Lexeme(text[i + 1..k]), line, i);
    QuotedMatches(text, i, k, line);
  }

  /** The token the number rule returns at a digit. */
  lemma NumeralToken(text: string, i: nat, line: nat)
    requires i < |text| && IsDigit(text[i])
    ensures ScanAt(text, i) == Numeral(NumeralEnd(text, i) - i)
    ensures var x := text[i..NumeralEnd(text, i)];
      NumberLexeme(x) && TokenAt(text, i, ScanAt(text, i), line) == Token(Number, NumValue(NumberValue(x)), line, i)
  {
    ScanDigit(text, i);
    NumeralLexeme(text, i);
    TokenAtNumeral(text, i, NumeralEnd(text, i), line);
  }

  lemma TokenAtNumeral(text: string, i: nat, e: nat, line: nat)
    requires i < e <= |text| && ScanAt(text, i) == Numeral(e - i) && NumberLexeme(text[i..e])
    ensures TokenAt(text, i, Numeral(e - i), line) == Token(Number, NumValue(NumberValue(text[i..e])), line, i)
  {
    assert text[i..i + Numeral(e - i).Width()] == text[i..e];
  }


  lemma NumeralStep(text: string, i: nat, line: nat)
    requires i < |text| && ScanAt(text, i).Numeral?
    ensures StepMatched(text, i, line)
  {
    ScanDigit(text, i);
    NumeralToken(text, i, line);
    NumeralMatches(text, i, line);
  }

  // ---------------------------------------------------------------------
  // Scanning a whole text.

  /** A character error reported by `t_error`. */
  datatype LexError = LexError(ch: char, pos: nat, line: nat)

  /** What scanning produces: the tokens, the reported errors and the final line number. */
  datatype ScanResult = ScanResult(tokens: seq<Token>, errors: seq<LexError>, line: nat)

  /** What one rule application contributes: its token or error, and where scanning resumes. */
  datatype Advance = Advance(emitted: seq<Token>, reported: seq<LexError>, next: nat, nextLine: nat)

  /** One application of the rule `ScanAt` selects at `i`. */
  function AdvanceAt(text: string, i: nat, line: nat): (a: Advance)
    requires i < |text|
    ensures i < a.next <= |text|
  {
    var st := ScanAt(text, i);
    var tokens := if st.Emits() then [TokenAt(text, i, st, line)] else [];
    var errors := if st.Invalid? then [LexError(text[i], i, line)] else [];
    Advance(tokens, errors, i + st.Width(), line + st.Lines())
  }

  /** Scanning `text` from `i` on, the line counter standing at `line`. */
  function ScanFrom(text: string, i: nat, line: nat): ScanResult
    requires i <= |text|
    decreases |text| - i
  {
    if i == |text| then ScanResult([], [], line)
    else
      var a := AdvanceAt(text, i, line);
      var r := ScanFrom(text, a.next, a.nextLine);
      ScanResult(a.emitted + r.tokens, a.reported + r.errors, r.line)
  }

  /** The tokens and errors gathered so far, followed by the scan of the rest. */
  function Continue(tokens: seq<Token>, errors: seq<LexError>, r: ScanResult): ScanResult
  {
    ScanResult(tokens + r.tokens, errors + r.errors, r.line)
  }

  /** Scanning on past one rule application appends what it contributes. */
  lemma ContinueAdvance(text: string, i: nat, line: nat, tokens: seq<Token>, errors: seq<LexError>)
    requires i < |text|
    ensures var a := AdvanceAt(text, i, line);
      Continue(tokens, errors, ScanFrom(text, i, line))
      == Continue(tokens + a.emitted, errors + a.reported, ScanFrom(text, a.next, a.nextLine))
  {
    var a := AdvanceAt(text, i, line);
    var r := ScanFrom(text, a.next, a.nextLine);
    AppendAssoc(tokens, a.emitted, r.tokens);
    AppendAssoc(errors, a.reported, r.errors);
  }

  /** The token stream of a whole query, starting at line 1. */
  function Lex(text: string): seq<Token>
  {
    ScanFrom(text, 0, 1).tokens
  }

  /**
   * The scanning loop: `t_ignore` characters are skipped, `t_newline` bumps the
   * line counter, `t_error` reports and skips one character.
   */
  method Tokenize(text: string, startLine: nat) returns (tokens: seq<Token>, errors: seq<LexError>, line: nat)
    ensures ScanResult(tokens, errors, line) == ScanFrom(text, 0, startLine)
  {
    tokens, errors, line := [], [], startLine;
    var i := 0;
    ghost var whole := ScanFrom(text, 0, startLine);
    while i < |text|
      invariant i <= |text|
      invariant whole == Continue(tokens, errors, ScanFrom(text, i, line))
      decreases |text| - i
    {
      var a := AdvanceAt(text, i, line);
      ContinueAdvance(text, i, line, tokens, errors);
      tokens, errors := tokens + a.emitted, errors + a.reported;
      i, line := a.next, a.nextLine;
    }
    assert ScanFrom(text, i, line) == ScanResult([], [], line);
  }

  // ---------------------------------------------------------------------
  // What a scan produces.

  /** Spaces and tabs produce nothing and scanning moves one character on. */
  lemma BlankAdvance(text: string, i: nat, line: nat)
    requires i < |text| && (text[i] == ' ' || text[i] == '\t')
    ensures AdvanceAt(text, i, line) == Advance([], [], i + 1, line)
  {
  }

  /** A run of newlines produces nothing and advances the line counter by its length. */
  lemma NewlineAdvance(text: string, i: nat, line: nat)
    requires i < |text| && text[i] == '\n'
    ensures var a := AdvanceAt(text, i, line);
      a.emitted == [] && a.reported == [] && a.nextLine == line + (a.next - i)
      && (forall m :: i <= m < a.next ==> text[m] == '\n') && (a.next < |text| ==> text[a.next] != '\n')
  {
    NewlineRun(text, i + 1);
  }

  /** A character no rule matches is reported, and scanning resumes at the next one. */
  lemma InvalidAdvance(text: string, i: nat, line: nat)
    requires i < |text| && !RuleMatchesAt(text, i)
    ensures AdvanceAt(text, i, line) == Advance([], [LexError(text[i], i, line)], i + 1, line)
  {
    InvalidIffNoRuleMatches(text, i);
  }

  /** `>=`, `<=` and `!=` are one token each, never two. */
  lemma TwoCharOperator(text: string, i: nat, line: nat)
    requires i + 1 < |text| && text[i] in "<>!" && text[i + 1] == '='
    ensures var s := if text[i] == '<' then Le else if text[i] == '>' then Ge else Neq;
      AdvanceAt(text, i, line) == Advance([Token(Sym(s), Lexeme(text[i..i + 2]), line, i)], [], i + 2, line)
  {
  }

  /** Every token lies in `text` at or after `i` and matches the text at its position (see `Matched`). */
  predicate TokensMatch(text: string, i: nat, ts: seq<Token>)
  {
    forall k :: 0 <= k < |ts| ==> i <= ts[k].pos < |text| && Matched(text, ts[k])
  }

  /** The tokens come in strictly increasing position order. */
  predicate TokensOrdered(ts: seq<Token>)
  {
    forall k, l :: 0 <= k < l < |ts| ==> ts[k].pos < ts[l].pos
  }

  /** Every error lies in `text` at or after `i`, at a character where no rule matches. */
  predicate ErrorsUnmatched(text: string, i: nat, es: seq<LexError>)
  {
    forall k :: 0 <= k < |es| ==>
      i <= es[k].pos < |text| && es[k].ch == text[es[k].pos] && !RuleMatchesAt(text, es[k].pos)
  }

  /** Every token of a scan matches the text at its position, and the tokens come in text order. */
  lemma {:induction false} ScanTokensMatch(text: string, i: nat, line: nat)
    requires i <= |text|
    ensures TokensMatch(text, i, ScanFrom(text, i, line).tokens)
    ensures TokensOrdered(ScanFrom(text, i, line).tokens)
    decreases |text| - i
  {
    if i < |text| {
      var a := AdvanceAt(text, i, line);
      var rest := ScanFrom(text, a.next, a.nextLine).tokens;
      ScanTokensMatch(text, a.next, a.nextLine);
      var ts := ScanFrom(text, i, line).tokens;
      if ScanAt(text, i).Emits() {
        StepTokenMatches(text, i, line);
        var t := TokenAt(text, i, ScanAt(text, i), line);
        assert ts == [t] + rest;
        forall k | 0 <= k < |ts| ensures i <= ts[k].pos < |text| && Matched(text, ts[k]) {
          if k > 0 { assert ts[k] == rest[k - 1]; }
        }
        forall k, l | 0 <= k < l < |ts| ensures ts[k].pos < ts[l].pos {
          assert ts[l] == rest[l - 1];
          if k > 0 { assert ts[k] == rest[k - 1]; }
        }
      } else {
        assert ts == rest;
      }
    }
  }

  /** Every reported error is a character at which no rule matches. */
  lemma {:induction false} ScanErrorsUnmatched(text: string, i: nat, line: nat)
    requires i <= |text|
    ensures ErrorsUnmatched(text, i, ScanFrom(text, i, line).errors)
    decreases |text| - i
  {
    if i < |text| {
      var a := AdvanceAt(text, i, line);
      var rest := ScanFrom(text, a.next, a.nextLine).errors;
      ScanErrorsUnmatched(text, a.next, a.nextLine);
      var es := ScanFrom(text, i, line).errors;
      if ScanAt(text, i).Invalid? {
        InvalidIffNoRuleMatches(text, i);
        assert es == [LexError(text[i], i, line)] + rest;
        forall k | 0 <= k < |es|
          ensures i <= es[k].pos < |text| && es[k].ch == text[es[k].pos] && !RuleMatchesAt(text, es[k].pos)
        {
          if k > 0 { assert es[k] == rest[k - 1]; }
        }
      } else {
        assert es == rest;
      }
    }
  }

  /** The line counter never goes back: every token's line lies between the start and the final line. */
  lemma {:induction false} ScanLines(text: string, i: nat, line: nat)
    requires i <= |text|
    ensures var r := ScanFrom(text, i, line);
      line <= r.line && forall k :: 0 <= k < |r.tokens| ==> line <= r.tokens[k].line <= r.line
    decreases |text| - i
  {
    if i < |text| {
      var a := AdvanceAt(text, i, line);
      ScanLines(text, a.next, a.nextLine);
    }
  }
}
