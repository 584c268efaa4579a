# A SQL interpreter over CSV files, modelled in Dafny

The system reads one SQL-like statement at a time, scans it into tokens
(`lexer.py`), parses the tokens into a statement tree (`parser_sql.py`), and
runs the tree against CSV files that serve as tables (`executor.py`). It
supports SELECT with WHERE, GROUP BY, aggregates, DISTINCT, ORDER BY and
LIMIT, and INSERT, UPDATE and DELETE. This project models those three files
and proves properties of the model.

- **Lexer** (`lexer.dfy`): the keyword table, the token rules, and the scanning
  loop that skips blanks, counts lines and reports invalid characters.
  - `Tokenize` is a loop proved equal to the recursive scan `ScanFrom`.
  - Every token is proved to match the text it was read from.
  - Every reported error is proved to be a character that no rule matches.
- **Parser** (`parser.dfy`, `ast.dfy`): the grammar as a recursive-descent parser.
  - Parsing produces the same trees the PLY actions build.
  - `render.dfy` prints a tree back as tokens. Parsing the printout gives the
    tree back for every tree that parsing can produce.
- **Conditions** (`conditions.dfy`): `verifica_condicao`. This covers LIKE
  matching, numeric coercion, and the Python comparisons that raise.
- **SELECT** (`select.dfy`, `grouping.dfy`, `aggregates.dfy`, `ordering.dfy`,
  `unique.dfy`): the stages of the active `executar_select`. These are WHERE,
  grouping, aggregates, projection, DISTINCT, the stable multi-key sort, and
  LIMIT. Each loop is a method proved against a specification function.
- **Mutations** (`mutations.dfy`): INSERT, UPDATE and DELETE on a table value.
  - INSERT: the primary-key heuristic, the surrogate id, and the header
    extension.
  - UPDATE and DELETE: what the CSV writer leaves in the file, including
    when it raises half way.
- **Join** (`join.dfy`): the nested-loop inner join of the first, shadowed
  `executar_select`.
- **Executor** (`executor.dfy`): `executar` dispatching one statement against
  a store of tables. It returns the new store and what the statement
  reports.
  - `Execute` runs UPDATE and DELETE as written.
  - `ExecuteIntended` runs their corrected forms (see Findings).
- **Support modules:** `wrappers.dfy` (Option/Result), `seqs.dfy` (Filter),
  `strings.dfy` (case and decimal text), `assoc.dfy` (a Python dict as an
  association list), and `values.dfy` (records, rows and tables).

Python dicts are modelled as association lists. Reading one takes the first
entry for a key (`Assoc.Lookup`). Writing replaces that entry in place, or
appends a new one (`Assoc.Put`). So insertion order is kept, as in Python.

A Python exception is a `Result` error (`ExecError`) that the caller passes
on. The store holds whatever was written before the error.

Where the code's behaviour may surprise a reader, the model follows the code:

- INSERT into a table whose file does not exist, without a column list:
  - the code creates a table with only an `id` column (executor.py:164-168);
  - it is not rejected.
- DELETE without WHERE:
  - it keeps every row, because the comprehension keeps a row when
    `condicao is None` (executor.py:255-256);
  - it does not delete everything (see Findings).
- UPDATE whose SET names a column the header lacks:
  - `DictWriter.writerows` raises ValueError on the first row that has that
    column (executor.py:232-235);
  - the file is left holding only the rows before that row (see Findings);
  - no check runs beforehand.
- AND and OR:
  - they have equal precedence and group to the right, since the grammar
    declares no precedence (parser_sql.py:191-206);
  - `NOT condition` raises inside its parser action, because it calls
    `.upper()` on a dict.
- DISTINCT and JOIN in the parser:
  - `p_distinct_opt` always yields true, so DISTINCT is always on
    (parser_sql.py:27-30);
  - the join type is always "LEFT" (parser_sql.py:109-112).
- The active `executar_select` ignores a JOIN clause (executor.py:342-344).
- Group keys are cells as stored, not trimmed (executor.py:367).
- ORDER BY compares the values as they are, so cells stored as text sort as
  strings ("10" before "9") (executor.py:315).
  - A key that some row lacks raises KeyError.
  - Among two or more rows, a None key, or string keys mixed with number
    keys, raise TypeError.
  - Int and float keys sort among themselves by value.

## Model

| member | source | states |
|---|---|---|
| Lexer.KeywordFromFound | lexer.py:5-32 | a keyword found in the table from entry k on is some entry j >= k, with that entry's type |
| Lexer.KeywordFromComplete | lexer.py:5-32 | a word spelled like a table entry is always found |
| Lexer.EntryListed | lexer.py:5-41 | every keyword type the table hands out is one of the declared token types |
| Lexer.ClassifyWordType | lexer.py:57-60 | a word is a keyword exactly when its lower-case form is a table entry, and its type is then a declared keyword token |
| Lexer.ClassifiedEntry | lexer.py:57-60 | a word classified as keyword kw is, lower-cased, the table entry for kw |
| Lexer.KeywordSpelling | lexer.py:5-32 | the upper-cased lexeme of a word classified AND, OR, COUNT, SUM, AVG, ASC or DESC is that keyword's name |
| Lexer.LikeSpelling | lexer.py:5-32 | the lower-cased lexeme of a word classified LIKE is "like" |
| Parser.ConnectiveTest | parser_sql.py:201-204 | on lexed tokens the `.upper() == 'AND'` and `'OR'` tests hold exactly for the AND and OR tokens, so branching on the token type takes the same branch |
| Parser.LikeTest | parser_sql.py:211-214 | on lexed tokens the `.lower() == 'like'` test holds for the LIKE token and for no comparison operator |
| Lexer.ClassifyIgnoresCase | lexer.py:59 | keyword recognition gives the same type for a word, its upper-case and its lower-case forms |
| Lexer.NumberValue | lexer.py:69-75 | a number lexeme is an int exactly when it has no '.'; a float is the digits before and after its '.' |
| Lexer.NumberOfNat | lexer.py:69-75 | the decimal text of a natural number scans as an int token of that value |
| Lexer.QuoteEnd | lexer.py:63-64 | finds the first closing quote, with no such quote in between, or reports that none follows |
| Lexer.ScanAt | lexer.py:43-85 | the rule chosen at a position consumes at least one character and stays within the text |
| Lexer.IntLexeme | lexer.py:69-75 | digits not followed by '.' form a maximal all-digit int lexeme whose value is their decimal value |
| Lexer.FloatLexeme | lexer.py:69-75 | digits, '.', digits form a float lexeme made of the two digit runs |
| Lexer.InvalidIffNoRuleMatches | lexer.py:83-85 | t_error fires at a position exactly when no token rule matches there |
| Lexer.WordMatches | lexer.py:57-60 | an identifier match is the maximal word there, classified by the keyword table, with no newline |
| Lexer.QuotedMatches | lexer.py:63-66 | a string token holds the text between two equal quotes, with the quotes removed |
| Lexer.NumeralMatches | lexer.py:69-75 | a number token is the maximal number lexeme, an int or float as '.' decides |
| Lexer.OperatorMatches | lexer.py:43-52 | an operator token is the longest operator written at its position |
| Lexer.StepTokenMatches | lexer.py:43-75 | every token a rule returns matches the text at its position |
| Lexer.AdvanceAt | lexer.py:54-85 | one rule application moves the scan strictly forward, within the text |
| Lexer.Tokenize | lexer.py:54-85 | the scanning loop returns exactly the tokens, errors and final line of the recursive scan |
| Lexer.BlankAdvance | lexer.py:54 | a space or tab emits nothing and advances one character |
| Lexer.NewlineAdvance | lexer.py:78-80 | a run of newlines emits nothing, is skipped whole, and raises the line counter by its length |
| Lexer.InvalidAdvance | lexer.py:83-85 | an unmatched character is reported with its position and line and skipped |
| Lexer.TwoCharOperator | lexer.py:43-52 | `<=`, `>=` and `!=` are each one token, never two |
| Lexer.ScanTokensMatch | lexer.py:54-85 | every token of a scan matches the text at its position, and the tokens come in text order |
| Lexer.ScanErrorsUnmatched | lexer.py:83-85 | every reported error is a character at which no rule matches |
| Lexer.ScanLines | lexer.py:78-80 | the line counter never decreases, and every token's line lies between the start and final lines |
| Parser.Expect | parser_sql.py:13-25 | consuming a token of a type succeeds exactly when that type is next, and drops just that token |
| Parser.ParseName | parser_sql.py:13-25 | an IDENTIFIER is read as its lexeme, and nothing else is accepted |
| Parser.LexWellFormed | lexer.py:57-75 | the lexer produces only well-formed tokens (numbers carry numbers, words carry text) |
| Parser.ParsedTextValid | parser_sql.py:4-9 | every statement parsed from a text is a valid tree |
| Parser.ParseValue | parser_sql.py:225-228 | a value is a NUMBER or STRING_LITERAL token, a number exactly when the token is a NUMBER |
| Parser.ParseSimple | parser_sql.py:208-223 | a simple condition is `column op value` or `column LIKE 'pattern'`, built from exactly those three tokens |
| Parser.ParseCondition | parser_sql.py:191-206 | a parsed condition consumes tokens, contains no NOT node, and is followed by neither AND nor OR |
| Parser.ParseOperand | parser_sql.py:191-206 | a parenthesised or simple operand consumes tokens and contains no NOT node |
| Parser.ParseAggregate | parser_sql.py:46-56 | an aggregate is four tokens, named by the upper-cased keyword, over a column, or over `*` only for COUNT |
| Parser.ParseSelectItem | parser_sql.py:40-44 | a select item is `*`, a column or an aggregate, and is valid when the tokens are well formed |
| Parser.ParseSelectList | parser_sql.py:32-38 | a select list is non-empty, of valid items, and stops where no comma follows |
| Parser.ParseColumnList | parser_sql.py:163-169 | a column list is non-empty and stops where no comma follows |
| Parser.ParseValueList | parser_sql.py:155-161 | a value list is non-empty and stops where no comma follows |
| Parser.ParseOrderItem | parser_sql.py:176-187 | an order item names its column, with direction the upper-cased ASC/DESC lexeme, else "ASC" |
| Parser.ParseOrderList | parser_sql.py:171-174 | an order list is non-empty, of valid items, and stops where no comma follows |
| Parser.ParseSetItems | parser_sql.py:143-153 | the SET items are read in order, non-empty, stopping where no comma follows |
| Parser.MergedAssignments | parser_sql.py:143-149 | the merged SET dict names each assigned column once, with the value of its last assignment |
| Parser.ParseJoin | parser_sql.py:97-116 | a JOIN clause is present exactly when LEFT or JOIN comes next, and its type is always "LEFT" |
| Parser.ParseWhere | parser_sql.py:118-121 | a WHERE clause is present exactly when WHERE comes next, and holds a NOT-free condition |
| Parser.ParseGroupBy | parser_sql.py:123-129 | a GROUP BY clause is present exactly when GROUP comes next, and lists at least one column |
| Parser.ParseOrderBy | parser_sql.py:131-134 | an ORDER BY clause is present exactly when ORDER comes next, and lists valid items |
| Parser.ParseLimit | parser_sql.py:136-139 | a LIMIT clause is present exactly when LIMIT comes next, and holds the next token's NUMBER |
| Parser.ParseClauses | parser_sql.py:13-25 | the optional clauses read in order give valid clauses |
| Parser.ParseSelect | parser_sql.py:13-30 | a SELECT parses to a valid select tree with DISTINCT set |
| Parser.ParseInsertColumns | parser_sql.py:60-76 | the column list is present exactly when '(' follows the table name |
| Parser.ParseValuesClause | parser_sql.py:60-76 | VALUES is followed by a non-empty value list in parentheses |
| Parser.ParseInsert | parser_sql.py:60-76 | an INSERT parses to a valid tree, with columns exactly when '(' follows the table name |
| Parser.ParseUpdate | parser_sql.py:78-85 | an UPDATE parses to a valid update tree |
| Parser.ParseDelete | parser_sql.py:87-93 | a DELETE parses to a valid delete tree |
| Parser.ParseStatement | parser_sql.py:4-9 | a statement consumes at least one token and is valid |
| Parser.Parse | parser_sql.py:4-9 | a whole token stream parses to a valid statement |
| Render.RoundTrip | parser_sql.py:4-228 | every valid tree is what parsing its own printout gives back |
| Render.StatementRoundTrip | parser_sql.py:4-9 | a printed valid statement parses back to itself with nothing left over |
| Render.SelectRoundTrip | parser_sql.py:13-56 | a printed valid SELECT parses back to itself |
| Render.InsertRoundTrip | parser_sql.py:60-76 | a printed valid INSERT parses back to itself |
| Render.UpdateRoundTrip | parser_sql.py:78-85 | a printed valid UPDATE parses back to itself |
| Render.DeleteRoundTrip | parser_sql.py:87-93 | a printed valid DELETE parses back to itself |
| Render.ConditionRoundTrip | parser_sql.py:191-228 | a printed NOT-free condition parses back to itself, whatever follows except AND or OR |
| Render.ClausesRoundTrip | parser_sql.py:97-139 | printed valid optional clauses parse back to themselves |
| Render.MergeDistinct | parser_sql.py:143-149 | merging SET items whose columns are distinct changes nothing |
| Conditions.PercentMatches | executor.py:290-292 | the LIKE pattern `%` matches exactly the texts without a newline |
| Conditions.OneCharMatches | executor.py:290-292 | a one-character pattern other than `%` matches exactly one character it accepts |
| Conditions.MatchesConcat | executor.py:290-292 | matches of two patterns concatenate into a match of the concatenated pattern |
| Conditions.MatchesSplit | executor.py:290-292 | a match of a concatenated pattern splits the text into matches of the two parts |
| Conditions.FixedWidth | executor.py:290-292 | a pattern without `%` matches only texts of its own length |
| Conditions.MatchesIgnoresCase | executor.py:292 | LIKE gives the same answer on a text and on its lower-cased form |
| Conditions.MissingColumn | executor.py:284-285 | a leaf on a column the record lacks is false, and its negation true |
| Conditions.Connectives | executor.py:273-279 | AND, OR and NOT give the boolean operations of their operands' values |
| Conditions.ShortCircuit | executor.py:274-277 | the right operand of AND matters only when the left one is true, and that of OR only when the left one is false; otherwise any right operand, even one that raises, gives the same answer |
| Conditions.DeMorgan | executor.py:273-279 | NOT (l AND r) evaluates as NOT l OR NOT r, and NOT (l OR r) as NOT l AND NOT r, raises included |
| Conditions.Regroup | executor.py:273-277 | a chain of one connective gives the same answer grouped to the right, as the grammar groups it, or to the left |
| Conditions.CompareCell | executor.py:294-307 | a leaf raises exactly for an ordering operator against a NUMBER that the cell cannot be compared with as a number, and then raises TypeError; `=` holds exactly when the literal is the cell's own text or the cell spells the literal's number |
| Conditions.NumberSpelling | executor.py:294-301 | against a literal that reads as a number, cells spelling the same number (`1`, `01`, `1.0`) compare alike under every operator |
| Conditions.Eval | executor.py:272-309 | a condition raises only TypeError, and only when it holds an ordering comparison against a NUMBER; a leaf on a missing column is false |
| Conditions.NewlineBlocksMatch | executor.py:290-292 | a LIKE pattern without a newline matches no text holding one |
| Conditions.LikeFinalNewline | executor.py:290-292 | LIKE matches a text plus one final newline exactly when it matches the newline-free text itself, since `$` lets that newline through |
| Conditions.ComparisonsAgree | executor.py:302-307 | `=` and `!=` never raise and are each other's negation; where ordering does not raise exactly one of `<`, `=`, `>` holds and `<=`, `>=` follow |
| Conditions.EvalTotal | executor.py:272-309 | a condition without an ordering comparison against a NUMBER never raises |
| Select.WhereKeeps | executor.py:347-348 | the filter succeeds exactly when no test raises, and keeps exactly the satisfying records in order |
| Select.WhereRaises | executor.py:348 | a raising filter raises the error of the first record whose test raises |
| Select.ProjectRowLookup | executor.py:400 | a projected row holds each requested column's cell, or None when the record lacks it, and no other column |
| Select.ProjectRowKeys | executor.py:400 | a projected row has each column once, exactly the requested ones in order when they are distinct |
| Select.Project | executor.py:397-400 | projection keeps one row per record, each the projection of that record |
| Select.AggregateAll | executor.py:361-396 | the aggregation loop returns exactly the aggregated rows of the groups |
| Select.GroupedRows | executor.py:365-396 | GROUP BY gives one row per distinct key in first-appearance order, over exactly that key's records |
| Select.SingleGroup | executor.py:369-394 | an aggregate query without GROUP BY gives exactly one row, in which each aggregate holds its value over every filtered record unless a later item stores under its name |
| Select.WhereErrors | executor.py:347-348 | the WHERE filter raises only TypeError |
| Select.SelectErrors | executor.py:333-431 | a SELECT raises only TypeError, KeyError or IndexError |
| Select.Distinct | executor.py:404-412 | DISTINCT keeps the first row of each distinct set of cells, in order |
| Select.DuplicatesSameCells | executor.py:408 | rows DISTINCT treats as duplicates hold the same cells |
| Select.SameCellsDuplicates | executor.py:408 | rows with the same cells are duplicates for DISTINCT, whatever their column order |
| Select.LimitPrefix | executor.py:417-418 | LIMIT n keeps the first min(n, len) rows |
| Select.EarlyExit | executor.py:350-352 | when no record passes WHERE the statement reports no results |
| Select.ShownShape | executor.py:417-426 | a shown result is non-empty, headed by its first row's columns, and within LIMIT |
| Select.StarColumns | executor.py:398 | `*` shows the columns of the first record that passed WHERE |
| Select.ExecuteSelect | executor.py:333-431 | the SELECT pipeline returns the specified outcome, and ORDER BY leaves shown rows sorted |
| Select.Finish | executor.py:402-426 | DISTINCT, ORDER BY and LIMIT give the specified outcome, and the shown rows are sorted |
| Select.SortStage | executor.py:414-415 | the ORDER BY stage returns the stable sort or its error, sorted when it succeeds |
| Grouping.GroupRows | executor.py:365-368 | the grouping loop builds exactly the specified groups |
| Grouping.GroupKeys | executor.py:366-368 | there is one group per distinct key, in order of first appearance, no key twice |
| Grouping.GroupMembers | executor.py:366-368 | each group holds exactly the records with its key, in their original order |
| Grouping.GroupSizes | executor.py:366-368 | grouping neither loses nor duplicates a record: the group sizes add up to the record count |
| Aggregates.CountCounts | executor.py:387-388 | COUNT(*) is the group size; COUNT(col) is between 0 and it, full or zero exactly when every or no cell is filled |
| Aggregates.AggValue | executor.py:382-394 | only COUNT, SUM and AVG store a value; COUNT an int between 0 and the group's size, SUM and AVG the int 0 or a non-negative float |
| Aggregates.SummandsEmpty | executor.py:390 | there are summands exactly when some cell is non-empty and unsigned-decimal |
| Aggregates.SumAndAverageZero | executor.py:389-394 | SUM and AVG are the int 0 exactly when no cell qualifies |
| Aggregates.AverageIsSumOverCount | executor.py:389-394 | with a qualifying cell, AVG and SUM are both floats and AVG is SUM divided by the number of qualifying cells |
| Aggregates.AggregateRow | executor.py:373-396 | the per-group loop builds exactly the specified aggregate row |
| Aggregates.AggregateRowKeys | executor.py:376-385 | a group's row has the GROUP BY columns then the aggregates in select order, each once |
| Aggregates.GroupColumnInRow | executor.py:377-379 | a GROUP BY column in a group's row holds the cell its members share |
| Aggregates.AggregateInRow | executor.py:382-394 | an aggregate in a group's row holds its value over the group, unless a later item overwrites that name |
| Ordering.BeforeTransitive | executor.py:315 | the sort order on one key is transitive, for ascending and descending |
| Ordering.BeforeTotal | executor.py:315 | any two distinct keys are ordered one way or the other |
| Ordering.SortBySorted | executor.py:315 | sorting on one key gives a sequence sorted on that key |
| Ordering.SortByPermutes | executor.py:315 | sorting on one key is a permutation |
| Ordering.SortByStable | executor.py:315 | sorting on one key keeps the relative order of rows with equal keys |
| Ordering.SortStepSorted | executor.py:312-315 | a stable sort on one more key orders by that key first, then by the earlier keys |
| Ordering.SortStepStable | executor.py:312-315 | a stable sort on one more key keeps rows with equal key tuples in their original order |
| Ordering.OrderedErrors | executor.py:311-316 | the sort raises only KeyError, for a missing key, or TypeError, for keys that cannot be compared |
| Ordering.NumberKeysSort | executor.py:315 | int and float keys sort by value without raising |
| Ordering.MixedKeysRaise | executor.py:315 | a string key and a number key in one pass raise TypeError |
| Ordering.OrderedRaises | executor.py:312-315 | a pass that raises ends the whole sort with its error |
| Ordering.OrderRows | executor.py:311-316 | the sort raises exactly when some key is missing, or two or more rows hold a None key or strings mixed with numbers; otherwise it is a permutation, ordered by the keys in priority order, and stable |
| Mutations.FirstIdSuffixed | executor.py:143-145 | finds the first column ending in `_id`, with none before it, or reports that none exists |
| Mutations.PkColumn | executor.py:130-147 | the key is `id` for an empty header or one with `id`, else the first `_id` column, else the first column |
| Mutations.PkInHeader | executor.py:130-147 | the key of a non-empty header is one of its columns |
| Mutations.Max | executor.py:180 | the maximum is an element and no element exceeds it |
| Mutations.KeyNumbersAre | executor.py:178 | the ids collected are exactly the values of all-digit key cells |
| Mutations.NextIdFresh | executor.py:173-180 | the new id is at least 1, above every all-digit key, and 1 or one more than an existing key |
| Mutations.NextIdAfter | executor.py:173-180 | appending a record keyed by the new id makes the next id one larger |
| Mutations.Zip | executor.py:186-189 | the zip is as long as the shorter list and pairs the i-th name with the i-th value |
| Mutations.ExtendFacts | executor.py:195-198 | the extended field list starts with the header and holds exactly its columns and the new keys |
| Mutations.ExtendNothing | executor.py:195-198 | keys already in the header do not extend it |
| Mutations.Written | executor.py:203-207 | the written record has exactly the field list's columns, in order |
| Mutations.WrittenLookup | executor.py:203-207 | a written field holds the row's cell, or '' when the row lacks it |
| Mutations.ExecuteInsert | executor.py:149-211 | the INSERT procedure yields exactly the specified table |
| Mutations.ExtendFields | executor.py:195-198 | the loop appends to the field names each key not yet among them, giving the extended list whose properties ExtendFacts states |
| Mutations.NewRowKeys | executor.py:184-192 | a column of the new row is the key, a named column, or a header column when none are named |
| Mutations.InsertRecord | executor.py:149-211 | INSERT keeps the old records and appends one record whose key holds the new id |
| Mutations.InsertValue | executor.py:185-186 | a named non-key column holds the value given last for it |
| Mutations.InsertKeepsKey | executor.py:171-198 | after INSERT the header is non-empty and has the key column the INSERT used |
| Mutations.InsertThenNextId | executor.py:173-192 | the next INSERT into the same table assigns the next id |
| Mutations.FirstId | executor.py:173 | the first INSERT into an empty or missing table assigns id 1 |
| Mutations.InsertWellFormed | executor.py:149-211 | INSERT of header columns into a well-formed table keeps it well formed |
| Mutations.WriteRows | executor.py:232-235 | the writer writes rows in order up to the first one with a column outside the header |
| Mutations.AsText | executor.py:228-229 | the SET values are paired with their columns, in order, as the writer prints them |
| Mutations.AssignLookup | executor.py:228-229 | an assigned column holds the last value given for it, and every other column keeps its cell |
| Mutations.UpdateLoopRaisesTypeError | executor.py:225-230 | the update loop raises only TypeError, from a WHERE test |
| Mutations.UpdateRows | executor.py:225-230 | the update loop returns exactly the specified rows and count, or the first error |
| Mutations.PrefixRaises | executor.py:226-227 | a raise in a prefix of the records is the raise of the whole loop |
| Mutations.UpdateLoopFacts | executor.py:225-230 | the loop raises exactly when a WHERE test raises; otherwise it keeps the row count, rewrites exactly the satisfying rows, and counts them |
| Mutations.UpdateCountIsWhere | executor.py:225-230 | the UPDATE count is the number of rows a SELECT with the same WHERE returns |
| Mutations.AssignKeys | executor.py:228-229 | assigning only header columns keeps a record keyed by the header |
| Mutations.UpdateKnownColumns | executor.py:213-242 | with known columns and a WHERE that never raises, UPDATE keeps every row, rewrites exactly the matches, reports their count and keeps the table well formed |
| Mutations.UpdateOf | executor.py:213-242 | a reported count keeps every row under the same header and counts the rows WHERE selects; a ValueError leaves fewer rows than there were; any other error leaves the table as it was |
| Mutations.KeepLoop | executor.py:255-256 | the comprehension keeps no more rows than it was given |
| Mutations.KeepLoopFacts | executor.py:255-256 | the comprehension raises exactly when a test raises; otherwise it keeps, in order, the rows WHERE does not select |
| Mutations.DeleteOf | executor.py:244-270 | a reported count stores exactly the rows DELETE spares, and the count and the spared rows add up to the rows there were; an error leaves the table as it was |
| Mutations.DeleteWhere | executor.py:244-265 | with WHERE, DELETE stores exactly the unselected rows and reports as removed the count a SELECT would return |
| Mutations.DeleteLeavesNoMatch | executor.py:255-263 | after a DELETE with WHERE, no stored record satisfies that WHERE |
| Mutations.DeleteWellFormed | executor.py:244-263 | DELETE keeps a well-formed table well formed |
| Mutations.DeleteWithoutWhereKeepsAll | executor.py:255-258 | as written, DELETE without WHERE keeps the table and reports 0 removed |
| Mutations.DeleteIntendedRemoves | executor.py:255-258 | the corrected DELETE removes exactly the selected rows (all without WHERE), keeps the rest, and reports how many went |
| Mutations.UpdateUnknownColumnLosesRows | executor.py:228-235 | as written, SET on a column the header lacks empties a one-row table and reports ValueError |
| Mutations.UnknownAssignmentMisfits | executor.py:228-235 | a row given a SET column the header lacks no longer fits the header, so the writer refuses it |
| Mutations.UnknownColumnTruncates | executor.py:228-235 | as written, SET on a column the header lacks, with WHERE selecting record i, makes the writer raise ValueError and leaves at most the i rows before it |
| Mutations.FirstUnknown | executor.py:228-229 | finds a SET column that the header lacks |
| Mutations.UpdateCheckedSafe | executor.py:213-242 | the checked UPDATE either leaves the table as it was or keeps every row and reports a count |
| Join.InnerJoin | executor.py:53-57 | the nested loops return exactly the specified join |
| Join.JoinSize | executor.py:53-57 | the join has at most one record per pair of left and right records |
| Join.JoinMembers | executor.py:53-57 | the joined records are exactly the merges of matching pairs |
| Join.MergeLookup | executor.py:57 | a merged record's column holds the right record's cell when it has one, else the left's |
| Join.JoinColumns | executor.py:55-57 | every joined record holds, under the right join column, the left record's join value |
| Executor.CountTarget | executor.py:115 | the target is the text between `COUNT(` and the last character |
| Executor.CountIsWhere | executor.py:117-124 | COUNT raises exactly when WHERE does, and counts the filtered records whose target is `*` or a filled cell |
| Executor.CountStar | executor.py:117-124 | COUNT(*) counts every record that passes WHERE |
| Executor.CountRaises | executor.py:117-124 | COUNT raises only TypeError, from WHERE |
| Executor.Execute | executor.py:11-26 | a statement, run as written, changes no table but its own, and a SELECT changes nothing |
| Executor.ExecuteIntended | executor.py:11-26 | the dispatch with the corrected UPDATE and DELETE also changes no table but its own |
| Executor.LeadingAggregateFails | executor.py:13-18 | a SELECT reports AttributeError exactly when its first item is an aggregate, whatever the store holds |
| Executor.ConsecutiveInserts | executor.py:149-211 | two INSERTs into one table assign consecutive ids, and the first into a missing table assigns 1 |
| Executor.SelectFindsNothing | executor.py:347-352 | a SELECT where no record satisfies WHERE reports no results |
| Executor.DeleteThenSelect | executor.py:244-265 | after a DELETE that succeeds, a SELECT with the same WHERE finds nothing |
| Executor.DeleteWithoutWhere | executor.py:255-258 | as written, DELETE without WHERE leaves the store as it was and reports 0; the corrected dispatch empties the table and reports how many rows it held |
| Executor.UnknownColumn | executor.py:228-235 | as written, SET on a column the header lacks, with WHERE selecting record i, reports ValueError and leaves at most the i rows before it; the corrected dispatch reports KeyError and changes no table |
| Executor.UpdateThenLookup | executor.py:213-242 | after an UPDATE that succeeds, every selected record holds the last value assigned to each SET column |
| Unique.UniqByIdempotent | executor.py:404-412 | keeping first occurrences twice is keeping them once, so DISTINCT is idempotent |
| Unique.UniqByKeepsOrder | executor.py:404-412 | keeping first occurrences keeps the rows' relative order |
| Strings.NatToStringRoundTrip | executor.py:178-192 | the decimal text of an id reads back as that id |

## Left out

- CSV reading and writing, files on disk, and printing.
  - A table is a header and a list of records.
  - The store is a map from table names to tables.
  - What a statement prints is its `Report` or `Outcome` value.
- `main.py` and the read-eval loop: `main.py` is not part of this model.
- PLY's LALR machinery and panic-mode error recovery. Any syntax error ends
  the parse with an error. `p_error`'s messages are not modelled.
- Floating point:
  - numbers are exact reals;
  - Python's `float()` corner cases (exponents, `inf`, `nan`, underscores,
    surrounding blanks) are not read as numbers;
  - `str.isdigit` is modelled for ASCII digits only.
- Regular-expression metacharacters other than `%` and `_` in LIKE patterns.
  The conditions carry a `PlainWhere`/`PlainPatterns` precondition that
  excludes them, since `re` would give them their regex meaning.
- The first, shadowed `executar_select` (executor.py:28-101), apart from its
  inner-join loop. Python replaces the function by the later definition.
- INSERT of a row with more columns than an existing file's header.
  `DictReader` would read the extra cells back under a `None` key. The model
  keeps the record with its columns, and `InsertWellFormed` assumes the
  columns are known.
- Executor.CountOf:
  - the `COUNT(` branch of `executar` is modelled as written;
  - the parser only puts identifiers in `columns`, and an identifier never
    starts with `COUNT(`, so this branch is unreachable;
  - that unreachability is not proved.
- Conditions.CharMatches: case is folded for ASCII letters only. `re.IGNORECASE`
  on a `str` folds every Unicode letter, so `LIKE 'joão'` matches the cell
  "JOÃO" in the program but not in the model.
- Conditions.MatchesIgnoresCase: proved for the ASCII folding of
  `CharMatches`, not for Unicode case folding.
- Lexer.NumeralMatches: the `\d+\.?\d*` rule (`NumeralEnd`, `IsDigit`) is
  modelled for ASCII digits. On a `str`, `\d` also matches other Unicode
  decimal digits (so "٣" is NUMBER 3 in the program); the model reports such
  a character as invalid.
- Strings.FloatRepr: prints a float literal in fixed-point notation. Python's
  `str(float)` uses exponent form below 1e-4 and from 1e16 up (`1e-05`,
  `1e+16`) and rounds to the shortest text that reads back to the same
  double, so INSERT and UPDATE of such a literal store different text.
- Mutations.AsText: pairs each SET value with its column as `FloatRepr`
  prints it, so it inherits the gap above for floats that Python prints in
  exponent form or rounds.

## Findings

| source | as written | input that shows it | evidently intended | confidence | as-written member | corrected member |
|---|---|---|---|---|---|---|
| executor.py:255-258 | the comprehension keeps a row when `condicao is None`, so DELETE without WHERE removes nothing and reports 0 | `DELETE FROM t` on a table with rows | DELETE without WHERE removes every row and reports how many | not executed | Mutations.DeleteWithoutWhereKeepsAll | Mutations.DeleteIntendedRemoves |
| executor.py:228-235 | SET on a column the header lacks adds it to the matching rows; `writerows` then raises ValueError after writing only the rows before the first such row, so the file loses the rest | `UPDATE t SET missing = 'x'` on a table with header `id` and one row | check the SET columns against the header before writing, and leave the table unchanged when one is unknown | not executed | Mutations.UpdateUnknownColumnLosesRows | Mutations.UpdateCheckedSafe |
