/**
 * The in-memory relations the execution engine works on: CSV records as the
 * table store yields them, the Python values a result row can hold, and the
 * errors an execution can raise.
 */
module Values {
  import opened Wrappers
  import opened Strings
  import opened Ast
  import Assoc

  /** A row as `csv.DictReader` yields it: column name to cell text, in header order. */
  type Record = seq<(string, string)>

  /** A Python value held by a row the SELECT pipeline builds. */
  datatype Value = Str(s: string) | Null | IntVal(i: int) | FloatVal(r: real)

  /** A result row: a dict from column name to value, in insertion order. */
  type Row = seq<(string, Value)>

  /**
   * A stored table: its header and its records. A file of zero bytes is the
   * table with an empty header and no records.
   */
  datatype Table = Table(header: seq<string>, records: seq<Record>)

  /** Every record is keyed by the header, in header order. */
  ghost predicate WellFormedTable(t: Table)
  {
    (t.header == [] ==> t.records == [])
    && forall k :: 0 <= k < |t.records| ==> Assoc.Keys(t.records[k]) == t.header
  }

  /** The exceptions an execution raises; each stops the statement and is reported. */
  datatype ExecError =
    | TableNotFound(table: string)   // FileNotFoundError on open
    | KeyError(key: string)          // a missing dict key
    | TypeError                      // ordering values of incomparable types, slicing by a float, zip(None, ...)
    | AttributeError                 // `.startswith` called on an aggregate dict
    | ValueError                     // DictWriter given a row with a field outside its header
    | IndexError                     // the first item of an empty select list

  /** `float(v)` for a grammar value: a NUMBER converts, a string literal when it reads as a number. */
  function LiteralNumber(v: Literal): Option<real>
  {
    match v
    case Num(IntNum(n)) => Some(n as real)
    case Num(FloatNum(w, f)) => if AllDigits(w) && AllDigits(f) then Some(DecimalValue(w, f)) else None
    case Text(t) => ParseNumber(t)
  }

  /** `str(v)` for a grammar value, which is what the CSV writer stores for it. */
  function LiteralText(v: Literal): string
  {
    match v
    case Num(IntNum(n)) => NatToString(n)
    case Num(FloatNum(w, f)) => FloatRepr(w, f)
    case Text(t) => t
  }

  /**
   * A value as Python's `==` and `hash` see it: an int and a float are equal
   * when their numbers are.
   */
  datatype Canon = CStr(s: string) | CNone | CNum(r: real)

  function CanonOf(v: Value): Canon
  {
    match v
    case Str(s) => CStr(s)
    case Null => CNone
    case IntVal(i) => CNum(i as real)
    case FloatVal(r) => CNum(r)
  }

  /** The column names of a row, in order. */
  function Columns(row: Row): seq<string>
  {
    Assoc.Keys(row)
  }
}
