/**
 * Character classes, ASCII case mapping, Python's string ordering and the
 * decimal number syntax shared by the tokenizer and the execution engine.
 */
module Strings {
  import opened Wrappers

  predicate IsDigit(c: char) { '0' <= c <= '9' }

  predicate IsLetter(c: char) { ('a' <= c <= 'z') || ('A' <= c <= 'Z') }

  /** First character of `[a-zA-Z_][a-zA-Z0-9_]*`. */
  predicate IsIdentStart(c: char) { IsLetter(c) || c == '_' }

  predicate IsIdentChar(c: char) { IsIdentStart(c) || IsDigit(c) }

  function LowerChar(c: char): char
  {
    if 'A' <= c <= 'Z' then (c as int + 32) as char else c
  }

  function UpperChar(c: char): char
  {
    if 'a' <= c <= 'z' then (c as int - 32) as char else c
  }

  /** `str.lower()` restricted to ASCII letters. */
  function Lower(s: string): (r: string)
    ensures |r| == |s|
    ensures forall i :: 0 <= i < |s| ==> r[i] == LowerChar(s[i])
  {
    if s == [] then [] else [LowerChar(s[0])] + Lower(s[1..])
  }

  /** `str.upper()` restricted to ASCII letters. */
  function Upper(s: string): (r: string)
    ensures |r| == |s|
    ensures forall i :: 0 <= i < |s| ==> r[i] == UpperChar(s[i])
  {
    if s == [] then [] else [UpperChar(s[0])] + Upper(s[1..])
  }

  /** Upper-casing ignores the case the word was written in. */
  lemma UpperOfLower(s: string)
    ensures Upper(Lower(s)) == Upper(s)
  {
    var a, b := Upper(Lower(s)), Upper(s);
    assert |a| == |b|;
    forall i | 0 <= i < |a| ensures a[i] == b[i] {
      assert Lower(s)[i] == LowerChar(s[i]);
    }
  }

  /** `u` is `l` upper-cased character by character. */
  lemma UpperOf(l: string, u: string)
    requires |l| == |u| && forall i :: 0 <= i < |l| ==> UpperChar(l[i]) == u[i]
    ensures Upper(l) == u
  {
  }

  lemma LowerOfUpper(s: string)
    ensures Lower(Upper(s)) == Lower(s)
  {
    var a, b := Lower(Upper(s)), Lower(s);
    assert |a| == |b|;
    forall i | 0 <= i < |a| ensures a[i] == b[i] {
      assert Upper(s)[i] == UpperChar(s[i]);
    }
  }

  // ---------------------------------------------------------------------
  // Python's `<` on str: lexicographic on code points, a proper prefix first.

  predicate StrLt(a: string, b: string)
    decreases |a|
  {
    if a == [] then b != []
    else if b == [] then false
    else if a[0] == b[0] then StrLt(a[1..], b[1..])
    else a[0] < b[0]
  }

  lemma {:induction false} StrLtIrreflexive(a: string)
    ensures !StrLt(a, a)
    decreases |a|
  {
    if a != [] { StrLtIrreflexive(a[1..]); }
  }

  lemma {:induction false} StrLtTransitive(a: string, b: string, c: string)
    requires StrLt(a, b) && StrLt(b, c)
    ensures StrLt(a, c)
    decreases |a|
  {
    if a != [] && b != [] && c != [] && a[0] == b[0] && b[0] == c[0] {
      StrLtTransitive(a[1..], b[1..], c[1..]);
    }
  }

  lemma {:induction false} StrLtTotal(a: string, b: string)
    ensures a == b || StrLt(a, b) || StrLt(b, a)
    decreases |a|
  {
    if a != [] && b != [] && a[0] == b[0] {
      StrLtTotal(a[1..], b[1..]);
      if a[1..] == b[1..] {
        assert a == [a[0]] + a[1..] && b == [b[0]] + b[1..];
      }
    }
  }

  lemma StrLtAsymmetric(a: string, b: string)
    requires StrLt(a, b)
    ensures !StrLt(b, a)
  {
    if StrLt(b, a) {
      StrLtTransitive(a, b, a);
      StrLtIrreflexive(a);
    }
  }

  // ---------------------------------------------------------------------
  // Decimal digits and natural numbers.

  /** Every character is an ASCII digit (the empty string included). */
  predicate AllDigits(s: string) { forall i :: 0 <= i < |s| ==> IsDigit(s[i]) }

  /** Python's `str.isdigit()` on ASCII text: non-empty and all digits. */
  predicate IsDigitString(s: string) { |s| > 0 && AllDigits(s) }

  function DigitValue(c: char): nat
    requires IsDigit(c)
  {
    c as int - '0' as int
  }

  /** Python's `int(s)` on a digit string (0 for the empty string). */
  function DigitsValue(s: string): nat
    requires AllDigits(s)
    decreases |s|
  {
    if s == [] then 0 else 10 * DigitsValue(s[..|s| - 1]) + DigitValue(s[|s| - 1])
  }

  function DigitChar(d: nat): (c: char)
    requires d < 10
    ensures IsDigit(c) && DigitValue(c) == d
  {
    ('0' as int + d) as char
  }

  /** Python's `str(n)` for a natural number. */
  function NatToString(n: nat): (s: string)
    ensures IsDigitString(s)
    decreases n
  {
    if n < 10 then [DigitChar(n)] else NatToString(n / 10) + [DigitChar(n % 10)]
  }

  /** `int(str(n)) == n`: printing a number and reading it back is the identity. */
  lemma {:induction false} NatToStringRoundTrip(n: nat)
    ensures DigitsValue(NatToString(n)) == n
    decreases n
  {
    var s := NatToString(n);
    if n >= 10 {
      NatToStringRoundTrip(n / 10);
      assert s[..|s| - 1] == NatToString(n / 10);
    } else {
      assert s[..|s| - 1] == [];
    }
  }

  function Pow10(n: nat): (r: nat)
    ensures r >= 1
  {
    if n == 0 then 1 else 10 * Pow10(n - 1)
  }

  /** The value of the decimal numeral `whole.frac`. */
  function DecimalValue(whole: string, frac: string): (r: real)
    requires AllDigits(whole) && AllDigits(frac)
    ensures r >= 0.0
  {
    DigitsValue(whole) as real + DigitsValue(frac) as real / Pow10(|frac|) as real
  }

  function IndexOf(s: string, c: char): (r: Option<nat>)
    ensures r.Some? ==> r.value < |s| && s[r.value] == c && c !in s[..r.value]
    ensures r.None? ==> c !in s
  {
    if s == [] then None
    else if s[0] == c then Some(0)
    else match IndexOf(s[1..], c)
      case None => None
      case Some(k) => assert s[1..][..k] == s[1..k + 1]; Some(k + 1)
  }

  /**
   * Python's `float(s)` on the decimal forms the model accepts: an optional
   * sign, then digits with at most one '.', at least one digit in all.
   */
  function ParseNumber(s: string): Option<real>
  {
    if |s| > 0 && (s[0] == '-' || s[0] == '+') then
      match ParseUnsigned(s[1..])
      case None => None
      case Some(v) => Some(if s[0] == '-' then -v else v)
    else ParseUnsigned(s)
  }

  function ParseUnsigned(s: string): Option<real>
  {
    match IndexOf(s, '.')
    case None => if IsDigitString(s) then Some(DigitsValue(s) as real) else None
    case Some(k) =>
      var whole, frac := s[..k], s[k + 1..];
      if AllDigits(whole) && AllDigits(frac) && |whole| + |frac| > 0
      then Some(DecimalValue(whole, frac)) else None
  }

  /** `s.replace('.', '', 1)`: the text with its first '.' removed. */
  function RemoveFirstDot(s: string): (r: string)
  {
    match IndexOf(s, '.')
    case None => s
    case Some(k) => s[..k] + s[k + 1..]
  }

  /** `s.replace('.', '', 1).isdigit()`, the test SUM and AVG apply to a cell. */
  predicate IsPlainDecimal(s: string) { IsDigitString(RemoveFirstDot(s)) }

  /** Every cell that passes the SUM/AVG test converts with `float()` to a non-negative value. */
  lemma PlainDecimalParses(s: string)
    requires IsPlainDecimal(s)
    ensures ParseNumber(s).Some? && ParseNumber(s).value >= 0.0
  {
    match IndexOf(s, '.')
    case None =>
    case Some(k) =>
      var r := RemoveFirstDot(s);
      assert r == s[..k] + s[k + 1..];
      assert AllDigits(s[..k]) by {
        forall i | 0 <= i < k ensures IsDigit(s[..k][i]) { assert s[..k][i] == r[i]; }
      }
      var frac := s[k + 1..];
      assert AllDigits(frac) by {
        forall i | 0 <= i < |frac| ensures IsDigit(frac[i]) { assert frac[i] == r[k + i]; }
      }
      assert s[0] == '.' || IsDigit(s[0]);
  }

  // ---------------------------------------------------------------------
  // Python's `str()` of an int or of a float written as a decimal numeral.

  function DropLeadingZeros(s: string): (r: string)
    ensures |r| <= |s|
  {
    if |s| > 0 && s[0] == '0' then DropLeadingZeros(s[1..]) else s
  }

  function DropTrailingZeros(s: string): (r: string)
    ensures |r| <= |s|
  {
    if |s| > 0 && s[|s| - 1] == '0' then DropTrailingZeros(s[..|s| - 1]) else s
  }

  /**
   * `str(float("whole.frac"))` in Python's fixed-point notation: no leading
   * zeros before the point, no trailing zeros after it, at least one digit on
   * each side.
   */
  function FloatRepr(whole: string, frac: string): string
  {
    var w := DropLeadingZeros(whole);
    var f := DropTrailingZeros(frac);
    (if w == [] then "0" else w) + "." + (if f == [] then "0" else f)
  }
}
