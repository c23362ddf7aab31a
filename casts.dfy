/**
 * PHP's conversions of strings to integers, as used by `is_numeric`,
 * `(int)` and `settype`. Integer-shaped strings (an optional sign and one
 * or more decimal digits) whose value fits in 64 bits are converted
 * exactly; every other string is handed to `CastRules`, a record of the
 * engine's behaviour that the model leaves abstract.
 */
module Casts {
  import opened Values

  const PhpIntMax: int := 0x7FFF_FFFF_FFFF_FFFF
  const PhpIntMin: int := -0x8000_0000_0000_0000

  predicate IsDigit(c: char) {
    '0' <= c <= '9'
  }

  predicate AllDigits(s: string) {
    forall i :: 0 <= i < |s| ==> IsDigit(s[i])
  }

  /** An optional sign followed by at least one decimal digit. */
  predicate IntShaped(s: string) {
    || (|s| > 0 && AllDigits(s))
    || (|s| > 1 && (s[0] == '+' || s[0] == '-') && AllDigits(s[1..]))
  }

  function DigitValue(c: char): nat
    requires IsDigit(c)
  {
    c as int - '0' as int
  }

  function DigitsValue(s: string): nat
    requires AllDigits(s)
  {
    if s == [] then 0 else DigitsValue(s[..|s| - 1]) * 10 + DigitValue(s[|s| - 1])
  }

  /** The integer an integer-shaped string denotes. */
  function ParseInt(s: string): int
    requires IntShaped(s)
  {
    if s[0] == '-' then -(DigitsValue(s[1..]) as int)
    else if s[0] == '+' then DigitsValue(s[1..])
    else DigitsValue(s)
  }

  function NatToString(n: nat): string {
    if n < 10 then [('0' as int + n) as char]
    else NatToString(n / 10) + [('0' as int + n % 10) as char]
  }

  /** PHP's decimal rendering of an integer, as in `"$code"`. */
  function IntToString(n: int): string {
    if n < 0 then "-" + NatToString(-n) else NatToString(n)
  }

  lemma {:induction false} NatToStringDigits(n: nat)
    ensures |NatToString(n)| > 0 && AllDigits(NatToString(n))
    ensures DigitsValue(NatToString(n)) == n
  {
    if n >= 10 {
      NatToStringDigits(n / 10);
      var s := NatToString(n);
      assert s[..|s| - 1] == NatToString(n / 10);
    }
  }

  /** Rendering an integer and reading it back gives the integer. */
  lemma IntToStringRoundTrip(n: int)
    ensures IntShaped(IntToString(n))
    ensures ParseInt(IntToString(n)) == n
  {
    if n < 0 {
      NatToStringDigits(-n);
      assert IntToString(n)[1..] == NatToString(-n);
    } else {
      NatToStringDigits(n);
    }
  }

  /**
   * What PHP does with strings that are not integer-shaped, or whose value
   * does not fit in 64 bits: `is_numeric` accepts decimals, exponents and
   * surrounding whitespace, and `(int)` reads a leading number.
   */
  datatype CastRules = CastRules(otherIsNumeric: string -> bool, otherToInt: string -> int)

  predicate HasDigit(s: string) {
    exists i :: 0 <= i < |s| && IsDigit(s[i])
  }

  /**
   * `is_numeric($s)` on a string: every integer-shaped string is numeric,
   * and no string without a digit is (the empty string, words).
   */
  function IsNumeric(rules: CastRules, s: string): (b: bool)
    ensures IntShaped(s) ==> b
    ensures b ==> HasDigit(s)
  {
    assert IntShaped(s) ==> IsDigit(s[|s| - 1]);
    IntShaped(s) || (HasDigit(s) && rules.otherIsNumeric(s))
  }

  /** `(int)$s`, which is also `settype($s, 'int')`. */
  function ToInt(rules: CastRules, s: string): int
  {
    if IntShaped(s) && PhpIntMin <= ParseInt(s) <= PhpIntMax then ParseInt(s) else rules.otherToInt(s)
  }

  /** A 64-bit integer written in decimal converts back to itself. */
  lemma ToIntOfRendered(rules: CastRules, n: int)
    requires PhpIntMin <= n <= PhpIntMax
    ensures ToInt(rules, IntToString(n)) == n
  {
    IntToStringRoundTrip(n);
  }

  /**
   * `settype($v, $datatype)` applied to a captured string, for the two types a
   * route's parameter table can hold.
   */
  function SetType(rules: CastRules, s: string, kind: string): (v: Value)
    requires kind == "int" || kind == "string"
    ensures kind == "string" ==> v == Str(s)
    ensures kind == "int" ==> v.Int?
  {
    if kind == "int" then Int(ToInt(rules, s)) else Str(s)
  }
}
