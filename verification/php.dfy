/** The handful of PHP value rules the API relies on: `empty()`, `isset()`,
    `intval()` and `(bool)` casts over loosely typed JSON values. */
module Php {

  /** `!empty($s)` for a string: PHP treats both "" and "0" as empty. */
  predicate Truthy(s: string) {
    s != "" && s != "0"
  }

  /** `!empty($n)` for an integer id taken from a JSON body. */
  predicate IntTruthy(n: int) {
    n != 0
  }

  /** A scalar decoded from a JSON request body. `Null` stands for a
      field that was never sent (or sent as `null`). */
  datatype Loose = Null | Bool(b: bool) | Int(i: int) | Str(s: string)

  /** `empty($v)`: null, false, 0, "" and "0" are empty. */
  predicate Empty(v: Loose) {
    match v
    case Null => true
    case Bool(b) => !b
    case Int(i) => i == 0
    case Str(s) => !Truthy(s)
  }

  predicate IsDigit(c: char) {
    '0' <= c <= '9'
  }

  /** The characters PHP skips before the digits of a numeric string. */
  predicate IsPhpSpace(c: char) {
    c == ' ' || c == '\t' || c == '\n' || c == '\r' || c == '\U{B}' || c == '\U{C}'
  }

  /** Value of the maximal run of decimal digits at the head of `s`,
      accumulated onto `acc`. */
  function DigitsValue(s: string, acc: nat): (r: nat)
    ensures r >= acc
    ensures (|s| == 0 || !IsDigit(s[0])) ==> r == acc
    decreases |s|
  {
    if |s| > 0 && IsDigit(s[0]) then
      DigitsValue(s[1..], acc * 10 + (s[0] as int - '0' as int))
    else
      acc
  }

  /** The length of the run of decimal digits at the head of `s`. */
  function DigitRun(s: string): (n: nat)
    ensures n <= |s|
    ensures forall i | 0 <= i < n :: IsDigit(s[i])
    ensures n < |s| ==> !IsDigit(s[n])
    decreases |s|
  {
    if |s| > 0 && IsDigit(s[0]) then 1 + DigitRun(s[1..]) else 0
  }

  function Pow10(k: nat): (r: nat)
    ensures r >= 1
  {
    if k == 0 then 1 else 10 * Pow10(k - 1)
  }

  /** A decimal number read from the head of a string: its value is
      `mantissa * 10^(exponent - scale)`, negated when `negative`. */
  datatype Decimal = Decimal(negative: bool, mantissa: nat, scale: nat, exponent: int)

  /** The exponent part of a numeric string: `e` or `E`, an optional sign
      and at least one digit. Anything else is no exponent. */
  function Exponent(s: string): (e: int)
  {
    if |s| >= 2 && (s[0] == 'e' || s[0] == 'E') then
      var neg := s[1] == '-';
      var digits := if s[1] == '-' || s[1] == '+' then s[2..] else s[1..];
      var n := DigitRun(digits);
      if n == 0 then 0
      else if neg then 0 - DigitsValue(digits[..n], 0) as int
      else DigitsValue(digits[..n], 0)
    else 0
  }

  /** The number at the head of `s` once white space and sign are gone:
      digits, optionally a dot and more digits, then an optional
      exponent. With no digit before or after the dot it is zero. */
  function Unsigned(s: string, negative: bool): (d: Decimal)
  {
    var n1 := DigitRun(s);
    var intPart := s[..n1];
    var after := s[n1..];
    var hasDot := |after| > 0 && after[0] == '.';
    var n2 := if hasDot then DigitRun(after[1..]) else 0;
    var fracPart := if hasDot then after[1..][..n2] else "";
    var tail := if hasDot then after[1..][n2..] else after;
    if n1 + n2 == 0 then Decimal(false, 0, 0, 0)
    else Decimal(negative, DigitsValue(intPart + fracPart, 0), n2, Exponent(tail))
  }

  /** The leading numeric part of a string as PHP and MySQL read it:
      leading white space, an optional sign, then `Unsigned`. */
  function NumericPrefix(s: string): (d: Decimal)
    decreases |s|
  {
    if |s| == 0 then Decimal(false, 0, 0, 0)
    else if IsPhpSpace(s[0]) then NumericPrefix(s[1..])
    else if s[0] == '-' || s[0] == '+' then Unsigned(s[1..], s[0] == '-')
    else Unsigned(s, false)
  }

  /** The decimal's value rounded toward zero, as a cast to int does. */
  function Truncate(d: Decimal): int
  {
    var k := d.exponent - d.scale;
    var magnitude := if k >= 0 then d.mantissa * Pow10(k) else d.mantissa / Pow10(-k);
    if d.negative then -magnitude else magnitude
  }

  /** The decimal's value is a whole number. */
  predicate Integral(d: Decimal) {
    var k := d.exponent - d.scale;
    k >= 0 || d.mantissa % Pow10(-k) == 0
  }

  /** `intval` of a string (PHP 7.1 and later): the leading numeric part,
      exponent included, rounded toward zero; a string with no leading
      number is 0. */
  function LeadingInt(s: string): (r: int)
    ensures (|s| == 0 || (!IsPhpSpace(s[0]) && !IsDigit(s[0]) && s[0] != '-' && s[0] != '+' && s[0] != '.')) ==> r == 0
  {
    Truncate(NumericPrefix(s))
  }

  /** The decimal digits of a natural number, most significant first. */
  function DecimalDigits(n: nat): (s: string)
    ensures |s| > 0 && forall i | 0 <= i < |s| :: IsDigit(s[i])
  {
    if n < 10 then [('0' as int + n) as char]
    else DecimalDigits(n / 10) + [('0' as int + n % 10) as char]
  }

  /** How `json_encode` or a string cast writes an integer. */
  function DecimalString(n: int): (s: string)
  {
    if n < 0 then "-" + DecimalDigits(-n) else DecimalDigits(n)
  }

  /** Appending a digit shifts the value one place. */
  lemma {:induction false} DigitsValueAppend(s: string, c: char, acc: nat)
    requires forall i | 0 <= i < |s| :: IsDigit(s[i])
    requires IsDigit(c)
    ensures DigitsValue(s + [c], acc) == DigitsValue(s, acc) * 10 + (c as int - '0' as int)
    decreases |s|
  {
    if |s| > 0 {
      assert (s + [c])[0] == s[0] && (s + [c])[1..] == s[1..] + [c];
      DigitsValueAppend(s[1..], c, acc * 10 + (s[0] as int - '0' as int));
    } else {
      assert s + [c] == [c];
    }
  }

  /** Reading back the digits of a number gives the number. */
  lemma {:induction false} DecimalDigitsValue(n: nat)
    ensures DigitsValue(DecimalDigits(n), 0) == n
    ensures DigitRun(DecimalDigits(n)) == |DecimalDigits(n)|
    decreases n
  {
    var s := DecimalDigits(n);
    if n >= 10 {
      DecimalDigitsValue(n / 10);
      DigitsValueAppend(DecimalDigits(n / 10), ('0' as int + n % 10) as char, 0);
    }
  }

  /** `intval` reads back every integer it is given as a decimal string. */
  lemma IntValOfDecimalString(n: int)
    ensures LeadingInt(DecimalString(n)) == n
    ensures Integral(NumericPrefix(DecimalString(n)))
  {
    var m := if n < 0 then -n else n;
    var digits := DecimalDigits(m);
    DecimalDigitsValue(m);
    assert digits + "" == digits;
    assert digits[..|digits|] == digits;
    if n < 0 {
      assert DecimalString(n)[1..] == digits;
    }
  }

  lemma ExponentExample()
    ensures NumericPrefix("1e3") == Decimal(false, 1, 0, 3)
  {
    assert DigitRun("1e3") == 1 && DigitRun("3") == 1 && DigitsValue("3", 0) == 3;
    assert Exponent("e3") == 3;
    assert "1e3"[..1] + "" == "1" && DigitsValue("1", 0) == 1;
  }

  lemma FractionExample()
    ensures NumericPrefix("1.5") == Decimal(false, 15, 1, 0)
  {
    assert DigitRun("1.5") == 1 && DigitRun("5") == 1;
    assert "1.5"[..1] + "1.5"[1..][1..][..1] == "15" && DigitsValue("15", 0) == 15;
  }

  lemma SignedPrefixExample()
    ensures NumericPrefix(" -12abc") == Decimal(true, 12, 0, 0)
  {
    assert "-12abc"[1..] == "12abc";
    assert DigitRun("abc") == 0 && DigitRun("2abc") == 1 && DigitRun("12abc") == 2;
    assert "12abc"[..2] + "" == "12" && DigitsValue("12", 0) == 12;
    assert "12abc"[2..] == "abc" && Exponent("abc") == 0;
    assert NumericPrefix(" -12abc") == NumericPrefix("-12abc");
  }

  /** `intval` on a few strings: the exponent counts, the fraction is cut
      off, leading white space and a trailing text are ignored. */
  lemma LeadingIntExamples()
    ensures LeadingInt("1e3") == 1000
    ensures LeadingInt("1.5") == 1
    ensures LeadingInt(" -12abc") == -12
    ensures LeadingInt("abc") == 0
  {
    ExponentExample();
    FractionExample();
    SignedPrefixExample();
    assert Pow10(3) == 1000;
  }

  /** `empty` holds of exactly five values, and each of them is 0 under
      `intval`: an empty field is never a usable id. */
  lemma EmptyIff(v: Loose)
    ensures Empty(v) <==> v == Null || v == Bool(false) || v == Int(0) || v == Str("") || v == Str("0")
    ensures Empty(v) ==> IntVal(v) == 0
  {
  }

  /** PHP `intval` of a JSON scalar: null is 0, booleans are 0 or 1. */
  function IntVal(v: Loose): (r: int)
    ensures v.Null? ==> r == 0
    ensures v.Bool? ==> (r == 1 <==> v.b) && (r == 0 <==> !v.b)
    ensures v.Int? ==> r == v.i
  {
    match v
    case Null => 0
    case Bool(b) => if b then 1 else 0
    case Int(i) => i
    case Str(s) => LeadingInt(s)
  }

  /** The length of the run of white space at the head of `s`. */
  function SpaceRun(s: string): (n: nat)
    ensures n <= |s|
    ensures n < |s| ==> !IsPhpSpace(s[n])
    decreases |s|
  {
    if |s| > 0 && IsPhpSpace(s[0]) then 1 + SpaceRun(s[1..]) else 0
  }

  /** The length of the exponent `Exponent` reads, 0 when there is none. */
  function ExponentLength(s: string): (n: nat)
    ensures n <= |s|
  {
    if |s| >= 2 && (s[0] == 'e' || s[0] == 'E') then
      var signed := s[1] == '-' || s[1] == '+';
      var k := DigitRun(if signed then s[2..] else s[1..]);
      if k == 0 then 0 else (if signed then 2 else 1) + k
    else 0
  }

  /** The length of the number `Unsigned` reads, 0 when there is none. */
  function NumberLength(s: string): (n: nat)
    ensures n <= |s|
  {
    var n1 := DigitRun(s);
    var hasDot := n1 < |s| && s[n1] == '.';
    var n2 := if hasDot then DigitRun(s[n1 + 1..]) else 0;
    var m := if hasDot then n1 + 1 + n2 else n1;
    if n1 + n2 == 0 then 0 else m + ExponentLength(s[m..])
  }

  /** A numeric string in PHP 8: white space, an optional sign, a number,
      and nothing after it but white space. */
  predicate IsNumericString(s: string) {
    var u := UnsignedPart(s);
    var n := NumberLength(u);
    n > 0 && forall i | n <= i < |u| :: IsPhpSpace(u[i])
  }

  /** What follows the leading white space and the sign. */
  function UnsignedPart(s: string): (u: string)
    ensures |u| <= |s|
  {
    var t := s[SpaceRun(s)..];
    if |t| > 0 && (t[0] == '-' || t[0] == '+') then t[1..] else t
  }

  /** `$v == $n` in PHP 8, for a JSON scalar and an integer id: null and
      booleans compare as booleans, a numeric string compares by its value,
      and any other string compares with the integer's decimal text. */
  predicate LooseEqualsInt(v: Loose, n: int) {
    match v
    case Null => n == 0
    case Bool(b) => b == (n != 0)
    case Int(i) => i == n
    case Str(s) =>
      if IsNumericString(s) then Integral(NumericPrefix(s)) && LeadingInt(s) == n
      else s == DecimalString(n)
  }

  /** A decimal numeral is a numeric string. */
  lemma DecimalStringIsNumeric(n: int)
    ensures IsNumericString(DecimalString(n))
  {
    var m := if n < 0 then -n else n;
    var digits := DecimalDigits(m);
    DecimalDigitsValue(m);
    assert digits[|digits|..] == "";
    if n < 0 {
      assert DecimalString(n)[1..] == digits;
    }
  }

  /** The decimal text of an integer is loosely equal to an id exactly
      when it spells that id. */
  lemma LooseEqualsDecimalString(m: int, n: int)
    ensures LooseEqualsInt(Str(DecimalString(m)), n) <==> m == n
  {
    DecimalStringIsNumeric(m);
    IntValOfDecimalString(m);
  }

  /** A string whose number is followed by text is not numeric. */
  lemma TextAfterNumber(s: string)
    requires SpaceRun(s) == 0 && |s| > 0 && s[0] != '-' && s[0] != '+'
    requires NumberLength(s) < |s| && !IsPhpSpace(s[NumberLength(s)])
    ensures !IsNumericString(s)
  {
    assert s[SpaceRun(s)..] == s;
    assert UnsignedPart(s) == s;
  }

  /** `true` equals every id but 0; a string with text after its number is
      compared as text, so "5abc" is not 5. */
  lemma LooseEqualsExamples()
    ensures forall n :: LooseEqualsInt(Bool(true), n) <==> n != 0
    ensures !LooseEqualsInt(Str("5abc"), 5)
  {
    assert DigitRun("abc") == 0 && DigitRun("5abc") == 1;
    assert "5abc"[1..] == "abc";
    assert NumberLength("5abc") == 1;
    assert SpaceRun("5abc") == 0 && !IsPhpSpace("5abc"[1]);
    TextAfterNumber("5abc");
    assert DecimalString(5) == "5" != "5abc";
  }
}
