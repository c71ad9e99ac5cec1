/**
 * The part of JavaScript number semantics the view state depends on: unary plus on a
 * string (`+params['page']`), truthiness (`x || default`), turning a number back into
 * the text the router puts in the URL, and `Math.ceil(a / b)`.
 */
module JsNumber {
  import opened Text

  /** The integer-valued numbers the model needs, and NaN. */
  datatype Number = Finite(value: int) | NaN

  /** JavaScript truthiness of a number: NaN and zero are falsy. */
  predicate Truthy(n: Number) {
    n.Finite? && n.value != 0
  }

  /** `n || fallback` for a number `n`. */
  function OrElse(n: Number, fallback: int): (r: int)
    ensures fallback != 0 ==> r != 0
  {
    if Truthy(n) then n.value else fallback
  }

  predicate IsDigit(c: char) {
    '0' <= c <= '9'
  }

  predicate AllDigits(s: string) {
    forall i :: 0 <= i < |s| ==> IsDigit(s[i])
  }

  function DigitValue(c: char): (d: nat)
    requires IsDigit(c)
    ensures d < 10
  {
    c as int - '0' as int
  }

  function DigitChar(d: nat): (c: char)
    requires d < 10
    ensures IsDigit(c) && DigitValue(c) == d
  {
    ('0' as int + d) as char
  }

  /** The value of a decimal numeral, most significant digit first. */
  function DigitsValue(s: string): nat
    requires AllDigits(s)
  {
    if s == [] then 0 else 10 * DigitsValue(s[..|s| - 1]) + DigitValue(s[|s| - 1])
  }

  /**
   * Unary plus on a string, for integer numerals: surrounding white space is ignored,
   * and the rest is read by ReadNumeral.
   */
  function ToNumber(s: string): (r: Number)
    ensures Trim(s) == [] ==> r == Finite(0)
    ensures AllDigits(Trim(s)) ==> r == Finite(DigitsValue(Trim(s)))
    ensures r.Finite? ==> forall i :: 0 < i < |Trim(s)| ==> IsDigit(Trim(s)[i])
    ensures r.Finite? && Trim(s) != [] ==> IsDigit(Trim(s)[0]) || Trim(s)[0] == '-' || Trim(s)[0] == '+'
  {
    ReadNumeral(Trim(s))
  }

  /**
   * Unary plus on text with no surrounding white space: the empty string is 0, an
   * optional sign may precede the decimal digits, and anything else is NaN.
   */
  function ReadNumeral(t: string): (r: Number)
    ensures t == [] ==> r == Finite(0)
    ensures AllDigits(t) ==> r == Finite(DigitsValue(t))
    ensures r.Finite? ==> forall i :: 0 < i < |t| ==> IsDigit(t[i])
    ensures r.Finite? && t != [] ==> IsDigit(t[0]) || t[0] == '-' || t[0] == '+'
  {
    if t == [] then Finite(0)
    else if |t| > 1 && t[0] == '-' && AllDigits(t[1..]) then Finite(-(DigitsValue(t[1..]) as int))
    else if |t| > 1 && t[0] == '+' && AllDigits(t[1..]) then Finite(DigitsValue(t[1..]))
    else if AllDigits(t) then Finite(DigitsValue(t))
    else NaN
  }

  /** The decimal numeral of a natural number; reading it back gives the number. */
  function NatToString(n: nat): (s: string)
    ensures s != [] && AllDigits(s) && DigitsValue(s) == n
  {
    if n < 10 then
      [DigitChar(n)]
    else
      var p := NatToString(n / 10);
      assert (p + [DigitChar(n % 10)])[..|p|] == p;
      p + [DigitChar(n % 10)]
  }

  /** `String(n)` for an integer: a minus sign before negative numbers. */
  function IntToString(n: int): (s: string)
    ensures s != [] && (s[0] == '-' || IsDigit(s[0])) && IsDigit(s[|s| - 1])
  {
    if n < 0 then "-" + NatToString(-n) else NatToString(n)
  }

  /** `String(x)`, which is what the router writes into the URL for a number. */
  function NumberToString(x: Number): (r: string)
    ensures r != [] && r != "all"
    ensures x.NaN? ==> r == "NaN"
    ensures x.Finite? ==> IsDigit(r[|r| - 1]) && (r[0] == '-' <==> x.value < 0)
  {
    match x
    case Finite(v) => IntToString(v)
    case NaN => "NaN"
  }

  /** Reading back the text of a number gives the same number, NaN included. */
  lemma ToNumberOfString(x: Number)
    ensures ToNumber(NumberToString(x)) == x
  {
    var s := NumberToString(x);
    match x
    case NaN =>
      TrimOfUntrimmable(s);
      assert !IsDigit(s[0]) && s[0] != '-' && s[0] != '+';
    case Finite(v) =>
      TrimOfUntrimmable(s);
      if v < 0 {
        var digits := NatToString(-v);
        assert s == "-" + digits && s[1..] == digits;
        assert |s| > 1 && s[0] == '-' && AllDigits(s[1..]);
        assert ToNumber(s) == Finite(-(DigitsValue(digits) as int));
      } else {
        assert s == NatToString(v) && IsDigit(s[0]);
        assert ToNumber(s) == Finite(DigitsValue(s));
      }
  }

  /** White space around a numeral does not change what unary plus reads from it. */
  lemma ToNumberIgnoresPadding(before: string, s: string, after: string)
    requires AllWhitespace(before) && AllWhitespace(after)
    ensures ToNumber(before + s + after) == ToNumber(s)
  {
    TrimIgnoresPadding(before, s, after);
    assert ToNumber(before + s + after) == ReadNumeral(Trim(before + s + after));
  }

  /**
   * `Math.ceil(a / b)` for a non-zero integer divisor; with a positive divisor the
   * ceiling of a count is a count, zero only for zero.
   */
  function CeilDiv(a: int, b: int): (r: int)
    requires b != 0
    ensures b > 0 ==> (r - 1) * b < a <= r * b
    ensures b < 0 ==> r * b <= a < (r - 1) * b
    ensures b > 0 && a >= 0 ==> r >= 0 && (r == 0 <==> a == 0)
  {
    if b > 0 then
      CeilOfPositive(a, b, (-a) / b);
      -((-a) / b)
    else
      CeilOfNegative(a, b, a / (-b));
      -(a / (-b))
  }

  /** The bracket for a positive divisor, where `Math.ceil(a / b)` is `-((-a) / b)`. */
  lemma CeilOfPositive(a: int, b: int, q: int)
    requires b > 0 && q == (-a) / b
    ensures (-q - 1) * b < a <= (-q) * b
    ensures a >= 0 ==> -q >= 0 && (-q == 0 <==> a == 0)
  {
    var m := (-a) % b;
    assert -a == q * b + m && 0 <= m < b;
    assert (-q) * b == a + m;
    assert (-q - 1) * b == a + m - b;
    MulSign(q, b);
  }

  /** The bracket for a negative divisor, where `Math.ceil(a / b)` is `-(a / (-b))`. */
  lemma CeilOfNegative(a: int, b: int, q: int)
    requires b < 0 && q == a / (-b)
    ensures (-q) * b <= a < (-q - 1) * b
  {
    var m := a % (-b);
    assert a == q * (-b) + m && 0 <= m < -b;
    assert (-q) * b == a - m;
    assert (-q - 1) * b == a - m + (-b);
  }

  lemma MulNonNegative(x: int, y: int)
    ensures x >= 0 && y >= 0 ==> x * y >= 0
  {
  }

  lemma MulSign(x: int, b: int)
    requires b > 0
    ensures x <= 0 ==> x * b <= 0
    ensures x > 0 ==> x * b >= b
  {
  }

  /** The ceiling is the only integer with the property CeilDiv promises. */
  lemma CeilDivUnique(a: int, b: int, r: int)
    requires b > 0 && (r - 1) * b < a <= r * b
    ensures r == CeilDiv(a, b)
  {
    var c := CeilDiv(a, b);
    MulSign(r - c + 1, b);
    MulSign(c - r + 1, b);
    assert (r - c + 1) * b == r * b - (c - 1) * b;
    assert (c - r + 1) * b == c * b - (r - 1) * b;
  }
}
