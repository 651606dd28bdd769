// The JavaScript values that example rows carry, their truthiness and the
// text `String(v)` gives them (which is what `String.prototype.replace`
// inserts when a row value is used as the replacement).
module JsValues {

  /** A renderable row value: a string, an (integral) number, a boolean or null. */
  datatype Value = Str(s: string) | Num(n: int) | Bool(b: bool) | Null

  /** JavaScript truthiness: "", 0, false and null are falsy, everything else truthy. */
  predicate Truthy(v: Value) {
    match v
    case Str(s) => s != ""
    case Num(n) => n != 0
    case Bool(b) => b
    case Null => false
  }

  /** The decimal digit for 0..9. */
  function DigitChar(d: nat): (c: char)
    requires d < 10
    ensures '0' <= c <= '9'
  {
    "0123456789"[d]
  }

  /** The value of a decimal digit character. */
  function DigitValue(c: char): (d: nat)
    requires IsDigit(c)
    ensures d < 10
  {
    (c as int - '0' as int) as nat
  }

  predicate IsDigit(c: char) {
    '0' <= c <= '9'
  }

  /** The shortest decimal text of a natural number, most significant digit first. */
  function NatToDecimal(n: nat): (s: string)
    decreases n
  {
    if n < 10 then [DigitChar(n)] else NatToDecimal(n / 10) + [DigitChar(n % 10)]
  }

  /** The number a non-empty string of decimal digits denotes. */
  function DecimalValue(s: string): nat
    requires forall i :: 0 <= i < |s| ==> IsDigit(s[i])
  {
    if s == [] then 0 else DecimalValue(s[..|s| - 1]) * 10 + DigitValue(s[|s| - 1])
  }

  /**
   * The decimal text of a natural number is made of digits only, has no
   * leading zero, and denotes that number back.
   */
  lemma {:induction false} NatToDecimalDenotes(n: nat)
    ensures var s := NatToDecimal(n);
      s != [] && (forall i :: 0 <= i < |s| ==> IsDigit(s[i])) &&
      (s[0] == '0' ==> s == "0") &&
      DecimalValue(s) == n
  {
    var s := NatToDecimal(n);
    if n < 10 {
      assert DigitValue(DigitChar(n)) == n;
    } else {
      NatToDecimalDenotes(n / 10);
      var p := NatToDecimal(n / 10);
      assert s == p + [DigitChar(n % 10)];
      assert s[..|s| - 1] == p;
      assert DigitValue(DigitChar(n % 10)) == n % 10;
    }
  }

  /** JavaScript's `String(v)` for the values a row may hold. */
  function Render(v: Value): string {
    match v
    case Str(s) => s
    case Num(n) => if n < 0 then "-" + NatToDecimal(-n) else NatToDecimal(n)
    case Bool(b) => if b then "true" else "false"
    case Null => "null"
  }

  /**
   * A number renders as its decimal text: an optional minus sign for negative
   * numbers, then the digits of its magnitude without leading zeros.
   */
  lemma RenderNumIsDecimal(n: int)
    ensures var s := Render(Num(n));
      var digits := if n < 0 then s[1..] else s;
      (n < 0 <==> (s != [] && s[0] == '-')) &&
      digits != [] && (forall i :: 0 <= i < |digits| ==> IsDigit(digits[i])) &&
      (digits[0] == '0' ==> n == 0) &&
      DecimalValue(digits) == if n < 0 then -n else n
  {
    if n < 0 {
      NatToDecimalDenotes(-n);
      assert Render(Num(n))[1..] == NatToDecimal(-n);
    } else {
      NatToDecimalDenotes(n);
    }
  }
}
