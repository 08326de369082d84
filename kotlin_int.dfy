/**
 * The parts of Kotlin's `Int` that the calculator relies on: 32-bit
 * two's-complement arithmetic, division that truncates toward zero,
 * `String.toInt()` and `Int.toString()`.
 */
module KotlinInt {
  import opened Wrappers

  const IntMin: int := -0x8000_0000
  const IntMax: int := 0x7fff_ffff
  /** 2^32: Kotlin `Int` arithmetic is exact modulo this number. */
  const Modulus: int := 0x1_0000_0000

  predicate IsInt32(x: int) {
    IntMin <= x <= IntMax
  }

  /** The `Int` that the JVM stores for the mathematical value `x`. */
  function Wrap32(x: int): (r: int)
    ensures IsInt32(r)
    ensures (r - x) % Modulus == 0
    ensures IsInt32(x) ==> r == x
  {
    var k := (x - IntMin) / Modulus;
    assert (x - IntMin) % Modulus + IntMin - x == -k * Modulus;
    MultipleOfModulus(-k);
    (x - IntMin) % Modulus + IntMin
  }

  lemma MultipleOfModulus(k: int)
    ensures (k * Modulus) % Modulus == 0
  {
  }

  /** The contract of `Wrap32` determines its result: no other `Int` is congruent to `x`. */
  lemma Wrap32Unique(x: int, r: int)
    requires IsInt32(r) && (r - x) % Modulus == 0
    ensures r == Wrap32(x)
  {
  }

  function Abs(x: int): nat {
    if x < 0 then -x else x
  }

  /**
   * Kotlin's `a / b` on `Int` before wrap-around: the quotient rounded toward
   * zero, so the remainder is smaller than the divisor and has the sign of the
   * dividend.
   */
  function TruncDiv(a: int, b: int): (q: int)
    requires b != 0
    ensures Abs(a - q * b) < Abs(b)
    ensures a - q * b == 0 || (a - q * b < 0 <==> a < 0)
    ensures Abs(q) <= Abs(a)
  {
    var m := Abs(a) / Abs(b);
    var q := if (a < 0) == (b < 0) then m else -m;
    TruncDivRemainder(a, b, q);
    q
  }

  /** The quotient of the magnitudes, signed, leaves the remainder of the magnitudes, signed like `a`. */
  lemma TruncDivRemainder(a: int, b: int, q: int)
    requires b != 0
    requires q == if (a < 0) == (b < 0) then Abs(a) / Abs(b) else -(Abs(a) / Abs(b))
    ensures Abs(a - q * b) < Abs(b)
    ensures a - q * b == 0 || (a - q * b < 0 <==> a < 0)
    ensures Abs(q) <= Abs(a)
  {
    var m, rest := Abs(a) / Abs(b), Abs(a) % Abs(b);
    assert Abs(a) == m * Abs(b) + rest && 0 <= rest < Abs(b);
    MulGrows(m, Abs(b));
    assert q * b == m * Abs(b) || q * b == -(m * Abs(b)) by {
      SignedProduct(m, b);
    }
    if a < 0 {
      assert q * b == -(m * Abs(b)) by { SignedProduct(m, b); }
      assert a - q * b == -rest;
    } else {
      assert q * b == m * Abs(b) by { SignedProduct(m, b); }
      assert a - q * b == rest;
    }
  }

  lemma SignedProduct(m: int, b: int)
    ensures m * b == (if b < 0 then -(m * Abs(b)) else m * Abs(b))
    ensures (-m) * b == -(m * b)
  {
  }

  /** The contract of `TruncDiv` determines the quotient. */
  lemma TruncDivUnique(a: int, b: int, q: int)
    requires b != 0
    requires Abs(a - q * b) < Abs(b)
    requires a - q * b == 0 || (a - q * b < 0 <==> a < 0)
    ensures q == TruncDiv(a, b)
  {
    var p := TruncDiv(a, b);
    var r, s := a - q * b, a - p * b;
    RemaindersClose(a, b, r, s);
    if p != q {
      Distribute(a, b, p, q);
      NonzeroMultiple(p - q, b);
    }
  }

  lemma RemaindersClose(a: int, b: int, r: int, s: int)
    requires Abs(r) < Abs(b) && Abs(s) < Abs(b)
    requires r == 0 || (r < 0 <==> a < 0)
    requires s == 0 || (s < 0 <==> a < 0)
    ensures Abs(r - s) < Abs(b)
  {
  }

  lemma Distribute(a: int, b: int, p: int, q: int)
    ensures (a - q * b) - (a - p * b) == (p - q) * b
  {
  }

  lemma NonzeroMultiple(k: int, b: int)
    requires k != 0
    ensures Abs(k * b) >= Abs(b)
  {
  }

  lemma MulGrows(m: nat, n: nat)
    requires n >= 1
    ensures m <= m * n
  {
  }

  predicate IsDigit(c: char) {
    '0' <= c <= '9'
  }

  predicate IsDigits(s: string) {
    forall i :: 0 <= i < |s| ==> IsDigit(s[i])
  }

  function DigitValue(c: char): nat
    requires IsDigit(c)
  {
    (c as int) - ('0' as int)
  }

  /** The natural number a string of decimal digits denotes, most significant first. */
  function DigitsValue(s: string): nat
    requires IsDigits(s)
  {
    if s == [] then 0 else 10 * DigitsValue(s[..|s| - 1]) + DigitValue(s[|s| - 1])
  }

  /** What `String.toInt()` accepts before the range check: an optional sign and at least one digit. */
  predicate IsNumeral(s: string) {
    if |s| > 0 && (s[0] == '-' || s[0] == '+') then |s| > 1 && IsDigits(s[1..])
    else |s| > 0 && IsDigits(s)
  }

  function NumeralValue(s: string): int
    requires IsNumeral(s)
  {
    if s[0] == '-' then -(DigitsValue(s[1..]) as int)
    else if s[0] == '+' then DigitsValue(s[1..])
    else DigitsValue(s)
  }

  /**
   * Kotlin's `String.toInt()` in radix 10; `None` where it throws
   * `NumberFormatException` (empty text, a character that is not a digit
   * after the optional sign, or a value outside the `Int` range).
   */
  function ToInt(s: string): (r: Option<int>)
    ensures s == "" ==> r == None
    ensures r.Some? ==> IsInt32(r.value)
    ensures IsDigits(s) && s != "" ==> (r.Some? <==> DigitsValue(s) <= IntMax)
    ensures r.Some? && IsDigits(s) ==> r.value >= 0
    ensures r.Some? ==> IsNumeral(s)
    ensures IsDigits(s) && s != "" && DigitsValue(s) <= IntMax ==> r == Some(DigitsValue(s))
    ensures |s| > 1 && s[0] == '+' && IsDigits(s[1..]) ==> (r.Some? <==> DigitsValue(s[1..]) <= IntMax)
    ensures |s| > 1 && s[0] == '+' && IsDigits(s[1..]) && DigitsValue(s[1..]) <= IntMax ==>
              r == Some(DigitsValue(s[1..]))
    ensures |s| > 1 && s[0] == '-' && IsDigits(s[1..]) ==> (r.Some? <==> DigitsValue(s[1..]) <= -IntMin)
    ensures |s| > 1 && s[0] == '-' && IsDigits(s[1..]) && DigitsValue(s[1..]) <= -IntMin ==>
              r == Some(-(DigitsValue(s[1..]) as int))
  {
    if IsNumeral(s) && IsInt32(NumeralValue(s)) then Some(NumeralValue(s)) else None
  }

  function DigitChar(d: nat): (c: char)
    requires d < 10
    ensures IsDigit(c) && DigitValue(c) == d
  {
    (('0' as int) + d) as char
  }

  /** Decimal digits of `n` without leading zeros. */
  function NatToString(n: nat): (s: string)
    ensures |s| > 0 && IsDigits(s)
    ensures s[0] == '0' ==> n == 0
    decreases n
  {
    if n < 10 then [DigitChar(n)] else NatToString(n / 10) + [DigitChar(n % 10)]
  }

  /** Kotlin's `Int.toString()`: a minus sign for negative values, then the digits of the magnitude. */
  function IntToString(x: int): (s: string)
    ensures IsNumeral(s) && s[0] != '+'
    ensures s[0] == '-' <==> x < 0
    ensures x != 0 ==> s[if x < 0 then 1 else 0] != '0'
    ensures x == 0 ==> s == "0"
  {
    if x < 0 then "-" + NatToString(-x) else NatToString(x)
  }

  lemma {:induction false} NatToStringValue(n: nat)
    ensures DigitsValue(NatToString(n)) == n
    decreases n
  {
    var s := NatToString(n);
    if n >= 10 {
      NatToStringValue(n / 10);
      assert s[..|s| - 1] == NatToString(n / 10);
    }
  }

  /** Parsing the text of an `Int` gives that `Int` back. */
  lemma ToIntOfToString(x: int)
    requires IsInt32(x)
    ensures ToInt(IntToString(x)) == Some(x)
  {
    var s := IntToString(x);
    if x < 0 {
      var t := NatToString(-x);
      assert s == "-" + t && s[1..] == t;
      NatToStringValue(-x);
      assert NumeralValue(s) == -(DigitsValue(t) as int) == x;
    } else {
      var t := NatToString(x);
      assert s == t && IsDigit(s[0]);
      NatToStringValue(x);
      assert NumeralValue(s) == DigitsValue(t) == x;
    }
  }

  /** Appending digits to a numeral, or to empty text, gives a numeral. */
  lemma NumeralExtend(s: string, t: string)
    requires s == "" || IsNumeral(s)
    requires IsDigits(t)
    ensures s + t == "" || IsNumeral(s + t)
  {
  }

  /**
   * Typing one more digit multiplies the value by ten and adds the digit,
   * away from zero on the side of the sign.
   */
  lemma {:induction false} AppendDigit(s: string, c: char)
    requires IsNumeral(s) && IsDigit(c)
    ensures IsNumeral(s + [c])
    ensures NumeralValue(s + [c]) == 10 * NumeralValue(s) + (if s[0] == '-' then -(DigitValue(c) as int) else DigitValue(c))
  {
    var t := s + [c];
    if s[0] == '-' || s[0] == '+' {
      assert t[1..] == s[1..] + [c];
      assert (s[1..] + [c])[..|s| - 1] == s[1..];
    } else {
      assert t[..|t| - 1] == s;
    }
  }

  /** Kotlin's `a / b` never leaves the `Int` range when the divisor is positive. */
  lemma DivisionInRange(a: int, b: int)
    requires IsInt32(a) && b > 0
    ensures IsInt32(TruncDiv(a, b))
  {
  }
}
