/** The C# `int` as the interpreter uses it: 32-bit two's-complement values,
    unchecked wrap-around for + - *, division truncating toward zero, and
    int.Parse / decimal printing. */
module Int32 {
  import opened Failures

  const MIN: int := -0x8000_0000
  const MAX: int := 0x7FFF_FFFF
  const MODULUS: int := 0x1_0000_0000

  type i32 = x: int | MIN <= x <= MAX

  function Abs(x: int): nat {
    if x < 0 then -x else x
  }

  /** Unchecked C# arithmetic: the unique 32-bit value congruent to x modulo 2^32 */
  function Wrap(x: int): (r: i32)
    ensures (r - x) % MODULUS == 0
    ensures MIN <= x <= MAX ==> r == x
  {
    var k := (x - MIN) / MODULUS;
    assert x - MIN == k * MODULUS + (x - MIN) % MODULUS;
    (x - MIN) % MODULUS + MIN
  }

  /** C#'s `/` on int: the quotient truncated toward zero, so the remainder
      a - b*q is smaller than b in magnitude and never has the opposite sign of a */
  function TruncDiv(a: int, b: int): (q: int)
    requires b != 0
    ensures Abs(a - b * q) < Abs(b)
    ensures a - b * q == 0 || (a - b * q < 0 <==> a < 0)
    ensures Abs(q) <= Abs(a)
  {
    var m := Abs(a) / Abs(b);
    var q := if (a < 0) == (b < 0) then m else -m;
    TruncDivRemainder(a, b, m, q);
    q
  }

  /** The remainder left by the truncated quotient has the magnitude of Abs(a) % Abs(b)
      and the sign of a */
  lemma TruncDivRemainder(a: int, b: int, m: int, q: int)
    requires b != 0 && m == Abs(a) / Abs(b)
    requires q == if (a < 0) == (b < 0) then m else -m
    ensures a - b * q == (if a < 0 then -(Abs(a) % Abs(b)) else Abs(a) % Abs(b))
    ensures Abs(q) <= Abs(a)
  {
    var x, y := Abs(a), Abs(b);
    var r := x % y;
    DivMod(x, y);
    var p := y * m;
    assert x == p + r;
    if b < 0 {
      NegateLeft(y, q);
      assert b * q == -(y * q);
    } else {
      assert b * q == y * q;
    }
    if q == -m {
      NegateRight(y, m);
      assert y * q == -p;
    } else {
      assert y * q == p;
    }
    NoLargerThanMultiple(y, m);
  }

  lemma DivMod(x: nat, y: nat)
    requires y > 0
    ensures x == y * (x / y) + x % y && 0 <= x % y < y
  {
  }

  lemma NegateLeft(y: int, q: int)
    ensures (-y) * q == -(y * q)
  {
  }

  lemma NegateRight(y: int, m: int)
    ensures y * (-m) == -(y * m)
  {
  }

  lemma NoLargerThanMultiple(y: int, m: int)
    requires y >= 1 && m >= 0
    ensures m <= y * m
  {
    assert y * m == m + (y - 1) * m;
  }

  predicate IsDigit(c: char) {
    '0' <= c <= '9'
  }

  predicate AllDigits(s: string) {
    forall i :: 0 <= i < |s| ==> IsDigit(s[i])
  }

  function DigitValue(c: char): nat
    requires IsDigit(c)
  {
    (c as int) - ('0' as int)
  }

  function DigitChar(d: nat): (c: char)
    requires d < 10
    ensures IsDigit(c) && DigitValue(c) == d
  {
    ('0' as int + d) as char
  }

  /** The base-10 value of a digit string, most significant digit first */
  function DigitsValue(s: string): nat
    requires AllDigits(s)
    decreases |s|
  {
    if s == [] then 0 else DigitsValue(s[..|s| - 1]) * 10 + DigitValue(s[|s| - 1])
  }

  /** The texts int.Parse reads as an integer: an optional sign, then one or more digits */
  predicate IsIntegerText(s: string) {
    if |s| > 0 && (s[0] == '-' || s[0] == '+') then |s| > 1 && AllDigits(s[1..])
    else |s| > 0 && AllDigits(s)
  }

  /** int.Parse: a malformed text and a value outside the 32-bit range are different errors */
  function ParseInt32(s: string): (r: Result<i32>)
    ensures !IsIntegerText(s) <==> r == Fail(BadNumber(s))
    ensures IsIntegerText(s) ==> r.Ok? || r == Fail(Overflow)
    ensures AllDigits(s) && s != [] ==> (r.Ok? <==> DigitsValue(s) <= MAX)
    ensures AllDigits(s) && r.Ok? ==> r.value == DigitsValue(s)
    ensures |s| > 1 && s[0] == '-' && AllDigits(s[1..]) ==>
      (r.Ok? <==> DigitsValue(s[1..]) <= -MIN) && (r.Ok? ==> r.value == -(DigitsValue(s[1..]) as int))
    ensures |s| > 1 && s[0] == '+' && AllDigits(s[1..]) ==>
      (r.Ok? <==> DigitsValue(s[1..]) <= MAX) && (r.Ok? ==> r.value == DigitsValue(s[1..]))
  {
    var signed := |s| > 0 && (s[0] == '-' || s[0] == '+');
    var body := if signed then s[1..] else s;
    if body == [] || !AllDigits(body) then Fail(BadNumber(s))
    else
      var magnitude: int := DigitsValue(body);
      var v := if s[0] == '-' then -magnitude else magnitude;
      if MIN <= v <= MAX then Ok(v) else Fail(Overflow)
  }

  /** The decimal digits of a natural number, without leading zeros */
  function NatDigits(n: nat): (s: string)
    ensures AllDigits(s) && |s| > 0
    decreases n
  {
    if n < 10 then [DigitChar(n)] else NatDigits(n / 10) + [DigitChar(n % 10)]
  }

  /** The text Console.WriteLine prints for an int */
  function Decimal(n: int): string {
    if n < 0 then "-" + NatDigits(-n) else NatDigits(n)
  }

  lemma {:induction false} NatDigitsValue(n: nat)
    ensures DigitsValue(NatDigits(n)) == n
    decreases n
  {
    if n >= 10 {
      var s := NatDigits(n);
      assert s[..|s| - 1] == NatDigits(n / 10);
      NatDigitsValue(n / 10);
    }
  }

  /** Reading back what is printed gives the printed value */
  lemma ParseDecimal(n: i32)
    ensures ParseInt32(Decimal(n)) == Ok(n)
  {
    if n < 0 {
      NatDigitsValue(-(n as int));
      var s := Decimal(n);
      assert s[1..] == NatDigits(-(n as int));
    } else {
      NatDigitsValue(n);
    }
  }

  /** C# division examples: 7/2 is 3 and -7/2 is -3, where Euclidean division would give -4 */
  lemma TruncDivExamples()
    ensures TruncDiv(7, 2) == 3 && TruncDiv(-7, 2) == -3 && TruncDiv(7, -2) == -3
    ensures (-7) / 2 == -4
  {
  }
}
