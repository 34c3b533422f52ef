/**
 The shell's 64-bit integers: wrapping operators, exponentiation by squaring, and numbers in
 a given base.
 */
module ShellIntegers {
  datatype Error =
    | SyntaxError | ExpectedColon | ExpectedParenthesis | ExpectedVariable | DivisionByZero | Overflow
    | RecursionTooDeep | ValueTooGreat | InvalidBase | ReadOnlyVariable

  datatype Result<+T> = Ok(value: T) | Err(error: Error)

  const MODULUS: int := 0x1_0000_0000_0000_0000
  const MIN: int := -0x8000_0000_0000_0000
  const MAX: int := 0x7FFF_FFFF_FFFF_FFFF

  predicate InRange(x: int) {
    MIN <= x <= MAX
  }

  /** The 64-bit value congruent to `x`. */
  function Wrap(x: int): (r: int)
    ensures InRange(r) && (x - r) % MODULUS == 0
    ensures InRange(x) ==> r == x
  {
    (x - MIN) % MODULUS + MIN
  }

  lemma WrapUnique(x: int, y: int)
    requires (x - y) % MODULUS == 0
    ensures Wrap(x) == Wrap(y)
  {
    var k := (x - y) / MODULUS;
    assert x - MIN == (y - MIN) + k * MODULUS;
    ModuloShift(y - MIN, k);
  }

  lemma ModuloShift(x: int, k: int)
    ensures (x + k * MODULUS) % MODULUS == x % MODULUS
  {
    var q, r := x / MODULUS, x % MODULUS;
    assert x + k * MODULUS == (q + k) * MODULUS + r;
  }

  lemma WrapMultiple(x: int) returns (k: int)
    ensures Wrap(x) == x + k * MODULUS
  {
    k := -((x - MIN) / MODULUS);
  }

  /** Wrapping the factors first makes no difference to the wrapped product. */
  lemma WrapProduct(x: int, y: int)
    ensures Wrap(Wrap(x) * Wrap(y)) == Wrap(x * y)
  {
    var j := WrapMultiple(x);
    var k := WrapMultiple(y);
    var m := x * k + j * y + j * k * MODULUS;
    assert (x + j * MODULUS) * (y + k * MODULUS) - x * y == m * MODULUS by {
      Distribute(x, y, j * MODULUS, k * MODULUS);
      assert x * (k * MODULUS) == (x * k) * MODULUS;
      assert (j * MODULUS) * y == (j * y) * MODULUS;
      assert (j * MODULUS) * (k * MODULUS) == (j * k * MODULUS) * MODULUS;
    }
    MultipleModulo(m);
    WrapUnique(Wrap(x) * Wrap(y), x * y);
  }

  lemma Distribute(x: int, y: int, a: int, b: int)
    ensures (x + a) * (y + b) - x * y == x * b + a * y + a * b
  {}

  lemma MultipleModulo(m: int)
    ensures (m * MODULUS) % MODULUS == 0
  {
    ModuloShift(0, m);
  }

  // ---- exponentiation ----

  function Pow(b: int, e: nat): int {
    if e == 0 then 1 else b * Pow(b, e - 1)
  }

  lemma {:induction false} PowSquare(b: int, e: nat)
    ensures Pow(b * b, e) == Pow(b, 2 * e)
  {
    if e > 0 {
      PowSquare(b, e - 1);
      assert Pow(b, 2 * e) == b * (b * Pow(b, 2 * e - 2));
      Associate(b, b, Pow(b, 2 * e - 2));
    }
  }

  lemma Associate(x: int, y: int, z: int)
    ensures x * (y * z) == (x * y) * z
  {}

  lemma {:induction false} PowWrap(b: int, e: nat)
    ensures Wrap(Pow(Wrap(b), e)) == Wrap(Pow(b, e))
  {
    if e > 0 {
      PowWrap(b, e - 1);
      var p, q := Pow(Wrap(b), e - 1), Pow(b, e - 1);
      WrapProduct(Wrap(b), p);
      WrapProduct(b, q);
      assert Wrap(Wrap(b)) == Wrap(b);
    }
  }

  /** What `**` means: the power modulo 2^64, and truncation to an integer below exponent 0. */
  function PowerOf(b: int, e: int): (r: int)
    ensures InRange(r)
  {
    if e >= 0 then Wrap(Pow(b, e)) else if b == 1 then 1 else if b == -1 then (if e % 2 == 0 then 1 else -1) else 0
  }

  method Power(base: int, exponent0: int) returns (result: int)
    ensures result == PowerOf(base, exponent0)
  {
    hide Wrap, Pow;
    if exponent0 < 0 {
      if base == 1 {
        return 1;
      } else if base == -1 {
        return if exponent0 % 2 == 0 then 1 else -1;
      }
      return 0;
    }
    result := 1;
    var square, exponent := base, exponent0;
    WrapNone(Pow(base, exponent0));
    while exponent > 0
      invariant exponent >= 0
      invariant Wrap(result * Pow(square, exponent)) == Wrap(Pow(base, exponent0))
      invariant InRange(result)
    {
      PowerStep(result, square, exponent);
      if exponent % 2 == 1 {
        result := Wrap(result * square);
      }
      square := Wrap(square * square);
      exponent := exponent / 2;
    }
    PowerEnds(result, square);
  }

  lemma WrapNone(x: int)
    ensures 1 * x == x
  {}

  lemma PowerEnds(result: int, square: int)
    requires InRange(result)
    ensures Wrap(result * Pow(square, 0)) == result
  {}

  /** One round of the squaring loop keeps the product modulo 2^64. */
  lemma PowerStep(result: int, square: int, e: int)
    requires e > 0
    ensures var next := if e % 2 == 1 then Wrap(result * square) else result;
            Wrap(next * Pow(Wrap(square * square), e / 2)) == Wrap(result * Pow(square, e))
  {
    hide Wrap, Pow;
    var half: nat := e / 2;
    var p := Pow(square * square, half);
    PowWrap(square * square, half);
    PowSquare(square, half);
    if e % 2 == 1 {
      PowNext(square, 2 * half);
      WrapProduct2(result * square, Pow(Wrap(square * square), half), p);
      Associate(result, square, p);
    } else {
      WrapFactor(result, Pow(Wrap(square * square), half), p);
    }
  }

  lemma PowNext(b: int, e: nat)
    ensures Pow(b, e + 1) == b * Pow(b, e)
  {}

  lemma WrapFactor(x: int, a: int, b: int)
    requires Wrap(a) == Wrap(b)
    ensures Wrap(x * a) == Wrap(x * b)
  {
    hide Wrap;
    WrapProduct(x, a);
    WrapProduct(x, b);
  }

  lemma WrapProduct2(x: int, a: int, b: int)
    requires Wrap(a) == Wrap(b)
    ensures Wrap(Wrap(x) * a) == Wrap(x * b)
  {
    WrapProduct(Wrap(x), a);
    WrapProduct(x, b);
    assert Wrap(Wrap(x)) == Wrap(x);
  }

  // ---- numbers in a base ----

  function DigitValue(c: char): (r: int)
    ensures -1 <= r <= 63
  {
    if '0' <= c <= '9' then c as int - '0' as int
    else if 'a' <= c <= 'z' then c as int - 'a' as int + 10
    else if 'A' <= c <= 'Z' then c as int - 'A' as int + 36
    else if c == '@' then 62
    else if c == '_' then 63
    else -1
  }

  predicate IsDigitIn(c: char, radix: int) {
    0 <= DigitValue(c) < radix
  }

  /** The number digits spell in a base, unbounded. */
  function NumberIn(digits: string, radix: int): int {
    if digits == "" then 0 else NumberIn(digits[..|digits| - 1], radix) * radix + DigitValue(digits[|digits| - 1])
  }

  function InBase(digits: string, radix: int): (r: Result<int>)
    ensures r.Ok? ==> InRange(r.value)
  {
    if radix < 2 || radix > 64 then Err(InvalidBase)
    else if forall k :: 0 <= k < |digits| ==> IsDigitIn(digits[k], radix) then Ok(Wrap(NumberIn(digits, radix)))
    else Err(ValueTooGreat)
  }

  method ParseInBase(digits: string, radix: int) returns (r: Result<int>)
    ensures r == InBase(digits, radix)
  {
    hide Wrap;
    if radix < 2 || radix > 64 {
      return Err(InvalidBase);
    }
    var result := 0;
    assert digits[..0] == "" && Wrap(0) == 0;
    for k := 0 to |digits|
      invariant forall j :: 0 <= j < k ==> IsDigitIn(digits[j], radix)
      invariant result == Wrap(NumberIn(digits[..k], radix))
    {
      var digit := DigitValue(digits[k]);
      if digit < 0 || digit >= radix {
        return Err(ValueTooGreat);
      }
      assert digits[..k + 1][..k] == digits[..k];
      WrapStep(NumberIn(digits[..k], radix), radix, digit);
      result := Wrap(result * radix + digit);
    }
    assert digits[..|digits|] == digits;
    r := Ok(result);
  }

  lemma WrapStep(n: int, radix: int, digit: int)
    ensures Wrap(Wrap(n) * radix + digit) == Wrap(n * radix + digit)
  {
    var j := WrapMultiple(n);
    assert (n + j * MODULUS) * radix - n * radix == (j * radix) * MODULUS by { Distribute(n, radix, j * MODULUS, 0); }
    MultipleModulo(j * radix);
    WrapUnique(Wrap(n) * radix + digit, n * radix + digit);
  }

  // ---- decimal numbers ----

  function Digit(n: nat): char
    requires n < 10
  {
    '0' + n as char
  }

  function Decimal(n: nat): (s: string)
    ensures s != "" && forall k :: 0 <= k < |s| ==> '0' <= s[k] <= '9'
    ensures |s| > 1 ==> s[0] != '0'
  {
    if n < 10 then [Digit(n)] else Decimal(n / 10) + [Digit(n % 10)]
  }

  lemma {:induction false} DecimalNumber(n: nat)
    ensures NumberIn(Decimal(n), 10) == n
  {
    if n >= 10 {
      DecimalNumber(n / 10);
      var s := Decimal(n / 10);
      assert Decimal(n)[..|Decimal(n)| - 1] == s;
      assert NumberIn(Decimal(n), 10) == NumberIn(s, 10) * 10 + DigitValue(Digit(n % 10));
    } else {
      assert [Digit(n)][..0] == "";
    }
  }

  // ---- the operators ----

  datatype Operator =
    | Or | And | BitOr | BitXor | BitAnd | Equal | NotEqual | Less | LessEqual | Greater | GreaterEqual
    | ShiftLeft | ShiftRight | Add | Subtract | Multiply | Divide | Modulo | Exponent

  function ToBits(x: int): bv64 {
    (x % MODULUS) as bv64
  }

  function FromBits(b: bv64): int {
    Wrap(b as int)
  }

  function Truth(b: bool): int {
    if b then 1 else 0
  }

  /** Division rounds toward zero. */
  function Quotient(a: int, b: int): int
    requires b != 0
  {
    var q := (if a < 0 then -a else a) / (if b < 0 then -b else b);
    if (a < 0) == (b < 0) then q else -q
  }

  function Combine(op: Operator, a: int, b: int): Result<int> {
    match op
    case Or => Ok(Truth(a != 0 || b != 0))
    case And => Ok(Truth(a != 0 && b != 0))
    case BitOr => Ok(FromBits(ToBits(a) | ToBits(b)))
    case BitXor => Ok(FromBits(ToBits(a) ^ ToBits(b)))
    case BitAnd => Ok(FromBits(ToBits(a) & ToBits(b)))
    case Equal => Ok(Truth(a == b))
    case NotEqual => Ok(Truth(a != b))
    case Less => Ok(Truth(a < b))
    case LessEqual => Ok(Truth(a <= b))
    case Greater => Ok(Truth(a > b))
    case GreaterEqual => Ok(Truth(a >= b))
    case ShiftLeft => Ok(Wrap(a * Pow(2, b % 64)))
    case ShiftRight => Ok(Shifted(a, b % 64))
    case Add => Ok(Wrap(a + b))
    case Subtract => Ok(Wrap(a - b))
    case Multiply => Ok(Wrap(a * b))
    case Divide => if b == 0 then Err(DivisionByZero) else if a == MIN && b == -1 then Err(Overflow) else Ok(Quotient(a, b))
    case Modulo => if b == 0 then Err(DivisionByZero) else if a == MIN && b == -1 then Err(Overflow) else Ok(a - b * Quotient(a, b))
    case Exponent => Ok(PowerOf(a, b))
  }

  /** The arithmetic shift halves, rounding down, once for each place. */
  function Shifted(a: int, places: nat): int
    decreases places
  {
    if places == 0 then a else Shifted(a / 2, places - 1)
  }

  /** The quotient times the divisor falls short of the dividend by less than the divisor, and never passes it. */
  lemma DivisionFacts(a: int, b: int)
    requires b != 0
    ensures var r := a - b * Quotient(a, b);
            && (if b < 0 then b < r < -b else -b < r < b)
            && (if a < 0 then r <= 0 else r >= 0)
    ensures InRange(a) && !(a == MIN && b == -1) ==> InRange(Quotient(a, b))
  {
    var m, n := if a < 0 then -a else a, if b < 0 then -b else b;
    var q := m / n;
    assert m == n * q + m % n;
    QuotientFits(m, n);
    if (a < 0) == (b < 0) {
      assert b * q == if b < 0 then -(n * q) else n * q by { Negates(n, q); }
    } else {
      assert b * -q == if b < 0 then n * q else -(n * q) by { Negates(n, q); }
    }
  }

  lemma Negates(n: int, q: int)
    ensures (-n) * q == -(n * q) && n * -q == -(n * q) && (-n) * -q == n * q
  {}

  lemma QuotientFits(m: nat, n: nat)
    requires n > 0
    ensures 0 <= m / n <= m && (n > 1 && m > 0 ==> m / n < m)
  {
    var q := m / n;
    assert m == n * q + m % n;
    if q > 0 && n > 1 { assert n * q >= 2 * q by { Grows(n, q); } }
    if q > 0 { assert n * q >= q by { Grows(n, q); } }
  }

  lemma Grows(n: nat, q: nat)
    requires n > 0
    ensures n * q >= q && (n > 1 ==> n * q >= 2 * q)
  {
    assert n * q == q + (n - 1) * q;
    if n > 1 { assert n * q == 2 * q + (n - 2) * q; }
  }

  lemma {:induction false} ShiftedInRange(a: int, places: nat)
    requires InRange(a)
    ensures InRange(Shifted(a, places))
    decreases places
  {
    if places > 0 { ShiftedInRange(a / 2, places - 1); }
  }

  lemma CombineInRange(op: Operator, a: int, b: int)
    ensures InRange(a) && InRange(b) && Combine(op, a, b).Ok? ==> InRange(Combine(op, a, b).value)
  {
    hide ToBits, Wrap, Pow, Quotient, Shifted, PowerOf;
    match op
    case ShiftRight => if InRange(a) { ShiftedInRange(a, b % 64); }
    case Divide => if b != 0 { DivisionFacts(a, b); }
    case Modulo => if b != 0 { DivisionFacts(a, b); }
    case _ =>
  }

  lemma {:induction false} ShiftedIsFloor(a: int, places: nat)
    ensures Pow(2, places) > 0
    ensures Pow(2, places) * Shifted(a, places) <= a < Pow(2, places) * (Shifted(a, places) + 1)
    decreases places
  {
    if places > 0 {
      ShiftedIsFloor(a / 2, places - 1);
      var p, s := Pow(2, places - 1), Shifted(a, places);
      assert Pow(2, places) == 2 * p;
      Associate(2, p, s);
      Associate(2, p, s + 1);
    }
  }
}
