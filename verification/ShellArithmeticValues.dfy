/**
 What the operators and the literals of shell arithmetic amount to in numbers: congruences, the division
 theorem, bits one by one, and numerals in every base.
 */
module ShellArithmeticValues {
  import opened ShellIntegers
  import opened ShellArithmetic
  import opened ShellArithmeticLaws

  // ---- adding, multiplying, comparing ----

  /** The one 64-bit number congruent to `exact`. */
  predicate IsWrapped(r: int, exact: int) {
    InRange(r) && (exact - r) % MODULUS == 0
  }

  /** The result wraps around and is otherwise exact. */
  lemma SumsWrap(a: int, b: int)
    ensures Combine(Add, a, b).Ok? && IsWrapped(Combine(Add, a, b).value, a + b)
    ensures Combine(Subtract, a, b).Ok? && IsWrapped(Combine(Subtract, a, b).value, a - b)
    ensures Combine(Multiply, a, b).Ok? && IsWrapped(Combine(Multiply, a, b).value, a * b)
    ensures InRange(a + b) ==> Combine(Add, a, b) == Ok(a + b)
  {
    hide Wrap;
  }

  lemma OnlyOneWraps(r: int, q: int, exact: int)
    requires IsWrapped(r, exact) && IsWrapped(q, exact)
    ensures r == q
  {
    assert (r - q) % MODULUS == 0 by {
      var j, k := (exact - r) / MODULUS, (exact - q) / MODULUS;
      assert r - q == (k - j) * MODULUS;
    }
  }

  /** Exactly one of less, equal and greater is 1, by the sign of the difference; the other three are their opposites. */
  lemma ComparesBySign(a: int, b: int)
    ensures Combine(Less, a, b) == Ok(1) <==> b - a > 0
    ensures Combine(Equal, a, b) == Ok(1) <==> a - b == 0
    ensures Combine(Greater, a, b) == Combine(Less, b, a) && Combine(LessEqual, a, b) == Combine(GreaterEqual, b, a)
    ensures Combine(GreaterEqual, a, b).Ok? && Combine(Less, a, b).Ok? && Combine(GreaterEqual, a, b).value + Combine(Less, a, b).value == 1
    ensures Combine(Equal, a, b).Ok? && Combine(NotEqual, a, b).Ok? && Combine(Equal, a, b).value + Combine(NotEqual, a, b).value == 1
    ensures Combine(Less, a, b).value in {0, 1}
  {}

  /** `&&` and `||` answer 1 or 0, and are each other's opposite on opposite operands. */
  lemma TruthTables(a: int, b: int)
    ensures Combine(And, a, b) == Ok(1) <==> !(a == 0 || b == 0)
    ensures Combine(And, a, b) == Ok(0) <==> a == 0 || b == 0
    ensures Combine(Or, a, b) == Ok(0) <==> a == 0 && b == 0
    ensures Combine(Or, a, b) == Ok(1) <==> !(a == 0 && b == 0)
    ensures Unary('!', a) == 1 <==> a == 0
    ensures Unary('!', a) == 0 <==> a != 0
  {}

  /** The signs: a minus wraps, a complement and its operand are -1 together. */
  lemma SignsWrap(a: int)
    requires InRange(a)
    ensures IsWrapped(Unary('-', a), -a) && Unary('+', a) == a && a + Unary('~', a) == -1
  {}

  // ---- division ----

  /** The quotient rounds toward zero, and the remainder has the dividend's sign and is smaller than the divisor. */
  predicate Truncates(a: int, b: int, q: int, r: int) {
    a == b * q + r && (if b < 0 then b < r < -b else -b < r < b) && (if a < 0 then r <= 0 else r >= 0)
  }

  /** Division fails exactly by zero and for the one quotient that is out of range; otherwise it is truncating division. */
  lemma DividesExactly(a: int, b: int)
    ensures Combine(Divide, a, b).Ok? <==> b != 0 && !(a == MIN && b == -1)
    ensures Combine(Modulo, a, b).Ok? <==> b != 0 && !(a == MIN && b == -1)
    ensures b == 0 ==> Combine(Divide, a, b) == Combine(Modulo, a, b) == Err(DivisionByZero)
    ensures a == MIN && b == -1 ==> Combine(Divide, a, b) == Combine(Modulo, a, b) == Err(Overflow)
    ensures Combine(Divide, a, b).Ok? ==> Truncates(a, b, Combine(Divide, a, b).value, Combine(Modulo, a, b).value)
  {
    hide Quotient;
    if b != 0 { DivisionFacts(a, b); }
  }

  lemma OnlyOneTruncates(a: int, b: int, q: int, r: int, q2: int, r2: int)
    requires b != 0 && Truncates(a, b, q, r) && Truncates(a, b, q2, r2)
    ensures q == q2 && r == r2
  {
    assert b * (q - q2) == r2 - r by { Spreads(b, q, q2); }
    if q != q2 { FarApart(b, q - q2); }
  }

  lemma Spreads(b: int, q: int, q2: int)
    ensures b * (q - q2) == b * q - b * q2
  {}

  lemma FarApart(b: int, d: int)
    requires b != 0 && d != 0
    ensures var p := b * d; var n := if b < 0 then -b else b; p <= -n || p >= n
  {
    if d > 0 {
      assert b * d == b + b * (d - 1);
      if b > 0 { assert b * (d - 1) >= 0; } else { assert b * (d - 1) <= 0; }
    } else {
      assert b * d == -b + b * (d + 1);
      if b > 0 { assert b * (d + 1) <= 0; } else { assert b * (d + 1) >= 0; }
    }
  }

  // ---- shifts and powers ----

  /** A shift by any count is one by its last six bits: left multiplies by a power of two and wraps, right divides and rounds down. */
  lemma ShiftsExactly(a: int, b: int)
    ensures Combine(ShiftLeft, a, b).Ok? && Combine(ShiftRight, a, b).Ok? && Pow(2, b % 64) > 0
    ensures IsWrapped(Combine(ShiftLeft, a, b).value, a * Pow(2, b % 64))
    ensures var s := Combine(ShiftRight, a, b).value; Pow(2, b % 64) * s <= a < Pow(2, b % 64) * (s + 1)
  {
    hide Wrap, Pow, Shifted;
    ShiftedIsFloor(a, b % 64);
  }

  /** A power wraps; below exponent 0 it is the inverse of the power where that is an integer, and 0 otherwise. */
  lemma PowersExactly(a: int, e: int)
    ensures Combine(Exponent, a, e).Ok?
    ensures e >= 0 ==> IsWrapped(Combine(Exponent, a, e).value, Pow(a, e))
    ensures e < 0 ==> var r := Combine(Exponent, a, e).value;
                      if a in {1, -1} then r * Pow(a, -e) == 1 else r == 0
  {
    hide Wrap, Pow;
    if e < 0 && a in {1, -1} {
      PowOfUnit(a, -e);
      assert (-e) % 2 == 0 <==> e % 2 == 0;
    }
  }

  lemma {:induction false} PowOfUnit(a: int, e: nat)
    requires a in {1, -1}
    ensures Pow(a, e) == if a == 1 || e % 2 == 0 then 1 else -1
  {
    if e > 0 { PowOfUnit(a, e - 1); }
  }

  // ---- bits ----

  lemma WrapKeeps(n: int)
    requires 0 <= n < MODULUS
    ensures Wrap(n) % MODULUS == n
  {
    var k := WrapMultiple(n);
    ModuloShift(n, k);
  }

  lemma ThereAndBack(b: bv64)
    ensures (b as int) as bv64 == b && 0 <= b as int < MODULUS
  {}

  lemma FromBitsBack(b: bv64)
    ensures ToBits(FromBits(b)) == b
  {
    hide Wrap;
    ThereAndBack(b);
    WrapKeeps(b as int);
  }

  /** The bits of the result, in two's complement, are the operands' bits joined. */
  lemma BitsExactly(a: int, b: int)
    ensures Combine(BitAnd, a, b).Ok? && ToBits(Combine(BitAnd, a, b).value) == ToBits(a) & ToBits(b)
    ensures Combine(BitOr, a, b).Ok? && ToBits(Combine(BitOr, a, b).value) == ToBits(a) | ToBits(b)
    ensures Combine(BitXor, a, b).Ok? && ToBits(Combine(BitXor, a, b).value) == ToBits(a) ^ ToBits(b)
  {
    hide ToBits, FromBits;
    FromBitsBack(ToBits(a) & ToBits(b));
    FromBitsBack(ToBits(a) | ToBits(b));
    FromBitsBack(ToBits(a) ^ ToBits(b));
  }

  // ---- numerals ----

  /** The digit of value `d`: ten decimal ones, small letters, capitals, and two signs. */
  function DigitFor(d: nat): (c: char)
    requires d < 64
    ensures DigitValue(c) == d
  {
    if d < 10 then '0' + d as char
    else if d < 36 then 'a' + (d - 10) as char
    else if d < 62 then 'A' + (d - 36) as char
    else if d == 62 then '@' else '_'
  }

  function Numeral(n: nat, radix: nat): (s: string)
    requires 2 <= radix <= 64
    ensures s != ""
  {
    if n < radix then [DigitFor(n)] else
    LastDigit(n, radix);
    Numeral(n / radix, radix) + [DigitFor(n % radix)]
  }

  lemma {:induction false} NumeralReads(n: nat, radix: nat)
    requires 2 <= radix <= 64
    ensures NumberIn(Numeral(n, radix), radix) == n
    ensures forall k :: 0 <= k < |Numeral(n, radix)| ==> IsDigitIn(Numeral(n, radix)[k], radix)
  {
    hide NumberIn, DigitFor, DigitValue;
    OneMoreDigit("", DigitFor(n % radix), radix);
    assert "" + [DigitFor(n % radix)] == [DigitFor(n % radix)];
    LastDigit(n, radix);
    if n >= radix {
      NumeralReads(n / radix, radix);
      OneMoreDigit(Numeral(n / radix, radix), DigitFor(n % radix), radix);
    }
  }

  lemma OneMoreDigit(s: string, c: char, radix: int)
    ensures NumberIn(s + [c], radix) == NumberIn(s, radix) * radix + DigitValue(c)
    ensures NumberIn("", radix) == 0
  {
    assert (s + [c])[..|s|] == s;
  }

  lemma LastDigit(n: nat, radix: nat)
    requires radix >= 2
    ensures n == n / radix * radix + n % radix
    ensures n >= radix ==> 0 <= n / radix < n
    ensures n < radix ==> n % radix == n
    ensures 0 <= n % radix < radix
  {
    var q := n / radix;
    if n >= radix { assert q * radix >= 2 * q; }
  }

  /** A numeral in any base from 2 to 64 reads as its number, wrapped to 64 bits. */
  lemma BaseReads(n: nat, radix: nat)
    requires 2 <= radix <= 64
    ensures InBase(Numeral(n, radix), radix) == Ok(Wrap(n))
  {
    hide Wrap, Numeral, NumberIn;
    NumeralReads(n, radix);
  }

  /** In the text it is written after its base and a `#`, and read up to the first character that could be no digit of any base. */
  lemma BaseReadsInText(n: nat, radix: nat, text: string, p: nat, variables: Variables)
    requires 2 <= radix <= 64
    requires var token := Decimal(radix) + "#" + Numeral(n, radix);
             var end := p + |token|;
             end <= |text| && text[p..end] == token
             && (end < |text| ==> !IsAlphanumeric(text[end]) && text[end] !in "@_")
    ensures p < |text| && IsDecimal(text[p])
    ensures ParseNumber(text, p, variables) == Reading(Wrap(n), p + |Decimal(radix)| + 1 + |Numeral(n, radix)|, variables)
  {
    hide Wrap, Numeral, NumberIn, Decimal, DigitValue;
    var a, b := Decimal(radix), Numeral(n, radix);
    var middle := p + |a|;
    var end := middle + 1 + |b|;
    CutAtSign(a, b, text, p);
    NumeralReads(n, radix);
    AlphanumericEndAt(text, p, middle);
    forall k | middle < k < end ensures IsAlphanumeric(text[k]) || text[k] in "@_" {
      assert IsDigitIn(text[middle + 1..end][k - middle - 1], radix);
      DigitIsRead(text[k], radix);
    }
    DigitsStop(text, middle + 1, end);
    DecimalNumber(radix);
    BaseReads(n, radix);
  }

  lemma CutAtSign(a: string, b: string, text: string, p: nat)
    requires p + |a + "#" + b| <= |text| && text[p..p + |a + "#" + b|] == a + "#" + b
    ensures var middle := p + |a|; text[p..middle] == a && text[middle] == '#' && text[middle + 1..middle + 1 + |b|] == b
    ensures forall k :: 0 <= k < |a| ==> text[p + k] == a[k]
  {
    var token := a + "#" + b;
    var cut := text[p..p + |token|];
    assert cut[..|a|] == a && cut[|a|] == '#' && cut[|a| + 1..] == b;
    assert cut[..|a|] == text[p..p + |a|] && cut[|a| + 1..] == text[p + |a| + 1..p + |token|];
    forall k | 0 <= k < |a| ensures text[p + k] == a[k] { assert cut[k] == a[k]; }
  }

  lemma DigitIsRead(c: char, radix: nat)
    requires IsDigitIn(c, radix)
    ensures IsAlphanumeric(c) || c in "@_"
  {}

  lemma {:induction false} DigitsStop(text: string, p: nat, end: nat)
    requires p <= end <= |text| && (forall k :: p <= k < end ==> IsAlphanumeric(text[k]) || text[k] in "@_")
    requires end < |text| ==> !IsAlphanumeric(text[end]) && text[end] !in "@_"
    ensures DigitsEnd(text, p) == end
    decreases end - p
  {
    if p < end { DigitsStop(text, p + 1, end); }
  }

  // ---- literals ----

  lemma {:induction false} HexIsNumeral(s: string)
    requires forall k :: 0 <= k < |s| ==> IsDigitIn(s[k], 16)
    ensures HexNumber(s) == NumberIn(s, 16)
    ensures forall k :: 0 <= k < |s| ==> HexValue(s[k]) >= 0
  {
    if s != "" { HexIsNumeral(s[..|s| - 1]); }
  }

  /** A literal after `0x` is hexadecimal, and one past 64 bits is refused. */
  lemma HexReads(n: nat)
    ensures Literal("0x" + Numeral(n, 16)) == if n < MODULUS then Ok(Wrap(n)) else Err(Overflow)
    ensures Literal("0X" + Numeral(n, 16)) == Literal("0x" + Numeral(n, 16))
  {
    hide Wrap, Numeral, NumberIn, HexNumber, HexValue;
    var s := Numeral(n, 16);
    NumeralReads(n, 16);
    HexIsNumeral(s);
    assert ("0x" + s)[2..] == s && ("0X" + s)[2..] == s;
    assert forall k :: 2 <= k < |s| + 2 ==> ("0x" + s)[k] == s[k - 2] && ("0X" + s)[k] == s[k - 2];
    assert !IsDecimal("0x"[1]) && !IsDecimal("0X"[1]);
    assert ("0x" + s)[1] == 'x' && ("0X" + s)[1] == 'X';
  }

  /** One after a `0` is octal if its digits are. */
  lemma OctalReads(n: nat)
    ensures Literal("0" + Numeral(n, 8)) == if n < MODULUS then Ok(Wrap(n)) else Err(Overflow)
  {
    hide Wrap, Numeral, NumberIn, DigitValue;
    var s := Numeral(n, 8);
    NumeralReads(n, 8);
    assert ("0" + s)[1..] == s;
    forall k | 0 <= k < |s| ensures '0' <= s[k] <= '7' {
      assert IsDigitIn(s[k], 8);
      OctalDigit(s[k]);
    }
    assert ("0" + s)[0] == '0' && ("0" + s)[1] == s[0];
  }

  lemma OctalDigit(c: char)
    requires IsDigitIn(c, 8)
    ensures '0' <= c <= '7'
  {}

  /** Any other is decimal, and one past the largest number is refused. */
  lemma DecimalReads(n: nat)
    ensures Literal(Decimal(n)) == if n <= MAX then Ok(n) else Err(ValueTooGreat)
  {
    hide NumberIn, Decimal;
    DecimalNumber(n);
    var s := Decimal(n);
    if |s| > 1 { assert s[0] != '0'; }
  }

  /** So is one after a `0` with an 8 or a 9 among its digits. */
  lemma ZeroThenDecimalReads(n: nat)
    requires exists k :: 0 <= k < |Decimal(n)| && Decimal(n)[k] in "89"
    ensures Literal("0" + Decimal(n)) == if n <= MAX then Ok(n) else Err(ValueTooGreat)
  {
    hide NumberIn, Decimal;
    var s := Decimal(n);
    var k :| 0 <= k < |s| && s[k] in "89";
    assert ("0" + s)[k + 1] == s[k];
    DecimalNumber(n);
    ZeroInFront(s);
    assert ("0" + s)[1] == s[0];
  }

  lemma {:induction false} ZeroInFront(s: string)
    ensures NumberIn("0" + s, 10) == NumberIn(s, 10)
  {
    var t := "0" + s;
    if s == "" {
      assert t[..|t| - 1] == "";
    } else {
      assert t[..|t| - 1] == "0" + s[..|s| - 1];
      ZeroInFront(s[..|s| - 1]);
    }
  }
}
