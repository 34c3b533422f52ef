/**
 Python's integer text: `bin`, `oct` and `hex` against `int` in a base, and rounding to a
 multiple with halves going to the even one.
 */
module PythonNumbers {
  import opened Wrappers

  // ---- digits ----

  function DigitOf(d: nat): char
    requires d < 16
  {
    "0123456789abcdef"[d]
  }

  function DigitValue(c: char): int {
    if '0' <= c <= '9' then c as int - '0' as int
    else if 'a' <= c <= 'z' then c as int - 'a' as int + 10
    else if 'A' <= c <= 'Z' then c as int - 'A' as int + 10 else -1
  }

  predicate IsDigitIn(c: char, radix: int) {
    0 <= DigitValue(c) < radix
  }

  predicate AllDigits(s: string, radix: int) {
    forall k :: 0 <= k < |s| ==> IsDigitIn(s[k], radix)
  }

  function NumberIn(s: string, radix: int): int {
    if s == "" then 0 else NumberIn(s[..|s| - 1], radix) * radix + DigitValue(s[|s| - 1])
  }

  /** The digits of a positive number, none for 0. */
  function DigitsOf(n: nat, radix: nat): string
    requires 2 <= radix <= 16
  {
    if n == 0 then "" else
    Divides(n, radix);
    DigitsOf(n / radix, radix) + [DigitOf(n % radix)]
  }

  lemma Divides(n: nat, radix: nat)
    requires radix >= 2
    ensures n % radix < radix && (n > 0 ==> n / radix < n) && n / radix * radix + n % radix == n
  {
    var q, r := n / radix, n % radix;
    assert n == q * radix + r;
    if q > 0 { AtLeastTwice(q, radix); }
  }

  lemma AtLeastTwice(q: int, radix: int)
    requires q > 0 && radix >= 2
    ensures q * radix >= 2 * q
  {}

  function Radix(n: nat, radix: nat): string
    requires 2 <= radix <= 16
  {
    if n == 0 then "0" else DigitsOf(n, radix)
  }

  method FormatRadix(value0: nat, radix: nat) returns (digits: string)
    requires 2 <= radix <= 16
    ensures digits == Radix(value0, radix)
  {
    if value0 == 0 {
      return "0";
    }
    hide DigitsOf, DigitOf;
    digits := "";
    var value: nat := value0;
    assert DigitsOf(value0, radix) + "" == DigitsOf(value0, radix);
    while value != 0
      invariant DigitsOf(value0, radix) == DigitsOf(value, radix) + digits
    {
      Divides(value, radix);
      DigitsStep(value, radix, digits);
      digits := [DigitOf(value % radix)] + digits;
      value := value / radix;
    }
    DigitsNone(radix);
    assert "" + digits == digits;
  }

  lemma DigitsStep(n: nat, radix: nat, rest: string)
    requires 2 <= radix <= 16 && n > 0
    requires n % radix < 16
    ensures DigitsOf(n, radix) + rest == DigitsOf(n / radix, radix) + ([DigitOf(n % radix)] + rest)
  {
    hide DigitsOf, DigitOf;
    Divides(n, radix);
    DigitsNext(n, radix);
    var s, d := DigitsOf(n / radix, radix), DigitOf(n % radix);
    assert s + [d] + rest == s + ([d] + rest);
  }

  lemma DigitsNext(n: nat, radix: nat)
    requires 2 <= radix <= 16 && n > 0 && n % radix < 16
    ensures DigitsOf(n, radix) == DigitsOf(n / radix, radix) + [DigitOf(n % radix)]
  {
    hide DigitOf;
    Divides(n, radix);
  }

  lemma DigitsNone(radix: nat)
    requires 2 <= radix <= 16
    ensures DigitsOf(0, radix) == ""
  {}

  lemma DigitRoundTrip(d: nat)
    requires d < 16
    ensures DigitValue(DigitOf(d)) == d && DigitOf(d) != '_' && (d > 0 ==> DigitOf(d) != '0')
  {}

  lemma {:induction false} DigitsRoundTrip(n: nat, radix: nat)
    requires 2 <= radix <= 16
    ensures NumberIn(DigitsOf(n, radix), radix) == n && AllDigits(DigitsOf(n, radix), radix)
    ensures forall k :: 0 <= k < |DigitsOf(n, radix)| ==> DigitsOf(n, radix)[k] != '_'
    ensures n > 0 ==> DigitsOf(n, radix) != ""
  {
    hide DigitOf, DigitValue, DigitsOf;
    DigitsNone(radix);
    if n > 0 {
      Divides(n, radix);
      DigitsNext(n, radix);
      DigitsRoundTrip(n / radix, radix);
      DigitRoundTrip(n % radix);
      var s, d := DigitsOf(n / radix, radix), DigitOf(n % radix);
      assert DigitsOf(n, radix) == s + [d];
      NumberNext(s, d, radix);
    }
  }

  lemma NumberNone(radix: int)
    ensures NumberIn("", radix) == 0
  {}

  lemma NumberNext(s: string, d: char, radix: int)
    ensures NumberIn(s + [d], radix) == NumberIn(s, radix) * radix + DigitValue(d)
  {
    assert (s + [d])[..|s|] == s;
  }

  // ---- reading ----

  function PrefixRadix(c: char): int {
    if c == 'x' || c == 'X' then 16 else if c == 'o' || c == 'O' then 8 else if c == 'b' || c == 'B' then 2 else 0
  }

  /** A separator may only stand between digits. */
  predicate BadlySeparated(s: string) {
    s == "" || s[0] == '_' || s[|s| - 1] == '_' || exists k :: 0 <= k < |s| - 1 && s[k] == '_' && s[k + 1] == '_'
  }

  function WithoutSeparators(s: string): string {
    if s == "" then "" else (if s[0] == '_' then "" else [s[0]]) + WithoutSeparators(s[1..])
  }

  predicate OnlyZeros(s: string) {
    forall k :: 0 <= k < |s| ==> s[k] == '0'
  }

  /** What is read once the sign is off: base 0 lets a prefix decide. */
  function Unsigned(t: string, radix: int): Option<int> {
    var asked := if radix == 0 then 10 else radix;
    var named := if |t| > 2 && t[0] == '0' then PrefixRadix(t[1]) else 0;
    var prefixed := named != 0 && (radix == 0 || asked == 10 || asked == named);
    var actual := if prefixed then named else asked;
    var body := if !prefixed then t else if t[2] == '_' then t[3..] else t[2..];
    if BadlySeparated(body) then None else
    var digits := WithoutSeparators(body);
    if digits == "" then None
    else if radix == 0 && actual == 10 && |digits| > 1 && digits[0] == '0' && !OnlyZeros(digits) then None
    else if AllDigits(digits, actual) then Some(NumberIn(digits, actual)) else None
  }

  function ParseRadix(text: string, radix: int): Option<int> {
    if text == "" then None else
    match Unsigned(if text[0] == '-' || text[0] == '+' then text[1..] else text, radix)
    case None => None
    case Some(n) => Some(if text[0] == '-' then -n else n)
  }

  method TryParseRadix(text0: string, radix0: int) returns (r: Option<int>)
    ensures r == ParseRadix(text0, radix0)
  {
    hide BadlySeparated, WithoutSeparators, PrefixRadix, OnlyZeros;
    if text0 == "" {
      return None;
    }
    var text, radix := text0, radix0;
    var negative := text[0] == '-';
    if text[0] == '-' || text[0] == '+' {
      text := text[1..];
    }
    var detect := radix == 0;
    if detect {
      radix := 10;
    }
    var hadPrefix := false;
    if |text| > 2 && text[0] == '0' {
      var prefixRadix := PrefixRadix(text[1]);
      if prefixRadix != 0 && (detect || radix == 10 || radix == prefixRadix) {
        assert text[2..][0] == text[2] && text[2..][1..] == text[3..];
        radix, text, hadPrefix := prefixRadix, text[2..], true;
      }
    }
    if hadPrefix && text[0] == '_' {
      text := text[1..];
    }
    if BadlySeparated(text) {
      return None;
    }
    text := WithoutSeparators(text);
    if text == "" {
      return None;
    }
    if detect && radix == 10 && |text| > 1 && text[0] == '0' && !OnlyZeros(text) {
      return None;
    }
    var value := ReadDigits(text, radix);
    if value.None? {
      return None;
    }
    r := Some(if negative then -value.value else value.value);
  }

  method ReadDigits(text: string, radix: int) returns (r: Option<int>)
    ensures r == if AllDigits(text, radix) then Some(NumberIn(text, radix)) else None
  {
    hide DigitValue, NumberIn;
    var value := 0;
    NumberNone(radix);
    assert text[..0] == "";
    for k := 0 to |text|
      invariant value == NumberIn(text[..k], radix) && forall j :: 0 <= j < k ==> IsDigitIn(text[j], radix)
    {
      var digit := DigitValue(text[k]);
      if digit < 0 || digit >= radix {
        return None;
      }
      assert text[..k + 1] == text[..k] + [text[k]];
      NumberNext(text[..k], text[k], radix);
      value := value * radix + digit;
    }
    assert text[..|text|] == text;
    r := Some(value);
  }

  // ---- the round trip ----

  function Prefix(radix: nat): string {
    if radix == 2 then "0b" else if radix == 8 then "0o" else "0x"
  }

  /** What `bin`, `oct` and `hex` print. */
  function Prefixed(n: int, radix: nat): string
    requires radix in {2, 8, 16}
  {
    (if n < 0 then "-" else "") + Prefix(radix) + Radix(if n < 0 then -n else n, radix)
  }

  lemma {:induction false} NothingToSeparate(s: string)
    requires forall k :: 0 <= k < |s| ==> s[k] != '_'
    ensures WithoutSeparators(s) == s
  {
    if s != "" {
      NothingToSeparate(s[1..]);
      assert [s[0]] + s[1..] == s;
    }
  }

  lemma RadixRoundTrip(n: nat, radix: nat)
    requires 2 <= radix <= 16
    ensures var s := Radix(n, radix);
            s != "" && AllDigits(s, radix) && NumberIn(s, radix) == n && forall k :: 0 <= k < |s| ==> s[k] != '_'
  {
    DigitsRoundTrip(n, radix);
    assert "0"[..0] == "";
  }

  lemma UnsignedRoundTrip(n: nat, radix: nat, base: int)
    requires radix in {2, 8, 16} && base in {0, radix, 10}
    ensures Unsigned(Prefix(radix) + Radix(n, radix), base) == Some(n)
  {
    hide Radix, NumberIn, AllDigits, WithoutSeparators;
    var s := Radix(n, radix);
    RadixRoundTrip(n, radix);
    NothingToSeparate(s);
    var t := Prefix(radix) + s;
    assert t[2..] == s && t[0] == '0' && PrefixRadix(t[1]) == radix;
    assert t[2] == s[0];
  }

  /** Read in its own base, in base 0, and even in base 10, what was printed is the number again. */
  lemma PrefixedRoundTrip(n: int, radix: nat, base: int)
    requires radix in {2, 8, 16} && base in {0, radix, 10}
    ensures ParseRadix(Prefixed(n, radix), base) == Some(n)
  {
    hide Unsigned, Radix;
    var m: nat := if n < 0 then -n else n;
    UnsignedRoundTrip(m, radix, base);
    var t := Prefix(radix) + Radix(m, radix);
    if n < 0 {
      assert Prefixed(n, radix) == "-" + t;
      assert ("-" + t)[1..] == t;
    } else {
      assert Prefixed(n, radix) == t;
    }
  }

  /** A prefix that is one only in its own base and in base 0. */
  function UnsignedMeant(t: string, radix: int): Option<int> {
    var named := if |t| > 2 && t[0] == '0' then PrefixRadix(t[1]) else 0;
    if named != 0 && radix == 10 then None else Unsigned(t, radix)
  }

  lemma {:induction false} KeepsLetter(s: string, k: nat)
    requires k < |s| && s[k] != '_'
    ensures s[k] in WithoutSeparators(s)
    decreases |s|
  {
    if k > 0 { KeepsLetter(s[1..], k - 1); }
  }

  /** No prefixed text is a decimal number, and base 10 reads one exactly when its own base would. */
  lemma DecimalPrefixExactly(t: string)
    requires |t| > 2 && t[0] == '0' && PrefixRadix(t[1]) != 0
    ensures !AllDigits(WithoutSeparators(t), 10)
    ensures Unsigned(t, 10) == Unsigned(t, PrefixRadix(t[1]))
    ensures Unsigned(t, 10) == UnsignedMeant(t, 10) <==> Unsigned(t, PrefixRadix(t[1])) == None
  {
    hide BadlySeparated, OnlyZeros, NumberIn;
    KeepsLetter(t, 1);
    var s := WithoutSeparators(t);
    var k :| 0 <= k < |s| && s[k] == t[1];
    assert !IsDigitIn(s[k], 10);
  }

  // ---- rounding ----

  /** Division that truncates, as the quotient of a rounding. */
  function TruncatedQuotient(value: int, multiple: int): int
    requires multiple > 0
  {
    if value >= 0 then value / multiple else -(-value / multiple)
  }

  function RoundToMultiple(value: int, multiple: int): int
    requires multiple > 0
  {
    var quotient := TruncatedQuotient(value, multiple);
    var remainder := value - quotient * multiple;
    if remainder == 0 then value else
    var doubled := (if remainder < 0 then -remainder else remainder) * 2;
    if doubled > multiple || (doubled == multiple && quotient % 2 != 0)
    then (quotient + if value < 0 then -1 else 1) * multiple else quotient * multiple
  }

  function Distance(a: int, b: int): nat {
    if a <= b then b - a else a - b
  }

  /** The result is a multiple, none is nearer, and of two equally near ones it is the even. */
  lemma RoundsToNearest(value: int, multiple: int, other: int)
    requires multiple > 0
    ensures exists q :: RoundToMultiple(value, multiple) == q * multiple && Nearest(value, multiple, q, other)
  {
    var quotient := TruncatedQuotient(value, multiple);
    var remainder := value - quotient * multiple;
    Truncates(value, multiple);
    var step := if value < 0 then -1 else 1;
    assert (quotient + step) * multiple == quotient * multiple + step * multiple;
    var q := if RoundToMultiple(value, multiple) == quotient * multiple then quotient else quotient + step;
    assert RoundToMultiple(value, multiple) == q * multiple;
    NearestHalf(value, multiple, q, other);
  }

  ghost predicate Nearest(value: int, multiple: int, q: int, other: int) {
    && Distance(value, q * multiple) <= Distance(value, other * multiple)
    && (other != q && Distance(value, q * multiple) == Distance(value, other * multiple) ==> q % 2 == 0)
  }

  lemma Truncates(value: int, multiple: int)
    requires multiple > 0
    ensures var quotient := TruncatedQuotient(value, multiple);
            var remainder := value - quotient * multiple;
            -multiple < remainder < multiple && (value >= 0 ==> remainder >= 0) && (value < 0 ==> remainder <= 0)
  {
    var m := if value >= 0 then value else -value;
    var q := m / multiple;
    assert m == q * multiple + m % multiple;
    assert -q * multiple == -(q * multiple);
  }

  /** Within half a multiple, and even where exactly half: no other multiple does better. */
  lemma NearestHalf(value: int, multiple: int, q: int, other: int)
    requires multiple > 0
    requires 2 * Distance(value, q * multiple) <= multiple
    requires 2 * Distance(value, q * multiple) == multiple ==> q % 2 == 0
    ensures Nearest(value, multiple, q, other)
  {
    if other > q {
      assert other * multiple - q * multiple == (other - q) * multiple;
      AtLeastOne(other - q, multiple);
    } else if other < q {
      assert q * multiple - other * multiple == (q - other) * multiple;
      AtLeastOne(q - other, multiple);
    }
  }

  lemma AtLeastOne(k: int, multiple: int)
    requires k >= 1 && multiple > 0
    ensures k * multiple >= multiple
  {}

  // ---- separators ----

  /** Groups of digits with one separator between each two. */
  function Separated(groups: seq<string>): string {
    if groups == [] then "" else if |groups| == 1 then groups[0] else groups[0] + ("_" + Separated(groups[1..]))
  }

  function Together(groups: seq<string>): string {
    if groups == [] then "" else groups[0] + Together(groups[1..])
  }

  predicate AreGroups(groups: seq<string>) {
    groups != [] && forall k :: 0 <= k < |groups| ==> groups[k] != "" && '_' !in groups[k]
  }

  lemma {:induction false} SeparatorsGo(a: string, b: string)
    requires '_' !in a
    ensures WithoutSeparators(a + b) == a + WithoutSeparators(b)
  {
    if a == "" {
      assert a + b == b;
    } else {
      assert (a + b)[1..] == a[1..] + b;
      SeparatorsGo(a[1..], b);
    }
  }

  lemma NoneMisplaced(a: string)
    requires a != "" && '_' !in a
    ensures !BadlySeparated(a)
  {}

  lemma OneBetween(a: string, b: string)
    requires a != "" && '_' !in a && !BadlySeparated(b)
    ensures !BadlySeparated(a + ("_" + b))
  {
    var s := a + ("_" + b);
    assert s[0] == a[0] && s[|s| - 1] == b[|b| - 1];
    forall k | 0 <= k < |s| - 1 ensures !(s[k] == '_' && s[k + 1] == '_') {
      if k < |a| {
        assert s[k] == a[k];
      } else if k == |a| {
        assert s[k + 1] == b[0];
      } else {
        assert s[k] == b[k - |a| - 1] && s[k + 1] == b[k - |a|];
      }
    }
  }

  /** A separator between groups of digits is well placed, and does not count. */
  lemma {:induction false} SeparatedReads(groups: seq<string>)
    requires AreGroups(groups)
    ensures !BadlySeparated(Separated(groups)) && WithoutSeparators(Separated(groups)) == Together(groups)
    decreases |groups|
  {
    hide BadlySeparated, WithoutSeparators;
    if |groups| == 1 {
      NoneMisplaced(groups[0]);
      assert groups[0] + "" == groups[0];
      SeparatorsGo(groups[0], "");
      assert groups[1..] == [] && WithoutSeparators("") == "" by { NoSeparators(); }
    } else {
      var rest := Separated(groups[1..]);
      SeparatedReads(groups[1..]);
      OneBetween(groups[0], rest);
      SeparatorsGo(groups[0], "_" + rest);
      OneSeparatorGoes(rest);
    }
  }

  lemma NoSeparators()
    ensures WithoutSeparators("") == ""
  {}

  lemma OneSeparatorGoes(s: string)
    ensures WithoutSeparators("_" + s) == WithoutSeparators(s)
  {
    assert ("_" + s)[1..] == s;
  }

  /** One that is doubled, or comes first or last, makes the text no number. */
  lemma MisplacedRefused(a: string, b: string)
    ensures BadlySeparated("_" + a) && BadlySeparated(a + "_") && BadlySeparated(a + "__" + b)
  {
    var s := a + "__" + b;
    assert s[|a|] == '_' && s[|a| + 1] == '_';
  }
}
