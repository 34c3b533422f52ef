/**
 Ranges as they are written: how signed and padded numbers and single letters between dots are read, and how the
 items are written so that they read back.
 */
module BraceNumerals {
  import opened Wrappers
  import opened CyclicSteps
  import opened ShellIntegers
  import opened BraceRanges

  /** A number as written: a sign or none, zeros in front, and its digits. */
  datatype Written = Written(sign: string, zeros: nat, n: nat)

  predicate IsWritten(w: Written) {
    w.sign == "" || w.sign == "-" || w.sign == "+"
  }

  function Zeros(k: nat): (s: string)
    ensures |s| == k && forall j :: 0 <= j < k ==> s[j] == '0'
  {
    if k == 0 then "" else "0" + Zeros(k - 1)
  }

  function Show(w: Written): string {
    w.sign + (Zeros(w.zeros) + Decimal(w.n))
  }

  function ValueOf(w: Written): int {
    var n: int := w.n;
    if w.sign == "-" then -n else n
  }

  lemma {:induction false} ZerosCountNothing(k: nat, s: string)
    ensures NumberIn(Zeros(k) + s, 10) == NumberIn(s, 10)
    decreases |s|
  {
    var t := Zeros(k) + s;
    if s == "" {
      assert t == Zeros(k);
      OnlyZeros(k);
    } else {
      assert t[..|t| - 1] == Zeros(k) + s[..|s| - 1];
      ZerosCountNothing(k, s[..|s| - 1]);
    }
  }

  lemma {:induction false} OnlyZeros(k: nat)
    ensures NumberIn(Zeros(k), 10) == 0
  {
    if k > 0 {
      var t := Zeros(k);
      assert t[..|t| - 1] == Zeros(k - 1);
      OnlyZeros(k - 1);
    }
  }

  /** What is written reads as its number. */
  lemma WholeReads(w: Written)
    requires IsWritten(w)
    ensures Whole(Show(w)) == Some(ValueOf(w)) && '.' !in Show(w)
  {
    hide NumberIn, Decimal, Zeros;
    var digits := Zeros(w.zeros) + Decimal(w.n);
    ZerosCountNothing(w.zeros, Decimal(w.n));
    DecimalNumber(w.n);
    assert forall k :: 0 <= k < |digits| ==> IsDecimalDigit(digits[k]);
    assert Digits(Show(w)) == digits by {
      if w.sign == "" { assert Show(w) == digits && !IsSign(digits[0]); } else { assert Show(w)[1..] == digits; }
    }
    if w.sign == "" { assert Show(w)[0] == digits[0]; }
  }

  /** The width is that of the longer end, signs of minus left out, as soon as one of the two has a zero in front that no plus hides. */
  lemma WidthExactly(a: Written, b: Written)
    requires IsWritten(a) && IsWritten(b)
    ensures Width(Show(a), Show(b)) == if HasPadding(a) || HasPadding(b) then Max(Length(a), Length(b)) else 0
  {
    hide Decimal, Zeros;
    Padding(a);
    Padding(b);
  }

  predicate HasPadding(w: Written) {
    w.zeros > 0 && w.sign != "+"
  }

  function Length(w: Written): nat {
    (if w.sign == "+" then 1 else 0) + w.zeros + |Decimal(w.n)|
  }

  lemma Padding(w: Written)
    requires IsWritten(w)
    ensures |TrimMinus(Show(w))| == Length(w) && (IsZeroPadded(Show(w)) <==> HasPadding(w))
  {
    hide Decimal, Zeros;
    var digits := Zeros(w.zeros) + Decimal(w.n);
    assert digits[0] != '-';
    assert TrimMinus(digits) == digits;
    if w.sign == "-" {
      assert Show(w)[1..] == digits;
      assert TrimMinus(Show(w)) == TrimMinus(digits);
    } else {
      assert Show(w)[0] != '-';
      assert TrimMinus(Show(w)) == Show(w);
    }
    if w.sign == "" { assert Show(w) == digits; }
    if w.zeros > 0 { assert digits[0] == '0'; } else { assert digits == Decimal(w.n); }
  }

  // ---- between the dots ----

  lemma {:induction false} DotsBetween(a: string, rest: string)
    requires '.' !in a
    ensures SplitDots(a + ".." + rest) == [a] + SplitDots(rest)
  {
    var s := a + ".." + rest;
    if a == "" {
      assert s == ".." + rest && s[2..] == rest;
    } else {
      var t := a[1..] + ".." + rest;
      assert s[1..] == t;
      DotsBetween(a[1..], rest);
      assert ([a[1..]] + SplitDots(rest))[1..] == SplitDots(rest);
      assert [a[0]] + a[1..] == a;
    }
  }

  lemma {:induction false} NoDots(a: string)
    requires '.' !in a
    ensures SplitDots(a) == [a]
  {
    if a != "" {
      NoDots(a[1..]);
      assert [a[0]] + a[1..] == a;
    }
  }

  /** The text `from..to`, or `from..to..step`. */
  function RangeText(from0: string, to: string, step: Option<string>): string {
    if step.None? then from0 + ".." + to else from0 + ".." + (to + ".." + step.value)
  }

  lemma RangeSplits(from0: string, to: string, step: Option<string>)
    requires '.' !in from0 && '.' !in to && (step.Some? ==> '.' !in step.value)
    ensures SplitDots(RangeText(from0, to, step)) == if step.None? then [from0, to] else [from0, to, step.value]
  {
    hide SplitDots;
    if step.None? {
      DotsBetween(from0, to);
      NoDots(to);
      assert [from0] + [to] == [from0, to];
    } else {
      DotsBetween(from0, to + ".." + step.value);
      DotsBetween(to, step.value);
      NoDots(step.value);
      assert [from0] + ([to] + [step.value]) == [from0, to, step.value];
    }
  }

  // ---- what a written range is ----

  function ShowStep(step: Option<Written>): Option<string> {
    if step.None? then None else Some(Show(step.value))
  }

  /** The size of the step, 1 where none is written. */
  function StepSize(step: Option<Written>): nat {
    if step.None? then 1 else step.value.n
  }

  /**
   Two numbers within 64 bits and a step within them that is not nought are the numbers from one to the other by the
   size of the step, whatever its sign, as wide as the padded end; the smallest number as a step has no size.
   */
  lemma NumbersRead(a: Written, b: Written, step: Option<Written>)
    requires IsWritten(a) && IsWritten(b) && (step.Some? ==> IsWritten(step.value))
    requires InRange(ValueOf(a)) && InRange(ValueOf(b))
    ensures RangeOf(RangeText(Show(a), Show(b), ShowStep(step))) ==
            if step.Some? && (ValueOf(step.value) == 0 || !InRange(ValueOf(step.value))) then NotARange
            else if step.Some? && ValueOf(step.value) == MIN then NoResult
            else Numbers(ValueOf(a), ValueOf(b), StepSize(step), Width(Show(a), Show(b)))
  {
    hide Whole, Show, Width, SplitDots, Numbers, RangeText;
    WholeReads(a);
    WholeReads(b);
    if step.Some? { WholeReads(step.value); }
    RangeSplits(Show(a), Show(b), ShowStep(step));
    var parts := SplitDots(RangeText(Show(a), Show(b), ShowStep(step)));
    assert ParseLong(parts[0]) == Some(ValueOf(a)) && ParseLong(parts[1]) == Some(ValueOf(b));
  }

  /** Two letters are the letters from one to the other, by a step within 32 bits. */
  lemma LettersRead(a: char, b: char, step: Option<Written>)
    requires IsLetter(a) && IsLetter(b) && (step.Some? ==> IsWritten(step.value))
    ensures RangeOf(RangeText([a], [b], ShowStep(step))) ==
            if step.Some? && (ValueOf(step.value) == 0 || !(-0x8000_0000 <= ValueOf(step.value) < 0x8000_0000)) then NotARange
            else if step.Some? && ValueOf(step.value) == -0x8000_0000 then NoResult
            else Letters(a as int, b as int, StepSize(step))
  {
    hide Whole, Show, SplitDots, Letters, RangeText;
    NoNumber(a);
    NoNumber(b);
    if step.Some? {
      WholeReads(step.value);
      NothingToTrim(step.value);
    }
    RangeSplits([a], [b], ShowStep(step));
    var parts := SplitDots(RangeText([a], [b], ShowStep(step)));
    assert ParseLong(parts[0]) == None;
  }

  lemma NoNumber(c: char)
    requires IsLetter(c)
    ensures Whole([c]) == None && c != '.'
  {
    assert Digits([c]) == [c] && !IsDecimalDigit([c][0]);
  }

  lemma NothingToTrim(w: Written)
    requires IsWritten(w)
    ensures TrimEnd(TrimStart(Show(w))) == Show(w)
  {
    hide Decimal, Zeros;
    var s := Show(w);
    assert s[|s| - 1] == Decimal(w.n)[|Decimal(w.n)| - 1];
    assert !IsBlank(s[0]) && !IsBlank(s[|s| - 1]);
  }

  // ---- the items ----

  lemma {:induction false} PadIsZeros(digits: string, width: int)
    ensures PadLeft(digits, width) == (if |digits| < width then Zeros(width - |digits|) else "") + digits
    decreases width - |digits|
  {
    if |digits| < width {
      PadIsZeros("0" + digits, width);
      if |digits| + 1 < width { ZeroBehind(width - |digits| - 1); }
      assert Zeros(width - |digits|) + digits == Zeros(width - |digits| - 1) + ("0" + digits) by { ZeroBehind(width - |digits| - 1); }
    }
  }

  lemma ZeroBehind(k: nat)
    ensures Zeros(k) + "0" == Zeros(k + 1)
  {
    forall j | 0 <= j < k + 1 ensures (Zeros(k) + "0")[j] == Zeros(k + 1)[j] {}
  }

  /** An item as it is written: its sign, as many zeros as it takes to fill the width, and its digits. */
  function ItemOf(value: int, width: nat): Written {
    var size := |Decimal(Absolute(value))| + if value < 0 then 1 else 0;
    Written(if value < 0 then "-" else "", if size < width then width - size else 0, Absolute(value))
  }

  lemma FormatIs(value: int, width: nat)
    ensures Format(value, width) == Show(ItemOf(value, width))
  {
    hide Decimal, Zeros;
    var digits := Decimal(Absolute(value));
    PadIsZeros(digits, if value < 0 then width - 1 else width);
    NoZeros();
    assert "" + digits == digits;
  }

  /** So it reads back as its number, and is as wide as the width or its own digits, whichever is more. */
  lemma ItemsReadBack(value: int, width: nat)
    ensures Whole(Format(value, width)) == Some(value)
    ensures |Format(value, width)| == Max(width, |Format(value, 0)|)
  {
    hide Decimal, Zeros, Whole, Format;
    FormatIs(value, width);
    FormatIs(value, 0);
    WholeReads(ItemOf(value, width));
  }

  lemma NoZeros()
    ensures Zeros(0) == ""
  {}

  lemma PastTheEnd(a: int, b: int, step: nat)
    requires InRange(a) && InRange(b) && step > 0 && InRange(Last(a, b, step) + Signed(step, a <= b))
    ensures !Inside(LONGS.Wrap(Last(a, b, step) + Signed(step, a <= b)), b, a <= b)
  {
    hide Last, Fitting, Signed;
    Between(a, b, step, Fitting(a, b, step));
    LastIs(a, b, step);
  }

  lemma NumbersAre(a: int, b: int, step: nat, width: nat, values: seq<int>)
    requires InRange(a) && Walked(LONGS, a, b, step, a <= b) == Some(values) && (width == 0 || MIN !in values)
    ensures Numbers(a, b, step, width) == Items(seq(|values|, k requires 0 <= k < |values| => Format(values[k], width)))
  {
    hide Walked, Format;
  }

  /** Where the step after the last number does not leave 64 bits, the items are the plain progression, each written with the width. */
  lemma NumbersInOrder(a: int, b: int, step: nat, width: nat)
    requires InRange(a) && InRange(b) && step > 0
    requires InRange(Last(a, b, step) + Signed(step, a <= b)) && (width == 0 || (b > MIN && a > MIN))
    ensures Numbers(a, b, step, width) == Items(seq(Fitting(a, b, step), k requires 0 <= k => Format(a + k * Signed(step, a <= b), width)))
  {
    hide Walked, Last, Fitting, Progression, Format, Signed, Numbers, Inside;
    var values := Progression(a, b, step);
    PastTheEnd(a, b, step);
    ProgressionExactly(LONGS, a, b, step);
    forall k | 0 <= k < |values| ensures a > MIN && b > MIN ==> values[k] != MIN { Between(a, b, step, k); }
    NumbersAre(a, b, step, width, values);
    var plain := seq(Fitting(a, b, step), k requires 0 <= k => Format(a + k * Signed(step, a <= b), width));
    assert seq(|values|, k requires 0 <= k < |values| => Format(values[k], width)) == plain;
  }

  /** Two letters stand for themselves and every character between them, in order, up or down. */
  lemma LettersOneByOne(a: char, b: char)
    requires IsLetter(a) && IsLetter(b)
    ensures var r := RangeOf(RangeText([a], [b], None));
            && r.Items? && |r.items| == Distance(a as int, b as int) + 1
            && forall k :: 0 <= k < |r.items| ==> |r.items[k]| == 1 && r.items[k][0] as int == if a <= b then a as int + k else a as int - k
  {
    hide Walked, Progression, RangeOf, RangeText, Fitting;
    var start, end := a as int, b as int;
    LettersRead(a, b, None);
    LastBetween(start, end, 1);
    LettersInOrderBelow(start, end, 1);
    var values := Progression(start, end, 1);
    OneEach(start, end);
    forall k | 0 <= k < |values|
      ensures values[k] == (if start <= end then start + k else start - k) && CharOf(values[k]) as int == values[k]
    {
      Between(start, end, 1, k);
    }
  }

  lemma OneEach(start: int, end: int)
    ensures Fitting(start, end, 1) == Distance(start, end) + 1
  {}
}
