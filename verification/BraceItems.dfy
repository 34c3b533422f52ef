/**
 What the items of a range look like: never longer than the text of the range, which is why
 expansion ends, and made of harmless characters except where letters run into others.
 */
module BraceItems {
  import opened Wrappers
  import opened CyclicSteps
  import opened ShellIntegers
  import opened BraceRanges

  // ---- the text of a range ----

  function TotalLength(parts: seq<string>): nat {
    if parts == [] then 0 else |parts[0]| + TotalLength(parts[1..])
  }

  lemma {:induction false} PartsOfText(s: string)
    ensures var parts := SplitDots(s);
            && |s| == TotalLength(parts) + 2 * (|parts| - 1)
            && forall c :: c in s && c != '.' ==> exists i :: 0 <= i < |parts| && c in parts[i]
    decreases |s|
  {
    var parts := SplitDots(s);
    if s == "" {
    } else if |s| > 1 && s[0] == '.' && s[1] == '.' {
      PartsOfText(s[2..]);
      var more := SplitDots(s[2..]);
      assert parts[1..] == more;
      forall c | c in s && c != '.' ensures exists i :: 0 <= i < |parts| && c in parts[i] {
        assert c in s[2..];
        var i :| 0 <= i < |more| && c in more[i];
        assert c in parts[i + 1];
      }
    } else {
      PartsOfText(s[1..]);
      var more := SplitDots(s[1..]);
      assert parts[1..] == more[1..];
      forall c | c in s && c != '.' ensures exists i :: 0 <= i < |parts| && c in parts[i] {
        if c == s[0] { assert c in parts[0]; } else {
          assert c in s[1..];
          var i :| 0 <= i < |more| && c in more[i];
          assert c in parts[i];
        }
      }
    }
  }

  predicate IsRangeCharacter(c: char) {
    IsDecimalDigit(c) || IsSign(c) || IsLetter(c) || IsBlank(c) || c == '.'
  }

  lemma WholeCharacters(text: string)
    requires Whole(text).Some?
    ensures text != "" && forall c :: c in text ==> IsRangeCharacter(c)
  {
    var digits := Digits(text);
    forall c | c in text ensures IsRangeCharacter(c) {
      if c in digits {
        var k :| 0 <= k < |digits| && digits[k] == c;
      }
    }
  }

  lemma {:induction false} TrimmedStart(s: string)
    ensures forall c :: c in s ==> IsBlank(c) || c in TrimStart(s)
    decreases |s|
  {
    if s != "" && IsBlank(s[0]) { TrimmedStart(s[1..]); }
  }

  lemma {:induction false} TrimmedEnd(s: string)
    ensures forall c :: c in s ==> IsBlank(c) || c in TrimEnd(s)
    decreases |s|
  {
    if s != "" && IsBlank(s[|s| - 1]) { TrimmedEnd(s[..|s| - 1]); }
  }

  lemma StepCharacters(text: string)
    requires ParseLong(text).Some? || ParseInt(text).Some?
    ensures text != "" && forall c :: c in text ==> IsRangeCharacter(c)
  {
    if ParseLong(text).Some? { WholeCharacters(text); } else {
      var t := TrimStart(text);
      WholeCharacters(TrimEnd(t));
      TrimmedStart(text);
      TrimmedEnd(t);
    }
  }

  /** A range is written with digits, signs, letters, blanks and dots alone. */
  lemma RangeCharacters(body: string)
    requires RangeOf(body) != NotARange
    ensures forall c :: c in body ==> IsRangeCharacter(c)
  {
    PartsOfText(body);
    var parts := SplitDots(body);
    forall i, c | 0 <= i < |parts| && c in parts[i] ensures IsRangeCharacter(c) {
      if i == 2 { StepCharacters(parts[2]); }
      else if ParseLong(parts[0]).Some? && ParseLong(parts[1]).Some? { StepCharacters(parts[i]); }
      else { assert parts[i][0] == c; }
    }
  }

  // ---- the length of an item ----

  lemma {:induction false} NumberBelow(digits: string)
    requires forall k :: 0 <= k < |digits| ==> IsDecimalDigit(digits[k])
    ensures 0 <= NumberIn(digits, 10) < Pow(10, |digits|)
    decreases |digits|
  {
    if digits != "" { NumberBelow(digits[..|digits| - 1]); }
  }

  lemma {:induction false} DecimalLength(n: nat, k: nat)
    requires k > 0 && n < Pow(10, k)
    ensures |Decimal(n)| <= k
    decreases k
  {
    if n >= 10 {
      assert Pow(10, 1) == 10;
      assert Pow(10, k) == 10 * Pow(10, k - 1);
      DecimalLength(n / 10, k - 1);
    }
  }

  function Written(v: int): string {
    if v < 0 then "-" + Decimal(-v) else Decimal(v)
  }

  /** A number nearer to nought than one that was read is not longer than its text. */
  lemma NotLonger(text: string, v: int)
    requires Whole(text).Some?
    requires var n := Whole(text).value; if v < 0 then n <= v else v <= n
    ensures |Written(v)| <= |text|
  {
    var digits := Digits(text);
    NumberBelow(digits);
    DecimalLength(Absolute(v), |digits|);
  }

  lemma Length64(v: int)
    requires InRange(v)
    ensures |Written(v)| <= 20
  {
    assert MODULUS == 18446744073709551616;
    Pow19();
    DecimalLength(Absolute(v), 19);
  }

  lemma Pow19()
    ensures Pow(10, 18) == 1000000000000000000 && Pow(10, 19) == 10000000000000000000
  {
    assert Pow(10, 4) == 10000 by { assert Pow(10, 1) == 10; assert Pow(10, 2) == 100; assert Pow(10, 3) == 1000; }
    assert Pow(10, 8) == 100000000 by { assert Pow(10, 5) == 100000; assert Pow(10, 6) == 1000000; assert Pow(10, 7) == 10000000; }
    assert Pow(10, 12) == 1000000000000 by { assert Pow(10, 9) == 1000000000; assert Pow(10, 10) == 10000000000; assert Pow(10, 11) == 100000000000; }
    assert Pow(10, 16) == 10000000000000000 by { assert Pow(10, 13) == 10000000000000; assert Pow(10, 14) == 100000000000000; assert Pow(10, 15) == 1000000000000000; }
    assert Pow(10, 17) == 100000000000000000;
  }

  lemma FormatLength(v: int, width: nat)
    ensures |Format(v, width)| <= Max(width, |Written(v)|)
  {}

  /** With short texts no sum passes the largest number. */
  lemma ShortText(text: string)
    requires Whole(text).Some? && |text| <= 18
    ensures Absolute(Whole(text).value) < 1000000000000000000
  {
    var digits := Digits(text);
    NumberBelow(digits);
    PowGrows(|digits|, 18);
    Pow19();
  }

  lemma {:induction false} PowGrows(a: nat, b: nat)
    requires a <= b
    ensures 0 < Pow(10, a) <= Pow(10, b)
    decreases b
  {
    if a < b { PowGrows(a, b - 1); } else if a > 0 { PowGrows(a - 1, b - 1); }
  }

  /** Without coming round, every value lies between the ends. */
  lemma {:induction false} NoComingRound(ring: Ring, start: int, end: int, step: int, k: nat)
    requires ring.Valid() && ring.Has(start) && ring.Has(end) && ring.Has(end + step)
    requires var up := start <= end;
             (if up then step >= 0 else step <= 0) && forall j: nat :: j <= k ==> Inside(At(ring, start, step, j), end, up)
    ensures var v := At(ring, start, step, k); if start <= end then start <= v <= end else end <= v <= start
    decreases k
  {
    if k > 0 {
      NoComingRound(ring, start, end, step, k - 1);
      NextStep(ring, start, step, k - 1);
    } else {
      Begins(ring, start, step);
    }
  }

  lemma NumberLength(body: string, k: nat)
    requires var parts := SplitDots(body); |parts| == 2 || |parts| == 3
    requires var parts := SplitDots(body); ParseLong(parts[0]).Some? && ParseLong(parts[1]).Some? && StepOf(parts, true).Some?
    requires var parts := SplitDots(body);
             var from0, to, step := ParseLong(parts[0]).value, ParseLong(parts[1]).value, StepOf(parts, true).value;
             step != MIN && Walked(LONGS, from0, to, Absolute(step), from0 <= to).Some?
             && k < |Walked(LONGS, from0, to, Absolute(step), from0 <= to).value|
    ensures var parts := SplitDots(body);
            var from0, to, step := ParseLong(parts[0]).value, ParseLong(parts[1]).value, StepOf(parts, true).value;
            |Written(Walked(LONGS, from0, to, Absolute(step), from0 <= to).value[k])| <= |body|
  {
    hide Walked, Past, Written, At, Whole, Pow;
    var parts := SplitDots(body);
    var from0, to, step := ParseLong(parts[0]).value, ParseLong(parts[1]).value, StepOf(parts, true).value;
    var up := from0 <= to;
    WalkedAt(LONGS, from0, to, Absolute(step), up);
    var v := Walked(LONGS, from0, to, Absolute(step), up).value[k];
    PartsOfText(body);
    Lengths(parts);
    if |body| >= 20 {
      Length64(v);
    } else {
      ShortText(parts[1]);
      if |parts| == 3 { ShortText(parts[2]); }
      NoComingRound(LONGS, from0, to, Signed(Absolute(step), up), k);
      if up == (v < 0) { NotLonger(parts[0], v); } else { NotLonger(parts[1], v); }
    }
  }

  lemma Lengths(parts: seq<string>)
    requires 2 <= |parts| <= 3
    ensures TotalLength(parts) == |parts[0]| + |parts[1]| + if |parts| == 3 then |parts[2]| else 0
  {
    assert parts[1..][1..] == parts[2..];
    assert TotalLength(parts[1..]) == |parts[1]| + TotalLength(parts[2..]);
    assert |parts| == 3 ==> parts[2..] == [parts[2]] && parts[2..][1..] == [];
  }

  /** A range has an item, and none is longer than the range itself. */
  lemma ItemsFit(body: string)
    requires RangeOf(body).Items?
    ensures RangeOf(body).items != [] && forall i :: 0 <= i < |RangeOf(body).items| ==> |RangeOf(body).items[i]| <= |body|
  {
    hide Walked, Written, At, Whole, Inside;
    var parts := SplitDots(body);
    PartsOfText(body);
    Lengths(parts);
    var items := RangeOf(body).items;
    if ParseLong(parts[0]).Some? && ParseLong(parts[1]).Some? {
      var from0, to, step := ParseLong(parts[0]).value, ParseLong(parts[1]).value, Absolute(StepOf(parts, true).value);
      SomeValue(LONGS, from0, to, step);
      var values := Walked(LONGS, from0, to, step, from0 <= to).value;
      forall i | 0 <= i < |items| ensures |items[i]| <= |body| {
        NumberLength(body, i);
        FormatLength(values[i], Width(parts[0], parts[1]));
      }
    } else {
      SomeValue(CODES, parts[0][0] as int, parts[1][0] as int, Absolute(StepOf(parts, false).value));
    }
  }

  lemma SomeValue(ring: Ring, start: int, end: int, step: nat)
    requires ring.Valid() && ring.Has(start) && Walked(ring, start, end, step, start <= end).Some?
    ensures Walked(ring, start, end, step, start <= end).value != []
  {
    hide Walked, At;
    WalkedAt(ring, start, end, step, start <= end);
    Begins(ring, start, Signed(step, start <= end));
  }

  // ---- the characters of an item ----

  predicate IsSpecial(c: char) {
    c == '\\' || c == '$' || c == '\'' || c == '"' || c == '{' || c == '}'
  }

  predicate Harmless(s: string) {
    forall c :: c in s ==> !IsSpecial(c)
  }

  /** Whether a code is the code of a character with a meaning for the expander. */
  predicate IsSpecialCode(code: int) {
    code == 92 || code == 36 || code == 39 || code == 34 || code == 123 || code == 125
  }

  lemma SpecialCode(code: int)
    requires CODES.Has(code)
    ensures IsSpecial(CharOf(code)) <==> IsSpecialCode(code)
  {}

  lemma {:induction false} Padded(digits: string, width: int)
    requires forall c :: c in digits ==> IsDecimalDigit(c)
    ensures forall c :: c in PadLeft(digits, width) ==> IsDecimalDigit(c)
    decreases width - |digits|
  {
    if |digits| < width { Padded("0" + digits, width); }
  }

  lemma FormatHarmless(v: int, width: nat)
    ensures Harmless(Format(v, width))
  {
    Padded(Decimal(Absolute(v)), if v < 0 then width - 1 else width);
  }

  predicate IsNumeric(body: string) {
    var parts := SplitDots(body);
    |parts| >= 2 && ParseLong(parts[0]).Some? && ParseLong(parts[1]).Some?
  }

  /**
   Items take part in no further expansion if and only if they are numbers or no letter of the
   range, on its way to the end, has come upon one of the six characters.
   */
  lemma ItemsHarmless(body: string)
    requires RangeOf(body).Items?
    ensures (forall i :: 0 <= i < |RangeOf(body).items| ==> Harmless(RangeOf(body).items[i]))
            <==> IsNumeric(body) || !exists k: nat, code :: IsSpecialCode(code) && Comes(body, k, code)
  {
    hide At, Walked, Whole;
    var items := RangeOf(body).items;
    var parts := SplitDots(body);
    if IsNumeric(body) {
      var from0, to, step := ParseLong(parts[0]).value, ParseLong(parts[1]).value, Absolute(StepOf(parts, true).value);
      var values := Walked(LONGS, from0, to, step, from0 <= to).value;
      forall i | 0 <= i < |items| ensures Harmless(items[i]) { FormatHarmless(values[i], Width(parts[0], parts[1])); }
    } else {
      var start, end, step := parts[0][0] as int, parts[1][0] as int, Absolute(StepOf(parts, false).value);
      WalkedAt(CODES, start, end, step, start <= end);
      var values := Walked(CODES, start, end, step, start <= end).value;
      forall i | 0 <= i < |items| ensures !Harmless(items[i]) <==> IsSpecialCode(values[i]) {
        SpecialCode(values[i]);
        assert items[i] == [CharOf(values[i])] && items[i][0] in items[i];
      }
      forall k: nat, code | Comes(body, k, code) ensures k < |values| && values[k] == code {
        hide Inside;
      }
      forall i: nat | i < |items| ensures Comes(body, i, values[i]) { }
    }
  }

  /** The `k`-th step of a range of letters stands at `code`, and no step before it was past the end. */
  ghost predicate Comes(body: string, k: nat, code: int) {
    var parts := SplitDots(body);
    && |parts| >= 2 && |parts[0]| == 1 && |parts[1]| == 1 && IsLetter(parts[0][0]) && IsLetter(parts[1][0]) && StepOf(parts, false).Some?
    && var start, end, step := parts[0][0] as int, parts[1][0] as int, Absolute(StepOf(parts, false).value);
       && At(CODES, start, Signed(step, start <= end), k) == code
       && NotYetPast(start, end, Signed(step, start <= end), start <= end, k)
  }

  ghost predicate NotYetPast(start: int, end: int, step: int, up: bool, k: nat) {
    forall j: nat :: j <= k ==> Inside(At(CODES, start, step, j), end, up)
  }

  /** A range of letters in order comes upon a special character only at the backslash, between the capitals and the small letters. */
  lemma SpecialInOrder(start: int, end: int, step: nat, code: int)
    requires IsLetterCode(start) && IsLetterCode(end) && step > 0 && IsSpecialCode(code)
    ensures code in Progression(start, end, step)
            <==> code == 92 && (start <= 92 <= end || end <= 92 <= start) && Distance(start, 92) % step == 0
  {
    var values := Progression(start, end, step);
    forall k: nat | k < |values| ensures (if start <= end then start <= values[k] <= end else end <= values[k] <= start)
                                        && Distance(start, values[k]) % step == 0 {
      Between(start, end, step, k);
      Multiple(k, step);
      assert Distance(start, values[k]) == k * step;
    }
    if code == 92 && (start <= 92 <= end || end <= 92 <= start) && Distance(start, 92) % step == 0 {
      var k := Distance(start, 92) / step;
      Fits(start, end, step, 92);
      assert values[k] == 92;
    }
  }

  lemma Multiple(k: nat, step: nat)
    requires step > 0
    ensures (k * step) % step == 0 && k * step >= 0
  {
    assert Divides(step, k * step - 0);
    ResidueIs(k * step, 0, step);
    Monotone(0, k, step);
  }

  lemma Fits(start: int, end: int, step: nat, code: int)
    requires step > 0 && (start <= code <= end || end <= code <= start) && Distance(start, code) % step == 0
    ensures Distance(start, code) / step < Fitting(start, end, step)
    ensures start + (Distance(start, code) / step) * Signed(step, start <= end) == code
  {
    var k := Distance(start, code) / step;
    assert k * step == Distance(start, code);
    var q := Distance(start, end) / step;
    if k > q {
      Monotone(q + 1, k, step);
      assert (q + 1) * step == q * step + step;
    }
    if start <= end { assert k * Signed(step, true) == k * step; } else { assert k * Signed(step, false) == -(k * step); }
  }

  /** The range whose second item is an opening brace: from b down to a by 65511 the second code is 123, which is not below a. */
  lemma BraceAmongLetters()
    ensures RangeOf("b..a..65511").Items? && |RangeOf("b..a..65511").items| > 1 && RangeOf("b..a..65511").items[1] == "{"
  {
    hide Walked, SplitDots, ParseInt, ParseLong, Letters;
    ThreeParts();
    StepText();
    assert RangeOf("b..a..65511") == Letters(98, 97, 65511);
    SecondLetter();
  }

  lemma SecondLetter()
    ensures var r := Letters(98, 97, 65511); r.Items? && |r.items| > 1 && r.items[1] == "{"
  {
    hide Walked, Past, At, Gcd, Residue;
    LetterRangeEnds(98, 97, 65511);
    Coprime();
    assert Residue(98, 1) < 97;
    WalkedAt(CODES, 98, 97, 65511, false);
    FirstCodes();
    var values := Walked(CODES, 98, 97, 65511, false).value;
    assert |values| > 1 && values[1] == 123;
    assert Letters(98, 97, 65511).items[1] == [CharOf(values[1])];
  }

  lemma FirstCodes()
    ensures At(CODES, 98, Signed(65511, false), 0) == 98 && At(CODES, 98, Signed(65511, false), 1) == 123
  {
    hide Residue, At;
    Begins(CODES, 98, -65511);
    AtResidue(CODES, 98, -65511, 1);
    assert -65413 - 123 == (-1) * 65536;
    ResidueIs(-65413, 123, 65536);
  }

  lemma ThreeParts()
    ensures SplitDots("b..a..65511") == ["b", "a", "65511"]
  {
    NoDots("65511");
    assert "a..65511" == ['a'] + ".." + "65511" && "b..a..65511" == ['b'] + ".." + "a..65511";
    OnePart('a', "65511");
    OnePart('b', "a..65511");
  }

  lemma OnePart(c: char, s: string)
    requires c != '.'
    ensures SplitDots([c] + ".." + s) == [[c]] + SplitDots(s)
  {
    var t := [c] + ".." + s;
    assert t[1..] == ".." + s && t[1..][2..] == s;
    assert SplitDots(t[1..]) == [""] + SplitDots(s);
    assert ([""] + SplitDots(s))[1..] == SplitDots(s) && [c] + "" == [c];
  }

  lemma {:induction false} NoDots(s: string)
    requires '.' !in s
    ensures SplitDots(s) == [s]
    decreases |s|
  {
    if s != "" { NoDots(s[1..]); assert [s[0]] + s[1..] == s; }
  }

  lemma StepText()
    ensures ParseInt("65511") == Some(65511) && ParseLong("b") == None
  {
    var d := "65511";
    assert TrimEnd(TrimStart(d)) == d;
    assert "6" == "" + ['6'] && "65" == "6" + ['5'] && "655" == "65" + ['5'] && "6551" == "655" + ['1'] && d == "6551" + ['1'];
    NextDigit("", '6');
    NextDigit("6", '5');
    NextDigit("65", '5');
    NextDigit("655", '1');
    NextDigit("6551", '1');
    assert Digits("b") == "b" && !IsDecimalDigit("b"[0]);
  }

  lemma NextDigit(digits: string, c: char)
    ensures NumberIn("", 10) == 0 && NumberIn(digits + [c], 10) == NumberIn(digits, 10) * 10 + DigitValue(c)
  {
    assert (digits + [c])[..|digits|] == digits;
  }

  lemma Coprime()
    ensures Gcd(65536, 65511) == 1
  {
    assert Gcd(1, 0) == 1;
    assert Gcd(2, 1) == 1;
    assert Gcd(9, 2) == 1;
    assert Gcd(11, 9) == 1;
    assert Gcd(25, 11) == 1;
    assert Gcd(65511, 25) == 1;
  }

  /** From c down to a by 128: every code there is has the residue 99, and none is below 97. */
  lemma EndlessLetters()
    ensures Letters(99, 97, 128) == NoResult
  {
    hide Letters, Gcd, Residue;
    LetterRangeEnds(99, 97, 128);
    assert Gcd(65536, 128) == 128 by { TwoSteps(); }
    assert Residue(99, 128) == 99;
  }

  lemma TwoSteps()
    ensures Gcd(65536, 128) == 128
  {
    assert Gcd(128, 0) == 128;
  }
}
