/**
 The ranges `{1..9..2}` and `{a..e}`: how the text between the braces is read, and the items it
 stands for. Numbers are stepped through in 64 bits and letters in 16, where a wide step comes
 back at the other side.
 */
module BraceRanges {
  import opened Wrappers
  import opened CyclicSteps
  import opened ShellIntegers

  /** A range without result never ends, or asks for an absolute value that has none. */
  datatype Range = NotARange | Items(items: seq<string>) | NoResult

  const LONGS := Ring(MIN, MODULUS)
  const CODES := Ring(0, 65536)

  // ---- reading the text ----

  /** The parts between the `..`, taken from the left. */
  function SplitDots(s: string): (parts: seq<string>)
    ensures parts != []
    decreases |s|
  {
    if s == "" then [""]
    else if |s| > 1 && s[0] == '.' && s[1] == '.' then [""] + SplitDots(s[2..])
    else var more := SplitDots(s[1..]); [[s[0]] + more[0]] + more[1..]
  }

  predicate IsDecimalDigit(c: char) {
    '0' <= c <= '9'
  }

  predicate IsSign(c: char) {
    c == '-' || c == '+'
  }

  function Digits(text: string): string {
    if text != "" && IsSign(text[0]) then text[1..] else text
  }

  /** A whole number: a sign, perhaps, and digits. */
  function Whole(text: string): Option<int> {
    var digits := Digits(text);
    if digits == "" || exists k :: 0 <= k < |digits| && !IsDecimalDigit(digits[k]) then None
    else Some(if text[0] == '-' then -NumberIn(digits, 10) else NumberIn(digits, 10))
  }

  function ParseLong(text: string): Option<int> {
    var n := Whole(text);
    if n.Some? && InRange(n.value) then n else None
  }

  predicate IsBlank(c: char) {
    c == ' ' || '\t' <= c <= '\r'
  }

  function TrimStart(s: string): (r: string)
    ensures |r| <= |s|
  {
    if s != "" && IsBlank(s[0]) then TrimStart(s[1..]) else s
  }

  function TrimEnd(s: string): (r: string)
    ensures |r| <= |s|
  {
    if s != "" && IsBlank(s[|s| - 1]) then TrimEnd(s[..|s| - 1]) else s
  }

  /** A 32-bit number; unlike the others it may have blanks around it. */
  function ParseInt(text: string): Option<int> {
    var n := Whole(TrimEnd(TrimStart(text)));
    if n.Some? && -0x8000_0000 <= n.value < 0x8000_0000 then n else None
  }

  predicate IsLetter(c: char) {
    'a' <= c <= 'z' || 'A' <= c <= 'Z'
  }

  predicate IsLetterCode(c: int) {
    65 <= c <= 90 || 97 <= c <= 122
  }

  // ---- writing the items ----

  function TrimMinus(text: string): (r: string)
    ensures |r| <= |text|
  {
    if text != "" && text[0] == '-' then TrimMinus(text[1..]) else text
  }

  predicate IsZeroPadded(text: string) {
    var digits := TrimMinus(text);
    |digits| > 1 && digits[0] == '0'
  }

  function Max(a: nat, b: nat): nat {
    if a < b then b else a
  }

  /** The common width of padded ends; nought when neither is padded. */
  function Width(from0: string, to: string): nat {
    if IsZeroPadded(from0) || IsZeroPadded(to) then Max(|TrimMinus(from0)|, |TrimMinus(to)|) else 0
  }

  function PadLeft(digits: string, width: int): (r: string)
    ensures |r| == if |digits| < width then width else |digits|
    decreases width - |digits|
  {
    if |digits| >= width then digits else PadLeft("0" + digits, width)
  }

  function Format(value: int, width: nat): string {
    if value < 0 then "-" + PadLeft(Decimal(-value), width - 1) else PadLeft(Decimal(value), width)
  }

  /** A character of 16 bits; the halves of surrogate pairs have a place of their own. */
  function CharOf(code: int): char
    requires CODES.Has(code)
  {
    if 0xD800 <= code < 0xE000 then (code + 0x10000) as char else code as char
  }

  // ---- the items of a range ----

  function Absolute(n: int): nat {
    if n < 0 then -n else n
  }

  ghost function Numbers(from0: int, to: int, step: nat, width: nat): Range
    requires InRange(from0)
  {
    match Walked(LONGS, from0, to, step, from0 <= to)
    case None => NoResult
    case Some(values) =>
      if width > 0 && MIN in values then NoResult
      else Items(seq(|values|, k requires 0 <= k < |values| => Format(values[k], width)))
  }

  ghost function Letters(start: int, end: int, step: nat): Range
    requires CODES.Has(start)
  {
    match Walked(CODES, start, end, step, start <= end)
    case None => NoResult
    case Some(values) =>
      WalkedAt(CODES, start, end, step, start <= end);
      Items(seq(|values|, k requires 0 <= k < |values| => [CharOf(values[k])]))
  }

  /** The number of `from..to..step`, or of `from..to`. */
  function StepOf(parts: seq<string>, long: bool): Option<int> {
    if |parts| < 3 then Some(1) else
    var step := if long then ParseLong(parts[2]) else ParseInt(parts[2]);
    if step == Some(0) then None else step
  }

  ghost function RangeOf(body: string): Range {
    var parts := SplitDots(body);
    if |parts| != 2 && |parts| != 3 then NotARange else
    var from0, to := ParseLong(parts[0]), ParseLong(parts[1]);
    if from0.Some? && to.Some? then
      var step := StepOf(parts, true);
      if step.None? then NotARange
      else if step.value == MIN then NoResult
      else Numbers(from0.value, to.value, Absolute(step.value), Width(parts[0], parts[1]))
    else if |parts[0]| == 1 && |parts[1]| == 1 && IsLetter(parts[0][0]) && IsLetter(parts[1][0]) then
      var step := StepOf(parts, false);
      if step.None? then NotARange
      else if step.value == -0x8000_0000 then NoResult
      else Letters(parts[0][0] as int, parts[1][0] as int, Absolute(step.value))
    else NotARange
  }

  // ---- the expander's own loops ----

  method TryExpandRange(body: string) returns (r: Range)
    ensures r == RangeOf(body)
  {
    var parts := CutAtDots(body);
    if |parts| != 2 && |parts| != 3 { return NotARange; }
    var from0, to := ParseLong(parts[0]), ParseLong(parts[1]);
    if from0.Some? && to.Some? {
      var step := StepOf(parts, true);
      if step.None? { return NotARange; }
      if step.value == MIN { return NoResult; }
      r := NumberRange(from0.value, to.value, Absolute(step.value), Width(parts[0], parts[1]));
    } else if |parts[0]| == 1 && |parts[1]| == 1 && IsLetter(parts[0][0]) && IsLetter(parts[1][0]) {
      var step := StepOf(parts, false);
      if step.None? { return NotARange; }
      if step.value == -0x8000_0000 { return NoResult; }
      r := LetterRange(parts[0][0] as int, parts[1][0] as int, Absolute(step.value));
    } else {
      r := NotARange;
    }
  }

  method CutAtDots(body: string) returns (parts: seq<string>)
    ensures parts == SplitDots(body)
  {
    hide SplitDots;
    parts := [];
    var start, i := 0, 0;
    assert body[0..] == body;
    Joined([], "", SplitDots(body));
    while i < |body|
      invariant 0 <= start <= i <= |body|
      invariant SplitDots(body) == parts + Prefixed(body[start..i], SplitDots(body[i..]))
      decreases |body| - i
    {
      if i + 1 < |body| && body[i] == '.' && body[i + 1] == '.' {
        DotsAt(body, i);
        DotsFound(parts, body[start..i], SplitDots(body[i + 2..]));
        parts := parts + [body[start..i]];
        i := i + 2;
        start := i;
        assert body[start..i] == "";
      } else {
        DotsAt(body, i);
        OneMore(body[start..i], body[i], SplitDots(body[i + 1..]));
        assert body[start..i] + [body[i]] == body[start..i + 1];
        i := i + 1;
      }
    }
    NoText();
    assert body[i..] == "" && body[start..i] == body[start..] && body[start..] + "" == body[start..];
    parts := parts + [body[start..]];
  }

  lemma DotsAt(s: string, i: nat)
    requires i < |s|
    ensures SplitDots(s[i..]) ==
            if i + 1 < |s| && s[i] == '.' && s[i + 1] == '.' then [""] + SplitDots(s[i + 2..]) else Prefixed([s[i]], SplitDots(s[i + 1..]))
  {
    assert s[i..][1..] == s[i + 1..];
    if i + 1 < |s| { assert s[i..][2..] == s[i + 2..]; }
  }

  lemma NoText()
    ensures SplitDots("") == [""]
  {}

  /** The parts of a text with something in front of it. */
  function Prefixed(piece: string, parts: seq<string>): seq<string>
    requires parts != []
  {
    [piece + parts[0]] + parts[1..]
  }

  lemma Joined(done: seq<string>, piece: string, parts: seq<string>)
    requires parts != [] && done == [] && piece == ""
    ensures parts == done + Prefixed(piece, parts)
  {
    assert "" + parts[0] == parts[0];
  }

  lemma DotsFound(done: seq<string>, piece: string, more: seq<string>)
    requires more != []
    ensures done + Prefixed(piece, [""] + more) == done + [piece] + Prefixed("", more)
  {
    assert ([""] + more)[1..] == more;
    assert piece + "" == piece && "" + more[0] == more[0];
  }

  lemma OneMore(piece: string, c: char, more: seq<string>)
    requires more != []
    ensures Prefixed(piece, Prefixed([c], more)) == Prefixed(piece + [c], more)
  {
    assert piece + ([c] + more[0]) == piece + [c] + more[0];
  }

  /** Numbers from one end to the other, if that ever ends. */
  method NumberRange(from0: int, to: int, step: nat, width: nat) returns (r: Range)
    requires InRange(from0)
    ensures r == Numbers(from0, to, step, width)
  {
    var values := Walk(LONGS, from0, to, step, from0 <= to);
    if values.None? { return NoResult; }
    var items := [];
    for i := 0 to |values.value|
      invariant |items| == i && forall k :: 0 <= k < i ==> items[k] == Format(values.value[k], width)
    {
      items := items + [Format(values.value[i], width)];
    }
    r := if width > 0 && MIN in values.value then NoResult else Items(items);
  }

  method LetterRange(start: int, end: int, step: nat) returns (r: Range)
    requires CODES.Has(start)
    ensures r == Letters(start, end, step)
  {
    var values := Walk(CODES, start, end, step, start <= end);
    if values.None? { return NoResult; }
    WalkedAt(CODES, start, end, step, start <= end);
    var items := [];
    for i := 0 to |values.value|
      invariant |items| == i && forall k :: 0 <= k < i ==> items[k] == [CharOf(values.value[k])]
    {
      items := items + [[CharOf(values.value[i])]];
    }
    r := Items(items);
  }

  // ---- when a loop ends, and what it goes through ----

  lemma PowerOfTwoDivisor(step: nat)
    ensures var g := Gcd(65536, step); 0 < g <= 65536 && (g == 65536 <==> step % 65536 == 0) && (g < 65536 ==> g <= 32768)
  {
    hide Gcd;
    GcdDivides(65536, step);
    var g := Gcd(65536, step);
    var q: int :| 65536 == q * g;
    Quotients(q, g);
    if step % 65536 == 0 {
      assert step == (step / 65536) * 65536 && 65536 == 1 * 65536;
      GcdGreatest(65536, 65536, step);
      var p: int :| g == p * 65536;
    }
    if g == 65536 {
      var p: int :| step == p * g;
    }
  }

  lemma Quotients(q: int, g: int)
    requires 65536 == q * g && g > 0
    ensures q > 0 && g <= 65536 && (q == 1 <==> g == 65536) && (q >= 2 ==> g <= 32768)
  {}

  /**
   A range of letters ends if and only if, going up, the step is no multiple of 65536, and, going
   down, the residue of the first letter by the common divisor lies below the end.
   */
  lemma LetterRangeEnds(start: int, end: int, step: nat)
    requires IsLetterCode(start) && IsLetterCode(end)
    ensures Gcd(65536, step) > 0
    ensures Letters(start, end, step) != NoResult
            <==> if start <= end then step % 65536 != 0 else Residue(start, Gcd(65536, step)) < end
  {
    hide Gcd, Residue;
    EndsExactly(CODES, start, end, step, start <= end);
    PowerOfTwoDivisor(step);
    if start <= end && Gcd(65536, step) == 65536 { assert Residue(start, 65536) == start; }
  }

  /** The numbers, likewise, in 64 bits. */
  lemma NumberRangeEnds(from0: int, to: int, step: nat)
    requires InRange(from0) && InRange(to)
    ensures Walked(LONGS, from0, to, step, from0 <= to).Some?
            <==> var g := Gcd(MODULUS, step);
                 g > 0 && if from0 <= to then MAX + 1 - g + Residue(from0 - MIN, g) > to else MIN + Residue(from0 - MIN, g) < to
  {
    hide Gcd, Residue;
    EndsExactly(LONGS, from0, to, step, from0 <= to);
  }

  /** Letters are the plain progression exactly when the step after its last letter is past the end. */
  lemma LettersInOrder(start: int, end: int, step: nat)
    requires IsLetterCode(start) && IsLetterCode(end) && step > 0
    ensures var up, last := start <= end, Last(start, end, step);
            Walked(CODES, start, end, step, up) == Some(Progression(start, end, step))
            <==> if up then (last + step) % 65536 > end else (last - step) % 65536 < end
  {
    ProgressionExactly(CODES, start, end, step);
  }

  /** With a step that does not come round twice: going up always, going down when the last letter is not passed by zero. */
  lemma LettersInOrderBelow(start: int, end: int, step: nat)
    requires IsLetterCode(start) && IsLetterCode(end) && 0 < step < 65536 - 122
    ensures var up, last := start <= end, Last(start, end, step);
            Walked(CODES, start, end, step, up) == Some(Progression(start, end, step)) <==> up || step <= last
  {
    hide Last;
    var last := Last(start, end, step);
    LettersInOrder(start, end, step);
    LastBetween(start, end, step);
    Between(start, end, step, Fitting(start, end, step));
    LastIs(start, end, step);
    Reduced(last + step);
    Reduced(last - step);
  }

  lemma LastBetween(start: int, end: int, step: nat)
    requires step > 0
    ensures if start <= end then start <= Last(start, end, step) <= end else end <= Last(start, end, step) <= start
  {
    Between(start, end, step, Fitting(start, end, step) - 1);
  }

  lemma Reduced(v: int)
    ensures 0 <= v < 65536 ==> v % 65536 == v
    ensures -65536 <= v < 0 ==> v % 65536 == v + 65536
  {}
}
