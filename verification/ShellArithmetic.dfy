/**
 Reading and evaluating shell arithmetic in one pass over the text: each function reads from a
 position at one level of precedence, and returns the value, where it stopped, and the
 variables as assignments left them.
 */
module ShellArithmetic {
  import opened Wrappers
  import opened ShellIntegers

  type Variables = map<string, string>

  /** A value read up to a position, or an error; either way with the variables as they then are. */
  datatype Reading = Reading(value: int, position: nat, variables: Variables) | Stopped(error: Error, variables: Variables)

  datatype Outcome = Value(value: int, variables: Variables) | Failure(error: Error, variables: Variables)

  const DEEPEST: nat := 32

  // ---- characters ----

  predicate IsSpace(c: char) {
    || '\t' <= c <= '\r' || c == ' ' || c == '\U{85}' || c == '\U{A0}' || c == '\U{1680}' || '\U{2000}' <= c <= '\U{200A}'
    || c == '\U{2028}' || c == '\U{2029}' || c == '\U{202F}' || c == '\U{205F}' || c == '\U{3000}'
  }

  predicate IsDecimal(c: char) {
    '0' <= c <= '9'
  }

  predicate IsLetter(c: char) {
    'a' <= c <= 'z' || 'A' <= c <= 'Z'
  }

  predicate IsAlphanumeric(c: char) {
    IsDecimal(c) || IsLetter(c)
  }

  predicate StartsName(c: char) {
    IsLetter(c) || c == '_'
  }

  predicate InName(c: char) {
    IsAlphanumeric(c) || c == '_'
  }

  /** The character at a position, and '\0' past the end. */
  function At(text: string, p: nat): char {
    if p < |text| then text[p] else '\0'
  }

  function SkipSpace(text: string, p: nat): (r: nat)
    ensures p <= r && (p <= |text| ==> r <= |text|)
    decreases |text| - p
  {
    if p < |text| && IsSpace(text[p]) then SkipSpace(text, p + 1) else p
  }

  lemma {:induction false} SkipTwice(text: string, p: nat)
    ensures SkipSpace(text, SkipSpace(text, p)) == SkipSpace(text, p)
    decreases |text| - p
  {
    if p < |text| && IsSpace(text[p]) {
      SkipTwice(text, p + 1);
    }
  }

  function NameEnd(text: string, p: nat): (r: nat)
    ensures p <= r && (p <= |text| ==> r <= |text|)
    decreases |text| - p
  {
    if p < |text| && InName(text[p]) then NameEnd(text, p + 1) else p
  }

  /** The end of the identifier at `p`, or `p` itself when none starts there. */
  function IdentifierEnd(text: string, p: nat): (r: nat)
    ensures p <= r && (p <= |text| ==> r <= |text|)
  {
    if p < |text| && StartsName(text[p]) then NameEnd(text, p) else p
  }

  function AlphanumericEnd(text: string, p: nat): (r: nat)
    ensures p <= r && (p <= |text| ==> r <= |text|)
    decreases |text| - p
  {
    if p < |text| && IsAlphanumeric(text[p]) then AlphanumericEnd(text, p + 1) else p
  }

  function DigitsEnd(text: string, p: nat): (r: nat)
    ensures p <= r && (p <= |text| ==> r <= |text|)
    decreases |text| - p
  {
    if p < |text| && (IsAlphanumeric(text[p]) || text[p] == '@' || text[p] == '_') then DigitsEnd(text, p + 1) else p
  }

  // ---- operators ----

  /** The binary operator of one level, 3 for `||` up to 12 for `*`, and its length. */
  function OperatorAt(level: nat, a: char, b: char, c: char): (r: Option<(Operator, nat)>)
    ensures r.Some? ==> 1 <= r.value.1 <= 2 && a != '\0' && (r.value.1 == 2 ==> b != '\0')
  {
    match level
    case 3 => if a == '|' && b == '|' then Some((Or, 2)) else None
    case 4 => if a == '&' && b == '&' then Some((And, 2)) else None
    case 5 => if a == '|' && b != '|' then Some((BitOr, 1)) else None
    case 6 => if a == '^' then Some((BitXor, 1)) else None
    case 7 => if a == '&' && b != '&' then Some((BitAnd, 1)) else None
    case 8 => if a == '=' && b == '=' then Some((Equal, 2)) else if a == '!' && b == '=' then Some((NotEqual, 2)) else None
    case 9 =>
      if a == '<' && b == '=' then Some((LessEqual, 2))
      else if a == '>' && b == '=' then Some((GreaterEqual, 2))
      else if a == '<' && b != '<' then Some((Less, 1))
      else if a == '>' && b != '>' then Some((Greater, 1)) else None
    case 10 =>
      if a == '<' && b == '<' && c != '=' then Some((ShiftLeft, 2))
      else if a == '>' && b == '>' && c != '=' then Some((ShiftRight, 2)) else None
    case 11 =>
      if a == '+' && b != '+' && b != '=' then Some((Add, 1))
      else if a == '-' && b != '-' && b != '=' then Some((Subtract, 1)) else None
    case 12 =>
      if a == '*' && b != '*' && b != '=' then Some((Multiply, 1))
      else if a == '/' && b != '=' then Some((Divide, 1))
      else if a == '%' && b != '=' then Some((Modulo, 1)) else None
    case _ => None
  }

  /** An assignment operator: the operator it applies first, if any, and its length. */
  function AssignmentAt(a: char, b: char, c: char): (r: Option<(Option<Operator>, nat)>)
    ensures r.Some? ==> 1 <= r.value.1 <= 3 && a != '\0' && (r.value.1 >= 2 ==> b != '\0') && (r.value.1 == 3 ==> c != '\0')
  {
    if a == '<' && b == '<' && c == '=' then Some((Some(ShiftLeft), 3))
    else if a == '>' && b == '>' && c == '=' then Some((Some(ShiftRight), 3))
    else if a == '+' && b == '=' then Some((Some(Add), 2))
    else if a == '-' && b == '=' then Some((Some(Subtract), 2))
    else if a == '*' && b == '=' then Some((Some(Multiply), 2))
    else if a == '/' && b == '=' then Some((Some(Divide), 2))
    else if a == '%' && b == '=' then Some((Some(Modulo), 2))
    else if a == '&' && b == '=' then Some((Some(BitAnd), 2))
    else if a == '|' && b == '=' then Some((Some(BitOr), 2))
    else if a == '^' && b == '=' then Some((Some(BitXor), 2))
    else if a == '=' && b != '=' then Some((None, 1))
    else None
  }

  // ---- numbers ----

  predicate AllDecimal(s: string) {
    forall k :: 0 <= k < |s| ==> IsDecimal(s[k])
  }

  function HexValue(c: char): int {
    if IsDecimal(c) then c as int - '0' as int
    else if 'a' <= c <= 'f' then c as int - 'a' as int + 10
    else if 'A' <= c <= 'F' then c as int - 'A' as int + 10 else -1
  }

  function HexNumber(s: string): int {
    if s == "" then 0 else HexNumber(s[..|s| - 1]) * 16 + HexValue(s[|s| - 1])
  }

  /** An unsigned 64-bit pattern read as a signed number. */
  function Pattern(n: int): (r: Result<int>)
    ensures r.Ok? ==> InRange(r.value)
  {
    if 0 <= n < MODULUS then Ok(Wrap(n)) else Err(Overflow)
  }

  lemma {:induction false} DecimalIsNat(s: string)
    requires AllDecimal(s)
    ensures NumberIn(s, 10) >= 0
  {
    if s != "" { DecimalIsNat(s[..|s| - 1]); }
  }

  function Literal(token: string): (r: Result<int>)
    ensures r.Ok? ==> InRange(r.value)
  {
    if token != "" && AllDecimal(token) && !(|token| > 1 && token[0] == '0') && NumberIn(token, 10) <= MAX then
      DecimalIsNat(token); Ok(NumberIn(token, 10))
    else if |token| >= 2 && token[0] == '0' && (token[1] == 'x' || token[1] == 'X') then
      if |token| > 2 && forall k :: 2 <= k < |token| ==> HexValue(token[k]) >= 0 then Pattern(HexNumber(token[2..])) else Err(ValueTooGreat)
    else if |token| > 1 && token[0] == '0' && forall k :: 0 <= k < |token| ==> '0' <= token[k] <= '7' then Pattern(NumberIn(token[1..], 8))
    else if token != "" && AllDecimal(token) && NumberIn(token, 10) <= MAX then
      DecimalIsNat(token); Ok(NumberIn(token, 10))
    else Err(ValueTooGreat)
  }

  function ParseNumber(text: string, p: nat, variables: Variables): (r: Reading)
    requires p < |text| && IsDecimal(text[p])
    ensures r.Reading? ==> p < r.position <= |text|
    ensures r.Reading? ==> InRange(r.value)
  {
    var end := AlphanumericEnd(text, p);
    assert end > p;
    if At(text, end) == '#' then
      var radix := text[p..end];
      var last := DigitsEnd(text, end + 1);
      match InBase(text[end + 1..last], if AllDecimal(radix) then NumberIn(radix, 10) else -1)
      case Ok(value) => Reading(value, last, variables)
      case Err(error) => Stopped(error, variables)
    else
      match Literal(text[p..end])
      case Ok(value) => Reading(value, end, variables)
      case Err(error) => Stopped(error, variables)
  }

  /** A variable's text read directly as a number: blanks around, a sign, digits, in range. */
  function Direct(text: string): (r: Option<int>)
    ensures r.Some? ==> InRange(r.value)
  {
    var s := TrimRight(TrimLeft(text));
    var negative := s != "" && s[0] == '-';
    var digits := if s != "" && (s[0] == '-' || s[0] == '+') then s[1..] else s;
    if digits == "" || !AllDecimal(digits) then None else
    var n := if negative then -NumberIn(digits, 10) else NumberIn(digits, 10);
    if InRange(n) then Some(n) else None
  }

  predicate IsBlank(c: char) {
    '\t' <= c <= '\r' || c == ' '
  }

  function TrimLeft(s: string): string {
    if s != "" && IsBlank(s[0]) then TrimLeft(s[1..]) else s
  }

  function TrimRight(s: string): string {
    if s != "" && IsBlank(s[|s| - 1]) then TrimRight(s[..|s| - 1]) else s
  }

  function ShowNumber(n: int): string {
    if n < 0 then "-" + Decimal(-n) else Decimal(n)
  }

  function Set(variables: Variables, name: string, value: int): Variables {
    variables[name := ShowNumber(value)]
  }

  // ---- the levels ----

  function Evaluate(variables: Variables, text: string, depth: nat): (o: Outcome)
    requires depth <= DEEPEST
    ensures o.Value? ==> InRange(o.value)
    decreases DEEPEST - depth, |text| + 1, 0
  {
    if SkipSpace(text, 0) == |text| then Value(0, variables) else
    match ParseComma(text, 0, variables, depth)
    case Stopped(error, after) => Failure(error, after)
    case Reading(value, end, after) =>
      if SkipSpace(text, end) < |text| then Failure(SyntaxError, after) else Value(value, after)
  }

  /** A variable's text is itself an expression; how deep that goes is bounded. */
  function ReadVariable(variables: Variables, name: string, depth: nat): (o: Outcome)
    requires depth <= DEEPEST
    ensures o.Value? ==> InRange(o.value)
    decreases DEEPEST - depth, 0, 0
  {
    if depth >= DEEPEST then Failure(RecursionTooDeep, variables)
    else if name !in variables || variables[name] == "" then Value(0, variables)
    else match Direct(variables[name])
         case Some(value) => Value(value, variables)
         case None => Evaluate(variables, variables[name], depth + 1)
  }

  function ParseComma(text: string, p: nat, variables: Variables, depth: nat): (r: Reading)
    requires p <= |text| && depth <= DEEPEST
    ensures r.Reading? ==> p <= r.position <= |text|
    ensures r.Reading? ==> InRange(r.value)
    decreases DEEPEST - depth, |text| - p, 20
  {
    var first := ParseAssignment(text, p, variables, depth);
    if first.Stopped? then first else CommaLoop(text, first, depth)
  }

  function CommaLoop(text: string, left: Reading, depth: nat): (r: Reading)
    requires left.Reading? && left.position <= |text| && depth <= DEEPEST
    ensures r.Reading? ==> left.position <= r.position <= |text|
    ensures InRange(left.value) && r.Reading? ==> InRange(r.value)
    decreases DEEPEST - depth, |text| - left.position, 19
  {
    var q := SkipSpace(text, left.position);
    if At(text, q) != ',' then left.(position := q) else
    var next := ParseAssignment(text, q + 1, left.variables, depth);
    if next.Stopped? then next else CommaLoop(text, next, depth)
  }

  function ParseAssignment(text: string, p: nat, variables: Variables, depth: nat): (r: Reading)
    requires p <= |text| && depth <= DEEPEST
    ensures r.Reading? ==> p <= r.position <= |text|
    ensures r.Reading? ==> InRange(r.value)
    decreases DEEPEST - depth, |text| - p, 18
  {
    var start := SkipSpace(text, p);
    var end := IdentifierEnd(text, start);
    var q := SkipSpace(text, end);
    var operator := if end > start then AssignmentAt(At(text, q), At(text, q + 1), At(text, q + 2)) else None;
    if operator.None? then ParseTernary(text, p, variables, depth) else
    var operand := ParseAssignment(text, q + operator.value.1, variables, depth);
    if operand.Stopped? then operand else Store(text[start..end], operator.value.0, operand, depth)
  }

  /** The assignment once its operand is read: the variable is read only after it. */
  function Store(name: string, operator: Option<Operator>, operand: Reading, depth: nat): (r: Reading)
    requires operand.Reading? && depth <= DEEPEST
    ensures r.Reading? ==> r.position == operand.position
    ensures InRange(operand.value) && r.Reading? ==> InRange(r.value)
    decreases DEEPEST - depth, 0, 1
  {
    if operator.None? then Reading(operand.value, operand.position, Set(operand.variables, name, operand.value)) else
    match ReadVariable(operand.variables, name, depth)
    case Failure(error, after) => Stopped(error, after)
    case Value(current, after) =>
      match Combine(operator.value, current, operand.value)
      case Err(error) => Stopped(error, after)
      case Ok(value) =>
        CombineInRange(operator.value, current, operand.value);
        Reading(value, operand.position, Set(after, name, value))
  }

  function ParseTernary(text: string, p: nat, variables: Variables, depth: nat): (r: Reading)
    requires p <= |text| && depth <= DEEPEST
    ensures r.Reading? ==> p <= r.position <= |text|
    ensures r.Reading? ==> InRange(r.value)
    decreases DEEPEST - depth, |text| - p, 17
  {
    var condition := ParseLevel(3, text, p, variables, depth);
    if condition.Stopped? then condition else
    var q := SkipSpace(text, condition.position);
    if At(text, q) != '?' then condition.(position := q) else
    var whenTrue := ParseAssignment(text, q + 1, condition.variables, depth);
    if whenTrue.Stopped? then whenTrue else
    var colon := SkipSpace(text, whenTrue.position);
    if At(text, colon) != ':' then Stopped(ExpectedColon, whenTrue.variables) else
    var whenFalse := ParseAssignment(text, colon + 1, whenTrue.variables, depth);
    if whenFalse.Stopped? then whenFalse else
    whenFalse.(value := if condition.value != 0 then whenTrue.value else whenFalse.value)
  }

  /** The binary operators of one level, each read as it comes, left to right. */
  function ParseLevel(level: nat, text: string, p: nat, variables: Variables, depth: nat): (r: Reading)
    requires 3 <= level <= 13 && p <= |text| && depth <= DEEPEST
    ensures r.Reading? ==> p <= r.position <= |text|
    ensures r.Reading? ==> InRange(r.value)
    decreases DEEPEST - depth, |text| - p, 17 - level
  {
    if level == 13 then ParsePower(text, p, variables, depth) else
    var first := ParseLevel(level + 1, text, p, variables, depth);
    if first.Stopped? then first else LevelLoop(level, text, first, depth)
  }

  function LevelLoop(level: nat, text: string, left: Reading, depth: nat): (r: Reading)
    requires 3 <= level <= 12 && left.Reading? && left.position <= |text| && depth <= DEEPEST
    ensures r.Reading? ==> left.position <= r.position <= |text|
    ensures InRange(left.value) && r.Reading? ==> InRange(r.value)
    decreases DEEPEST - depth, |text| - left.position, 1
  {
    LevelNext(level, text, left.(position := SkipSpace(text, left.position)), depth)
  }

  /** The loop where the blanks before the next operator have been skipped. */
  function LevelNext(level: nat, text: string, left: Reading, depth: nat): (r: Reading)
    requires 3 <= level <= 12 && left.Reading? && left.position <= |text| && depth <= DEEPEST
    ensures r.Reading? ==> left.position <= r.position <= |text|
    ensures InRange(left.value) && r.Reading? ==> InRange(r.value)
    decreases DEEPEST - depth, |text| - left.position, 0
  {
    var q := left.position;
    match OperatorAt(level, At(text, q), At(text, q + 1), At(text, q + 2))
    case None => left
    case Some((operator, length)) =>
      var right := ParseLevel(level + 1, text, q + length, left.variables, depth);
      var both := Applied(operator, left.value, right);
      if both.Stopped? then both else LevelLoop(level, text, both, depth)
  }

  /** A binary operator, once its right operand has been read. */
  function Applied(operator: Operator, left: int, right: Reading): (r: Reading)
    ensures r.Reading? ==> right.Reading? && r.position == right.position
    ensures InRange(left) && r.Reading? && InRange(right.value) ==> InRange(r.value)
  {
    if right.Stopped? then right else
    match Combine(operator, left, right.value)
    case Err(error) => Stopped(error, right.variables)
    case Ok(value) =>
      CombineInRange(operator, left, right.value);
      Reading(value, right.position, right.variables)
  }

  function ParsePower(text: string, p: nat, variables: Variables, depth: nat): (r: Reading)
    requires p <= |text| && depth <= DEEPEST
    ensures r.Reading? ==> p <= r.position <= |text|
    ensures r.Reading? ==> InRange(r.value)
    decreases DEEPEST - depth, |text| - p, 3
  {
    var left := ParseUnary(text, p, variables, depth);
    if left.Stopped? then left else
    var q := SkipSpace(text, left.position);
    if At(text, q) != '*' || At(text, q + 1) != '*' then left.(position := q) else
    var exponent := ParsePower(text, q + 2, left.variables, depth);
    if exponent.Stopped? then exponent else exponent.(value := PowerOf(left.value, exponent.value))
  }

  function ParseUnary(text: string, p: nat, variables: Variables, depth: nat): (r: Reading)
    requires p <= |text| && depth <= DEEPEST
    ensures r.Reading? ==> p <= r.position <= |text|
    ensures r.Reading? ==> InRange(r.value)
    decreases DEEPEST - depth, |text| - p, 2
  {
    var q := SkipSpace(text, p);
    var c := At(text, q);
    if (c == '+' || c == '-') && At(text, q + 1) == c then PreIncrement(text, q + 2, if c == '+' then 1 else -1, variables, depth)
    else if c == '+' || c == '-' || c == '!' || c == '~' then
      var operand := ParseUnary(text, q + 1, variables, depth);
      if operand.Stopped? then operand else operand.(value := Unary(c, operand.value))
    else ParsePostfix(text, q, variables, depth)
  }

  function Unary(c: char, value: int): (r: int)
    ensures InRange(value) ==> InRange(r)
  {
    if c == '-' then Wrap(-value) else if c == '!' then Truth(value == 0) else if c == '~' then -value - 1 else value
  }

  function PreIncrement(text: string, p: nat, delta: int, variables: Variables, depth: nat): (r: Reading)
    requires p <= |text| && depth <= DEEPEST
    ensures r.Reading? ==> p <= r.position <= |text|
    ensures r.Reading? ==> InRange(r.value)
    decreases DEEPEST - depth, |text| - p, 2
  {
    var start := SkipSpace(text, p);
    var end := IdentifierEnd(text, start);
    if end == start then Stopped(ExpectedVariable, variables) else
    match ReadVariable(variables, text[start..end], depth)
    case Failure(error, after) => Stopped(error, after)
    case Value(current, after) =>
      var value := Wrap(current + delta);
      Reading(value, end, Set(after, text[start..end], value))
  }

  function ParsePostfix(text: string, p: nat, variables: Variables, depth: nat): (r: Reading)
    requires p <= |text| && depth <= DEEPEST
    ensures r.Reading? ==> p <= r.position <= |text|
    ensures r.Reading? ==> InRange(r.value)
    decreases DEEPEST - depth, |text| - p, 1
  {
    var start := SkipSpace(text, p);
    if At(text, start) == '(' then
      var inner := ParseComma(text, start + 1, variables, depth);
      if inner.Stopped? then inner else
      var close := SkipSpace(text, inner.position);
      if At(text, close) != ')' then Stopped(ExpectedParenthesis, inner.variables) else inner.(position := close + 1)
    else if IsDecimal(At(text, start)) then ParseNumber(text, start, variables)
    else
      var end := IdentifierEnd(text, start);
      if end == start then Stopped(SyntaxError, variables) else
      match ReadVariable(variables, text[start..end], depth)
      case Failure(error, after) => Stopped(error, after)
      case Value(before, after) => Postfix(text, text[start..end], SkipSpace(text, end), before, after)
  }

  /** The `++` or `--` that may follow a variable. */
  function Postfix(text: string, name: string, q: nat, before: int, variables: Variables): (r: Reading)
    requires q <= |text|
    ensures r.Reading? && q <= r.position <= |text|
    ensures InRange(before) ==> InRange(r.value)
  {
    var c := At(text, q);
    if (c == '+' || c == '-') && At(text, q + 1) == c then
      Reading(before, q + 2, Set(variables, name, Wrap(if c == '+' then before + 1 else before - 1)))
    else Reading(before, q, variables)
  }
}
