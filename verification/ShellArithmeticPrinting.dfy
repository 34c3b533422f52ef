/**
 Arithmetic expressions as trees, printed with the fewest parentheses. Evaluating the text of
 a tree gives the tree's value, whatever blanks separate its tokens.
 */
module ShellArithmeticPrinting {
  import opened Wrappers
  import opened ShellIntegers
  import opened ShellArithmetic

  datatype Expression =
    | Number(n: nat)
    | Variable(name: string)
    | Prefix(sign: char, operand: Expression)
    | Binary(op: Operator, left: Expression, right: Expression)
    | Conditional(condition: Expression, whenTrue: Expression, whenFalse: Expression)
    | Assign(name: string, applying: Option<Operator>, value: Expression)
    | Comma(first: Expression, second: Expression)
    | PreStep(name: string, up: bool)
    | PostStep(name: string, up: bool)

  // ---- what a tree means ----

  function Combined(op: Operator, a: int, b: int, variables: Variables): Outcome {
    match Combine(op, a, b)
    case Ok(value) => Value(value, variables)
    case Err(error) => Failure(error, variables)
  }

  function Stored(name: string, applying: Option<Operator>, value: int, variables: Variables, depth: nat): Outcome
    requires depth <= DEEPEST
  {
    match applying
    case None => Value(value, Set(variables, name, value))
    case Some(op) =>
      match ReadVariable(variables, name, depth)
      case Failure(error, after) => Failure(error, after)
      case Value(current, after) =>
        match Combine(op, current, value)
        case Err(error) => Failure(error, after)
        case Ok(result) => Value(result, Set(after, name, result))
  }

  function Stepped(name: string, up: bool, post: bool, variables: Variables, depth: nat): Outcome
    requires depth <= DEEPEST
  {
    match ReadVariable(variables, name, depth)
    case Failure(error, after) => Failure(error, after)
    case Value(current, after) =>
      var next := Wrap(if up then current + 1 else current - 1);
      Value(if post then current else next, Set(after, name, next))
  }

  /** Every operand is evaluated, left to right, those of `&&`, `||` and `?:` included. */
  function Eval(e: Expression, variables: Variables, depth: nat): Outcome
    requires depth <= DEEPEST
  {
    match e
    case Number(n) => Value(n, variables)
    case Variable(name) => ReadVariable(variables, name, depth)
    case Prefix(sign, operand) =>
      (match Eval(operand, variables, depth)
       case Failure(error, after) => Failure(error, after)
       case Value(value, after) => Value(Unary(sign, value), after))
    case Binary(op, left, right) =>
      (match Eval(left, variables, depth)
       case Failure(error, after) => Failure(error, after)
       case Value(a, after) =>
         match Eval(right, after, depth)
         case Failure(error, last) => Failure(error, last)
         case Value(b, last) => Combined(op, a, b, last))
    case Conditional(condition, whenTrue, whenFalse) =>
      (match Eval(condition, variables, depth)
       case Failure(error, after) => Failure(error, after)
       case Value(c, after) =>
         match Eval(whenTrue, after, depth)
         case Failure(error, later) => Failure(error, later)
         case Value(t, later) =>
           match Eval(whenFalse, later, depth)
           case Failure(error, last) => Failure(error, last)
           case Value(f, last) => Value(if c != 0 then t else f, last))
    case Assign(name, applying, value) =>
      (match Eval(value, variables, depth)
       case Failure(error, after) => Failure(error, after)
       case Value(v, after) => Stored(name, applying, v, after, depth))
    case Comma(first, second) =>
      (match Eval(first, variables, depth)
       case Failure(error, after) => Failure(error, after)
       case Value(_, after) => Eval(second, after, depth))
    case PreStep(name, up) => Stepped(name, up, false, variables, depth)
    case PostStep(name, up) => Stepped(name, up, true, variables, depth)
  }

  // ---- printing ----

  function LevelOf(op: Operator): nat {
    match op
    case Or => 3
    case And => 4
    case BitOr => 5
    case BitXor => 6
    case BitAnd => 7
    case Equal | NotEqual => 8
    case Less | LessEqual | Greater | GreaterEqual => 9
    case ShiftLeft | ShiftRight => 10
    case Add | Subtract => 11
    case Multiply | Divide | Modulo => 12
    case Exponent => 13
  }

  function Spelling(op: Operator): (s: string)
    ensures 1 <= |s| <= 2
  {
    match op
    case Or => "||"
    case And => "&&"
    case BitOr => "|"
    case BitXor => "^"
    case BitAnd => "&"
    case Equal => "=="
    case NotEqual => "!="
    case Less => "<"
    case LessEqual => "<="
    case Greater => ">"
    case GreaterEqual => ">="
    case ShiftLeft => "<<"
    case ShiftRight => ">>"
    case Add => "+"
    case Subtract => "-"
    case Multiply => "*"
    case Divide => "/"
    case Modulo => "%"
    case Exponent => "**"
  }

  predicate Assignable(op: Operator) {
    op in {ShiftLeft, ShiftRight, Add, Subtract, Multiply, Divide, Modulo, BitAnd, BitOr, BitXor}
  }

  predicate IsIdentifier(name: string) {
    name != "" && StartsName(name[0]) && forall k :: 0 <= k < |name| ==> InName(name[k])
  }

  predicate WellFormed(e: Expression) {
    match e
    case Number(n) => n <= MAX
    case Variable(name) => IsIdentifier(name)
    case Prefix(sign, operand) => sign in "+-!~" && WellFormed(operand)
    case Binary(_, left, right) => WellFormed(left) && WellFormed(right)
    case Conditional(condition, whenTrue, whenFalse) => WellFormed(condition) && WellFormed(whenTrue) && WellFormed(whenFalse)
    case Assign(name, applying, value) => IsIdentifier(name) && (applying.Some? ==> Assignable(applying.value)) && WellFormed(value)
    case Comma(first, second) => WellFormed(first) && WellFormed(second)
    case PreStep(name, _) => IsIdentifier(name)
    case PostStep(name, _) => IsIdentifier(name)
  }

  /** How tightly a tree's own operator binds. */
  function Level(e: Expression): (r: nat)
    ensures r <= 15
  {
    match e
    case Comma(_, _) => 0
    case Assign(_, _, _) => 1
    case Conditional(_, _, _) => 2
    case Binary(op, _, _) => LevelOf(op)
    case Prefix(_, _) => 14
    case PreStep(_, _) => 14
    case Number(_) => 15
    case Variable(_) => 15
    case PostStep(_, _) => 15
  }

  function Twice(up: bool): string {
    if up then "++" else "--"
  }

  function AssignSpelling(applying: Option<Operator>): string {
    (if applying.Some? then Spelling(applying.value) else "") + "="
  }

  /** The tokens of `e` where something of at least `level` is wanted: in parentheses if it binds less. */
  function Tokens(e: Expression, level: nat): seq<string>
    decreases e, 1
  {
    if Level(e) < level then ["("] + Body(e) + [")"] else Body(e)
  }

  function Body(e: Expression): seq<string>
    decreases e, 0
  {
    match e
    case Number(n) => [Decimal(n)]
    case Variable(name) => [name]
    case Prefix(sign, operand) => [[sign]] + Tokens(operand, 14)
    case Binary(op, left, right) =>
      if op.Exponent? then Tokens(left, 14) + [Spelling(op)] + Tokens(right, 13)
      else Tokens(left, LevelOf(op)) + [Spelling(op)] + Tokens(right, LevelOf(op) + 1)
    case Conditional(condition, whenTrue, whenFalse) =>
      Tokens(condition, 3) + ["?"] + Tokens(whenTrue, 1) + [":"] + Tokens(whenFalse, 1)
    case Assign(name, applying, value) => [name, AssignSpelling(applying)] + Tokens(value, 1)
    case Comma(first, second) => Tokens(first, 0) + [","] + Tokens(second, 1)
    case PreStep(name, up) => [Twice(up), name]
    case PostStep(name, up) => [name, Twice(up)]
  }

  // ---- layout ----

  predicate IsOperatorCharacter(c: char) {
    c in "+-*/%<>=!&|^~?:,"
  }

  /** Whether `c` directly after the token `t` cannot be taken for part of it. */
  predicate Apart(t: string, c: char) {
    IsSpace(c) || t == "(" || t == ")" ||
    if t != "" && InName(t[0]) then !InName(c) && c != '#' && c != '[' else !IsOperatorCharacter(c)
  }

  /** From `p` on the text is these tokens, with any blanks between them and none missing. */
  ghost predicate Spells(text: string, p: nat, tokens: seq<string>)
    decreases |tokens|
  {
    && p <= |text|
    && var q := SkipSpace(text, p);
       if tokens == [] then q == |text| else
       var end := q + |tokens[0]|;
       && end <= |text| && text[q..end] == tokens[0]
       && (end < |text| ==> Apart(tokens[0], text[end]))
       && Spells(text, end, tokens[1..])
  }

  // ---- tokens that may follow an expression ----

  datatype Mark = OperatorMark(op: Operator) | Question | Colon | Separator | Close

  function MarkText(m: Mark): string {
    match m
    case OperatorMark(op) => Spelling(op)
    case Question => "?"
    case Colon => ":"
    case Separator => ","
    case Close => ")"
  }

  function MarkLevel(m: Mark): int {
    match m
    case OperatorMark(op) => LevelOf(op)
    case Question => 2
    case Colon => 0
    case Separator => 0
    case Close => -1
  }

  /** What follows does not go on an expression of this level. */
  ghost predicate Stops(rest: seq<string>, level: nat) {
    rest == [] || exists m: Mark :: rest[0] == MarkText(m) && MarkLevel(m) < level
  }

  /** What the next three characters show of a mark, or of the end of the text. */
  predicate Shows(m: Mark, a: char, b: char, c: char) {
    var t := MarkText(m);
    && a == t[0]
    && (m.Close? || if |t| == 1 then !IsOperatorCharacter(b) else b == t[1] && !IsOperatorCharacter(c))
  }

  lemma MarkShows(text: string, p: nat, m: Mark, more: seq<string>)
    requires Spells(text, p, [MarkText(m)] + more)
    ensures var q := SkipSpace(text, p);
            Shows(m, At(text, q), At(text, q + 1), At(text, q + 2)) && Spells(text, q + |MarkText(m)|, more)
  {
    hide SkipSpace, MarkText, IsOperatorCharacter, Apart, Spells;
    var t := MarkText(m);
    MarkIs(m);
    var q := TokenAt(text, p, t, more);
    var end := q + |t|;
    assert At(text, q + 0) == t[0];
    if end < |text| { MarkApart(m, At(text, end)); }
    NotSpaceOperator();
    if |t| == 2 { assert At(text, q + 1) == t[1]; }
  }

  lemma MarkApart(m: Mark, c: char)
    requires Apart(MarkText(m), c)
    ensures m.Close? || !IsOperatorCharacter(c)
  {
    hide MarkText;
    MarkIs(m);
    NotSpaceOperator();
  }

  lemma MarkIs(m: Mark)
    ensures var t := MarkText(m); 1 <= |t| <= 2 && t != "(" && (t == ")" <==> m.Close?) && !InName(t[0])
  {}

  /** The first token: where it is, its characters, and what may follow it. */
  lemma TokenAt(text: string, p: nat, t: string, more: seq<string>) returns (q: nat)
    requires Spells(text, p, [t] + more)
    ensures q == SkipSpace(text, p) && p <= q && q + |t| <= |text| && text[q..q + |t|] == t
    ensures forall k :: 0 <= k < |t| ==> At(text, q + k) == t[k]
    ensures q + |t| < |text| ==> Apart(t, At(text, q + |t|))
    ensures q + |t| == |text| ==> At(text, q + |t|) == '\0'
    ensures Spells(text, q + |t|, more)
  {
    hide SkipSpace, Apart;
    q := SkipSpace(text, p);
    assert ([t] + more)[1..] == more;
    forall k | 0 <= k < |t| ensures At(text, q + k) == t[k] {
      assert text[q..q + |t|][k] == text[q + k];
    }
  }

  lemma NotSpaceOperator()
    ensures forall c :: IsOperatorCharacter(c) ==> !IsSpace(c)
    ensures !IsOperatorCharacter('\0')
  {}

  lemma MarkOperator(level: nat, m: Mark, a: char, b: char, c: char)
    requires Shows(m, a, b, c) && 3 <= level <= 12
    ensures OperatorAt(level, a, b, c) ==
            if m.OperatorMark? && LevelOf(m.op) == level then Some((m.op, |Spelling(m.op)|)) else None
  {}

  lemma MarkOthers(m: Mark, a: char, b: char, c: char)
    requires Shows(m, a, b, c)
    ensures AssignmentAt(a, b, c) == None
    ensures (a == '*' && b == '*') <==> m == OperatorMark(Exponent)
    ensures a == '?' <==> m == Question
    ensures a == ':' <==> m == Colon
    ensures a == ',' <==> m == Separator
    ensures a == ')' <==> m == Close
    ensures !((a == '+' || a == '-') && b == a)
  {}
}
