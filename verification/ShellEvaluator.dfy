/**
 The evaluator itself: one position in the text and the shell's variables, both changed in
 place as each level is read. Every method is proved to do what the function of its name says.
 */
module ShellEvaluator {
  import opened Wrappers
  import opened ShellIntegers
  import opened ShellArithmetic

  /** Evaluates an expression, or a variable's text one level deeper. */
  method EvaluateInternal(variables: Variables, expression: string, depth: nat) returns (outcome: Outcome)
    requires depth <= DEEPEST
    ensures outcome == Evaluate(variables, expression, depth)
    decreases DEEPEST - depth, |expression| + 1, 30
  {
    var evaluator := new ArithmeticEvaluator(variables, expression, depth);
    evaluator.SkipWhitespace();
    if evaluator.position == |expression| {
      return Value(0, variables);
    }
    evaluator.position := 0;
    var value := evaluator.ParseCommaExpression();
    if value.Err? {
      return Failure(value.error, evaluator.variables);
    }
    evaluator.SkipWhitespace();
    if evaluator.position < |expression| {
      return Failure(SyntaxError, evaluator.variables);
    }
    outcome := Value(value.value, evaluator.variables);
  }

  class ArithmeticEvaluator {
    const text: string
    const depth: nat
    var position: nat
    var variables: Variables

    ghost predicate Valid()
      reads this
    {
      position <= |text| && depth <= DEEPEST
    }

    /** The method's result and the fields are what a reading says. */
    ghost predicate Agrees(r: Result<int>, reading: Reading)
      reads this
    {
      match reading
      case Reading(value, end, after) => r == Ok(value) && position == end && variables == after
      case Stopped(error, after) => r == Err(error) && variables == after
    }

    constructor (variables: Variables, text: string, depth: nat)
      requires depth <= DEEPEST
      ensures Valid() && this.text == text && this.depth == depth && position == 0 && this.variables == variables
    {
      this.text, this.depth, position, this.variables := text, depth, 0, variables;
    }

    method SkipWhitespace()
      requires Valid()
      modifies `position
      ensures Valid() && position == SkipSpace(text, old(position)) == SkipSpace(text, position)
    {
      SkipTwice(text, position);
      while position < |text| && IsSpace(text[position])
        invariant Valid() && SkipSpace(text, position) == SkipSpace(text, old(position))
      {
        position := position + 1;
      }
    }

    /** The identifier after any blanks, or "" where there is none. */
    method TryReadIdentifier() returns (name: string)
      requires Valid()
      modifies `position
      ensures Valid()
      ensures var start := SkipSpace(text, old(position));
              var end := IdentifierEnd(text, start);
              position == end && name == text[start..end] && (name == "" <==> end == start)
    {
      SkipWhitespace();
      if !StartsName(At(text, position)) {
        return "";
      }
      var start := position;
      while position < |text| && InName(text[position])
        invariant start <= position <= |text| && Valid() && NameEnd(text, position) == NameEnd(text, start)
      {
        position := position + 1;
      }
      name := text[start..position];
    }

    method ReadVariable(name: string) returns (r: Result<int>)
      requires Valid()
      modifies `variables
      ensures match ShellArithmetic.ReadVariable(old(variables), name, depth)
              case Value(value, after) => r == Ok(value) && variables == after
              case Failure(error, after) => r == Err(error) && variables == after
      decreases DEEPEST - depth, 0, 0
    {
      if depth >= DEEPEST {
        return Err(RecursionTooDeep);
      }
      if name !in variables || variables[name] == "" {
        return Ok(0);
      }
      var direct := Direct(variables[name]);
      if direct.Some? {
        return Ok(direct.value);
      }
      var outcome := EvaluateInternal(variables, variables[name], depth + 1);
      variables := outcome.variables;
      r := if outcome.Value? then Ok(outcome.value) else Err(outcome.error);
    }

    method ParseCommaExpression() returns (r: Result<int>)
      requires Valid()
      modifies this
      ensures Valid() && Agrees(r, ParseComma(text, old(position), old(variables), depth))
      decreases DEEPEST - depth, |text| - position, 20
    {
      hide ShellArithmetic.ParseAssignment, CommaLoop;
      r := ParseAssignment();
      if r.Err? {
        return;
      }
      ghost var all := ParseComma(text, old(position), old(variables), depth);
      CommaStep(text, Reading(r.value, position, variables), depth);
      SkipWhitespace();
      while At(text, position) == ','
        invariant Valid() && r.Ok? && old(position) <= position
        invariant position == SkipSpace(text, position)
        invariant all == CommaNext(text, Reading(r.value, position, variables), depth)
        decreases |text| - position
      {
        position := position + 1;
        r := ParseAssignment();
        if r.Err? {
          return;
        }
        CommaStep(text, Reading(r.value, position, variables), depth);
        SkipWhitespace();
      }
    }

    method ParseAssignment() returns (r: Result<int>)
      requires Valid()
      modifies this
      ensures Valid() && Agrees(r, ShellArithmetic.ParseAssignment(text, old(position), old(variables), depth))
      decreases DEEPEST - depth, |text| - position, 18
    {
      hide ShellArithmetic.ParseTernary, AssignmentAt, ShellArithmetic.ReadVariable, Combine, Set, IdentifierEnd, SkipSpace;
      var save := position;
      var name := TryReadIdentifier();
      if name != "" {
        SkipWhitespace();
        var operator := AssignmentAt(At(text, position), At(text, position + 1), At(text, position + 2));
        if operator.Some? {
          position := position + operator.value.1;
          var operand := ParseAssignment();
          if operand.Err? {
            return operand;
          }
          var result := operand.value;
          if operator.value.0.Some? {
            var current := ReadVariable(name);
            if current.Err? {
              return current;
            }
            r := Combine(operator.value.0.value, current.value, operand.value);
            if r.Err? {
              return;
            }
            result := r.value;
          }
          variables := Set(variables, name, result);
          return Ok(result);
        }
      }
      position := save;
      r := ParseTernary();
    }

    method ParseTernary() returns (r: Result<int>)
      requires Valid()
      modifies this
      ensures Valid() && Agrees(r, ShellArithmetic.ParseTernary(text, old(position), old(variables), depth))
      decreases DEEPEST - depth, |text| - position, 17
    {
      hide ShellArithmetic.ParseLevel, ShellArithmetic.ParseAssignment;
      var condition := ParseBinary(3);
      if condition.Err? {
        return condition;
      }
      SkipWhitespace();
      if At(text, position) != '?' {
        return condition;
      }
      position := position + 1;
      var whenTrue := ParseAssignment();
      if whenTrue.Err? {
        return whenTrue;
      }
      SkipWhitespace();
      if At(text, position) != ':' {
        return Err(ExpectedColon);
      }
      position := position + 1;
      var whenFalse := ParseAssignment();
      if whenFalse.Err? {
        return whenFalse;
      }
      r := Ok(if condition.value != 0 then whenTrue.value else whenFalse.value);
    }

    /** One level of binary operators, `||` at 3 up to `*` at 12; above them is `**`. */
    method ParseBinary(level: nat) returns (r: Result<int>)
      requires Valid() && 3 <= level <= 13
      modifies this
      ensures Valid() && Agrees(r, ParseLevel(level, text, old(position), old(variables), depth))
      decreases DEEPEST - depth, |text| - position, 17 - level
    {
      hide OperatorAt, ShellArithmetic.ParsePower, Combine, LevelLoop;
      if level == 13 {
        r := ParsePower();
        return;
      }
      r := ParseBinary(level + 1);
      if r.Ok? {
        r := ParseOperators(level, r.value);
      }
    }

    /** The operators of one level, and their right operands, after a left one. */
    method ParseOperators(level: nat, left: int) returns (r: Result<int>)
      requires Valid() && 3 <= level <= 12
      modifies this
      ensures Valid() && Agrees(r, LevelLoop(level, text, Reading(left, old(position), old(variables)), depth))
      decreases DEEPEST - depth, |text| - position, 0
    {
      hide OperatorAt, ParseLevel, Combine, LevelLoop;
      ghost var all := LevelLoop(level, text, Reading(left, position, variables), depth);
      LevelStep(level, text, Reading(left, position, variables), depth);
      SkipWhitespace();
      r := Ok(left);
      var operator := OperatorAt(level, At(text, position), At(text, position + 1), At(text, position + 2));
      while operator.Some?
        invariant Valid() && r.Ok? && old(position) <= position && position == SkipSpace(text, position)
        invariant operator == OperatorAt(level, At(text, position), At(text, position + 1), At(text, position + 2))
        invariant all == LevelNext(level, text, Reading(r.value, position, variables), depth)
        decreases |text| - position
      {
        position := position + operator.value.1;
        var right := ParseBinary(level + 1);
        if right.Err? {
          return right;
        }
        r := Combine(operator.value.0, r.value, right.value);
        if r.Err? {
          return;
        }
        LevelStep(level, text, Reading(r.value, position, variables), depth);
        SkipWhitespace();
        operator := OperatorAt(level, At(text, position), At(text, position + 1), At(text, position + 2));
      }
    }

    method ParsePower() returns (r: Result<int>)
      requires Valid()
      modifies this
      ensures Valid() && Agrees(r, ShellArithmetic.ParsePower(text, old(position), old(variables), depth))
      decreases DEEPEST - depth, |text| - position, 3
    {
      hide ShellArithmetic.ParseUnary, PowerOf;
      r := ParseUnary();
      if r.Err? {
        return;
      }
      SkipWhitespace();
      if At(text, position) == '*' && At(text, position + 1) == '*' {
        position := position + 2;
        var exponent := ParsePower();
        if exponent.Err? {
          return exponent;
        }
        var value := Power(r.value, exponent.value);
        r := Ok(value);
      }
    }

    method ParseUnary() returns (r: Result<int>)
      requires Valid()
      modifies this
      ensures Valid() && Agrees(r, ShellArithmetic.ParseUnary(text, old(position), old(variables), depth))
      decreases DEEPEST - depth, |text| - position, 2
    {
      hide ShellArithmetic.ParsePostfix, ShellArithmetic.ReadVariable;
      SkipWhitespace();
      var c := At(text, position);
      if (c == '+' || c == '-') && At(text, position + 1) == c {
        position := position + 2;
        r := PreIncrement(if c == '+' then 1 else -1);
      } else if c == '+' || c == '-' || c == '!' || c == '~' {
        position := position + 1;
        r := ParseUnary();
        if r.Ok? {
          r := Ok(Unary(c, r.value));
        }
      } else {
        r := ParsePostfix();
      }
    }

    method PreIncrement(delta: int) returns (r: Result<int>)
      requires Valid()
      modifies this
      ensures Valid() && Agrees(r, ShellArithmetic.PreIncrement(text, old(position), delta, old(variables), depth))
      decreases DEEPEST - depth, |text| - position, 2
    {
      hide ShellArithmetic.ReadVariable, IdentifierEnd, SkipSpace, Set, Wrap;
      var name := TryReadIdentifier();
      if name == "" {
        return Err(ExpectedVariable);
      }
      r := ReadVariable(name);
      if r.Ok? {
        r := Ok(Wrap(r.value + delta));
        variables := Set(variables, name, r.value);
      }
    }

    method ParsePostfix() returns (r: Result<int>)
      requires Valid()
      modifies this
      ensures Valid() && Agrees(r, ShellArithmetic.ParsePostfix(text, old(position), old(variables), depth))
      decreases DEEPEST - depth, |text| - position, 1
    {
      hide ParseComma, ShellArithmetic.ReadVariable, ShellArithmetic.ParseNumber, Set, IdentifierEnd, SkipSpace;
      SkipWhitespace();
      if At(text, position) == '(' {
        position := position + 1;
        r := ParseCommaExpression();
        if r.Err? {
          return;
        }
        SkipWhitespace();
        if At(text, position) != ')' {
          return Err(ExpectedParenthesis);
        }
        position := position + 1;
        return;
      }
      if IsDecimal(At(text, position)) {
        r := ParseNumber();
        return;
      }
      var name := TryReadIdentifier();
      if name == "" {
        return Err(SyntaxError);
      }
      r := ReadVariable(name);
      if r.Err? {
        return;
      }
      SkipWhitespace();
      var c := At(text, position);
      if (c == '+' || c == '-') && At(text, position + 1) == c {
        position := position + 2;
        variables := Set(variables, name, Wrap(if c == '+' then r.value + 1 else r.value - 1));
      }
    }

    method ParseNumber() returns (r: Result<int>)
      requires Valid() && position < |text| && IsDecimal(text[position])
      modifies this
      ensures Valid() && Agrees(r, ShellArithmetic.ParseNumber(text, old(position), old(variables)))
    {
      hide Literal, InBase;
      var start := position;
      while position < |text| && IsAlphanumeric(text[position])
        invariant start <= position <= |text| && Valid() && variables == old(variables)
        invariant AlphanumericEnd(text, position) == AlphanumericEnd(text, start)
      {
        position := position + 1;
      }
      if At(text, position) == '#' {
        var radix := text[start..position];
        position := position + 1;
        var digitStart := position;
        while position < |text| && (IsAlphanumeric(text[position]) || text[position] == '@' || text[position] == '_')
          invariant digitStart <= position <= |text| && Valid() && variables == old(variables)
          invariant DigitsEnd(text, position) == DigitsEnd(text, digitStart)
        {
          position := position + 1;
        }
        r := ParseInBase(text[digitStart..position], if AllDecimal(radix) then NumberIn(radix, 10) else -1);
        return;
      }
      r := Literal(text[start..position]);
    }
  }

  lemma LevelStep(level: nat, text: string, left: Reading, depth: nat)
    requires 3 <= level <= 12 && left.Reading? && left.position <= |text| && depth <= DEEPEST
    ensures LevelLoop(level, text, left, depth) == LevelNext(level, text, left.(position := SkipSpace(text, left.position)), depth)
  {
    hide LevelNext;
  }

  ghost function CommaNext(text: string, left: Reading, depth: nat): Reading
    requires left.Reading? && left.position <= |text| && depth <= DEEPEST
  {
    if At(text, left.position) != ',' then left else
    var next := ShellArithmetic.ParseAssignment(text, left.position + 1, left.variables, depth);
    if next.Stopped? then next else CommaLoop(text, next, depth)
  }

  lemma CommaStep(text: string, left: Reading, depth: nat)
    requires left.Reading? && left.position <= |text| && depth <= DEEPEST
    ensures CommaLoop(text, left, depth) == CommaNext(text, left.(position := SkipSpace(text, left.position)), depth)
  {}
}
