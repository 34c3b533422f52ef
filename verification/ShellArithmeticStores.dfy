/**
 What arithmetic stores in a variable reads back as: as a number in the next expression, and in the
 text of the same one after a comma.
 */
module ShellArithmeticStores {
  import opened Wrappers
  import opened ShellIntegers
  import opened ShellArithmetic
  import opened ShellArithmeticPrinting
  import opened ShellArithmeticLaws

  // ---- a stored number reads back ----

  lemma TrimNone(s: string)
    requires s != "" && !IsBlank(s[0]) && !IsBlank(s[|s| - 1])
    ensures TrimRight(TrimLeft(s)) == s
  {}

  lemma ShownReads(n: int)
    requires InRange(n)
    ensures Direct(ShowNumber(n)) == Some(n) && ShowNumber(n) != ""
  {
    hide NumberIn, Decimal, TrimLeft, TrimRight;
    var digits := Decimal(if n < 0 then -n else n);
    DecimalNumber(if n < 0 then -n else n);
    TrimNone(ShowNumber(n));
    if n < 0 { assert ShowNumber(n)[1..] == digits; }
  }

  lemma {:induction false} TrimsLeft(blanks: string, s: string)
    requires (forall k :: 0 <= k < |blanks| ==> IsBlank(blanks[k])) && s != "" && !IsBlank(s[0])
    ensures TrimLeft(blanks + s) == s
  {
    if blanks == "" {
      assert blanks + s == s;
    } else {
      assert (blanks + s)[1..] == blanks[1..] + s;
      TrimsLeft(blanks[1..], s);
    }
  }

  lemma {:induction false} TrimsRight(s: string, blanks: string)
    requires (forall k :: 0 <= k < |blanks| ==> IsBlank(blanks[k])) && s != "" && !IsBlank(s[|s| - 1])
    ensures TrimRight(s + blanks) == s
  {
    if blanks == "" {
      assert s + blanks == s;
    } else {
      assert (s + blanks)[..|s + blanks| - 1] == s + blanks[..|blanks| - 1];
      TrimsRight(s, blanks[..|blanks| - 1]);
    }
  }

  /** A sign or none and digits, with blanks around them, read directly as their number if it is in range. */
  lemma DirectReads(before: string, sign: string, digits: string, after: string)
    requires forall k :: 0 <= k < |before| ==> IsBlank(before[k])
    requires forall k :: 0 <= k < |after| ==> IsBlank(after[k])
    requires (sign == "" || sign == "-" || sign == "+") && digits != "" && AllDecimal(digits)
    ensures var n := if sign == "-" then -NumberIn(digits, 10) else NumberIn(digits, 10);
            Direct(before + (sign + digits + after)) == if InRange(n) then Some(n) else None
  {
    hide TrimLeft, TrimRight, NumberIn;
    var s := sign + digits;
    assert s[|s| - 1] == digits[|digits| - 1] && !IsBlank(s[|s| - 1]) && !IsBlank(s[0]);
    assert (s + after)[0] == s[0];
    TrimsLeft(before, s + after);
    TrimsRight(s, after);
    if sign == "" { assert s == digits; } else { assert s[1..] == digits; }
  }

  /** Reading a variable after a number was stored in it gives the number and changes nothing. */
  lemma StoredReadsBack(variables: Variables, name: string, n: int, depth: nat)
    requires InRange(n) && depth < DEEPEST
    ensures var after := Set(variables, name, n);
            && ReadVariable(after, name, depth) == Value(n, after)
            && after.Keys == variables.Keys + {name}
            && forall other: string :: other in variables && other != name ==> after[other] == variables[other]
  {
    hide Direct, ShowNumber;
    ShownReads(n);
  }

  // ---- other names read as before ----

  /** Nowhere in the tree, nor in the text of any variable it reads, is `name` read. */
  ghost predicate Away(e: Expression, name: string, variables: Variables, depth: nat)
    requires depth <= DEEPEST
    decreases DEEPEST - depth, 1, e
  {
    match e
    case Number(_) => true
    case Variable(other) => AwayVariable(other, name, variables, depth)
    case Prefix(_, operand) => Away(operand, name, variables, depth)
    case Binary(_, left, right) => Away(left, name, variables, depth) && Away(right, name, variables, depth)
    case Conditional(condition, whenTrue, whenFalse) =>
      Away(condition, name, variables, depth) && Away(whenTrue, name, variables, depth) && Away(whenFalse, name, variables, depth)
    case _ => false
  }

  /** `other` holds a number, nothing, or the text of a tree that stays away from `name`. */
  ghost predicate AwayVariable(other: string, name: string, variables: Variables, depth: nat)
    requires depth <= DEEPEST
    decreases DEEPEST - depth, 0
  {
    && other != name
    && (depth == DEEPEST || other !in variables || variables[other] == "" || Direct(variables[other]).Some?
        || exists e: Expression :: WellFormed(e) && Prints(variables[other], e) && Away(e, name, variables, depth + 1))
  }

  /** The same value, or the same error, and each leaves its variables as they were. */
  ghost predicate Alike(a: Outcome, before: Variables, b: Outcome, after: Variables) {
    a.variables == before && b.variables == after && if a.Value? then b.Value? && b.value == a.value else b.Failure? && b.error == a.error
  }

  /** A tree that stays away from a variable evaluates as before whatever is stored in it. */
  lemma {:induction false} AwayEval(e: Expression, name: string, n: int, variables: Variables, depth: nat)
    requires depth <= DEEPEST && Away(e, name, variables, depth)
    ensures Alike(Eval(e, variables, depth), variables, Eval(e, Set(variables, name, n), depth), Set(variables, name, n))
    decreases DEEPEST - depth, 1, e
  {
    hide ReadVariable, Combine, Unary, Set, AwayVariable;
    match e
    case Number(_) =>
    case Variable(other) => AwayReads(other, name, n, variables, depth);
    case Prefix(_, operand) => AwayEval(operand, name, n, variables, depth);
    case Binary(op, left, right) =>
      AwayEval(left, name, n, variables, depth);
      AwayEval(right, name, n, variables, depth);
    case Conditional(condition, whenTrue, whenFalse) =>
      AwayEval(condition, name, n, variables, depth);
      AwayEval(whenTrue, name, n, variables, depth);
      AwayEval(whenFalse, name, n, variables, depth);
  }

  /** So does a variable that does not lead to it; one whose text names it does not. */
  lemma {:induction false} AwayReads(other: string, name: string, n: int, variables: Variables, depth: nat)
    requires depth <= DEEPEST && AwayVariable(other, name, variables, depth)
    ensures Alike(ReadVariable(variables, other, depth), variables, ReadVariable(Set(variables, name, n), other, depth), Set(variables, name, n))
    decreases DEEPEST - depth, 0
  {
    hide Direct, ShowNumber, Evaluate, Eval, Away, Prints, WellFormed;
    var after := Set(variables, name, n);
    assert other in after <==> other in variables;
    assert other in variables ==> after[other] == variables[other];
    if depth < DEEPEST && other in variables && variables[other] != "" && Direct(variables[other]).None? {
      var e: Expression :| WellFormed(e) && Prints(variables[other], e) && Away(e, name, variables, depth + 1);
      EvaluatePrinted(e, variables[other], variables, depth + 1);
      EvaluatePrinted(e, variables[other], after, depth + 1);
      AwayEval(e, name, n, variables, depth + 1);
    }
  }

  /** A variable whose text is the name of another reads as what is stored in that one. */
  lemma NamesAreFollowed(variables: Variables, other: string, name: string, n: int, depth: nat)
    requires InRange(n) && depth + 1 < DEEPEST && IsIdentifier(name)
    requires other != name && other in variables && variables[other] == name
    ensures var after := Set(variables, name, n); ReadVariable(after, other, depth) == Value(n, after)
  {
    hide Direct, ShowNumber, Evaluate, Eval, NumberIn;
    var after := Set(variables, name, n);
    StoredReadsBack(variables, name, n, depth + 1);
    NoNumber(name);
    NamePrints(name);
    EvaluatePrinted(Variable(name), name, after, depth + 1);
    EvalVariable(name, after, depth + 1);
  }

  lemma EvalVariable(name: string, variables: Variables, depth: nat)
    requires depth <= DEEPEST
    ensures Eval(Variable(name), variables, depth) == ReadVariable(variables, name, depth)
  {}

  lemma NoNumber(name: string)
    requires IsIdentifier(name)
    ensures Direct(name).None?
  {
    hide TrimLeft, TrimRight, NumberIn;
    assert !IsBlank(name[0]) && InName(name[|name| - 1]);
    TrimNone(name);
    assert !IsDecimal(name[0]);
  }

  lemma NamePrints(name: string)
    requires IsIdentifier(name)
    ensures Prints(name, Variable(name)) && WellFormed(Variable(name))
  {
    hide IsSpace;
    SpaceIsNoName();
    assert InName(name[0]);
    assert SkipSpace(name, 0) == 0;
    assert Tokens(Variable(name), 0) == [name] && [name][1..] == [];
    assert Spells(name, |name|, []);
    assert name[0..|name|] == name;
  }

  // ---- in the text ----

  lemma {:induction false} EvalInRange(e: Expression, variables: Variables, depth: nat)
    requires WellFormed(e) && depth <= DEEPEST
    ensures Eval(e, variables, depth).Value? ==> InRange(Eval(e, variables, depth).value)
  {
    hide ReadVariable, Combine, Unary, Set;
    match e
    case Prefix(_, operand) => EvalInRange(operand, variables, depth);
    case Binary(op, left, right) =>
      EvalInRange(left, variables, depth);
      var a := Eval(left, variables, depth);
      EvalInRange(right, a.variables, depth);
      var b := Eval(right, a.variables, depth);
      if a.Value? && b.Value? { CombineInRange(op, a.value, b.value); }
    case Conditional(condition, whenTrue, whenFalse) =>
      var c := Eval(condition, variables, depth);
      EvalInRange(whenTrue, c.variables, depth);
      EvalInRange(whenFalse, Eval(whenTrue, c.variables, depth).variables, depth);
    case Assign(name, applying, value) =>
      EvalInRange(value, variables, depth);
      var v := Eval(value, variables, depth);
      if applying.Some? && v.Value? {
        var current := ReadVariable(v.variables, name, depth);
        if current.Value? { CombineInRange(applying.value, current.value, v.value); }
      }
    case Comma(first, second) => EvalInRange(second, Eval(first, variables, depth).variables, depth);
    case _ =>
  }

  /** An assignment, plain or with an operator, or an increment in front. */
  predicate Stores(e: Expression) {
    e.Assign? || e.PreStep?
  }

  /** The text `e, x` after such an `e` for `x` evaluates to what `e` does alone: the value answered is the value left. */
  lemma LeavesItsValue(e: Expression, alone: string, both: string, variables: Variables, depth: nat)
    requires WellFormed(e) && Stores(e) && depth < DEEPEST
    requires Prints(alone, e) && Prints(both, Comma(e, Variable(e.name)))
    ensures Evaluate(variables, both, depth) == Evaluate(variables, alone, depth)
  {
    hide Prints, ReadVariable, Combine, Set, Eval, Evaluate;
    EvaluatePrinted(e, alone, variables, depth);
    EvaluatePrinted(Comma(e, Variable(e.name)), both, variables, depth);
    EvalInRange(e, variables, depth);
    EvalComma(e, Variable(e.name), variables, depth);
    var r := Eval(e, variables, depth);
    if r.Value? {
      EvalVariable(e.name, r.variables, depth);
      var before := LastStored(e, variables, depth);
      StoredReadsBack(before, e.name, r.value, depth);
    }
  }

  lemma EvalComma(first: Expression, second: Expression, variables: Variables, depth: nat)
    requires depth <= DEEPEST
    ensures Eval(Comma(first, second), variables, depth) ==
            match Eval(first, variables, depth)
            case Failure(error, after) => Failure(error, after)
            case Value(_, after) => Eval(second, after, depth)
  {
    hide ReadVariable, Evaluate, Combined, Stored, Stepped, Unary;
  }

  /** The last thing it does is to store its value. */
  lemma LastStored(e: Expression, variables: Variables, depth: nat) returns (before: Variables)
    requires Stores(e) && depth <= DEEPEST && Eval(e, variables, depth).Value?
    ensures Eval(e, variables, depth).variables == Set(before, e.name, Eval(e, variables, depth).value)
  {
    hide ReadVariable, Combine, Set;
    match e
    case Assign(name, applying, value) =>
      var v := Eval(value, variables, depth);
      before := if applying.None? then v.variables else ReadVariable(v.variables, name, depth).variables;
    case PreStep(name, _) => before := ReadVariable(variables, name, depth).variables;
  }

  /** A plain assignment answers what its right side does. */
  lemma AssignAnswers(name: string, e: Expression, alone: string, both: string, variables: Variables, depth: nat)
    requires WellFormed(e) && IsIdentifier(name) && depth < DEEPEST
    requires Prints(alone, e) && Prints(both, Comma(Assign(name, None, e), Variable(name)))
    ensures var v, r := Evaluate(variables, alone, depth), Evaluate(variables, both, depth);
            if v.Failure? then r == v
            else && r.Value? && r.value == v.value && r.variables.Keys == v.variables.Keys + {name}
                 && forall other: string :: other in v.variables && other != name ==> r.variables[other] == v.variables[other]
  {
    hide Prints, ReadVariable, Combine, Eval, Evaluate, Set;
    EvaluatePrinted(e, alone, variables, depth);
    EvaluatePrinted(Comma(Assign(name, None, e), Variable(name)), both, variables, depth);
    EvalComma(Assign(name, None, e), Variable(name), variables, depth);
    EvalAssign(name, None, e, variables, depth);
    EvalInRange(e, variables, depth);
    var v := Eval(e, variables, depth);
    if v.Value? {
      StoredReadsBack(v.variables, name, v.value, depth);
      EvalVariable(name, Set(v.variables, name, v.value), depth);
    }
  }

  lemma EvalAssign(name: string, applying: Option<Operator>, e: Expression, variables: Variables, depth: nat)
    requires depth <= DEEPEST
    ensures var v := Eval(e, variables, depth);
            Eval(Assign(name, applying, e), variables, depth) == if v.Value? then Stored(name, applying, v.value, v.variables, depth) else v
  {
    hide ReadVariable, Combine, Set;
  }

  /** `x op= e` is `x = x op e` wherever the order of the two reads cannot be told, and `++x` is `x = x + 1`. */
  lemma CompoundIsBinary(name: string, op: Operator, e: Expression, variables: Variables, depth: nat)
    requires depth <= DEEPEST && Quiet(e) && QuietVariables(variables, depth) && Eval(e, variables, depth).Value?
    ensures Eval(Assign(name, Some(op), e), variables, depth) == Eval(Assign(name, None, Binary(op, Variable(name), e)), variables, depth)
  {
    hide ReadVariable, Combine, Set;
    QuietEval(e, variables, depth);
    assert ReadVariable(variables, name, depth).variables == variables;
    EvalVariable(name, variables, depth);
  }

  lemma EvalOneMore(name: string, op: Operator, variables: Variables, depth: nat)
    requires depth <= DEEPEST
    ensures var r := ReadVariable(variables, name, depth);
            Eval(Binary(op, Variable(name), Number(1)), variables, depth) == if r.Value? then Combined(op, r.value, 1, r.variables) else r
  {
    hide ReadVariable, Evaluate, Combined;
  }

  lemma StepIsAssignment(name: string, up: bool, variables: Variables, depth: nat)
    requires depth <= DEEPEST
    ensures Eval(PreStep(name, up), variables, depth)
            == Eval(Assign(name, None, Binary(if up then Add else Subtract, Variable(name), Number(1))), variables, depth)
    ensures Eval(PostStep(name, up), variables, depth).variables == Eval(PreStep(name, up), variables, depth).variables
    ensures var r := ReadVariable(variables, name, depth);
            r.Value? ==> Eval(PostStep(name, up), variables, depth).Value? && Eval(PostStep(name, up), variables, depth).value == r.value
  {
    hide ReadVariable, Evaluate, Set, Wrap;
    var op := if up then Add else Subtract;
    EvalAssign(name, None, Binary(op, Variable(name), Number(1)), variables, depth);
    EvalOneMore(name, op, variables, depth);
  }
}
