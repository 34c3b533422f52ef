/**
 Text that is no expression: what is evaluated before an error is noticed, and which error it is.
 */
module ShellArithmeticRefusals {
  import opened Wrappers
  import opened ShellIntegers
  import opened ShellArithmetic
  import opened ShellArithmeticPrinting
  import opened ShellArithmeticLaws
  import opened ShellArithmeticStores

  /** What is evaluated is evaluated; then the error. */
  function Then(o: Outcome, error: Error): Outcome {
    match o
    case Failure(earlier, after) => Failure(earlier, after)
    case Value(_, after) => Failure(error, after)
  }

  // ---- nothing to evaluate ----

  /** Blank text is nought, and so is a variable that is not set, or set to nothing. */
  lemma NothingIsNought(variables: Variables, text: string, name: string, depth: nat)
    requires forall k :: 0 <= k < |text| ==> IsSpace(text[k])
    requires name !in variables || variables[name] == ""
    ensures depth <= DEEPEST ==> Evaluate(variables, text, depth) == Value(0, variables)
    ensures depth < DEEPEST ==> ReadVariable(variables, name, depth) == Value(0, variables)
  {
    hide IsSpace;
    SkipsAll(text, 0);
  }

  lemma {:induction false} SkipsAll(text: string, p: nat)
    requires p <= |text| && forall k :: p <= k < |text| ==> IsSpace(text[k])
    ensures SkipSpace(text, p) == |text|
    decreases |text| - p
  {
    hide IsSpace;
    if p < |text| { SkipsAll(text, p + 1); }
  }

  // ---- variables that lead to themselves ----

  /** A variable whose text is its own name cannot be read, however deep the reading began. */
  lemma {:induction false} SelfReferenceFails(variables: Variables, name: string, depth: nat)
    requires IsIdentifier(name) && name in variables && variables[name] == name && depth <= DEEPEST
    ensures ReadVariable(variables, name, depth) == Failure(RecursionTooDeep, variables)
    decreases DEEPEST - depth
  {
    hide Direct, Evaluate, Eval;
    if depth < DEEPEST {
      SelfReferenceFails(variables, name, depth + 1);
      NoNumber(name);
      NamePrints(name);
      EvaluatePrinted(Variable(name), name, variables, depth + 1);
      EvalVariable(name, variables, depth + 1);
    }
  }

  // ---- text that goes on, or stops, where it should not ----

  /** A parenthesis too many at the end: the expression is evaluated, and then it is a syntax error. */
  lemma CloseTooMany(e: Expression, text: string, variables: Variables, depth: nat)
    requires WellFormed(e) && depth <= DEEPEST && Spells(text, 0, Tokens(e, 0) + [")"])
    ensures Evaluate(variables, text, depth) == Then(Eval(e, variables, depth), SyntaxError)
  {
    hide Spells, Tokens, Eval, ParseComma, SkipSpace;
    StopsMore(Close, [], 0);
    assert [")"] + [] == [")"];
    Reads(e, 0, text, 0, [")"], variables, depth);
    TokenThere(e, text, [")"]);
    var r := ParseComma(text, 0, variables, depth);
    if r.Reading? { SomethingLeft(text, r.position, ")", []); }
  }

  lemma SomethingLeft(text: string, p: nat, t: string, more: seq<string>)
    requires Spells(text, p, [t] + more) && t != ""
    ensures SkipSpace(text, p) < |text|
  {}

  lemma TokenThere(e: Expression, text: string, rest: seq<string>)
    requires WellFormed(e) && Spells(text, 0, Tokens(e, 0) + rest)
    ensures SkipSpace(text, 0) < |text|
  {
    hide Spells, Tokens, SkipSpace;
    SomeToken(e, 0);
    var tokens := Tokens(e, 0) + rest;
    assert tokens == [tokens[0]] + tokens[1..];
    SomethingLeft(text, 0, tokens[0], tokens[1..]);
  }

  /** One too few: what stands inside is evaluated, and then the close is missing. */
  lemma CloseMissing(e: Expression, text: string, variables: Variables, depth: nat)
    requires WellFormed(e) && depth <= DEEPEST && Spells(text, 0, ["("] + Tokens(e, 0))
    ensures Evaluate(variables, text, depth) == Then(Eval(e, variables, depth), ExpectedParenthesis)
  {
    hide Spells, Tokens, Eval, ParseComma, SkipSpace;
    var q := TokenAt(text, 0, "(", Tokens(e, 0));
    assert At(text, q + 0) == '(';
    SkipTwice(text, 0);
    SomethingLeft(text, 0, "(", Tokens(e, 0));
    SpellsIn(text, q + 1, Tokens(e, 0));
    NothingStops();
    assert Tokens(e, 0) + [] == Tokens(e, 0);
    Reads(e, 0, text, q + 1, [], variables, depth);
    var inner := ParseComma(text, q + 1, variables, depth);
    if inner.Reading? { AtEnd(text, inner.position); }
    OpensStopped(text, 0, variables, depth);
  }

  /** An error inside parentheses is the error of whatever they begin. */
  lemma OpensStopped(text: string, p: nat, variables: Variables, depth: nat)
    requires p <= |text| && depth <= DEEPEST && At(text, SkipSpace(text, p)) == '('
    requires ParsePostfix(text, SkipSpace(text, p), variables, depth).Stopped?
    ensures ParseComma(text, p, variables, depth) == ParsePostfix(text, SkipSpace(text, p), variables, depth)
  {
    hide ParsePostfix, ParseLevel, ParseTernary, SkipSpace;
    SkipTwice(text, p);
    LevelStopped(3, text, p, variables, depth);
    assert ParseTernary(text, p, variables, depth) == ParseLevel(3, text, p, variables, depth) by { TernaryStopped(text, p, variables, depth); }
    assert IdentifierEnd(text, SkipSpace(text, p)) == SkipSpace(text, p);
  }

  lemma TernaryStopped(text: string, p: nat, variables: Variables, depth: nat)
    requires p <= |text| && depth <= DEEPEST && ParseLevel(3, text, p, variables, depth).Stopped?
    ensures ParseTernary(text, p, variables, depth) == ParseLevel(3, text, p, variables, depth)
  {
    hide ParseLevel;
  }

  lemma {:induction false} LevelStopped(level: nat, text: string, p: nat, variables: Variables, depth: nat)
    requires 3 <= level <= 13 && p <= |text| && depth <= DEEPEST && At(text, SkipSpace(text, p)) == '('
    requires ParsePostfix(text, SkipSpace(text, p), variables, depth).Stopped?
    ensures ParseLevel(level, text, p, variables, depth) == ParsePostfix(text, SkipSpace(text, p), variables, depth)
    decreases 13 - level
  {
    hide ParsePostfix, ParseUnary, SkipSpace, LevelLoop;
    if level < 13 {
      LevelStopped(level + 1, text, p, variables, depth);
    } else {
      UnaryOpens(text, p, variables, depth);
      PowerLevel(text, p, variables, depth);
    }
  }

  lemma UnaryOpens(text: string, p: nat, variables: Variables, depth: nat)
    requires p <= |text| && depth <= DEEPEST && At(text, SkipSpace(text, p)) == '('
    ensures ParseUnary(text, p, variables, depth) == ParsePostfix(text, SkipSpace(text, p), variables, depth)
  {
    hide ParsePostfix, SkipSpace;
  }

  /** A conditional without its second half: both operands are evaluated, and then the colon is missing. */
  lemma ColonMissing(c: Expression, t: Expression, text: string, variables: Variables, depth: nat)
    requires WellFormed(c) && WellFormed(t) && depth <= DEEPEST && Spells(text, 0, Tokens(c, 3) + (["?"] + Tokens(t, 1)))
    ensures Evaluate(variables, text, depth) == Then(Eval(Comma(c, t), variables, depth), ExpectedColon)
  {
    hide Spells, Tokens, Eval, ParseComma, ParseTernary, SkipSpace, Stops;
    StopsMore(Question, Tokens(t, 1), 100);
    NoAssignment(c, 3, text, 0, ["?"] + Tokens(t, 1));
    SomeToken(c, 3);
    var tokens := Tokens(c, 3) + (["?"] + Tokens(t, 1));
    assert tokens == [tokens[0]] + tokens[1..];
    SomethingLeft(text, 0, tokens[0], tokens[1..]);
    TernaryMissing(c, t, text, variables, depth);
    EvalComma(c, t, variables, depth);
    var r := ParseTernary(text, 0, variables, depth);
    AssignmentStopped(text, r, variables, depth);
  }

  lemma AssignmentStopped(text: string, r: Reading, variables: Variables, depth: nat)
    requires depth <= DEEPEST && r.Stopped? && r == ParseTernary(text, 0, variables, depth)
    requires var start := SkipSpace(text, 0);
             var end := IdentifierEnd(text, start);
             var q := SkipSpace(text, end);
             end > start ==> AssignmentAt(At(text, q), At(text, q + 1), At(text, q + 2)) == None
    ensures ParseComma(text, 0, variables, depth) == r
  {
    hide ParseTernary, SkipSpace, AssignmentAt, IdentifierEnd;
  }

  lemma TernaryMissing(c: Expression, t: Expression, text: string, variables: Variables, depth: nat)
    requires WellFormed(c) && WellFormed(t) && depth <= DEEPEST && Spells(text, 0, Tokens(c, 3) + (["?"] + Tokens(t, 1)))
    ensures var first := Eval(c, variables, depth);
            var o := if first.Failure? then first else Eval(t, first.variables, depth);
            ParseTernary(text, 0, variables, depth) == Stopped(Then(o, ExpectedColon).error, Then(o, ExpectedColon).variables)
  {
    hide Spells, Tokens, Stops, SkipSpace, ParseLevel, ParseAssignment, Eval;
    StopsMore(Question, Tokens(t, 1), 3);
    Reads(c, 3, text, 0, ["?"] + Tokens(t, 1), variables, depth);
    var oc := Eval(c, variables, depth);
    if oc.Value? {
      var condition := ParseLevel(3, text, 0, variables, depth);
      MarkShows(text, condition.position, Question, Tokens(t, 1));
      var q := SkipSpace(text, condition.position);
      assert Tokens(t, 1) + [] == Tokens(t, 1);
      SpellsIn(text, q + 1, Tokens(t, 1));
      NothingStops();
      Reads(t, 1, text, q + 1, [], oc.variables, depth);
      var whenTrue := ParseAssignment(text, q + 1, oc.variables, depth);
      if whenTrue.Reading? { AtEnd(text, whenTrue.position); }
    }
  }

  lemma NothingStops()
    ensures forall level: nat :: Stops([], level)
  {}
}
