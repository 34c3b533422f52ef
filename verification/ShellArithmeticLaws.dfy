/**
 Reading the printed form of a tree gives its value: level by level, each function reads what
 is printed for its level, applies the operators as they come, and stops where the tree ends.
 */
module ShellArithmeticLaws {
  import opened Wrappers
  import opened ShellIntegers
  import opened ShellArithmetic
  import opened ShellArithmeticPrinting

  function ParseAt(level: nat, text: string, p: nat, variables: Variables, depth: nat): Reading
    requires level <= 15 && p <= |text| && depth <= DEEPEST
  {
    if level == 0 then ParseComma(text, p, variables, depth)
    else if level == 1 then ParseAssignment(text, p, variables, depth)
    else if level == 2 then ParseTernary(text, p, variables, depth)
    else if level <= 13 then ParseLevel(level, text, p, variables, depth)
    else if level == 14 then ParseUnary(text, p, variables, depth)
    else ParsePostfix(text, p, variables, depth)
  }

  /** The outcome was read, up to where `rest` begins. */
  ghost predicate Gives(r: Reading, o: Outcome, text: string, rest: seq<string>) {
    match o
    case Failure(error, after) => r == Stopped(error, after)
    case Value(value, after) => r.Reading? && r.value == value && r.variables == after && Spells(text, r.position, rest)
  }

  // ---- blanks ----

  lemma SpellsSkipped(text: string, p: nat, tokens: seq<string>)
    requires Spells(text, p, tokens)
    ensures Spells(text, SkipSpace(text, p), tokens)
  {
    SkipTwice(text, p);
  }

  /** Where an expression of some level ends, nothing that would go on with it is seen. */
  lemma NextStops(text: string, p: nat, rest: seq<string>, level: nat)
    requires Spells(text, p, rest) && Stops(rest, level)
    ensures var q := SkipSpace(text, p);
            var (a, b, c) := (At(text, q), At(text, q + 1), At(text, q + 2));
            && (forall k: nat :: 3 <= k <= 12 && level <= k ==> OperatorAt(k, a, b, c) == None)
            && (level <= 13 ==> !(a == '*' && b == '*'))
            && (level <= 2 ==> a != '?')
            && (level <= 0 ==> a != ',')
            && AssignmentAt(a, b, c) == None
            && !((a == '+' || a == '-') && b == a)
  {
    hide OperatorAt, AssignmentAt, Shows, SkipSpace;
    var q := SkipSpace(text, p);
    if rest == [] {
      NothingAtEnd();
    } else {
      var m: Mark :| rest[0] == MarkText(m) && MarkLevel(m) < level;
      assert rest == [MarkText(m)] + rest[1..];
      MarkShows(text, p, m, rest[1..]);
      var a, b, c := At(text, q), At(text, q + 1), At(text, q + 2);
      MarkOthers(m, a, b, c);
      forall k: nat | 3 <= k <= 12 && level <= k ensures OperatorAt(k, a, b, c) == None {
        MarkOperator(k, m, a, b, c);
      }
    }
  }

  lemma NothingAtEnd()
    ensures forall k: nat, b: char, c: char :: OperatorAt(k, '\0', b, c) == None
    ensures forall b: char, c: char :: AssignmentAt('\0', b, c) == None
  {}

  lemma StopsMore(m: Mark, more: seq<string>, level: nat)
    requires MarkLevel(m) < level
    ensures Stops([MarkText(m)] + more, level)
  {
    assert ([MarkText(m)] + more)[0] == MarkText(m);
  }

  lemma StopsHigher(rest: seq<string>, level: nat, higher: nat)
    requires Stops(rest, level) && level <= higher
    ensures Stops(rest, higher)
  {}

  // ---- words ----

  lemma {:induction false} NameEndAt(text: string, p: nat, end: nat)
    requires p <= end <= |text| && forall k :: p <= k < end ==> InName(text[k])
    requires end < |text| ==> !InName(text[end])
    ensures NameEnd(text, p) == end
    decreases end - p
  {
    if p < end {
      NameEndAt(text, p + 1, end);
    }
  }

  lemma {:induction false} AlphanumericEndAt(text: string, p: nat, end: nat)
    requires p <= end <= |text| && forall k :: p <= k < end ==> IsAlphanumeric(text[k])
    requires end < |text| ==> !IsAlphanumeric(text[end])
    ensures AlphanumericEnd(text, p) == end
    decreases end - p
  {
    if p < end {
      AlphanumericEndAt(text, p + 1, end);
    }
  }

  lemma IdentifierAt(text: string, p: nat, name: string, more: seq<string>) returns (q: nat)
    requires IsIdentifier(name) && Spells(text, p, [name] + more)
    ensures q == SkipSpace(text, p) && IdentifierEnd(text, q) == q + |name| && q + |name| <= |text| && text[q..q + |name|] == name
    ensures Spells(text, q + |name|, more) && StartsName(At(text, q))
  {
    hide SkipSpace;
    q := TokenAt(text, p, name, more);
    var end := q + |name|;
    forall k | q <= k < end ensures InName(text[k]) {
      assert At(text, q + (k - q)) == name[k - q];
    }
    assert At(text, q + 0) == name[0];
    SpaceIsNoName();
    NameEndAt(text, q, end);
  }

  lemma SpaceIsNoName()
    ensures forall c :: InName(c) ==> !IsSpace(c)
    ensures forall c :: IsSpace(c) ==> c != '#' && c != '(' && !StartsName(c)
  {}

  lemma NumberAt(text: string, p: nat, n: nat, more: seq<string>, variables: Variables) returns (q: nat)
    requires n <= MAX && Spells(text, p, [Decimal(n)] + more)
    ensures q == SkipSpace(text, p) && q < |text| && IsDecimal(text[q])
    ensures Gives(ParseNumber(text, q, variables), Value(n, variables), text, more)
  {
    hide SkipSpace, Spells, AlphanumericEnd, Literal, NumberIn;
    var t := Decimal(n);
    q := TokenAt(text, p, t, more);
    var end := q + |t|;
    forall k | q <= k < end ensures IsDecimal(text[k]) {
      assert At(text, q + (k - q)) == t[k - q];
    }
    SpaceIsNoName();
    AlphanumericEndAt(text, q, end);
    LiteralDecimal(n);
  }

  lemma LiteralDecimal(n: nat)
    requires n <= MAX
    ensures Literal(Decimal(n)) == Ok(n)
  {
    hide NumberIn;
    DecimalNumber(n);
  }

  // ---- stopping ----

  lemma LoopStops(level: nat, text: string, left: Reading, rest: seq<string>, depth: nat)
    requires 3 <= level <= 12 && left.Reading? && depth <= DEEPEST
    requires Spells(text, left.position, rest) && Stops(rest, level)
    ensures LevelLoop(level, text, left, depth) == left.(position := SkipSpace(text, left.position))
    ensures Spells(text, SkipSpace(text, left.position), rest)
  {
    hide OperatorAt, Spells, Stops, SkipSpace;
    assert left.position <= |text| by { SpellsIn(text, left.position, rest); }
    NextStops(text, left.position, rest, level);
    SpellsSkipped(text, left.position, rest);
  }

  lemma SpellsIn(text: string, p: nat, tokens: seq<string>)
    requires Spells(text, p, tokens)
    ensures p <= |text|
  {}

  /** An operator of the level is applied to what is read after it. */
  lemma LoopGoesOn(level: nat, text: string, left: Reading, op: Operator, more: seq<string>, depth: nat)
    requires 3 <= level <= 12 && left.Reading? && depth <= DEEPEST && LevelOf(op) == level
    requires Spells(text, left.position, [Spelling(op)] + more)
    ensures left.position <= |text|
    ensures var next := SkipSpace(text, left.position) + |Spelling(op)|;
            && next <= |text| && Spells(text, next, more)
            && var both := Applied(op, left.value, ParseLevel(level + 1, text, next, left.variables, depth));
            LevelLoop(level, text, left, depth) == if both.Stopped? then both else LevelLoop(level, text, both, depth)
  {
    hide OperatorAt, Spells, SkipSpace, Shows, Applied;
    SpellsIn(text, left.position, [Spelling(op)] + more);
    MarkShows(text, left.position, OperatorMark(op), more);
    var q := SkipSpace(text, left.position);
    MarkOperator(level, OperatorMark(op), At(text, q), At(text, q + 1), At(text, q + 2));
    SpellsIn(text, q + |Spelling(op)|, more);
  }

  // ---- shapes of token lists ----

  lemma Shape(a: seq<string>, x: string, b: seq<string>, rest: seq<string>)
    ensures a + [x] + b + rest == a + ([x] + (b + rest))
  {}

  lemma Shape2(a: seq<string>, x: string, b: seq<string>, y: string, c: seq<string>, rest: seq<string>)
    ensures a + [x] + b + [y] + c + rest == a + ([x] + (b + ([y] + (c + rest))))
  {
    Shape(a + [x] + b, y, c, rest);
    Shape(a, x, b, [y] + (c + rest));
  }

  lemma ShapeFirst(x: string, a: seq<string>, rest: seq<string>)
    ensures [x] + a + rest == [x] + (a + rest)
  {}

  // ---- reading what was printed ----

  /** The start of a chain of one level was read, and the level's loop goes on from there. */
  ghost predicate Continues(r: Reading, o: Outcome, level: nat, text: string, rest: seq<string>, depth: nat)
    requires (level == 0 || 3 <= level <= 12) && depth <= DEEPEST
  {
    match o
    case Failure(error, after) => r == Stopped(error, after)
    case Value(value, after) =>
      exists at: nat :: at <= |text| && Spells(text, at, rest) && r == Loop(level, text, Reading(value, at, after), depth)
  }

  function Loop(level: nat, text: string, left: Reading, depth: nat): Reading
    requires (level == 0 || 3 <= level <= 12) && depth <= DEEPEST && left.Reading? && left.position <= |text|
  {
    if level == 0 then CommaLoop(text, left, depth) else LevelLoop(level, text, left, depth)
  }

  /** The whole of it: reading the tokens of `e` where a level is wanted gives the value of `e`. */
  lemma Reads(e: Expression, level: nat, text: string, p: nat, rest: seq<string>, variables: Variables, depth: nat)
    requires WellFormed(e) && level <= 15 && depth <= DEEPEST
    requires Spells(text, p, Tokens(e, level) + rest) && Stops(rest, level)
    ensures p <= |text| && Gives(ParseAt(level, text, p, variables, depth), Eval(e, variables, depth), text, rest)
    decreases e, if Level(e) < level then 1 else 0, 15 - level, 1
  {
    hide Spells, Tokens, Body, Stops, Eval, Gives, Continues, ParseComma, ParseAssignment, ParseTernary, ParseLevel, ParseUnary, ParsePostfix;
    SpellsIn(text, p, Tokens(e, level) + rest);
    if level == 0 || 3 <= level <= 12 {
      StopsHigher(rest, level, level + 1);
      ReadsChain(e, level, text, p, rest, variables, depth);
      ChainStops(ParseAt(level, text, p, variables, depth), Eval(e, variables, depth), level, text, rest, depth);
    } else if level == 1 && e.Assign? {
      ReadsAssign(e, text, p, rest, variables, depth);
    } else if level == 2 && e.Conditional? {
      ReadsConditional(e, text, p, rest, variables, depth);
    } else if level == 13 && Level(e) == 13 {
      ReadsPower(e, text, p, rest, variables, depth);
    } else if level == 14 && Level(e) == 14 {
      ReadsUnary(e, text, p, rest, variables, depth);
    } else if level == 15 {
      ReadsPrimary(e, text, p, rest, variables, depth);
    } else {
      SameTokens(e, level);
      StopsHigher(rest, level, level + 1);
      PassDown(e, level, text, p, rest, variables, depth);
    }
  }

  lemma SameTokens(e: Expression, level: nat)
    requires level < 15 && Level(e) != level
    ensures Tokens(e, level) == Tokens(e, level + 1)
  {}

  lemma TokensAt(e: Expression)
    ensures Tokens(e, Level(e)) == Body(e)
  {}

  /** A chain's loop, and then a stop: that is the whole reading. */
  lemma ChainStops(r: Reading, o: Outcome, level: nat, text: string, rest: seq<string>, depth: nat)
    requires (level == 0 || 3 <= level <= 12) && depth <= DEEPEST
    requires Continues(r, o, level, text, rest, depth) && Stops(rest, level)
    ensures Gives(r, o, text, rest)
  {
    hide Spells, Stops, SkipSpace;
    if o.Value? {
      var at: nat :| at <= |text| && Spells(text, at, rest) && r == Loop(level, text, Reading(o.value, at, o.variables), depth);
      var left := Reading(o.value, at, o.variables);
      if level == 0 {
        NextStops(text, at, rest, 0);
        SpellsSkipped(text, at, rest);
      } else {
        LoopStops(level, text, left, rest, depth);
      }
    }
  }

  lemma ReadsChain(e: Expression, level: nat, text: string, p: nat, rest: seq<string>, variables: Variables, depth: nat)
    requires WellFormed(e) && (level == 0 || 3 <= level <= 12) && depth <= DEEPEST
    requires Spells(text, p, Tokens(e, level) + rest) && Stops(rest, level + 1)
    ensures p <= |text| && Continues(ParseAt(level, text, p, variables, depth), Eval(e, variables, depth), level, text, rest, depth)
    decreases e, if Level(e) < level then 1 else 0, 15 - level, 0
  {
    hide Spells, Tokens, Body, Stops, Eval, Gives, Continues, LevelLoop, CommaLoop;
    SpellsIn(text, p, Tokens(e, level) + rest);
    if level == 0 && e.Comma? {
      ChainComma(e, text, p, rest, variables, depth);
    } else if e.Binary? && Level(e) == level {
      ChainBinary(e, text, p, rest, variables, depth);
    } else {
      SameTokens(e, level);
      Reads(e, level + 1, text, p, rest, variables, depth);
      var first := ParseAt(level + 1, text, p, variables, depth);
      ChainStarts(first, ParseAt(level, text, p, variables, depth), Eval(e, variables, depth), level, text, rest, depth);
    }
  }

  lemma ChainStarts(first: Reading, r: Reading, o: Outcome, level: nat, text: string, rest: seq<string>, depth: nat)
    requires (level == 0 || 3 <= level <= 12) && depth <= DEEPEST && Gives(first, o, text, rest)
    requires first.Reading? ==> first.position <= |text|
    requires r == if first.Stopped? then first else Loop(level, text, first, depth)
    ensures Continues(r, o, level, text, rest, depth)
  {
    hide Spells, LevelLoop, CommaLoop;
    if o.Value? { assert first == Reading(o.value, first.position, o.variables); }
  }

  lemma ChainComma(e: Expression, text: string, p: nat, rest: seq<string>, variables: Variables, depth: nat)
    requires WellFormed(e) && e.Comma? && depth <= DEEPEST && p <= |text|
    requires Spells(text, p, Tokens(e, 0) + rest) && Stops(rest, 1)
    ensures Continues(ParseComma(text, p, variables, depth), Eval(e, variables, depth), 0, text, rest, depth)
    decreases e, 0, 0, 0
  {
    hide Spells, Tokens, Stops, Gives, SkipSpace, ParseComma, ParseAssignment, Continues;
    var a, b := e.first, e.second;
    TokensAt(e);
    Shape(Tokens(a, 0), ",", Tokens(b, 1), rest);
    var more := Tokens(b, 1) + rest;
    StopsMore(Separator, more, 1);
    ReadsChain(a, 0, text, p, [","] + more, variables, depth);
    var o := Eval(a, variables, depth);
    if o.Value? {
      var at := ChainAt(ParseComma(text, p, variables, depth), o, 0, text, [","] + more, depth);
      MarkShows(text, at, Separator, more);
      var q := SkipSpace(text, at);
      Reads(b, 1, text, q + 1, rest, o.variables, depth);
      var next := ParseAssignment(text, q + 1, o.variables, depth);
      ChainStarts(next, ParseComma(text, p, variables, depth), Eval(b, o.variables, depth), 0, text, rest, depth);
    } else {
      ChainFails(ParseComma(text, p, variables, depth), o, 0, text, [","] + more, rest, depth);
    }
  }

  lemma ChainAt(r: Reading, o: Outcome, level: nat, text: string, rest: seq<string>, depth: nat) returns (at: nat)
    requires (level == 0 || 3 <= level <= 12) && depth <= DEEPEST && o.Value?
    requires Continues(r, o, level, text, rest, depth)
    ensures at <= |text| && Spells(text, at, rest) && r == Loop(level, text, Reading(o.value, at, o.variables), depth)
  {
    hide Spells, LevelLoop, CommaLoop;
    at :| at <= |text| && Spells(text, at, rest) && r == Loop(level, text, Reading(o.value, at, o.variables), depth);
  }

  lemma ChainFails(r: Reading, o: Outcome, level: nat, text: string, rest: seq<string>, other: seq<string>, depth: nat)
    requires (level == 0 || 3 <= level <= 12) && depth <= DEEPEST && o.Failure?
    requires Continues(r, o, level, text, rest, depth)
    ensures Continues(r, o, level, text, other, depth) && r == Stopped(o.error, o.variables)
  {}

  lemma ChainBinary(e: Expression, text: string, p: nat, rest: seq<string>, variables: Variables, depth: nat)
    requires WellFormed(e) && e.Binary? && 3 <= Level(e) <= 12 && depth <= DEEPEST && p <= |text|
    requires Spells(text, p, Tokens(e, Level(e)) + rest) && Stops(rest, Level(e) + 1)
    ensures Continues(ParseLevel(Level(e), text, p, variables, depth), Eval(e, variables, depth), Level(e), text, rest, depth)
    decreases e, 0, 0, 0
  {
    hide Spells, Tokens, Stops, Gives, SkipSpace, ParseLevel, LevelLoop, Continues, Combine, Applied, Spelling, LevelOf;
    var op, a, b, level := e.op, e.left, e.right, Level(e);
    TokensAt(e);
    assert !op.Exponent? by { ExponentLevel(); }
    Shape(Tokens(a, level), Spelling(op), Tokens(b, level + 1), rest);
    var more := Tokens(b, level + 1) + rest;
    StopsMore(OperatorMark(op), more, level + 1);
    ReadsChain(a, level, text, p, [Spelling(op)] + more, variables, depth);
    var r, o := ParseLevel(level, text, p, variables, depth), Eval(a, variables, depth);
    if o.Value? {
      var at := ChainAt(r, o, level, text, [Spelling(op)] + more, depth);
      var left := Reading(o.value, at, o.variables);
      LoopGoesOn(level, text, left, op, more, depth);
      var next := SkipSpace(text, at) + |Spelling(op)|;
      Reads(b, level + 1, text, next, rest, o.variables, depth);
      ChainCombines(r, op, o, Eval(b, o.variables, depth), ParseLevel(level + 1, text, next, o.variables, depth), level, text, rest, depth);
    } else {
      ChainFails(r, o, level, text, [Spelling(op)] + more, rest, depth);
    }
  }

  lemma ExponentLevel()
    ensures LevelOf(Exponent) == 13
  {}

  lemma ChainCombines(r: Reading, op: Operator, a: Outcome, b: Outcome, right: Reading, level: nat, text: string, rest: seq<string>, depth: nat)
    requires 3 <= level <= 12 && depth <= DEEPEST && a.Value? && Gives(right, b, text, rest)
    requires right.Reading? ==> right.position <= |text|
    requires var both := Applied(op, a.value, right);
             r == if both.Stopped? then both else LevelLoop(level, text, both, depth)
    ensures Continues(r, if b.Failure? then b else Combined(op, a.value, b.value, b.variables), level, text, rest, depth)
  {
    hide Spells, LevelLoop, Combine;
  }

  // ---- the other levels ----

  lemma ReadsAssign(e: Expression, text: string, p: nat, rest: seq<string>, variables: Variables, depth: nat)
    requires WellFormed(e) && e.Assign? && depth <= DEEPEST && p <= |text|
    requires Spells(text, p, Tokens(e, 1) + rest) && Stops(rest, 1)
    ensures Gives(ParseAssignment(text, p, variables, depth), Eval(e, variables, depth), text, rest)
    decreases e, 0, 0, 0
  {
    hide Spells, Tokens, Stops, SkipSpace, AssignmentAt, Combine, IdentifierEnd, AssignSpelling, ReadVariable, Set;
    TokensAt(e);
    var sign, more := AssignSpelling(e.applying), Tokens(e.value, 1) + rest;
    assert [e.name, sign] + Tokens(e.value, 1) + rest == [e.name] + ([sign] + more);
    var start := IdentifierAt(text, p, e.name, [sign] + more);
    var end := start + |e.name|;
    AssignShows(text, end, e.applying, more);
    var q := SkipSpace(text, end);
    SpellsIn(text, q + |sign|, more);
    Reads(e.value, 1, text, q + |sign|, rest, variables, depth);
  }

  lemma AssignShows(text: string, p: nat, applying: Option<Operator>, more: seq<string>)
    requires applying.Some? ==> Assignable(applying.value)
    requires Spells(text, p, [AssignSpelling(applying)] + more)
    ensures var q := SkipSpace(text, p);
            && AssignmentAt(At(text, q), At(text, q + 1), At(text, q + 2)) == Some((applying, |AssignSpelling(applying)|))
            && Spells(text, q + |AssignSpelling(applying)|, more)
  {
    hide SkipSpace, Spells, IsSpace, Apart, AssignSpelling, AssignmentAt;
    var t := AssignSpelling(applying);
    AssignIs(applying);
    var q := TokenAt(text, p, t, more);
    assert At(text, q + 0) == t[0];
    if |t| > 1 { assert At(text, q + 1) == t[1]; }
    if |t| > 2 { assert At(text, q + 2) == t[2]; }
    if applying.None? { NotAnotherEquals(At(text, q + 1)); }
    AssignSpelled(applying, At(text, q), At(text, q + 1), At(text, q + 2));
  }

  lemma AssignIs(applying: Option<Operator>)
    requires applying.Some? ==> Assignable(applying.value)
    ensures 1 <= |AssignSpelling(applying)| <= 3 && (applying.None? ==> AssignSpelling(applying) == "=")
  {}

  lemma AssignSpelled(applying: Option<Operator>, a: char, b: char, c: char)
    requires applying.Some? ==> Assignable(applying.value)
    requires var t := AssignSpelling(applying);
             1 <= |t| <= 3 && a == t[0] && (|t| > 1 ==> b == t[1]) && (|t| > 2 ==> c == t[2]) && (applying.None? ==> b != '=')
    ensures AssignmentAt(a, b, c) == Some((applying, |AssignSpelling(applying)|))
  {}

  lemma NotAnotherEquals(c: char)
    ensures Apart("=", c) ==> c != '='
  {}

  lemma ReadsConditional(e: Expression, text: string, p: nat, rest: seq<string>, variables: Variables, depth: nat)
    requires WellFormed(e) && e.Conditional? && depth <= DEEPEST && p <= |text|
    requires Spells(text, p, Tokens(e, 2) + rest) && Stops(rest, 2)
    ensures Gives(ParseTernary(text, p, variables, depth), Eval(e, variables, depth), text, rest)
    decreases e, 0, 0, 0
  {
    hide Spells, Tokens, Stops, SkipSpace, ParseLevel, ParseAssignment;
    TokensAt(e);
    var c, t, f := e.condition, e.whenTrue, e.whenFalse;
    Shape2(Tokens(c, 3), "?", Tokens(t, 1), ":", Tokens(f, 1), rest);
    var more2 := Tokens(f, 1) + rest;
    var more1 := Tokens(t, 1) + ([":"] + more2);
    StopsMore(Question, more1, 3);
    StopsMore(Colon, more2, 1);
    Reads(c, 3, text, p, ["?"] + more1, variables, depth);
    var oc := Eval(c, variables, depth);
    if oc.Value? {
      var condition := ParseLevel(3, text, p, variables, depth);
      MarkShows(text, condition.position, Question, more1);
      var q := SkipSpace(text, condition.position);
      Reads(t, 1, text, q + 1, [":"] + more2, oc.variables, depth);
      var ot := Eval(t, oc.variables, depth);
      if ot.Value? {
        var whenTrue := ParseAssignment(text, q + 1, oc.variables, depth);
        MarkShows(text, whenTrue.position, Colon, more2);
        var colon := SkipSpace(text, whenTrue.position);
        StopsBranch(rest);
        Reads(f, 1, text, colon + 1, rest, ot.variables, depth);
      }
    }
  }

  /** What stops a conditional stops its last branch, though that may hold an assignment. */
  lemma StopsBranch(rest: seq<string>)
    requires Stops(rest, 2)
    ensures Stops(rest, 1)
  {
    if rest != [] {
      var m: Mark :| rest[0] == MarkText(m) && MarkLevel(m) < 2;
      assert MarkLevel(m) < 1;
    }
  }

  lemma ReadsPower(e: Expression, text: string, p: nat, rest: seq<string>, variables: Variables, depth: nat)
    requires WellFormed(e) && Level(e) == 13 && depth <= DEEPEST && p <= |text|
    requires Spells(text, p, Tokens(e, 13) + rest) && Stops(rest, 13)
    ensures Gives(ParseLevel(13, text, p, variables, depth), Eval(e, variables, depth), text, rest)
    decreases e, 0, 0, 0
  {
    hide Spells, Tokens, Stops, SkipSpace, ParseUnary, PowerOf;
    TokensAt(e);
    assert e.Binary? && e.op == Exponent;
    var a, b := e.left, e.right;
    Shape(Tokens(a, 14), "**", Tokens(b, 13), rest);
    var more := Tokens(b, 13) + rest;
    StopsMore(OperatorMark(Exponent), more, 14);
    Reads(a, 14, text, p, ["**"] + more, variables, depth);
    var o := Eval(a, variables, depth);
    if o.Value? {
      var left := ParseUnary(text, p, variables, depth);
      MarkShows(text, left.position, OperatorMark(Exponent), more);
      var q := SkipSpace(text, left.position);
      MarkOthers(OperatorMark(Exponent), At(text, q), At(text, q + 1), At(text, q + 2));
      SpellsIn(text, q + 2, more);
      Reads(b, 13, text, q + 2, rest, o.variables, depth);
    }
  }

  lemma ReadsUnary(e: Expression, text: string, p: nat, rest: seq<string>, variables: Variables, depth: nat)
    requires WellFormed(e) && Level(e) == 14 && depth <= DEEPEST && p <= |text|
    requires Spells(text, p, Tokens(e, 14) + rest) && Stops(rest, 14)
    ensures Gives(ParseUnary(text, p, variables, depth), Eval(e, variables, depth), text, rest)
    decreases e, 0, 0, 0
  {
    hide Spells, Tokens, Stops, SkipSpace, ParsePostfix, ReadVariable, Unary, Wrap, IdentifierEnd, Set;
    TokensAt(e);
    if e.Prefix? {
      ShapeFirst([e.sign], Tokens(e.operand, 14), rest);
      var q := SignAt(text, p, e.sign, Tokens(e.operand, 14) + rest);
      Reads(e.operand, 14, text, q + 1, rest, variables, depth);
    } else {
      assert [Twice(e.up), e.name] + rest == [Twice(e.up)] + ([e.name] + rest);
      var q := TokenAt(text, p, Twice(e.up), [e.name] + rest);
      assert At(text, q + 0) == Twice(e.up)[0] && At(text, q + 1) == Twice(e.up)[1];
      var start := IdentifierAt(text, q + 2, e.name, rest);
    }
  }

  /** A sign followed by its operand, never by a second sign that would make it a step. */
  lemma SignAt(text: string, p: nat, sign: char, more: seq<string>) returns (q: nat)
    requires sign in "+-!~" && Spells(text, p, [[sign]] + more)
    ensures q == SkipSpace(text, p) && q < |text| && At(text, q) == sign && Spells(text, q + 1, more)
    ensures !((sign == '+' || sign == '-') && At(text, q + 1) == sign)
  {
    hide SkipSpace, Spells, IsSpace;
    q := TokenAt(text, p, [sign], more);
    assert At(text, q + 0) == sign;
    NotSpaceOperator();
  }

  lemma ReadsPrimary(e: Expression, text: string, p: nat, rest: seq<string>, variables: Variables, depth: nat)
    requires WellFormed(e) && depth <= DEEPEST && p <= |text|
    requires Spells(text, p, Tokens(e, 15) + rest) && Stops(rest, 15)
    ensures Gives(ParsePostfix(text, p, variables, depth), Eval(e, variables, depth), text, rest)
    decreases e, if Level(e) < 15 then 1 else 0, 0, 0
  {
    hide Spells, Body, Stops, SkipSpace, ParseComma, ParseNumber, ReadVariable, Eval, IdentifierEnd;
    if Level(e) < 15 {
      assert Tokens(e, 0) == Body(e);
      assert ["("] + Body(e) + [")"] + rest == ["("] + (Tokens(e, 0) + ([")"] + rest));
      var q := TokenAt(text, p, "(", Tokens(e, 0) + ([")"] + rest));
      assert At(text, q + 0) == '(';
      StopsMore(Close, rest, 0);
      Reads(e, 0, text, q + 1, [")"] + rest, variables, depth);
      ClosesAt(ParseComma(text, q + 1, variables, depth), Eval(e, variables, depth), text, rest);
    } else {
      ReadsWord(e, text, p, rest, variables, depth);
    }
  }

  lemma ClosesAt(inner: Reading, o: Outcome, text: string, rest: seq<string>)
    requires Gives(inner, o, text, [")"] + rest)
    ensures inner.Reading? ==>
              var close := SkipSpace(text, inner.position);
              At(text, close) == ')' && Spells(text, close + 1, rest)
  {
    hide Spells, SkipSpace;
    if inner.Reading? { MarkShows(text, inner.position, Close, rest); }
  }

  lemma ReadsWord(e: Expression, text: string, p: nat, rest: seq<string>, variables: Variables, depth: nat)
    requires WellFormed(e) && Level(e) == 15 && depth <= DEEPEST && p <= |text|
    requires Spells(text, p, Tokens(e, 15) + rest) && Stops(rest, 15)
    ensures Gives(ParsePostfix(text, p, variables, depth), Eval(e, variables, depth), text, rest)
  {
    hide Spells, Tokens, Stops, ParsePostfix;
    TokensAt(e);
    match e
    case Number(n) => ReadsNumber(n, text, p, rest, variables, depth);
    case Variable(name) => ReadsName(name, text, p, rest, variables, depth);
    case PostStep(_, _) => ReadsStep(e, text, p, rest, variables, depth);
  }

  lemma ReadsNumber(n: nat, text: string, p: nat, rest: seq<string>, variables: Variables, depth: nat)
    requires WellFormed(Number(n)) && depth <= DEEPEST && p <= |text|
    requires Spells(text, p, [Decimal(n)] + rest) && Stops(rest, 15)
    ensures Gives(ParsePostfix(text, p, variables, depth), Eval(Number(n), variables, depth), text, rest)
  {
    hide Spells, Stops, SkipSpace, ParseNumber, Decimal;
    var q := NumberAt(text, p, n, rest, variables);
    StartsApart(At(text, q));
  }

  lemma ReadsName(name: string, text: string, p: nat, rest: seq<string>, variables: Variables, depth: nat)
    requires WellFormed(Variable(name)) && depth <= DEEPEST && p <= |text|
    requires Spells(text, p, [name] + rest) && Stops(rest, 15)
    ensures Gives(ParsePostfix(text, p, variables, depth), Eval(Variable(name), variables, depth), text, rest)
  {
    hide Spells, Stops, SkipSpace, ReadVariable, IdentifierEnd, Set, Wrap;
    var start := IdentifierAt(text, p, name, rest);
    StartsApart(At(text, start));
    NextStops(text, start + |name|, rest, 15);
    SpellsSkipped(text, start + |name|, rest);
  }

  lemma ReadsStep(e: Expression, text: string, p: nat, rest: seq<string>, variables: Variables, depth: nat)
    requires e.PostStep? && WellFormed(e) && depth <= DEEPEST && p <= |text|
    requires Spells(text, p, Tokens(e, 15) + rest) && Stops(rest, 15)
    ensures Gives(ParsePostfix(text, p, variables, depth), Eval(e, variables, depth), text, rest)
  {
    hide Spells, Tokens, Stops, SkipSpace, ReadVariable, IdentifierEnd, Set, Wrap;
    var step := Twice(e.up);
    TokensAt(e);
    assert [e.name, step] + rest == [e.name] + ([step] + rest);
    var start := IdentifierAt(text, p, e.name, [step] + rest);
    StartsApart(At(text, start));
    var q := TokenAt(text, start + |e.name|, step, rest);
    assert At(text, q + 0) == step[0] && At(text, q + 1) == step[1];
  }

  lemma StartsApart(c: char)
    ensures IsDecimal(c) ==> c != '('
    ensures StartsName(c) ==> c != '(' && !IsDecimal(c)
    ensures IsDecimal(c) || StartsName(c) ==> c !in "+-!~"
  {}

  /** How the printed form of something that binds tightly begins: with no sign, or with a blank, a name, a digit or a parenthesis. */
  lemma PrimaryStart(e: Expression, text: string, p: nat, rest: seq<string>)
    requires WellFormed(e) && Spells(text, p, Tokens(e, 15) + rest)
    ensures At(text, SkipSpace(text, p)) !in "+-!~"
  {
    hide Spells, SkipSpace, Decimal;
    if Level(e) < 15 {
      assert ["("] + Body(e) + [")"] + rest == ["("] + (Body(e) + ([")"] + rest));
      var q := TokenAt(text, p, "(", Body(e) + ([")"] + rest));
      assert At(text, q + 0) == '(';
    } else {
      TokensAt(e);
      match e
      case Number(n) =>
        var q := NumberAt(text, p, n, rest, map[]);
        StartsApart(At(text, q));
      case Variable(name) =>
        var q := IdentifierAt(text, p, name, rest);
        StartsApart(At(text, q));
      case PostStep(name, up) =>
        assert [name, Twice(up)] + rest == [name] + ([Twice(up)] + rest);
        var q := IdentifierAt(text, p, name, [Twice(up)] + rest);
        StartsApart(At(text, q));
    }
  }

  /** A level whose own operator `e` does not have is read as the level above it, and then sees its end. */
  lemma PassDown(e: Expression, level: nat, text: string, p: nat, rest: seq<string>, variables: Variables, depth: nat)
    requires WellFormed(e) && level in {1, 2, 13, 14} && Level(e) != level && depth <= DEEPEST
    requires Spells(text, p, Tokens(e, level) + rest) && Stops(rest, level) && p <= |text|
    ensures Gives(ParseAt(level, text, p, variables, depth), Eval(e, variables, depth), text, rest)
    decreases e, if Level(e) < level then 1 else 0, 15 - level, 0
  {
    hide Spells, Tokens, Stops, Eval, SkipSpace, OperatorAt, AssignmentAt, IdentifierEnd, PreIncrement;
    SameTokens(e, level);
    StopsHigher(rest, level, level + 1);
    if level == 14 {
      PrimaryStart(e, text, p, rest);
      SpellsSkipped(text, p, Tokens(e, 15) + rest);
      Reads(e, 15, text, SkipSpace(text, p), rest, variables, depth);
    } else {
      Reads(e, level + 1, text, p, rest, variables, depth);
      var r := ParseAt(level + 1, text, p, variables, depth);
      if level == 1 {
        StopsHigher(rest, 2, 100);
        NoAssignment(e, 2, text, p, rest);
      } else {
        if r.Reading? {
          NextStops(text, r.position, rest, level);
          SpellsSkipped(text, r.position, rest);
        }
        if level == 13 { PowerLevel(text, p, variables, depth); }
      }
    }
  }

  lemma PowerLevel(text: string, p: nat, variables: Variables, depth: nat)
    requires p <= |text| && depth <= DEEPEST
    ensures ParseLevel(13, text, p, variables, depth) == ParsePower(text, p, variables, depth)
  {}

  /** What is printed for a conditional or tighter does not begin like an assignment. */
  lemma NoAssignment(e: Expression, level: nat, text: string, p: nat, rest: seq<string>)
    requires WellFormed(e) && 2 <= level <= 15 && Spells(text, p, Tokens(e, level) + rest) && Stops(rest, 100)
    ensures var start := SkipSpace(text, p);
            var end := IdentifierEnd(text, start);
            var q := SkipSpace(text, end);
            end > start ==> AssignmentAt(At(text, q), At(text, q + 1), At(text, q + 2)) == None
    decreases e
  {
    hide Spells, Stops, SkipSpace, AssignmentAt, Decimal, Spelling, IdentifierEnd;
    if Level(e) < level || (!e.Binary? && !e.Conditional?) {
      NoAssignmentFirst(e, level, text, p, rest);
    } else {
      match e
      case Binary(op, left, right) =>
        var a := if op.Exponent? then 14 else LevelOf(op);
        var b := if op.Exponent? then 13 else LevelOf(op) + 1;
        Shape(Tokens(left, a), Spelling(op), Tokens(right, b), rest);
        StopsMore(OperatorMark(op), Tokens(right, b) + rest, 100);
        NoAssignment(left, a, text, p, [Spelling(op)] + (Tokens(right, b) + rest));
      case Conditional(condition, whenTrue, whenFalse) =>
        Shape2(Tokens(condition, 3), "?", Tokens(whenTrue, 1), ":", Tokens(whenFalse, 1), rest);
        var more := Tokens(whenTrue, 1) + ([":"] + (Tokens(whenFalse, 1) + rest));
        StopsMore(Question, more, 100);
        NoAssignment(condition, 3, text, p, ["?"] + more);
    }
  }

  /** The same where the text does not begin with the text of a smaller tree. */
  lemma NoAssignmentFirst(e: Expression, level: nat, text: string, p: nat, rest: seq<string>)
    requires WellFormed(e) && 2 <= level <= 15 && Spells(text, p, Tokens(e, level) + rest) && Stops(rest, 100)
    requires Level(e) < level || (!e.Binary? && !e.Conditional?)
    ensures var start := SkipSpace(text, p);
            var end := IdentifierEnd(text, start);
            var q := SkipSpace(text, end);
            end > start ==> AssignmentAt(At(text, q), At(text, q + 1), At(text, q + 2)) == None
  {
    hide Spells, Stops, SkipSpace, AssignmentAt, Decimal, Spelling;
    if Level(e) < level {
      assert ["("] + Body(e) + [")"] + rest == ["("] + (Body(e) + ([")"] + rest));
      var q := TokenAt(text, p, "(", Body(e) + ([")"] + rest));
      assert At(text, q + 0) == '(';
    } else {
      match e
      case Number(n) =>
        var q := NumberAt(text, p, n, rest, map[]);
        StartsApart(At(text, q));
      case Variable(name) =>
        var q := IdentifierAt(text, p, name, rest);
        NextStops(text, q + |name|, rest, 100);
      case Prefix(sign, operand) =>
        ShapeFirst([sign], Tokens(operand, 14), rest);
        var q := SignAt(text, p, sign, Tokens(operand, 14) + rest);
        StartsApart(At(text, q));
      case PreStep(name, up) =>
        assert [Twice(up), name] + rest == [Twice(up)] + ([name] + rest);
        var q := TokenAt(text, p, Twice(up), [name] + rest);
        assert At(text, q + 0) == Twice(up)[0];
      case PostStep(_, _) => NoAssignmentAfter(e, text, p, rest);
    }
  }

  lemma NoAssignmentAfter(e: Expression, text: string, p: nat, rest: seq<string>)
    requires e.PostStep? && WellFormed(e) && Spells(text, p, Tokens(e, 15) + rest) && Stops(rest, 100)
    ensures var start := SkipSpace(text, p);
            var end := IdentifierEnd(text, start);
            var q := SkipSpace(text, end);
            end > start ==> AssignmentAt(At(text, q), At(text, q + 1), At(text, q + 2)) == None
  {
    hide Spells, Stops, SkipSpace, AssignmentAt, Spelling, IdentifierEnd;
    var step := Twice(e.up);
    TokensAt(e);
    assert [e.name, step] + rest == [e.name] + ([step] + rest);
    var start := IdentifierAt(text, p, e.name, [step] + rest);
    var q := TokenAt(text, start + |e.name|, step, rest);
    assert At(text, q + 0) == step[0] && At(text, q + 1) == step[1];
    StepIsNoAssignment(At(text, q), At(text, q + 1), At(text, q + 2));
  }

  lemma StepIsNoAssignment(a: char, b: char, c: char)
    requires (a == '+' || a == '-') && b == a
    ensures AssignmentAt(a, b, c) == None
  {}

  // ---- the theorems ----

  /** The text spells the tree, with as few parentheses as precedence and associativity allow. */
  ghost predicate Prints(text: string, e: Expression) {
    Spells(text, 0, Tokens(e, 0))
  }

  /**
   Evaluating what a tree prints as gives what the tree means: all of the text is read, and value,
   variables and errors agree.
   */
  lemma EvaluatePrinted(e: Expression, text: string, variables: Variables, depth: nat)
    requires WellFormed(e) && depth <= DEEPEST && Prints(text, e)
    ensures Evaluate(variables, text, depth) == Eval(e, variables, depth)
  {
    hide Spells, Tokens, Eval, ParseComma, SkipSpace;
    assert Tokens(e, 0) + [] == Tokens(e, 0);
    NotBlank(e, text);
    Reads(e, 0, text, 0, [], variables, depth);
    var r := ParseComma(text, 0, variables, depth);
    if r.Reading? { AtEnd(text, r.position); }
  }

  lemma AtEnd(text: string, p: nat)
    requires Spells(text, p, [])
    ensures SkipSpace(text, p) == |text|
  {}

  lemma NotBlank(e: Expression, text: string)
    requires WellFormed(e) && Spells(text, 0, Tokens(e, 0))
    ensures SkipSpace(text, 0) < |text|
  {
    SomeToken(e, 0);
  }

  lemma {:induction false} SomeToken(e: Expression, level: nat)
    requires WellFormed(e)
    ensures Tokens(e, level) != [] && Tokens(e, level)[0] != ""
    decreases e
  {
    if Level(e) >= level {
      match e
      case Binary(op, left, right) =>
        SomeToken(left, if op.Exponent? then 14 else LevelOf(op));
      case Conditional(condition, _, _) => SomeToken(condition, 3);
      case Comma(first, _) => SomeToken(first, 0);
      case _ =>
    }
  }

  // ---- operands that need not have been evaluated ----

  /** Nothing is assigned, in the tree or in a variable's text. */
  predicate Quiet(e: Expression) {
    match e
    case Number(_) => true
    case Variable(_) => true
    case Prefix(_, operand) => Quiet(operand)
    case Binary(_, left, right) => Quiet(left) && Quiet(right)
    case Conditional(condition, whenTrue, whenFalse) => Quiet(condition) && Quiet(whenTrue) && Quiet(whenFalse)
    case _ => false
  }

  ghost predicate QuietVariables(variables: Variables, depth: nat)
    requires depth <= DEEPEST
  {
    forall name: string :: ReadVariable(variables, name, depth).variables == variables
  }

  /** The meaning in which `&&`, `||` and `?:` leave the operands they do not need alone. */
  function Lazy(e: Expression, variables: Variables, depth: nat): Outcome
    requires depth <= DEEPEST
  {
    match e
    case Prefix(sign, operand) =>
      (match Lazy(operand, variables, depth)
       case Failure(error, after) => Failure(error, after)
       case Value(value, after) => Value(Unary(sign, value), after))
    case Binary(op, left, right) =>
      (match Lazy(left, variables, depth)
       case Failure(error, after) => Failure(error, after)
       case Value(a, after) =>
         if op == And && a == 0 then Value(0, after)
         else if op == Or && a != 0 then Value(1, after)
         else match Lazy(right, after, depth)
              case Failure(error, last) => Failure(error, last)
              case Value(b, last) => Combined(op, a, b, last))
    case Conditional(condition, whenTrue, whenFalse) =>
      (match Lazy(condition, variables, depth)
       case Failure(error, after) => Failure(error, after)
       case Value(c, after) => if c != 0 then Lazy(whenTrue, after, depth) else Lazy(whenFalse, after, depth))
    case _ => Eval(e, variables, depth)
  }

  lemma {:induction false} QuietEval(e: Expression, variables: Variables, depth: nat)
    requires depth <= DEEPEST && Quiet(e) && QuietVariables(variables, depth)
    ensures Eval(e, variables, depth).variables == variables
    ensures Eval(e, variables, depth).Value? ==> Lazy(e, variables, depth) == Eval(e, variables, depth)
  {
    hide ReadVariable, Combine, Unary;
    match e
    case Number(_) =>
    case Variable(name) => assert ReadVariable(variables, name, depth).variables == variables;
    case Prefix(_, operand) => QuietEval(operand, variables, depth);
    case Binary(op, left, right) =>
      QuietEval(left, variables, depth);
      QuietEval(right, variables, depth);
      ShortCircuits(op);
    case Conditional(condition, whenTrue, whenFalse) =>
      QuietEval(condition, variables, depth);
      QuietEval(whenTrue, variables, depth);
      QuietEval(whenFalse, variables, depth);
  }

  lemma ShortCircuits(op: Operator)
    ensures op == And ==> forall b :: Combine(op, 0, b) == Ok(0)
    ensures op == Or ==> forall a, b :: a != 0 ==> Combine(op, a, b) == Ok(1)
  {}

  /**
   For one `&&` or `||` between operands that agree, evaluating both sides differs from evaluating
   only what is needed exactly when the side that is not needed fails.
   */
  lemma StrictnessShows(op: Operator, left: Expression, right: Expression, variables: Variables, depth: nat)
    requires depth <= DEEPEST && op in {And, Or} && Quiet(left) && Quiet(right) && QuietVariables(variables, depth)
    requires Eval(left, variables, depth) == Lazy(left, variables, depth) && Eval(right, variables, depth) == Lazy(right, variables, depth)
    ensures var a, b := Eval(left, variables, depth), Eval(right, variables, depth);
            Eval(Binary(op, left, right), variables, depth) == Lazy(Binary(op, left, right), variables, depth)
            <==> !(a.Value? && (a.value == 0 <==> op == And) && b.Failure?)
  {
    hide ReadVariable, Unary;
    QuietEval(left, variables, depth);
    QuietEval(right, variables, depth);
  }

  /** For `?:` it differs exactly when the branch that is not taken fails, unless the other fails in the very same way. */
  lemma ConditionalShows(condition: Expression, whenTrue: Expression, whenFalse: Expression, variables: Variables, depth: nat)
    requires depth <= DEEPEST && Quiet(condition) && Quiet(whenTrue) && Quiet(whenFalse) && QuietVariables(variables, depth)
    requires Eval(condition, variables, depth) == Lazy(condition, variables, depth)
    requires Eval(whenTrue, variables, depth) == Lazy(whenTrue, variables, depth)
    requires Eval(whenFalse, variables, depth) == Lazy(whenFalse, variables, depth)
    ensures var k, a, b := Eval(condition, variables, depth), Eval(whenTrue, variables, depth), Eval(whenFalse, variables, depth);
            var e := Conditional(condition, whenTrue, whenFalse);
            Eval(e, variables, depth) == Lazy(e, variables, depth)
            <==> (k.Value? ==> if k.value != 0 then a.Failure? || b.Value? else a.Value? || a == b)
  {
    hide ReadVariable, Unary;
    QuietEval(condition, variables, depth);
    QuietEval(whenTrue, variables, depth);
    QuietEval(whenFalse, variables, depth);
  }

  /** `0 && 1/0` is an error here, where it would be 0. */
  lemma SkippedDivisionFails()
    ensures var e := Binary(And, Number(0), Binary(Divide, Number(1), Number(0)));
            Eval(e, map[], 0) == Failure(DivisionByZero, map[]) && Lazy(e, map[], 0) == Value(0, map[])
  {}
}
