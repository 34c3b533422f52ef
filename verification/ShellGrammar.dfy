/**
 Which phrases are well written in front of which tokens. Every condition looks at the words of
 the phrase itself or at the next few tokens after one of its parts; none runs the parser.
 */
module ShellGrammar {
  import opened ShellSyntax
  import opened ShellParsing

  ghost predicate Starts(ts: Tokens, tokens: set<Token>) {
    ts != [] && ts[0] in tokens
  }

  // ---- arithmetic text ----

  /**
   Nothing inside closes the text: a parenthesis at the outermost depth would, and so would one
   that comes back to it when another closing parenthesis follows.
   */
  ghost predicate Encloses(inside: Tokens, twice: bool, depth: nat) {
    if inside == [] then depth == 1 || (depth == 2 && twice)
    else
      match inside[0]
      case LeftParen => Encloses(inside[1..], twice, depth + 1)
      case DoubleLeftParen => Encloses(inside[1..], twice, depth + 2)
      case RightParen => depth >= 2 && (depth == 2 ==> |inside| > 1 && inside[1] != RightParen) && Encloses(inside[1..], twice, depth - 1)
      case _ => Encloses(inside[1..], twice, depth)
  }

  ghost predicate GoodArithmetic(inside: Tokens, twice: bool, rest: Tokens) {
    Encloses(inside, twice, 1) && (!twice ==> !Starts(rest, {RightParen}))
  }

  // ---- simple commands ----

  ghost predicate GoodRedirect(lex: Lexicon, r: Redirect) {
    IsHereDocument(r.operator) || lex.readable(r.target)
  }

  ghost predicate GoodRedirects(lex: Lexicon, rs: seq<Redirect>, rest: Tokens) {
    (forall r :: r in rs ==> GoodRedirect(lex, r)) && !StartsRedirect(rest)
  }

  /** A simple command ends at a sign, or at a block terminator as long as it has no name. */
  ghost predicate ItemsEnd(named: bool, rest: Tokens) {
    !StartsRedirect(rest) && (rest == [] || !(rest[0].Word? || rest[0].IoNumber?) || (rest[0].Word? && !named && IsBlockTerminator(rest[0].text)))
  }

  ghost predicate GoodItem(lex: Lexicon, i: ShellSyntax.Item, named: bool, after: Tokens) {
    match i
    case Redirected(r) => GoodRedirect(lex, r)
    case Number(digits) => lex.readable(digits) && !(after != [] && after[0].Redirector?)
    case Assignment(text) => !named && !IsBlockTerminator(text) && lex.assigning(text) == Assigns
    case Argument(text) => lex.readable(text) && (named || (!IsBlockTerminator(text) && lex.assigning(text) == NoAssignment))
  }

  ghost predicate GoodItems(lex: Lexicon, items: seq<ShellSyntax.Item>, named: bool, rest: Tokens) {
    if items == [] then ItemsEnd(named, rest) else
    GoodItem(lex, items[0], named, WriteItems(items[1..], rest)) && GoodItems(lex, items[1..], named || Names(items[0]), rest)
  }

  // ---- conditional expressions ----

  ghost predicate GoodOr(lex: Lexicon, e: Or, rest: Tokens) {
    GoodAnd(lex, e.first, WriteOrs(e.more, rest)) && GoodOrs(lex, e.more, rest)
  }

  ghost predicate GoodOrs(lex: Lexicon, es: Ors, rest: Tokens) {
    match es
    case NoOr => !Starts(rest, {OrIf})
    case OrMore(gap, next, more) =>
      var after := WriteOrs(more, rest);
      Settled(gap, WriteAnd(next, after), false) && GoodAnd(lex, next, after) && GoodOrs(lex, more, rest)
  }

  ghost predicate GoodAnd(lex: Lexicon, e: And, rest: Tokens) {
    GoodPrimary(lex, e.first, WriteAnds(e.more, rest)) && GoodAnds(lex, e.more, rest)
  }

  ghost predicate GoodAnds(lex: Lexicon, es: Ands, rest: Tokens) {
    match es
    case NoAnd => !Starts(rest, {AndIf})
    case AndMore(gap, next, more) =>
      var after := WriteAnds(more, rest);
      Settled(gap, WritePrimary(next, after), false) && GoodPrimary(lex, next, after) && GoodAnds(lex, more, rest)
  }

  ghost predicate GoodPrimary(lex: Lexicon, p: Primary, rest: Tokens) {
    match p
    case Not(denied) => GoodPrimary(lex, denied, rest)
    case Parens(inner) => GoodOr(lex, inner, Cons(RightParen, rest))
    case Unary(test, operand) => IsUnaryTest(test) && operand != "]]" && lex.readable(operand)
    case Binary(left, test, right) => left != "!" && !IsUnaryTest(left) && IsBinaryTest(test) && lex.readable(left) && lex.readable(right)
    case Ordered(left, _, right) => left != "!" && lex.readable(left) && lex.readable(right)
    case Value(text) =>
      && text != "!" && lex.readable(text) && !Starts(rest, {Redirector(Less), Redirector(Great)})
      && (rest != [] && rest[0].Word? ==> !IsBinaryTest(rest[0].text) && (IsUnaryTest(text) ==> rest[0].text == "]]"))
  }

  // ---- lists and pipelines ----

  ghost predicate GoodList(lex: Lexicon, l: List, rest: Tokens)
    decreases l, 0
  {
    GoodPipe(lex, l.first, WriteTail(l.tail, rest)) && GoodTail(lex, l.tail, rest)
  }

  ghost predicate GoodTail(lex: Lexicon, t: Tail, rest: Tokens)
    decreases t, 0
  {
    match t
    case Stop => !Starts(rest, {AndIf, OrIf, Ampersand, Semicolon})
    case Join(_, gap, next, more) =>
      var after := WriteTail(more, rest);
      Settled(gap, WritePipe(next, after), false) && GoodPipe(lex, next, after) && GoodTail(lex, more, rest)
    case Close(_, gap) => Settled(gap, rest, false) && ListEnds(rest)
    case More(_, gap, list) =>
      Settled(gap, WriteList(list, rest), false) && !ListEnds(WriteList(list, rest)) && GoodList(lex, list, rest)
  }

  ghost predicate GoodPipe(lex: Lexicon, p: ShellSyntax.Pipe, rest: Tokens)
    decreases p, 0
  {
    match p
    case Stages(_, first, stages) =>
      var after := WriteTubes(stages, rest);
      && !IsKeyword(WriteCommand(first, after), "!") && !IsKeyword(WriteCommand(first, after), "time")
      && GoodCommand(lex, first, after) && GoodTubes(lex, stages, rest)
    case Timed(_, posix, body) =>
      && (!posix ==> !IsKeyword(WritePipe(body, rest), "-p")) && !TimeEnds(WritePipe(body, rest)) && GoodPipe(lex, body, rest)
    case TimedNothing(_, _) => TimeEnds(rest)
  }

  ghost predicate GoodTubes(lex: Lexicon, s: Tubes, rest: Tokens)
    decreases s, 0
  {
    match s
    case NoTube => !Starts(rest, {Token.Pipe, PipeAmpersand})
    case Tube(_, gap, next, more) =>
      var after := WriteTubes(more, rest);
      Settled(gap, WriteCommand(next, after), false) && GoodCommand(lex, next, after) && GoodTubes(lex, more, rest)
  }

  // ---- commands ----

  ghost predicate GoodCommand(lex: Lexicon, c: Command, rest: Tokens)
    decreases c, 1
  {
    match c
    case Simple(items) => items != [] && OpeningOf(WriteItems(items, rest)) == OpensSimple && GoodItems(lex, items, false, rest)
    case Compound(body, redirects) => GoodBody(lex, body, WriteRedirects(redirects, rest)) && GoodRedirects(lex, redirects, rest)
    case Function(heading, name, gap, definition) =>
      var after := WriteCommand(definition, rest);
      && (heading.Shorthand? ==> OpeningOf(WriteCommand(c, rest)) == OpensShorthand)
      && (heading == Keyword(false) ==> !Starts(Before(gap, after), {LeftParen}))
      && Settled(gap, after, false) && GoodDefinition(lex, definition, rest)
  }

  ghost predicate GoodDefinition(lex: Lexicon, c: Command, rest: Tokens)
    decreases c, 2
  {
    if OpeningOf(WriteCommand(c, rest)) in {OpensGroup, OpensSubshell}
    then c.Compound? && c.redirects == [] && GoodBody(lex, c.body, rest)
    else GoodCommand(lex, c, rest)
  }

  ghost predicate GoodBody(lex: Lexicon, b: Body, rest: Tokens)
    decreases b, 1
  {
    match b
    case If(c, t, e) =>
      var then_ := WriteBlock(t, WriteAlternative(e, rest));
      && GoodBlock(lex, c, THEN, true, Cons(Word("then"), then_))
      && GoodBlock(lex, t, BRANCH, true, WriteAlternative(e, rest)) && GoodAlternative(lex, e, rest)
    case While(_, c, body) => GoodBlock(lex, c, DO, true, WriteDo(body, rest)) && GoodDo(lex, body, rest)
    case For(_, _, items, gap, body) =>
      var after := WriteDo(body, rest);
      && (items.None? ==> !IsKeyword(Before(gap, after), "in")) && (items.Some? ==> GoodWords(lex, items.value, Before(gap, after)))
      && Settled(gap, after, true) && GoodDo(lex, body, rest)
    case ArithmeticFor(inside, twice, gap, body) =>
      GoodArithmetic(inside, twice, Before(gap, WriteDo(body, rest))) && Settled(gap, WriteDo(body, rest), true) && GoodDo(lex, body, rest)
    case Coprocess(title, command) =>
      var after := WriteCommand(command, rest);
      && (title.Some? <==> IsLabelled(if title.Some? then Cons(Word(title.value), after) else after)) && GoodCommand(lex, command, rest)
    case Case(subject, newlines, gap, cases) =>
      var after := WriteCases(cases, Cons(Word("esac"), rest));
      && lex.readable(subject) && Settled(newlines, Cons(Word("in"), Before(gap, after)), false)
      && Settled(gap, after, true) && GoodCases(lex, cases, Cons(Word("esac"), rest))
    case Group(body) => GoodBlock(lex, body, BRACE, true, Cons(Word("}"), rest))
    case Subshell(body) => GoodBlock(lex, body, Paren, false, Cons(RightParen, rest))
    case Conditional(e) => GoodOr(lex, e, Cons(Word("]]"), rest))
    case Arithmetic(inside, twice) => GoodArithmetic(inside, twice, rest)
  }

  ghost predicate GoodAlternative(lex: Lexicon, a: Alternative, rest: Tokens)
    decreases a, 1
  {
    match a
    case Fi => true
    case Else(body) => GoodBlock(lex, body, FI, true, Cons(Word("fi"), rest))
    case Elif(c, t, e) =>
      && GoodBlock(lex, c, THEN, true, Cons(Word("then"), WriteBlock(t, WriteAlternative(e, rest))))
      && GoodBlock(lex, t, BRANCH, true, WriteAlternative(e, rest)) && GoodAlternative(lex, e, rest)
  }

  ghost predicate GoodDo(lex: Lexicon, body: Block, rest: Tokens)
    decreases body, 2
  {
    GoodBlock(lex, body, DONE, true, Cons(Word("done"), rest))
  }

  ghost predicate GoodWords(lex: Lexicon, texts: seq<string>, rest: Tokens) {
    && (forall t :: t in texts ==> lex.readable(t) && !IsBlockTerminator(t))
    && (rest != [] && rest[0].Word? ==> IsBlockTerminator(rest[0].text))
  }

  ghost predicate GoodCases(lex: Lexicon, cs: Cases, rest: Tokens)
    decreases cs, 0
  {
    match cs
    case NoCase => rest == [] || IsKeyword(rest, "esac")
    case Cases(first, gap, more) =>
      var after := WriteCases(more, rest);
      && (!first.paren && first.patterns != [] ==> first.patterns[0] != "esac")
      && GoodCaseItem(lex, first, Before(gap, after)) && Settled(gap, after, true) && GoodCases(lex, more, rest)
  }

  /** The commands of a case are one list: a second list after a line end has no place here. */
  ghost predicate GoodCaseItem(lex: Lexicon, i: CaseItem, rest: Tokens)
    decreases i, 0
  {
    var closing := Before(i.newlines, WriteCaseEnd(i.end, rest));
    var content := WriteCaseBody(i.body, i.newlines, i.end, rest);
    && i.patterns != [] && (forall p :: p in i.patterns ==> lex.readable(p))
    && Settled(i.before, content, true) && (i.body.None? <==> CaseItemEnds(content))
    && (i.body.Some? ==> GoodList(lex, i.body.value, closing))
    && Settled(i.newlines, WriteCaseEnd(i.end, rest), false)
    && (if i.end.Some? then IsCaseEnd(i.end.value) else rest == [] || !IsCaseEnd(rest[0]))
  }

  // ---- blocks and scripts ----

  ghost predicate GoodBlock(lex: Lexicon, b: Block, until: Until, required: bool, rest: Tokens)
    decreases b, 1
  {
    Settled(b.gap, WriteEntries(b.entries, rest), true) && (required ==> b.entries.Entry?) && GoodEntries(lex, b.entries, until, rest)
  }

  ghost predicate GoodEntries(lex: Lexicon, es: Entries, until: Until, rest: Tokens)
    decreases es, 0
  {
    match es
    case NoEntry => Stops(until, rest)
    case Entry(list, gap, more) =>
      var after := WriteEntries(more, rest);
      && !Stops(until, WriteEntries(es, rest)) && GoodList(lex, list, Before(gap, after))
      && Settled(gap, after, true) && GoodEntries(lex, more, until, rest)
  }

  ghost predicate GoodScript(lex: Lexicon, b: Block) {
    GoodBlock(lex, b, Never, false, [])
  }
}
