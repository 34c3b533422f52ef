/**
 Whatever is well written is accepted, and read back as the very phrase it was written from.
 */
module ShellParserCompleteness {
  import opened Wrappers
  import opened ShellSyntax
  import opened ShellParsing
  import opened ShellGrammar

  lemma {:induction false} SkipsGap(gap: Tokens, after: Tokens, semicolons: bool)
    requires Settled(gap, after, semicolons)
    ensures Skip(Before(gap, after), semicolons) == |gap|
    decreases |gap|
  {
    if gap != [] {
      assert gap[0] in gap;
      assert Before(gap, after)[1..] == Before(gap[1..], after);
      SkipsGap(gap[1..], after, semicolons);
    }
  }

  lemma {:induction false} CountsBangs(n: nat, rest: Tokens)
    requires !IsKeyword(rest, "!")
    ensures CountBangs(Bangs(n, rest)) == n && Bangs(n, rest)[n..] == rest
    decreases n
  {
    if n > 0 {
      CountsBangs(n - 1, rest);
      assert Bangs(n, rest)[n..] == Bangs(n, rest)[1..][n - 1..];
    }
  }

  // ---- arithmetic text ----

  lemma {:induction false} EndsThere(inside: Tokens, twice: bool, depth: nat, after: Tokens)
    requires depth >= 1 && Encloses(inside, twice, depth) && after != [] && after[0] == RightParen
    requires twice <==> |after| > 1 && after[1] == RightParen
    ensures ArithmeticEnd(Before(inside, after), depth) == Some(|inside|)
    decreases |inside|
  {
    if inside != [] {
      assert Before(inside, after)[1..] == Before(inside[1..], after);
      var inner := match inside[0] case LeftParen => depth + 1 case DoubleLeftParen => depth + 2 case RightParen => depth - 1 case _ => depth;
      EndsThere(inside[1..], twice, inner, after);
    }
  }

  lemma CompleteArithmetic(inside: Tokens, twice: bool, rest: Tokens)
    requires GoodArithmetic(inside, twice, rest)
    ensures ParseArithmetic(WriteArithmetic(inside, twice, rest)) == Parsed((inside, twice), rest)
  {
    hide Encloses, ArithmeticEnd;
    var after := Cons(RightParen, Maybe(twice, RightParen, rest));
    assert twice <==> |after| > 1 && after[1] == RightParen by {
      if twice { assert after[1] == after[1..][0]; }
      else if rest != [] { assert after[1] == rest[0]; }
    }
    EndsThere(inside, twice, 1, after);
    var ts := Before(inside, after);
    assert ts[..|inside|] == inside;
    assert ts[|inside| + 1..] == ts[|inside|..][1..] == after[1..];
  }

  // ---- simple commands ----

  lemma CompleteRedirect(lex: Lexicon, r: Redirect, rest: Tokens)
    requires GoodRedirect(lex, r)
    ensures StartsRedirect(WriteRedirect(r, rest)) && ParseRedirect(lex, WriteRedirect(r, rest)) == Parsed(r, rest)
  {
    var bare := Cons(Redirector(r.operator), Cons(Word(r.target), rest));
    assert bare[2..] == bare[1..][1..];
  }

  lemma {:induction false} CompleteRedirects(lex: Lexicon, rs: seq<Redirect>, rest: Tokens)
    requires GoodRedirects(lex, rs, rest)
    ensures ParseRedirects(lex, WriteRedirects(rs, rest)) == Parsed(rs, rest)
    decreases |rs|
  {
    if rs != [] {
      CompleteRedirect(lex, rs[0], WriteRedirects(rs[1..], rest));
      CompleteRedirects(lex, rs[1..], rest);
      assert [rs[0]] + rs[1..] == rs;
    }
  }

  lemma CompleteItem(lex: Lexicon, i: Item, named: bool, after: Tokens)
    requires GoodItem(lex, i, named, after)
    ensures ParseItem(lex, WriteItem(i, after), named) == Parsed(Some(i), after)
  {
    if i.Redirected? { CompleteRedirect(lex, i.redirect, after); }
  }

  lemma {:induction false} CompleteItems(lex: Lexicon, items: seq<Item>, named: bool, rest: Tokens)
    requires GoodItems(lex, items, named, rest)
    ensures ParseItems(lex, WriteItems(items, rest), named) == Parsed(items, rest)
    decreases |items|
  {
    hide GoodItem, WriteItem;
    if items != [] {
      CompleteItem(lex, items[0], named, WriteItems(items[1..], rest));
      CompleteItems(lex, items[1..], named || Names(items[0]), rest);
      assert [items[0]] + items[1..] == items;
    }
  }

  // ---- conditional expressions ----

  lemma {:induction false} CompleteOr(lex: Lexicon, e: Or, rest: Tokens)
    requires GoodOr(lex, e, rest)
    ensures ParseOr(lex, WriteOr(e, rest)) == Parsed(e, rest)
    decreases e
  {
    CompleteAnd(lex, e.first, WriteOrs(e.more, rest));
    CompleteOrs(lex, e.more, rest);
  }

  lemma {:induction false} CompleteOrs(lex: Lexicon, es: Ors, rest: Tokens)
    requires GoodOrs(lex, es, rest)
    ensures ParseOrs(lex, WriteOrs(es, rest)) == Parsed(es, rest)
    decreases es
  {
    hide WriteAnd, GoodAnd, ParseAnd, Settled, Skip;
    if es.OrMore? {
      var after := WriteOrs(es.more, rest);
      SkipsGap(es.gap, WriteAnd(es.next, after), false);
      CompleteAnd(lex, es.next, after);
      CompleteOrs(lex, es.more, rest);
    }
  }

  lemma {:induction false} CompleteAnd(lex: Lexicon, e: And, rest: Tokens)
    requires GoodAnd(lex, e, rest)
    ensures ParseAnd(lex, WriteAnd(e, rest)) == Parsed(e, rest)
    decreases e
  {
    CompletePrimary(lex, e.first, WriteAnds(e.more, rest));
    CompleteAnds(lex, e.more, rest);
  }

  lemma {:induction false} CompleteAnds(lex: Lexicon, es: Ands, rest: Tokens)
    requires GoodAnds(lex, es, rest)
    ensures ParseAnds(lex, WriteAnds(es, rest)) == Parsed(es, rest)
    decreases es
  {
    if es.AndMore? {
      var after := WriteAnds(es.more, rest);
      SkipsGap(es.gap, WritePrimary(es.next, after), false);
      CompletePrimary(lex, es.next, after);
      CompleteAnds(lex, es.more, rest);
    }
  }

  lemma {:induction false} CompletePrimary(lex: Lexicon, p: Primary, rest: Tokens)
    requires GoodPrimary(lex, p, rest)
    ensures ParsePrimary(lex, WritePrimary(p, rest)) == Parsed(p, rest)
    decreases p
  {
    hide ParseTest, WriteOr, GoodOr, ParseOr;
    match p
    case Not(denied) => CompletePrimary(lex, denied, rest);
    case Parens(inner) => CompleteOr(lex, inner, Cons(RightParen, rest));
    case _ => CompleteTest(lex, p, rest);
  }

  lemma CompleteTest(lex: Lexicon, p: Primary, rest: Tokens)
    requires GoodPrimary(lex, p, rest) && !p.Not? && !p.Parens?
    ensures var ts := WritePrimary(p, rest);
            ts != [] && ts[0].Word? && ts[0].text != "!" && ParseTest(lex, ts) == Parsed(p, rest)
  {
    var ts := WritePrimary(p, rest);
    match p
    case Unary(_, _) =>
      assert ts[1..][1..] == rest;
    case Binary(_, test, right) =>
      assert ts[1..] == Cons(Word(test), Cons(Word(right), rest));
      assert ts[1..][2..] == rest;
    case Ordered(_, less, right) =>
      assert ts[1..] == Cons(Redirector(if less then Less else Great), Cons(Word(right), rest));
      assert ts[1..][2..] == rest;
    case Value(_) =>
  }

  // ---- lists and pipelines ----

  lemma {:induction false} CompleteList(lex: Lexicon, l: List, rest: Tokens)
    requires GoodList(lex, l, rest)
    ensures ParseList(lex, WriteList(l, rest)) == Parsed(l, rest)
    decreases l
  {
    hide ParsePipe, ParseTail, WritePipe, WriteTail, GoodPipe, GoodTail;
    CompletePipe(lex, l.first, WriteTail(l.tail, rest));
    CompleteTail(lex, l.tail, rest);
  }

  lemma {:induction false} CompleteTail(lex: Lexicon, t: Tail, rest: Tokens)
    requires GoodTail(lex, t, rest)
    ensures ParseTail(lex, WriteTail(t, rest)) == Parsed(t, rest)
    decreases t
  {
    hide ParsePipe, ParseList, WritePipe, WriteList, GoodPipe, GoodList, Skip, Settled, ListEnds;
    match t
    case Stop =>
    case Join(_, gap, next, more) =>
      var after := WriteTail(more, rest);
      SkipsGap(gap, WritePipe(next, after), false);
      CompletePipe(lex, next, after);
      CompleteTail(lex, more, rest);
    case Close(_, gap) =>
      SkipsGap(gap, rest, false);
    case More(_, gap, list) =>
      SkipsGap(gap, WriteList(list, rest), false);
      CompleteList(lex, list, rest);
  }

  lemma {:induction false} CompletePipe(lex: Lexicon, p: ShellSyntax.Pipe, rest: Tokens)
    requires GoodPipe(lex, p, rest)
    ensures ParsePipe(lex, WritePipe(p, rest)) == Parsed(p, rest)
    decreases p
  {
    hide ParseCommand, ParseTubes, WriteCommand, WriteTubes, GoodCommand, GoodTubes, TimeEnds, CountBangs, Bangs;
    match p
    case Stages(bangs, first, stages) =>
      var after := WriteTubes(stages, rest);
      CountsBangs(bangs, WriteCommand(first, after));
      CompleteCommand(lex, first, after);
      CompleteTubes(lex, stages, rest);
    case Timed(bangs, posix, body) =>
      CountsBangs(bangs, Cons(Word("time"), Maybe(posix, Word("-p"), WritePipe(body, rest))));
      CompletePipe(lex, body, rest);
    case TimedNothing(bangs, posix) =>
      CountsBangs(bangs, Cons(Word("time"), Maybe(posix, Word("-p"), rest)));
      NothingToTime(rest);
  }

  lemma NothingToTime(rest: Tokens)
    requires TimeEnds(rest)
    ensures !IsKeyword(rest, "-p")
  {}

  lemma {:induction false} CompleteTubes(lex: Lexicon, s: Tubes, rest: Tokens)
    requires GoodTubes(lex, s, rest)
    ensures ParseTubes(lex, WriteTubes(s, rest)) == Parsed(s, rest)
    decreases s
  {
    hide ParseCommand, WriteCommand, GoodCommand, Skip, Settled;
    if s.Tube? {
      var after := WriteTubes(s.more, rest);
      SkipsGap(s.gap, WriteCommand(s.next, after), false);
      CompleteCommand(lex, s.next, after);
      CompleteTubes(lex, s.more, rest);
    }
  }

  // ---- commands ----

  lemma {:induction false} CompleteCommand(lex: Lexicon, c: Command, rest: Tokens)
    requires GoodCommand(lex, c, rest)
    ensures ParseCommand(lex, WriteCommand(c, rest)) == Parsed(c, rest)
    decreases c, 1
  {
    hide ParseItems, ParseFunction, ParseBody, ParseRedirects, WriteItems, WriteBody, WriteRedirects, GoodItems, GoodBody, GoodRedirects, GoodDefinition, OpeningOf;
    match c
    case Simple(items) => CompleteItems(lex, items, false, rest);
    case Compound(body, redirects) =>
      var after := WriteRedirects(redirects, rest);
      BodyOpens(body, after);
      CompleteBody(lex, body, after);
      CompleteRedirects(lex, redirects, rest);
    case Function(heading, _, _, _) =>
      if heading.Shorthand? { CompleteShorthand(lex, c, rest); } else { CompleteKeyword(lex, c, rest); }
  }

  lemma BodyOpens(b: Body, rest: Tokens)
    ensures OpeningOf(WriteBody(b, rest)) == OpeningFor(b)
  {
    hide WriteBlock, WriteDo, WriteIn, WriteOr, WriteCommand, WriteAlternative, WriteCases, OpeningOf;
    var ts := WriteBody(b, rest);
    assert |ts| > 0;
    if b.Arithmetic? || b.Subshell? { SignOpens(ts); } else { WordOpens(ts); }
  }

  lemma SignOpens(ts: Tokens)
    requires ts != []
    ensures ts[0] == DoubleLeftParen ==> OpeningOf(ts) == OpensArithmetic
    ensures ts[0] == LeftParen ==> OpeningOf(ts) == OpensSubshell
  {}

  lemma WordOpens(ts: Tokens)
    requires ts != []
    ensures ts[0] == Word("if") ==> OpeningOf(ts) == OpensIf
    ensures ts[0] == Word("while") ==> OpeningOf(ts) == OpensWhile
    ensures ts[0] == Word("until") ==> OpeningOf(ts) == OpensUntil
    ensures ts[0] == Word("for") ==> OpeningOf(ts) == OpensFor
    ensures ts[0] == Word("select") ==> OpeningOf(ts) == OpensSelect
    ensures ts[0] == Word("coproc") ==> OpeningOf(ts) == OpensCoprocess
    ensures ts[0] == Word("case") ==> OpeningOf(ts) == OpensCase
    ensures ts[0] == Word("{") ==> OpeningOf(ts) == OpensGroup
    ensures ts[0] == Word("[[") ==> OpeningOf(ts) == OpensConditional
  {}

  function OpeningFor(b: Body): Opening {
    match b
    case If(_, _, _) => OpensIf
    case While(negate, _, _) => if negate then OpensUntil else OpensWhile
    case For(select, _, _, _, _) => if select then OpensSelect else OpensFor
    case ArithmeticFor(_, _, _, _) => OpensFor
    case Coprocess(_, _) => OpensCoprocess
    case Case(_, _, _, _) => OpensCase
    case Group(_) => OpensGroup
    case Subshell(_) => OpensSubshell
    case Conditional(_) => OpensConditional
    case Arithmetic(_, _) => OpensArithmetic
  }

  lemma {:induction false} CompleteShorthand(lex: Lexicon, c: Command, rest: Tokens)
    requires c.Function? && c.heading.Shorthand? && GoodCommand(lex, c, rest)
    ensures ParseCommand(lex, WriteCommand(c, rest)) == Parsed(c, rest)
    decreases c, 0
  {
    hide ParseItems, ParseFunction, ParseBody, ParseRedirects, OpeningOf, GoodDefinition, Settled;
    var after := Before(c.gap, WriteCommand(c.definition, rest));
    var ts := Cons(Word(c.name), Cons(LeftParen, Cons(RightParen, after)));
    assert ts == WriteCommand(c, rest);
    assert ts[3..] == after by { assert ts[3..] == ts[1..][1..][1..]; }
    CompleteFunction(lex, c, rest, ts);
  }

  lemma {:induction false} CompleteKeyword(lex: Lexicon, c: Command, rest: Tokens)
    requires c.Function? && c.heading.Keyword? && GoodCommand(lex, c, rest)
    ensures ParseCommand(lex, WriteCommand(c, rest)) == Parsed(c, rest)
    decreases c, 0
  {
    hide ParseCommand, ParseFunction, GoodDefinition, Settled, WriteItems, WriteBody, WriteRedirects, OpeningOf;
    var after := Before(c.gap, WriteCommand(c.definition, rest));
    KeywordReads(lex, c.heading.parens, c.name, after);
    CompleteFunction(lex, c, rest, WriteHeading(c.heading, c.name, after));
  }

  lemma KeywordReads(lex: Lexicon, parens: bool, name: string, after: Tokens)
    requires !parens ==> !Starts(after, {LeftParen})
    ensures var ts := WriteHeading(Keyword(parens), name, after);
            |ts| > |after| && ParseCommand(lex, ts) == ParseFunction(lex, Keyword(parens), name, after, ts)
  {
    hide ParseItems, ParseFunction, ParseBody, ParseRedirects;
    var named := if parens then WriteParens(after) else after;
    var ts := Cons(Word("function"), Cons(Word(name), named));
    assert ts[2..] == ts[1..][1..] == named;
    if parens { assert ts[4..] == named[1..][1..] == after; }
  }

  lemma {:induction false} CompleteFunction(lex: Lexicon, c: Command, rest: Tokens, whole: Tokens)
    requires c.Function? && Settled(c.gap, WriteCommand(c.definition, rest), false) && GoodDefinition(lex, c.definition, rest)
    requires |Before(c.gap, WriteCommand(c.definition, rest))| < |whole|
    ensures ParseFunction(lex, c.heading, c.name, Before(c.gap, WriteCommand(c.definition, rest)), whole) == Parsed(c, rest)
    decreases c.definition, 3
  {
    hide GoodDefinition, ParseDefinition, WriteCommand;
    SkipsGap(c.gap, WriteCommand(c.definition, rest), false);
    CompleteDefinition(lex, c.definition, rest);
  }

  lemma {:induction false} CompleteDefinition(lex: Lexicon, c: Command, rest: Tokens)
    requires GoodDefinition(lex, c, rest)
    ensures ParseDefinition(lex, WriteCommand(c, rest)) == Parsed(c, rest)
    decreases c, 2
  {
    hide ParseBody, ParseCommand, GoodBody, GoodCommand, WriteBody, OpeningOf;
    if OpeningOf(WriteCommand(c, rest)) in {OpensGroup, OpensSubshell} {
      CompleteBody(lex, c.body, rest);
    } else {
      CompleteCommand(lex, c, rest);
    }
  }

  lemma {:induction false} CompleteBody(lex: Lexicon, b: Body, rest: Tokens)
    requires GoodBody(lex, b, rest)
    ensures ParseBody(lex, WriteBody(b, rest)) == Parsed(b, rest)
    decreases b, 1
  {
    hide ParseIf, ParseWhile, ParseFor, ParseCoprocess, ParseCase, ParseBlock, ParseOr, ParseArithmetic, OpeningOf;
    hide WriteBlock, WriteOr, WriteArithmetic, GoodBlock, GoodOr, GoodArithmetic, WriteCommand, WriteDo, WriteIn, GoodCommand, GoodDo;
    BodyOpens(b, rest);
    match b
    case If(_, _, _) => CompleteIf(lex, b, rest);
    case While(_, _, _) => CompleteWhile(lex, b, rest);
    case For(_, _, _, _, _) => CompleteFor(lex, b, rest);
    case ArithmeticFor(_, _, _, _) => CompleteArithmeticFor(lex, b, rest);
    case Coprocess(_, _) => CompleteCoprocess(lex, b, rest);
    case Case(_, _, _, _) => CompleteCase(lex, b, rest);
    case Group(_) => CompleteEnclosed(lex, b, rest);
    case Subshell(_) => CompleteEnclosed(lex, b, rest);
    case Conditional(_) => CompleteEnclosed(lex, b, rest);
    case Arithmetic(inside, twice) => CompleteArithmetic(inside, twice, rest);
  }

  lemma {:induction false} CompleteEnclosed(lex: Lexicon, b: Body, rest: Tokens)
    requires (b.Group? || b.Subshell? || b.Conditional?) && GoodBody(lex, b, rest)
    ensures ParseBody(lex, WriteBody(b, rest)) == Parsed(b, rest)
    decreases b, 0
  {
    hide ParseBlock, ParseOr, OpeningOf, WriteBlock, WriteOr, GoodBlock, GoodOr;
    BodyOpens(b, rest);
    match b
    case Group(body) => CompleteBlock(lex, body, BRACE, true, Cons(Word("}"), rest));
    case Subshell(body) => CompleteBlock(lex, body, Paren, false, Cons(RightParen, rest));
    case Conditional(e) => CompleteOr(lex, e, Cons(Word("]]"), rest));
  }

  lemma {:induction false} CompleteIf(lex: Lexicon, b: Body, rest: Tokens)
    requires b.If? && GoodBody(lex, b, rest)
    ensures ParseIf(lex, WriteBody(b, rest)) == Parsed(b, rest)
    decreases b, 0
  {
    hide ParseBlock, ParseAlternative, WriteBlock, WriteAlternative, GoodBlock, GoodAlternative;
    var after := WriteAlternative(b.alternative, rest);
    CompleteBlock(lex, b.condition, THEN, true, Cons(Word("then"), WriteBlock(b.consequent, after)));
    CompleteBlock(lex, b.consequent, BRANCH, true, after);
    CompleteAlternative(lex, b.alternative, rest);
  }

  lemma {:induction false} CompleteAlternative(lex: Lexicon, a: Alternative, rest: Tokens)
    requires GoodAlternative(lex, a, rest)
    ensures ParseAlternative(lex, WriteAlternative(a, rest)) == Parsed(a, rest)
    decreases a, 0
  {
    hide ParseBlock, WriteBlock, GoodBlock;
    match a
    case Fi =>
    case Else(body) => CompleteBlock(lex, body, FI, true, Cons(Word("fi"), rest));
    case Elif(c, t, e) =>
      var after := WriteAlternative(e, rest);
      CompleteBlock(lex, c, THEN, true, Cons(Word("then"), WriteBlock(t, after)));
      CompleteBlock(lex, t, BRANCH, true, after);
      CompleteAlternative(lex, e, rest);
  }

  lemma {:induction false} CompleteWhile(lex: Lexicon, b: Body, rest: Tokens)
    requires b.While? && GoodBody(lex, b, rest)
    ensures ParseWhile(lex, WriteBody(b, rest), b.negate) == Parsed(b, rest)
    decreases b, 0
  {
    hide ParseBlock, ParseDo, WriteBlock, WriteDo, GoodBlock, GoodDo;
    CompleteBlock(lex, b.condition, DO, true, WriteDo(b.body, rest));
    CompleteDo(lex, b.body, rest);
  }

  lemma {:induction false} CompleteDo(lex: Lexicon, body: Block, rest: Tokens)
    requires GoodDo(lex, body, rest)
    ensures ParseDo(lex, WriteDo(body, rest)) == Parsed(body, rest)
    decreases body, 1
  {
    hide ParseBlock, WriteBlock, GoodBlock;
    CompleteBlock(lex, body, DONE, true, Cons(Word("done"), rest));
  }

  lemma {:induction false} CompleteFor(lex: Lexicon, b: Body, rest: Tokens)
    requires b.For? && GoodBody(lex, b, rest)
    ensures ParseFor(lex, WriteBody(b, rest), b.select) == Parsed(b, rest)
    decreases b, 0
  {
    hide ParseDo, ParseIn, WriteDo, WriteIn, GoodDo, GoodWords, Words, Skip, Settled;
    var after := WriteDo(b.body, rest);
    CompleteIn(lex, b.items, Before(b.gap, after));
    SkipsGap(b.gap, after, true);
    CompleteDo(lex, b.body, rest);
    var ts := WriteBody(b, rest);
    assert ts[2..] == ts[1..][1..];
  }

  lemma CompleteIn(lex: Lexicon, items: Option<seq<string>>, rest: Tokens)
    requires (items.None? ==> !IsKeyword(rest, "in")) && (items.Some? ==> GoodWords(lex, items.value, rest))
    ensures ParseIn(lex, WriteIn(items, rest)) == Parsed(items, rest)
  {
    if items.Some? { CompleteWords(lex, items.value, rest); }
  }

  lemma {:induction false} CompleteWords(lex: Lexicon, texts: seq<string>, rest: Tokens)
    requires GoodWords(lex, texts, rest)
    ensures ParseWords(lex, Words(texts, rest)) == Parsed(texts, rest)
    decreases |texts|
  {
    if texts != [] {
      CompleteWords(lex, texts[1..], rest);
      assert texts[0] in texts;
      assert [texts[0]] + texts[1..] == texts;
    }
  }

  lemma {:induction false} CompleteArithmeticFor(lex: Lexicon, b: Body, rest: Tokens)
    requires b.ArithmeticFor? && GoodBody(lex, b, rest)
    ensures ParseFor(lex, WriteBody(b, rest), false) == Parsed(b, rest)
    decreases b, 0
  {
    hide ParseDo, ParseArithmetic, WriteDo, GoodDo, GoodArithmetic, Skip, Settled;
    var after := WriteDo(b.body, rest);
    CompleteArithmetic(b.inside, b.twice, Before(b.gap, after));
    SkipsGap(b.gap, after, true);
    CompleteDo(lex, b.body, rest);
  }

  lemma {:induction false} CompleteCoprocess(lex: Lexicon, b: Body, rest: Tokens)
    requires b.Coprocess? && GoodBody(lex, b, rest)
    ensures ParseCoprocess(lex, WriteBody(b, rest)) == Parsed(b, rest)
    decreases b, 0
  {
    hide ParseCommand, WriteCommand, GoodCommand, IsLabelled;
    CompleteCommand(lex, b.command, rest);
    var ts := WriteBody(b, rest);
    if b.title.Some? { assert ts[2..] == ts[1..][1..]; }
  }

  lemma {:induction false} CompleteCase(lex: Lexicon, b: Body, rest: Tokens)
    requires b.Case? && GoodBody(lex, b, rest)
    ensures ParseCase(lex, WriteBody(b, rest)) == Parsed(b, rest)
    decreases b, 0
  {
    hide ParseCases, WriteCases, GoodCases, Skip, Settled;
    var after := WriteCases(b.cases, Cons(Word("esac"), rest));
    var inner := Cons(Word("in"), Before(b.gap, after));
    SkipsGap(b.newlines, inner, false);
    SkipsGap(b.gap, after, true);
    CompleteCases(lex, b.cases, Cons(Word("esac"), rest));
    var ts := WriteBody(b, rest);
    assert ts[2..] == ts[1..][1..] == Before(b.newlines, inner);
  }

  lemma {:induction false} CompleteCases(lex: Lexicon, cs: Cases, rest: Tokens)
    requires GoodCases(lex, cs, rest)
    ensures ParseCases(lex, WriteCases(cs, rest)) == Parsed(cs, rest)
    decreases cs, 0
  {
    hide ParseCaseItem, WriteCaseItem, GoodCaseItem, Skip, Settled;
    if cs.Cases? {
      var after := WriteCases(cs.more, rest);
      CompleteCaseItem(lex, cs.first, Before(cs.gap, after));
      SkipsGap(cs.gap, after, true);
      CompleteCases(lex, cs.more, rest);
    }
  }

  lemma {:induction false} CompleteCaseItem(lex: Lexicon, i: CaseItem, rest: Tokens)
    requires GoodCaseItem(lex, i, rest)
    ensures var ts := WriteCaseItem(i, rest);
            && i.patterns != [] && ts != [] && ts[0] == (if i.paren then LeftParen else Word(i.patterns[0]))
            && ParseCaseItem(lex, ts) == Parsed(i, rest)
    decreases i, 1
  {
    hide ParsePatterns, ParseCaseBody, Patterns, GoodList, WriteList, Skip, Settled, CaseItemEnds, IsCaseEnd;
    var end := WriteCaseEnd(i.end, rest);
    var content := WriteCaseBody(i.body, i.newlines, i.end, rest);
    var after := Cons(RightParen, Before(i.before, content));
    CompletePatterns(lex, i.patterns, after);
    SkipsGap(i.before, content, true);
    CompleteCaseBody(lex, i, rest);
    SkipsGap(i.newlines, end, false);
  }

  lemma {:induction false} CompleteCaseBody(lex: Lexicon, i: CaseItem, rest: Tokens)
    requires GoodCaseItem(lex, i, rest)
    ensures var closing := Before(i.newlines, WriteCaseEnd(i.end, rest));
            ParseCaseBody(lex, WriteCaseBody(i.body, i.newlines, i.end, rest)) == Parsed(i.body, closing)
    decreases i, 0
  {
    hide GoodList, WriteList, ParseList, Settled, CaseItemEnds, IsCaseEnd, Skip;
    if i.body.Some? { CompleteList(lex, i.body.value, Before(i.newlines, WriteCaseEnd(i.end, rest))); }
  }

  lemma {:induction false} CompletePatterns(lex: Lexicon, texts: seq<string>, rest: Tokens)
    requires texts != [] && (forall t :: t in texts ==> lex.readable(t)) && rest != [] && rest[0] == RightParen
    ensures Patterns(texts, rest)[0] == Word(texts[0]) && ParsePatterns(lex, Patterns(texts, rest)) == Parsed(texts, rest)
    decreases |texts|
  {
    assert texts[0] in texts;
    if |texts| > 1 {
      CompletePatterns(lex, texts[1..], rest);
      var ts := Patterns(texts, rest);
      assert ts[2..] == ts[1..][1..];
      assert [texts[0]] + texts[1..] == texts;
    } else {
      assert texts == [texts[0]];
    }
  }

  // ---- blocks and scripts ----

  lemma {:induction false} CompleteBlock(lex: Lexicon, b: Block, until: Until, required: bool, rest: Tokens)
    requires GoodBlock(lex, b, until, required, rest)
    ensures ParseBlock(lex, WriteBlock(b, rest), until, required) == Parsed(b, rest)
    decreases b, 0
  {
    hide ParseEntries, WriteEntries, GoodEntries, Skip, Settled;
    SkipsGap(b.gap, WriteEntries(b.entries, rest), true);
    CompleteEntries(lex, b.entries, until, rest);
  }

  lemma {:induction false} CompleteEntries(lex: Lexicon, es: Entries, until: Until, rest: Tokens)
    requires GoodEntries(lex, es, until, rest)
    ensures ParseEntries(lex, WriteEntries(es, rest), until) == Parsed(es, rest)
    decreases es, 0
  {
    hide ParseList, WriteList, GoodList, Skip, Settled, Stops;
    if es.Entry? {
      var after := WriteEntries(es.more, rest);
      CompleteList(lex, es.list, Before(es.gap, after));
      SkipsGap(es.gap, after, true);
      CompleteEntries(lex, es.more, until, rest);
    }
  }
}
