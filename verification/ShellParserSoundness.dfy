/**
 Whatever the parser accepts is written as its phrase, token for token, and well written there:
 no token is skipped, read twice or read past the end.
 */
module ShellParserSoundness {
  import opened Wrappers
  import opened ShellSyntax
  import opened ShellParsing
  import opened ShellGrammar

  lemma Head(ts: Tokens)
    requires ts != []
    ensures Cons(ts[0], ts[1..]) == ts
  {}

  lemma {:induction false} SkipSettles(ts: Tokens, semicolons: bool)
    ensures var n := Skip(ts, semicolons); Settled(ts[..n], ts[n..], semicolons) && Before(ts[..n], ts[n..]) == ts
    decreases |ts|
  {
    if ts != [] && Separates(ts[0], semicolons) {
      SkipSettles(ts[1..], semicolons);
      var n := Skip(ts[1..], semicolons);
      assert ts[..n + 1] == [ts[0]] + ts[1..][..n] && ts[n + 1..] == ts[1..][n..];
    }
  }

  lemma {:induction false} BangsRead(ts: Tokens)
    ensures var n := CountBangs(ts); Bangs(n, ts[n..]) == ts && !IsKeyword(ts[n..], "!")
    decreases |ts|
  {
    if IsKeyword(ts, "!") {
      BangsRead(ts[1..]);
      Head(ts);
      var n := CountBangs(ts[1..]);
      assert ts[n + 1..] == ts[1..][n..];
    }
  }

  lemma ExpectReads(ts: Tokens, keyword: string)
    requires Expect(ts, keyword).Parsed?
    ensures ts == Cons(Word(keyword), Expect(ts, keyword).rest)
  {
    Head(ts);
  }

  // ---- arithmetic text ----

  lemma {:induction false} EndEncloses(ts: Tokens, depth: nat)
    requires depth >= 1 && ArithmeticEnd(ts, depth).Some?
    ensures var n := ArithmeticEnd(ts, depth).value; Encloses(ts[..n], |ts| > n + 1 && ts[n + 1] == RightParen, depth)
    decreases |ts|
  {
    var n := ArithmeticEnd(ts, depth).value;
    if n > 0 {
      assert ts[..n][1..] == ts[1..][..n - 1];
      var inner := match ts[0] case LeftParen => depth + 1 case DoubleLeftParen => depth + 2 case RightParen => depth - 1 case _ => depth;
      EndEncloses(ts[1..], inner);
    }
  }

  lemma SoundArithmetic(ts: Tokens)
    requires ParseArithmetic(ts).Parsed?
    ensures var r := ParseArithmetic(ts);
            ts == WriteArithmetic(r.value.0, r.value.1, r.rest) && GoodArithmetic(r.value.0, r.value.1, r.rest)
  {
    var n := ArithmeticEnd(ts[1..], 1).value;
    EndEncloses(ts[1..], 1);
    var rest := ts[1..][n + 1..];
    Head(ts);
    assert ts[1..] == Before(ts[1..][..n], Cons(RightParen, rest));
    if rest != [] { Head(rest); assert rest[0] == ts[1..][n + 1]; }
  }

  // ---- simple commands ----

  lemma SoundRedirect(lex: Lexicon, ts: Tokens)
    requires StartsRedirect(ts) && ParseRedirect(lex, ts).Parsed?
    ensures var r := ParseRedirect(lex, ts); ts == WriteRedirect(r.value, r.rest) && GoodRedirect(lex, r.value)
  {
    var at := if ts[0].IoNumber? then ts[1..] else ts;
    Head(ts);
    Head(at);
    Head(at[1..]);
  }

  lemma {:induction false} SoundRedirects(lex: Lexicon, ts: Tokens)
    requires ParseRedirects(lex, ts).Parsed?
    ensures var r := ParseRedirects(lex, ts); ts == WriteRedirects(r.value, r.rest) && GoodRedirects(lex, r.value, r.rest)
    decreases |ts|
  {
    if StartsRedirect(ts) {
      SoundRedirect(lex, ts);
      SoundRedirects(lex, ParseRedirect(lex, ts).rest);
    }
  }

  lemma SoundItem(lex: Lexicon, ts: Tokens, named: bool)
    requires ParseItem(lex, ts, named).Parsed?
    ensures var r := ParseItem(lex, ts, named);
            if r.value.None? then ItemsEnd(named, ts) && r.rest == ts
            else ts == WriteItem(r.value.value, r.rest) && GoodItem(lex, r.value.value, named, r.rest)
  {
    if StartsRedirect(ts) { SoundRedirect(lex, ts); }
    else if ts != [] { Head(ts); }
  }

  lemma {:induction false} SoundItems(lex: Lexicon, ts: Tokens, named: bool)
    requires ParseItems(lex, ts, named).Parsed?
    ensures var r := ParseItems(lex, ts, named); ts == WriteItems(r.value, r.rest) && GoodItems(lex, r.value, named, r.rest)
    decreases |ts|
  {
    hide ParseItem, GoodItem, WriteItem, ItemsEnd;
    SoundItem(lex, ts, named);
    var first := ParseItem(lex, ts, named);
    if first.value.Some? {
      SoundItems(lex, first.rest, named || Names(first.value.value));
      var more := ParseItems(lex, first.rest, named || Names(first.value.value));
      assert ([first.value.value] + more.value)[1..] == more.value;
    }
  }

  // ---- conditional expressions ----

  lemma {:induction false} SoundOr(lex: Lexicon, ts: Tokens)
    requires ParseOr(lex, ts).Parsed?
    ensures var r := ParseOr(lex, ts); ts == WriteOr(r.value, r.rest) && GoodOr(lex, r.value, r.rest)
    decreases |ts|, 3
  {
    SoundAnd(lex, ts);
    SoundOrs(lex, ParseAnd(lex, ts).rest);
  }

  lemma {:induction false} SoundOrs(lex: Lexicon, ts: Tokens)
    requires ParseOrs(lex, ts).Parsed?
    ensures var r := ParseOrs(lex, ts); ts == WriteOrs(r.value, r.rest) && GoodOrs(lex, r.value, r.rest)
    decreases |ts|, 3
  {
    if ts != [] && ts[0] == OrIf {
      Head(ts);
      SkipSettles(ts[1..], false);
      var after := ts[1..][Skip(ts[1..], false)..];
      SoundAnd(lex, after);
      SoundOrs(lex, ParseAnd(lex, after).rest);
    }
  }

  lemma {:induction false} SoundAnd(lex: Lexicon, ts: Tokens)
    requires ParseAnd(lex, ts).Parsed?
    ensures var r := ParseAnd(lex, ts); ts == WriteAnd(r.value, r.rest) && GoodAnd(lex, r.value, r.rest)
    decreases |ts|, 2
  {
    SoundPrimary(lex, ts);
    SoundAnds(lex, ParsePrimary(lex, ts).rest);
  }

  lemma {:induction false} SoundAnds(lex: Lexicon, ts: Tokens)
    requires ParseAnds(lex, ts).Parsed?
    ensures var r := ParseAnds(lex, ts); ts == WriteAnds(r.value, r.rest) && GoodAnds(lex, r.value, r.rest)
    decreases |ts|, 2
  {
    if ts != [] && ts[0] == AndIf {
      Head(ts);
      SkipSettles(ts[1..], false);
      var after := ts[1..][Skip(ts[1..], false)..];
      SoundPrimary(lex, after);
      SoundAnds(lex, ParsePrimary(lex, after).rest);
    }
  }

  lemma {:induction false} SoundPrimary(lex: Lexicon, ts: Tokens)
    requires ParsePrimary(lex, ts).Parsed?
    ensures var r := ParsePrimary(lex, ts); ts == WritePrimary(r.value, r.rest) && GoodPrimary(lex, r.value, r.rest)
    decreases |ts|, 1
  {
    hide ParseTest, WriteOr, GoodOr;
    if IsKeyword(ts, "!") {
      Head(ts);
      SoundPrimary(lex, ts[1..]);
    } else if ts != [] && ts[0] == LeftParen {
      Head(ts);
      SoundOr(lex, ts[1..]);
      Head(ParseOr(lex, ts[1..]).rest);
    } else {
      SoundTest(lex, ts);
    }
  }

  lemma SoundTest(lex: Lexicon, ts: Tokens)
    requires ParseTest(lex, ts).Parsed? && !IsKeyword(ts, "!")
    ensures var r := ParseTest(lex, ts); ts == WritePrimary(r.value, r.rest) && GoodPrimary(lex, r.value, r.rest)
  {
    Head(ts);
    var after := ts[1..];
    if after != [] {
      Head(after);
      if |after| > 1 { Head(after[1..]); }
    }
  }

  // ---- lists and pipelines ----

  lemma {:induction false} SoundList(lex: Lexicon, ts: Tokens)
    requires ParseList(lex, ts).Parsed?
    ensures var r := ParseList(lex, ts); ts == WriteList(r.value, r.rest) && GoodList(lex, r.value, r.rest)
    decreases |ts|, 5
  {
    hide ParsePipe, ParseTail, WritePipe, WriteTail, GoodPipe, GoodTail;
    SoundPipe(lex, ts);
    SoundTail(lex, ParsePipe(lex, ts).rest);
  }

  lemma {:induction false} SoundTail(lex: Lexicon, ts: Tokens)
    requires ParseTail(lex, ts).Parsed?
    ensures var r := ParseTail(lex, ts); ts == WriteTail(r.value, r.rest) && GoodTail(lex, r.value, r.rest)
    decreases |ts|, 6
  {
    hide ParsePipe, ParseList, WritePipe, WriteList, GoodPipe, GoodList, Skip, Settled, ListEnds;
    if ts != [] && ts[0] in {AndIf, OrIf, Ampersand, Semicolon} {
      Head(ts);
      SkipSettles(ts[1..], false);
      var after := ts[1..][Skip(ts[1..], false)..];
      if ts[0] == AndIf || ts[0] == OrIf {
        SoundPipe(lex, after);
        SoundTail(lex, ParsePipe(lex, after).rest);
      } else if !ListEnds(after) {
        SoundList(lex, after);
      }
    }
  }

  lemma {:induction false} SoundPipe(lex: Lexicon, ts: Tokens)
    requires ParsePipe(lex, ts).Parsed?
    ensures var r := ParsePipe(lex, ts); ts == WritePipe(r.value, r.rest) && GoodPipe(lex, r.value, r.rest)
    decreases |ts|, 4
  {
    hide ParseCommand, ParseTubes, WriteCommand, WriteTubes, GoodCommand, GoodTubes, TimeEnds, CountBangs, Bangs;
    BangsRead(ts);
    var at := ts[CountBangs(ts)..];
    if IsKeyword(at, "time") {
      Head(at);
      var posix := IsKeyword(at[1..], "-p");
      if posix { Head(at[1..]); }
      var after := if posix then at[1..][1..] else at[1..];
      if !TimeEnds(after) { SoundPipe(lex, after); }
    } else {
      SoundCommand(lex, at);
      SoundTubes(lex, ParseCommand(lex, at).rest);
    }
  }

  lemma {:induction false} SoundTubes(lex: Lexicon, ts: Tokens)
    requires ParseTubes(lex, ts).Parsed?
    ensures var r := ParseTubes(lex, ts); ts == WriteTubes(r.value, r.rest) && GoodTubes(lex, r.value, r.rest)
    decreases |ts|, 4
  {
    hide ParseCommand, WriteCommand, GoodCommand, Skip, Settled;
    if ts != [] && ts[0] in {Token.Pipe, PipeAmpersand} {
      Head(ts);
      SkipSettles(ts[1..], false);
      var after := ts[1..][Skip(ts[1..], false)..];
      SoundCommand(lex, after);
      SoundTubes(lex, ParseCommand(lex, after).rest);
    }
  }

  // ---- commands ----

  lemma {:induction false} SoundCommand(lex: Lexicon, ts: Tokens)
    requires ParseCommand(lex, ts).Parsed?
    ensures var r := ParseCommand(lex, ts); ts == WriteCommand(r.value, r.rest) && GoodCommand(lex, r.value, r.rest)
    decreases |ts|, 3
  {
    hide ParseItems, ParseFunction, ParseBody, ParseRedirects, WriteItems, WriteBody, WriteRedirects, GoodItems, GoodBody, GoodRedirects, GoodDefinition;
    match OpeningOf(ts)
    case OpensSimple => SoundItems(lex, ts, false);
    case OpensShorthand => SoundShorthand(lex, ts);
    case OpensFunction => SoundKeyword(lex, ts);
    case _ =>
      SoundBody(lex, ts);
      SoundRedirects(lex, ParseBody(lex, ts).rest);
  }

  lemma {:induction false} SoundShorthand(lex: Lexicon, ts: Tokens)
    requires OpeningOf(ts) == OpensShorthand && ParseCommand(lex, ts).Parsed?
    ensures var r := ParseCommand(lex, ts); ts == WriteCommand(r.value, r.rest) && GoodCommand(lex, r.value, r.rest)
    decreases |ts|, 2
  {
    hide GoodDefinition, ParseFunction, ParseItems, ParseBody, WriteItems, WriteBody, Settled;
    Head(ts);
    Head(ts[1..]);
    Head(ts[1..][1..]);
    assert ts[1..][1..][1..] == ts[3..];
    SoundFunction(lex, Shorthand, ts[0].text, ts[3..], ts);
  }

  lemma {:induction false} SoundKeyword(lex: Lexicon, ts: Tokens)
    requires OpeningOf(ts) == OpensFunction && ParseCommand(lex, ts).Parsed?
    ensures var r := ParseCommand(lex, ts); ts == WriteCommand(r.value, r.rest) && GoodCommand(lex, r.value, r.rest)
    decreases |ts|, 2
  {
    hide GoodDefinition, ParseFunction, ParseItems, ParseBody, WriteItems, WriteBody, Settled, OpeningOf;
    FunctionWord(ts);
    Head(ts);
    Head(ts[1..]);
    assert ts[1..][1..] == ts[2..];
    var parens := |ts| > 2 && ts[2] == LeftParen;
    if parens {
      Head(ts[2..]);
      assert ts[2..][1..] == ts[3..];
      Head(ts[3..]);
      assert ts[3..][1..] == ts[4..];
    }
    SoundFunction(lex, Keyword(parens), ts[1].text, if parens then ts[4..] else ts[2..], ts);
  }

  lemma FunctionWord(ts: Tokens)
    requires OpeningOf(ts) == OpensFunction
    ensures IsKeyword(ts, "function")
  {}

  lemma {:induction false} SoundFunction(lex: Lexicon, heading: Heading, name: string, ts: Tokens, whole: Tokens)
    requires |ts| < |whole| && ParseFunction(lex, heading, name, ts, whole).Parsed?
    ensures var r := ParseFunction(lex, heading, name, ts, whole);
            && r.value.Function? && r.value.heading == heading && r.value.name == name
            && ts == Before(r.value.gap, WriteCommand(r.value.definition, r.rest))
            && Settled(r.value.gap, WriteCommand(r.value.definition, r.rest), false)
            && GoodDefinition(lex, r.value.definition, r.rest)
    decreases |whole|, 1
  {
    hide GoodDefinition;
    SkipSettles(ts, false);
    SoundDefinition(lex, ts[Skip(ts, false)..]);
  }

  lemma {:induction false} SoundDefinition(lex: Lexicon, ts: Tokens)
    requires ParseDefinition(lex, ts).Parsed?
    ensures var r := ParseDefinition(lex, ts); ts == WriteCommand(r.value, r.rest) && GoodDefinition(lex, r.value, r.rest)
    decreases |ts|, 4
  {
    hide ParseBody, ParseCommand, GoodBody, GoodCommand, WriteBody, OpeningOf;
    if OpeningOf(ts) == OpensGroup || OpeningOf(ts) == OpensSubshell { SoundBody(lex, ts); }
    else { SoundCommand(lex, ts); }
  }

  lemma {:induction false} SoundBody(lex: Lexicon, ts: Tokens)
    requires ParseBody(lex, ts).Parsed?
    ensures var r := ParseBody(lex, ts); ts == WriteBody(r.value, r.rest) && GoodBody(lex, r.value, r.rest)
    decreases |ts|, 2
  {
    hide ParseIf, ParseWhile, ParseFor, ParseCoprocess, ParseCase, ParseBlock, ParseOr, ParseArithmetic;
    hide WriteBlock, WriteOr, WriteArithmetic, GoodBlock, GoodOr, GoodArithmetic, WriteCommand, WriteDo, WriteIn, GoodCommand, GoodDo;
    match OpeningOf(ts)
    case OpensIf => SoundIf(lex, ts);
    case OpensWhile => SoundWhile(lex, ts, false);
    case OpensUntil => SoundWhile(lex, ts, true);
    case OpensFor => SoundFor(lex, ts, false);
    case OpensSelect => SoundFor(lex, ts, true);
    case OpensCoprocess => SoundCoprocess(lex, ts);
    case OpensCase => SoundCase(lex, ts);
    case OpensGroup => SoundEnclosed(lex, ts);
    case OpensSubshell => SoundEnclosed(lex, ts);
    case OpensConditional => SoundEnclosed(lex, ts);
    case OpensArithmetic => SoundArithmetic(ts);
    case _ => assert false;
  }

  lemma {:induction false} SoundEnclosed(lex: Lexicon, ts: Tokens)
    requires OpeningOf(ts) in {OpensGroup, OpensSubshell, OpensConditional} && ParseBody(lex, ts).Parsed?
    ensures var r := ParseBody(lex, ts); ts == WriteBody(r.value, r.rest) && GoodBody(lex, r.value, r.rest)
    decreases |ts|, 1
  {
    hide ParseBlock, ParseOr, WriteBlock, WriteOr, GoodBlock, GoodOr;
    Head(ts);
    if OpeningOf(ts) == OpensGroup {
      SoundBlock(lex, ts[1..], BRACE, true);
      ExpectReads(ParseBlock(lex, ts[1..], BRACE, true).rest, "}");
    } else if OpeningOf(ts) == OpensSubshell {
      SoundBlock(lex, ts[1..], Paren, false);
      Head(ParseBlock(lex, ts[1..], Paren, false).rest);
    } else {
      SoundOr(lex, ts[1..]);
      ExpectReads(ParseOr(lex, ts[1..]).rest, "]]");
    }
  }

  lemma {:induction false} SoundIf(lex: Lexicon, ts: Tokens)
    requires IsKeyword(ts, "if") && ParseIf(lex, ts).Parsed?
    ensures var r := ParseIf(lex, ts); ts == WriteBody(r.value, r.rest) && GoodBody(lex, r.value, r.rest)
    decreases |ts|, 1
  {
    hide ParseBlock, ParseAlternative, WriteBlock, WriteAlternative, GoodBlock, GoodAlternative;
    Head(ts);
    SoundBlock(lex, ts[1..], THEN, true);
    var condition := ParseBlock(lex, ts[1..], THEN, true);
    ExpectReads(condition.rest, "then");
    var after := Expect(condition.rest, "then").rest;
    SoundBlock(lex, after, BRANCH, true);
    SoundAlternative(lex, ParseBlock(lex, after, BRANCH, true).rest);
  }

  lemma {:induction false} SoundAlternative(lex: Lexicon, ts: Tokens)
    requires ParseAlternative(lex, ts).Parsed?
    ensures var r := ParseAlternative(lex, ts); ts == WriteAlternative(r.value, r.rest) && GoodAlternative(lex, r.value, r.rest)
    decreases |ts|, 1
  {
    hide ParseBlock, WriteBlock, GoodBlock;
    if IsKeyword(ts, "elif") {
      Head(ts);
      SoundBlock(lex, ts[1..], THEN, true);
      var condition := ParseBlock(lex, ts[1..], THEN, true);
      ExpectReads(condition.rest, "then");
      var after := Expect(condition.rest, "then").rest;
      SoundBlock(lex, after, BRANCH, true);
      SoundAlternative(lex, ParseBlock(lex, after, BRANCH, true).rest);
    } else if IsKeyword(ts, "else") {
      Head(ts);
      SoundBlock(lex, ts[1..], FI, true);
      ExpectReads(ParseBlock(lex, ts[1..], FI, true).rest, "fi");
    } else {
      ExpectReads(ts, "fi");
    }
  }

  lemma {:induction false} SoundWhile(lex: Lexicon, ts: Tokens, negate: bool)
    requires IsKeyword(ts, if negate then "until" else "while") && ParseWhile(lex, ts, negate).Parsed?
    ensures var r := ParseWhile(lex, ts, negate); ts == WriteBody(r.value, r.rest) && GoodBody(lex, r.value, r.rest)
    decreases |ts|, 1
  {
    hide ParseBlock, ParseDo, WriteBlock, WriteDo, GoodBlock, GoodDo;
    Head(ts);
    SoundBlock(lex, ts[1..], DO, true);
    SoundDo(lex, ParseBlock(lex, ts[1..], DO, true).rest);
  }

  lemma {:induction false} SoundDo(lex: Lexicon, ts: Tokens)
    requires ParseDo(lex, ts).Parsed?
    ensures var r := ParseDo(lex, ts); ts == WriteDo(r.value, r.rest) && GoodDo(lex, r.value, r.rest)
    decreases |ts|, 1
  {
    hide ParseBlock, WriteBlock, GoodBlock;
    ExpectReads(ts, "do");
    var after := Expect(ts, "do").rest;
    SoundBlock(lex, after, DONE, true);
    ExpectReads(ParseBlock(lex, after, DONE, true).rest, "done");
  }

  lemma {:induction false} SoundFor(lex: Lexicon, ts: Tokens, select: bool)
    requires IsKeyword(ts, if select then "select" else "for") && ParseFor(lex, ts, select).Parsed?
    ensures var r := ParseFor(lex, ts, select); ts == WriteBody(r.value, r.rest) && GoodBody(lex, r.value, r.rest)
    decreases |ts|, 1
  {
    if !select && |ts| > 1 && ts[1] == DoubleLeftParen { SoundArithmeticFor(lex, ts); } else { SoundLoopOver(lex, ts, select); }
  }

  lemma {:induction false} SoundArithmeticFor(lex: Lexicon, ts: Tokens)
    requires IsKeyword(ts, "for") && |ts| > 1 && ts[1] == DoubleLeftParen && ParseFor(lex, ts, false).Parsed?
    ensures var r := ParseFor(lex, ts, false); ts == WriteBody(r.value, r.rest) && GoodBody(lex, r.value, r.rest)
    decreases |ts|, 0
  {
    hide ParseDo, ParseIn, ParseArithmetic, WriteDo, WriteIn, WriteArithmetic, GoodDo, GoodArithmetic, GoodWords, Skip, Settled, WriteBlock, GoodBlock;
    Head(ts);
    SoundArithmetic(ts[1..]);
    var rest := ParseArithmetic(ts[1..]).rest;
    SkipSettles(rest, true);
    SoundDo(lex, rest[Skip(rest, true)..]);
  }

  lemma {:induction false} SoundLoopOver(lex: Lexicon, ts: Tokens, select: bool)
    requires IsKeyword(ts, if select then "select" else "for") && ParseFor(lex, ts, select).Parsed?
    requires select || !(|ts| > 1 && ts[1] == DoubleLeftParen)
    ensures var r := ParseFor(lex, ts, select); ts == WriteBody(r.value, r.rest) && GoodBody(lex, r.value, r.rest)
    decreases |ts|, 0
  {
    hide ParseDo, ParseIn, ParseArithmetic, WriteDo, WriteIn, GoodDo, GoodWords, Skip, Settled, WriteBody, GoodBody;
    Head(ts);
    Head(ts[1..]);
    assert ts[1..][1..] == ts[2..];
    SoundIn(lex, ts[2..]);
    var items := ParseIn(lex, ts[2..]);
    SkipSettles(items.rest, true);
    SoundDo(lex, items.rest[Skip(items.rest, true)..]);
    var r := ParseFor(lex, ts, select);
    assert items.rest == Before(r.value.gap, WriteDo(r.value.body, r.rest));
    LoopIs(lex, r.value, ts, r.rest);
  }

  lemma LoopIs(lex: Lexicon, b: Body, ts: Tokens, rest: Tokens)
    requires b.For?
    requires var after := Before(b.gap, WriteDo(b.body, rest));
             && ts == Cons(Word(if b.select then "select" else "for"), Cons(Word(b.name), WriteIn(b.items, after)))
             && (b.items.None? ==> !IsKeyword(after, "in")) && (b.items.Some? ==> GoodWords(lex, b.items.value, after))
             && Settled(b.gap, WriteDo(b.body, rest), true) && GoodDo(lex, b.body, rest)
    ensures ts == WriteBody(b, rest) && GoodBody(lex, b, rest)
  {}

  lemma SoundIn(lex: Lexicon, ts: Tokens)
    requires ParseIn(lex, ts).Parsed?
    ensures var r := ParseIn(lex, ts);
            && ts == WriteIn(r.value, r.rest) && (r.value.None? ==> !IsKeyword(r.rest, "in"))
            && (r.value.Some? ==> GoodWords(lex, r.value.value, r.rest))
  {
    if IsKeyword(ts, "in") {
      Head(ts);
      SoundWords(lex, ts[1..]);
    }
  }

  lemma {:induction false} SoundWords(lex: Lexicon, ts: Tokens)
    requires ParseWords(lex, ts).Parsed?
    ensures var r := ParseWords(lex, ts); ts == Words(r.value, r.rest) && GoodWords(lex, r.value, r.rest)
    decreases |ts|
  {
    if ts != [] && ts[0].Word? && !IsBlockTerminator(ts[0].text) {
      Head(ts);
      SoundWords(lex, ts[1..]);
    }
  }

  lemma {:induction false} SoundCoprocess(lex: Lexicon, ts: Tokens)
    requires IsKeyword(ts, "coproc") && ParseCoprocess(lex, ts).Parsed?
    ensures var r := ParseCoprocess(lex, ts); ts == WriteBody(r.value, r.rest) && GoodBody(lex, r.value, r.rest)
    decreases |ts|, 1
  {
    hide ParseCommand, WriteCommand, GoodCommand, IsLabelled;
    Head(ts);
    if IsLabelled(ts[1..]) {
      LabelledWord(ts[1..]);
      Head(ts[1..]);
      assert ts[1..][1..] == ts[2..];
      SoundCommand(lex, ts[2..]);
    } else {
      SoundCommand(lex, ts[1..]);
    }
  }

  lemma LabelledWord(ts: Tokens)
    requires IsLabelled(ts)
    ensures |ts| > 1 && ts[0].Word?
  {}

  lemma {:induction false} SoundCase(lex: Lexicon, ts: Tokens)
    requires IsKeyword(ts, "case") && ParseCase(lex, ts).Parsed?
    ensures var r := ParseCase(lex, ts); ts == WriteBody(r.value, r.rest) && GoodBody(lex, r.value, r.rest)
    decreases |ts|, 1
  {
    hide ParseCases, WriteCases, GoodCases, Skip, Settled, Expect;
    hide WriteBody, GoodBody;
    Head(ts);
    Head(ts[1..]);
    assert ts[1..][1..] == ts[2..];
    SkipSettles(ts[2..], false);
    var at := ts[2..][Skip(ts[2..], false)..];
    ExpectReads(at, "in");
    var inner := Expect(at, "in").rest;
    SkipSettles(inner, true);
    var cases := ParseCases(lex, inner[Skip(inner, true)..]);
    SoundCases(lex, inner[Skip(inner, true)..]);
    ExpectReads(cases.rest, "esac");
    var r := ParseCase(lex, ts);
    var after := WriteCases(r.value.cases, Cons(Word("esac"), r.rest));
    assert inner == Before(r.value.gap, after);
    assert ts[2..] == Before(r.value.newlines, Cons(Word("in"), inner));
    CaseIs(lex, r.value, ts, r.rest);
  }

  lemma CaseIs(lex: Lexicon, b: Body, ts: Tokens, rest: Tokens)
    requires b.Case?
    requires var after := WriteCases(b.cases, Cons(Word("esac"), rest));
             var inner := Cons(Word("in"), Before(b.gap, after));
             && ts == Cons(Word("case"), Cons(Word(b.subject), Before(b.newlines, inner))) && lex.readable(b.subject)
             && Settled(b.newlines, inner, false) && Settled(b.gap, after, true) && GoodCases(lex, b.cases, Cons(Word("esac"), rest))
    ensures ts == WriteBody(b, rest) && GoodBody(lex, b, rest)
  {}

  lemma {:induction false} SoundCases(lex: Lexicon, ts: Tokens)
    requires ParseCases(lex, ts).Parsed?
    ensures var r := ParseCases(lex, ts); ts == WriteCases(r.value, r.rest) && GoodCases(lex, r.value, r.rest)
    decreases |ts|, 8
  {
    hide ParseCaseItem, WriteCaseItem, GoodCaseItem, Skip, Settled;
    if ts == [] || IsKeyword(ts, "esac") { return; }
    SoundCaseItem(lex, ts);
    var rest := ParseCaseItem(lex, ts).rest;
    SkipSettles(rest, true);
    SoundCases(lex, rest[Skip(rest, true)..]);
  }

  lemma {:induction false} SoundCaseItem(lex: Lexicon, ts: Tokens)
    requires ts != [] && ParseCaseItem(lex, ts).Parsed?
    ensures var r := ParseCaseItem(lex, ts);
            && ts == WriteCaseItem(r.value, r.rest) && GoodCaseItem(lex, r.value, r.rest)
            && (!r.value.paren ==> ts[0] == Word(r.value.patterns[0]))
    decreases |ts|, 7
  {
    hide ParsePatterns, ParseCaseBody, Patterns, GoodCaseItem, GoodList, WriteList, WriteCaseBody, Skip, Settled, CaseItemEnds, IsCaseEnd;
    Head(ts);
    var paren := ts[0] == LeftParen;
    var patterns := ParsePatterns(lex, if paren then ts[1..] else ts);
    SoundPatterns(lex, if paren then ts[1..] else ts);
    Head(patterns.rest);
    SkipSettles(patterns.rest[1..], true);
    var at := patterns.rest[1..][Skip(patterns.rest[1..], true)..];
    SoundBranch(lex, at);
    CaseItemIsGood(lex, ParseCaseItem(lex, ts).value, ParseCaseItem(lex, ts).rest);
  }

  /** What a branch holds after its patterns: its list, the line ends after it and its end mark. */
  lemma {:induction false} SoundBranch(lex: Lexicon, ts: Tokens)
    requires ParseCaseBody(lex, ts).Parsed?
    ensures var body := ParseCaseBody(lex, ts);
            var k := Skip(body.rest, false);
            var at := body.rest[k..];
            var closed := at != [] && IsCaseEnd(at[0]);
            BranchIs(lex, ts, body.value, body.rest[..k], if closed then Some(at[0]) else None, if closed then at[1..] else at)
    decreases |ts|, 7
  {
    hide ParseCaseBody, GoodList, WriteList, Skip, Settled, CaseItemEnds, IsCaseEnd;
    var body := ParseCaseBody(lex, ts);
    SoundCaseBody(lex, ts);
    SkipSettles(body.rest, false);
    var end := body.rest[Skip(body.rest, false)..];
    if end != [] { Head(end); }
  }

  ghost predicate BranchIs(lex: Lexicon, ts: Tokens, body: Option<List>, newlines: Tokens, end: Option<Token>, rest: Tokens) {
    && ts == WriteCaseBody(body, newlines, end, rest)
    && (body.None? <==> CaseItemEnds(ts))
    && (body.Some? ==> GoodList(lex, body.value, Before(newlines, WriteCaseEnd(end, rest))))
    && Settled(newlines, WriteCaseEnd(end, rest), false)
    && (if end.Some? then IsCaseEnd(end.value) else rest == [] || !IsCaseEnd(rest[0]))
  }

  lemma CaseItemIsGood(lex: Lexicon, i: CaseItem, rest: Tokens)
    requires BranchIs(lex, WriteCaseBody(i.body, i.newlines, i.end, rest), i.body, i.newlines, i.end, rest)
    requires i.patterns != [] && (forall p :: p in i.patterns ==> lex.readable(p))
    requires Settled(i.before, WriteCaseBody(i.body, i.newlines, i.end, rest), true)
    ensures GoodCaseItem(lex, i, rest)
  {
    hide GoodList, WriteCaseBody, Settled, CaseItemEnds, IsCaseEnd;
  }

  lemma {:induction false} SoundCaseBody(lex: Lexicon, ts: Tokens)
    requires ParseCaseBody(lex, ts).Parsed?
    ensures var r := ParseCaseBody(lex, ts);
            && (r.value.None? <==> CaseItemEnds(ts)) && (r.value.None? ==> ts == r.rest)
            && (r.value.Some? ==> ts == WriteList(r.value.value, r.rest) && GoodList(lex, r.value.value, r.rest))
    decreases |ts|, 6
  {
    if !CaseItemEnds(ts) { SoundList(lex, ts); }
  }

  lemma {:induction false} SoundPatterns(lex: Lexicon, ts: Tokens)
    requires ParsePatterns(lex, ts).Parsed?
    ensures var r := ParsePatterns(lex, ts);
            r.value != [] && ts[0] == Word(r.value[0]) && ts == Patterns(r.value, r.rest) && forall p :: p in r.value ==> lex.readable(p)
    decreases |ts|
  {
    Head(ts);
    if |ts| > 1 && ts[1] == Token.Pipe {
      Head(ts[1..]);
      assert ts[1..][1..] == ts[2..];
      SoundPatterns(lex, ts[2..]);
      var more := ParsePatterns(lex, ts[2..]).value;
      assert ([ts[0].text] + more)[1..] == more;
    }
  }

  // ---- blocks and scripts ----

  lemma {:induction false} SoundBlock(lex: Lexicon, ts: Tokens, until: Until, required: bool)
    requires ParseBlock(lex, ts, until, required).Parsed?
    ensures var r := ParseBlock(lex, ts, until, required);
            ts == WriteBlock(r.value, r.rest) && GoodBlock(lex, r.value, until, required, r.rest)
    decreases |ts|, 8
  {
    hide ParseEntries, WriteEntries, GoodEntries, Skip, Settled;
    SkipSettles(ts, true);
    SoundEntries(lex, ts[Skip(ts, true)..], until);
  }

  lemma {:induction false} SoundEntries(lex: Lexicon, ts: Tokens, until: Until)
    requires ParseEntries(lex, ts, until).Parsed?
    ensures var r := ParseEntries(lex, ts, until); ts == WriteEntries(r.value, r.rest) && GoodEntries(lex, r.value, until, r.rest)
    decreases |ts|, 7
  {
    hide ParseList, WriteList, GoodList, Skip, Settled, Stops;
    if !Stops(until, ts) {
      SoundList(lex, ts);
      var list := ParseList(lex, ts);
      SkipSettles(list.rest, true);
      SoundEntries(lex, list.rest[Skip(list.rest, true)..], until);
    }
  }
}
