/**
 Recursive descent over the tokens that are left. Each function answers the phrase it has read
 and what remains, or that the script is not well formed.
 */
module ShellParsing {
  import opened Wrappers
  import opened ShellSyntax

  datatype Parsed<T> = Failed | Parsed(value: T, rest: Tokens)

  // ---- separators and single tokens ----

  function Skip(ts: Tokens, semicolons: bool): (n: nat)
    ensures n <= |ts|
  {
    if ts != [] && Separates(ts[0], semicolons) then 1 + Skip(ts[1..], semicolons) else 0
  }

  function Expect(ts: Tokens, keyword: string): (r: Parsed<()>)
    ensures r.Parsed? ==> |r.rest| < |ts|
  {
    if IsKeyword(ts, keyword) then Parsed((), ts[1..]) else Failed
  }

  function CountBangs(ts: Tokens): (n: nat)
    ensures n <= |ts|
  {
    if IsKeyword(ts, "!") then 1 + CountBangs(ts[1..]) else 0
  }

  /** How many tokens stand before the parenthesis that closes the arithmetic text. */
  function ArithmeticEnd(ts: Tokens, depth: nat): (r: Option<nat>)
    requires depth >= 1
    ensures r.Some? ==> r.value < |ts| && ts[r.value] == RightParen
  {
    if ts == [] then None
    else if ts[0] == RightParen && (depth == 1 || (depth == 2 && |ts| > 1 && ts[1] == RightParen)) then Some(0)
    else
      var more := match ts[0]
                  case LeftParen => ArithmeticEnd(ts[1..], depth + 1)
                  case DoubleLeftParen => ArithmeticEnd(ts[1..], depth + 2)
                  case RightParen => ArithmeticEnd(ts[1..], depth - 1)
                  case _ => ArithmeticEnd(ts[1..], depth);
      if more.Some? then Some(more.value + 1) else None
  }

  /** The text between the parentheses, and whether two of them closed it. */
  function ParseArithmetic(ts: Tokens): (r: Parsed<(Tokens, bool)>)
    ensures r.Parsed? ==> |r.rest| < |ts|
  {
    if ts == [] || ts[0] != DoubleLeftParen then Failed else
    var end := ArithmeticEnd(ts[1..], 1);
    if end.None? then Failed else
    var rest := ts[1..][end.value + 1..];
    var twice := rest != [] && rest[0] == RightParen;
    Parsed((ts[1..][..end.value], twice), if twice then rest[1..] else rest)
  }

  // ---- redirections and simple commands ----

  predicate IsHereDocument(operator: RedirectOperator) {
    operator == DoubleLess || operator == DoubleLessDash
  }

  function ParseRedirect(lex: Lexicon, ts: Tokens): (r: Parsed<Redirect>)
    requires StartsRedirect(ts)
    ensures r.Parsed? ==> |r.rest| < |ts|
  {
    var at := if ts[0].IoNumber? then ts[1..] else ts;
    if |at| < 2 || !at[1].Word? || !(IsHereDocument(at[0].operator) || lex.readable(at[1].text)) then Failed else
    Parsed(Redirect(if ts[0].IoNumber? then Some(ts[0].digits) else None, at[0].operator, at[1].text), at[2..])
  }

  function ParseRedirects(lex: Lexicon, ts: Tokens): (r: Parsed<seq<Redirect>>)
    ensures r.Parsed? ==> |r.rest| <= |ts|
    decreases |ts|
  {
    if !StartsRedirect(ts) then Parsed([], ts) else
    var first := ParseRedirect(lex, ts);
    if first.Failed? then Failed else
    var more := ParseRedirects(lex, first.rest);
    if more.Failed? then Failed else Parsed([first.value] + more.value, more.rest)
  }

  /** One element of a simple command, or nothing where the command ends. */
  function ParseItem(lex: Lexicon, ts: Tokens, named: bool): (r: Parsed<Option<ShellSyntax.Item>>)
    ensures r.Parsed? ==> if r.value.None? then r.rest == ts else |r.rest| < |ts|
  {
    if StartsRedirect(ts) then
      var r := ParseRedirect(lex, ts);
      if r.Failed? then Failed else Parsed(Some(Redirected(r.value)), r.rest)
    else if ts == [] then Parsed(None, ts)
    else match ts[0]
      case IoNumber(digits) => if lex.readable(digits) then Parsed(Some(Number(digits)), ts[1..]) else Failed
      case Word(text) =>
        if !named && IsBlockTerminator(text) then Parsed(None, ts)
        else if !named && lex.assigning(text) != NoAssignment then
          if lex.assigning(text) == Malformed then Failed else Parsed(Some(Assignment(text)), ts[1..])
        else if lex.readable(text) then Parsed(Some(Argument(text)), ts[1..]) else Failed
      case _ => Parsed(None, ts)
  }

  predicate Names(i: ShellSyntax.Item) {
    i.Argument? || i.Number?
  }

  function ParseItems(lex: Lexicon, ts: Tokens, named: bool): (r: Parsed<seq<ShellSyntax.Item>>)
    ensures r.Parsed? ==> |r.rest| <= |ts| && (r.value != [] ==> |r.rest| < |ts|)
    decreases |ts|
  {
    var first := ParseItem(lex, ts, named);
    if first.Failed? then Failed
    else if first.value.None? then Parsed([], ts)
    else
      var more := ParseItems(lex, first.rest, named || Names(first.value.value));
      if more.Failed? then Failed else Parsed([first.value.value] + more.value, more.rest)
  }

  // ---- conditional expressions ----

  predicate IsUnaryTest(text: string) {
    |text| == 2 && text[0] == '-' && ('a' <= text[1] <= 'z' || 'A' <= text[1] <= 'Z')
  }

  predicate IsBinaryTest(text: string) {
    text in {"=", "==", "!=", "-eq", "-ne", "-lt", "-le", "-gt", "-ge", "-nt", "-ot", "-ef"}
  }

  function ParseOr(lex: Lexicon, ts: Tokens): (r: Parsed<Or>)
    ensures r.Parsed? ==> |r.rest| < |ts|
    decreases |ts|, 3
  {
    var first := ParseAnd(lex, ts);
    if first.Failed? then Failed else
    var more := ParseOrs(lex, first.rest);
    if more.Failed? then Failed else Parsed(Or(first.value, more.value), more.rest)
  }

  function ParseOrs(lex: Lexicon, ts: Tokens): (r: Parsed<Ors>)
    ensures r.Parsed? ==> |r.rest| <= |ts|
    decreases |ts|, 3
  {
    if ts == [] || ts[0] != OrIf then Parsed(NoOr, ts) else
    var n := Skip(ts[1..], false);
    var next := ParseAnd(lex, ts[1..][n..]);
    if next.Failed? then Failed else
    var more := ParseOrs(lex, next.rest);
    if more.Failed? then Failed else Parsed(OrMore(ts[1..][..n], next.value, more.value), more.rest)
  }

  function ParseAnd(lex: Lexicon, ts: Tokens): (r: Parsed<And>)
    ensures r.Parsed? ==> |r.rest| < |ts|
    decreases |ts|, 2
  {
    var first := ParsePrimary(lex, ts);
    if first.Failed? then Failed else
    var more := ParseAnds(lex, first.rest);
    if more.Failed? then Failed else Parsed(And(first.value, more.value), more.rest)
  }

  function ParseAnds(lex: Lexicon, ts: Tokens): (r: Parsed<Ands>)
    ensures r.Parsed? ==> |r.rest| <= |ts|
    decreases |ts|, 2
  {
    if ts == [] || ts[0] != AndIf then Parsed(NoAnd, ts) else
    var n := Skip(ts[1..], false);
    var next := ParsePrimary(lex, ts[1..][n..]);
    if next.Failed? then Failed else
    var more := ParseAnds(lex, next.rest);
    if more.Failed? then Failed else Parsed(AndMore(ts[1..][..n], next.value, more.value), more.rest)
  }

  function ParsePrimary(lex: Lexicon, ts: Tokens): (r: Parsed<Primary>)
    ensures r.Parsed? ==> |r.rest| < |ts|
    decreases |ts|, 1
  {
    if IsKeyword(ts, "!") then
      var denied := ParsePrimary(lex, ts[1..]);
      if denied.Failed? then Failed else Parsed(Not(denied.value), denied.rest)
    else if ts != [] && ts[0] == LeftParen then
      var inner := ParseOr(lex, ts[1..]);
      if inner.Failed? || inner.rest == [] || inner.rest[0] != RightParen then Failed else Parsed(Parens(inner.value), inner.rest[1..])
    else ParseTest(lex, ts)
  }

  function ParseTest(lex: Lexicon, ts: Tokens): (r: Parsed<Primary>)
    ensures r.Parsed? ==> |r.rest| < |ts|
  {
    if ts == [] || !ts[0].Word? then Failed else
    var first, after := ts[0].text, ts[1..];
    if IsUnaryTest(first) && after != [] && after[0].Word? && after[0].text != "]]" then
      if lex.readable(after[0].text) then Parsed(Unary(first, after[0].text), after[1..]) else Failed
    else if !lex.readable(first) then Failed
    else if after != [] && ((after[0].Word? && IsBinaryTest(after[0].text)) || after[0] in {Redirector(Less), Redirector(Great)}) then
      if |after| < 2 || !after[1].Word? || !lex.readable(after[1].text) then Failed
      else if after[0].Word? then Parsed(Binary(first, after[0].text, after[1].text), after[2..])
      else Parsed(Ordered(first, after[0] == Redirector(Less), after[1].text), after[2..])
    else Parsed(Value(first), after)
  }

  // ---- lists and pipelines ----

  function ParseList(lex: Lexicon, ts: Tokens): (r: Parsed<List>)
    ensures r.Parsed? ==> |r.rest| < |ts|
    decreases |ts|, 5
  {
    var first := ParsePipe(lex, ts);
    if first.Failed? then Failed else
    var tail := ParseTail(lex, first.rest);
    if tail.Failed? then Failed else Parsed(List(first.value, tail.value), tail.rest)
  }

  function ParseTail(lex: Lexicon, ts: Tokens): (r: Parsed<Tail>)
    ensures r.Parsed? ==> |r.rest| <= |ts|
    decreases |ts|, 6
  {
    if ts == [] || ts[0] !in {AndIf, OrIf, Ampersand, Semicolon} then Parsed(Stop, ts) else
    var n := Skip(ts[1..], false);
    var gap, after := ts[1..][..n], ts[1..][n..];
    if ts[0] == AndIf || ts[0] == OrIf then
      var next := ParsePipe(lex, after);
      if next.Failed? then Failed else
      var more := ParseTail(lex, next.rest);
      if more.Failed? then Failed else Parsed(Join(ts[0] == AndIf, gap, next.value, more.value), more.rest)
    else if ListEnds(after) then Parsed(Close(ts[0] == Ampersand, gap), after)
    else
      var list := ParseList(lex, after);
      if list.Failed? then Failed else Parsed(More(ts[0] == Ampersand, gap, list.value), list.rest)
  }

  function ParsePipe(lex: Lexicon, ts: Tokens): (r: Parsed<ShellSyntax.Pipe>)
    ensures r.Parsed? ==> |r.rest| < |ts|
    decreases |ts|, 4
  {
    var bangs := CountBangs(ts);
    var at := ts[bangs..];
    if IsKeyword(at, "time") then
      var posix := IsKeyword(at[1..], "-p");
      var after := if posix then at[1..][1..] else at[1..];
      if TimeEnds(after) then Parsed(TimedNothing(bangs, posix), after) else
      var body := ParsePipe(lex, after);
      if body.Failed? then Failed else Parsed(Timed(bangs, posix, body.value), body.rest)
    else
      var first := ParseCommand(lex, at);
      if first.Failed? then Failed else
      var stages := ParseTubes(lex, first.rest);
      if stages.Failed? then Failed else Parsed(Stages(bangs, first.value, stages.value), stages.rest)
  }

  function ParseTubes(lex: Lexicon, ts: Tokens): (r: Parsed<Tubes>)
    ensures r.Parsed? ==> |r.rest| <= |ts|
    decreases |ts|, 4
  {
    if ts == [] || ts[0] !in {Token.Pipe, PipeAmpersand} then Parsed(NoTube, ts) else
    var n := Skip(ts[1..], false);
    var next := ParseCommand(lex, ts[1..][n..]);
    if next.Failed? then Failed else
    var more := ParseTubes(lex, next.rest);
    if more.Failed? then Failed else Parsed(Tube(ts[0] == PipeAmpersand, ts[1..][..n], next.value, more.value), more.rest)
  }

  // ---- commands ----

  function ParseCommand(lex: Lexicon, ts: Tokens): (r: Parsed<Command>)
    ensures r.Parsed? ==> |r.rest| < |ts|
    decreases |ts|, 3
  {
    match OpeningOf(ts)
    case OpensSimple =>
      var items := ParseItems(lex, ts, false);
      if items.Failed? || items.value == [] then Failed else Parsed(Simple(items.value), items.rest)
    case OpensShorthand => ParseFunction(lex, Shorthand, ts[0].text, ts[3..], ts)
    case OpensFunction =>
      if |ts| < 2 || !ts[1].Word? then Failed else
      var parens := |ts| > 2 && ts[2] == LeftParen;
      if parens && (|ts| < 4 || ts[3] != RightParen) then Failed else
      ParseFunction(lex, Keyword(parens), ts[1].text, if parens then ts[4..] else ts[2..], ts)
    case _ =>
      var body := ParseBody(lex, ts);
      if body.Failed? then Failed else
      var redirects := ParseRedirects(lex, body.rest);
      if redirects.Failed? then Failed else Parsed(Compound(body.value, redirects.value), redirects.rest)
  }

  function ParseFunction(lex: Lexicon, heading: Heading, name: string, ts: Tokens, ghost whole: Tokens): (r: Parsed<Command>)
    requires |ts| < |whole|
    ensures r.Parsed? ==> |r.rest| < |ts|
    decreases |whole|, 2
  {
    var n := Skip(ts, false);
    var definition := ParseDefinition(lex, ts[n..]);
    if definition.Failed? then Failed else Parsed(Function(heading, name, ts[..n], definition.value), definition.rest)
  }

  /** A function's body: redirections after a group or a subshell are not part of it. */
  function ParseDefinition(lex: Lexicon, ts: Tokens): (r: Parsed<Command>)
    ensures r.Parsed? ==> |r.rest| < |ts|
    decreases |ts|, 4
  {
    if OpeningOf(ts) == OpensGroup || OpeningOf(ts) == OpensSubshell then
      var body := ParseBody(lex, ts);
      if body.Failed? then Failed else Parsed(Compound(body.value, []), body.rest)
    else ParseCommand(lex, ts)
  }

  function ParseBody(lex: Lexicon, ts: Tokens): (r: Parsed<Body>)
    ensures r.Parsed? ==> |r.rest| < |ts|
    decreases |ts|, 2
  {
    match OpeningOf(ts)
    case OpensIf => ParseIf(lex, ts)
    case OpensWhile => ParseWhile(lex, ts, false)
    case OpensUntil => ParseWhile(lex, ts, true)
    case OpensFor => ParseFor(lex, ts, false)
    case OpensSelect => ParseFor(lex, ts, true)
    case OpensCoprocess => ParseCoprocess(lex, ts)
    case OpensCase => ParseCase(lex, ts)
    case OpensGroup =>
      var body := ParseBlock(lex, ts[1..], BRACE, true);
      if body.Failed? then Failed else
      var end := Expect(body.rest, "}");
      if end.Failed? then Failed else Parsed(Group(body.value), end.rest)
    case OpensSubshell =>
      var body := ParseBlock(lex, ts[1..], Paren, false);
      if body.Failed? || body.rest == [] || body.rest[0] != RightParen then Failed else Parsed(Subshell(body.value), body.rest[1..])
    case OpensConditional =>
      var e := ParseOr(lex, ts[1..]);
      if e.Failed? then Failed else
      var end := Expect(e.rest, "]]");
      if end.Failed? then Failed else Parsed(Conditional(e.value), end.rest)
    case OpensArithmetic =>
      var inside := ParseArithmetic(ts);
      if inside.Failed? then Failed else Parsed(Arithmetic(inside.value.0, inside.value.1), inside.rest)
    case _ => Failed
  }

  function ParseIf(lex: Lexicon, ts: Tokens): (r: Parsed<Body>)
    requires ts != []
    ensures r.Parsed? ==> |r.rest| < |ts|
    decreases |ts|, 1
  {
    var condition := ParseBlock(lex, ts[1..], THEN, true);
    if condition.Failed? then Failed else
    var then_ := Expect(condition.rest, "then");
    if then_.Failed? then Failed else
    var consequent := ParseBlock(lex, then_.rest, BRANCH, true);
    if consequent.Failed? then Failed else
    var alternative := ParseAlternative(lex, consequent.rest);
    if alternative.Failed? then Failed else Parsed(If(condition.value, consequent.value, alternative.value), alternative.rest)
  }

  function ParseAlternative(lex: Lexicon, ts: Tokens): (r: Parsed<Alternative>)
    ensures r.Parsed? ==> |r.rest| < |ts|
    decreases |ts|, 1
  {
    if IsKeyword(ts, "elif") then
      var condition := ParseBlock(lex, ts[1..], THEN, true);
      if condition.Failed? then Failed else
      var then_ := Expect(condition.rest, "then");
      if then_.Failed? then Failed else
      var consequent := ParseBlock(lex, then_.rest, BRANCH, true);
      if consequent.Failed? then Failed else
      var alternative := ParseAlternative(lex, consequent.rest);
      if alternative.Failed? then Failed else Parsed(Elif(condition.value, consequent.value, alternative.value), alternative.rest)
    else if IsKeyword(ts, "else") then
      var body := ParseBlock(lex, ts[1..], FI, true);
      if body.Failed? then Failed else
      var end := Expect(body.rest, "fi");
      if end.Failed? then Failed else Parsed(Else(body.value), end.rest)
    else
      var end := Expect(ts, "fi");
      if end.Failed? then Failed else Parsed(Fi, end.rest)
  }

  function ParseWhile(lex: Lexicon, ts: Tokens, negate: bool): (r: Parsed<Body>)
    requires ts != []
    ensures r.Parsed? ==> |r.rest| < |ts|
    decreases |ts|, 1
  {
    var condition := ParseBlock(lex, ts[1..], DO, true);
    if condition.Failed? then Failed else
    var body := ParseDo(lex, condition.rest);
    if body.Failed? then Failed else Parsed(While(negate, condition.value, body.value), body.rest)
  }

  function ParseDo(lex: Lexicon, ts: Tokens): (r: Parsed<Block>)
    ensures r.Parsed? ==> |r.rest| < |ts|
    decreases |ts|, 1
  {
    var do_ := Expect(ts, "do");
    if do_.Failed? then Failed else
    var body := ParseBlock(lex, do_.rest, DONE, true);
    if body.Failed? then Failed else
    var end := Expect(body.rest, "done");
    if end.Failed? then Failed else Parsed(body.value, end.rest)
  }

  function ParseFor(lex: Lexicon, ts: Tokens, select: bool): (r: Parsed<Body>)
    requires ts != []
    ensures r.Parsed? ==> |r.rest| < |ts|
    decreases |ts|, 1
  {
    if !select && |ts| > 1 && ts[1] == DoubleLeftParen then
      var inside := ParseArithmetic(ts[1..]);
      if inside.Failed? then Failed else
      var n := Skip(inside.rest, true);
      var body := ParseDo(lex, inside.rest[n..]);
      if body.Failed? then Failed else Parsed(ArithmeticFor(inside.value.0, inside.value.1, inside.rest[..n], body.value), body.rest)
    else if |ts| < 2 || !ts[1].Word? then Failed
    else
      var items := ParseIn(lex, ts[2..]);
      if items.Failed? then Failed else
      var n := Skip(items.rest, true);
      var body := ParseDo(lex, items.rest[n..]);
      if body.Failed? then Failed else Parsed(For(select, ts[1].text, items.value, items.rest[..n], body.value), body.rest)
  }

  function ParseIn(lex: Lexicon, ts: Tokens): (r: Parsed<Option<seq<string>>>)
    ensures r.Parsed? ==> |r.rest| <= |ts|
  {
    if !IsKeyword(ts, "in") then Parsed(None, ts) else
    var items := ParseWords(lex, ts[1..]);
    if items.Failed? then Failed else Parsed(Some(items.value), items.rest)
  }

  function ParseWords(lex: Lexicon, ts: Tokens): (r: Parsed<seq<string>>)
    ensures r.Parsed? ==> |r.rest| <= |ts|
  {
    if ts == [] || !ts[0].Word? || IsBlockTerminator(ts[0].text) then Parsed([], ts) else
    if !lex.readable(ts[0].text) then Failed else
    var more := ParseWords(lex, ts[1..]);
    if more.Failed? then Failed else Parsed([ts[0].text] + more.value, more.rest)
  }

  predicate IsName(text: string) {
    && text != "" && (IsLetter(text[0]) || text[0] == '_')
    && forall k :: 0 <= k < |text| ==> IsLetter(text[k]) || '0' <= text[k] <= '9' || text[k] == '_'
  }

  predicate IsLetter(c: char) {
    'a' <= c <= 'z' || 'A' <= c <= 'Z'
  }

  /** The first word names the process when it could be a name and more of a command follows. */
  predicate IsLabelled(ts: Tokens) {
    && |ts| > 1 && ts[0].Word? && !IsBlockTerminator(ts[0].text) && IsName(ts[0].text)
    && (ts[1].Word? || ts[1] == LeftParen)
  }

  function ParseCoprocess(lex: Lexicon, ts: Tokens): (r: Parsed<Body>)
    requires ts != []
    ensures r.Parsed? ==> |r.rest| < |ts|
    decreases |ts|, 1
  {
    var labelled := IsLabelled(ts[1..]);
    var command := ParseCommand(lex, if labelled then ts[2..] else ts[1..]);
    if command.Failed? then Failed else
    Parsed(Coprocess(if labelled then Some(ts[1].text) else None, command.value), command.rest)
  }

  function ParseCase(lex: Lexicon, ts: Tokens): (r: Parsed<Body>)
    requires ts != []
    ensures r.Parsed? ==> |r.rest| < |ts|
    decreases |ts|, 1
  {
    if |ts| < 2 || !ts[1].Word? || !lex.readable(ts[1].text) then Failed else
    var n := Skip(ts[2..], false);
    var in_ := Expect(ts[2..][n..], "in");
    if in_.Failed? then Failed else
    var m := Skip(in_.rest, true);
    var cases := ParseCases(lex, in_.rest[m..]);
    if cases.Failed? then Failed else
    var end := Expect(cases.rest, "esac");
    if end.Failed? then Failed else Parsed(Case(ts[1].text, ts[2..][..n], in_.rest[..m], cases.value), end.rest)
  }

  function ParseCases(lex: Lexicon, ts: Tokens): (r: Parsed<Cases>)
    ensures r.Parsed? ==> |r.rest| <= |ts|
    decreases |ts|, 7
  {
    if ts == [] || IsKeyword(ts, "esac") then Parsed(NoCase, ts) else
    var first := ParseCaseItem(lex, ts);
    if first.Failed? then Failed else
    var n := Skip(first.rest, true);
    var more := ParseCases(lex, first.rest[n..]);
    if more.Failed? then Failed else Parsed(Cases.Cases(first.value, first.rest[..n], more.value), more.rest)
  }

  function ParseCaseItem(lex: Lexicon, ts: Tokens): (r: Parsed<CaseItem>)
    requires ts != []
    ensures r.Parsed? ==> |r.rest| < |ts|
    decreases |ts|, 6
  {
    var paren := ts[0] == LeftParen;
    var patterns := ParsePatterns(lex, if paren then ts[1..] else ts);
    if patterns.Failed? || patterns.rest == [] || patterns.rest[0] != RightParen then Failed else
    var n := Skip(patterns.rest[1..], true);
    var body := ParseCaseBody(lex, patterns.rest[1..][n..]);
    if body.Failed? then Failed else
    var k := Skip(body.rest, false);
    var at := body.rest[k..];
    var closed := at != [] && IsCaseEnd(at[0]);
    Parsed(CaseItem(paren, patterns.value, patterns.rest[1..][..n], body.value, body.rest[..k], if closed then Some(at[0]) else None),
           if closed then at[1..] else at)
  }

  function ParseCaseBody(lex: Lexicon, ts: Tokens): (r: Parsed<Option<List>>)
    ensures r.Parsed? ==> |r.rest| <= |ts|
    decreases |ts|, 6
  {
    if CaseItemEnds(ts) then Parsed(None, ts) else
    var list := ParseList(lex, ts);
    if list.Failed? then Failed else Parsed(Some(list.value), list.rest)
  }

  function ParsePatterns(lex: Lexicon, ts: Tokens): (r: Parsed<seq<string>>)
    ensures r.Parsed? ==> |r.rest| < |ts|
  {
    if ts == [] || !ts[0].Word? || !lex.readable(ts[0].text) then Failed
    else if |ts| > 1 && ts[1] == Token.Pipe then
      var more := ParsePatterns(lex, ts[2..]);
      if more.Failed? then Failed else Parsed([ts[0].text] + more.value, more.rest)
    else Parsed([ts[0].text], ts[1..])
  }

  // ---- blocks and scripts ----

  function ParseBlock(lex: Lexicon, ts: Tokens, until: Until, required: bool): (r: Parsed<Block>)
    ensures r.Parsed? ==> |r.rest| <= |ts|
    decreases |ts|, 8
  {
    var n := Skip(ts, true);
    var entries := ParseEntries(lex, ts[n..], until);
    if entries.Failed? || (required && entries.value.NoEntry?) then Failed else Parsed(Block(ts[..n], entries.value), entries.rest)
  }

  function ParseEntries(lex: Lexicon, ts: Tokens, until: Until): (r: Parsed<Entries>)
    ensures r.Parsed? ==> |r.rest| <= |ts|
    decreases |ts|, 7
  {
    if Stops(until, ts) then Parsed(NoEntry, ts) else
    var list := ParseList(lex, ts);
    if list.Failed? then Failed else
    var n := Skip(list.rest, true);
    var more := ParseEntries(lex, list.rest[n..], until);
    if more.Failed? then Failed else Parsed(Entry(list.value, list.rest[..n], more.value), more.rest)
  }

  function ParseScript(lex: Lexicon, ts: Tokens): Option<Block> {
    var b := ParseBlock(lex, ts, Never, false);
    if b.Failed? then None else Some(b.value)
  }
}
