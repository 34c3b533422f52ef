/**
 The tokens of the shell language, the ways a script can be written with them, and the tree
 each way stands for. A phrase keeps every token it is written with, the separators too, so
 that two different spellings of one tree are two phrases.
 */
module ShellSyntax {
  import opened Wrappers

  // ---- tokens ----

  datatype Token =
    | Word(text: string) | IoNumber(digits: string) | Redirector(operator: RedirectOperator)
    | Newline | Semicolon | Ampersand | AndIf | OrIf | Pipe | PipeAmpersand
    | DoubleSemicolon | SemiAmpersand | DoubleSemiAmpersand
    | LeftParen | RightParen | DoubleLeftParen | EndOfInput

  datatype RedirectOperator =
    | Great | DoubleGreat | Less | DoubleLess | DoubleLessDash | TripleLess | LessGreat
    | GreatAmpersand | LessAmpersand | Clobber | AmpersandGreat | AmpersandDoubleGreat

  type Tokens = seq<Token>

  datatype Assigning = NoAssignment | Assigns | Malformed

  /** What the parser asks about the text of a word. */
  datatype Lexicon = Lexicon(readable: string -> bool, assigning: string -> Assigning)

  predicate IsKeyword(ts: Tokens, keyword: string) {
    ts != [] && ts[0] == Word(keyword)
  }

  const BLOCK_TERMINATORS := {"then", "elif", "else", "fi", "do", "done", "esac", "}"}

  predicate IsBlockTerminator(text: string) {
    text in BLOCK_TERMINATORS
  }

  predicate Separates(t: Token, semicolons: bool) {
    t == Newline || (semicolons && t == Semicolon)
  }

  /** A gap is a run of separators that nothing after it makes longer. */
  ghost predicate Settled(gap: Tokens, after: Tokens, semicolons: bool) {
    (forall t :: t in gap ==> Separates(t, semicolons)) && (after == [] || !Separates(after[0], semicolons))
  }

  /** No further command of the list begins here. */
  predicate ListEnds(ts: Tokens) {
    ts == [] || ts[0] in {RightParen, DoubleSemicolon, SemiAmpersand, DoubleSemiAmpersand}
    || (ts[0].Word? && IsBlockTerminator(ts[0].text))
  }

  predicate TimeEnds(ts: Tokens) {
    ts == [] || ts[0] in {Newline, Semicolon, RightParen}
  }

  predicate CaseItemEnds(ts: Tokens) {
    ts == [] || ts[0] in {DoubleSemicolon, SemiAmpersand, DoubleSemiAmpersand} || IsKeyword(ts, "esac")
  }

  predicate StartsRedirect(ts: Tokens) {
    ts != [] && (ts[0].Redirector? || (ts[0].IoNumber? && |ts| > 1 && ts[1].Redirector?))
  }

  predicate IsCaseEnd(t: Token) {
    t in {DoubleSemicolon, SemiAmpersand, DoubleSemiAmpersand}
  }

  // ---- which command begins ----

  datatype Opening =
    | OpensIf | OpensWhile | OpensUntil | OpensFor | OpensSelect | OpensCoprocess | OpensCase | OpensGroup | OpensConditional
    | OpensArithmetic | OpensSubshell | OpensFunction | OpensShorthand | OpensSimple

  function OpeningOf(ts: Tokens): Opening {
    if ts == [] then OpensSimple
    else if ts[0].Word? then
      var text := ts[0].text;
      if text == "if" then OpensIf
      else if text == "while" then OpensWhile
      else if text == "until" then OpensUntil
      else if text == "for" then OpensFor
      else if text == "select" then OpensSelect
      else if text == "coproc" then OpensCoprocess
      else if text == "case" then OpensCase
      else if text == "function" then OpensFunction
      else if text == "{" then OpensGroup
      else if text == "[[" then OpensConditional
      else if |ts| > 2 && ts[1] == LeftParen && ts[2] == RightParen then OpensShorthand
      else OpensSimple
    else if ts[0] == DoubleLeftParen then OpensArithmetic
    else if ts[0] == LeftParen then OpensSubshell
    else OpensSimple
  }

  // ---- phrases ----

  datatype Redirect = Redirect(descriptor: Option<string>, operator: RedirectOperator, target: string)

  datatype Item = Assignment(text: string) | Argument(text: string) | Number(digits: string) | Redirected(redirect: Redirect)

  datatype List = List(first: Pipe, tail: Tail)
  datatype Tail =
    | Stop
    | Join(isAnd: bool, gap: Tokens, next: Pipe, more: Tail)
    | Close(background: bool, gap: Tokens)
    | More(background: bool, gap: Tokens, list: List)
  datatype Pipe =
    | Stages(bangs: nat, first: Command, stages: Tubes)
    | Timed(bangs: nat, posix: bool, body: Pipe)
    | TimedNothing(bangs: nat, posix: bool)
  datatype Tubes = NoTube | Tube(both: bool, gap: Tokens, next: Command, more: Tubes)
  datatype Command =
    | Simple(items: seq<Item>)
    | Compound(body: Body, redirects: seq<Redirect>)
    | Function(heading: Heading, name: string, gap: Tokens, definition: Command)
  datatype Heading = Shorthand | Keyword(parens: bool)
  datatype Body =
    | If(condition: Block, consequent: Block, alternative: Alternative)
    | While(negate: bool, condition: Block, body: Block)
    | For(select: bool, name: string, items: Option<seq<string>>, gap: Tokens, body: Block)
    | ArithmeticFor(inside: Tokens, twice: bool, gap: Tokens, body: Block)
    | Coprocess(title: Option<string>, command: Command)
    | Case(subject: string, newlines: Tokens, gap: Tokens, cases: Cases)
    | Group(body: Block)
    | Subshell(body: Block)
    | Conditional(expression: Or)
    | Arithmetic(inside: Tokens, twice: bool)
  datatype Alternative = Fi | Else(body: Block) | Elif(condition: Block, consequent: Block, alternative: Alternative)
  datatype Block = Block(gap: Tokens, entries: Entries)
  datatype Entries = NoEntry | Entry(list: List, gap: Tokens, more: Entries)
  datatype Cases = NoCase | Cases(first: CaseItem, gap: Tokens, more: Cases)
  datatype CaseItem = CaseItem(paren: bool, patterns: seq<string>, before: Tokens, body: Option<List>, newlines: Tokens, end: Option<Token>)

  datatype Or = Or(first: And, more: Ors)
  datatype Ors = NoOr | OrMore(gap: Tokens, next: And, more: Ors)
  datatype And = And(first: Primary, more: Ands)
  datatype Ands = NoAnd | AndMore(gap: Tokens, next: Primary, more: Ands)
  datatype Primary =
    | Not(denied: Primary)
    | Parens(inner: Or)
    | Unary(test: string, operand: string)
    | Binary(left: string, test: string, right: string)
    | Ordered(left: string, less: bool, right: string)
    | Value(text: string)

  /** Where a block ends: at a keyword, at a parenthesis, or with the input. */
  datatype Until = Keywords(words: set<string>) | Paren | Never

  predicate Stops(until: Until, ts: Tokens) {
    || ts == []
    || match until
       case Keywords(words) => ts[0].Word? && ts[0].text in words
       case Paren => ts[0] == RightParen
       case Never => false
  }

  const THEN := Keywords({"then"})
  const BRANCH := Keywords({"elif", "else", "fi"})
  const FI := Keywords({"fi"})
  const DO := Keywords({"do"})
  const DONE := Keywords({"done"})
  const BRACE := Keywords({"}"})

  // ---- how a phrase is written, in front of the rest of the script ----

  function Cons(t: Token, rest: Tokens): (r: Tokens)
    ensures |r| == 1 + |rest| && r[0] == t && r[1..] == rest
  {
    [t] + rest
  }

  function Before(gap: Tokens, rest: Tokens): (r: Tokens)
    ensures |r| == |gap| + |rest| && r[..|gap|] == gap && r[|gap|..] == rest
  {
    gap + rest
  }

  function Maybe(b: bool, t: Token, rest: Tokens): Tokens {
    if b then Cons(t, rest) else rest
  }

  function Words(texts: seq<string>, rest: Tokens): Tokens {
    if texts == [] then rest else Cons(Word(texts[0]), Words(texts[1..], rest))
  }

  function Bangs(n: nat, rest: Tokens): Tokens {
    if n == 0 then rest else Cons(Word("!"), Bangs(n - 1, rest))
  }

  function Patterns(texts: seq<string>, rest: Tokens): Tokens {
    if texts == [] then rest else
    Cons(Word(texts[0]), if |texts| == 1 then rest else Cons(Token.Pipe, Patterns(texts[1..], rest)))
  }

  function WriteRedirect(r: Redirect, rest: Tokens): Tokens {
    var bare := Cons(Redirector(r.operator), Cons(Word(r.target), rest));
    if r.descriptor.Some? then Cons(IoNumber(r.descriptor.value), bare) else bare
  }

  function WriteRedirects(rs: seq<Redirect>, rest: Tokens): Tokens {
    if rs == [] then rest else WriteRedirect(rs[0], WriteRedirects(rs[1..], rest))
  }

  function WriteItem(i: Item, rest: Tokens): Tokens {
    match i
    case Assignment(text) => Cons(Word(text), rest)
    case Argument(text) => Cons(Word(text), rest)
    case Number(digits) => Cons(IoNumber(digits), rest)
    case Redirected(r) => WriteRedirect(r, rest)
  }

  function WriteItems(items: seq<Item>, rest: Tokens): Tokens {
    if items == [] then rest else WriteItem(items[0], WriteItems(items[1..], rest))
  }

  function WriteList(l: List, rest: Tokens): Tokens {
    WritePipe(l.first, WriteTail(l.tail, rest))
  }

  function WriteTail(t: Tail, rest: Tokens): Tokens {
    match t
    case Stop => rest
    case Join(isAnd, gap, next, more) => Cons(if isAnd then AndIf else OrIf, Before(gap, WritePipe(next, WriteTail(more, rest))))
    case Close(background, gap) => Cons(if background then Ampersand else Semicolon, Before(gap, rest))
    case More(background, gap, list) => Cons(if background then Ampersand else Semicolon, Before(gap, WriteList(list, rest)))
  }

  function WritePipe(p: Pipe, rest: Tokens): Tokens {
    match p
    case Stages(bangs, first, stages) => Bangs(bangs, WriteCommand(first, WriteTubes(stages, rest)))
    case Timed(bangs, posix, body) => Bangs(bangs, Cons(Word("time"), Maybe(posix, Word("-p"), WritePipe(body, rest))))
    case TimedNothing(bangs, posix) => Bangs(bangs, Cons(Word("time"), Maybe(posix, Word("-p"), rest)))
  }

  function WriteTubes(s: Tubes, rest: Tokens): Tokens {
    match s
    case NoTube => rest
    case Tube(both, gap, next, more) =>
      Cons(if both then PipeAmpersand else Token.Pipe, Before(gap, WriteCommand(next, WriteTubes(more, rest))))
  }

  function WriteParens(rest: Tokens): Tokens {
    Cons(LeftParen, Cons(RightParen, rest))
  }

  function WriteHeading(h: Heading, name: string, rest: Tokens): Tokens {
    match h
    case Shorthand => Cons(Word(name), WriteParens(rest))
    case Keyword(parens) => Cons(Word("function"), Cons(Word(name), if parens then WriteParens(rest) else rest))
  }

  function WriteCommand(c: Command, rest: Tokens): Tokens {
    match c
    case Simple(items) => WriteItems(items, rest)
    case Compound(body, redirects) => WriteBody(body, WriteRedirects(redirects, rest))
    case Function(heading, name, gap, definition) => WriteHeading(heading, name, Before(gap, WriteCommand(definition, rest)))
  }

  function WriteBody(b: Body, rest: Tokens): Tokens {
    match b
    case If(c, t, e) => Cons(Word("if"), WriteBlock(c, Cons(Word("then"), WriteBlock(t, WriteAlternative(e, rest)))))
    case While(negate, c, body) => Cons(Word(if negate then "until" else "while"), WriteBlock(c, WriteDo(body, rest)))
    case For(select, name, items, gap, body) =>
      Cons(Word(if select then "select" else "for"), Cons(Word(name), WriteIn(items, Before(gap, WriteDo(body, rest)))))
    case ArithmeticFor(inside, twice, gap, body) =>
      Cons(Word("for"), WriteArithmetic(inside, twice, Before(gap, WriteDo(body, rest))))
    case Coprocess(title, command) =>
      Cons(Word("coproc"), if title.Some? then Cons(Word(title.value), WriteCommand(command, rest)) else WriteCommand(command, rest))
    case Case(subject, newlines, gap, cases) =>
      Cons(Word("case"), Cons(Word(subject), Before(newlines, Cons(Word("in"), Before(gap, WriteCases(cases, Cons(Word("esac"), rest)))))))
    case Group(body) => Cons(Word("{"), WriteBlock(body, Cons(Word("}"), rest)))
    case Subshell(body) => Cons(LeftParen, WriteBlock(body, Cons(RightParen, rest)))
    case Conditional(e) => Cons(Word("[["), WriteOr(e, Cons(Word("]]"), rest)))
    case Arithmetic(inside, twice) => WriteArithmetic(inside, twice, rest)
  }

  function WriteIn(items: Option<seq<string>>, rest: Tokens): Tokens {
    if items.Some? then Cons(Word("in"), Words(items.value, rest)) else rest
  }

  function WriteArithmetic(inside: Tokens, twice: bool, rest: Tokens): Tokens {
    Cons(DoubleLeftParen, Before(inside, Cons(RightParen, Maybe(twice, RightParen, rest))))
  }

  function WriteDo(body: Block, rest: Tokens): Tokens
    decreases body, 1
  {
    Cons(Word("do"), WriteBlock(body, Cons(Word("done"), rest)))
  }

  function WriteAlternative(a: Alternative, rest: Tokens): Tokens {
    match a
    case Fi => Cons(Word("fi"), rest)
    case Else(body) => Cons(Word("else"), WriteBlock(body, Cons(Word("fi"), rest)))
    case Elif(c, t, e) => Cons(Word("elif"), WriteBlock(c, Cons(Word("then"), WriteBlock(t, WriteAlternative(e, rest)))))
  }

  function WriteBlock(b: Block, rest: Tokens): Tokens
    decreases b, 0
  {
    Before(b.gap, WriteEntries(b.entries, rest))
  }

  function WriteEntries(es: Entries, rest: Tokens): Tokens {
    match es
    case NoEntry => rest
    case Entry(list, gap, more) => WriteList(list, Before(gap, WriteEntries(more, rest)))
  }

  function WriteCases(cs: Cases, rest: Tokens): Tokens {
    match cs
    case NoCase => rest
    case Cases(first, gap, more) => WriteCaseItem(first, Before(gap, WriteCases(more, rest)))
  }

  function WriteCaseItem(i: CaseItem, rest: Tokens): Tokens {
    Maybe(i.paren, LeftParen, Patterns(i.patterns, Cons(RightParen, Before(i.before, WriteCaseBody(i.body, i.newlines, i.end, rest)))))
  }

  function WriteCaseBody(body: Option<List>, newlines: Tokens, end: Option<Token>, rest: Tokens): Tokens {
    var closing := Before(newlines, WriteCaseEnd(end, rest));
    if body.Some? then WriteList(body.value, closing) else closing
  }

  function WriteCaseEnd(end: Option<Token>, rest: Tokens): Tokens {
    if end.Some? then Cons(end.value, rest) else rest
  }

  function WriteOr(e: Or, rest: Tokens): Tokens {
    WriteAnd(e.first, WriteOrs(e.more, rest))
  }

  function WriteOrs(es: Ors, rest: Tokens): Tokens {
    match es
    case NoOr => rest
    case OrMore(gap, next, more) => Cons(OrIf, Before(gap, WriteAnd(next, WriteOrs(more, rest))))
  }

  function WriteAnd(e: And, rest: Tokens): Tokens {
    WritePrimary(e.first, WriteAnds(e.more, rest))
  }

  function WriteAnds(es: Ands, rest: Tokens): Tokens {
    match es
    case NoAnd => rest
    case AndMore(gap, next, more) => Cons(AndIf, Before(gap, WritePrimary(next, WriteAnds(more, rest))))
  }

  function WritePrimary(p: Primary, rest: Tokens): Tokens {
    match p
    case Not(denied) => Cons(Word("!"), WritePrimary(denied, rest))
    case Parens(inner) => Cons(LeftParen, WriteOr(inner, Cons(RightParen, rest)))
    case Unary(test, operand) => Cons(Word(test), Cons(Word(operand), rest))
    case Binary(left, test, right) => Cons(Word(left), Cons(Word(test), Cons(Word(right), rest)))
    case Ordered(left, less, right) => Cons(Word(left), Cons(Redirector(if less then Less else Great), Cons(Word(right), rest)))
    case Value(text) => Cons(Word(text), rest)
  }
}
