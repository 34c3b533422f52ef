/** The parser accepts exactly the well written scripts, each in one way; and where its trees go wrong. */
module ShellParserLaws {
  import opened Wrappers
  import opened ShellSyntax
  import opened ShellParsing
  import opened ShellGrammar
  import opened ShellTrees
  import Sound = ShellParserSoundness
  import Complete = ShellParserCompleteness

  lemma ScriptIsWhole(lex: Lexicon, es: Entries, rest: Tokens)
    requires GoodEntries(lex, es, Never, rest)
    ensures rest == []
    decreases es
  {
    if es.Entry? { ScriptIsWhole(lex, es.more, rest); }
  }

  lemma AcceptsExactly(lex: Lexicon, ts: Tokens, b: Block)
    ensures ParseScript(lex, ts) == Some(b) <==> ts == WriteBlock(b, []) && GoodScript(lex, b)
  {
    hide ParseEntries, WriteEntries, GoodEntries;
    if ParseScript(lex, ts) == Some(b) {
      Sound.SoundBlock(lex, ts, Never, false);
      ScriptIsWhole(lex, b.entries, ParseBlock(lex, ts, Never, false).rest);
    }
    if ts == WriteBlock(b, []) && GoodScript(lex, b) { Complete.CompleteBlock(lex, b, Never, false, []); }
  }

  lemma ListExactly(lex: Lexicon, ts: Tokens, l: List, rest: Tokens)
    ensures ParseList(lex, ts) == Parsed(l, rest) <==> ts == WriteList(l, rest) && GoodList(lex, l, rest)
  {
    if ParseList(lex, ts) == Parsed(l, rest) { Sound.SoundList(lex, ts); }
    if ts == WriteList(l, rest) && GoodList(lex, l, rest) { Complete.CompleteList(lex, l, rest); }
  }

  /** No text is two scripts. */
  lemma Unambiguous(lex: Lexicon, a: Block, b: Block)
    requires GoodScript(lex, a) && GoodScript(lex, b) && WriteBlock(a, []) == WriteBlock(b, [])
    ensures a == b
  {
    AcceptsExactly(lex, WriteBlock(a, []), a);
    AcceptsExactly(lex, WriteBlock(b, []), b);
  }

  // ---- the first branch of an elif ----

  /** What an `if` stands for: every condition with its own branch. */
  function IfMeant(b: Body): Node
    requires b.If?
  {
    TreeBranches(TreeBlock(b.condition), TreeBlock(b.consequent), b.alternative)
  }

  function Branches(n: Node): nat {
    if n.IfCommand? && n.alternative.Some? then 1 + Branches(n.alternative.value) else 0
  }

  lemma ElifLosesTheFirstBranch(b: Body)
    requires b.If?
    ensures TreeBody(b) == IfMeant(b) <==> !b.alternative.Elif?
  {
    if b.alternative.Elif? {
      var a := b.alternative;
      var rest := TreeBranches(TreeBlock(a.condition), TreeBlock(a.consequent), a.alternative);
      assert TreeBody(b) == rest;
      assert IfMeant(b) == IfCommand(TreeBlock(b.condition), TreeBlock(b.consequent), Some(rest));
      assert Branches(IfMeant(b)) == 1 + Branches(rest);
    }
  }

  // ---- `!` before `time` ----

  function Negated(bangs: nat, n: Node): Node {
    if bangs % 2 == 0 then n else Pipeline([n], true, [])
  }

  /** What a pipeline stands for, the exclamation marks of every `time` in it and all. */
  function PipeMeant(p: ShellSyntax.Pipe): Node {
    match p
    case Stages(_, _, _) => TreePipe(p)
    case Timed(bangs, posix, body) => Negated(bangs, TimedCommand(Some(PipeMeant(body)), posix))
    case TimedNothing(bangs, posix) => Negated(bangs, TimedCommand(None, posix))
  }

  /** Some `time` in it, at whatever depth, has an odd number of exclamation marks in front of it. */
  predicate LosesNegation(p: ShellSyntax.Pipe) {
    match p
    case Stages(_, _, _) => false
    case Timed(bangs, _, body) => bangs % 2 == 1 || LosesNegation(body)
    case TimedNothing(bangs, _) => bangs % 2 == 1
  }

  lemma {:induction false} TimeForgetsNegationExactly(p: ShellSyntax.Pipe)
    ensures TreePipe(p) == PipeMeant(p) <==> !LosesNegation(p)
  {
    if p.Timed? { TimeForgetsNegationExactly(p.body); }
  }

  // ---- redirections after the body of a function ----

  /** The body of a function is the command that stands there, redirections and all, unless it is a group or a subshell with one. */
  lemma DefinitionExactly(lex: Lexicon, ts: Tokens)
    requires ParseDefinition(lex, ts).Parsed? && ParseCommand(lex, ts).Parsed?
    ensures ParseDefinition(lex, ts) == ParseCommand(lex, ts)
            <==> !(OpeningOf(ts) in {OpensGroup, OpensSubshell} && StartsRedirect(ParseBody(lex, ts).rest))
  {
    hide ParseBody, OpeningOf, ParseItems, ParseFunction;
    if OpeningOf(ts) in {OpensGroup, OpensSubshell} {
      var body := ParseBody(lex, ts);
      var redirects := ParseRedirects(lex, body.rest);
    }
  }

  // ---- the name of a coprocess ----

  /** A word is taken for the name exactly when it could be one and a word or a parenthesis follows: so are the keywords of loops. */
  lemma CoprocessNameExactly(lex: Lexicon, ts: Tokens)
    requires ts != [] && ParseCoprocess(lex, ts).Parsed?
    ensures ParseCoprocess(lex, ts).value.Coprocess?
    ensures ParseCoprocess(lex, ts).value.title.Some? <==> IsLabelled(ts[1..])
  {
    hide ParseCommand;
  }

  /**
   `coproc while …`: the keyword is the name, and the command begins after it, exactly when a word or a
   parenthesis comes next; before anything else, as before a line end or `((`, the loop is the command.
   And so for `until`.
   */
  lemma LoopTakenForAName(lex: Lexicon, until: bool, rest: Tokens)
    requires ParseCoprocess(lex, Cons(Word("coproc"), Cons(Word(if until then "until" else "while"), rest))).Parsed?
    ensures var loop := if until then "until" else "while";
            var body := ParseCoprocess(lex, Cons(Word("coproc"), Cons(Word(loop), rest))).value;
            && body.Coprocess?
            && if rest != [] && (rest[0].Word? || rest[0] == LeftParen)
               then body.title == Some(loop) && ParseCommand(lex, rest).Parsed? && body.command == ParseCommand(lex, rest).value
               else body.title == None && body.command.Compound? && body.command.body.While? && body.command.body.negate == until
  {
    hide ParseCommand, IsName, IsBlockTerminator;
    var loop := if until then "until" else "while";
    var after := Cons(Word(loop), rest);
    var ts := Cons(Word("coproc"), after);
    assert ts[1..] == after && after[1..] == rest && ts[2..] == rest;
    LoopIsAName();
    assert after[0].text == loop && IsName(loop) && !IsBlockTerminator(loop);
    if rest != [] { assert after[1] == rest[0]; }
    assert IsLabelled(after) <==> rest != [] && (rest[0].Word? || rest[0] == LeftParen);
    if IsLabelled(after) {
      assert ts[1].text == loop;
    } else {
      LoopCommand(lex, until, rest);
    }
  }

  lemma LoopIsAName()
    ensures IsName("while") && !IsBlockTerminator("while") && IsName("until") && !IsBlockTerminator("until")
  {}

  lemma LoopCommand(lex: Lexicon, until: bool, rest: Tokens)
    ensures var c := ParseCommand(lex, Cons(Word(if until then "until" else "while"), rest));
            c.Parsed? ==> c.value.Compound? && c.value.body.While? && c.value.body.negate == until
  {
    hide ParseBody, ParseRedirects, OpeningOf;
    var ts := Cons(Word(if until then "until" else "while"), rest);
    LoopOpens(until, rest);
    LoopBody(lex, until, rest);
    var body := ParseBody(lex, ts);
  }

  lemma LoopOpens(until: bool, rest: Tokens)
    ensures OpeningOf(Cons(Word(if until then "until" else "while"), rest)) == if until then OpensUntil else OpensWhile
  {}

  lemma LoopBody(lex: Lexicon, until: bool, rest: Tokens)
    ensures var b := ParseBody(lex, Cons(Word(if until then "until" else "while"), rest));
            b.Parsed? ==> b.value.While? && b.value.negate == until
  {
    hide ParseBlock, ParseDo, OpeningOf;
    LoopOpens(until, rest);
  }

  // ---- arithmetic text that ends with a parenthesis ----

  /** Every parenthesis opened inside is closed inside. */
  predicate Balanced(ts: Tokens, depth: nat) {
    if ts == [] then depth == 0
    else
      match ts[0]
      case LeftParen => Balanced(ts[1..], depth + 1)
      case DoubleLeftParen => Balanced(ts[1..], depth + 2)
      case RightParen => depth > 0 && Balanced(ts[1..], depth - 1)
      case _ => Balanced(ts[1..], depth)
  }

  lemma {:induction false} BalancedEncloses(ts: Tokens, depth: nat)
    requires Balanced(ts, depth) && (ts == [] ==> depth == 0)
    ensures Encloses(ts, true, depth + 1) <==> ts == [] || ts[|ts| - 1] != RightParen
    decreases |ts|
  {
    if |ts| == 1 {
      assert ts[1..] == [];
    } else if |ts| > 1 {
      assert ts[1..][|ts| - 2] == ts[|ts| - 1];
      var inner := match ts[0] case LeftParen => depth + 1 case DoubleLeftParen => depth + 2 case RightParen => depth - 1 case _ => depth;
      BalancedEncloses(ts[1..], inner);
    }
  }

  /** Balanced text is read whole if and only if it does not end with a parenthesis of its own. */
  lemma ArithmeticReadsAll(inside: Tokens, rest: Tokens)
    requires Balanced(inside, 0)
    ensures ParseArithmetic(WriteArithmetic(inside, true, rest)) == Parsed((inside, true), rest)
            <==> inside == [] || inside[|inside| - 1] != RightParen
  {
    BalancedEncloses(inside, 0);
    var ts := WriteArithmetic(inside, true, rest);
    if Encloses(inside, true, 1) { Complete.CompleteArithmetic(inside, true, rest); }
    if ParseArithmetic(ts) == Parsed((inside, true), rest) { Sound.SoundArithmetic(ts); }
  }

  // ---- the second line of a case branch ----

  /** A branch whose commands are a list, well written in front of some line ends and what follows them. */
  ghost predicate FirstLine(lex: Lexicon, pattern: string, l: List, newlines: Tokens, rest: Tokens) {
    var content := WriteList(l, Before(newlines, rest));
    && lex.readable(pattern) && pattern != "esac"
    && GoodList(lex, l, Before(newlines, rest)) && Settled(newlines, rest, false)
    && (content != [] ==> !Separates(content[0], true)) && !CaseItemEnds(content)
    && (rest != [] ==> !IsCaseEnd(rest[0]))
  }

  /**
   The commands of a branch are one list: whatever the next line holds, the branch ends before it,
   and the line is read as a further branch, or refused when it cannot be one.
   */
  lemma SecondLineIsAnotherBranch(lex: Lexicon, pattern: string, l: List, newlines: Tokens, rest: Tokens)
    requires FirstLine(lex, pattern, l, newlines, rest)
    ensures var n := Skip(rest, true);
            var next := ParseCases(lex, rest[n..]);
            ParseCases(lex, Cons(Word(pattern), Cons(RightParen, WriteList(l, Before(newlines, rest)))))
            == if next.Failed? then Failed
               else Parsed(Cases.Cases(CaseItem(false, [pattern], [], Some(l), newlines, None), rest[..n], next.value), next.rest)
  {
    hide ParsePatterns, ParseCaseItem, WriteCaseItem, GoodCaseItem, WriteList, GoodList, ParseList, Skip, Settled, CaseItemEnds;
    var item := CaseItem(false, [pattern], [], Some(l), newlines, None);
    var ts := Cons(Word(pattern), Cons(RightParen, WriteList(l, Before(newlines, rest))));
    FirstLineIsGood(lex, item, rest);
    Complete.CompleteCaseItem(lex, item, rest);
    assert ts != [] && !IsKeyword(ts, "esac");
  }

  lemma FirstLineIsGood(lex: Lexicon, item: CaseItem, rest: Tokens)
    requires item.patterns != [] && item.patterns[1..] == [] && !item.paren && item.before == [] && item.body.Some? && item.end.None?
    requires FirstLine(lex, item.patterns[0], item.body.value, item.newlines, rest)
    ensures GoodCaseItem(lex, item, rest)
    ensures WriteCaseItem(item, rest) ==
            Cons(Word(item.patterns[0]), Cons(RightParen, WriteList(item.body.value, Before(item.newlines, rest))))
  {
    hide WriteList, GoodList, CaseItemEnds, IsCaseEnd;
    var content := WriteList(item.body.value, Before(item.newlines, rest));
    assert Before([], content) == content;
    assert |item.patterns| == 1;
  }

  /** One or more readable words with `|` between them and a closing parenthesis after them. */
  predicate IsPatternList(lex: Lexicon, ts: Tokens) {
    && |ts| > 1 && ts[0].Word? && lex.readable(ts[0].text)
    && (ts[1] == RightParen || (ts[1] == Token.Pipe && IsPatternList(lex, ts[2..])))
  }

  function PatternWords(lex: Lexicon, ts: Tokens): seq<string>
    requires IsPatternList(lex, ts)
  {
    [ts[0].text] + if ts[1] == RightParen then [] else PatternWords(lex, ts[2..])
  }

  function AfterParen(ts: Tokens): Tokens {
    if ts != [] && ts[0] == LeftParen then ts[1..] else ts
  }

  lemma {:induction false} PatternsExactly(lex: Lexicon, ts: Tokens)
    ensures var p := ParsePatterns(lex, ts);
            && (p.Parsed? && p.rest != [] && p.rest[0] == RightParen <==> IsPatternList(lex, ts))
            && (IsPatternList(lex, ts) ==> p.value == PatternWords(lex, ts))
    decreases |ts|
  {
    if |ts| > 1 && ts[1] == Token.Pipe { PatternsExactly(lex, ts[2..]); }
    if |ts| > 1 { assert ts[1..][0] == ts[1]; }
  }

  /**
   From its first tokens: a line is refused when it does not look like patterns, as when it begins
   with a word that no `|` or `)` follows, with a redirection or with `((`; and when it does look
   like them, as `(date)` does, its words are taken for the patterns of a branch of its own.
   */
  lemma NextLineByItsTokens(lex: Lexicon, ts: Tokens)
    requires ts != [] && !IsKeyword(ts, "esac")
    ensures !IsPatternList(lex, AfterParen(ts)) ==> ParseCases(lex, ts).Failed?
    ensures ParseCases(lex, ts).Parsed? ==>
            && IsPatternList(lex, AfterParen(ts)) && ParseCases(lex, ts).value.Cases?
            && ParseCases(lex, ts).value.first.patterns == PatternWords(lex, AfterParen(ts))
  {
    hide IsPatternList, PatternWords, ParsePatterns, ParseCaseBody;
    PatternsExactly(lex, AfterParen(ts));
    var item := ParseCaseItem(lex, ts);
  }

  /** The input that loses a command: a subshell of one word on the second line is a pattern with nothing to do. */
  lemma SubshellLineIsLost(lex: Lexicon, command: string, rest: Tokens)
    requires lex.readable(command)
    ensures var ts := Cons(LeftParen, Cons(Word(command), Cons(RightParen, Cons(DoubleSemicolon, Cons(Word("esac"), rest)))));
            ParseCases(lex, ts)
            == Parsed(Cases.Cases(CaseItem(true, [command], [], None, [], Some(DoubleSemicolon)), [], NoCase), Cons(Word("esac"), rest))
  {
    hide ParseCaseItem, ParseCaseBody, ParsePatterns, Skip;
    var esac := Cons(Word("esac"), rest);
    var ts := Cons(LeftParen, Cons(Word(command), Cons(RightParen, Cons(DoubleSemicolon, esac))));
    EmptyBranch(lex, command, esac);
    NoGap(esac);
    assert esac[..0] == [] && esac[0..] == esac;
    assert ParseCases(lex, esac) == Parsed(NoCase, esac);
  }

  lemma NoGap(ts: Tokens)
    requires ts == [] || !Separates(ts[0], true)
    ensures Skip(ts, true) == 0
  {}

  lemma EmptyBranch(lex: Lexicon, command: string, rest: Tokens)
    requires lex.readable(command)
    ensures var ts := Cons(LeftParen, Cons(Word(command), Cons(RightParen, Cons(DoubleSemicolon, rest))));
            ParseCaseItem(lex, ts) == Parsed(CaseItem(true, [command], [], None, [], Some(DoubleSemicolon)), rest)
  {
    var end := Cons(DoubleSemicolon, rest);
    var words := Cons(Word(command), Cons(RightParen, end));
    assert words[1..] == Cons(RightParen, end) && words[1..][1..] == end;
    assert ParsePatterns(lex, words) == Parsed([command], Cons(RightParen, end));
    assert end[..0] == [] && end[0..] == end && Skip(end, true) == 0 && Skip(end, false) == 0;
  }
}
