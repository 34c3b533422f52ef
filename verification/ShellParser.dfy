/**
 The parser as it runs: one index moves over the tokens, lists of nodes grow, and a syntax error
 leaves at once. Every production answers the tree of the phrase that the functions read there.
 */
module ShellParser {
  import opened Wrappers
  import opened ShellSyntax
  import opened ShellTrees
  import L = ShellLexer
  import P = ShellParsing

  // ---- the trees of what the functions read ----

  ghost predicate Agrees<T>(r: Option<T>, p: P.Parsed<T>, left: Tokens) {
    if p.Failed? then r == None else r == Some(p.value) && left == p.rest
  }

  ghost function OrAt(lex: Lexicon, ts: Tokens): (r: P.Parsed<Condition>)
    ensures r.Parsed? ==> |r.rest| < |ts|
  {
    var p := P.ParseOr(lex, ts);
    if p.Failed? then P.Failed else P.Parsed(TreeOr(p.value), p.rest)
  }

  ghost function OrsAt(lex: Lexicon, left: Condition, ts: Tokens): (r: P.Parsed<Condition>)
    ensures r.Parsed? ==> |r.rest| <= |ts|
  {
    var p := P.ParseOrs(lex, ts);
    if p.Failed? then P.Failed else P.Parsed(TreeOrs(left, p.value), p.rest)
  }

  ghost function AndAt(lex: Lexicon, ts: Tokens): (r: P.Parsed<Condition>)
    ensures r.Parsed? ==> |r.rest| < |ts|
  {
    var p := P.ParseAnd(lex, ts);
    if p.Failed? then P.Failed else P.Parsed(TreeAnd(p.value), p.rest)
  }

  ghost function AndsAt(lex: Lexicon, left: Condition, ts: Tokens): (r: P.Parsed<Condition>)
    ensures r.Parsed? ==> |r.rest| <= |ts|
  {
    var p := P.ParseAnds(lex, ts);
    if p.Failed? then P.Failed else P.Parsed(TreeAnds(left, p.value), p.rest)
  }

  ghost function PrimaryAt(lex: Lexicon, ts: Tokens): (r: P.Parsed<Condition>)
    ensures r.Parsed? ==> |r.rest| < |ts|
  {
    var p := P.ParsePrimary(lex, ts);
    if p.Failed? then P.Failed else P.Parsed(TreePrimary(p.value), p.rest)
  }

  ghost function TestAt(lex: Lexicon, ts: Tokens): (r: P.Parsed<Condition>)
    ensures r.Parsed? ==> |r.rest| < |ts|
  {
    var p := P.ParseTest(lex, ts);
    if p.Failed? then P.Failed else P.Parsed(TreePrimary(p.value), p.rest)
  }

  ghost function ListAt(lex: Lexicon, ts: Tokens): (r: P.Parsed<Node>)
    ensures r.Parsed? ==> |r.rest| < |ts|
  {
    var p := P.ParseList(lex, ts);
    if p.Failed? then P.Failed else P.Parsed(TreeList(p.value), p.rest)
  }

  ghost function TailAt(lex: Lexicon, left: Node, ts: Tokens): (r: P.Parsed<Node>)
    ensures r.Parsed? ==> |r.rest| <= |ts|
  {
    var p := P.ParseTail(lex, ts);
    if p.Failed? then P.Failed else P.Parsed(TreeTail(left, p.value), p.rest)
  }

  ghost function PipeAt(lex: Lexicon, ts: Tokens): (r: P.Parsed<Node>)
    ensures r.Parsed? ==> |r.rest| < |ts|
  {
    var p := P.ParsePipe(lex, ts);
    if p.Failed? then P.Failed else P.Parsed(TreePipe(p.value), p.rest)
  }

  ghost function TubesAt(lex: Lexicon, nodes: seq<Node>, flags: seq<bool>, ts: Tokens): (r: P.Parsed<(seq<Node>, seq<bool>)>)
    ensures ts == [] || ts[0] !in {Token.Pipe, PipeAmpersand} ==> r == P.Parsed((nodes, flags), ts)
  {
    var p := P.ParseTubes(lex, ts);
    if p.Failed? then P.Failed else
    assert p.value.NoTube? ==> nodes + TreeTubes(p.value) == nodes && flags + Stderrs(p.value) == flags;
    P.Parsed((nodes + TreeTubes(p.value), flags + Stderrs(p.value)), p.rest)
  }

  ghost function CommandAt(lex: Lexicon, ts: Tokens): (r: P.Parsed<Node>)
    ensures r.Parsed? ==> |r.rest| < |ts|
  {
    var p := P.ParseCommand(lex, ts);
    if p.Failed? then P.Failed else P.Parsed(TreeCommand(p.value), p.rest)
  }

  ghost function DefinitionAt(lex: Lexicon, ts: Tokens): (r: P.Parsed<Node>)
    ensures r.Parsed? ==> |r.rest| < |ts|
  {
    var p := P.ParseDefinition(lex, ts);
    if p.Failed? then P.Failed else P.Parsed(TreeCommand(p.value), p.rest)
  }

  ghost function BodyAt(lex: Lexicon, ts: Tokens): (r: P.Parsed<Node>)
    ensures r.Parsed? ==> |r.rest| < |ts|
  {
    var p := P.ParseBody(lex, ts);
    if p.Failed? then P.Failed else P.Parsed(TreeBody(p.value), p.rest)
  }

  ghost function AlternativeAt(lex: Lexicon, condition: Node, consequent: Node, ts: Tokens): (r: P.Parsed<Node>)
    ensures r.Parsed? ==> |r.rest| <= |ts|
  {
    var p := P.ParseAlternative(lex, ts);
    if p.Failed? then P.Failed else P.Parsed(TreeBranches(condition, consequent, p.value), p.rest)
  }

  ghost function DoAt(lex: Lexicon, ts: Tokens): (r: P.Parsed<Node>)
    ensures r.Parsed? ==> |r.rest| < |ts|
  {
    var p := P.ParseDo(lex, ts);
    if p.Failed? then P.Failed else P.Parsed(TreeBlock(p.value), p.rest)
  }

  ghost function BlockAt(lex: Lexicon, ts: Tokens, until: Until, required: bool): (r: P.Parsed<Node>)
    ensures r.Parsed? ==> |r.rest| <= |ts|
  {
    var p := P.ParseBlock(lex, ts, until, required);
    if p.Failed? then P.Failed else P.Parsed(TreeBlock(p.value), p.rest)
  }

  ghost function EntriesAt(lex: Lexicon, nodes: seq<Node>, ts: Tokens, until: Until): (r: P.Parsed<seq<Node>>)
    ensures Stops(until, ts) ==> r == P.Parsed(nodes, ts)
    ensures nodes == [] ==> r == CommandsAt(lex, ts, until)
    ensures r.Parsed? ==> |r.rest| <= |ts|
  {
    Plus(nodes, CommandsAt(lex, ts, until))
  }

  ghost function CommandsAt(lex: Lexicon, ts: Tokens, until: Until): (r: P.Parsed<seq<Node>>)
    ensures r.Parsed? ==> |r.rest| <= |ts|
  {
    var p := P.ParseEntries(lex, ts, until);
    if p.Failed? then P.Failed else P.Parsed(TreeEntries(p.value), p.rest)
  }

  ghost function CasesAt(lex: Lexicon, branches: seq<Branch>, ts: Tokens): (r: P.Parsed<seq<Branch>>)
    ensures ts == [] || IsKeyword(ts, "esac") ==> r == P.Parsed(branches, ts)
    ensures branches == [] ==> r == BranchesAt(lex, ts)
  {
    Plus(branches, BranchesAt(lex, ts))
  }

  ghost function BranchesAt(lex: Lexicon, ts: Tokens): (r: P.Parsed<seq<Branch>>)
    ensures r.Parsed? ==> |r.rest| <= |ts|
  {
    var p := P.ParseCases(lex, ts);
    if p.Failed? then P.Failed else P.Parsed(TreeCases(p.value), p.rest)
  }

  ghost function CaseItemAt(lex: Lexicon, ts: Tokens): (r: P.Parsed<Branch>)
    requires ts != []
    ensures r.Parsed? ==> |r.rest| < |ts|
  {
    var p := P.ParseCaseItem(lex, ts);
    if p.Failed? then P.Failed else P.Parsed(TreeCaseItem(p.value), p.rest)
  }

  ghost function Plus<T>(before: seq<T>, p: P.Parsed<seq<T>>): (r: P.Parsed<seq<T>>)
    ensures before == [] ==> r == p
    ensures p.Parsed? && p.value == [] ==> r == P.Parsed(before, p.rest)
  {
    if p.Failed? then P.Failed else
    assert (before == [] ==> before + p.value == p.value) && (p.value == [] ==> before + p.value == before);
    P.Parsed(before + p.value, p.rest)
  }

  lemma PlusMore<T>(before: seq<T>, next: T, p: P.Parsed<seq<T>>)
    ensures Plus(before + [next], p) == Plus(before, Plus([next], p))
  {
    if p.Parsed? { assert before + [next] + p.value == before + ([next] + p.value); }
  }

  // ---- one more turn of each loop ----

  lemma OrsStep(lex: Lexicon, left: Condition, ts: Tokens)
    requires ts != [] && ts[0] == OrIf
    ensures var next := AndAt(lex, ts[1..][P.Skip(ts[1..], false)..]);
            OrsAt(lex, left, ts) == if next.Failed? then P.Failed else OrsAt(lex, Either(left, next.value), next.rest)
  {}

  lemma AndsStep(lex: Lexicon, left: Condition, ts: Tokens)
    requires ts != [] && ts[0] == AndIf
    ensures var next := PrimaryAt(lex, ts[1..][P.Skip(ts[1..], false)..]);
            AndsAt(lex, left, ts) == if next.Failed? then P.Failed else AndsAt(lex, Both(left, next.value), next.rest)
  {}

  lemma TailStep(lex: Lexicon, left: Node, ts: Tokens)
    requires ts != [] && ts[0] in {AndIf, OrIf}
    ensures var next := PipeAt(lex, ts[1..][P.Skip(ts[1..], false)..]);
            TailAt(lex, left, ts) == if next.Failed? then P.Failed else
            TailAt(lex, CommandList(left, if ts[0] == AndIf then AndThen else OrElse, Some(next.value)), next.rest)
  {}

  lemma TailEnd(lex: Lexicon, left: Node, ts: Tokens)
    requires !(ts != [] && ts[0] in {AndIf, OrIf})
    ensures TailAt(lex, left, ts) ==
            if ts == [] || ts[0] !in {Ampersand, Semicolon} then P.Parsed(left, ts) else
            var first := if ts[0] == Ampersand then CommandList(left, Background, None) else left;
            var after := ts[1..][P.Skip(ts[1..], false)..];
            if ListEnds(after) then P.Parsed(first, after) else
            var list := ListAt(lex, after);
            if list.Failed? then P.Failed else P.Parsed(CommandList(first, Sequence, Some(list.value)), list.rest)
  {}

  lemma TubesStep(lex: Lexicon, nodes: seq<Node>, flags: seq<bool>, ts: Tokens)
    requires ts != [] && ts[0] in {Token.Pipe, PipeAmpersand}
    ensures var next := CommandAt(lex, ts[1..][P.Skip(ts[1..], false)..]);
            TubesAt(lex, nodes, flags, ts) == if next.Failed? then P.Failed else
            TubesAt(lex, nodes + [next.value], flags + [ts[0] == PipeAmpersand], next.rest)
  {
    hide P.ParseCommand, P.Skip, TreeCommand;
    var next := P.ParseCommand(lex, ts[1..][P.Skip(ts[1..], false)..]);
    if next.Parsed? {
      var more := P.ParseTubes(lex, next.rest);
      if more.Parsed? {
        var node, flag := TreeCommand(next.value), ts[0] == PipeAmpersand;
        assert nodes + [node] + TreeTubes(more.value) == nodes + ([node] + TreeTubes(more.value));
        assert flags + [flag] + Stderrs(more.value) == flags + ([flag] + Stderrs(more.value));
      }
    }
  }

  lemma EntriesStep(lex: Lexicon, nodes: seq<Node>, ts: Tokens, until: Until)
    requires !Stops(until, ts)
    ensures var list := ListAt(lex, ts);
            EntriesAt(lex, nodes, ts, until) == if list.Failed? then P.Failed else
            EntriesAt(lex, nodes + [list.value], list.rest[P.Skip(list.rest, true)..], until)
  {
    var list := ListAt(lex, ts);
    if list.Parsed? { PlusMore(nodes, list.value, CommandsAt(lex, list.rest[P.Skip(list.rest, true)..], until)); }
  }

  lemma CasesStep(lex: Lexicon, branches: seq<Branch>, ts: Tokens)
    requires ts != [] && !IsKeyword(ts, "esac")
    ensures var first := CaseItemAt(lex, ts);
            CasesAt(lex, branches, ts) == if first.Failed? then P.Failed else
            CasesAt(lex, branches + [first.value], first.rest[P.Skip(first.rest, true)..])
  {
    var first := CaseItemAt(lex, ts);
    if first.Parsed? { PlusMore(branches, first.value, BranchesAt(lex, first.rest[P.Skip(first.rest, true)..])); }
  }

  // ---- each command, in trees ----

  ghost function Closed<T>(p: P.Parsed<T>, keyword: string): P.Parsed<T> {
    if p.Failed? then P.Failed else
    var end := P.Expect(p.rest, keyword);
    if end.Failed? then P.Failed else P.Parsed(p.value, end.rest)
  }

  lemma BlockIs(lex: Lexicon, ts: Tokens, until: Until, required: bool)
    ensures var p := CommandsAt(lex, ts[P.Skip(ts, true)..], until);
            BlockAt(lex, ts, until, required) ==
            if p.Failed? || (required && p.value == []) then P.Failed else P.Parsed(InSequence(p.value), p.rest)
  {}

  lemma DoIs(lex: Lexicon, ts: Tokens)
    ensures var found := P.Expect(ts, "do");
            DoAt(lex, ts) == if found.Failed? then P.Failed else Closed(BlockAt(lex, found.rest, DONE, true), "done")
  {}

  lemma GroupIs(lex: Lexicon, ts: Tokens)
    requires OpeningOf(ts) == OpensGroup
    ensures var p := Closed(BlockAt(lex, ts[1..], BRACE, true), "}");
            BodyAt(lex, ts) == if p.Failed? then P.Failed else P.Parsed(BraceGroup(p.value), p.rest)
  {
    hide P.ParseBlock;
  }

  lemma SubshellIs(lex: Lexicon, ts: Tokens)
    requires OpeningOf(ts) == OpensSubshell
    ensures var p := BlockAt(lex, ts[1..], Paren, false);
            BodyAt(lex, ts) == if p.Failed? || p.rest == [] || p.rest[0] != RightParen then P.Failed else P.Parsed(SubshellCommand(p.value), p.rest[1..])
  {
    hide P.ParseBlock;
  }

  lemma ConditionalIs(lex: Lexicon, ts: Tokens)
    requires OpeningOf(ts) == OpensConditional
    ensures var p := Closed(OrAt(lex, ts[1..]), "]]");
            BodyAt(lex, ts) == if p.Failed? then P.Failed else P.Parsed(ConditionalCommand(p.value), p.rest)
  {
    hide P.ParseOr;
  }

  lemma ArithmeticIs(lex: Lexicon, ts: Tokens)
    requires OpeningOf(ts) == OpensArithmetic
    ensures var p := P.ParseArithmetic(ts);
            BodyAt(lex, ts) == if p.Failed? then P.Failed else P.Parsed(ArithmeticCommand(p.value.0), p.rest)
  {
    hide P.ParseArithmetic;
  }

  /** A condition, `then` and its branch. */
  ghost function BranchAt(lex: Lexicon, ts: Tokens): P.Parsed<(Node, Node)> {
    var condition := Closed(BlockAt(lex, ts, THEN, true), "then");
    if condition.Failed? then P.Failed else
    var consequent := BlockAt(lex, condition.rest, BRANCH, true);
    if consequent.Failed? then P.Failed else P.Parsed((condition.value, consequent.value), consequent.rest)
  }

  lemma IfIs(lex: Lexicon, ts: Tokens)
    requires OpeningOf(ts) == OpensIf
    ensures var p := BranchAt(lex, ts[1..]);
            BodyAt(lex, ts) ==
            if p.Failed? then P.Failed
            else if IsKeyword(p.rest, "elif") then ElifAt(lex, p.rest)
            else AlternativeAt(lex, p.value.0, p.value.1, p.rest)
  {
    hide P.ParseBlock;
    assert P.ParseBody(lex, ts) == P.ParseIf(lex, ts);
    var condition := P.ParseBlock(lex, ts[1..], THEN, true);
    if BranchAt(lex, ts[1..]).Parsed? && IsKeyword(BranchAt(lex, ts[1..]).rest, "elif") { ElifIs(lex, BranchAt(lex, ts[1..]).rest); }
  }

  lemma ElifIs(lex: Lexicon, ts: Tokens)
    requires IsKeyword(ts, "elif")
    ensures var p := P.ParseAlternative(lex, ts);
            ElifAt(lex, ts) == if p.Failed? then P.Failed else
            P.Parsed(TreeBranches(TreeBlock(p.value.condition), TreeBlock(p.value.consequent), p.value.alternative), p.rest)
    ensures var p := P.ParseAlternative(lex, ts); p.Parsed? ==> p.value.Elif?
  {
    hide P.ParseBlock;
  }

  /** From an `elif` on: what remains answers for the whole `if`. */
  ghost function ElifAt(lex: Lexicon, ts: Tokens): P.Parsed<Node>
    requires IsKeyword(ts, "elif")
  {
    var p := BranchAt(lex, ts[1..]);
    if p.Failed? then P.Failed else AlternativeAt(lex, p.value.0, p.value.1, p.rest)
  }

  lemma AlternativeIs(lex: Lexicon, condition: Node, consequent: Node, ts: Tokens)
    ensures AlternativeAt(lex, condition, consequent, ts) ==
            if IsKeyword(ts, "elif") then
              var p := ElifAt(lex, ts);
              if p.Failed? then P.Failed else P.Parsed(IfCommand(condition, consequent, Some(p.value)), p.rest)
            else if IsKeyword(ts, "else") then
              var p := Closed(BlockAt(lex, ts[1..], FI, true), "fi");
              if p.Failed? then P.Failed else P.Parsed(IfCommand(condition, consequent, Some(p.value)), p.rest)
            else Closed(P.Parsed(IfCommand(condition, consequent, None), ts), "fi")
  {
    hide P.ParseBlock;
  }

  lemma WhileIs(lex: Lexicon, ts: Tokens, negate: bool)
    requires OpeningOf(ts) == if negate then OpensUntil else OpensWhile
    ensures var condition := BlockAt(lex, ts[1..], DO, true);
            BodyAt(lex, ts) ==
            if condition.Failed? then P.Failed else
            var body := DoAt(lex, condition.rest);
            if body.Failed? then P.Failed else
            P.Parsed(if negate then UntilCommand(condition.value, body.value) else WhileCommand(condition.value, body.value), body.rest)
  {
    hide P.ParseBlock, P.ParseDo;
    assert P.ParseBody(lex, ts) == P.ParseWhile(lex, ts, negate);
  }

  lemma ArithmeticForIs(lex: Lexicon, ts: Tokens)
    requires OpeningOf(ts) == OpensFor && |ts| > 1 && ts[1] == DoubleLeftParen
    ensures var header := P.ParseArithmetic(ts[1..]);
            BodyAt(lex, ts) ==
            if header.Failed? then P.Failed else
            var body := DoAt(lex, header.rest[P.Skip(header.rest, true)..]);
            if body.Failed? then P.Failed else P.Parsed(ArithmeticForCommand(header.value.0, body.value), body.rest)
  {
    hide P.ParseArithmetic, P.ParseDo, P.Skip;
    assert P.ParseBody(lex, ts) == P.ParseFor(lex, ts, false);
  }

  lemma LoopOverIs(lex: Lexicon, ts: Tokens, select: bool)
    requires OpeningOf(ts) == (if select then OpensSelect else OpensFor) && (select || !(|ts| > 1 && ts[1] == DoubleLeftParen))
    ensures BodyAt(lex, ts) ==
            if |ts| < 2 || !ts[1].Word? then P.Failed else
            var items := P.ParseIn(lex, ts[2..]);
            if items.Failed? then P.Failed else
            var body := DoAt(lex, items.rest[P.Skip(items.rest, true)..]);
            if body.Failed? then P.Failed else
            P.Parsed(if select then SelectCommand(ts[1].text, items.value, body.value) else ForCommand(ts[1].text, items.value, body.value), body.rest)
  {
    hide P.ParseIn, P.ParseDo, P.Skip;
    assert P.ParseBody(lex, ts) == P.ParseFor(lex, ts, select);
  }

  lemma CoprocessIs(lex: Lexicon, ts: Tokens)
    requires OpeningOf(ts) == OpensCoprocess
    ensures var named := P.IsLabelled(ts[1..]);
            var body := CommandAt(lex, if named then ts[2..] else ts[1..]);
            BodyAt(lex, ts) ==
            if body.Failed? then P.Failed else P.Parsed(CoprocessCommand(if named then ts[1].text else DEFAULT_NAME, body.value), body.rest)
  {
    hide P.ParseCommand;
    assert P.ParseBody(lex, ts) == P.ParseCoprocess(lex, ts);
  }

  lemma CaseIs(lex: Lexicon, ts: Tokens)
    requires OpeningOf(ts) == OpensCase
    ensures BodyAt(lex, ts) ==
            if |ts| < 2 || !ts[1].Word? || !lex.readable(ts[1].text) then P.Failed else InAt(lex, ts[1].text, ts[2..])
  {
    hide P.ParseCases, P.Skip;
    assert P.ParseBody(lex, ts) == P.ParseCase(lex, ts);
  }

  /** A `case` after its subject. */
  ghost function InAt(lex: Lexicon, subject: string, ts: Tokens): P.Parsed<Node> {
    var found := P.Expect(ts[P.Skip(ts, false)..], "in");
    if found.Failed? then P.Failed else EsacAt(lex, subject, found.rest[P.Skip(found.rest, true)..])
  }

  ghost function EsacAt(lex: Lexicon, subject: string, ts: Tokens): P.Parsed<Node> {
    var p := Closed(BranchesAt(lex, ts), "esac");
    if p.Failed? then P.Failed else P.Parsed(CaseCommand(subject, p.value), p.rest)
  }

  lemma CaseItemIs(lex: Lexicon, ts: Tokens)
    requires ts != []
    ensures var patterns := P.ParsePatterns(lex, if ts[0] == LeftParen then ts[1..] else ts);
            CaseItemAt(lex, ts) ==
            if patterns.Failed? || patterns.rest == [] || patterns.rest[0] != RightParen then P.Failed else
            ContentAt(lex, patterns.value, patterns.rest[1..][P.Skip(patterns.rest[1..], true)..])
  {
    hide P.ParsePatterns, P.ParseList, P.Skip, CaseItemEnds, IsCaseEnd;
    var patterns := P.ParsePatterns(lex, if ts[0] == LeftParen then ts[1..] else ts);
    if patterns.Parsed? && patterns.rest != [] {
      var body := P.ParseCaseBody(lex, patterns.rest[1..][P.Skip(patterns.rest[1..], true)..]);
    }
  }

  /** The commands of a branch and its end mark. */
  ghost function ContentAt(lex: Lexicon, patterns: seq<string>, ts: Tokens): P.Parsed<Branch> {
    var list := if CaseItemEnds(ts) then P.Parsed(None, ts) else Somehow(ListAt(lex, ts));
    if list.Failed? then P.Failed else
    var at := list.rest[P.Skip(list.rest, false)..];
    if at != [] && IsCaseEnd(at[0]) then P.Parsed(Branch(patterns, list.value, at[0]), at[1..])
    else P.Parsed(Branch(patterns, list.value, DoubleSemicolon), at)
  }

  ghost function Somehow<T>(p: P.Parsed<T>): P.Parsed<Option<T>> {
    if p.Failed? then P.Failed else P.Parsed(Some(p.value), p.rest)
  }

  lemma ShorthandIs(lex: Lexicon, ts: Tokens)
    requires OpeningOf(ts) == OpensShorthand
    ensures CommandAt(lex, ts) == FunctionAt(lex, ts[0].text, ts[3..])
  {
    hide P.ParseDefinition, P.Skip;
    assert P.ParseCommand(lex, ts) == P.ParseFunction(lex, Shorthand, ts[0].text, ts[3..], ts);
  }

  lemma KeywordIs(lex: Lexicon, ts: Tokens)
    requires OpeningOf(ts) == OpensFunction
    ensures CommandAt(lex, ts) ==
            if |ts| < 2 || !ts[1].Word? then P.Failed
            else if |ts| > 2 && ts[2] == LeftParen then
              if |ts| < 4 || ts[3] != RightParen then P.Failed else FunctionAt(lex, ts[1].text, ts[4..])
            else FunctionAt(lex, ts[1].text, ts[2..])
  {
    hide P.ParseDefinition, P.Skip;
    if |ts| > 1 && ts[1].Word? {
      var parens := |ts| > 2 && ts[2] == LeftParen;
      if !parens || (|ts| > 3 && ts[3] == RightParen) {
        assert P.ParseCommand(lex, ts) == P.ParseFunction(lex, Keyword(parens), ts[1].text, if parens then ts[4..] else ts[2..], ts);
      }
    }
  }

  ghost function FunctionAt(lex: Lexicon, name: string, ts: Tokens): P.Parsed<Node> {
    var definition := DefinitionAt(lex, ts[P.Skip(ts, false)..]);
    if definition.Failed? then P.Failed else P.Parsed(FunctionDef(name, definition.value), definition.rest)
  }

  /** A pipeline after its exclamation marks. */
  lemma PipeIs(lex: Lexicon, ts: Tokens)
    ensures var at := ts[P.CountBangs(ts)..];
            PipeAt(lex, ts) ==
            if IsKeyword(at, "time") then
              var posix := IsKeyword(at[1..], "-p");
              var after := if posix then at[1..][1..] else at[1..];
              if TimeEnds(after) then P.Parsed(TimedCommand(None, posix), after) else
              var body := PipeAt(lex, after);
              if body.Failed? then P.Failed else P.Parsed(TimedCommand(Some(body.value), posix), body.rest)
            else StagesAt(lex, P.CountBangs(ts) % 2 == 1, at)
  {
    hide P.ParseCommand, P.ParseTubes, P.CountBangs, TimeEnds;
    var at := ts[P.CountBangs(ts)..];
    if !IsKeyword(at, "time") {
      var first := P.ParseCommand(lex, at);
      if first.Parsed? && P.ParseTubes(lex, first.rest).Parsed? { StagesAre(P.CountBangs(ts), first.value, P.ParseTubes(lex, first.rest)); }
    }
  }

  lemma StagesAre(bangs: nat, first: Command, p: P.Parsed<Tubes>)
    requires p.Parsed?
    ensures var nodes, flags := [TreeCommand(first)] + TreeTubes(p.value), [] + Stderrs(p.value);
            TreePipe(Stages(bangs, first, p.value))
            == if |nodes| == 1 && bangs % 2 == 0 then nodes[0] else Pipeline(nodes, bangs % 2 == 1, flags)
  {
    assert [] + Stderrs(p.value) == Stderrs(p.value);
    if p.value.Tube? { assert |TreeTubes(p.value)| >= 1; }
  }

  lemma DropMore(ts: Tokens, k: nat)
    requires k < |ts|
    ensures ts[k..] != [] && ts[k..][1..] == ts[k + 1..] && forall j :: k <= j < |ts| ==> ts[k..][j - k] == ts[j]
    ensures k + 2 <= |ts| ==> ts[k + 1..][1..] == ts[k + 2..]
  {}

  lemma OpensSomething(ts: Tokens)
    requires OpeningOf(ts) != OpensSimple
    ensures ts != []
  {}

  lemma BangStep(ts: Tokens)
    ensures P.CountBangs(ts) == if IsKeyword(ts, "!") then 1 + P.CountBangs(ts[1..]) else 0
  {}

  lemma ListIs(lex: Lexicon, ts: Tokens)
    ensures var first := PipeAt(lex, ts);
            ListAt(lex, ts) == if first.Failed? then P.Failed else TailAt(lex, first.value, first.rest)
  {}

  ghost function StagesAt(lex: Lexicon, negated: bool, ts: Tokens): P.Parsed<Node> {
    var first := CommandAt(lex, ts);
    if first.Failed? then P.Failed else
    var p := TubesAt(lex, [first.value], [], first.rest);
    if p.Failed? then P.Failed else
    P.Parsed(if |p.value.0| == 1 && !negated then p.value.0[0] else Pipeline(p.value.0, negated, p.value.1), p.rest)
  }

  method Parse(lex: Lexicon, script: Tokens) returns (r: Option<seq<Node>>)
    requires EndOfInput !in script
    ensures var b := P.ParseScript(lex, script);
            r == if b.None? then None else Some(TreeEntries(b.value.entries))
  {
    var parser := new Parser(lex, script);
    parser.Skip(true);
    r := parser.ParseCommands(Never);
  }

  /** A script's text: cut into tokens, and then parsed. */
  method ParseText(lex: Lexicon, script: string) returns (r: Option<seq<Node>>)
    ensures var ts := L.Tokenized(script);
            var b := if ts.None? then None else P.ParseScript(lex, ts.value);
            r == if b.None? then None else Some(TreeEntries(b.value.entries))
  {
    var lexer := new L.Lexer(script);
    var xs := lexer.Tokenize();
    if xs.None? { return None; }
    L.OneEndMark(script, L.START);
    r := Parse(lex, L.TokensOf(xs.value[..|xs.value| - 1]));
  }

  class Parser {
    const lex: Lexicon
    const tokens: Tokens
    var index: nat

    constructor (lex: Lexicon, script: Tokens)
      requires EndOfInput !in script
      ensures Valid() && Left() == script && this.lex == lex
    {
      this.lex := lex;
      tokens := script + [EndOfInput];
      index := 0;
    }

    /** The index never passes the one end mark, which is the last token. */
    ghost predicate Valid()
      reads this
    {
      index < |tokens| && tokens[|tokens| - 1] == EndOfInput && forall k :: 0 <= k < |tokens| - 1 ==> tokens[k] != EndOfInput
    }

    ghost function Left(): Tokens
      requires Valid()
      reads this
    {
      tokens[index..|tokens| - 1]
    }

    function Peek(offset: nat): (t: Token)
      requires Valid()
      reads this
      ensures t == if offset < |Left()| then Left()[offset] else EndOfInput
    {
      if index + offset < |tokens| then tokens[index + offset] else tokens[|tokens| - 1]
    }

    predicate AtEnd()
      requires Valid()
      reads this
      ensures AtEnd() == (Left() == [])
    {
      Peek(0) == EndOfInput
    }

    predicate AtKeyword(keyword: string)
      requires Valid()
      reads this
      ensures AtKeyword(keyword) == IsKeyword(Left(), keyword)
    {
      Peek(0) == Word(keyword)
    }

    method Advance() returns (t: Token)
      requires Valid() && Left() != []
      modifies this
      ensures Valid() && Left() == old(Left())[1..] && t == old(Left())[0]
    {
      t := tokens[index];
      index := index + 1;
    }

    method MatchKeyword(keyword: string) returns (found: bool)
      requires Valid()
      modifies this
      ensures Valid() && found == P.Expect(old(Left()), keyword).Parsed?
      ensures Left() == if found then P.Expect(old(Left()), keyword).rest else old(Left())
    {
      found := AtKeyword(keyword);
      if found { var _ := Advance(); }
    }

    method Match(kind: Token) returns (found: bool)
      requires Valid() && kind != EndOfInput
      modifies this
      ensures Valid() && found == (old(Left()) != [] && old(Left())[0] == kind)
      ensures Left() == if found then old(Left())[1..] else old(Left())
    {
      found := Peek(0) == kind;
      if found { var _ := Advance(); }
    }

    method Skip(semicolons: bool)
      requires Valid()
      modifies this
      ensures Valid() && Left() == old(Left())[P.Skip(old(Left()), semicolons)..]
    {
      ghost var start := Left();
      while Separates(Peek(0), semicolons)
        invariant Valid()
        invariant Left()[P.Skip(Left(), semicolons)..] == start[P.Skip(start, semicolons)..]
        decreases |Left()|
      {
        var _ := Advance();
      }
    }

    // ---- arithmetic text ----

    method ReadUntilDoubleRightParen() returns (inside: Option<Tokens>)
      requires Valid() && Left() != [] && Left()[0] == DoubleLeftParen
      modifies this
      ensures Valid()
      ensures var p := P.ParseArithmetic(old(Left()));
              if p.Failed? then inside == None else inside == Some(p.value.0) && Left() == p.rest
    {
      hide P.ArithmeticEnd, P.ParseArithmetic;
      ghost var whole := Left();
      var _ := Advance();
      inside := ReadInside();
      if inside.None? {
        ArithmeticIsOpen(whole);
        return;
      }
      ArithmeticIsRead(whole, |inside.value|);
      var _ := Advance();
      var _ := Match(RightParen);
    }

    /** Up to the parenthesis that closes the text. */
    method ReadInside() returns (inside: Option<Tokens>)
      requires Valid()
      modifies this
      ensures Valid()
      ensures var end := P.ArithmeticEnd(old(Left()), 1);
              if end.None? then inside == None
              else inside == Some(old(Left())[..end.value]) && Left() == old(Left())[end.value..]
    {
      hide P.ArithmeticEnd, Further;
      ghost var body := Left();
      EndBegins(body);
      ghost var n := 0;
      var start, depth := index, 1;
      while !AtEnd()
        invariant Valid() && depth >= 1 && index == start + n && n <= |body| && Left() == body[n..]
        invariant start + |body| == |tokens| - 1 && body == tokens[start..|tokens| - 1]
        invariant P.ArithmeticEnd(body, 1) == Further(n, P.ArithmeticEnd(body[n..], depth))
        decreases |body| - n
      {
        EndAt(body, n, depth);
        var kind := Peek(0);
        if kind == RightParen && (depth == 1 || (depth == 2 && Peek(1) == RightParen)) {
          TakenSoFar(body, start, n);
          FurtherNow(n);
          return Some(tokens[start..index]);
        }
        depth := Deeper(kind, depth);
        var _ := Advance();
        n := n + 1;
      }
      EndNone(depth);
      NoFurther(n);
      inside := None;
    }

    lemma TakenSoFar(body: Tokens, start: nat, n: nat)
      requires Valid() && index == start + n && n <= |body| && start + |body| == |tokens| - 1 && body == tokens[start..|tokens| - 1]
      ensures tokens[start..index] == body[..n]
    {}

    // ---- redirections and simple commands ----

    method ParseRedirect() returns (r: Option<Redirect>)
      requires Valid() && StartsRedirect(Left())
      modifies this
      ensures Valid() && Agrees(r, P.ParseRedirect(lex, old(Left())), Left())
    {
      var descriptor := None;
      if Peek(0).IoNumber? {
        var number := Advance();
        descriptor := Some(number.digits);
      }
      var op := Advance();
      if !Peek(0).Word? || !(P.IsHereDocument(op.operator) || lex.readable(Peek(0).text)) { return None; }
      var target := Advance();
      r := Some(Redirect(descriptor, op.operator, target.text));
    }

    predicate AtRedirect()
      requires Valid()
      reads this
      ensures AtRedirect() == StartsRedirect(Left())
    {
      Peek(0).Redirector? || (Peek(0).IoNumber? && Peek(1).Redirector?)
    }

    method WithRedirects(body: Node) returns (r: Option<Node>)
      requires Valid()
      modifies this
      ensures Valid()
      ensures var p := P.ParseRedirects(lex, old(Left()));
              if p.Failed? then r == None
              else r == Some(if p.value == [] then body else CompoundCommand(body, p.value)) && Left() == p.rest
    {
      var redirects := [];
      ghost var goal := P.ParseRedirects(lex, Left());
      while AtRedirect()
        invariant Valid() && goal == Plus(redirects, P.ParseRedirects(lex, Left()))
        decreases |Left()|
      {
        var redirect := ParseRedirect();
        if redirect.None? { return None; }
        PlusMore(redirects, redirect.value, P.ParseRedirects(lex, Left()));
        redirects := redirects + [redirect.value];
      }
      r := Some(if redirects == [] then body else CompoundCommand(body, redirects));
    }

    method ParseItem(named: bool) returns (r: Option<Option<Item>>)
      requires Valid()
      modifies this
      ensures Valid() && Agrees(r, P.ParseItem(lex, old(Left()), named), Left())
    {
      if AtRedirect() {
        var redirect := ParseRedirect();
        return if redirect.None? then None else Some(Some(Redirected(redirect.value)));
      }
      match Peek(0)
      case IoNumber(digits) =>
        if !lex.readable(digits) { return None; }
        var _ := Advance();
        r := Some(Some(Number(digits)));
      case Word(text) =>
        if !named && IsBlockTerminator(text) { return Some(None); }
        if !named && lex.assigning(text) != NoAssignment {
          if lex.assigning(text) == Malformed { return None; }
          var _ := Advance();
          return Some(Some(Assignment(text)));
        }
        if !lex.readable(text) { return None; }
        var _ := Advance();
        r := Some(Some(Argument(text)));
      case _ => r := Some(None);
    }

    method ParseSimpleCommand() returns (r: Option<Node>)
      requires Valid()
      modifies this
      ensures Valid()
      ensures var p := P.ParseItems(lex, old(Left()), false);
              if p.Failed? || p.value == [] then r == None else r == Some(TreeCommand(Simple(p.value))) && Left() == p.rest
    {
      hide P.ParseItem, StartsRedirect, Assignments, Arguments, Redirects;
      var assignments, words, redirects := [], [], [];
      var named := false;
      ghost var goal := P.ParseItems(lex, Left(), false);
      ghost var read := [];
      NothingGathered(read);
      while true
        invariant Valid() && goal == Plus(read, P.ParseItems(lex, Left(), named))
        invariant SimpleCommand(assignments, words, redirects) == TreeCommand(Simple(read))
        decreases |Left()|
      {
        var next := ParseItem(named);
        if next.None? { return None; }
        if next.value.None? { break; }
        var item := next.value.value;
        GatherMore(read, item);
        PlusMore(read, item, P.ParseItems(lex, Left(), named || P.Names(item)));
        read := read + [item];
        match item {
          case Assignment(text) => assignments := assignments + [text];
          case Redirected(redirect) => redirects := redirects + [redirect];
          case Argument(text) => words, named := words + [text], true;
          case Number(digits) => words, named := words + [digits], true;
        }
      }
      NothingGathered(read);
      if assignments == [] && words == [] && redirects == [] { return None; }
      r := Some(SimpleCommand(assignments, words, redirects));
    }

    // ---- conditional expressions ----

    method ParseConditionalOr() returns (r: Option<Condition>)
      requires Valid()
      modifies this
      ensures Valid() && Agrees(r, OrAt(lex, old(Left())), Left())
      decreases |Left()|, 3
    {
      ghost var goal := OrAt(lex, Left());
      ghost var most := |Left()|;
      var left := ParseConditionalAnd();
      if left.None? { return None; }
      while Peek(0) == OrIf
        invariant Valid() && |Left()| < most && left.Some? && goal == OrsAt(lex, left.value, Left())
        decreases |Left()|
      {
        OrsStep(lex, left.value, Left());
        var _ := Advance();
        Skip(false);
        var right := ParseConditionalAnd();
        if right.None? { return None; }
        left := Some(Either(left.value, right.value));
      }
      r := left;
    }

    method ParseConditionalAnd() returns (r: Option<Condition>)
      requires Valid()
      modifies this
      ensures Valid() && Agrees(r, AndAt(lex, old(Left())), Left())
      decreases |Left()|, 2
    {
      ghost var goal := AndAt(lex, Left());
      ghost var most := |Left()|;
      var left := ParseConditionalPrimary();
      if left.None? { return None; }
      while Peek(0) == AndIf
        invariant Valid() && |Left()| < most && left.Some? && goal == AndsAt(lex, left.value, Left())
        decreases |Left()|
      {
        AndsStep(lex, left.value, Left());
        var _ := Advance();
        Skip(false);
        var right := ParseConditionalPrimary();
        if right.None? { return None; }
        left := Some(Both(left.value, right.value));
      }
      r := left;
    }

    method ParseConditionalPrimary() returns (r: Option<Condition>)
      requires Valid()
      modifies this
      ensures Valid() && Agrees(r, PrimaryAt(lex, old(Left())), Left())
      decreases |Left()|, 1
    {
      if AtKeyword("!") {
        var _ := Advance();
        var denied := ParseConditionalPrimary();
        return if denied.None? then None else Some(Negation(denied.value));
      }
      if Peek(0) == LeftParen {
        var _ := Advance();
        var inner := ParseConditionalOr();
        if inner.None? { return None; }
        var closed := Match(RightParen);
        return if closed then inner else None;
      }
      r := ParseConditionalTest();
    }

    method ParseConditionalTest() returns (r: Option<Condition>)
      requires Valid()
      modifies this
      ensures Valid() && Agrees(r, TestAt(lex, old(Left())), Left())
    {
      if !Peek(0).Word? { return None; }
      var first := Advance();
      if P.IsUnaryTest(first.text) && Peek(0).Word? && Peek(0).text != "]]" {
        if !lex.readable(Peek(0).text) { return None; }
        var operand := Advance();
        return Some(UnaryTest(first.text, operand.text));
      }
      if !lex.readable(first.text) { return None; }
      if (Peek(0).Word? && P.IsBinaryTest(Peek(0).text)) || Peek(0) in {Redirector(Less), Redirector(Great)} {
        var op := Advance();
        if !Peek(0).Word? || !lex.readable(Peek(0).text) { return None; }
        var right := Advance();
        var test := if op.Word? then op.text else if op == Redirector(Less) then "<" else ">";
        return Some(BinaryTest(test, first.text, right.text));
      }
      r := Some(TextTest(first.text));
    }

    // ---- lists and pipelines ----

    method IsListEnd() returns (ends: bool)
      requires Valid()
      modifies this
      ensures Valid() && Left() == old(Left())[P.Skip(old(Left()), false)..] && ends == ListEnds(Left())
    {
      Skip(false);
      var t := Peek(0);
      ends := AtEnd() || t in {RightParen, DoubleSemicolon, SemiAmpersand, DoubleSemiAmpersand}
              || (t.Word? && IsBlockTerminator(t.text));
    }

    method ParseList() returns (r: Option<Node>)
      requires Valid()
      modifies this
      ensures Valid() && Agrees(r, ListAt(lex, old(Left())), Left())
      decreases |Left()|, 6
    {
      hide ListAt, TailAt, PipeAt, P.Skip;
      ListIs(lex, Left());
      ghost var goal := ListAt(lex, Left());
      ghost var most := |Left()|;
      var first := ParsePipeline();
      if first.None? { return None; }
      var left := first.value;
      while Peek(0) == AndIf || Peek(0) == OrIf
        invariant Valid() && |Left()| < most && goal == TailAt(lex, left, Left())
        decreases |Left()|
      {
        TailStep(lex, left, Left());
        var op := Advance();
        Skip(false);
        var right := ParsePipeline();
        if right.None? { return None; }
        left := CommandList(left, if op == AndIf then AndThen else OrElse, right);
      }
      r := ParseListEnd(left);
    }

    /** The last operator of a list: `;` or `&`, with or without more commands, or none. */
    method ParseListEnd(left0: Node) returns (r: Option<Node>)
      requires Valid() && !(Left() != [] && Left()[0] in {AndIf, OrIf})
      modifies this
      ensures Valid() && Agrees(r, TailAt(lex, left0, old(Left())), Left())
      decreases |Left()|, 4
    {
      hide TailAt, ListAt, P.Skip;
      TailEnd(lex, left0, Left());
      var left := left0;
      if Peek(0) != Ampersand && Peek(0) != Semicolon { return Some(left); }
      var op := Advance();
      if op == Ampersand { left := CommandList(left, Background, None); }
      var ends := IsListEnd();
      if ends { return Some(left); }
      var right := ParseList();
      r := if right.None? then None else Some(CommandList(left, Sequence, right));
    }

    method ParsePipeline() returns (r: Option<Node>)
      requires Valid()
      modifies this
      ensures Valid() && Agrees(r, PipeAt(lex, old(Left())), Left())
      decreases |Left()|, 5
    {
      hide PipeAt, StagesAt, P.CountBangs, P.Skip, TimeEnds;
      PipeIs(lex, Left());
      var negated := ReadBangs();
      if AtKeyword("time") {
        var _ := Advance();
        var posix := MatchKeyword("-p");
        var nothing := NothingTimed();
        if nothing { return Some(TimedCommand(None, posix)); }
        var timed := ParsePipeline();
        return if timed.None? then None else Some(TimedCommand(timed, posix));
      }
      r := ParseStages(negated);
    }

    method NothingTimed() returns (nothing: bool)
      requires Valid()
      ensures nothing == TimeEnds(Left())
    {
      nothing := AtEnd() || Peek(0) in {Newline, Semicolon, RightParen};
    }

    method ReadBangs() returns (negated: bool)
      requires Valid()
      modifies this
      ensures Valid() && negated == (P.CountBangs(old(Left())) % 2 == 1)
      ensures Left() == old(Left())[P.CountBangs(old(Left()))..]
    {
      hide P.CountBangs;
      ghost var start := Left();
      ghost var n := 0;
      negated := false;
      BangStep(start);
      while AtKeyword("!")
        invariant Valid() && n <= |start| && Left() == start[n..]
        invariant negated == (n % 2 == 1) && n + P.CountBangs(start[n..]) == P.CountBangs(start)
        decreases |start| - n
      {
        BangStep(start[n..]);
        assert start[n..][1..] == start[n + 1..];
        negated := !negated;
        var _ := Advance();
        n := n + 1;
      }
      BangStep(start[n..]);
    }

    method ParseStages(negated: bool) returns (r: Option<Node>)
      requires Valid()
      modifies this
      ensures Valid() && Agrees(r, StagesAt(lex, negated, old(Left())), Left())
      decreases |Left()|, 4
    {
      hide CommandAt, TubesAt, P.Skip;
      ghost var most := |Left()|;
      var first := ParseCommand();
      if first.None? { return None; }
      var stages, pipeStderr := [first.value], [];
      ghost var goal := TubesAt(lex, stages, pipeStderr, Left());
      while Peek(0) == Token.Pipe || Peek(0) == PipeAmpersand
        invariant Valid() && |Left()| < most && stages != [] && |stages| == |pipeStderr| + 1
        invariant goal == TubesAt(lex, stages, pipeStderr, Left())
        invariant stages[0] == first.value
        decreases |Left()|
      {
        TubesStep(lex, stages, pipeStderr, Left());
        var op := Advance();
        pipeStderr := pipeStderr + [op == PipeAmpersand];
        Skip(false);
        var next := ParseCommand();
        if next.None? { return None; }
        stages := stages + [next.value];
      }
      r := Some(if |stages| == 1 && !negated then stages[0] else Pipeline(stages, negated, pipeStderr));
    }

    // ---- commands ----

    method ParseCommand() returns (r: Option<Node>)
      requires Valid()
      modifies this
      ensures Valid() && Agrees(r, CommandAt(lex, old(Left())), Left())
      decreases |Left()|, 3
    {
      var opening := OpeningHere();
      if opening == OpensSimple {
        r := ParseSimpleCommand();
      } else if opening == OpensShorthand {
        r := ParseFunctionShorthand();
      } else if opening == OpensFunction {
        r := ParseFunctionKeyword();
      } else {
        var body := ParseCompound();
        if body.None? { return None; }
        r := WithRedirects(body.value);
      }
    }

    function OpeningHere(): (o: Opening)
      requires Valid()
      reads this
      ensures o == OpeningOf(Left())
    {
      match Peek(0)
      case Word(text) =>
        (match text
         case "if" => OpensIf
         case "while" => OpensWhile
         case "until" => OpensUntil
         case "for" => OpensFor
         case "select" => OpensSelect
         case "coproc" => OpensCoprocess
         case "case" => OpensCase
         case "function" => OpensFunction
         case "{" => OpensGroup
         case "[[" => OpensConditional
         case _ => if Peek(1) == LeftParen && Peek(2) == RightParen then OpensShorthand else OpensSimple)
      case DoubleLeftParen => OpensArithmetic
      case LeftParen => OpensSubshell
      case _ => OpensSimple
    }

    method ParseFunctionShorthand() returns (r: Option<Node>)
      requires Valid() && OpeningOf(Left()) == OpensShorthand
      modifies this
      ensures Valid() && Agrees(r, CommandAt(lex, old(Left())), Left())
      decreases |Left()|, 2
    {
      hide CommandAt, DefinitionAt, P.Skip;
      ShorthandIs(lex, Left());
      ghost var start := Left();
      var name := Advance();
      var _ := Advance();
      var _ := Advance();
      assert Left() == start[3..];
      Skip(false);
      var definition := ParseFunctionBody();
      r := if definition.None? then None else Some(FunctionDef(name.text, definition.value));
    }

    method ParseFunctionKeyword() returns (r: Option<Node>)
      requires Valid() && OpeningOf(Left()) == OpensFunction
      modifies this
      ensures Valid() && Agrees(r, CommandAt(lex, old(Left())), Left())
      decreases |Left()|, 2
    {
      hide CommandAt, DefinitionAt, OpeningOf, P.Skip, Valid, Left;
      OpensSomething(Left());
      KeywordIs(lex, Left());
      ghost var start := Left();
      var _ := Advance();
      if !Peek(0).Word? { return None; }
      var name := Advance();
      DropMore(start, 1);
      var ok := ParseParens();
      if !ok { return None; }
      Skip(false);
      var definition := ParseFunctionBody();
      r := if definition.None? then None else Some(FunctionDef(name.text, definition.value));
    }

    /** The parentheses after a function's name, which may be missing but not left open. */
    method ParseParens() returns (ok: bool)
      requires Valid()
      modifies this
      ensures Valid()
      ensures var ts := old(Left());
              if ts != [] && ts[0] == LeftParen then ok == (|ts| > 1 && ts[1] == RightParen) && (ok ==> Left() == ts[2..])
              else ok && Left() == ts
    {
      hide Valid, Left;
      ghost var ts := Left();
      ok := Match(LeftParen);
      if !ok { return true; }
      if |ts| > 1 { DropMore(ts, 1); }
      ok := Match(RightParen);
    }

    method ParseFunctionBody() returns (r: Option<Node>)
      requires Valid()
      modifies this
      ensures Valid() && Agrees(r, DefinitionAt(lex, old(Left())), Left())
      decreases |Left()|, 4
    {
      if OpeningHere() == OpensGroup || OpeningHere() == OpensSubshell { r := ParseCompound(); }
      else { r := ParseCommand(); }
    }

    method ParseCompound() returns (r: Option<Node>)
      requires Valid() && OpeningOf(Left()) !in {OpensSimple, OpensShorthand, OpensFunction}
      modifies this
      ensures Valid() && Agrees(r, BodyAt(lex, old(Left())), Left())
      decreases |Left()|, 2
    {
      hide BodyAt, P.ParseArithmetic;
      var opening := OpeningHere();
      if opening == OpensIf { r := ParseIf(); }
      else if opening == OpensWhile { r := ParseWhile(false); }
      else if opening == OpensUntil { r := ParseWhile(true); }
      else if opening == OpensFor { r := ParseFor(); }
      else if opening == OpensSelect { r := ParseLoopOver(true); }
      else if opening == OpensCoprocess { r := ParseCoprocess(); }
      else if opening == OpensCase { r := ParseCase(); }
      else if opening == OpensGroup { r := ParseBraceGroup(); }
      else if opening == OpensSubshell { r := ParseSubshell(); }
      else if opening == OpensConditional { r := ParseConditional(); }
      else { r := ParseArithmeticCommand(); }
    }

    method ParseArithmeticCommand() returns (r: Option<Node>)
      requires Valid() && OpeningOf(Left()) == OpensArithmetic
      modifies this
      ensures Valid() && Agrees(r, BodyAt(lex, old(Left())), Left())
    {
      hide BodyAt, P.ParseArithmetic;
      ArithmeticIs(lex, Left());
      var inside := ReadUntilDoubleRightParen();
      r := if inside.None? then None else Some(ArithmeticCommand(inside.value));
    }

    method ParseBraceGroup() returns (r: Option<Node>)
      requires Valid() && OpeningOf(Left()) == OpensGroup
      modifies this
      ensures Valid() && Agrees(r, BodyAt(lex, old(Left())), Left())
      decreases |Left()|, 1
    {
      hide BodyAt, P.Skip;
      GroupIs(lex, Left());
      var _ := Advance();
      var body := ParseBlockUntil(BRACE, true);
      if body.None? { return None; }
      var closed := MatchKeyword("}");
      r := if closed then Some(BraceGroup(body.value)) else None;
    }

    method ParseSubshell() returns (r: Option<Node>)
      requires Valid() && OpeningOf(Left()) == OpensSubshell
      modifies this
      ensures Valid() && Agrees(r, BodyAt(lex, old(Left())), Left())
      decreases |Left()|, 1
    {
      hide BodyAt, P.Skip;
      SubshellIs(lex, Left());
      var _ := Advance();
      var body := ParseBlockUntil(Paren, false);
      if body.None? { return None; }
      var closed := Match(RightParen);
      r := if closed then Some(SubshellCommand(body.value)) else None;
    }

    method ParseConditional() returns (r: Option<Node>)
      requires Valid() && OpeningOf(Left()) == OpensConditional
      modifies this
      ensures Valid() && Agrees(r, BodyAt(lex, old(Left())), Left())
      decreases |Left()|, 1
    {
      hide BodyAt, P.Skip;
      ConditionalIs(lex, Left());
      var _ := Advance();
      var expression := ParseConditionalOr();
      if expression.None? { return None; }
      var closed := MatchKeyword("]]");
      r := if closed then Some(ConditionalCommand(expression.value)) else None;
    }

    method ParseIf() returns (r: Option<Node>)
      requires Valid() && OpeningOf(Left()) == OpensIf
      modifies this
      ensures Valid() && Agrees(r, BodyAt(lex, old(Left())), Left())
      decreases |Left()|, 1
    {
      hide BodyAt, BlockAt, AlternativeAt, ElifAt, OpeningOf, P.Skip, Valid, Left;
      OpensSomething(Left());
      IfIs(lex, Left());
      var _ := Advance();
      var condition := ParseBlockUntil(THEN, true);
      if condition.None? { return None; }
      var found := MatchKeyword("then");
      if !found { return None; }
      var consequent := ParseBlockUntil(BRANCH, true);
      if consequent.None? { return None; }
      if AtKeyword("elif") {
        r := ParseElif();
      } else {
        r := ParseElseTail(condition.value, consequent.value);
      }
    }

    /** The rest of an `if` from its first `elif` on, which answers for the whole command. */
    method ParseElif() returns (r: Option<Node>)
      requires Valid() && IsKeyword(Left(), "elif")
      modifies this
      ensures Valid() && Agrees(r, ElifAt(lex, old(Left())), Left())
      decreases |Left()|, 1
    {
      hide AlternativeAt, BlockAt, P.Skip, Valid, Left;
      var _ := Advance();
      var condition := ParseBlockUntil(THEN, true);
      if condition.None? { return None; }
      var found := MatchKeyword("then");
      if !found { return None; }
      var consequent := ParseBlockUntil(BRANCH, true);
      if consequent.None? { return None; }
      r := ParseElseTail(condition.value, consequent.value);
    }

    method ParseElseTail(condition: Node, consequent: Node) returns (r: Option<Node>)
      requires Valid()
      modifies this
      ensures Valid() && Agrees(r, AlternativeAt(lex, condition, consequent, old(Left())), Left())
      decreases |Left()|, 2
    {
      hide AlternativeAt, ElifAt, BlockAt, P.Skip;
      AlternativeIs(lex, condition, consequent, Left());
      if AtKeyword("elif") {
        var nested := ParseElif();
        return if nested.None? then None else Some(IfCommand(condition, consequent, nested));
      }
      var alternative := None;
      var found := MatchKeyword("else");
      if found {
        alternative := ParseBlockUntil(FI, true);
        if alternative.None? { return None; }
      }
      found := MatchKeyword("fi");
      r := if found then Some(IfCommand(condition, consequent, alternative)) else None;
    }

    method ParseWhile(negate: bool) returns (r: Option<Node>)
      requires Valid() && OpeningOf(Left()) == if negate then OpensUntil else OpensWhile
      modifies this
      ensures Valid() && Agrees(r, BodyAt(lex, old(Left())), Left())
      decreases |Left()|, 1
    {
      hide BodyAt, DoAt, P.Skip;
      WhileIs(lex, Left(), negate);
      var _ := Advance();
      var condition := ParseBlockUntil(DO, true);
      if condition.None? { return None; }
      var body := ParseDo();
      if body.None? { return None; }
      r := Some(if negate then UntilCommand(condition.value, body.value) else WhileCommand(condition.value, body.value));
    }

    method ParseDo() returns (r: Option<Node>)
      requires Valid()
      modifies this
      ensures Valid() && Agrees(r, DoAt(lex, old(Left())), Left())
      decreases |Left()|, 1
    {
      hide DoAt, P.Skip;
      DoIs(lex, Left());
      var found := MatchKeyword("do");
      if !found { return None; }
      r := ParseBlockUntil(DONE, true);
      if r.None? { return; }
      found := MatchKeyword("done");
      if !found { r := None; }
    }

    method ParseFor() returns (r: Option<Node>)
      requires Valid() && OpeningOf(Left()) == OpensFor
      modifies this
      ensures Valid() && Agrees(r, BodyAt(lex, old(Left())), Left())
      decreases |Left()|, 1
    {
      if Peek(1) != DoubleLeftParen {
        r := ParseLoopOver(false);
        return;
      }
      ArithmeticForIs(lex, Left());
      var _ := Advance();
      var header := ReadUntilDoubleRightParen();
      if header.None? { return None; }
      Skip(true);
      var body := ParseDo();
      r := if body.None? then None else Some(ArithmeticForCommand(header.value, body.value));
    }

    /** `for` and `select` over words. */
    method ParseLoopOver(select: bool) returns (r: Option<Node>)
      requires Valid() && OpeningOf(Left()) == (if select then OpensSelect else OpensFor)
      requires !select ==> !(|Left()| > 1 && Left()[1] == DoubleLeftParen)
      modifies this
      ensures Valid() && Agrees(r, BodyAt(lex, old(Left())), Left())
      decreases |Left()|, 0
    {
      hide BodyAt, DoAt, P.ParseWords, P.Skip;
      LoopOverIs(lex, Left(), select);
      ghost var start := Left();
      var _ := Advance();
      if !Peek(0).Word? { return None; }
      var variable := Advance();
      assert Left() == start[2..];
      var items := None;
      var found := MatchKeyword("in");
      if found {
        items := ParseWords();
        if items.None? { return None; }
      }
      Skip(true);
      var body := ParseDo();
      if body.None? { return None; }
      r := Some(if select then SelectCommand(variable.text, items, body.value) else ForCommand(variable.text, items, body.value));
    }

    method ParseWords() returns (r: Option<seq<string>>)
      requires Valid()
      modifies this
      ensures Valid() && Agrees(r, P.ParseWords(lex, old(Left())), Left())
    {
      var items := [];
      ghost var goal := P.ParseWords(lex, Left());
      while Peek(0).Word? && !IsBlockTerminator(Peek(0).text)
        invariant Valid() && goal == Plus(items, P.ParseWords(lex, Left()))
        decreases |Left()|
      {
        if !lex.readable(Peek(0).text) { return None; }
        var word := Advance();
        PlusMore(items, word.text, P.ParseWords(lex, Left()));
        items := items + [word.text];
      }
      r := Some(items);
    }

    method ParseCoprocess() returns (r: Option<Node>)
      requires Valid() && OpeningOf(Left()) == OpensCoprocess
      modifies this
      ensures Valid() && Agrees(r, BodyAt(lex, old(Left())), Left())
      decreases |Left()|, 1
    {
      hide BodyAt, CommandAt, P.Skip;
      CoprocessIs(lex, Left());
      ghost var start := Left();
      var _ := Advance();
      var name := DEFAULT_NAME;
      if Peek(0).Word? && !IsBlockTerminator(Peek(0).text) && P.IsName(Peek(0).text) && (Peek(1).Word? || Peek(1) == LeftParen) {
        var word := Advance();
        name := word.text;
        assert Left() == start[2..];
      }
      var body := ParseCommand();
      r := if body.None? then None else Some(CoprocessCommand(name, body.value));
    }

    method ParseCase() returns (r: Option<Node>)
      requires Valid() && OpeningOf(Left()) == OpensCase
      modifies this
      ensures Valid() && Agrees(r, BodyAt(lex, old(Left())), Left())
      decreases |Left()|, 1
    {
      hide BodyAt, InAt, OpeningOf;
      OpensSomething(Left());
      CaseIs(lex, Left());
      ghost var start := Left();
      var _ := Advance();
      if !Peek(0).Word? || !lex.readable(Peek(0).text) { return None; }
      var subject := Advance();
      assert Left() == start[2..];
      r := ParseCaseIn(subject.text);
    }

    method ParseCaseIn(subject: string) returns (r: Option<Node>)
      requires Valid()
      modifies this
      ensures Valid() && Agrees(r, InAt(lex, subject, old(Left())), Left())
      decreases |Left()|, 9
    {
      hide EsacAt, P.Skip, IsBlockTerminator;
      Skip(false);
      var found := MatchKeyword("in");
      if !found { return None; }
      Skip(true);
      r := ParseUntilEsac(subject);
    }

    method ParseUntilEsac(subject: string) returns (r: Option<Node>)
      requires Valid()
      modifies this
      ensures Valid() && Agrees(r, EsacAt(lex, subject, old(Left())), Left())
      decreases |Left()|, 8
    {
      hide BranchesAt, CasesAt, IsBlockTerminator;
      var branches := ParseBranches();
      if branches.None? { return None; }
      var found := MatchKeyword("esac");
      r := if found then Some(CaseCommand(subject, branches.value)) else None;
    }

    method ParseBranches() returns (r: Option<seq<Branch>>)
      requires Valid()
      modifies this
      ensures Valid() && Agrees(r, BranchesAt(lex, old(Left())), Left())
      decreases |Left()|, 7
    {
      hide CasesAt, CaseItemAt, P.Skip;
      var branches := [];
      ghost var goal := CasesAt(lex, [], Left());
      ghost var most := |Left()|;
      while !AtEnd() && !AtKeyword("esac")
        invariant Valid() && |Left()| <= most && goal == CasesAt(lex, branches, Left())
        decreases |Left()|
      {
        CasesStep(lex, branches, Left());
        var branch := ParseCaseItem();
        if branch.None? { return None; }
        Skip(true);
        branches := branches + [branch.value];
      }
      r := Some(branches);
    }

    method ParseCaseItem() returns (r: Option<Branch>)
      requires Valid() && Left() != []
      modifies this
      ensures Valid() && Agrees(r, CaseItemAt(lex, old(Left())), Left())
      decreases |Left()|, 6
    {
      hide CaseItemAt, ContentAt, P.ParsePatterns, P.Skip;
      CaseItemIs(lex, Left());
      var _ := Match(LeftParen);
      var patterns := ParsePatterns();
      if patterns.None? { return None; }
      var found := Match(RightParen);
      if !found { return None; }
      Skip(true);
      r := ParseCaseContent(patterns.value);
    }

    method ParseCaseContent(patterns: seq<string>) returns (r: Option<Branch>)
      requires Valid()
      modifies this
      ensures Valid() && Agrees(r, ContentAt(lex, patterns, old(Left())), Left())
      decreases |Left()|, 7
    {
      hide ListAt, P.Skip, IsCaseEnd, CaseItemEnds;
      var body := None;
      var ends := IsCaseItemEnd();
      if !ends {
        body := ParseList();
        if body.None? { return None; }
      }
      Skip(false);
      var terminator := DoubleSemicolon;
      if !AtEnd() && IsCaseEnd(Peek(0)) { terminator := Advance(); }
      r := Some(Branch(patterns, body, terminator));
    }

    method IsCaseItemEnd() returns (ends: bool)
      requires Valid()
      ensures ends == CaseItemEnds(Left())
    {
      ends := AtEnd() || IsCaseEnd(Peek(0)) || AtKeyword("esac");
    }

    method ParsePatterns() returns (r: Option<seq<string>>)
      requires Valid()
      modifies this
      ensures Valid() && Agrees(r, P.ParsePatterns(lex, old(Left())), Left())
    {
      var patterns := [];
      ghost var goal := P.ParsePatterns(lex, Left());
      while true
        invariant Valid() && goal == Plus(patterns, P.ParsePatterns(lex, Left()))
        decreases |Left()|
      {
        ghost var here := Left();
        if !Peek(0).Word? || !lex.readable(Peek(0).text) { return None; }
        var pattern := Advance();
        if Peek(0) != Token.Pipe {
          patterns := patterns + [pattern.text];
          break;
        }
        var _ := Advance();
        assert Left() == here[2..];
        PlusMore(patterns, pattern.text, P.ParsePatterns(lex, Left()));
        patterns := patterns + [pattern.text];
      }
      r := Some(patterns);
    }

    // ---- blocks ----

    method ParseBlockUntil(until: Until, required: bool) returns (r: Option<Node>)
      requires Valid()
      modifies this
      ensures Valid() && Agrees(r, BlockAt(lex, old(Left()), until, required), Left())
      decreases |Left()|, 8
    {
      hide BlockAt, P.Skip;
      BlockIs(lex, Left(), until, required);
      Skip(true);
      var commands := ParseCommands(until);
      if commands.None? || (required && commands.value == []) { return None; }
      var sequence := Chain(commands.value);
      r := Some(sequence);
    }

    method ParseCommands(until: Until) returns (r: Option<seq<Node>>)
      requires Valid()
      modifies this
      ensures Valid() && Agrees(r, CommandsAt(lex, old(Left()), until), Left())
      decreases |Left()|, 7
    {
      hide EntriesAt, ListAt, P.Skip;
      var commands := [];
      ghost var goal := EntriesAt(lex, [], Left(), until);
      ghost var most := |Left()|;
      while !StopsHere(until)
        invariant Valid() && |Left()| <= most && goal == EntriesAt(lex, commands, Left(), until)
        decreases |Left()|
      {
        EntriesStep(lex, commands, Left(), until);
        var list := ParseList();
        if list.None? { return None; }
        Skip(true);
        commands := commands + [list.value];
      }
      r := Some(commands);
    }

    predicate StopsHere(until: Until)
      requires Valid()
      reads this
      ensures StopsHere(until) == Stops(until, Left())
    {
      || AtEnd()
      || match until
         case Keywords(words) => Peek(0).Word? && Peek(0).text in words
         case Paren => Peek(0) == RightParen
         case Never => false
    }
  }

  method Chain(commands: seq<Node>) returns (r: Node)
    ensures r == InSequence(commands)
  {
    if commands == [] { return SimpleCommand([], [], []); }
    r := commands[0];
    for i := 1 to |commands|
      invariant r == InSequence(commands[..i])
    {
      assert commands[..i + 1][..i] == commands[..i];
      r := CommandList(r, Sequence, Some(commands[i]));
    }
    assert commands[..|commands|] == commands;
  }

  /** The depth after a token, for a closing parenthesis only inside another. */
  function Deeper(t: Token, depth: nat): nat
    requires t == RightParen ==> depth > 0
  {
    match t case LeftParen => depth + 1 case DoubleLeftParen => depth + 2 case RightParen => depth - 1 case _ => depth
  }

  ghost function Further(n: nat, end: Option<nat>): Option<nat> {
    if end.None? then None else Some(n + end.value)
  }

  lemma EndStep(ts: Tokens, depth: nat)
    requires ts != [] && depth >= 1
    ensures var stops := ts[0] == RightParen && (depth == 1 || (depth == 2 && |ts| > 1 && ts[1] == RightParen));
            && (stops ==> P.ArithmeticEnd(ts, depth) == Some(0))
            && (!stops ==> P.ArithmeticEnd(ts, depth) == Further(1, P.ArithmeticEnd(ts[1..], Deeper(ts[0], depth))))
  {}

  lemma EndAt(ts: Tokens, n: nat, depth: nat)
    requires n < |ts| && depth >= 1
    ensures var stops := ts[n] == RightParen && (depth == 1 || (depth == 2 && n + 1 < |ts| && ts[n + 1] == RightParen));
            && (stops ==> P.ArithmeticEnd(ts[n..], depth) == Some(0))
            && (!stops ==> Further(n, P.ArithmeticEnd(ts[n..], depth)) == Further(n + 1, P.ArithmeticEnd(ts[n + 1..], Deeper(ts[n], depth))))
  {
    hide P.ArithmeticEnd;
    DropMore(ts, n);
    EndStep(ts[n..], depth);
  }

  lemma EndBegins(ts: Tokens)
    ensures ts[0..] == ts && forall end :: Further(0, end) == end
  {}

  lemma NoFurther(n: nat)
    ensures Further(n, None) == None
  {}

  lemma FurtherNow(n: nat)
    ensures Further(n, Some(0)) == Some(n)
  {}

  lemma ArithmeticIsRead(ts: Tokens, n: nat)
    requires ts != [] && ts[0] == DoubleLeftParen && P.ArithmeticEnd(ts[1..], 1) == Some(n) && n < |ts| - 1
    ensures var p, rest := P.ParseArithmetic(ts), ts[1..][n..][1..];
            p.Parsed? && p.value.0 == ts[1..][..n] && p.rest == if rest != [] && rest[0] == RightParen then rest[1..] else rest
  {
    hide P.ArithmeticEnd;
    assert ts[1..][n..][1..] == ts[1..][n + 1..];
  }

  lemma ArithmeticIsOpen(ts: Tokens)
    requires ts != [] && P.ArithmeticEnd(ts[1..], 1).None?
    ensures P.ParseArithmetic(ts).Failed?
  {}

  lemma EndNone(depth: nat)
    requires depth >= 1
    ensures P.ArithmeticEnd([], depth) == None
  {}

  lemma GatherMore(read: seq<Item>, item: Item)
    ensures Assignments(read + [item]) == Assignments(read) + (if item.Assignment? then [item.text] else [])
    ensures Arguments(read + [item]) == Arguments(read) + (match item case Argument(text) => [text] case Number(digits) => [digits] case _ => [])
    ensures Redirects(read + [item]) == Redirects(read) + (if item.Redirected? then [item.redirect] else [])
  {
    assert (read + [item])[..|read|] == read;
  }

  lemma NothingGathered(read: seq<Item>)
    ensures read == [] <==> Assignments(read) == [] && Arguments(read) == [] && Redirects(read) == []
  {}
}
