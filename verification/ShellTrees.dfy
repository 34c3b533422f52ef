/** The tree the parser builds for a phrase. */
module ShellTrees {
  import opened Wrappers
  import opened ShellSyntax

  datatype ListOperator = Sequence | AndThen | OrElse | Background

  datatype Node =
    | SimpleCommand(assignments: seq<string>, words: seq<string>, redirects: seq<Redirect>)
    | Pipeline(stages: seq<Node>, negated: bool, pipeStderr: seq<bool>)
    | TimedCommand(timed: Option<Node>, posix: bool)
    | CommandList(left: Node, operator: ListOperator, right: Option<Node>)
    | CompoundCommand(inner: Node, redirects: seq<Redirect>)
    | IfCommand(condition: Node, consequent: Node, alternative: Option<Node>)
    | WhileCommand(condition: Node, body: Node)
    | UntilCommand(condition: Node, body: Node)
    | ForCommand(variable: string, items: Option<seq<string>>, body: Node)
    | SelectCommand(variable: string, items: Option<seq<string>>, body: Node)
    | ArithmeticForCommand(header: Tokens, body: Node)
    | CoprocessCommand(name: string, body: Node)
    | CaseCommand(subject: string, cases: seq<Branch>)
    | BraceGroup(body: Node)
    | SubshellCommand(body: Node)
    | ConditionalCommand(expression: Condition)
    | ArithmeticCommand(expressionText: Tokens)
    | FunctionDef(name: string, body: Node)

  /** One branch of a `case`; without an end mark it ends like `;;`. */
  datatype Branch = Branch(patterns: seq<string>, content: Option<Node>, terminator: Token)

  datatype Condition =
    | Either(left: Condition, right: Condition)
    | Both(left: Condition, right: Condition)
    | Negation(operand: Condition)
    | UnaryTest(test: string, argument: string)
    | BinaryTest(test: string, first: string, second: string)
    | TextTest(text: string)

  const DEFAULT_NAME := "COPROC"

  // ---- simple commands ----

  function Assignments(items: seq<Item>): seq<string> {
    if items == [] then [] else
    var last := items[|items| - 1];
    Assignments(items[..|items| - 1]) + if last.Assignment? then [last.text] else []
  }

  function Arguments(items: seq<Item>): seq<string> {
    if items == [] then [] else
    var last := items[|items| - 1];
    Arguments(items[..|items| - 1]) + match last case Argument(text) => [text] case Number(digits) => [digits] case _ => []
  }

  function Redirects(items: seq<Item>): seq<Redirect> {
    if items == [] then [] else
    var last := items[|items| - 1];
    Redirects(items[..|items| - 1]) + if last.Redirected? then [last.redirect] else []
  }

  // ---- conditional expressions ----

  function TreeOr(e: Or): Condition {
    TreeOrs(TreeAnd(e.first), e.more)
  }

  function TreeOrs(left: Condition, es: Ors): Condition
    decreases es
  {
    match es
    case NoOr => left
    case OrMore(_, next, more) => TreeOrs(Either(left, TreeAnd(next)), more)
  }

  function TreeAnd(e: And): Condition {
    TreeAnds(TreePrimary(e.first), e.more)
  }

  function TreeAnds(left: Condition, es: Ands): Condition
    decreases es
  {
    match es
    case NoAnd => left
    case AndMore(_, next, more) => TreeAnds(Both(left, TreePrimary(next)), more)
  }

  function TreePrimary(p: Primary): Condition {
    match p
    case Not(denied) => Negation(TreePrimary(denied))
    case Parens(inner) => TreeOr(inner)
    case Unary(test, operand) => UnaryTest(test, operand)
    case Binary(left, test, right) => BinaryTest(test, left, right)
    case Ordered(left, less, right) => BinaryTest(if less then "<" else ">", left, right)
    case Value(text) => TextTest(text)
  }

  // ---- lists and pipelines ----

  function TreeList(l: List): Node {
    TreeTail(TreePipe(l.first), l.tail)
  }

  function TreeTail(left: Node, t: Tail): Node
    decreases t
  {
    match t
    case Stop => left
    case Join(isAnd, _, next, more) => TreeTail(CommandList(left, if isAnd then AndThen else OrElse, Some(TreePipe(next))), more)
    case Close(background, _) => if background then CommandList(left, Background, None) else left
    case More(background, _, list) =>
      CommandList(if background then CommandList(left, Background, None) else left, Sequence, Some(TreeList(list)))
  }

  /** `time` forgets the exclamation marks in front of it. */
  function TreePipe(p: ShellSyntax.Pipe): Node {
    match p
    case Stages(bangs, first, stages) =>
      var nodes := [TreeCommand(first)] + TreeTubes(stages);
      if stages.NoTube? && bangs % 2 == 0 then nodes[0] else Pipeline(nodes, bangs % 2 == 1, Stderrs(stages))
    case Timed(_, posix, body) => TimedCommand(Some(TreePipe(body)), posix)
    case TimedNothing(_, posix) => TimedCommand(None, posix)
  }

  function TreeTubes(s: Tubes): seq<Node> {
    match s
    case NoTube => []
    case Tube(_, _, next, more) => [TreeCommand(next)] + TreeTubes(more)
  }

  function Stderrs(s: Tubes): seq<bool> {
    match s
    case NoTube => []
    case Tube(both, _, _, more) => [both] + Stderrs(more)
  }

  // ---- commands ----

  function TreeCommand(c: Command): Node {
    match c
    case Simple(items) => SimpleCommand(Assignments(items), Arguments(items), Redirects(items))
    case Compound(body, redirects) => if redirects == [] then TreeBody(body) else CompoundCommand(TreeBody(body), redirects)
    case Function(_, name, _, definition) => FunctionDef(name, TreeCommand(definition))
  }

  function TreeBody(b: Body): Node {
    match b
    case If(c, t, Elif(c2, t2, a)) => TreeBranches(TreeBlock(c2), TreeBlock(t2), a)
    case If(c, t, a) => TreeBranches(TreeBlock(c), TreeBlock(t), a)
    case While(negate, c, body) => if negate then UntilCommand(TreeBlock(c), TreeBlock(body)) else WhileCommand(TreeBlock(c), TreeBlock(body))
    case For(select, name, items, _, body) =>
      if select then SelectCommand(name, items, TreeBlock(body)) else ForCommand(name, items, TreeBlock(body))
    case ArithmeticFor(inside, _, _, body) => ArithmeticForCommand(inside, TreeBlock(body))
    case Coprocess(title, command) => CoprocessCommand(if title.Some? then title.value else DEFAULT_NAME, TreeCommand(command))
    case Case(subject, _, _, cases) => CaseCommand(subject, TreeCases(cases))
    case Group(body) => BraceGroup(TreeBlock(body))
    case Subshell(body) => SubshellCommand(TreeBlock(body))
    case Conditional(e) => ConditionalCommand(TreeOr(e))
    case Arithmetic(inside, _) => ArithmeticCommand(inside)
  }

  /** A condition, its branch, and the branches after it: what `if` and `elif` stand for. */
  function TreeBranches(condition: Node, consequent: Node, a: Alternative): Node
    decreases a
  {
    match a
    case Fi => IfCommand(condition, consequent, None)
    case Else(body) => IfCommand(condition, consequent, Some(TreeBlock(body)))
    case Elif(c, t, more) => IfCommand(condition, consequent, Some(TreeBranches(TreeBlock(c), TreeBlock(t), more)))
  }

  function TreeBlock(b: Block): Node {
    InSequence(TreeEntries(b.entries))
  }

  function TreeEntries(es: Entries): seq<Node> {
    match es
    case NoEntry => []
    case Entry(list, _, more) => [TreeList(list)] + TreeEntries(more)
  }

  function InSequence(nodes: seq<Node>): Node {
    if nodes == [] then SimpleCommand([], [], [])
    else if |nodes| == 1 then nodes[0]
    else CommandList(InSequence(nodes[..|nodes| - 1]), Sequence, Some(nodes[|nodes| - 1]))
  }

  function TreeCases(cs: Cases): seq<Branch> {
    match cs
    case NoCase => []
    case Cases(first, _, more) => [TreeCaseItem(first)] + TreeCases(more)
  }

  function TreeCaseItem(i: CaseItem): Branch {
    Branch(i.patterns, match i.body case None => None case Some(list) => Some(TreeList(list)), if i.end.Some? then i.end.value else DoubleSemicolon)
  }
}
