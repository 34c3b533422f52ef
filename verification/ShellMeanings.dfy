/**
 What a script stands for, where the parser builds something else. Three notations are rewritten into
 ones it gets right: an `elif` is an `if` of its own in the `else`; `! time x` is `time ! { x; }`; and
 redirections after a function's group or subshell belong to the function. A script is read as it is
 written exactly when none of the three occurs in it, however deep.
 */
module ShellMeanings {
  import opened Wrappers
  import opened ShellSyntax
  import opened ShellTrees
  import P = ShellParsing

  // ---- one command by itself ----

  function Only(c: Command): Entries {
    Entry(List(Stages(0, c, NoTube), Stop), [], NoEntry)
  }

  /** `! { p; }`, or `! { }` for nothing. */
  function Denied(p: Entries): ShellSyntax.Pipe {
    Stages(1, Compound(Group(Block([], p)), []), NoTube)
  }

  // ---- redirections that belong to a function ----

  /** The list ends with a function whose body is a group or a subshell, with nothing after it. */
  predicate EndsBare(p: ShellSyntax.Pipe, t: Tail)
    decreases t
  {
    match t
    case Stop => BarePipe(p)
    case Join(_, _, next, more) => EndsBare(next, more)
    case Close(_, _) => false
    case More(_, _, list) => EndsBare(list.first, list.tail)
  }

  predicate BarePipe(p: ShellSyntax.Pipe) {
    match p
    case Stages(_, first, stages) => BareTubes(first, stages)
    case Timed(_, _, body) => BarePipe(body)
    case TimedNothing(_, _) => false
  }

  predicate BareTubes(c: Command, s: Tubes)
    decreases s
  {
    match s
    case NoTube => BareFunction(c)
    case Tube(_, _, next, more) => BareTubes(next, more)
  }

  predicate BareFunction(c: Command) {
    && c.Function?
    && match c.definition
       case Simple(_) => false
       case Compound(body, redirects) => (body.Group? || body.Subshell?) && redirects == []
       case Function(_, _, _, _) => BareFunction(c.definition)
  }

  /** The list begins with a command of redirections only. */
  predicate BeginsWithRedirects(l: List) {
    && l.first.Stages? && l.first.bangs == 0 && l.first.first.Simple? && l.first.first.items != []
    && forall i :: 0 <= i < |l.first.first.items| ==> l.first.first.items[i].Redirected?
  }

  function Redirections(l: List): (rs: seq<Redirect>)
    requires BeginsWithRedirects(l)
    ensures rs != []
  {
    seq(|l.first.first.items|, i requires 0 <= i < |l.first.first.items| => l.first.first.items[i].redirect)
  }

  /** The first list with the redirections of the second on its last function, and the rest of the second after it. */
  function Graft(p: ShellSyntax.Pipe, t: Tail, r: List): List
    requires EndsBare(p, t) && BeginsWithRedirects(r)
    decreases t
  {
    match t
    case Stop => List(GraftPipe(p, r), r.tail)
    case Join(isAnd, gap, next, more) =>
      var l := Graft(next, more, r);
      List(p, Join(isAnd, gap, l.first, l.tail))
    case More(background, gap, list) => List(p, More(background, gap, Graft(list.first, list.tail, r)))
  }

  function GraftPipe(p: ShellSyntax.Pipe, r: List): ShellSyntax.Pipe
    requires BarePipe(p) && BeginsWithRedirects(r)
  {
    match p
    case Stages(bangs, first, stages) =>
      var (c, s) := GraftTubes(first, stages, r);
      Stages(bangs, c, s)
    case Timed(bangs, posix, body) => Timed(bangs, posix, GraftPipe(body, r))
  }

  function GraftTubes(c: Command, s: Tubes, r: List): (Command, Tubes)
    requires BareTubes(c, s) && BeginsWithRedirects(r)
    decreases s
  {
    match s
    case NoTube => (Redirect(c, Redirections(r)), r.first.stages)
    case Tube(both, gap, next, more) =>
      var (d, rest) := GraftTubes(next, more, r);
      (c, Tube(both, gap, d, rest))
  }

  function Redirect(c: Command, rs: seq<ShellSyntax.Redirect>): Command
    requires BareFunction(c)
  {
    match c.definition
    case Compound(body, _) => c.(definition := Compound(body, rs))
    case Function(_, _, _, _) => c.(definition := Redirect(c.definition, rs))
  }

  // ---- what is meant ----

  function MeantList(l: List): List {
    List(MeantPipe(l.first), MeantTail(l.tail))
  }

  function MeantTail(t: Tail): Tail {
    match t
    case Stop => t
    case Join(isAnd, gap, next, more) => Join(isAnd, gap, MeantPipe(next), MeantTail(more))
    case Close(_, _) => t
    case More(background, gap, list) => More(background, gap, MeantList(list))
  }

  function MeantPipe(p: ShellSyntax.Pipe): ShellSyntax.Pipe {
    match p
    case Stages(bangs, first, stages) => Stages(bangs, MeantCommand(first), MeantTubes(stages))
    case Timed(bangs, posix, body) =>
      if bangs % 2 == 0 then Timed(bangs, posix, MeantPipe(body))
      else Timed(0, posix, Denied(Entry(List(MeantPipe(body), Stop), [], NoEntry)))
    case TimedNothing(bangs, posix) => if bangs % 2 == 0 then p else Timed(0, posix, Denied(NoEntry))
  }

  function MeantTubes(s: Tubes): Tubes {
    match s
    case NoTube => s
    case Tube(both, gap, next, more) => Tube(both, gap, MeantCommand(next), MeantTubes(more))
  }

  function MeantCommand(c: Command): Command {
    match c
    case Simple(_) => c
    case Compound(body, redirects) => Compound(MeantBody(body), redirects)
    case Function(heading, name, gap, definition) => Function(heading, name, gap, MeantCommand(definition))
  }

  function MeantBody(b: Body): Body {
    match b
    case If(c, t, a) => If(MeantBlock(c), MeantBlock(t), MeantAlternative(a))
    case While(negate, c, body) => While(negate, MeantBlock(c), MeantBlock(body))
    case For(select, name, items, gap, body) => For(select, name, items, gap, MeantBlock(body))
    case ArithmeticFor(inside, twice, gap, body) => ArithmeticFor(inside, twice, gap, MeantBlock(body))
    case Coprocess(title, command) => Coprocess(title, MeantCommand(command))
    case Case(subject, newlines, gap, cases) => Case(subject, newlines, gap, MeantCases(cases))
    case Group(body) => Group(MeantBlock(body))
    case Subshell(body) => Subshell(MeantBlock(body))
    case Conditional(_) => b
    case Arithmetic(_, _) => b
  }

  function MeantAlternative(a: Alternative): (r: Alternative)
    ensures !r.Elif?
  {
    match a
    case Fi => a
    case Else(body) => Else(MeantBlock(body))
    case Elif(c, t, more) => Else(Block([], Only(Compound(If(MeantBlock(c), MeantBlock(t), MeantAlternative(more)), []))))
  }

  function MeantBlock(b: Block): Block {
    Block(b.gap, MeantEntries(b.entries))
  }

  /** Redirections that follow a function with nothing between them are the function's. */
  predicate Belong(list: List, gap: Tokens, more: Entries) {
    gap == [] && more.Entry? && EndsBare(list.first, list.tail) && BeginsWithRedirects(more.list)
  }

  function MeantEntries(es: Entries): Entries {
    match es
    case NoEntry => es
    case Entry(list, gap, more) =>
      var l, rest := MeantList(list), MeantEntries(more);
      if Belong(l, gap, rest) then Entry(Graft(l.first, l.tail, rest.list), rest.gap, rest.more) else Entry(l, gap, rest)
  }

  function MeantCases(cs: Cases): Cases {
    match cs
    case NoCase => cs
    case Cases(first, gap, more) => Cases.Cases(MeantCaseItem(first), gap, MeantCases(more))
  }

  function MeantCaseItem(i: CaseItem): CaseItem {
    i.(body := match i.body case None => None case Some(list) => Some(MeantList(list)))
  }

  // ---- scripts without the three notations ----

  predicate PlainList(l: List) {
    PlainPipe(l.first) && PlainTail(l.tail)
  }

  predicate PlainTail(t: Tail) {
    match t
    case Stop => true
    case Join(_, _, next, more) => PlainPipe(next) && PlainTail(more)
    case Close(_, _) => true
    case More(_, _, list) => PlainList(list)
  }

  predicate PlainPipe(p: ShellSyntax.Pipe) {
    match p
    case Stages(_, first, stages) => PlainCommand(first) && PlainTubes(stages)
    case Timed(bangs, _, body) => bangs % 2 == 0 && PlainPipe(body)
    case TimedNothing(bangs, _) => bangs % 2 == 0
  }

  predicate PlainTubes(s: Tubes) {
    s.Tube? ==> PlainCommand(s.next) && PlainTubes(s.more)
  }

  predicate PlainCommand(c: Command) {
    match c
    case Simple(_) => true
    case Compound(body, _) => PlainBody(body)
    case Function(_, _, _, definition) => PlainCommand(definition)
  }

  predicate PlainBody(b: Body) {
    match b
    case If(c, t, a) => PlainBlock(c) && PlainBlock(t) && PlainAlternative(a)
    case While(_, c, body) => PlainBlock(c) && PlainBlock(body)
    case For(_, _, _, _, body) => PlainBlock(body)
    case ArithmeticFor(_, _, _, body) => PlainBlock(body)
    case Coprocess(_, command) => PlainCommand(command)
    case Case(_, _, _, cases) => PlainCases(cases)
    case Group(body) => PlainBlock(body)
    case Subshell(body) => PlainBlock(body)
    case Conditional(_) => true
    case Arithmetic(_, _) => true
  }

  predicate PlainAlternative(a: Alternative) {
    !a.Elif? && (a.Else? ==> PlainBlock(a.body))
  }

  predicate PlainBlock(b: Block) {
    PlainEntries(b.entries)
  }

  predicate PlainEntries(es: Entries) {
    es.Entry? ==> PlainList(es.list) && PlainEntries(es.more) && !Belong(es.list, es.gap, es.more)
  }

  predicate PlainCases(cs: Cases) {
    cs.Cases? ==> PlainCaseItem(cs.first) && PlainCases(cs.more)
  }

  predicate PlainCaseItem(i: CaseItem) {
    i.body.Some? ==> PlainList(i.body.value)
  }

  // ---- a measure of trees ----

  /** The ifs, the pipelines and, twice, the redirected compound commands of a tree. */
  function Size(n: Node): nat {
    match n
    case SimpleCommand(_, _, _) => 0
    case Pipeline(stages, _, _) => 1 + Sizes(stages)
    case TimedCommand(timed, _) => (match timed case None => 0 case Some(m) => Size(m))
    case CommandList(left, _, right) => Size(left) + (match right case None => 0 case Some(m) => Size(m))
    case CompoundCommand(inner, _) => 2 + Size(inner)
    case IfCommand(c, t, a) => 1 + Size(c) + Size(t) + (match a case None => 0 case Some(m) => Size(m))
    case WhileCommand(c, b) => Size(c) + Size(b)
    case UntilCommand(c, b) => Size(c) + Size(b)
    case ForCommand(_, _, b) => Size(b)
    case SelectCommand(_, _, b) => Size(b)
    case ArithmeticForCommand(_, b) => Size(b)
    case CoprocessCommand(_, b) => Size(b)
    case CaseCommand(_, cases) => BranchSizes(cases)
    case BraceGroup(b) => Size(b)
    case SubshellCommand(b) => Size(b)
    case ConditionalCommand(_) => 0
    case ArithmeticCommand(_) => 0
    case FunctionDef(_, b) => Size(b)
  }

  function Sizes(ns: seq<Node>): nat {
    if ns == [] then 0 else Size(ns[0]) + Sizes(ns[1..])
  }

  function BranchSizes(bs: seq<Branch>): nat {
    if bs == [] then 0 else
    (match bs[0].content case None => 0 case Some(m) => Size(m)) + BranchSizes(bs[1..])
  }

  const EMPTY := SimpleCommand([], [], [])

  lemma {:induction false} SizesConcat(a: seq<Node>, b: seq<Node>)
    ensures Sizes(a + b) == Sizes(a) + Sizes(b)
  {
    hide Size;
    if a == [] {
      assert a + b == b;
    } else {
      assert (a + b)[1..] == a[1..] + b;
      SizesConcat(a[1..], b);
    }
  }

  lemma OneSize(n: Node)
    ensures Sizes([n]) == Size(n) && Sizes([]) == 0
  {
    hide Size;
    assert [n][1..] == [];
  }

  lemma {:induction false} SequenceSize(ns: seq<Node>)
    ensures Size(InSequence(ns)) == Sizes(ns)
    decreases |ns|
  {
    if |ns| == 1 {
      OneSize(ns[0]);
      assert ns == [ns[0]];
    } else if |ns| > 1 {
      var k := |ns| - 1;
      SequenceSize(ns[..k]);
      SizesConcat(ns[..k], [ns[k]]);
      OneSize(ns[k]);
      assert ns == ns[..k] + [ns[k]];
      assert InSequence(ns) == CommandList(InSequence(ns[..k]), Sequence, Some(ns[k]));
    }
  }

  /** What comes before a list's operators counts once, whatever they are. */
  lemma {:induction false} TailSize(left: Node, t: Tail)
    ensures Size(TreeTail(left, t)) == Size(left) + Size(TreeTail(EMPTY, t))
    decreases t
  {
    hide TreePipe, TreeList;
    match t
    case Stop =>
    case Join(isAnd, _, next, more) =>
      var op := if isAnd then AndThen else OrElse;
      TailSize(CommandList(left, op, Some(TreePipe(next))), more);
      TailSize(CommandList(EMPTY, op, Some(TreePipe(next))), more);
    case Close(_, _) =>
    case More(_, _, list) =>
  }

  lemma ListSize(l: List)
    ensures Size(TreeList(l)) == Size(TreePipe(l.first)) + Size(TreeTail(EMPTY, l.tail))
  {
    hide Size, TreePipe, TreeTail;
    TailSize(TreePipe(l.first), l.tail);
  }

  lemma JoinSize(isAnd: bool, gap: Tokens, next: ShellSyntax.Pipe, more: Tail)
    ensures Size(TreeTail(EMPTY, Join(isAnd, gap, next, more))) == Size(TreePipe(next)) + Size(TreeTail(EMPTY, more))
  {
    hide TreePipe;
    TailSize(CommandList(EMPTY, if isAnd then AndThen else OrElse, Some(TreePipe(next))), more);
  }

  lemma MoreSize(background: bool, gap: Tokens, list: List)
    ensures Size(TreeTail(EMPTY, More(background, gap, list))) == Size(TreeList(list))
  {
    hide TreeList;
  }

  lemma PipeSize(bangs: nat, first: Command, stages: Tubes)
    ensures Size(TreePipe(Stages(bangs, first, stages)))
         == (if stages.NoTube? && bangs % 2 == 0 then 0 else 1) + Size(TreeCommand(first)) + Sizes(TreeTubes(stages))
  {
    hide TreeCommand, Size;
    SizesConcat([TreeCommand(first)], TreeTubes(stages));
    OneSize(TreeCommand(first));
    StagesSize(bangs, first, stages);
  }

  lemma StagesSize(bangs: nat, first: Command, stages: Tubes)
    ensures Size(TreePipe(Stages(bangs, first, stages)))
         == if stages.NoTube? && bangs % 2 == 0 then Size(TreeCommand(first)) else 1 + Sizes([TreeCommand(first)] + TreeTubes(stages))
  {
    hide TreeCommand, Sizes;
  }

  lemma TubesSize(both: bool, gap: Tokens, next: Command, more: Tubes)
    ensures Sizes(TreeTubes(Tube(both, gap, next, more))) == Size(TreeCommand(next)) + Sizes(TreeTubes(more))
  {
    hide TreeCommand, Size;
    SizesConcat([TreeCommand(next)], TreeTubes(more));
    OneSize(TreeCommand(next));
  }

  lemma BlockSize(b: Block)
    ensures Size(TreeBlock(b)) == Sizes(TreeEntries(b.entries))
  {
    hide Size, Sizes, InSequence, TreeEntries;
    SequenceSize(TreeEntries(b.entries));
  }

  lemma EntrySize(list: List, gap: Tokens, more: Entries)
    ensures Sizes(TreeEntries(Entry(list, gap, more))) == Size(TreeList(list)) + Sizes(TreeEntries(more))
  {
    hide TreeList, Size;
    SizesConcat([TreeList(list)], TreeEntries(more));
    OneSize(TreeList(list));
  }

  function Otherwise(a: Alternative): Option<Node> {
    match a
    case Fi => None
    case Else(body) => Some(TreeBlock(body))
    case Elif(c, t, more) => Some(TreeBranches(TreeBlock(c), TreeBlock(t), more))
  }

  lemma BranchesTree(c: Node, t: Node, a: Alternative)
    ensures TreeBranches(c, t, a) == IfCommand(c, t, Otherwise(a))
  {
    hide TreeBlock;
  }

  lemma BranchesSize(c: Node, t: Node, a: Alternative)
    ensures Size(TreeBranches(c, t, a)) == Size(c) + Size(t) + Size(TreeBranches(EMPTY, EMPTY, a))
  {
    hide TreeBranches, Otherwise;
    BranchesTree(c, t, a);
    BranchesTree(EMPTY, EMPTY, a);
  }

  // ---- grafting ----

  lemma {:induction false} RedirectSize(c: Command, rs: seq<ShellSyntax.Redirect>)
    requires BareFunction(c) && rs != []
    ensures Size(TreeCommand(Redirect(c, rs))) == Size(TreeCommand(c)) + 2
  {
    hide TreeBody;
    if c.definition.Function? { RedirectSize(c.definition, rs); }
  }

  lemma {:induction false} GraftTubesSize(c: Command, s: Tubes, r: List)
    requires BareTubes(c, s) && BeginsWithRedirects(r)
    ensures var (d, rest) := GraftTubes(c, s, r);
            && Size(TreeCommand(d)) + Sizes(TreeTubes(rest))
               == Size(TreeCommand(c)) + Sizes(TreeTubes(s)) + 2 + Sizes(TreeTubes(r.first.stages))
            && (s.Tube? ==> rest.Tube?)
    decreases s
  {
    hide Size, Sizes, TreeCommand, TreeTubes, Redirections;
    match s
    case NoTube =>
      RedirectSize(c, Redirections(r));
      NoTubeSize();
    case Tube(both, gap, next, more) =>
      GraftTubesSize(next, more, r);
      var (d, rest) := GraftTubes(next, more, r);
      TubesSize(both, gap, next, more);
      TubesSize(both, gap, d, rest);
  }

  lemma NoTubeSize()
    ensures Sizes(TreeTubes(NoTube)) == 0
  {}

  lemma {:induction false} GraftPipeSize(p: ShellSyntax.Pipe, r: List)
    requires BarePipe(p) && BeginsWithRedirects(r)
    ensures Size(TreePipe(GraftPipe(p, r))) > Size(TreePipe(p)) + Size(TreePipe(r.first))
  {
    hide Sizes, TreeCommand, TreeTubes, GraftTubes;
    match p
    case Stages(bangs, first, stages) =>
      GraftTubesSize(first, stages, r);
      var (c, s) := GraftTubes(first, stages, r);
      PipeSize(bangs, first, stages);
      PipeSize(bangs, c, s);
      PipeSize(0, r.first.first, r.first.stages);
      SimpleSize(r.first.first);
      if stages == NoTube { GraftsAtTheEnd(first, r); }
    case Timed(bangs, posix, body) =>
      GraftPipeSize(body, r);
      TimedSize(bangs, posix, body);
      TimedSize(bangs, posix, GraftPipe(body, r));
  }

  lemma SimpleSize(c: Command)
    requires c.Simple?
    ensures Size(TreeCommand(c)) == 0
  {}

  lemma GraftsAtTheEnd(c: Command, r: List)
    requires BareTubes(c, NoTube) && BeginsWithRedirects(r)
    ensures GraftTubes(c, NoTube, r).1 == r.first.stages
  {
    hide Redirections;
  }

  lemma TimedSize(bangs: nat, posix: bool, body: ShellSyntax.Pipe)
    ensures Size(TreePipe(Timed(bangs, posix, body))) == Size(TreePipe(body))
  {}

  lemma {:induction false} GraftSize(p: ShellSyntax.Pipe, t: Tail, r: List)
    requires EndsBare(p, t) && BeginsWithRedirects(r)
    ensures Size(TreeList(Graft(p, t, r))) > Size(TreeList(List(p, t))) + Size(TreeList(r))
    decreases t
  {
    hide Size, TreeList, TreePipe, TreeTail, GraftPipe, BarePipe, BeginsWithRedirects;
    ListSize(List(p, t));
    ListSize(Graft(p, t, r));
    ListSize(r);
    match t
    case Stop =>
      GraftPipeSize(p, r);
      StopSize();
    case Join(isAnd, gap, next, more) =>
      GraftSize(next, more, r);
      var l := Graft(next, more, r);
      ListSize(List(next, more));
      ListSize(l);
      JoinSize(isAnd, gap, next, more);
      JoinSize(isAnd, gap, l.first, l.tail);
    case More(background, gap, list) =>
      GraftSize(list.first, list.tail, r);
      MoreSize(background, gap, list);
      MoreSize(background, gap, Graft(list.first, list.tail, r));
  }

  lemma StopSize()
    ensures Size(TreeTail(EMPTY, Stop)) == 0
  {}

  /** The grafted list is written with the same tokens as the two it was made of. */
  lemma {:induction false} GraftWritten(p: ShellSyntax.Pipe, t: Tail, r: List, rest: Tokens)
    requires EndsBare(p, t) && BeginsWithRedirects(r)
    ensures WriteList(Graft(p, t, r), rest) == WriteList(List(p, t), WriteList(r, rest))
    decreases t
  {
    hide WritePipe, GraftPipe, BarePipe, BeginsWithRedirects;
    match t
    case Stop => GraftPipeWritten(p, r, WriteTail(r.tail, rest));
    case Join(_, _, next, more) => GraftWritten(next, more, r, rest);
    case More(_, _, list) => GraftWritten(list.first, list.tail, r, rest);
  }

  lemma {:induction false} GraftPipeWritten(p: ShellSyntax.Pipe, r: List, rest: Tokens)
    requires BarePipe(p) && BeginsWithRedirects(r)
    ensures WritePipe(GraftPipe(p, r), rest) == WritePipe(p, WritePipe(r.first, rest))
  {
    hide WriteCommand, WriteTubes, GraftTubes;
    match p
    case Stages(_, first, stages) => GraftTubesWritten(first, stages, r, rest);
    case Timed(_, _, body) => GraftPipeWritten(body, r, rest);
  }

  lemma {:induction false} GraftTubesWritten(c: Command, s: Tubes, r: List, rest: Tokens)
    requires BareTubes(c, s) && BeginsWithRedirects(r)
    ensures var (d, more) := GraftTubes(c, s, r);
            WriteCommand(d, WriteTubes(more, rest)) == WriteCommand(c, WriteTubes(s, WritePipe(r.first, rest)))
    decreases s
  {
    hide WriteCommand, Redirections;
    match s
    case NoTube =>
      var after := WriteTubes(r.first.stages, rest);
      RedirectWritten(c, Redirections(r), after);
      RedirectionsWritten(r, after);
    case Tube(_, _, next, more) => GraftTubesWritten(next, more, r, rest);
  }

  lemma {:induction false} RedirectWritten(c: Command, rs: seq<ShellSyntax.Redirect>, rest: Tokens)
    requires BareFunction(c)
    ensures WriteCommand(Redirect(c, rs), rest) == WriteCommand(c, WriteRedirects(rs, rest))
  {
    hide WriteBody;
    if c.definition.Function? { RedirectWritten(c.definition, rs, rest); }
  }

  lemma RedirectionsWritten(r: List, rest: Tokens)
    requires BeginsWithRedirects(r)
    ensures WriteRedirects(Redirections(r), rest) == WritePipe(r.first.(stages := NoTube), rest)
  {
    ItemsWritten(r.first.first.items, Redirections(r), rest);
  }

  lemma {:induction false} ItemsWritten(items: seq<Item>, rs: seq<ShellSyntax.Redirect>, rest: Tokens)
    requires |items| == |rs| && forall i :: 0 <= i < |items| ==> items[i] == Redirected(rs[i])
    ensures WriteRedirects(rs, rest) == WriteItems(items, rest)
  {
    if items != [] { ItemsWritten(items[1..], rs[1..], rest); }
  }

  // ---- the theorem ----

  /** Rewriting makes a tree larger, or does not touch the phrase at all. */
  ghost predicate Grows<T>(plain: bool, before: T, after: T, size: nat, size': nat) {
    if plain then before == after else size < size'
  }

  lemma {:induction false} GrowsList(l: List)
    ensures Grows(PlainList(l), l, MeantList(l), Size(TreeList(l)), Size(TreeList(MeantList(l))))
    decreases l, 0
  {
    hide Size, TreeList, TreePipe, TreeTail, MeantPipe, MeantTail, PlainPipe, PlainTail;
    GrowsPipe(l.first);
    GrowsTail(l.tail);
    ListSize(l);
    ListSize(MeantList(l));
  }

  lemma {:induction false} GrowsTail(t: Tail)
    ensures Grows(PlainTail(t), t, MeantTail(t), Size(TreeTail(EMPTY, t)), Size(TreeTail(EMPTY, MeantTail(t))))
    decreases t, 0
  {
    hide Size, TreeList, TreePipe, TreeTail, MeantPipe, MeantList, PlainPipe, PlainList;
    match t
    case Stop =>
    case Join(isAnd, gap, next, more) =>
      GrowsPipe(next);
      GrowsTail(more);
      JoinSize(isAnd, gap, next, more);
      JoinSize(isAnd, gap, MeantPipe(next), MeantTail(more));
    case Close(_, _) =>
    case More(background, gap, list) =>
      GrowsList(list);
      MoreSize(background, gap, list);
      MoreSize(background, gap, MeantList(list));
  }

  lemma {:induction false} GrowsPipe(p: ShellSyntax.Pipe)
    ensures Grows(PlainPipe(p), p, MeantPipe(p), Size(TreePipe(p)), Size(TreePipe(MeantPipe(p))))
    decreases p, 0
  {
    hide Size, Sizes, TreePipe, TreeCommand, TreeTubes, MeantCommand, MeantTubes, PlainCommand, PlainTubes, Denied;
    match p
    case Stages(bangs, first, stages) =>
      GrowsCommand(first);
      GrowsTubes(stages);
      SameTubes(stages);
      PipeSize(bangs, first, stages);
      PipeSize(bangs, MeantCommand(first), MeantTubes(stages));
    case Timed(bangs, posix, body) =>
      GrowsPipe(body);
      TimedSize(bangs, posix, body);
      TimedSize(bangs, posix, MeantPipe(body));
      if bangs % 2 == 1 {
        var inner := Entry(List(MeantPipe(body), Stop), [], NoEntry);
        TimedSize(0, posix, Denied(inner));
        DeniedSize(inner);
        EntrySize(List(MeantPipe(body), Stop), [], NoEntry);
        ListSize(List(MeantPipe(body), Stop));
        StopSize();
        NoEntrySize();
      }
    case TimedNothing(bangs, posix) =>
      NothingSize(bangs, posix);
      if bangs % 2 == 1 {
        TimedSize(0, posix, Denied(NoEntry));
        DeniedSize(NoEntry);
      }
  }

  lemma NothingSize(bangs: nat, posix: bool)
    ensures Size(TreePipe(TimedNothing(bangs, posix))) == 0
  {}

  lemma NoEntrySize()
    ensures Sizes(TreeEntries(NoEntry)) == 0
  {}

  lemma SameTubes(s: Tubes)
    ensures MeantTubes(s).NoTube? <==> s.NoTube?
  {}

  lemma DeniedSize(es: Entries)
    ensures Size(TreePipe(Denied(es))) == 1 + Sizes(TreeEntries(es))
  {
    hide TreeEntries, TreeBlock, Sizes;
    var group := Compound(Group(Block([], es)), []);
    PipeSize(1, group, NoTube);
    NoTubeSize();
    BlockSize(Block([], es));
    assert TreeCommand(group) == BraceGroup(TreeBlock(Block([], es)));
  }

  lemma {:induction false} GrowsTubes(s: Tubes)
    ensures Grows(PlainTubes(s), s, MeantTubes(s), Sizes(TreeTubes(s)), Sizes(TreeTubes(MeantTubes(s))))
    decreases s, 0
  {
    hide Size, Sizes, TreeCommand, TreeTubes, MeantCommand, PlainCommand;
    match s
    case NoTube =>
    case Tube(both, gap, next, more) =>
      GrowsCommand(next);
      GrowsTubes(more);
      TubesSize(both, gap, next, more);
      TubesSize(both, gap, MeantCommand(next), MeantTubes(more));
  }

  lemma {:induction false} GrowsCommand(c: Command)
    ensures Grows(PlainCommand(c), c, MeantCommand(c), Size(TreeCommand(c)), Size(TreeCommand(MeantCommand(c))))
    decreases c, 0
  {
    hide TreeBody, MeantBody, PlainBody, Assignments, Arguments, Redirects;
    match c
    case Simple(_) =>
    case Compound(body, _) => GrowsBody(body);
    case Function(_, _, _, definition) => GrowsCommand(definition);
  }

  lemma {:induction false} GrowsBody(b: Body)
    ensures Grows(PlainBody(b), b, MeantBody(b), Size(TreeBody(b)), Size(TreeBody(MeantBody(b))))
    decreases b, 1
  {
    hide Size, TreeBody, MeantBody, PlainBody;
    match b
    case If(_, _, _) => GrowsIf(b);
    case While(_, _, _) => GrowsLoop(b);
    case For(_, _, _, _, _) => GrowsLoop(b);
    case ArithmeticFor(_, _, _, _) => GrowsLoop(b);
    case _ => GrowsOther(b);
  }

  lemma {:induction false} GrowsLoop(b: Body)
    requires b.While? || b.For? || b.ArithmeticFor?
    ensures Grows(PlainBody(b), b, MeantBody(b), Size(TreeBody(b)), Size(TreeBody(MeantBody(b))))
    decreases b, 0
  {
    hide TreeBlock, MeantBlock, PlainBlock;
    GrowsBlock(b.body);
    if b.While? { GrowsBlock(b.condition); }
  }

  lemma {:induction false} GrowsOther(b: Body)
    requires !b.If? && !b.While? && !b.For? && !b.ArithmeticFor?
    ensures Grows(PlainBody(b), b, MeantBody(b), Size(TreeBody(b)), Size(TreeBody(MeantBody(b))))
    decreases b, 0
  {
    hide TreeBlock, MeantBlock, PlainBlock, TreeCommand, MeantCommand, PlainCommand, TreeCases, MeantCases, PlainCases, TreeOr, BranchSizes;
    match b
    case Coprocess(_, command) => GrowsCommand(command);
    case Case(_, _, _, cases) => GrowsCases(cases);
    case Group(body) => GrowsBlock(body);
    case Subshell(body) => GrowsBlock(body);
    case _ =>
  }

  lemma IfTree(c: Block, t: Block, a: Alternative)
    ensures TreeBody(If(c, t, a)) ==
            if a.Elif? then TreeBranches(TreeBlock(a.condition), TreeBlock(a.consequent), a.alternative)
            else TreeBranches(TreeBlock(c), TreeBlock(t), a)
  {
    hide TreeBlock, TreeBranches;
  }

  lemma {:induction false} GrowsIf(b: Body)
    requires b.If?
    ensures Grows(PlainBody(b), b, MeantBody(b), Size(TreeBody(b)), Size(TreeBody(MeantBody(b))))
    decreases b, 0
  {
    hide Size, TreeBody, TreeBlock, TreeBranches, MeantBlock, MeantAlternative, PlainBlock;
    var c, t, a := b.condition, b.consequent, b.alternative;
    GrowsBlock(c);
    GrowsBlock(t);
    GrowsAlternative(a);
    IfTree(c, t, a);
    IfTree(MeantBlock(c), MeantBlock(t), MeantAlternative(a));
    BranchesSize(TreeBlock(c), TreeBlock(t), a);
    BranchesSize(TreeBlock(MeantBlock(c)), TreeBlock(MeantBlock(t)), MeantAlternative(a));
    if a.Elif? {
      BranchesSize(TreeBlock(a.condition), TreeBlock(a.consequent), a.alternative);
      ElifSize(a);
    }
  }

  lemma ElifSize(a: Alternative)
    requires a.Elif?
    ensures Size(TreeBranches(EMPTY, EMPTY, a)) == 1 + Size(TreeBranches(TreeBlock(a.condition), TreeBlock(a.consequent), a.alternative))
  {
    hide TreeBlock;
  }

  lemma ElseSize(b: Block)
    ensures Size(TreeBranches(EMPTY, EMPTY, Else(b))) == 1 + Size(TreeBlock(b))
  {
    hide TreeBlock;
  }

  lemma OnlySize(c: Command)
    ensures Size(TreeBlock(Block([], Only(c)))) == Size(TreeCommand(c))
  {
    hide Size, Sizes, TreeCommand, TreeBlock, TreeEntries, TreeList, TreeTail, TreePipe;
    var l := List(Stages(0, c, NoTube), Stop);
    BlockSize(Block([], Only(c)));
    EntrySize(l, [], NoEntry);
    NoEntrySize();
    ListSize(l);
    StopSize();
    PipeSize(0, c, NoTube);
    NoTubeSize();
  }

  lemma {:induction false} GrowsAlternative(a: Alternative)
    ensures PlainAlternative(a) ==> MeantAlternative(a) == a
    ensures Size(TreeBranches(EMPTY, EMPTY, a)) <= Size(TreeBranches(EMPTY, EMPTY, MeantAlternative(a)))
    ensures !PlainAlternative(a) && !a.Elif? ==> Size(TreeBranches(EMPTY, EMPTY, a)) < Size(TreeBranches(EMPTY, EMPTY, MeantAlternative(a)))
    decreases a, 0
  {
    hide Size, TreeBlock, TreeBranches, MeantBlock, PlainBlock, TreeBody, Only;
    match a
    case Fi =>
    case Else(body) =>
      GrowsBlock(body);
      ElseSize(body);
      ElseSize(MeantBlock(body));
    case Elif(c, t, more) =>
      GrowsBlock(c);
      GrowsBlock(t);
      GrowsAlternative(more);
      ElifSize(a);
      BranchesSize(TreeBlock(c), TreeBlock(t), more);
      var inner := If(MeantBlock(c), MeantBlock(t), MeantAlternative(more));
      ElseSize(Block([], Only(Compound(inner, []))));
      OnlySize(Compound(inner, []));
      IfTree(MeantBlock(c), MeantBlock(t), MeantAlternative(more));
      BranchesSize(TreeBlock(MeantBlock(c)), TreeBlock(MeantBlock(t)), MeantAlternative(more));
      assert TreeCommand(Compound(inner, [])) == TreeBody(inner);
  }

  lemma {:induction false} GrowsBlock(b: Block)
    ensures Grows(PlainBlock(b), b, MeantBlock(b), Size(TreeBlock(b)), Size(TreeBlock(MeantBlock(b))))
    decreases b, 0
  {
    hide Size, Sizes, TreeBlock, TreeEntries, MeantEntries, PlainEntries;
    GrowsEntries(b.entries);
    BlockSize(b);
    BlockSize(MeantBlock(b));
  }

  lemma {:induction false} GrowsEntries(es: Entries)
    ensures Grows(PlainEntries(es), es, MeantEntries(es), Sizes(TreeEntries(es)), Sizes(TreeEntries(MeantEntries(es))))
    decreases es, 0
  {
    hide Size, Sizes, TreeEntries, TreeList, MeantList, PlainList, EndsBare, BeginsWithRedirects, Graft;
    match es
    case NoEntry =>
    case Entry(list, gap, more) =>
      GrowsList(list);
      GrowsEntries(more);
      EntrySize(list, gap, more);
      var l, rest := MeantList(list), MeantEntries(more);
      if Belong(l, gap, rest) {
        GraftSize(l.first, l.tail, rest.list);
        EntrySize(rest.list, rest.gap, rest.more);
        EntrySize(Graft(l.first, l.tail, rest.list), rest.gap, rest.more);
      } else {
        EntrySize(l, gap, rest);
      }
  }

  lemma {:induction false} GrowsCases(cs: Cases)
    ensures Grows(PlainCases(cs), cs, MeantCases(cs), BranchSizes(TreeCases(cs)), BranchSizes(TreeCases(MeantCases(cs))))
    decreases cs, 0
  {
    hide Size, TreeList, MeantList, PlainList;
    match cs
    case NoCase =>
    case Cases(first, gap, more) =>
      if first.body.Some? { GrowsList(first.body.value); }
      GrowsCases(more);
      assert TreeCases(cs)[1..] == TreeCases(more);
      assert TreeCases(MeantCases(cs))[1..] == TreeCases(MeantCases(more));
  }

  /**
   The trees the parser answers for a script are the trees of what the script means if and only if it
   has, at any depth, no `elif`, no `time` behind an odd number of exclamation marks and no redirection
   right behind a function's group or subshell.
   */
  lemma ReadAsWrittenExactly(lex: Lexicon, ts: Tokens)
    requires P.ParseScript(lex, ts).Some?
    ensures var b := P.ParseScript(lex, ts).value;
            TreeEntries(b.entries) == TreeEntries(MeantBlock(b).entries) <==> PlainBlock(b)
  {
    hide P.ParseScript, TreeEntries, MeantEntries, PlainEntries, Sizes;
    GrowsEntries(P.ParseScript(lex, ts).value.entries);
  }
}
