/**
 What the compiler emits, as a function of the statement and its context.

 Code inside a loop is first a sequence of cells: finished instructions, and holes for the
 jumps that cannot be resolved until the loop ends. `Fill` resolves every hole; an
 unresolved hole reads as a jump to 0, which is what the compiler emits before patching.
 */
module PythonLayout {
  import opened PythonSource
  import opened PythonMachine

  datatype Kind = BreakHole | ContinueHole | ExitHole

  datatype Cell = Fixed(instr: Instr) | Hole(kind: Kind, op: OpCode)

  datatype Targets = Targets(brk: nat, cont: nat, exit: nat) {
    function For(kind: Kind): nat {
      match kind
      case BreakHole => brk
      case ContinueHole => cont
      case ExitHole => exit
    }
    function With(kind: Kind, target: nat): Targets {
      match kind
      case BreakHole => this.(brk := target)
      case ContinueHole => this.(cont := target)
      case ExitHole => this.(exit := target)
    }
  }

  const UNPATCHED := Targets(0, 0, 0)

  function FillCell(c: Cell, t: Targets): Instr {
    match c
    case Fixed(i) => i
    case Hole(kind, op) => Instr(op, t.For(kind))
  }

  function Fill(cells: seq<Cell>, t: Targets): (code: seq<Instr>)
    ensures |code| == |cells|
    ensures forall k :: 0 <= k < |cells| ==> code[k] == FillCell(cells[k], t)
  {
    seq(|cells|, k requires 0 <= k < |cells| => FillCell(cells[k], t))
  }

  function Lift(code: seq<Instr>): (cells: seq<Cell>)
    ensures |cells| == |code|
    ensures forall k :: 0 <= k < |code| ==> cells[k] == Fixed(code[k])
  {
    seq(|code|, k requires 0 <= k < |code| => Fixed(code[k]))
  }

  function One(op: OpCode, operand: nat): seq<Instr> {
    [Instr(op, operand)]
  }

  // ---- expressions ----

  function ExprCode(e: Expr, at: nat): (code: seq<Instr>)
    decreases e, 1
  {
    match e
    case Const(v) => One(LoadConst(v), 0)
    case Name(x) => One(LoadLocal(x), 0)
    case Binary(op, l, r) =>
      var a := ExprCode(l, at);
      a + ExprCode(r, at + |a|) + One(BinaryOp(op), 0)
    case Unary(op, o) => ExprCode(o, at) + One(UnaryOp(op), 0)
    case BoolOp(isAnd, head, tail) =>
      var a := ExprCode(head, at);
      var cells := BoolCells(isAnd, tail, at + |a|);
      a + Fill(cells, UNPATCHED.(exit := at + |a| + |cells|))
    case Compare(l, links) =>
      var a := ExprCode(l, at);
      if links == [] then a else
      var cells := ChainCells(links, at + |a|);
      if |links| == 1 then a + Fill(cells, UNPATCHED) else
      var exit := at + |a| + |cells| + 1;
      a + Fill(cells, UNPATCHED.(exit := exit)) + One(Jump, exit + 2) + One(Swap, 0) + One(Pop, 0)
    case Conditional(test, body, orElse) =>
      var t := ExprCode(test, at);
      var b := ExprCode(body, at + |t| + 1);
      var elseAt := at + |t| + 1 + |b| + 1;
      var o := ExprCode(orElse, elseAt);
      t + One(JumpIfFalse, elseAt) + b + One(Jump, elseAt + |o|) + o
    case Call(callee, arguments) =>
      var a := ExprCode(callee, at);
      a + AllCode(arguments, at + |a|) + One(CallOp, |arguments|)
    case NamedExpr(x, bound) => ExprCode(bound, at) + One(Duplicate, 0) + One(StoreLocal(x), 0)
  }

  function ShortCircuit(isAnd: bool): OpCode {
    if isAnd then JumpIfFalseOrPop else JumpIfTrueOrPop
  }

  function BoolCells(isAnd: bool, tail: seq<Expr>, at: nat): seq<Cell>
    decreases tail, 0
  {
    if tail == [] then [] else
    var a := ExprCode(tail[0], at + 1);
    [Hole(ExitHole, ShortCircuit(isAnd))] + Lift(a) + BoolCells(isAnd, tail[1..], at + 1 + |a|)
  }

  function ChainCells(links: seq<Link>, at: nat): seq<Cell>
    decreases links, 0
  {
    if links == [] then [] else
    var a := ExprCode(links[0].operand, at);
    if |links| == 1 then Lift(a + One(CompareOp(links[0].op), 0)) else
    Lift(a + One(Duplicate, 0) + One(RotateThree, 0) + One(CompareOp(links[0].op), 0))
    + [Hole(ExitHole, JumpIfFalseOrPop)] + ChainCells(links[1..], at + |a| + 4)
  }

  function AllCode(es: seq<Expr>, at: nat): seq<Instr>
    decreases es, 0
  {
    if es == [] then [] else
    var a := ExprCode(es[0], at);
    a + AllCode(es[1..], at + |a|)
  }

  // ---- statements ----

  /** Cleanup owed by an enclosing `finally`, and how many loops enclosed it. */
  datatype Fin = Cleanup(body: Stmt, depth: nat) | Handler(depth: nat)

  /** The enclosing loops (does each keep an iterator on the stack), cleanups and waiting returns. */
  datatype Context = Context(iterators: seq<bool>, fins: seq<Fin>, pending: nat) {
    function InLoop(hasIterator: bool): Context {
      this.(iterators := iterators + [hasIterator])
    }
    function Under(fin: Fin): Context {
      this.(fins := fins + [fin])
    }
    function Outer(): Context
      requires fins != []
    {
      this.(fins := fins[..|fins| - 1])
    }
    function Innermost(): Fin
      requires fins != []
    {
      fins[|fins| - 1]
    }
    /** Is the innermost cleanup one that this jump (or, for `all`, a return) must run? */
    predicate MustRun(all: bool) {
      fins != [] && (all || Innermost().depth == |iterators|)
    }
  }

  const TOP := Context([], [], 0)

  /** A measure that the cleanups of a context still have to be emitted with. */
  function Weight(s: Stmt): (n: nat)
    ensures n >= 1
  {
    match s
    case Seq(head, tail) => Weight(head) + Weight(tail) + 1
    case If(_, body, orElse) => Weight(body) + Weight(orElse) + 1
    case While(_, body, orElse) => Weight(body) + Weight(orElse) + 1
    case For(_, _, body, orElse) => Weight(body) + Weight(orElse) + 1
    case TryFinally(body, cleanup) => Weight(body) + Weight(cleanup) + 2
    case _ => 1
  }

  function FinsWeight(fins: seq<Fin>): nat {
    if fins == [] then 0 else
    FinsWeight(fins[..|fins| - 1]) + (match fins[|fins| - 1] case Cleanup(b, _) => Weight(b) + 1 case Handler(_) => 1)
  }

  lemma FinsWeightUnder(fins: seq<Fin>, fin: Fin)
    ensures FinsWeight(fins + [fin]) == FinsWeight(fins) + (match fin case Cleanup(b, _) => Weight(b) + 1 case Handler(_) => 1)
  {
    assert (fins + [fin])[..|fins + [fin]| - 1] == fins;
  }

  function Cells(s: Stmt, at: nat, c: Context): seq<Cell>
    decreases Weight(s) + FinsWeight(c.fins), 1
  {
    match s
    case End => []
    case Pass => []
    case Seq(head, tail) =>
      var a := Cells(head, at, c);
      a + Cells(tail, at + |a|, c)
    case ExprStmt(e) => Lift(ExprCode(e, at) + One(Pop, 0))
    case Assign(x, e) => Lift(ExprCode(e, at) + One(StoreLocal(x), 0))
    case If(test, body, orElse) =>
      var t := ExprCode(test, at);
      var b := Cells(body, at + |t| + 1, c);
      var elseAt := at + |t| + 1 + |b| + if orElse == End then 0 else 1;
      var o := Cells(orElse, elseAt, c);
      IfShape(t + One(JumpIfFalse, elseAt), b, if orElse == End then [] else One(Jump, elseAt + |o|), o)
    case While(test, body, orElse) =>
      var t := ExprCode(test, at);
      var b := Cells(body, at + |t| + 1, c.InLoop(false));
      var exit := at + |t| + 1 + |b| + 1;
      var o := Cells(orElse, exit, c);
      LoopShape(t + One(JumpIfFalse, exit), b, at, exit, o)
    case For(x, iterable, body, orElse) =>
      var t := ExprCode(iterable, at);
      var top := at + |t| + 1;
      var b := Cells(body, top + 2, c.InLoop(true));
      var exit := top + 2 + |b| + 1;
      var o := Cells(orElse, exit, c);
      LoopShape(t + One(GetIterator, 0) + One(ForIterate, exit) + One(StoreLocal(x), 0), b, top, exit, o)
    case Break =>
      UnwindCells(at, c, false) + Lift(Pops(c.pending + if InFor(c) then 1 else 0)) + [Hole(BreakHole, Jump)]
    case Continue =>
      UnwindCells(at, c, false) + Lift(Pops(c.pending)) + [Hole(ContinueHole, Jump)]
    case Return(e) =>
      var a := ExprCode(e, at);
      Lift(a) + UnwindCells(at + |a|, c.(pending := c.pending + 1), true) + Lift(One(ReturnOp, 0))
    case Raise(e) => Lift(ExprCode(e, at) + One(RaiseOp, 1))
    case RaiseCurrent => Lift(One(RaiseOp, 0))
    case TryFinally(body, cleanup) =>
      FinsWeightUnder(c.fins, Cleanup(cleanup, |c.iterators|));
      FinsWeightUnder(c.fins, Handler(|c.iterators|));
      var b := Cells(body, at + 1, c.Under(Cleanup(cleanup, |c.iterators|)));
      var f := Cells(cleanup, at + 1 + |b| + 1, c);
      var handler := at + 1 + |b| + 1 + |f| + 1;
      var h := Cells(cleanup, handler, c.Under(Handler(|c.iterators|)));
      TryShape(handler, b, f, h)
  }

  /** A `try` around its body, the cleanup inline and the cleanup as the handler. */
  function TryShape(handler: nat, b: seq<Cell>, f: seq<Cell>, h: seq<Cell>): seq<Cell> {
    Lift(One(SetupFinally, handler)) + b + Lift(One(PopBlock, 0)) + f
    + Lift(One(Jump, handler + |h| + 1)) + h + Lift(One(ReRaise, 0))
  }

  /** A loop whose body follows `opening`; its jumps are resolved to its own ends. */
  function LoopShape(opening: seq<Instr>, b: seq<Cell>, top: nat, exit: nat, o: seq<Cell>): seq<Cell> {
    Lift(opening + Fill(b, Targets(exit + |o|, top, 0)) + One(Jump, top)) + o
  }

  function IfShape(test: seq<Instr>, b: seq<Cell>, skip: seq<Instr>, o: seq<Cell>): seq<Cell> {
    Lift(test) + b + Lift(skip) + o
  }

  predicate InFor(c: Context) {
    c.iterators != [] && c.iterators[|c.iterators| - 1]
  }

  function Pops(n: nat): (code: seq<Instr>)
    ensures |code| == n
    ensures forall k :: 0 <= k < n ==> code[k] == Instr(Pop, 0)
  {
    seq(n, k => Instr(Pop, 0))
  }

  /** The cleanups a jump out of `c` runs inline, innermost first. */
  function UnwindCells(at: nat, c: Context, all: bool): seq<Cell>
    decreases FinsWeight(c.fins), 1
  {
    if !c.MustRun(all) then [] else
    var step := UnwindStep(at, c);
    step + UnwindCells(at + |step|, c.Outer(), all)
  }

  /** The innermost cleanup, in the context outside its `try`; a running handler is only ended. */
  function UnwindStep(at: nat, c: Context): seq<Cell>
    requires c.fins != []
    decreases FinsWeight(c.fins), 0
  {
    match c.Innermost()
    case Handler(_) => Lift(One(EndHandler, 0))
    case Cleanup(body, _) => Lift(One(PopBlock, 0)) + Cells(body, at + 1, c.Outer())
  }

  /**
   Compiling `s` outside every loop ends in "'break' outside loop" or its `continue` twin.
   Inside a loop no statement is rejected, because a jump then always finds a loop.
   */
  predicate RejectsOutsideLoops(s: Stmt, fins: seq<Fin>)
    decreases Weight(s) + FinsWeight(fins), 1
  {
    match s
    case Seq(head, tail) => RejectsOutsideLoops(head, fins) || RejectsOutsideLoops(tail, fins)
    case If(_, body, orElse) => RejectsOutsideLoops(body, fins) || RejectsOutsideLoops(orElse, fins)
    case While(_, _, orElse) => RejectsOutsideLoops(orElse, fins)
    case For(_, _, _, orElse) => RejectsOutsideLoops(orElse, fins)
    case Break => true
    case Continue => true
    case Return(_) => UnwindRejects(fins)
    case TryFinally(body, cleanup) =>
      FinsWeightUnder(fins, Cleanup(cleanup, 0));
      FinsWeightUnder(fins, Handler(0));
      || RejectsOutsideLoops(body, fins + [Cleanup(cleanup, 0)])
      || RejectsOutsideLoops(cleanup, fins)
      || RejectsOutsideLoops(cleanup, fins + [Handler(0)])
    case _ => false
  }

  predicate UnwindRejects(fins: seq<Fin>)
    decreases FinsWeight(fins), 0
  {
    fins != [] &&
    var fin, outer := fins[|fins| - 1], fins[..|fins| - 1];
    UnwindRejects(outer) || (fin.Cleanup? && RejectsOutsideLoops(fin.body, outer))
  }

  predicate Rejects(s: Stmt, c: Context) {
    c.iterators == [] && RejectsOutsideLoops(s, c.fins)
  }

  /** Cleanups with no free jump of their own reject nothing. */
  lemma {:induction false} UnwindAccepts(fins: seq<Fin>)
    requires forall i :: 0 <= i < |fins| && fins[i].Cleanup? ==> !FreeJump(fins[i].body)
    ensures !UnwindRejects(fins)
    decreases FinsWeight(fins), 0
  {
    if fins != [] {
      var fin, outer := fins[|fins| - 1], fins[..|fins| - 1];
      UnwindAccepts(outer);
      if fin.Cleanup? { AcceptsWithoutFreeJump(fin.body, outer); }
    }
  }

  lemma {:induction false} AcceptsWithoutFreeJump(s: Stmt, fins: seq<Fin>)
    requires !FreeJump(s)
    requires forall i :: 0 <= i < |fins| && fins[i].Cleanup? ==> !FreeJump(fins[i].body)
    ensures !RejectsOutsideLoops(s, fins)
    decreases Weight(s) + FinsWeight(fins), 1
  {
    match s
    case Seq(head, tail) => AcceptsWithoutFreeJump(head, fins); AcceptsWithoutFreeJump(tail, fins);
    case If(_, body, orElse) => AcceptsWithoutFreeJump(body, fins); AcceptsWithoutFreeJump(orElse, fins);
    case While(_, _, orElse) => AcceptsWithoutFreeJump(orElse, fins);
    case For(_, _, _, orElse) => AcceptsWithoutFreeJump(orElse, fins);
    case Return(_) => UnwindAccepts(fins);
    case TryFinally(body, cleanup) =>
      FinsWeightUnder(fins, Cleanup(cleanup, 0));
      FinsWeightUnder(fins, Handler(0));
      AcceptsWithoutFreeJump(body, fins + [Cleanup(cleanup, 0)]);
      AcceptsWithoutFreeJump(cleanup, fins);
      AcceptsWithoutFreeJump(cleanup, fins + [Handler(0)]);
    case _ =>
  }

  lemma {:induction false} FreeJumpRejected(s: Stmt, fins: seq<Fin>)
    requires FreeJump(s)
    ensures RejectsOutsideLoops(s, fins)
    decreases s
  {
    match s
    case Seq(head, tail) => if FreeJump(head) { FreeJumpRejected(head, fins); } else { FreeJumpRejected(tail, fins); }
    case If(_, body, orElse) => if FreeJump(body) { FreeJumpRejected(body, fins); } else { FreeJumpRejected(orElse, fins); }
    case While(_, _, orElse) => FreeJumpRejected(orElse, fins);
    case For(_, _, _, orElse) => FreeJumpRejected(orElse, fins);
    case TryFinally(body, cleanup) =>
      if FreeJump(body) { FreeJumpRejected(body, fins + [Cleanup(cleanup, 0)]); } else { FreeJumpRejected(cleanup, fins); }
    case _ =>
  }

  /** A module or function body is rejected exactly when some `break` or `continue` has no loop. */
  lemma RejectedExactlyOutsideLoops(s: Stmt)
    ensures Rejects(s, TOP) <==> FreeJump(s)
  {
    if FreeJump(s) { FreeJumpRejected(s, []); } else { AcceptsWithoutFreeJump(s, []); }
  }
}
