/**
 Expression code computes the source value: from any frame, running the code of `e` ends at
 the next instruction with exactly that value pushed and everything beneath untouched, or
 throws the exception that evaluating `e` raises. Worlds are compared too, so an operand is
 evaluated at most once, in order, and not at all when short-circuited away.
 */
module PythonExpressions {
  import opened PythonSource
  import opened PythonMachine
  import opened PythonLayout
  import opened PythonSteps

  lemma FillConcat(a: seq<Cell>, b: seq<Cell>, t: Targets)
    ensures Fill(a + b, t) == Fill(a, t) + Fill(b, t)
  {}

  lemma FillLift(code: seq<Instr>, t: Targets)
    ensures Fill(Lift(code), t) == code
  {}

  lemma {:induction false} RunExpr(rt: Runtime, code: seq<Instr>, e: Expr, f: Frame) returns (n: nat)
    requires At(code, f.pc, ExprCode(e, f.pc))
    requires DepthsWithin(f.blocks, |f.stack|)
    ensures n > 0
    ensures RunFor(rt, code, Running(f), n) == Result(f, f.pc + |ExprCode(e, f.pc)|, Eval(rt, e, f.world))
    decreases e, 1
  {
    hide RunFor, StepMachine, At, ExprCode, Eval;
    match e
    case Const(_) => n := RunLeaf(rt, code, e, f);
    case Name(_) => n := RunLeaf(rt, code, e, f);
    case Binary(_, _, _) => n := RunBinary(rt, code, e, f);
    case Unary(_, _) => n := RunUnary(rt, code, e, f);
    case BoolOp(_, _, _) => n := RunBoolOp(rt, code, e, f);
    case Compare(_, _) => n := RunCompare(rt, code, e, f);
    case Conditional(_, _, _) => n := RunConditional(rt, code, e, f);
    case Call(_, _) => n := RunCall(rt, code, e, f);
    case NamedExpr(_, _) => n := RunNamed(rt, code, e, f);
  }

  lemma RunLeaf(rt: Runtime, code: seq<Instr>, e: Expr, f: Frame) returns (n: nat)
    requires e.Const? || e.Name?
    requires At(code, f.pc, ExprCode(e, f.pc))
    ensures n > 0
    ensures RunFor(rt, code, Running(f), n) == Result(f, f.pc + |ExprCode(e, f.pc)|, Eval(rt, e, f.world))
  {
    hide RunFor, StepMachine, At;
    if e.Const? {
      Fetch(code, f.pc, LoadConst(e.value), 0);
    } else {
      Fetch(code, f.pc, LoadLocal(e.id), 0);
    }
    RunOnce(rt, code, Running(f));
    StepLoad(rt, code, f);
    n := 1;
  }

  lemma {:induction false} RunUnary(rt: Runtime, code: seq<Instr>, e: Expr, f: Frame) returns (n: nat)
    requires e.Unary?
    requires At(code, f.pc, ExprCode(e, f.pc))
    requires DepthsWithin(f.blocks, |f.stack|)
    ensures n > 0
    ensures RunFor(rt, code, Running(f), n) == Result(f, f.pc + |ExprCode(e, f.pc)|, Eval(rt, e, f.world))
    decreases e, 0
  {
    hide RunFor, StepMachine, At;
    var a := ExprCode(e.operand, f.pc);
    AtSplit(code, f.pc, a, One(UnaryOp(e.op), 0));
    n := RunExpr(rt, code, e.operand, f);
    var r := Eval(rt, e.operand, f.world);
    if r.Ok? {
      RunOneMore(rt, code, Running(f), n);
      StepUnary(rt, code, e.op, r.value, f.(pc := f.pc + |a|, world := r.world));
      n := n + 1;
    }
  }

  lemma {:induction false} RunBoolOp(rt: Runtime, code: seq<Instr>, e: Expr, f: Frame) returns (n: nat)
    requires e.BoolOp?
    requires At(code, f.pc, ExprCode(e, f.pc))
    requires DepthsWithin(f.blocks, |f.stack|)
    ensures n > 0
    ensures RunFor(rt, code, Running(f), n) == Result(f, f.pc + |ExprCode(e, f.pc)|, Eval(rt, e, f.world))
    decreases e, 0
  {
    hide RunFor, StepMachine, At, BoolCells, EvalBool, Fill;
    var a := ExprCode(e.head, f.pc);
    var cells := BoolCells(e.isAnd, e.tail, f.pc + |a|);
    var exit := f.pc + |a| + |cells|;
    AtSplit(code, f.pc, a, Fill(cells, UNPATCHED.(exit := exit)));
    n := RunExpr(rt, code, e.head, f);
    var r := Eval(rt, e.head, f.world);
    if r.Ok? {
      var m := RunBool(rt, code, e.isAnd, e.tail, r.value, f.(pc := f.pc + |a|, world := r.world), exit);
      RunForAdd(rt, code, Running(f), n, m);
      n := n + m;
    }
  }

  lemma {:induction false} RunNamed(rt: Runtime, code: seq<Instr>, e: Expr, f: Frame) returns (n: nat)
    requires e.NamedExpr?
    requires At(code, f.pc, ExprCode(e, f.pc))
    requires DepthsWithin(f.blocks, |f.stack|)
    ensures n > 0
    ensures RunFor(rt, code, Running(f), n) == Result(f, f.pc + |ExprCode(e, f.pc)|, Eval(rt, e, f.world))
    decreases e, 0
  {
    hide RunFor, StepMachine, At;
    var a := ExprCode(e.bound, f.pc);
    AtSplit(code, f.pc, a + One(Duplicate, 0), One(StoreLocal(e.target), 0));
    AtSplit(code, f.pc, a, One(Duplicate, 0));
    n := RunExpr(rt, code, e.bound, f);
    var r := Eval(rt, e.bound, f.world);
    if r.Ok? {
      var g := f.(pc := f.pc + |a|, world := r.world);
      RunOneMore(rt, code, Running(f), n);
      StepDuplicate(rt, code, r.value, g);
      RunOneMore(rt, code, Running(f), n + 1);
      StepStore(rt, code, e.target, r.value, g.(pc := g.pc + 1, stack := f.stack + [r.value]));
      n := n + 2;
    }
  }

  lemma {:induction false} RunBinary(rt: Runtime, code: seq<Instr>, e: Expr, f: Frame) returns (n: nat)
    requires e.Binary?
    requires At(code, f.pc, ExprCode(e, f.pc))
    requires DepthsWithin(f.blocks, |f.stack|)
    ensures n > 0
    ensures RunFor(rt, code, Running(f), n) == Result(f, f.pc + |ExprCode(e, f.pc)|, Eval(rt, e, f.world))
    decreases e, 0
  {
    hide RunFor, StepMachine, At;
    var a := ExprCode(e.left, f.pc);
    var b := ExprCode(e.right, f.pc + |a|);
    AtSplit(code, f.pc, a + b, One(BinaryOp(e.op), 0));
    AtSplit(code, f.pc, a, b);
    n := RunExpr(rt, code, e.left, f);
    var l := Eval(rt, e.left, f.world);
    if l.Ok? {
      var m := RunExpr(rt, code, e.right, f.(pc := f.pc + |a|, stack := f.stack + [l.value], world := l.world));
      RunForAdd(rt, code, Running(f), n, m);
      n := n + m;
      var r := Eval(rt, e.right, l.world);
      if r.Ok? {
        RunOneMore(rt, code, Running(f), n);
        StepBinary(rt, code, e.op, l.value, r.value, f.(pc := f.pc + |a| + |b|, world := r.world));
        n := n + 1;
      } else {
        ThrowIgnoresTop(f.stack, [l.value], f.blocks, f.current, r.world, r.exn);
      }
    }
  }

  /** `f` is the frame beneath the value `v` that the operands so far have left on the stack. */
  lemma {:induction false} RunBool(rt: Runtime, code: seq<Instr>, isAnd: bool, tail: seq<Expr>, v: Value, f: Frame, exit: nat) returns (n: nat)
    requires At(code, f.pc, Fill(BoolCells(isAnd, tail, f.pc), UNPATCHED.(exit := exit)))
    requires exit == f.pc + |BoolCells(isAnd, tail, f.pc)|
    requires DepthsWithin(f.blocks, |f.stack|)
    ensures RunFor(rt, code, Running(f.(stack := f.stack + [v])), n) == Result(f, exit, EvalBool(rt, isAnd, v, tail, f.world))
    decreases tail, 0
  {
    hide RunFor, StepMachine, At, ExprCode, Eval, Fill;
    var start := Running(f.(stack := f.stack + [v]));
    RunOnce(rt, code, start);
    n := 0;
    if tail != [] {
      var t := UNPATCHED.(exit := exit);
      var a := ExprCode(tail[0], f.pc + 1);
      var rest := BoolCells(isAnd, tail[1..], f.pc + 1 + |a|);
      BoolFill(isAnd, a, rest, t);
      AtSplit(code, f.pc, One(ShortCircuit(isAnd), exit) + a, Fill(rest, t));
      AtSplit(code, f.pc, One(ShortCircuit(isAnd), exit), a);
      StepShortCircuit(rt, code, isAnd, exit, v, f);
      n := 1;
      var truth := rt.truthy(v, f.world);
      if truth.Ok? && truth.value == isAnd {
        var m := RunExpr(rt, code, tail[0], f.(pc := f.pc + 1, world := truth.world));
        RunForAdd(rt, code, start, n, m);
        n := n + m;
        var r := Eval(rt, tail[0], truth.world);
        if r.Ok? {
          var k := RunBool(rt, code, isAnd, tail[1..], r.value, f.(pc := f.pc + 1 + |a|, world := r.world), exit);
          RunForAdd(rt, code, start, n, k);
          n := n + k;
        }
      }
    }
  }

  lemma BoolFill(isAnd: bool, a: seq<Instr>, rest: seq<Cell>, t: Targets)
    ensures Fill([Hole(ExitHole, ShortCircuit(isAnd))] + Lift(a) + rest, t) == One(ShortCircuit(isAnd), t.exit) + a + Fill(rest, t)
  {}

  lemma {:induction false} RunCompare(rt: Runtime, code: seq<Instr>, e: Expr, f: Frame) returns (n: nat)
    requires e.Compare?
    requires At(code, f.pc, ExprCode(e, f.pc))
    requires DepthsWithin(f.blocks, |f.stack|)
    ensures n > 0
    ensures RunFor(rt, code, Running(f), n) == Result(f, f.pc + |ExprCode(e, f.pc)|, Eval(rt, e, f.world))
    decreases e, 0
  {
    hide RunFor, StepMachine, At, ChainCells;
    var links := e.links;
    if links == [] {
      n := RunExpr(rt, code, e.left, f);
    } else {
      var a := ExprCode(e.left, f.pc);
      var cells := ChainCells(links, f.pc + |a|);
      var exit := if |links| == 1 then 0 else f.pc + |a| + |cells| + 1;
      var t := UNPATCHED.(exit := exit);
      if |links| > 1 {
        var pad := One(Jump, exit + 2) + One(Swap, 0) + One(Pop, 0);
        assert a + Fill(cells, t) + One(Jump, exit + 2) + One(Swap, 0) + One(Pop, 0) == a + Fill(cells, t) + pad;
        AtSplit(code, f.pc, a + Fill(cells, t), pad);
      }
      AtSplit(code, f.pc, a, Fill(cells, t));
      n := RunExpr(rt, code, e.left, f);
      var l := Eval(rt, e.left, f.world);
      if l.Ok? {
        var m := RunChain(rt, code, links, l.value, f.(pc := f.pc + |a|, world := l.world), exit);
        RunForAdd(rt, code, Running(f), n, m);
        n := n + m;
      }
    }
  }

  /** The jump over a chain's landing pad, and the pad, which drops the left-over operand. */
  predicate PadAt(code: seq<Instr>, exit: nat) {
    exit > 0 && At(code, exit - 1, One(Jump, exit + 2) + One(Swap, 0) + One(Pop, 0))
  }

  /** The address after a chain: past the landing pad, when there is one. */
  function ChainEnd(links: seq<Link>, at: nat, exit: nat): nat {
    if exit == 0 then at + |ChainCells(links, at)| else exit + 2
  }

  /** Runs the links of a chain whose left operand `a` is on top of `f`. */
  lemma {:induction false} RunChain(rt: Runtime, code: seq<Instr>, links: seq<Link>, a: Value, f: Frame, exit: nat) returns (n: nat)
    requires links != []
    requires At(code, f.pc, Fill(ChainCells(links, f.pc), UNPATCHED.(exit := exit)))
    requires DepthsWithin(f.blocks, |f.stack|)
    requires if exit == 0 then |links| == 1 else exit == f.pc + |ChainCells(links, f.pc)| + 1 && PadAt(code, exit)
    ensures RunFor(rt, code, Running(f.(stack := f.stack + [a])), n)
         == Result(f, ChainEnd(links, f.pc, exit), EvalChain(rt, a, links, f.world))
    decreases links, 1
  {
    hide RunFor, StepMachine, At, ChainCells, ExprCode, Eval, Throw;
    var start := Running(f.(stack := f.stack + [a]));
    var t := UNPATCHED.(exit := exit);
    var x := ExprCode(links[0].operand, f.pc);
    var last := |links| == 1;
    var work := LinkCode(last, links[0].op);
    var rest := if last then [] else [Hole(ExitHole, JumpIfFalseOrPop)] + ChainCells(links[1..], f.pc + |x| + 4);
    ChainFill(links, f.pc, t);
    AtSplit(code, f.pc, x + work, Fill(rest, t));
    AtSplit(code, f.pc, x, work);
    n := RunExpr(rt, code, links[0].operand, f.(stack := f.stack + [a]));
    var r := Eval(rt, links[0].operand, f.world);
    if r.Err? {
      ThrowIgnoresTop(f.stack, [a], f.blocks, f.current, r.world, r.exn);
    } else {
      var b := r.value;
      var m := RunLink(rt, code, last, links[0].op, a, b, f.(pc := f.pc + |x|, world := r.world));
      RunForAdd(rt, code, start, n, m);
      n := n + m;
      var c := rt.compare(links[0].op, a, b, r.world);
      if c.Err? {
        if !last { ThrowIgnoresTop(f.stack, [b], f.blocks, f.current, c.world, c.exn); }
      } else if !last {
        var k := RunLinkExit(rt, code, links, b, c.value, f.(pc := f.pc + |x| + 3, world := c.world), exit);
        RunForAdd(rt, code, start, n, k);
        n := n + k;
      } else if exit != 0 {
        AtSplit(code, exit - 1, One(Jump, exit + 2) + One(Swap, 0), One(Pop, 0));
        AtSplit(code, exit - 1, One(Jump, exit + 2), One(Swap, 0));
        RunOneMore(rt, code, start, n);
        StepJump(rt, code, exit + 2, f.(pc := exit - 1, stack := f.stack + [c.value], world := c.world));
        n := n + 1;
      }
    }
  }

  function LinkCode(last: bool, op: string): seq<Instr> {
    if last then One(CompareOp(op), 0) else One(Duplicate, 0) + One(RotateThree, 0) + One(CompareOp(op), 0)
  }

  lemma ChainFill(links: seq<Link>, at: nat, t: Targets)
    requires links != []
    ensures var x := ExprCode(links[0].operand, at);
            var last := |links| == 1;
            var rest := if last then [] else [Hole(ExitHole, JumpIfFalseOrPop)] + ChainCells(links[1..], at + |x| + 4);
            && Fill(ChainCells(links, at), t) == x + LinkCode(last, links[0].op) + Fill(rest, t)
            && |ChainCells(links, at)| == |x| + |LinkCode(last, links[0].op)| + |rest|
  {
    var x := ExprCode(links[0].operand, at);
    if |links| > 1 {
      var rest := [Hole(ExitHole, JumpIfFalseOrPop)] + ChainCells(links[1..], at + |x| + 4);
      var operands := x + LinkCode(false, links[0].op);
      assert x + One(Duplicate, 0) + One(RotateThree, 0) + One(CompareOp(links[0].op), 0) == operands;
      assert ChainCells(links, at) == Lift(operands) + rest;
      FillConcat(Lift(operands), rest, t);
      FillLift(operands, t);
    }
  }

  /** The comparison itself, with its right operand kept underneath unless it is the last. */
  lemma RunLink(rt: Runtime, code: seq<Instr>, last: bool, op: string, a: Value, b: Value, f: Frame) returns (n: nat)
    requires At(code, f.pc, LinkCode(last, op))
    ensures RunFor(rt, code, Running(f.(stack := f.stack + [a] + [b])), n)
         == Result(if last then f else f.(stack := f.stack + [b]), f.pc + |LinkCode(last, op)|, rt.compare(op, a, b, f.world))
  {
    hide RunFor, StepMachine, At;
    var start := Running(f.(stack := f.stack + [a] + [b]));
    RunOnce(rt, code, start);
    if last {
      StepCompare(rt, code, op, a, b, f);
      n := 1;
    } else {
      AtSplit(code, f.pc, One(Duplicate, 0) + One(RotateThree, 0), One(CompareOp(op), 0));
      AtSplit(code, f.pc, One(Duplicate, 0), One(RotateThree, 0));
      StepDuplicate(rt, code, b, f.(stack := f.stack + [a]));
      RunOneMore(rt, code, start, 1);
      StepRotate(rt, code, a, b, b, f.(pc := f.pc + 1));
      RunOneMore(rt, code, start, 2);
      StepCompare(rt, code, op, a, b, f.(pc := f.pc + 2, stack := f.stack + [b]));
      n := 3;
    }
  }

  /** The conditional exit after a link that is not the last, and the rest of the chain. */
  lemma {:induction false} RunLinkExit(rt: Runtime, code: seq<Instr>, links: seq<Link>, b: Value, c: Value, f: Frame, exit: nat) returns (n: nat)
    requires |links| > 1
    requires At(code, f.pc, Fill([Hole(ExitHole, JumpIfFalseOrPop)] + ChainCells(links[1..], f.pc + 1), UNPATCHED.(exit := exit)))
    requires DepthsWithin(f.blocks, |f.stack|)
    requires exit == f.pc + 1 + |ChainCells(links[1..], f.pc + 1)| + 1 && PadAt(code, exit)
    ensures RunFor(rt, code, Running(f.(stack := f.stack + [b] + [c])), n)
         == Result(f, exit + 2, match rt.truthy(c, f.world)
                                case Err(x, w) => Err(x, w)
                                case Ok(t, w) => if t then EvalChain(rt, b, links[1..], w) else Ok(c, w))
    decreases links, 0
  {
    hide RunFor, StepMachine, At, ChainCells;
    var start := Running(f.(stack := f.stack + [b] + [c]));
    var t := UNPATCHED.(exit := exit);
    var rest := ChainCells(links[1..], f.pc + 1);
    FillConcat([Hole(ExitHole, JumpIfFalseOrPop)], rest, t);
    assert Fill([Hole(ExitHole, JumpIfFalseOrPop)], t) == One(ShortCircuit(true), exit);
    AtSplit(code, f.pc, One(ShortCircuit(true), exit), Fill(rest, t));
    RunOnce(rt, code, start);
    StepShortCircuit(rt, code, true, exit, c, f.(stack := f.stack + [b]));
    n := 1;
    var r := rt.truthy(c, f.world);
    if r.Err? {
      ThrowIgnoresTop(f.stack, [b], f.blocks, f.current, r.world, r.exn);
    } else if r.value {
      var m := RunChain(rt, code, links[1..], b, f.(pc := f.pc + 1, world := r.world), exit);
      RunForAdd(rt, code, start, n, m);
      n := n + m;
    } else {
      AtSplit(code, exit - 1, One(Jump, exit + 2) + One(Swap, 0), One(Pop, 0));
      AtSplit(code, exit - 1, One(Jump, exit + 2), One(Swap, 0));
      RunOneMore(rt, code, start, 1);
      StepSwap(rt, code, b, c, f.(pc := exit, world := r.world));
      RunOneMore(rt, code, start, 2);
      StepPop(rt, code, b, f.(pc := exit + 1, stack := f.stack + [c], world := r.world));
      n := 3;
    }
  }

  lemma {:induction false} RunConditional(rt: Runtime, code: seq<Instr>, e: Expr, f: Frame) returns (n: nat)
    requires e.Conditional?
    requires At(code, f.pc, ExprCode(e, f.pc))
    requires DepthsWithin(f.blocks, |f.stack|)
    ensures n > 0
    ensures RunFor(rt, code, Running(f), n) == Result(f, f.pc + |ExprCode(e, f.pc)|, Eval(rt, e, f.world))
    decreases e, 0
  {
    hide RunFor, StepMachine, At;
    var t := ExprCode(e.test, f.pc);
    var b := ExprCode(e.body, f.pc + |t| + 1);
    var elseAt := f.pc + |t| + 1 + |b| + 1;
    var o := ExprCode(e.orElse, elseAt);
    AtSplit(code, f.pc, t + One(JumpIfFalse, elseAt) + b + One(Jump, elseAt + |o|), o);
    AtSplit(code, f.pc, t + One(JumpIfFalse, elseAt) + b, One(Jump, elseAt + |o|));
    AtSplit(code, f.pc, t + One(JumpIfFalse, elseAt), b);
    n := RunTest(rt, code, e.test, f, elseAt);
    var r := Test(rt, e.test, f.world);
    if r.Ok? {
      var g := f.(pc := if r.value then f.pc + |t| + 1 else elseAt, world := r.world);
      var m := RunExpr(rt, code, if r.value then e.body else e.orElse, g);
      RunForAdd(rt, code, Running(f), n, m);
      n := n + m;
      var v := Eval(rt, e.body, r.world);
      if r.value && v.Ok? {
        RunOneMore(rt, code, Running(f), n);
        StepJump(rt, code, elseAt + |o|, f.(pc := elseAt - 1, stack := f.stack + [v.value], world := v.world));
        n := n + 1;
      }
    }
  }

  /** A test and its conditional jump: falls through when true, goes to `target` when false. */
  lemma {:induction false} RunTest(rt: Runtime, code: seq<Instr>, test: Expr, f: Frame, target: nat) returns (n: nat)
    requires At(code, f.pc, ExprCode(test, f.pc) + One(JumpIfFalse, target))
    requires DepthsWithin(f.blocks, |f.stack|)
    ensures n > 0
    ensures RunFor(rt, code, Running(f), n) ==
            match Test(rt, test, f.world)
            case Err(x, w) => Throw(f.stack, f.blocks, f.current, w, x)
            case Ok(t, w) => Running(f.(pc := if t then f.pc + |ExprCode(test, f.pc)| + 1 else target, world := w))
    decreases test, 2
  {
    hide RunFor, StepMachine, At;
    var a := ExprCode(test, f.pc);
    AtSplit(code, f.pc, a, One(JumpIfFalse, target));
    n := RunExpr(rt, code, test, f);
    var r := Eval(rt, test, f.world);
    if r.Ok? {
      RunOneMore(rt, code, Running(f), n);
      StepJumpIfFalse(rt, code, target, r.value, f.(pc := f.pc + |a|, world := r.world));
      n := n + 1;
    }
  }

  lemma {:induction false} RunCall(rt: Runtime, code: seq<Instr>, e: Expr, f: Frame) returns (n: nat)
    requires e.Call?
    requires At(code, f.pc, ExprCode(e, f.pc))
    requires DepthsWithin(f.blocks, |f.stack|)
    ensures n > 0
    ensures RunFor(rt, code, Running(f), n) == Result(f, f.pc + |ExprCode(e, f.pc)|, Eval(rt, e, f.world))
    decreases e, 0
  {
    hide RunFor, StepMachine, At, AllCode;
    var a := ExprCode(e.callee, f.pc);
    var b := AllCode(e.arguments, f.pc + |a|);
    AtSplit(code, f.pc, a + b, One(CallOp, |e.arguments|));
    AtSplit(code, f.pc, a, b);
    n := RunExpr(rt, code, e.callee, f);
    var r := Eval(rt, e.callee, f.world);
    if r.Ok? {
      var m := RunAll(rt, code, e.arguments, f.(pc := f.pc + |a|, stack := f.stack + [r.value], world := r.world));
      RunForAdd(rt, code, Running(f), n, m);
      n := n + m;
      var vs := EvalAll(rt, e.arguments, r.world);
      if vs.Ok? {
        RunOneMore(rt, code, Running(f), n);
        StepCall(rt, code, r.value, vs.value, f.(pc := f.pc + |a| + |b|, world := vs.world));
        n := n + 1;
      } else {
        ThrowIgnoresTop(f.stack, [r.value], f.blocks, f.current, vs.world, vs.exn);
      }
    }
  }

  lemma {:induction false} RunAll(rt: Runtime, code: seq<Instr>, es: seq<Expr>, f: Frame) returns (n: nat)
    requires At(code, f.pc, AllCode(es, f.pc))
    requires DepthsWithin(f.blocks, |f.stack|)
    ensures RunFor(rt, code, Running(f), n) ==
            match EvalAll(rt, es, f.world)
            case Err(x, w) => Throw(f.stack, f.blocks, f.current, w, x)
            case Ok(vs, w) => Running(f.(pc := f.pc + |AllCode(es, f.pc)|, stack := f.stack + vs, world := w))
    decreases es, 0
  {
    hide RunFor, StepMachine, At;
    RunOnce(rt, code, Running(f));
    n := 0;
    if es == [] {
      assert f.stack + [] == f.stack;
    } else {
      var a := ExprCode(es[0], f.pc);
      AtSplit(code, f.pc, a, AllCode(es[1..], f.pc + |a|));
      n := RunExpr(rt, code, es[0], f);
      var r := Eval(rt, es[0], f.world);
      if r.Ok? {
        var m := RunAll(rt, code, es[1..], f.(pc := f.pc + |a|, stack := f.stack + [r.value], world := r.world));
        RunForAdd(rt, code, Running(f), n, m);
        n := n + m;
        var rest := EvalAll(rt, es[1..], r.world);
        if rest.Ok? {
          assert f.stack + [r.value] + rest.value == f.stack + ([r.value] + rest.value);
        } else {
          ThrowIgnoresTop(f.stack, [r.value], f.blocks, f.current, rest.world, rest.exn);
        }
      }
    }
  }
}
