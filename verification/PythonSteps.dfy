/**
 One lemma per instruction: what it does to a frame whose operands are written out on top of
 the stack `f.stack`. The simulation proofs use these instead of the machine's own text.
 */
module PythonSteps {
  import opened Wrappers
  import opened PythonSource
  import opened PythonMachine
  import opened PythonLayout

  predicate At(code: seq<Instr>, pc: nat, part: seq<Instr>) {
    pc + |part| <= |code| && code[pc..pc + |part|] == part
  }

  lemma AtSplit(code: seq<Instr>, pc: nat, a: seq<Instr>, b: seq<Instr>)
    ensures At(code, pc, a + b) <==> At(code, pc, a) && At(code, pc + |a|, b)
  {
    if pc + |a| + |b| <= |code| {
      assert code[pc..pc + |a + b|] == code[pc..pc + |a|] + code[pc + |a|..pc + |a| + |b|];
      if code[pc..pc + |a + b|] == a + b {
        assert code[pc..pc + |a|] == (a + b)[..|a|] == a;
        assert code[pc + |a|..pc + |a| + |b|] == (a + b)[|a|..] == b;
      }
    }
  }

  lemma Fetch(code: seq<Instr>, pc: nat, op: OpCode, operand: nat)
    requires At(code, pc, One(op, operand))
    ensures pc < |code| && code[pc] == Instr(op, operand)
  {
    assert code[pc..pc + 1] == [code[pc]];
  }

  /** Where the code of an expression leaves the machine. */
  function Result(f: Frame, end: nat, r: Outcome<Value>): Machine {
    match r
    case Ok(v, w) => Running(f.(pc := end, stack := f.stack + [v], world := w))
    case Err(x, w) => Throw(f.stack, f.blocks, f.current, w, x)
  }

  lemma RunOneMore(rt: Runtime, code: seq<Instr>, m: Machine, n: nat)
    ensures RunFor(rt, code, m, n + 1) == StepMachine(rt, code, RunFor(rt, code, m, n))
  {
    hide Step;
    RunForAdd(rt, code, m, n, 1);
    var k := RunFor(rt, code, m, n);
    assert RunFor(rt, code, k, 1) == RunFor(rt, code, StepMachine(rt, code, k), 0);
  }

  /** A first single step. */
  lemma RunOnce(rt: Runtime, code: seq<Instr>, m: Machine)
    ensures RunFor(rt, code, m, 0) == m
    ensures RunFor(rt, code, m, 1) == StepMachine(rt, code, m)
  {
    hide Step;
    RunOneMore(rt, code, m, 0);
  }

  lemma StepLoad(rt: Runtime, code: seq<Instr>, f: Frame)
    requires f.pc < |code| && (code[f.pc].op.LoadConst? || code[f.pc].op.LoadLocal?)
    ensures StepMachine(rt, code, Running(f)) == Result(f, f.pc + 1,
              if code[f.pc].op.LoadConst? then Ok(code[f.pc].op.value, f.world) else Load(rt, code[f.pc].op.name, f.world))
  {}

  lemma StepStore(rt: Runtime, code: seq<Instr>, x: string, v: Value, f: Frame)
    requires At(code, f.pc, One(StoreLocal(x), 0))
    ensures StepMachine(rt, code, Running(f.(stack := f.stack + [v]))) == Running(f.(pc := f.pc + 1, world := Store(x, v, f.world)))
  {
    Fetch(code, f.pc, StoreLocal(x), 0);
    assert (f.stack + [v])[..|f.stack|] == f.stack;
  }

  lemma StepBinary(rt: Runtime, code: seq<Instr>, op: string, a: Value, b: Value, f: Frame)
    requires At(code, f.pc, One(BinaryOp(op), 0))
    ensures StepMachine(rt, code, Running(f.(stack := f.stack + [a] + [b]))) == Result(f, f.pc + 1, rt.binary(op, a, b, f.world))
  {
    Fetch(code, f.pc, BinaryOp(op), 0);
    assert (f.stack + [a] + [b])[..|f.stack|] == f.stack;
  }

  lemma StepUnary(rt: Runtime, code: seq<Instr>, op: string, a: Value, f: Frame)
    requires At(code, f.pc, One(UnaryOp(op), 0))
    ensures StepMachine(rt, code, Running(f.(stack := f.stack + [a]))) == Result(f, f.pc + 1, rt.unary(op, a, f.world))
  {
    Fetch(code, f.pc, UnaryOp(op), 0);
    assert (f.stack + [a])[..|f.stack|] == f.stack;
  }

  lemma StepCompare(rt: Runtime, code: seq<Instr>, op: string, a: Value, b: Value, f: Frame)
    requires At(code, f.pc, One(CompareOp(op), 0))
    ensures StepMachine(rt, code, Running(f.(stack := f.stack + [a] + [b]))) == Result(f, f.pc + 1, rt.compare(op, a, b, f.world))
  {
    Fetch(code, f.pc, CompareOp(op), 0);
    assert (f.stack + [a] + [b])[..|f.stack|] == f.stack;
  }

  lemma StepCall(rt: Runtime, code: seq<Instr>, callee: Value, vs: seq<Value>, f: Frame)
    requires At(code, f.pc, One(CallOp, |vs|))
    ensures StepMachine(rt, code, Running(f.(stack := f.stack + [callee] + vs))) == Result(f, f.pc + 1, rt.call(callee, vs, f.world))
  {
    Fetch(code, f.pc, CallOp, |vs|);
    var full := f.stack + [callee] + vs;
    assert full[|full| - |vs|..] == vs && full[|full| - |vs| - 1] == callee;
    assert full[..|full| - (|vs| + 1)] == f.stack;
  }

  lemma StepPop(rt: Runtime, code: seq<Instr>, v: Value, f: Frame)
    requires At(code, f.pc, One(Pop, 0))
    ensures StepMachine(rt, code, Running(f.(stack := f.stack + [v]))) == Running(f.(pc := f.pc + 1))
  {
    Fetch(code, f.pc, Pop, 0);
    assert (f.stack + [v])[..|f.stack|] == f.stack;
  }

  lemma StepDuplicate(rt: Runtime, code: seq<Instr>, v: Value, f: Frame)
    requires At(code, f.pc, One(Duplicate, 0))
    ensures StepMachine(rt, code, Running(f.(stack := f.stack + [v]))) == Running(f.(pc := f.pc + 1, stack := f.stack + [v] + [v]))
  {
    Fetch(code, f.pc, Duplicate, 0);
  }

  lemma StepSwap(rt: Runtime, code: seq<Instr>, a: Value, b: Value, f: Frame)
    requires At(code, f.pc, One(Swap, 0))
    ensures StepMachine(rt, code, Running(f.(stack := f.stack + [a] + [b]))) == Running(f.(pc := f.pc + 1, stack := f.stack + [b] + [a]))
  {
    Fetch(code, f.pc, Swap, 0);
    assert (f.stack + [a] + [b])[..|f.stack|] == f.stack;
    assert f.stack + [b, a] == f.stack + [b] + [a];
  }

  lemma StepRotate(rt: Runtime, code: seq<Instr>, a: Value, b: Value, c: Value, f: Frame)
    requires At(code, f.pc, One(RotateThree, 0))
    ensures StepMachine(rt, code, Running(f.(stack := f.stack + [a] + [b] + [c])))
         == Running(f.(pc := f.pc + 1, stack := f.stack + [c] + [a] + [b]))
  {
    Fetch(code, f.pc, RotateThree, 0);
    assert (f.stack + [a] + [b] + [c])[..|f.stack|] == f.stack;
    assert f.stack + [c, a, b] == f.stack + [c] + [a] + [b];
  }

  lemma StepJump(rt: Runtime, code: seq<Instr>, target: nat, f: Frame)
    requires At(code, f.pc, One(Jump, target))
    ensures StepMachine(rt, code, Running(f)) == Running(f.(pc := target))
  {
    Fetch(code, f.pc, Jump, target);
  }

  lemma StepJumpIfFalse(rt: Runtime, code: seq<Instr>, target: nat, v: Value, f: Frame)
    requires At(code, f.pc, One(JumpIfFalse, target))
    ensures StepMachine(rt, code, Running(f.(stack := f.stack + [v]))) ==
            match rt.truthy(v, f.world)
            case Err(x, w) => Throw(f.stack, f.blocks, f.current, w, x)
            case Ok(t, w) => Running(f.(pc := if t then f.pc + 1 else target, world := w))
  {
    Fetch(code, f.pc, JumpIfFalse, target);
    assert (f.stack + [v])[..|f.stack|] == f.stack;
  }

  lemma StepShortCircuit(rt: Runtime, code: seq<Instr>, isAnd: bool, target: nat, v: Value, f: Frame)
    requires At(code, f.pc, One(ShortCircuit(isAnd), target))
    requires DepthsWithin(f.blocks, |f.stack|)
    ensures StepMachine(rt, code, Running(f.(stack := f.stack + [v]))) ==
            match rt.truthy(v, f.world)
            case Err(x, w) => Throw(f.stack, f.blocks, f.current, w, x)
            case Ok(t, w) =>
              if t == isAnd then Running(f.(pc := f.pc + 1, world := w))
              else Running(f.(pc := target, stack := f.stack + [v], world := w))
  {
    Fetch(code, f.pc, ShortCircuit(isAnd), target);
    assert (f.stack + [v])[..|f.stack|] == f.stack;
    var t := rt.truthy(v, f.world);
    if t.Err? { ThrowIgnoresTop(f.stack, [v], f.blocks, f.current, t.world, t.exn); }
  }

  lemma StepGetIterator(rt: Runtime, code: seq<Instr>, v: Value, f: Frame)
    requires At(code, f.pc, One(GetIterator, 0))
    ensures StepMachine(rt, code, Running(f.(stack := f.stack + [v]))) == Result(f, f.pc + 1, rt.getIterator(v, f.world))
  {
    Fetch(code, f.pc, GetIterator, 0);
    assert (f.stack + [v])[..|f.stack|] == f.stack;
  }

  lemma StepForIterate(rt: Runtime, code: seq<Instr>, exit: nat, it: Value, f: Frame)
    requires At(code, f.pc, One(ForIterate, exit))
    requires DepthsWithin(f.blocks, |f.stack|)
    ensures StepMachine(rt, code, Running(f.(stack := f.stack + [it]))) ==
            match rt.next(it, f.world)
            case Err(x, w) => Throw(f.stack, f.blocks, f.current, w, x)
            case Ok(None, w) => Running(f.(pc := exit, world := w))
            case Ok(Some(v), w) => Running(f.(pc := f.pc + 1, stack := f.stack + [it] + [v], world := w))
  {
    Fetch(code, f.pc, ForIterate, exit);
    assert (f.stack + [it])[..|f.stack|] == f.stack;
    var t := rt.next(it, f.world);
    if t.Err? { ThrowIgnoresTop(f.stack, [it], f.blocks, f.current, t.world, t.exn); }
  }

  lemma StepReturn(rt: Runtime, code: seq<Instr>, v: Value, f: Frame)
    requires At(code, f.pc, One(ReturnOp, 0))
    ensures StepMachine(rt, code, Running(f.(stack := f.stack + [v]))) == Returned(v, f.world)
  {
    Fetch(code, f.pc, ReturnOp, 0);
  }

  lemma StepRaise(rt: Runtime, code: seq<Instr>, v: Value, f: Frame)
    requires At(code, f.pc, One(RaiseOp, 1))
    ensures var r := rt.toException(v, f.world);
            StepMachine(rt, code, Running(f.(stack := f.stack + [v])))
              == Throw(f.stack, f.blocks, f.current, r.world, if r.Ok? then r.value else r.exn)
  {
    Fetch(code, f.pc, RaiseOp, 1);
    assert (f.stack + [v])[..|f.stack|] == f.stack;
  }

  lemma StepRaiseCurrent(rt: Runtime, code: seq<Instr>, f: Frame)
    requires At(code, f.pc, One(RaiseOp, 0))
    ensures StepMachine(rt, code, Running(f))
         == Throw(f.stack, f.blocks, f.current, f.world, if f.current.Some? then f.current.value else rt.noActiveException)
  {
    Fetch(code, f.pc, RaiseOp, 0);
  }

  lemma StepSetup(rt: Runtime, code: seq<Instr>, handler: nat, f: Frame)
    requires At(code, f.pc, One(SetupFinally, handler))
    ensures StepMachine(rt, code, Running(f)) == Running(f.(pc := f.pc + 1, blocks := f.blocks + [FinallyBlock(handler, |f.stack|)]))
  {
    Fetch(code, f.pc, SetupFinally, handler);
  }

  lemma StepPopBlock(rt: Runtime, code: seq<Instr>, b: Block, f: Frame)
    requires At(code, f.pc, One(PopBlock, 0)) && b.FinallyBlock?
    ensures StepMachine(rt, code, Running(f.(blocks := f.blocks + [b]))) == Running(f.(pc := f.pc + 1))
  {
    Fetch(code, f.pc, PopBlock, 0);
    assert (f.blocks + [b])[..|f.blocks|] == f.blocks;
  }

  lemma StepEndHandler(rt: Runtime, code: seq<Instr>, b: Block, f: Frame)
    requires At(code, f.pc, One(EndHandler, 0)) && b.HandlerBlock?
    ensures StepMachine(rt, code, Running(f.(blocks := f.blocks + [b]))) == Running(f.(pc := f.pc + 1, current := b.saved))
  {
    Fetch(code, f.pc, EndHandler, 0);
    assert (f.blocks + [b])[..|f.blocks|] == f.blocks;
  }

  lemma StepReRaise(rt: Runtime, code: seq<Instr>, b: Block, exn: Value, f: Frame)
    requires At(code, f.pc, One(ReRaise, 0)) && b.HandlerBlock?
    ensures StepMachine(rt, code, Running(f.(blocks := f.blocks + [b], current := Some(exn))))
         == Throw(f.stack, f.blocks, b.saved, f.world, exn)
  {
    Fetch(code, f.pc, ReRaise, 0);
    assert (f.blocks + [b])[..|f.blocks|] == f.blocks;
  }
}
