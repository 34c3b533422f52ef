/**
 The stack machine: one frame with an operand stack and a block stack.

 An instruction carries the constant or the name its pool index stands for, so that its
 integer operand is only ever a jump target or a count.
 */
module PythonMachine {
  import opened Wrappers
  import opened PythonSource

  datatype OpCode =
    | LoadConst(value: Value) | LoadLocal(name: string) | StoreLocal(name: string)
    | BinaryOp(op: string) | UnaryOp(op: string) | CompareOp(op: string) | CallOp
    | Pop | Duplicate | Swap | RotateThree
    | Jump | JumpIfFalse | JumpIfFalseOrPop | JumpIfTrueOrPop
    | GetIterator | ForIterate | ReturnOp | RaiseOp
    | SetupFinally | PopBlock | EndHandler | ReRaise

  datatype Instr = Instr(op: OpCode, operand: nat)

  /** A pending `finally`, or a running handler with the exception state to restore. */
  datatype Block =
    | FinallyBlock(handler: nat, depth: nat)
    | HandlerBlock(handler: nat, depth: nat, saved: Option<Value>)

  datatype Frame = Frame(pc: nat, stack: seq<Value>, blocks: seq<Block>, current: Option<Value>, world: World)

  /** `Crashed` is an instruction that does not find what it expects. */
  datatype Machine =
    | Running(frame: Frame)
    | Returned(value: Value, world: World)
    | Uncaught(exn: Value, world: World)
    | Crashed

  /** Cuts the operand stack back to at most `depth` values. */
  function Truncate(stack: seq<Value>, depth: nat): seq<Value> {
    if |stack| > depth then stack[..depth] else stack
  }

  /** Looks for a handler, innermost block first; leaving a running handler ends it. */
  function Throw(stack: seq<Value>, blocks: seq<Block>, current: Option<Value>, w: World, exn: Value): Machine
    decreases |blocks|
  {
    if blocks == [] then Uncaught(exn, w) else
    var block, rest := blocks[|blocks| - 1], blocks[..|blocks| - 1];
    var cut := Truncate(stack, block.depth);
    match block
    case HandlerBlock(_, _, saved) => Throw(cut, rest, saved, w, exn)
    case FinallyBlock(handler, depth) =>
      Running(Frame(handler, cut, rest + [HandlerBlock(handler, depth, current)], Some(exn), w))
  }

  /** Ends the innermost running handler: the blocks left, and the exception state put back. */
  function Ended(f: Frame): Frame {
    if f.blocks == [] || !f.blocks[|f.blocks| - 1].HandlerBlock? then f.(current := None)
    else f.(blocks := f.blocks[..|f.blocks| - 1], current := f.blocks[|f.blocks| - 1].saved)
  }

  function Push(f: Frame, r: Outcome<Value>): Machine {
    match r
    case Ok(v, w) => Running(f.(stack := f.stack + [v], world := w))
    case Err(x, w) => Throw(f.stack, f.blocks, f.current, w, x)
  }

  /** The top of the stack `k` values down. */
  function Peek(f: Frame, k: nat): Value
    requires k < |f.stack|
  {
    f.stack[|f.stack| - 1 - k]
  }

  function Drop(f: Frame, k: nat): Frame
    requires k <= |f.stack|
  {
    f.(stack := f.stack[..|f.stack| - k])
  }

  /** How many values an instruction takes from the stack. */
  function Needs(i: Instr): nat {
    match i.op
    case StoreLocal(_) => 1
    case BinaryOp(_) => 2
    case UnaryOp(_) => 1
    case CompareOp(_) => 2
    case CallOp => i.operand + 1
    case Pop => 1
    case Duplicate => 1
    case Swap => 2
    case RotateThree => 3
    case JumpIfFalse => 1
    case JumpIfFalseOrPop => 1
    case JumpIfTrueOrPop => 1
    case GetIterator => 1
    case ForIterate => 1
    case ReturnOp => 1
    case RaiseOp => if i.operand == 0 then 0 else 1
    case _ => 0
  }

  /** A conditional jump on the truth of the top value, which stays when `keep` and jumping. */
  function Branch(rt: Runtime, f: Frame, target: nat, jumpOn: bool, keep: bool): Machine
    requires |f.stack| > 0
  {
    var g := if keep then f else Drop(f, 1);
    match rt.truthy(Peek(f, 0), f.world)
    case Err(x, w) => Throw(g.stack, f.blocks, f.current, w, x)
    case Ok(t, w) =>
      if t == jumpOn then Running(g.(pc := target, world := w)) else Running(Drop(f, 1).(world := w))
  }

  /** One instruction as the machine performs it; it is lenient where nothing was set up. */
  function Perform(rt: Runtime, code: seq<Instr>, f0: Frame): Machine {
    if f0.pc >= |code| then Returned(NoneValue, f0.world) else
    var i := code[f0.pc];
    var f := f0.(pc := f0.pc + 1);
    if |f.stack| < Needs(i) then Crashed else
    match i.op
    case LoadConst(v) => Push(f, Ok(v, f.world))
    case LoadLocal(x) => Push(f, Load(rt, x, f.world))
    case StoreLocal(x) => Running(Drop(f, 1).(world := Store(x, Peek(f, 0), f.world)))
    case BinaryOp(op) => Push(Drop(f, 2), rt.binary(op, Peek(f, 1), Peek(f, 0), f.world))
    case UnaryOp(op) => Push(Drop(f, 1), rt.unary(op, Peek(f, 0), f.world))
    case CompareOp(op) => Push(Drop(f, 2), rt.compare(op, Peek(f, 1), Peek(f, 0), f.world))
    case CallOp =>
      var n := |f.stack| - i.operand;
      Push(Drop(f, i.operand + 1), rt.call(f.stack[n - 1], f.stack[n..], f.world))
    case Pop => Running(Drop(f, 1))
    case Duplicate => Running(f.(stack := f.stack + [Peek(f, 0)]))
    case Swap => Running(f.(stack := Drop(f, 2).stack + [Peek(f, 0), Peek(f, 1)]))
    case RotateThree => Running(f.(stack := Drop(f, 3).stack + [Peek(f, 0), Peek(f, 2), Peek(f, 1)]))
    case Jump => Running(f.(pc := i.operand))
    case JumpIfFalse => Branch(rt, f, i.operand, false, false)
    case JumpIfFalseOrPop => Branch(rt, f, i.operand, false, true)
    case JumpIfTrueOrPop => Branch(rt, f, i.operand, true, true)
    case GetIterator => Push(Drop(f, 1), rt.getIterator(Peek(f, 0), f.world))
    case ForIterate =>
      (match rt.next(Peek(f, 0), f.world)
       case Err(x, w) => Throw(f.stack, f.blocks, f.current, w, x)
       case Ok(None, w) => Running(Drop(f, 1).(pc := i.operand, world := w))
       case Ok(Some(v), w) => Running(f.(stack := f.stack + [v], world := w)))
    case ReturnOp => Returned(Peek(f, 0), f.world)
    case RaiseOp =>
      if i.operand == 0 then
        Throw(f.stack, f.blocks, f.current, f.world,
              if f.current.Some? then f.current.value else rt.noActiveException)
      else
        (match rt.toException(Peek(f, 0), f.world)
         case Err(x, w) => Throw(Drop(f, 1).stack, f.blocks, f.current, w, x)
         case Ok(x, w) => Throw(Drop(f, 1).stack, f.blocks, f.current, w, x))
    case SetupFinally => Running(f.(blocks := f.blocks + [FinallyBlock(i.operand, |f.stack|)]))
    case PopBlock => Running(f.(blocks := if f.blocks == [] then [] else f.blocks[..|f.blocks| - 1]))
    case EndHandler => Running(Ended(f))
    case ReRaise =>
      if f.current.None? then Running(f) else
      var g := Ended(f);
      Throw(g.stack, g.blocks, g.current, g.world, f.current.value)
  }

  predicate InHandler(f: Frame) {
    f.blocks != [] && f.blocks[|f.blocks| - 1].HandlerBlock?
  }

  /**
   Whether the frame has all that its next instruction expects: an instruction, its operands, a
   block to take off, or a handler that was entered and its exception.
   */
  predicate Expected(code: seq<Instr>, f: Frame) {
    && f.pc < |code| && |f.stack| >= Needs(code[f.pc])
    && match code[f.pc].op
       case PopBlock => f.blocks != [] && f.blocks[|f.blocks| - 1].FinallyBlock?
       case EndHandler => InHandler(f)
       case ReRaise => InHandler(f) && f.current.Some?
       case _ => true
  }

  /** The same instruction, where nothing unexpected is let through. */
  function Step(rt: Runtime, code: seq<Instr>, f: Frame): Machine {
    if Expected(code, f) then Perform(rt, code, f) else Crashed
  }

  function StepMachine(rt: Runtime, code: seq<Instr>, m: Machine): Machine {
    if m.Running? then Step(rt, code, m.frame) else m
  }

  /** The machine after `n` steps; a halted machine stays as it is. */
  function RunFor(rt: Runtime, code: seq<Instr>, m: Machine, n: nat): Machine
    decreases n
  {
    if n == 0 then m else RunFor(rt, code, StepMachine(rt, code, m), n - 1)
  }

  /** The lenient machine after `n` steps. */
  function PerformFor(rt: Runtime, code: seq<Instr>, m: Machine, n: nat): Machine
    decreases n
  {
    if n == 0 then m else PerformFor(rt, code, if m.Running? then Perform(rt, code, m.frame) else m, n - 1)
  }

  /** As long as nothing unexpected happens the two machines are one. */
  lemma {:induction false} StrictIsLenient(rt: Runtime, code: seq<Instr>, m: Machine, n: nat)
    requires !RunFor(rt, code, m, n).Crashed?
    ensures PerformFor(rt, code, m, n) == RunFor(rt, code, m, n)
    decreases n
  {
    hide Perform, Expected;
    if n > 0 {
      if StepMachine(rt, code, m).Crashed? { HaltedStays(rt, code, Crashed, n - 1); }
      StrictIsLenient(rt, code, StepMachine(rt, code, m), n - 1);
    }
  }

  lemma {:induction false} RunForAdd(rt: Runtime, code: seq<Instr>, m: Machine, a: nat, b: nat)
    ensures RunFor(rt, code, m, a + b) == RunFor(rt, code, RunFor(rt, code, m, a), b)
    decreases a
  {
    if a > 0 { RunForAdd(rt, code, StepMachine(rt, code, m), a - 1, b); }
  }

  lemma {:induction false} HaltedStays(rt: Runtime, code: seq<Instr>, m: Machine, n: nat)
    requires !m.Running?
    ensures RunFor(rt, code, m, n) == m
  {
    if n > 0 { HaltedStays(rt, code, m, n - 1); }
  }

  /** Every block can restore its depth from a stack that still holds `height` values. */
  predicate DepthsWithin(blocks: seq<Block>, height: nat) {
    forall i :: 0 <= i < |blocks| ==> blocks[i].depth <= height
  }

  /** Values pushed since the blocks were set up do not affect where an exception lands. */
  lemma ThrowIgnoresTop(stack: seq<Value>, extra: seq<Value>, blocks: seq<Block>, current: Option<Value>, w: World, exn: Value)
    requires DepthsWithin(blocks, |stack|)
    ensures Throw(stack + extra, blocks, current, w, exn) == Throw(stack, blocks, current, w, exn)
  {
    if blocks != [] {
      var depth := blocks[|blocks| - 1].depth;
      assert (stack + extra)[..depth] == stack[..depth];
      assert Truncate(stack + extra, depth) == stack[..depth] == Truncate(stack, depth);
    }
  }
}
