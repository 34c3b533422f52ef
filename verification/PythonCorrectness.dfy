/**
 Whole bodies: running the compiled code of a guarded module or function body is the same
 as running its source, for halting and for diverging programs alike.
 */
module PythonCorrectness {
  import opened Wrappers
  import opened PythonSource
  import opened PythonMachine
  import opened PythonLayout
  import opened PythonSteps
  import opened PythonExpressions
  import opened PythonStatements

  /** The code of a body: its statements, then `return None`. */
  function BodyCode(s: Stmt): seq<Instr> {
    Fill(Cells(s, 0, TOP), UNPATCHED) + One(LoadConst(NoneValue), 0) + One(ReturnOp, 0)
  }

  function Start(w: World): Machine {
    Running(Frame(0, [], [], None, w))
  }

  /** The machine a finished source run corresponds to. */
  function Halted(x: Exit, w: World): Machine {
    match x
    case Returning(v) => Returned(v, w)
    case Raising(exn) => Uncaught(exn, w)
    case _ => Returned(NoneValue, w)
  }

  /** The source run finished, and `m` is the machine that corresponds to it. */
  predicate EndsIn(r: Run, m: Machine) {
    r.Done? && m == Halted(r.exit, r.world)
  }

  lemma {:induction false} RunBody(rt: Runtime, s: Stmt, w: World, fuel: nat) returns (n: nat)
    requires Guarded(s) && !FreeJump(s)
    ensures match Exec(rt, s, None, w, fuel)
            case OutOfFuel => n >= fuel && RunFor(rt, BodyCode(s), Start(w), n).Running?
            case Done(x, w', left) => RunFor(rt, BodyCode(s), Start(w), n) == Halted(x, w')
  {
    hide RunFor, StepMachine, At, Cells, Fill, Drain;
    var code := BodyCode(s);
    var a := Fill(Cells(s, 0, TOP), UNPATCHED);
    var ret := One(LoadConst(NoneValue), 0) + One(ReturnOp, 0);
    assert code == a + ret;
    AtWhole(code);
    AtSplit(code, 0, a, ret);
    AtSplit(code, |a|, One(LoadConst(NoneValue), 0), One(ReturnOp, 0));
    var f := Frame(0, [], [], None, w);
    n := RunStmt(rt, code, s, TOP, UNPATCHED, [], f, fuel);
    ExitsAreWritten(rt, s, None, w, fuel);
    var r := Exec(rt, s, None, w, fuel);
    if r.Done? && r.exit.Normal? {
      var g := f.(pc := |a|, world := r.world);
      Fetch(code, |a|, LoadConst(NoneValue), 0);
      RunOneMore(rt, code, Start(w), n);
      StepLoad(rt, code, g);
      RunOneMore(rt, code, Start(w), n + 1);
      StepReturn(rt, code, NoneValue, g.(pc := |a| + 1));
      n := n + 2;
    } else if r.Done? {
      NothingPending(rt, r, f);
    }
  }

  lemma AtWhole(code: seq<Instr>)
    ensures At(code, 0, code)
  {}

  lemma NothingPending(rt: Runtime, r: Run, f: Frame)
    requires r.Done? && f.blocks == []
    ensures Outward(rt, r, TOP, f) == Final(r.exit, 0, f.current, r.world, r.fuel)
  {}

  /**
   Compilation preserves meaning. The machine stops in `m` exactly when the source run
   finishes and `m` is what it finished with, so it never crashes, and it runs for ever
   exactly when the source does.
   */
  lemma CompiledBodyMeansTheSource(rt: Runtime, s: Stmt, w: World, m: Machine)
    requires Guarded(s) && !FreeJump(s)
    ensures (exists n: nat :: RunFor(rt, BodyCode(s), Start(w), n) == m && !m.Running?)
       <==> (exists fuel: nat :: EndsIn(Exec(rt, s, None, w, fuel), m))
  {
    hide RunFor, Exec, BodyCode;
    if n: nat :| RunFor(rt, BodyCode(s), Start(w), n) == m && !m.Running? {
      var k := RunBody(rt, s, w, n + 1);
      var r := Exec(rt, s, None, w, n + 1);
      LongerRun(rt, BodyCode(s), Start(w), n, k);
      assert EndsIn(r, m);
    }
    if fuel: nat :| EndsIn(Exec(rt, s, None, w, fuel), m) {
      var k := RunBody(rt, s, w, fuel);
      assert RunFor(rt, BodyCode(s), Start(w), k) == m;
    }
  }

  /** Two runs of one machine agree once either has halted. */
  lemma LongerRun(rt: Runtime, code: seq<Instr>, m: Machine, a: nat, b: nat)
    requires !RunFor(rt, code, m, a).Running?
    ensures b >= a || !RunFor(rt, code, m, b).Running? ==> RunFor(rt, code, m, b) == RunFor(rt, code, m, a)
  {
    hide RunFor;
    if b >= a {
      RunForAdd(rt, code, m, a, b - a);
      HaltedStays(rt, code, RunFor(rt, code, m, a), b - a);
    } else if !RunFor(rt, code, m, b).Running? {
      RunForAdd(rt, code, m, b, a - b);
      HaltedStays(rt, code, RunFor(rt, code, m, b), a - b);
    }
  }

  lemma NeverCrashes(rt: Runtime, s: Stmt, w: World, n: nat)
    requires Guarded(s) && !FreeJump(s)
    ensures !RunFor(rt, BodyCode(s), Start(w), n).Crashed?
  {
    hide RunFor, Exec, BodyCode;
    var m := RunFor(rt, BodyCode(s), Start(w), n);
    if m.Crashed? { CompiledBodyMeansTheSource(rt, s, w, m); }
  }

  /** So the machine's leniency is never called upon: it halts as the theorem says, in the states the theorem says. */
  lemma LenientMeansTheSource(rt: Runtime, s: Stmt, w: World, m: Machine)
    requires Guarded(s) && !FreeJump(s)
    ensures forall n: nat :: PerformFor(rt, BodyCode(s), Start(w), n) == RunFor(rt, BodyCode(s), Start(w), n)
    ensures (exists n: nat :: PerformFor(rt, BodyCode(s), Start(w), n) == m && !m.Running?)
       <==> (exists fuel: nat :: EndsIn(Exec(rt, s, None, w, fuel), m))
  {
    hide RunFor, Exec, BodyCode, PerformFor;
    forall n: nat ensures PerformFor(rt, BodyCode(s), Start(w), n) == RunFor(rt, BodyCode(s), Start(w), n) {
      NeverCrashes(rt, s, w, n);
      StrictIsLenient(rt, BodyCode(s), Start(w), n);
    }
    CompiledBodyMeansTheSource(rt, s, w, m);
  }

  // ---- what the guard excludes ----

  /**
   A `break` drops every waiting return value, also those that were waiting when its loop
   began. With `q` of those, it lands at the loop's own stack height exactly when q is 0.
   */
  lemma BreakLandsAtLoopHeight(rt: Runtime, code: seq<Instr>, c: Context, t: Targets, base: seq<Value>, f: Frame, q: nat)
    requires c.iterators != [] && c.fins == [] && f.blocks == []
    requires At(code, f.pc, Fill(Cells(Break, f.pc, c), t))
    requires q <= c.pending && |f.stack| == |base| + c.pending - q && f.stack[..|base|] == base
    requires |base| >= q + 1
    ensures var pops := c.pending + if InFor(c) then 1 else 0;
            var exit := base[..|base| - if InFor(c) then 1 else 0];
            RunFor(rt, code, Running(f), pops + 1) == Running(f.(pc := t.brk, stack := exit)) <==> q == 0
  {
    hide RunFor, StepMachine, At, Cells, Fill;
    var pops := c.pending + if InFor(c) then 1 else 0;
    JumpCells(code, Break, f.pc, c, t);
    RunPops(rt, code, pops, f);
    RunOneMore(rt, code, Running(f), pops);
    var left := f.stack[..|f.stack| - pops];
    StepJump(rt, code, t.brk, f.(pc := f.pc + pops, stack := left));
    assert |left| == |base| - q - if InFor(c) then 1 else 0;
    if q == 0 { assert left == base[..|base| - if InFor(c) then 1 else 0]; }
  }

  /** `try: return v` with `finally: while t: break` */
  function LoopInCleanup(v: Value, t: Value): Stmt {
    TryFinally(Return(Const(v)), While(Const(t), Break, End))
  }

  predicate UnderflowAt(code: seq<Instr>, v: Value, t: Value, exit: nat) {
    && 0 < |code| && code[0].op == SetupFinally
    && At(code, 1, One(LoadConst(v), 0)) && At(code, 2, One(PopBlock, 0))
    && At(code, 3, ExprCode(Const(t), 3) + One(JumpIfFalse, exit))
    && At(code, 5, Pops(1)) && At(code, 6, One(Jump, exit)) && At(code, exit, One(ReturnOp, 0))
  }

  /** The pieces of its code that matter: the return, with the cleanup's loop inline before it. */
  lemma LoopInCleanupCode(v: Value, t: Value) returns (exit: nat)
    ensures UnderflowAt(BodyCode(LoopInCleanup(v, t)), v, t, exit)
  {
    hide At, Cells, UnwindCells, BodyCode, Fill;
    var s := LoopInCleanup(v, t);
    var code := BodyCode(s);
    BodyPrefix(s);
    TryCells(code, s, 0, TOP, UNPATCHED);
    var c := TOP.Under(Cleanup(s.cleanup, 0));
    var handler := 1 + |Cells(s.body, 1, c)| + 1 + |Cells(s.cleanup, 1 + |Cells(s.body, 1, c)| + 1, TOP)| + 1;
    Fetch(code, 0, SetupFinally, handler);
    exit := ReturnInTryCode(code, v, s.cleanup, c);
  }

  lemma ConstCode(v: Value, at: nat)
    ensures ExprCode(Const(v), at) == One(LoadConst(v), 0)
  {}

  /** The code of a return that crosses such a cleanup. */
  lemma ReturnInTryCode(code: seq<Instr>, v: Value, loop: Stmt, c: Context) returns (exit: nat)
    requires loop.While? && loop.test.Const? && loop.body == Break && loop.orElse == End
    requires c == Context([], [Cleanup(loop, 0)], 0)
    requires At(code, 1, Fill(Cells(Return(Const(v)), 1, c), UNPATCHED))
    ensures At(code, 1, One(LoadConst(v), 0)) && At(code, 2, One(PopBlock, 0))
    ensures At(code, 3, ExprCode(loop.test, 3) + One(JumpIfFalse, exit))
    ensures At(code, 5, Pops(1)) && At(code, 6, One(Jump, exit)) && At(code, exit, One(ReturnOp, 0))
  {
    hide At, Cells, UnwindCells, Fill, Lift, ExprCode, Pops, Weight, FinsWeight;
    var d := c.(pending := 1);
    var e := Context([], [], 1);
    assert d.Outer() == e;
    var u := UnwindCells(2, d, true);
    var load, ret := One(LoadConst(v), 0), One(ReturnOp, 0);
    ReturnLayout(Return(Const(v)), 1, c);
    ConstCode(v, 1);
    FillLift(load, UNPATCHED);
    FillLift(ret, UNPATCHED);
    AtCells(code, 1, Lift(load) + u, Lift(ret), UNPATCHED);
    AtCells(code, 1, Lift(load), u, UNPATCHED);
    UnwindLayout(2, d, true);
    var pop, cells := One(PopBlock, 0), Cells(loop, 3, e);
    EmptyLayout(3 + |cells|, e);
    assert UnwindStep(2, d) == Lift(pop) + cells;
    assert u == Lift(pop) + cells + [];
    assert u == Lift(pop) + cells;
    FillLift(pop, UNPATCHED);
    AtCells(code, 2, Lift(pop), cells, UNPATCHED);
    exit := InlineLoopCode(code, loop, 3, e);
  }

  /** Such a loop emitted with one waiting return: its `break` pops it, then goes to the loop's end. */
  lemma InlineLoopCode(code: seq<Instr>, loop: Stmt, at: nat, e: Context) returns (exit: nat)
    requires loop.While? && loop.test.Const? && loop.body == Break && loop.orElse == End && e == Context([], [], 1)
    requires At(code, at, Fill(Cells(loop, at, e), UNPATCHED))
    ensures At(code, at, ExprCode(loop.test, at) + One(JumpIfFalse, exit))
    ensures At(code, at + 2, Pops(1)) && At(code, at + 3, One(Jump, exit)) && exit == at + |Cells(loop, at, e)|
  {
    hide At, Cells, UnwindCells;
    WhileCells(code, loop, at, e, UNPATCHED);
    exit := at + 2 + |Cells(Break, at + 2, e.InLoop(false))| + 1;
    EmptyLayout(exit, e);
    EmptyLayout(at + 2, e.InLoop(false));
    JumpCells(code, Break, at + 2, e.InLoop(false), Targets(exit, at, 0));
  }

  lemma BodyPrefix(s: Stmt)
    ensures At(BodyCode(s), 0, Fill(Cells(s, 0, TOP), UNPATCHED))
  {
    hide Cells, Fill;
    var a := Fill(Cells(s, 0, TOP), UNPATCHED);
    var ret := One(LoadConst(NoneValue), 0) + One(ReturnOp, 0);
    assert BodyCode(s) == a + ret;
    AtSplit(BodyCode(s), 0, a, ret);
  }

  lemma EmptyLayout(at: nat, c: Context)
    requires c.fins == []
    ensures Cells(End, at, c) == [] && UnwindCells(at, c, true) == [] && UnwindCells(at, c, false) == []
  {}

  /** Its source returns `v`; its code takes `v` off the stack in the cleanup's loop and underflows. */
  lemma LoopInCleanupUnderflows(rt: Runtime, v: Value, t: Value, w: World)
    requires rt.truthy(t, w) == Ok(true, w)
    ensures !Guarded(LoopInCleanup(v, t)) && !FreeJump(LoopInCleanup(v, t))
    ensures Exec(rt, LoopInCleanup(v, t), None, w, 1) == Done(Returning(v), w, 0)
    ensures exists n: nat :: PerformFor(rt, BodyCode(LoopInCleanup(v, t)), Start(w), n) == Crashed
  {
    hide BodyCode, RunFor, PerformFor, At, Exec, UnderflowAt;
    LoopInCleanupReturns(rt, v, t, w);
    assert !FreeJump(While(Const(t), Break, End));
    var exit := LoopInCleanupCode(v, t);
    var n := Underflow(rt, BodyCode(LoopInCleanup(v, t)), v, t, w, exit);
  }

  lemma Underflow(rt: Runtime, code: seq<Instr>, v: Value, t: Value, w: World, exit: nat) returns (n: nat)
    requires rt.truthy(t, w) == Ok(true, w) && UnderflowAt(code, v, t, exit)
    ensures PerformFor(rt, code, Start(w), n) == Crashed
  {
    hide RunFor, PerformFor, At, StepMachine, Step, Throw, Fill, ExprCode;
    var f := Frame(0, [], [], None, w);
    var block := FinallyBlock(code[0].operand, 0);
    RunOnce(rt, code, Start(w));
    SetupAt(rt, code, f);
    Fetch(code, 1, LoadConst(v), 0);
    RunOneMore(rt, code, Start(w), 1);
    StepLoad(rt, code, f.(pc := 1, blocks := [block]));
    assert [] + [v] == [v] && [] + [block] == [block];
    RunOneMore(rt, code, Start(w), 2);
    StepPopBlock(rt, code, block, f.(pc := 2, stack := [v]));
    n := UnderflowTail(rt, code, v, t, w, exit);
    RunForAdd(rt, code, Start(w), 3, n);
    StrictIsLenient(rt, code, Start(w), 3 + n);
    Fetch(code, exit, ReturnOp, 0);
    PerformOneMore(rt, code, Start(w), 3 + n);
    ReturnUnderflows(rt, code, f.(pc := exit, stack := []));
    n := 4 + n;
  }

  lemma {:induction false} PerformOneMore(rt: Runtime, code: seq<Instr>, m: Machine, n: nat)
    ensures var k := PerformFor(rt, code, m, n); k.Running? ==> PerformFor(rt, code, m, n + 1) == Perform(rt, code, k.frame)
    decreases n
  {
    hide Perform;
    if n > 0 { PerformOneMore(rt, code, if m.Running? then Perform(rt, code, m.frame) else m, n - 1); }
    else if m.Running? { var next := PerformFor(rt, code, Perform(rt, code, m.frame), 0); }
  }

  lemma UnderflowTail(rt: Runtime, code: seq<Instr>, v: Value, t: Value, w: World, exit: nat) returns (n: nat)
    requires rt.truthy(t, w) == Ok(true, w) && UnderflowAt(code, v, t, exit)
    ensures RunFor(rt, code, Running(Frame(3, [v], [], None, w)), n) == Running(Frame(exit, [], [], None, w))
  {
    hide RunFor, At, StepMachine, Step, Throw, Fill, ExprCode;
    var f := Frame(3, [v], [], None, w);
    ConstCode(t, 3);
    n := RunTest(rt, code, Const(t), f, exit);
    RunPops(rt, code, 1, f.(pc := 5));
    RunForAdd(rt, code, Running(f), n, 1);
    RunOneMore(rt, code, Running(f), n + 1);
    StepJump(rt, code, exit, f.(pc := 6, stack := []));
    n := n + 2;
  }

  lemma SetupAt(rt: Runtime, code: seq<Instr>, f: Frame)
    requires f == Frame(0, [], [], f.current, f.world) && |code| > 0 && code[0].op == SetupFinally
    ensures StepMachine(rt, code, Running(f)) == Running(f.(pc := 1, blocks := [FinallyBlock(code[0].operand, 0)]))
  {}

  lemma ReturnUnderflows(rt: Runtime, code: seq<Instr>, f: Frame)
    requires f.pc < |code| && code[f.pc].op == ReturnOp && f.stack == []
    ensures Perform(rt, code, f) == Crashed
  {}

  lemma LoopInCleanupReturns(rt: Runtime, v: Value, t: Value, w: World)
    requires rt.truthy(t, w) == Ok(true, w)
    ensures Exec(rt, LoopInCleanup(v, t), None, w, 1) == Done(Returning(v), w, 0)
  {
    var loop := While(Const(t), Break, End);
    assert Exec(rt, Break, None, w, 0) == Done(Breaking, w, 0);
    assert ExecWhile(rt, loop, None, w, 1) == Done(Normal, w, 0);
    assert Exec(rt, loop, None, w, 1) == Done(Normal, w, 0);
    assert Exec(rt, Return(Const(v)), None, w, 1) == Done(Returning(v), w, 1);
  }

  // ---- the other half of the guard ----

  /** `while t:` with `try: while u: return v` and `finally: break` in it */
  function ReturnThroughLoop(v: Value, t: Value, u: Value): Stmt {
    While(Const(t), TryFinally(While(Const(u), Return(Const(v)), End), Break), End)
  }

  /** The code up to where the return's copy of the cleanup jumps: to the end of the inner loop. */
  predicate UnbalancedAt(code: seq<Instr>, v: Value, t: Value, u: Value, handler: nat, outer: nat, inner: nat) {
    && At(code, 0, ExprCode(Const(t), 0) + One(JumpIfFalse, outer)) && At(code, 2, One(SetupFinally, handler))
    && At(code, 3, ExprCode(Const(u), 3) + One(JumpIfFalse, inner))
    && At(code, 5, One(LoadConst(v), 0)) && At(code, 6, One(PopBlock, 0))
    && At(code, 7, Pops(1)) && At(code, 8, One(Jump, inner)) && At(code, inner, One(PopBlock, 0))
  }

  lemma ReturnThroughLoopCode(v: Value, t: Value, u: Value) returns (handler: nat, outer: nat, inner: nat)
    ensures UnbalancedAt(BodyCode(ReturnThroughLoop(v, t, u)), v, t, u, handler, outer, inner)
  {
    hide At, Cells, UnwindCells, BodyCode, Fill, ExprCode;
    var s := ReturnThroughLoop(v, t, u);
    var code := BodyCode(s);
    BodyPrefix(s);
    ConstCode(t, 0);
    ConstCode(u, 3);
    WhileCells(code, s, 0, TOP, UNPATCHED);
    var c1 := TOP.InLoop(false);
    outer := 2 + |Cells(s.body, 2, c1)| + 1;
    var t1 := Targets(outer + |Cells(s.orElse, outer, TOP)|, 0, 0);
    TryCells(code, s.body, 2, c1, t1);
    var c2 := c1.Under(Cleanup(Break, 1));
    var loop := s.body.body;
    handler := 3 + |Cells(loop, 3, c2)| + 1 + |Cells(Break, 3 + |Cells(loop, 3, c2)| + 1, c1)| + 1;
    WhileCells(code, loop, 3, c2, t1);
    inner := 5 + |Cells(loop.body, 5, c2.InLoop(false))| + 1;
    EndCells(inner, c2);
    ReturnAcrossCode(code, v, c2.InLoop(false), Targets(inner + |Cells(End, inner, c2)|, 3, 0));
  }

  lemma EndCells(at: nat, c: Context)
    ensures Cells(End, at, c) == []
  {}

  lemma ReturnAcrossCode(code: seq<Instr>, v: Value, c: Context, t: Targets)
    requires c == Context([false, false], [Cleanup(Break, 1)], 0)
    requires At(code, 5, Fill(Cells(Return(Const(v)), 5, c), t))
    ensures At(code, 5, One(LoadConst(v), 0)) && At(code, 6, One(PopBlock, 0)) && At(code, 7, Pops(1)) && At(code, 8, One(Jump, t.brk))
  {
    hide At, Cells, UnwindCells, Fill, Lift, ExprCode, Pops, Weight, FinsWeight;
    var d := c.(pending := 1);
    var e := Context([false, false], [], 1);
    assert d.Outer() == e;
    var u := UnwindCells(6, d, true);
    var load, ret, pop := One(LoadConst(v), 0), One(ReturnOp, 0), One(PopBlock, 0);
    ReturnLayout(Return(Const(v)), 5, c);
    ConstCode(v, 5);
    FillLift(load, t);
    FillLift(pop, t);
    AtCells(code, 5, Lift(load) + u, Lift(ret), t);
    AtCells(code, 5, Lift(load), u, t);
    UnwindLayout(6, d, true);
    CleanupStep(6, d);
    var cells := Cells(Break, 7, e);
    EmptyLayout(7 + |cells|, e);
    assert u == Lift(pop) + cells + [];
    assert u == Lift(pop) + cells;
    AtCells(code, 6, Lift(pop), cells, t);
    EmptyLayout(7, e);
    JumpCells(code, Break, 7, e, t);
  }

  /**
   Its source ends both loops by the `break`. Its code takes the block off before that copy of the cleanup,
   which jumps only to the end of the inner loop, where another block is expected.
   */
  lemma ReturnThroughLoopUnbalances(rt: Runtime, v: Value, t: Value, u: Value, w: World)
    requires rt.truthy(t, w) == Ok(true, w) && rt.truthy(u, w) == Ok(true, w)
    ensures !Guarded(ReturnThroughLoop(v, t, u)) && !FreeJump(ReturnThroughLoop(v, t, u))
    ensures Exec(rt, ReturnThroughLoop(v, t, u), None, w, 2) == Done(Normal, w, 0)
    ensures exists n: nat :: RunFor(rt, BodyCode(ReturnThroughLoop(v, t, u)), Start(w), n) == Crashed
  {
    hide BodyCode, RunFor, At, Exec, UnbalancedAt;
    ReturnThroughLoopMeans(rt, v, t, u, w);
    assert FreeJump(Break) && LoopReturn(While(Const(u), Return(Const(v)), End));
    var handler, outer, inner := ReturnThroughLoopCode(v, t, u);
    var n := Unbalances(rt, BodyCode(ReturnThroughLoop(v, t, u)), v, t, u, w, handler, outer, inner);
  }

  lemma ReturnThroughLoopMeans(rt: Runtime, v: Value, t: Value, u: Value, w: World)
    requires rt.truthy(t, w) == Ok(true, w) && rt.truthy(u, w) == Ok(true, w)
    ensures Exec(rt, ReturnThroughLoop(v, t, u), None, w, 2) == Done(Normal, w, 0)
  {
    var inner := While(Const(u), Return(Const(v)), End);
    var body := TryFinally(inner, Break);
    assert Exec(rt, Return(Const(v)), None, w, 0) == Done(Returning(v), w, 0);
    assert ExecWhile(rt, inner, None, w, 1) == Done(Returning(v), w, 0);
    assert Exec(rt, inner, None, w, 1) == Done(Returning(v), w, 0);
    assert Exec(rt, Break, None, w, 0) == Done(Breaking, w, 0);
    assert Exec(rt, body, None, w, 1) == Done(Breaking, w, 0);
    assert ExecWhile(rt, ReturnThroughLoop(v, t, u), None, w, 2) == Done(Normal, w, 0);
  }

  lemma Unbalances(rt: Runtime, code: seq<Instr>, v: Value, t: Value, u: Value, w: World, handler: nat, outer: nat, inner: nat) returns (n: nat)
    requires rt.truthy(t, w) == Ok(true, w) && rt.truthy(u, w) == Ok(true, w) && UnbalancedAt(code, v, t, u, handler, outer, inner)
    ensures RunFor(rt, code, Start(w), n) == Crashed
  {
    hide RunFor, At, StepMachine, Step, Throw, Fill, ExprCode;
    var f := Frame(0, [], [], None, w);
    var block := FinallyBlock(handler, 0);
    ConstCode(t, 0);
    ConstCode(u, 3);
    n := RunTest(rt, code, Const(t), f, outer);
    RunOneMore(rt, code, Start(w), n);
    StepSetup(rt, code, handler, f.(pc := 2));
    assert [] + [block] == [block];
    var g := f.(pc := 3, blocks := [block]);
    var m := RunTest(rt, code, Const(u), g, inner);
    RunForAdd(rt, code, Start(w), n + 1, m);
    var k := ReturnAcross(rt, code, v, t, u, block, w, handler, outer, inner);
    RunForAdd(rt, code, Start(w), n + 1 + m, k);
    n := n + 1 + m + k;
  }

  lemma ReturnAcross(rt: Runtime, code: seq<Instr>, v: Value, t: Value, u: Value, block: Block, w: World, handler: nat, outer: nat, inner: nat) returns (n: nat)
    requires UnbalancedAt(code, v, t, u, handler, outer, inner) && block.FinallyBlock?
    ensures RunFor(rt, code, Running(Frame(5, [], [block], None, w)), n) == Crashed
  {
    hide RunFor, At, StepMachine, Step, Throw, Fill, ExprCode;
    var f := Frame(5, [], [], None, w);
    var start := Running(f.(blocks := [block]));
    RunOnce(rt, code, start);
    Fetch(code, 5, LoadConst(v), 0);
    StepLoad(rt, code, f.(blocks := [block]));
    assert [] + [v] == [v] && [] + [block] == [block];
    RunOneMore(rt, code, start, 1);
    StepPopBlock(rt, code, block, f.(pc := 6, stack := [v]));
    RunPops(rt, code, 1, f.(pc := 7, stack := [v]));
    RunForAdd(rt, code, start, 2, 1);
    RunOneMore(rt, code, start, 3);
    StepJump(rt, code, inner, f.(pc := 8));
    RunOneMore(rt, code, start, 4);
    Fetch(code, inner, PopBlock, 0);
    NoBlock(rt, code, f.(pc := inner));
    n := 5;
  }

  lemma NoBlock(rt: Runtime, code: seq<Instr>, f: Frame)
    requires f.pc < |code| && code[f.pc].op == PopBlock && f.blocks == []
    ensures StepMachine(rt, code, Running(f)) == Crashed
  {}
}
