/**
 Statement code simulates the source: started at the code of `s`, the machine arrives where
 the exit of `s` should take it, with the operand stack, the block stack and the exception
 state that place expects, and with the cleanups that the exit crosses run on the way.
 */
module PythonStatements {
  import opened Wrappers
  import opened PythonSource
  import opened PythonMachine
  import opened PythonLayout
  import opened PythonSteps
  import opened PythonExpressions

  // ---- leaving through pending cleanups, at the source level ----

  /** An exit once the pending cleanups it crosses have run; `left` of them are still pending. */
  datatype Final = Final(exit: Exit, left: nat, current: Option<Value>, world: World, fuel: nat) | FinalOutOfFuel

  datatype Drained =
    | Completed(left: nat, current: Option<Value>, world: World, fuel: nat)
    | Diverted(final: Final)

  /** Each pending cleanup has its block on the machine's block stack. */
  predicate BlocksMatch(fins: seq<Fin>, blocks: seq<Block>) {
    && |fins| == |blocks|
    && forall i :: 0 <= i < |fins| ==> (fins[i].Cleanup? <==> blocks[i].FinallyBlock?)
  }

  /** Runs the cleanups that a jump in `depth` loops (or, for `all`, a return) crosses. */
  function Drain(rt: Runtime, all: bool, fins: seq<Fin>, blocks: seq<Block>, depth: nat, current: Option<Value>, w: World, fuel: nat): (d: Drained)
    requires BlocksMatch(fins, blocks)
    ensures d.Completed? ==> d.left <= |fins| && d.fuel <= fuel
    ensures d.Diverted? && d.final.Final? ==> d.final.left < |fins| && d.final.fuel <= fuel && !d.final.exit.Normal?
    decreases |fins|, 0
  {
    if fins == [] || !(all || fins[|fins| - 1].depth == depth) then Completed(|fins|, current, w, fuel) else
    var outer, under := fins[..|fins| - 1], blocks[..|fins| - 1];
    match fins[|fins| - 1]
    case Handler(_) => Drain(rt, all, outer, under, depth, blocks[|fins| - 1].saved, w, fuel)
    case Cleanup(body, _) =>
      match Exec(rt, body, current, w, fuel)
      case OutOfFuel => Diverted(FinalOutOfFuel)
      case Done(y, w1, f1) =>
        if y.Normal? then Drain(rt, all, outer, under, depth, current, w1, f1)
        else Diverted(Finish(rt, y, outer, under, depth, current, w1, f1))
  }

  function Finish(rt: Runtime, x: Exit, fins: seq<Fin>, blocks: seq<Block>, depth: nat, current: Option<Value>, w: World, fuel: nat): (r: Final)
    requires BlocksMatch(fins, blocks)
    ensures r.Final? ==> r.left <= |fins| && r.fuel <= fuel && (r.exit.Normal? <==> x.Normal?)
    decreases |fins|, 1
  {
    if x.Normal? || x.Raising? then Final(x, |fins|, current, w, fuel) else
    match Drain(rt, x.Returning?, fins, blocks, depth, current, w, fuel)
    case Completed(left, now, w1, f1) => Final(x, left, now, w1, f1)
    case Diverted(final) => final
  }

  /** What a finished run of a statement comes to in its context and frame. */
  function Outward(rt: Runtime, r: Run, c: Context, f: Frame): Final
    requires BlocksMatch(c.fins, f.blocks)
  {
    match r
    case OutOfFuel => FinalOutOfFuel
    case Done(x, w, left) => Finish(rt, x, c.fins, f.blocks, |c.iterators|, f.current, w, left)
  }

  function Meaning(rt: Runtime, s: Stmt, c: Context, f: Frame, fuel: nat): Final
    requires BlocksMatch(c.fins, f.blocks)
  {
    Outward(rt, Exec(rt, s, f.current, f.world, fuel), c, f)
  }

  // ---- where that leaves the machine ----

  /**
   The machine at the landing point of an exit. `base` is the operand stack at the start of
   the innermost loop's body; a `for` keeps its iterator on top of it.
   */
  function Land(f: Frame, c: Context, t: Targets, base: seq<Value>, end: nat, r: Final): Machine
    requires r.Final? && r.left <= |f.blocks|
  {
    match r.exit
    case Normal => Running(f.(pc := end, world := r.world))
    case Breaking =>
      var stack := if InFor(c) && base != [] then base[..|base| - 1] else base;
      Running(Frame(t.brk, stack, f.blocks[..r.left], r.current, r.world))
    case Continuing => Running(Frame(t.cont, base, f.blocks[..r.left], r.current, r.world))
    case Returning(v) => Returned(v, r.world)
    case Raising(x) => Throw(f.stack, f.blocks[..r.left], r.current, r.world, x)
  }

  /**
   After `n` steps, at least one for every unit of fuel burnt, the machine has landed; or
   the fuel ran out and the machine is still running.
   */
  predicate Arrives(rt: Runtime, code: seq<Instr>, m: Machine, n: nat, fuel: nat, f: Frame, c: Context, t: Targets, base: seq<Value>, end: nat, r: Final)
    requires r.Final? ==> r.left <= |f.blocks|
  {
    match r
    case FinalOutOfFuel => n >= fuel && RunFor(rt, code, m, n).Running?
    case _ => n + r.fuel >= fuel && RunFor(rt, code, m, n) == Land(f, c, t, base, end, r)
  }

  // ---- the contexts a guarded program is compiled in ----

  predicate SomeFree(fins: seq<Fin>) {
    exists i :: 0 <= i < |fins| && fins[i].Cleanup? && FreeJump(fins[i].body)
  }

  lemma SomeFreeOuter(fins: seq<Fin>)
    requires fins != []
    ensures SomeFree(fins[..|fins| - 1]) ==> SomeFree(fins)
  {
    var outer := fins[..|fins| - 1];
    if SomeFree(outer) {
      var i :| 0 <= i < |outer| && outer[i].Cleanup? && FreeJump(outer[i].body);
      assert fins[i].Cleanup? && FreeJump(fins[i].body);
    }
  }

  /** The pending cleanup `fin` may be run by a return written in `s`. */
  predicate Crossable(s: Stmt, fin: Fin, depth: nat) {
    fin.Cleanup? ==>
      && (Returns(s) ==> !LoopJump(fin.body) && (FreeJump(fin.body) ==> fin.depth == depth))
      && (LoopReturn(s) ==> !FreeJump(fin.body))
  }

  predicate FinReady(fin: Fin, c: Context) {
    && fin.depth <= |c.iterators|
    && (fin.Cleanup? ==>
          && Guarded(fin.body)
          && (FreeJump(fin.body) ==> fin.depth > 0)
          && (c.pending > 0 ==> !LoopJump(fin.body)))
  }

  predicate FinsReady(c: Context) {
    && (forall i :: 0 <= i < |c.fins| ==> FinReady(c.fins[i], c))
    && (forall i, j :: 0 <= j < i < |c.fins| && c.fins[i].Cleanup? ==> Crossable(c.fins[i].body, c.fins[j], c.fins[i].depth))
  }

  predicate Ready(s: Stmt, c: Context) {
    && Guarded(s)
    && FinsReady(c)
    && (FreeJump(s) ==> c.iterators != [])
    && (LoopJump(s) ==> c.pending == 0)
    && (forall i :: 0 <= i < |c.fins| ==> Crossable(s, c.fins[i], |c.iterators|))
  }

  predicate NeedsLoop(s: Stmt, c: Context) {
    FreeJump(s) || (Returns(s) && SomeFree(c.fins))
  }

  /** The operand stack is the loop's own plus the return values waiting on it. */
  predicate InShape(c: Context, f: Frame, base: seq<Value>) {
    && c.iterators != []
    && |f.stack| == |base| + c.pending && f.stack[..|base|] == base
    && (InFor(c) ==> base != [])
  }

  lemma ReadyInLoop(s: Stmt, c: Context, hasIterator: bool)
    requires (s.While? || s.For?) && Ready(s, c)
    ensures Ready(s.body, c.InLoop(hasIterator))
    ensures NeedsLoop(s.body, c.InLoop(hasIterator)) ==> c.pending == 0
  {
    var d := c.InLoop(hasIterator);
    forall i | 0 <= i < |c.fins| ensures FinReady(d.fins[i], d) && Crossable(s.body, d.fins[i], |d.iterators|) {
      assert FinReady(c.fins[i], c) && Crossable(s, c.fins[i], |c.iterators|);
    }
    if Returns(s.body) { assert forall i :: 0 <= i < |c.fins| ==> Crossable(s, c.fins[i], |c.iterators|); }
  }

  /** A part that is compiled in the context of the whole statement is ready when the whole is. */
  lemma ReadyPart(s: Stmt, part: Stmt, c: Context)
    requires Ready(s, c)
    requires match s
             case Seq(head, tail) => part == head || part == tail
             case If(_, body, orElse) => part == body || part == orElse
             case While(_, _, orElse) => part == orElse
             case For(_, _, _, orElse) => part == orElse
             case TryFinally(_, cleanup) => part == cleanup
             case _ => false
    ensures Ready(part, c)
    ensures NeedsLoop(part, c) ==> NeedsLoop(s, c)
  {
    hide FinsReady, SomeFree;
    forall i | 0 <= i < |c.fins| ensures Crossable(part, c.fins[i], |c.iterators|) {
      assert Crossable(s, c.fins[i], |c.iterators|);
    }
  }

  lemma ReadyUnder(s: Stmt, c: Context, body: Stmt, fin: Fin)
    requires s.TryFinally? && Ready(s, c)
    requires || (body == s.body && fin == Cleanup(s.cleanup, |c.iterators|))
             || (body == s.cleanup && fin == Handler(|c.iterators|))
    ensures Ready(body, c.Under(fin))
    ensures NeedsLoop(body, c.Under(fin)) ==> NeedsLoop(s, c)
  {
    var d := c.Under(fin);
    assert FinReady(fin, d);
    forall i | 0 <= i < |d.fins| ensures FinReady(d.fins[i], d) && Crossable(body, d.fins[i], |d.iterators|) {
      if i < |c.fins| { assert FinReady(c.fins[i], c) && Crossable(s, c.fins[i], |c.iterators|); }
    }
    forall i, j | 0 <= j < i < |d.fins| && d.fins[i].Cleanup? ensures Crossable(d.fins[i].body, d.fins[j], d.fins[i].depth) {
      if i == |c.fins| { assert Crossable(s, c.fins[j], |c.iterators|); }
    }
    if SomeFree(d.fins) && !FreeJump(s) {
      var i :| 0 <= i < |d.fins| && d.fins[i].Cleanup? && FreeJump(d.fins[i].body);
      assert i < |c.fins| && c.fins[i] == d.fins[i];
    }
  }

  /** The context in which the innermost pending cleanup is emitted at a jump or return. */
  lemma ReadyCleanup(c: Context, all: bool)
    requires FinsReady(c) && c.MustRun(all) && c.Innermost().Cleanup?
    requires all ==> c.pending > 0 && forall i :: 0 <= i < |c.fins| ==> Crossable(Return(Const(NoneValue)), c.fins[i], |c.iterators|)
    ensures Ready(c.Innermost().body, c.Outer())
    ensures NeedsLoop(c.Innermost().body, c.Outer()) ==> SomeFree(c.fins)
  {
    var k := |c.fins| - 1;
    var body := c.fins[k].body;
    assert FinReady(c.fins[k], c);
    forall j | 0 <= j < k ensures FinReady(c.Outer().fins[j], c.Outer()) && Crossable(body, c.Outer().fins[j], |c.iterators|) {
      assert FinReady(c.fins[j], c) && Crossable(body, c.fins[j], c.fins[k].depth);
      if all { assert Crossable(Return(Const(NoneValue)), c.fins[j], |c.iterators|); }
    }
    SomeFreeOuter(c.fins);
  }

  // ---- code that is made of cells ----

  lemma AtCells(code: seq<Instr>, pc: nat, a: seq<Cell>, b: seq<Cell>, t: Targets)
    ensures At(code, pc, Fill(a + b, t)) <==> At(code, pc, Fill(a, t)) && At(code, pc + |a|, Fill(b, t))
  {
    FillConcat(a, b, t);
    AtSplit(code, pc, Fill(a, t), Fill(b, t));
  }

  // ---- the simulation ----

  /** The machine is about to run the code of `s` in a context a guarded program gives it. */
  predicate Entered(code: seq<Instr>, s: Stmt, c: Context, t: Targets, base: seq<Value>, f: Frame) {
    && At(code, f.pc, Fill(Cells(s, f.pc, c), t))
    && Ready(s, c)
    && BlocksMatch(c.fins, f.blocks) && DepthsWithin(f.blocks, |f.stack|)
    && (NeedsLoop(s, c) ==> InShape(c, f, base))
  }

  /** After `n` steps the machine is where the meaning of `s` puts it. */
  predicate Simulated(rt: Runtime, code: seq<Instr>, s: Stmt, c: Context, t: Targets, base: seq<Value>, f: Frame, fuel: nat, n: nat)
    requires BlocksMatch(c.fins, f.blocks)
  {
    Arrives(rt, code, Running(f), n, fuel, f, c, t, base, f.pc + |Cells(s, f.pc, c)|, Meaning(rt, s, c, f, fuel))
  }

  /** Extends a run that has reached a running frame by a further run from it. */
  lemma ArrivesAfter(rt: Runtime, code: seq<Instr>, m: Machine, n: nat, g: Frame, k: nat, fuel: nat, left: nat,
                     f: Frame, c: Context, t: Targets, base: seq<Value>, end: nat, r: Final)
    requires r.Final? ==> r.left <= |f.blocks|
    requires RunFor(rt, code, m, n) == Running(g)
    requires Arrives(rt, code, Running(g), k, left, f, c, t, base, end, r)
    requires n + left >= fuel
    ensures Arrives(rt, code, m, n + k, fuel, f, c, t, base, end, r)
  {
    hide RunFor, Land;
    RunForAdd(rt, code, m, n, k);
  }

  lemma {:induction false} RunStmt(rt: Runtime, code: seq<Instr>, s: Stmt, c: Context, t: Targets, base: seq<Value>, f: Frame, fuel: nat) returns (n: nat)
    requires Entered(code, s, c, t, base, f)
    ensures Simulated(rt, code, s, c, t, base, f, fuel, n)
    decreases Weight(s) + FinsWeight(c.fins), fuel, 4
  {
    hide RunFor, StepMachine, At, Throw, ExprCode, Ready, NeedsLoop, InShape;
    RunOnce(rt, code, Running(f));
    assert f.blocks[..|c.fins|] == f.blocks;
    n := 0;
    match s
    case End =>
    case Pass =>
    case Seq(_, _) => n := RunSeq(rt, code, s, c, t, base, f, fuel);
    case ExprStmt(_) => n := RunSimple(rt, code, s, c, t, base, f, fuel);
    case Assign(_, _) => n := RunSimple(rt, code, s, c, t, base, f, fuel);
    case If(_, _, _) => n := RunIf(rt, code, s, c, t, base, f, fuel);
    case While(_, _, _) => n := RunWhile(rt, code, s, c, t, base, f, fuel);
    case For(_, _, _, _) => n := RunForStmt(rt, code, s, c, t, base, f, fuel);
    case Break => n := RunJump(rt, code, s, c, t, base, f, fuel);
    case Continue => n := RunJump(rt, code, s, c, t, base, f, fuel);
    case Return(_) => n := RunReturn(rt, code, s, c, t, base, f, fuel);
    case Raise(_) => n := RunSimple(rt, code, s, c, t, base, f, fuel);
    case RaiseCurrent =>
      FillLift(One(RaiseOp, 0), t);
      StepRaiseCurrent(rt, code, f);
      n := 1;
    case TryFinally(_, _) => n := RunTry(rt, code, s, c, t, base, f, fuel);
  }

  /** A statement that evaluates one expression and uses its value in one instruction. */
  lemma {:induction false} RunSimple(rt: Runtime, code: seq<Instr>, s: Stmt, c: Context, t: Targets, base: seq<Value>, f: Frame, fuel: nat) returns (n: nat)
    requires s.ExprStmt? || s.Assign? || s.Raise?
    requires Entered(code, s, c, t, base, f)
    ensures Simulated(rt, code, s, c, t, base, f, fuel, n)
  {
    hide RunFor, StepMachine, At, Throw, ExprCode, Ready, NeedsLoop, InShape;
    assert f.blocks[..|c.fins|] == f.blocks;
    var a := ExprCode(s.value, f.pc);
    var last := if s.ExprStmt? then One(Pop, 0) else if s.Assign? then One(StoreLocal(s.target), 0) else One(RaiseOp, 1);
    FillLift(a + last, t);
    AtSplit(code, f.pc, a, last);
    n := RunExpr(rt, code, s.value, f);
    var r := Eval(rt, s.value, f.world);
    if r.Ok? {
      var g := f.(pc := f.pc + |a|, world := r.world);
      RunOneMore(rt, code, Running(f), n);
      n := n + 1;
      match s
      case ExprStmt(_) => StepPop(rt, code, r.value, g);
      case Assign(x, _) => StepStore(rt, code, x, r.value, g);
      case Raise(_) => StepRaise(rt, code, r.value, g);
    }
  }

  lemma {:induction false} RunSeq(rt: Runtime, code: seq<Instr>, s: Stmt, c: Context, t: Targets, base: seq<Value>, f: Frame, fuel: nat) returns (n: nat)
    requires s.Seq?
    requires Entered(code, s, c, t, base, f)
    ensures Simulated(rt, code, s, c, t, base, f, fuel, n)
    decreases Weight(s) + FinsWeight(c.fins), fuel, 1
  {
    hide At, Cells, Drain, Fill, FinsReady, NeedsLoop, Ready, RunFor, SomeFree, Throw, UnwindCells;
    SeqLayout(s, f.pc, c);
    var a := Cells(s.head, f.pc, c);
    AtCells(code, f.pc, a, Cells(s.tail, f.pc + |a|, c), t);
    ReadyPart(s, s.head, c);
    ReadyPart(s, s.tail, c);
    n := RunStmt(rt, code, s.head, c, t, base, f, fuel);
    var r := Exec(rt, s.head, f.current, f.world, fuel);
    if r.Done? && r.exit.Normal? {
      var g := f.(pc := f.pc + |a|, world := r.world);
      var k := RunStmt(rt, code, s.tail, c, t, base, g, r.fuel);
      ArrivesAfter(rt, code, Running(f), n, g, k, fuel, r.fuel, f, c, t, base, f.pc + |Cells(s, f.pc, c)|, Meaning(rt, s, c, f, fuel));
      n := n + k;
    }
  }

  lemma {:induction false} RunIf(rt: Runtime, code: seq<Instr>, s: Stmt, c: Context, t: Targets, base: seq<Value>, f: Frame, fuel: nat) returns (n: nat)
    requires s.If?
    requires Entered(code, s, c, t, base, f)
    ensures Simulated(rt, code, s, c, t, base, f, fuel, n)
    decreases Weight(s) + FinsWeight(c.fins), fuel, 1
  {
    hide At, Cells, Drain, ExprCode, Fill, FinsReady, NeedsLoop, Ready, RunFor, SomeFree, StepMachine, Throw, UnwindCells;
    assert f.blocks[..|c.fins|] == f.blocks;
    var a := ExprCode(s.test, f.pc);
    var b := Cells(s.body, f.pc + |a| + 1, c);
    var elseAt := f.pc + |a| + 1 + |b| + if s.orElse == End then 0 else 1;
    var o := Cells(s.orElse, elseAt, c);
    var end := elseAt + |o|;
    var test := a + One(JumpIfFalse, elseAt);
    IfCells(code, s, f.pc, c, t);
    n := RunTest(rt, code, s.test, f, elseAt);
    var r := Test(rt, s.test, f.world);
    if r.Ok? {
      var g := f.(pc := if r.value then f.pc + |a| + 1 else elseAt, world := r.world);
      var branch := if r.value then s.body else s.orElse;
      ReadyPart(s, branch, c);
      var k := RunStmt(rt, code, branch, c, t, base, g, fuel);
      var m := Meaning(rt, branch, c, g, fuel);
      if r.value && s.orElse != End && m.Final? && m.exit.Normal? {
        RunOneMore(rt, code, Running(g), k);
        StepJump(rt, code, end, g.(pc := elseAt - 1, world := m.world));
        k := k + 1;
      }
      ArrivesAfter(rt, code, Running(f), n, g, k, fuel, fuel, f, c, t, base, end, m);
      n := n + k;
    }
  }

  lemma IfLayout(s: Stmt, at: nat, c: Context)
    requires s.If?
    ensures var a := ExprCode(s.test, at);
            var b := Cells(s.body, at + |a| + 1, c);
            var elseAt := at + |a| + 1 + |b| + if s.orElse == End then 0 else 1;
            var o := Cells(s.orElse, elseAt, c);
            && (s.orElse == End ==> o == [])
            && Cells(s, at, c) == IfShape(a + One(JumpIfFalse, elseAt), b, if s.orElse == End then [] else One(Jump, elseAt + |o|), o)
  {
    hide ExprCode, UnwindCells, Fill, Lift, One, TryShape, LoopShape, IfShape, Pops, FinsWeight, Weight;
    if s.orElse == End {
      EndLayout(at + |ExprCode(s.test, at)| + 1 + |Cells(s.body, at + |ExprCode(s.test, at)| + 1, c)|, c);
    }
  }

  lemma EndLayout(at: nat, c: Context)
    ensures Cells(End, at, c) == []
  {}

  lemma IfCells(code: seq<Instr>, s: Stmt, at: nat, c: Context, t: Targets)
    requires s.If? && At(code, at, Fill(Cells(s, at, c), t))
    ensures var a := ExprCode(s.test, at);
            var b := Cells(s.body, at + |a| + 1, c);
            var elseAt := at + |a| + 1 + |b| + if s.orElse == End then 0 else 1;
            var o := Cells(s.orElse, elseAt, c);
            && At(code, at, a + One(JumpIfFalse, elseAt))
            && At(code, at + |a| + 1, Fill(b, t))
            && At(code, elseAt, Fill(o, t))
            && (if s.orElse == End then o == [] else At(code, elseAt - 1, One(Jump, elseAt + |o|)))
            && |Cells(s, at, c)| == elseAt + |o| - at
  {
    hide ExprCode, At, Cells;
    IfLayout(s, at, c);
    var a := ExprCode(s.test, at);
    var b := Cells(s.body, at + |a| + 1, c);
    var elseAt := at + |a| + 1 + |b| + if s.orElse == End then 0 else 1;
    var o := Cells(s.orElse, elseAt, c);
    var test := a + One(JumpIfFalse, elseAt);
    var skip := if s.orElse == End then [] else One(Jump, elseAt + |o|);
    FillLift(test, t);
    FillLift(skip, t);
    AtCells(code, at, Lift(test) + b + Lift(skip), o, t);
    AtCells(code, at, Lift(test) + b, Lift(skip), t);
    AtCells(code, at, Lift(test), b, t);
  }

  lemma WhileLayout(s: Stmt, at: nat, c: Context)
    requires s.While?
    ensures var a := ExprCode(s.test, at);
            var b := Cells(s.body, at + |a| + 1, c.InLoop(false));
            var exit := at + |a| + 1 + |b| + 1;
            var o := Cells(s.orElse, exit, c);
            Cells(s, at, c) == LoopShape(a + One(JumpIfFalse, exit), b, at, exit, o)
  {
    hide ExprCode, UnwindCells, Fill, Lift, One, TryShape, LoopShape, IfShape, Pops, FinsWeight, Weight;
  }

  lemma ForLayout(s: Stmt, at: nat, c: Context)
    requires s.For?
    ensures var a := ExprCode(s.iterable, at);
            var top := at + |a| + 1;
            var b := Cells(s.body, top + 2, c.InLoop(true));
            var exit := top + 2 + |b| + 1;
            var o := Cells(s.orElse, exit, c);
            Cells(s, at, c) == LoopShape(a + One(GetIterator, 0) + One(ForIterate, exit) + One(StoreLocal(s.target), 0), b, top, exit, o)
  {
    hide ExprCode, UnwindCells, Fill, Lift, One, TryShape, LoopShape, IfShape, Pops, FinsWeight, Weight;
  }

  lemma JumpLayout(s: Stmt, at: nat, c: Context)
    requires s.Break? || s.Continue?
    ensures var extra := if s.Break? && InFor(c) then 1 else 0;
            var kind := if s.Break? then BreakHole else ContinueHole;
            Cells(s, at, c) == UnwindCells(at, c, false) + Lift(Pops(c.pending + extra)) + [Hole(kind, Jump)]
  {
    hide UnwindCells, Lift;
  }

  lemma ReturnLayout(s: Stmt, at: nat, c: Context)
    requires s.Return?
    ensures var a := ExprCode(s.value, at);
            Cells(s, at, c) == Lift(a) + UnwindCells(at + |a|, c.(pending := c.pending + 1), true) + Lift(One(ReturnOp, 0))
  {
    hide ExprCode, UnwindCells, Lift;
  }

  lemma TryLayout(s: Stmt, at: nat, c: Context)
    requires s.TryFinally?
    ensures var b := Cells(s.body, at + 1, c.Under(Cleanup(s.cleanup, |c.iterators|)));
            var f := Cells(s.cleanup, at + 1 + |b| + 1, c);
            var handler := at + 1 + |b| + 1 + |f| + 1;
            var h := Cells(s.cleanup, handler, c.Under(Handler(|c.iterators|)));
            Cells(s, at, c) == TryShape(handler, b, f, h)
  {
    hide ExprCode, UnwindCells, Fill, Lift, One, LoopShape, IfShape, TryShape, Pops, FinsWeight, Weight;
  }

  lemma UnwindLayout(at: nat, c: Context, all: bool)
    requires c.MustRun(all)
    ensures var step := UnwindStep(at, c);
            UnwindCells(at, c, all) == step + UnwindCells(at + |step|, c.Outer(), all)
  {
    hide UnwindStep;
  }

  lemma UnwindEmpty(at: nat, c: Context, all: bool)
    requires !c.MustRun(all)
    ensures UnwindCells(at, c, all) == []
  {}

  lemma HandlerStep(at: nat, c: Context)
    requires c.fins != [] && c.Innermost().Handler?
    ensures UnwindStep(at, c) == Lift(One(EndHandler, 0))
  {}

  lemma CleanupStep(at: nat, c: Context)
    requires c.fins != [] && c.Innermost().Cleanup?
    ensures UnwindStep(at, c) == Lift(One(PopBlock, 0)) + Cells(c.Innermost().body, at + 1, c.Outer())
  {}

  lemma SeqLayout(s: Stmt, at: nat, c: Context)
    requires s.Seq?
    ensures var a := Cells(s.head, at, c);
            Cells(s, at, c) == a + Cells(s.tail, at + |a|, c)
  {
    hide ExprCode, UnwindCells, Fill, Lift, TryShape, LoopShape, IfShape, Pops, FinsWeight;
  }

  // ---- loops ----

  /** The pieces of a `while` in the code: its test, its resolved body, its back jump and its `else`. */
  lemma WhileCells(code: seq<Instr>, s: Stmt, at: nat, c: Context, t: Targets)
    requires s.While? && At(code, at, Fill(Cells(s, at, c), t))
    ensures var a := ExprCode(s.test, at);
            var b := Cells(s.body, at + |a| + 1, c.InLoop(false));
            var exit := at + |a| + 1 + |b| + 1;
            var o := Cells(s.orElse, exit, c);
            && At(code, at, a + One(JumpIfFalse, exit))
            && At(code, at + |a| + 1, Fill(b, Targets(exit + |o|, at, 0)))
            && At(code, exit - 1, One(Jump, at))
            && At(code, exit, Fill(o, t))
            && |Cells(s, at, c)| == exit + |o| - at
  {
    hide ExprCode, At, Cells;
    WhileLayout(s, at, c);
    var a := ExprCode(s.test, at);
    var b := Cells(s.body, at + |a| + 1, c.InLoop(false));
    var exit := at + |a| + 1 + |b| + 1;
    var o := Cells(s.orElse, exit, c);
    var test := a + One(JumpIfFalse, exit);
    var body := Fill(b, Targets(exit + |o|, at, 0));
    FillLift(test + body + One(Jump, at), t);
    AtCells(code, at, Lift(test + body + One(Jump, at)), o, t);
    AtSplit(code, at, test + body, One(Jump, at));
    AtSplit(code, at, test, body);
  }

  /** A return that leaves a loop crosses no cleanup that could divert it to a jump. */
  lemma {:induction false} DrainPastLoop(rt: Runtime, fins: seq<Fin>, blocks: seq<Block>, d: nat, e: nat, current: Option<Value>, w: World, fuel: nat)
    requires BlocksMatch(fins, blocks) && !SomeFree(fins)
    ensures var r := Drain(rt, true, fins, blocks, d, current, w, fuel);
            && r == Drain(rt, true, fins, blocks, e, current, w, fuel)
            && (r.Diverted? && r.final.Final? ==> r.final.exit.Returning? || r.final.exit.Raising?)
    decreases |fins|
  {
    if fins != [] {
      var k := |fins| - 1;
      var outer, under := fins[..k], blocks[..k];
      SomeFreeOuter(fins);
      match fins[k]
      case Handler(_) => DrainPastLoop(rt, outer, under, d, e, blocks[k].saved, w, fuel);
      case Cleanup(body, _) =>
        assert !FreeJump(body);
        ExitsAreWritten(rt, body, current, w, fuel);
        var r := Exec(rt, body, current, w, fuel);
        if r.Done? { DrainPastLoop(rt, outer, under, d, e, current, r.world, r.fuel); }
    }
  }

  /** The exit of a loop body as the loop sees it: jumps land in the loop, the rest leaves it. */
  lemma LeaveBody(rt: Runtime, s: Stmt, c: Context, hasIterator: bool, f: Frame, r: Run)
    requires (s.While? || s.For?) && Ready(s, c) && BlocksMatch(c.fins, f.blocks)
    requires Written(s.body, r)
    ensures var m := Outward(rt, r, c.InLoop(hasIterator), f);
            && (r.Done? && (r.exit.Breaking? || r.exit.Continuing?) ==> m == Final(r.exit, |c.fins|, f.current, r.world, r.fuel))
            && (r.Done? && r.exit.Returning? ==> m == Outward(rt, r, c, f) && (m.Final? ==> m.exit.Returning? || m.exit.Raising?))
  {
    hide Drain;
    if r.Done? {
      if r.exit.Returning? {
        forall i | 0 <= i < |c.fins| && c.fins[i].Cleanup? ensures !FreeJump(c.fins[i].body) {
          assert Crossable(s, c.fins[i], |c.iterators|);
        }
        DrainPastLoop(rt, c.fins, f.blocks, |c.iterators|, |c.iterators| + 1, f.current, r.world, r.fuel);
      } else if r.exit.Breaking? || r.exit.Continuing? {
        if c.fins != [] { assert FinReady(c.fins[|c.fins| - 1], c); }
        NothingToDrain(rt, c.fins, f.blocks, |c.iterators| + 1, f.current, r.world, r.fuel);
      }
    }
  }

  lemma NothingToDrain(rt: Runtime, fins: seq<Fin>, blocks: seq<Block>, depth: nat, current: Option<Value>, w: World, fuel: nat)
    requires BlocksMatch(fins, blocks)
    requires fins != [] ==> fins[|fins| - 1].depth != depth
    ensures Drain(rt, false, fins, blocks, depth, current, w, fuel) == Completed(|fins|, current, w, fuel)
  {}

  /** Values pushed on top of a frame make no difference to where an abnormal exit lands. */
  lemma LandIgnoresTop(f: Frame, extra: seq<Value>, c: Context, d: Context, t: Targets, u: Targets, base: seq<Value>, base': seq<Value>, end: nat, r: Final)
    requires r.Final? && r.left <= |f.blocks| && DepthsWithin(f.blocks, |f.stack|)
    requires r.exit.Returning? || r.exit.Raising?
    ensures Land(f.(stack := f.stack + extra), c, t, base, end, r) == Land(f, d, u, base', end, r)
  {
    if r.exit.Raising? {
      ThrowIgnoresTop(f.stack, extra, f.blocks[..r.left], r.current, r.world, r.exit.exn);
    }
  }

  lemma {:induction false} RunWhile(rt: Runtime, code: seq<Instr>, s: Stmt, c: Context, t: Targets, base: seq<Value>, f: Frame, fuel: nat) returns (n: nat)
    requires s.While?
    requires Entered(code, s, c, t, base, f)
    ensures Simulated(rt, code, s, c, t, base, f, fuel, n)
    decreases Weight(s) + FinsWeight(c.fins), fuel, 1
  {
    hide At, Cells, Drain, ExprCode, Fill, FinsReady, NeedsLoop, Ready, RunFor, SomeFree, StepMachine, Throw, UnwindCells;
    assert f.blocks[..|c.fins|] == f.blocks;
    RunOnce(rt, code, Running(f));
    n := 0;
    assert Exec(rt, s, f.current, f.world, fuel) == ExecWhile(rt, s, f.current, f.world, fuel);
    if fuel > 0 {
      var a := ExprCode(s.test, f.pc);
      var b := Cells(s.body, f.pc + |a| + 1, c.InLoop(false));
      var exit := f.pc + |a| + 1 + |b| + 1;
      var end := exit + |Cells(s.orElse, exit, c)|;
      WhileCells(code, s, f.pc, c, t);
      n := RunTest(rt, code, s.test, f, exit);
      var r := Test(rt, s.test, f.world);
      if r.Ok? {
        var k;
        var g := f.(pc := if r.value then f.pc + |a| + 1 else exit, world := r.world);
        if r.value {
          k := RunWhileBody(rt, code, s, c, t, base, f, g, fuel);
        } else {
          ReadyPart(s, s.orElse, c);
          k := RunStmt(rt, code, s.orElse, c, t, base, g, fuel - 1);
        }
        ArrivesAfter(rt, code, Running(f), n, g, k, fuel, fuel - 1, f, c, t, base, end, Meaning(rt, s, c, f, fuel));
        n := n + k;
      }
    }
  }

  /** One iteration whose test held, and every iteration after it. */
  lemma {:induction false} RunWhileBody(rt: Runtime, code: seq<Instr>, s: Stmt, c: Context, t: Targets, base: seq<Value>, f: Frame, g: Frame, fuel: nat) returns (n: nat)
    requires s.While? && fuel > 0
    requires Entered(code, s, c, t, base, f)
    requires var r := Test(rt, s.test, f.world);
             r.Ok? && r.value && g == f.(pc := f.pc + |ExprCode(s.test, f.pc)| + 1, world := r.world)
    ensures Arrives(rt, code, Running(g), n, fuel - 1, f, c, t, base, f.pc + |Cells(s, f.pc, c)|, Meaning(rt, s, c, f, fuel))
    decreases Weight(s) + FinsWeight(c.fins), fuel, 0
  {
    hide RunFor, StepMachine, At, Throw, FinsReady, ExprCode, Cells, Fill, Drain;
    assert f.blocks[..|c.fins|] == f.blocks;
    var inner := c.InLoop(false);
    var b := Cells(s.body, g.pc, inner);
    var exit := g.pc + |b| + 1;
    var end := exit + |Cells(s.orElse, exit, c)|;
    WhileCells(code, s, f.pc, c, t);
    ReadyInLoop(s, c, false);
    assert Exec(rt, s, f.current, f.world, fuel) == ExecWhile(rt, s, f.current, f.world, fuel);
    n := RunStmt(rt, code, s.body, inner, Targets(end, f.pc, 0), f.stack, g, fuel - 1);
    ExitsAreWritten(rt, s.body, g.current, g.world, fuel - 1);
    var r := Exec(rt, s.body, g.current, g.world, fuel - 1);
    LeaveBody(rt, s, c, false, g, r);
    if r.Done? && (r.exit.Normal? || r.exit.Continuing?) {
      if r.exit.Normal? {
        RunOneMore(rt, code, Running(g), n);
        StepJump(rt, code, f.pc, f.(pc := exit - 1, world := r.world));
        n := n + 1;
      }
      var top := f.(world := r.world);
      var k := RunWhile(rt, code, s, c, t, base, top, r.fuel);
      ArrivesAfter(rt, code, Running(g), n, top, k, fuel - 1, r.fuel, f, c, t, base, end, Meaning(rt, s, c, f, fuel));
      n := n + k;
    }
  }

  lemma ForCells(code: seq<Instr>, s: Stmt, at: nat, c: Context, t: Targets)
    requires s.For? && At(code, at, Fill(Cells(s, at, c), t))
    ensures var a := ExprCode(s.iterable, at);
            var top := at + |a| + 1;
            var b := Cells(s.body, top + 2, c.InLoop(true));
            var exit := top + 2 + |b| + 1;
            var o := Cells(s.orElse, exit, c);
            && At(code, at, a)
            && At(code, at + |a|, One(GetIterator, 0))
            && At(code, top, One(ForIterate, exit))
            && At(code, top + 1, One(StoreLocal(s.target), 0))
            && At(code, top + 2, Fill(b, Targets(exit + |o|, top, 0)))
            && At(code, exit - 1, One(Jump, top))
            && At(code, exit, Fill(o, t))
            && |Cells(s, at, c)| == exit + |o| - at
  {
    hide ExprCode, At, Cells;
    ForLayout(s, at, c);
    var a := ExprCode(s.iterable, at);
    var top := at + |a| + 1;
    var b := Cells(s.body, top + 2, c.InLoop(true));
    var exit := top + 2 + |b| + 1;
    var o := Cells(s.orElse, exit, c);
    var body := Fill(b, Targets(exit + |o|, top, 0));
    var get, next, store, jump := One(GetIterator, 0), One(ForIterate, exit), One(StoreLocal(s.target), 0), One(Jump, top);
    FillLift(a + get + next + store + body + jump, t);
    AtCells(code, at, Lift(a + get + next + store + body + jump), o, t);
    AtSplit(code, at, a + get + next + store + body, jump);
    AtSplit(code, at, a + get + next + store, body);
    AtSplit(code, at, a + get + next, store);
    AtSplit(code, at, a + get, next);
    AtSplit(code, at, a, get);
  }

  lemma {:induction false} RunForStmt(rt: Runtime, code: seq<Instr>, s: Stmt, c: Context, t: Targets, base: seq<Value>, f: Frame, fuel: nat) returns (n: nat)
    requires s.For?
    requires Entered(code, s, c, t, base, f)
    ensures Simulated(rt, code, s, c, t, base, f, fuel, n)
    decreases Weight(s) + FinsWeight(c.fins), fuel, 2
  {
    hide RunFor, StepMachine, At, Throw, FinsReady, ExprCode, Cells, Fill, Drain;
    assert f.blocks[..|c.fins|] == f.blocks;
    var a := ExprCode(s.iterable, f.pc);
    ForCells(code, s, f.pc, c, t);
    n := RunExpr(rt, code, s.iterable, f);
    var r := Eval(rt, s.iterable, f.world);
    if r.Ok? {
      RunOneMore(rt, code, Running(f), n);
      StepGetIterator(rt, code, r.value, f.(pc := f.pc + |a|, world := r.world));
      n := n + 1;
      var it := rt.getIterator(r.value, r.world);
      if it.Ok? {
        var top := f.(pc := f.pc + |a| + 1, world := it.world);
        var k := RunForLoop(rt, code, s, it.value, c, t, base, f, top, fuel);
        var end := f.pc + |Cells(s, f.pc, c)|;
        ArrivesAfter(rt, code, Running(f), n, top.(stack := f.stack + [it.value]), k, fuel, fuel, f, c, t, base, end, Meaning(rt, s, c, f, fuel));
        n := n + k;
      }
    }
  }

  /** The loop from its top, the iterator on the stack: `top` is the frame beneath it. */
  lemma {:induction false} RunForLoop(rt: Runtime, code: seq<Instr>, s: Stmt, it: Value, c: Context, t: Targets, base: seq<Value>, f: Frame, top: Frame, fuel: nat) returns (n: nat)
    requires s.For?
    requires Entered(code, s, c, t, base, f)
    requires top == f.(pc := f.pc + |ExprCode(s.iterable, f.pc)| + 1, world := top.world)
    ensures Arrives(rt, code, Running(top.(stack := top.stack + [it])), n, fuel, f, c, t, base, f.pc + |Cells(s, f.pc, c)|,
                    Outward(rt, ExecFor(rt, s, it, f.current, top.world, fuel), c, f))
    decreases Weight(s) + FinsWeight(c.fins), fuel, 1
  {
    hide At, Cells, Drain, ExprCode, Fill, FinsReady, NeedsLoop, Ready, RunFor, SomeFree, StepMachine, Throw, UnwindCells;
    assert f.blocks[..|c.fins|] == f.blocks;
    var start := Running(top.(stack := top.stack + [it]));
    RunOnce(rt, code, start);
    n := 0;
    if fuel > 0 {
      var exit := top.pc + 2 + |Cells(s.body, top.pc + 2, c.InLoop(true))| + 1;
      var end := exit + |Cells(s.orElse, exit, c)|;
      ForCells(code, s, f.pc, c, t);
      StepForIterate(rt, code, exit, it, top);
      n := 1;
      var r := rt.next(it, top.world);
      var meaning := Outward(rt, ExecFor(rt, s, it, f.current, top.world, fuel), c, f);
      if r.Ok? && r.value.None? {
        ReadyPart(s, s.orElse, c);
        var g := top.(pc := exit, world := r.world);
        var k := RunStmt(rt, code, s.orElse, c, t, base, g, fuel - 1);
        ArrivesAfter(rt, code, start, n, g, k, fuel, fuel - 1, f, c, t, base, end, meaning);
        n := n + k;
      } else if r.Ok? {
        RunOneMore(rt, code, start, 1);
        StepStore(rt, code, s.target, r.value.value, top.(pc := top.pc + 1, stack := top.stack + [it], world := r.world));
        n := 2;
        var g := top.(pc := top.pc + 2, stack := top.stack + [it], world := Store(s.target, r.value.value, r.world));
        var k := RunForBody(rt, code, s, it, c, t, base, f, g, fuel - 1);
        ArrivesAfter(rt, code, start, n, g, k, fuel, fuel - 1, f, c, t, base, end, meaning);
        n := n + k;
      }
    }
  }

  /** What a `for` goes on to do once its body has run. */
  function AfterBody(rt: Runtime, s: Stmt, it: Value, current: Option<Value>, r: Run): Run
    requires s.For?
  {
    match r
    case OutOfFuel => OutOfFuel
    case Done(x, w, left) =>
      match x
      case Normal => ExecFor(rt, s, it, current, w, left)
      case Continuing => ExecFor(rt, s, it, current, w, left)
      case Breaking => Done(Normal, w, left)
      case _ => Done(x, w, left)
  }

  /** One iteration with its item stored, and every iteration after it. */
  lemma {:induction false} RunForBody(rt: Runtime, code: seq<Instr>, s: Stmt, it: Value, c: Context, t: Targets, base: seq<Value>, f: Frame, g: Frame, fuel: nat) returns (n: nat)
    requires s.For?
    requires Entered(code, s, c, t, base, f)
    requires g == f.(pc := f.pc + |ExprCode(s.iterable, f.pc)| + 3, stack := f.stack + [it], world := g.world)
    ensures Arrives(rt, code, Running(g), n, fuel, f, c, t, base, f.pc + |Cells(s, f.pc, c)|,
                    Outward(rt, AfterBody(rt, s, it, f.current, Exec(rt, s.body, f.current, g.world, fuel)), c, f))
    decreases Weight(s) + FinsWeight(c.fins), fuel + 1, 0
  {
    hide RunFor, StepMachine, At, Throw, FinsReady, ExprCode, Cells, Fill, Drain, ExecFor;
    assert f.blocks[..|c.fins|] == f.blocks;
    var inner := c.InLoop(true);
    var loopTop := g.pc - 2;
    var exit := g.pc + |Cells(s.body, g.pc, inner)| + 1;
    var end := exit + |Cells(s.orElse, exit, c)|;
    ForCells(code, s, f.pc, c, t);
    ReadyInLoop(s, c, true);
    n := RunStmt(rt, code, s.body, inner, Targets(end, loopTop, 0), g.stack, g, fuel);
    ExitsAreWritten(rt, s.body, g.current, g.world, fuel);
    var r := Exec(rt, s.body, g.current, g.world, fuel);
    LeaveBody(rt, s, c, true, g, r);
    var meaning := Outward(rt, AfterBody(rt, s, it, f.current, r), c, f);
    if r.Done? && (r.exit.Normal? || r.exit.Continuing?) {
      if r.exit.Normal? {
        RunOneMore(rt, code, Running(g), n);
        StepJump(rt, code, loopTop, g.(pc := exit - 1, world := r.world));
        n := n + 1;
      }
      var top := f.(pc := loopTop, world := r.world);
      var k := RunForLoop(rt, code, s, it, c, t, base, f, top, r.fuel);
      ArrivesAfter(rt, code, Running(g), n, top.(stack := g.stack), k, fuel, r.fuel, f, c, t, base, end, meaning);
      n := n + k;
    } else if r.Done? && r.exit.Breaking? {
      assert g.stack[..|g.stack| - 1] == f.stack;
    } else if r.Done? && meaning.Final? {
      LandIgnoresTop(f, [it], inner, c, Targets(end, loopTop, 0), t, g.stack, base, end, meaning);
    }
  }

  // ---- jumps, returns and cleanups ----

  lemma {:induction false} RunPops(rt: Runtime, code: seq<Instr>, k: nat, f: Frame)
    requires At(code, f.pc, Pops(k)) && k <= |f.stack|
    ensures RunFor(rt, code, Running(f), k) == Running(f.(pc := f.pc + k, stack := f.stack[..|f.stack| - k]))
    decreases k
  {
    hide StepMachine, At;
    if k == 0 {
      assert f.stack[..|f.stack|] == f.stack;
    } else {
      assert Pops(k) == One(Pop, 0) + Pops(k - 1);
      AtSplit(code, f.pc, One(Pop, 0), Pops(k - 1));
      var m := |f.stack| - 1;
      assert f.stack == f.stack[..m] + [f.stack[m]];
      var g := f.(pc := f.pc + 1, stack := f.stack[..m]);
      StepPop(rt, code, f.stack[m], f.(stack := f.stack[..m]));
      RunPops(rt, code, k - 1, g);
      assert g.stack[..|g.stack| - (k - 1)] == f.stack[..|f.stack| - k];
    }
  }

  /** The contexts in which the cleanups that a jump or a return crosses are emitted. */
  predicate CanUnwind(c: Context, all: bool, f: Frame, base: seq<Value>) {
    && FinsReady(c)
    && BlocksMatch(c.fins, f.blocks) && DepthsWithin(f.blocks, |f.stack|)
    && (all ==> c.pending > 0 && forall i :: 0 <= i < |c.fins| ==> Crossable(Return(Const(NoneValue)), c.fins[i], |c.iterators|))
    && (!all || SomeFree(c.fins) ==> InShape(c, f, base))
  }

  lemma CanUnwindOuter(c: Context, all: bool, f: Frame, base: seq<Value>, current: Option<Value>, pc: nat, w: World)
    requires CanUnwind(c, all, f, base) && c.fins != []
    ensures CanUnwind(c.Outer(), all, f.(pc := pc, blocks := f.blocks[..|f.blocks| - 1], current := current, world := w), base)
  {
    var d := c.Outer();
    forall i | 0 <= i < |d.fins| ensures FinReady(d.fins[i], d) && (all ==> Crossable(Return(Const(NoneValue)), d.fins[i], |d.iterators|)) {
      assert FinReady(c.fins[i], c);
    }
    SomeFreeOuter(c.fins);
  }

  /** Where the inlined cleanups leave the machine: after them, or wherever one of them diverts it. */
  predicate Unwound(rt: Runtime, code: seq<Instr>, m: Machine, n: nat, fuel: nat, f: Frame, c: Context, t: Targets, base: seq<Value>, end: nat, d: Drained)
    requires d.Completed? ==> d.left <= |f.blocks|
    requires d.Diverted? && d.final.Final? ==> d.final.left <= |f.blocks|
  {
    match d
    case Completed(left, current, w, f1) =>
      n + f1 >= fuel && RunFor(rt, code, m, n) == Running(f.(pc := end, blocks := f.blocks[..left], current := current, world := w))
    case Diverted(final) => Arrives(rt, code, m, n, fuel, f, c, t, base, end, final)
  }

  lemma {:induction false} RunUnwind(rt: Runtime, code: seq<Instr>, all: bool, c: Context, t: Targets, base: seq<Value>, f: Frame, fuel: nat) returns (n: nat)
    requires At(code, f.pc, Fill(UnwindCells(f.pc, c, all), t))
    requires CanUnwind(c, all, f, base)
    ensures Unwound(rt, code, Running(f), n, fuel, f, c, t, base, f.pc + |UnwindCells(f.pc, c, all)|,
                    Drain(rt, all, c.fins, f.blocks, |c.iterators|, f.current, f.world, fuel))
    decreases FinsWeight(c.fins), 0, 4
  {
    hide RunFor, StepMachine, At, Land, FinsReady, Cells, Fill, InShape, SomeFree, Exec, UnwindCells, Crossable, Drain, FinsWeight;
    RunOnce(rt, code, Running(f));
    n := 0;
    if !c.MustRun(all) {
      assert f.blocks[..|c.fins|] == f.blocks;
      UnwindEmpty(f.pc, c, all);
      DrainNothing(rt, all, c, f, fuel);
    } else if c.Innermost().Cleanup? {
      n := RunCleanup(rt, code, all, c, t, base, f, fuel);
    } else {
      var k := |c.fins| - 1;
      var g := f.(pc := f.pc + 1, blocks := f.blocks[..k], current := f.blocks[k].saved);
      LeaveHandler(rt, code, all, c, t, base, f);
      DrainInnermost(rt, all, c, f, fuel);
      LighterOutside(c);
      n := RunUnwind(rt, code, all, c.Outer(), t, base, g, fuel);
      UnwoundAfter(rt, code, 1, n, fuel, fuel, f, g, c, t, base, f.pc + |UnwindCells(f.pc, c, all)|,
                   Drain(rt, all, c.Outer().fins, g.blocks, |c.iterators|, g.current, g.world, fuel));
      n := 1 + n;
    }
  }

  lemma LighterOutside(c: Context)
    requires c.fins != []
    ensures FinsWeight(c.Outer().fins) < FinsWeight(c.fins)
  {}

  lemma DrainNothing(rt: Runtime, all: bool, c: Context, f: Frame, fuel: nat)
    requires !c.MustRun(all) && BlocksMatch(c.fins, f.blocks)
    ensures Drain(rt, all, c.fins, f.blocks, |c.iterators|, f.current, f.world, fuel) == Completed(|c.fins|, f.current, f.world, fuel)
  {}

  /** A handler that is left is only ended: its exception is put away. */
  lemma LeaveHandler(rt: Runtime, code: seq<Instr>, all: bool, c: Context, t: Targets, base: seq<Value>, f: Frame)
    requires c.MustRun(all) && c.Innermost().Handler?
    requires At(code, f.pc, Fill(UnwindCells(f.pc, c, all), t))
    requires CanUnwind(c, all, f, base)
    ensures var k := |c.fins| - 1;
            && f.blocks[k].HandlerBlock?
            && var g := f.(pc := f.pc + 1, blocks := f.blocks[..k], current := f.blocks[k].saved);
               && StepMachine(rt, code, Running(f)) == Running(g) && CanUnwind(c.Outer(), all, g, base)
               && At(code, g.pc, Fill(UnwindCells(g.pc, c.Outer(), all), t))
               && |UnwindCells(f.pc, c, all)| == 1 + |UnwindCells(g.pc, c.Outer(), all)|
  {
    hide StepMachine, At, FinsReady, Cells, Fill, InShape, SomeFree, UnwindCells, UnwindStep, Crossable;
    var k := |c.fins| - 1;
    assert f.blocks == f.blocks[..k] + [f.blocks[k]];
    UnwindLayout(f.pc, c, all);
    HandlerStep(f.pc, c);
    FillLift(One(EndHandler, 0), t);
    AtCells(code, f.pc, UnwindStep(f.pc, c), UnwindCells(f.pc + 1, c.Outer(), all), t);
    StepEndHandler(rt, code, f.blocks[k], f.(blocks := f.blocks[..k]));
    CanUnwindOuter(c, all, f, base, f.blocks[k].saved, f.pc + 1, f.world);
  }

  lemma UnwoundFurther(f: Frame, g: Frame, c: Context)
    requires f.blocks != [] && g.blocks == f.blocks[..|f.blocks| - 1]
    ensures forall k :: 0 <= k <= |g.blocks| ==> g.blocks[..k] == f.blocks[..k]
  {}

  /** The pieces of an inlined cleanup: the end of its block, its code, and the cleanups after it. */
  lemma CleanupCells(code: seq<Instr>, at: nat, c: Context, all: bool, t: Targets)
    requires c.MustRun(all) && c.Innermost().Cleanup?
    requires At(code, at, Fill(UnwindCells(at, c, all), t))
    ensures var b := Cells(c.Innermost().body, at + 1, c.Outer());
            var u := UnwindCells(at + 1 + |b|, c.Outer(), all);
            && At(code, at, One(PopBlock, 0))
            && At(code, at + 1, Fill(b, t))
            && At(code, at + 1 + |b|, Fill(u, t))
            && |UnwindCells(at, c, all)| == 1 + |b| + |u|
  {
    hide At, Cells, UnwindCells, UnwindStep;
    var b := Cells(c.Innermost().body, at + 1, c.Outer());
    UnwindLayout(at, c, all);
    CleanupStep(at, c);
    FillLift(One(PopBlock, 0), t);
    AtCells(code, at, UnwindStep(at, c), UnwindCells(at + 1 + |b|, c.Outer(), all), t);
    AtCells(code, at, Lift(One(PopBlock, 0)), b, t);
  }

  /** An inlined cleanup is entered by taking its own block off the block stack. */
  lemma EnterCleanup(rt: Runtime, code: seq<Instr>, all: bool, c: Context, t: Targets, base: seq<Value>, f: Frame)
    requires c.MustRun(all) && c.Innermost().Cleanup?
    requires At(code, f.pc, Fill(UnwindCells(f.pc, c, all), t))
    requires CanUnwind(c, all, f, base)
    ensures var g := f.(pc := f.pc + 1, blocks := f.blocks[..|c.fins| - 1]);
            && StepMachine(rt, code, Running(f)) == Running(g)
            && Entered(code, c.Innermost().body, c.Outer(), t, base, g)
  {
    hide StepMachine, At, FinsReady, Cells, UnwindCells, Fill, SomeFree, Ready, NeedsLoop, Crossable;
    var k := |c.fins| - 1;
    CleanupCells(code, f.pc, c, all, t);
    ReadyCleanup(c, all);
    assert f.blocks == f.blocks[..k] + [f.blocks[k]];
    StepPopBlock(rt, code, f.blocks[k], f.(blocks := f.blocks[..k]));
  }

  /** An exit that leaves a cleanup abnormally lands the same seen from the code that runs it. */
  lemma DivertedFurther(rt: Runtime, code: seq<Instr>, f: Frame, g: Frame, n: nat, fuel: nat, c: Context, t: Targets, base: seq<Value>, end: nat, end': nat, r: Final)
    requires f.blocks != [] && g == f.(pc := g.pc, blocks := f.blocks[..|f.blocks| - 1])
    requires c.fins != []
    requires r.Final? ==> r.left <= |g.blocks| && !r.exit.Normal?
    requires StepMachine(rt, code, Running(f)) == Running(g)
    requires Arrives(rt, code, Running(g), n, fuel, g, c.Outer(), t, base, end, r)
    ensures Arrives(rt, code, Running(f), 1 + n, fuel, f, c, t, base, end', r)
  {
    hide RunFor, StepMachine, Throw;
    RunOnce(rt, code, Running(f));
    RunForAdd(rt, code, Running(f), 1, n);
    UnwoundFurther(f, g, c);
  }

  /** Cleanups that go on from a frame with fewer blocks leave the machine where the whole does. */
  lemma UnwoundAfter(rt: Runtime, code: seq<Instr>, n: nat, m: nat, fuel: nat, left: nat, f: Frame, h: Frame, c: Context, t: Targets, base: seq<Value>, end: nat, d: Drained)
    requires c.fins != [] && f.blocks != []
    requires h == f.(pc := h.pc, blocks := f.blocks[..|f.blocks| - 1], current := h.current, world := h.world)
    requires d.Completed? ==> d.left <= |h.blocks|
    requires d.Diverted? && d.final.Final? ==> d.final.left <= |h.blocks| && !d.final.exit.Normal?
    requires RunFor(rt, code, Running(f), n) == Running(h) && n + left >= fuel
    requires Unwound(rt, code, Running(h), m, left, h, c.Outer(), t, base, end, d)
    ensures Unwound(rt, code, Running(f), n + m, fuel, f, c, t, base, end, d)
  {
    hide RunFor, Throw;
    RunForAdd(rt, code, Running(f), n, m);
    UnwoundFurther(f, h, c);
  }

  /** Draining past one more pending cleanup: it is run, or ended, before those beneath it. */
  function DrainPast(rt: Runtime, all: bool, fin: Fin, block: Block, fins: seq<Fin>, blocks: seq<Block>, depth: nat, current: Option<Value>, w: World, fuel: nat): Drained
    requires BlocksMatch(fins, blocks) && (fin.Cleanup? <==> block.FinallyBlock?)
  {
    match fin
    case Handler(_) => Drain(rt, all, fins, blocks, depth, block.saved, w, fuel)
    case Cleanup(body, _) =>
      match Exec(rt, body, current, w, fuel)
      case OutOfFuel => Diverted(FinalOutOfFuel)
      case Done(y, w1, f1) =>
        if y.Normal? then Drain(rt, all, fins, blocks, depth, current, w1, f1)
        else Diverted(Finish(rt, y, fins, blocks, depth, current, w1, f1))
  }

  lemma DrainTop(rt: Runtime, all: bool, fins: seq<Fin>, fin: Fin, blocks: seq<Block>, block: Block, depth: nat, current: Option<Value>, w: World, fuel: nat)
    requires BlocksMatch(fins, blocks) && (fin.Cleanup? <==> block.FinallyBlock?) && (all || fin.depth == depth)
    ensures BlocksMatch(fins + [fin], blocks + [block])
    ensures Drain(rt, all, fins + [fin], blocks + [block], depth, current, w, fuel)
         == DrainPast(rt, all, fin, block, fins, blocks, depth, current, w, fuel)
  {
    hide Exec;
    var fins', blocks' := fins + [fin], blocks + [block];
    assert fins'[..|fins'| - 1] == fins && blocks'[..|fins'| - 1] == blocks;
  }

  /** Draining begins with the innermost cleanup, in the context outside it. */
  lemma DrainInnermost(rt: Runtime, all: bool, c: Context, f: Frame, fuel: nat)
    requires c.MustRun(all) && BlocksMatch(c.fins, f.blocks)
    ensures var k := |c.fins| - 1;
            && BlocksMatch(c.Outer().fins, f.blocks[..k])
            && (c.fins[k].Cleanup? <==> f.blocks[k].FinallyBlock?)
            && Drain(rt, all, c.fins, f.blocks, |c.iterators|, f.current, f.world, fuel)
            == DrainPast(rt, all, c.fins[k], f.blocks[k], c.Outer().fins, f.blocks[..k], |c.iterators|, f.current, f.world, fuel)
  {
    hide Drain, DrainPast;
    var k := |c.fins| - 1;
    assert c.fins == c.fins[..k] + [c.fins[k]] && f.blocks == f.blocks[..k] + [f.blocks[k]];
    DrainTop(rt, all, c.fins[..k], c.fins[k], f.blocks[..k], f.blocks[k], |c.iterators|, f.current, f.world, fuel);
  }

  /** The innermost cleanup, run in the context outside it, and the cleanups after it. */
  lemma {:induction false} RunCleanup(rt: Runtime, code: seq<Instr>, all: bool, c: Context, t: Targets, base: seq<Value>, f: Frame, fuel: nat) returns (n: nat)
    requires c.MustRun(all) && c.Innermost().Cleanup?
    requires At(code, f.pc, Fill(UnwindCells(f.pc, c, all), t))
    requires CanUnwind(c, all, f, base)
    ensures Unwound(rt, code, Running(f), n, fuel, f, c, t, base, f.pc + |UnwindCells(f.pc, c, all)|,
                    Drain(rt, all, c.fins, f.blocks, |c.iterators|, f.current, f.world, fuel))
    decreases FinsWeight(c.fins), 0, 3
  {
    hide RunFor, StepMachine, At, Cells, UnwindCells, Fill, Exec, Entered, Drain, Land, Weight, FinsReady, SomeFree, InShape, Crossable;
    var k := |c.fins| - 1;
    var outer, body := c.Outer(), c.Innermost().body;
    var g := f.(pc := f.pc + 1, blocks := f.blocks[..k]);
    var end := f.pc + |UnwindCells(f.pc, c, all)|;
    CleanupCells(code, f.pc, c, all, t);
    EnterCleanup(rt, code, all, c, t, base, f);
    DrainInnermost(rt, all, c, f, fuel);
    n := RunStmt(rt, code, body, outer, t, base, g, fuel);
    var r := Exec(rt, body, f.current, f.world, fuel);
    var after := g.pc + |Cells(body, g.pc, outer)|;
    if r.Done? && r.exit.Normal? {
      var h := g.(pc := after, world := r.world);
      RunAgain(rt, code, f, g, n, h, fuel, r.fuel, outer, t, base, after);
      CanUnwindOuter(c, all, f, base, h.current, h.pc, h.world);
      var m := RunUnwind(rt, code, all, outer, t, base, h, r.fuel);
      UnwoundAfter(rt, code, 1 + n, m, fuel, r.fuel, f, h, c, t, base, end,
                   Drain(rt, all, outer.fins, h.blocks, |c.iterators|, h.current, h.world, r.fuel));
      n := 1 + n + m;
    } else {
      DivertedFurther(rt, code, f, g, n, fuel, c, t, base, after, end, Meaning(rt, body, outer, g, fuel));
      n := 1 + n;
    }
  }

  /** A cleanup that ends normally leaves the machine behind its code. */
  lemma RunAgain(rt: Runtime, code: seq<Instr>, f: Frame, g: Frame, n: nat, h: Frame, fuel: nat, left: nat, c: Context, t: Targets, base: seq<Value>, end: nat)
    requires StepMachine(rt, code, Running(f)) == Running(g)
    requires h == g.(pc := end, world := h.world)
    requires Arrives(rt, code, Running(g), n, fuel, g, c, t, base, end, Final(Normal, |g.blocks|, g.current, h.world, left))
    ensures RunFor(rt, code, Running(f), 1 + n) == Running(h) && 1 + n + left >= fuel
  {
    hide RunFor, StepMachine;
    RunOnce(rt, code, Running(f));
    RunForAdd(rt, code, Running(f), 1, n);
  }

  lemma JumpCells(code: seq<Instr>, s: Stmt, at: nat, c: Context, t: Targets)
    requires (s.Break? || s.Continue?) && At(code, at, Fill(Cells(s, at, c), t))
    ensures var u := UnwindCells(at, c, false);
            var pops := c.pending + if s.Break? && InFor(c) then 1 else 0;
            && At(code, at, Fill(u, t))
            && At(code, at + |u|, Pops(pops))
            && At(code, at + |u| + pops, One(Jump, if s.Break? then t.brk else t.cont))
  {
    hide At, Cells, UnwindCells;
    JumpLayout(s, at, c);
    var u := UnwindCells(at, c, false);
    var pops := Pops(c.pending + if s.Break? && InFor(c) then 1 else 0);
    var hole := [Hole(if s.Break? then BreakHole else ContinueHole, Jump)];
    AtCells(code, at, u + Lift(pops), hole, t);
    AtCells(code, at, u, Lift(pops), t);
    FillLift(pops, t);
    assert Fill(hole, t) == One(Jump, if s.Break? then t.brk else t.cont);
  }

  lemma {:induction false} RunJump(rt: Runtime, code: seq<Instr>, s: Stmt, c: Context, t: Targets, base: seq<Value>, f: Frame, fuel: nat) returns (n: nat)
    requires s.Break? || s.Continue?
    requires Entered(code, s, c, t, base, f)
    ensures Simulated(rt, code, s, c, t, base, f, fuel, n)
    decreases Weight(s) + FinsWeight(c.fins), fuel, 1
  {
    hide RunFor, StepMachine, At, Throw, FinsReady, Cells, UnwindCells, Fill, Drain, SomeFree;
    JumpCells(code, s, f.pc, c, t);
    n := RunUnwind(rt, code, false, c, t, base, f, fuel);
    var d := Drain(rt, false, c.fins, f.blocks, |c.iterators|, f.current, f.world, fuel);
    if d.Completed? {
      var extra := if s.Break? && InFor(c) then 1 else 0;
      var pops := c.pending + extra;
      var g := Frame(f.pc + |UnwindCells(f.pc, c, false)|, f.stack, f.blocks[..d.left], d.current, d.world);
      RunPops(rt, code, pops, g);
      RunForAdd(rt, code, Running(f), n, pops);
      RunOneMore(rt, code, Running(f), n + pops);
      assert f.stack[..|f.stack| - pops] == base[..|base| - extra];
      assert base[..|base|] == base;
      StepJump(rt, code, if s.Break? then t.brk else t.cont, g.(pc := g.pc + pops, stack := base[..|base| - extra]));
      n := n + pops + 1;
    }
  }

  lemma {:induction false} RunReturn(rt: Runtime, code: seq<Instr>, s: Stmt, c: Context, t: Targets, base: seq<Value>, f: Frame, fuel: nat) returns (n: nat)
    requires s.Return?
    requires Entered(code, s, c, t, base, f)
    ensures Simulated(rt, code, s, c, t, base, f, fuel, n)
    decreases Weight(s) + FinsWeight(c.fins), fuel, 1
  {
    hide RunFor, StepMachine, At, Throw, Cells, UnwindCells, Fill, Drain, SomeFree, ExprCode;
    assert f.blocks[..|c.fins|] == f.blocks;
    var a := ExprCode(s.value, f.pc);
    var d := c.(pending := c.pending + 1);
    var u := UnwindCells(f.pc + |a|, d, true);
    ReturnLayout(s, f.pc, c);
    FillLift(a, t);
    FillLift(One(ReturnOp, 0), t);
    AtCells(code, f.pc, Lift(a) + u, Lift(One(ReturnOp, 0)), t);
    AtCells(code, f.pc, Lift(a), u, t);
    n := RunExpr(rt, code, s.value, f);
    var r := Eval(rt, s.value, f.world);
    if r.Ok? {
      var g := f.(pc := f.pc + |a|, stack := f.stack + [r.value], world := r.world);
      ReturnCanUnwind(s, c, f, base, g, r.value);
      var k := RunUnwind(rt, code, true, d, t, base, g, fuel);
      RunForAdd(rt, code, Running(f), n, k);
      n := n + k;
      var drained := Drain(rt, true, c.fins, f.blocks, |c.iterators|, f.current, r.world, fuel);
      if drained.Completed? {
        RunOneMore(rt, code, Running(f), n);
        StepReturn(rt, code, r.value, Frame(g.pc + |u|, f.stack, f.blocks[..drained.left], drained.current, drained.world));
        n := n + 1;
      } else if drained.final.Final? && drained.final.exit.Raising? {
        LandIgnoresTop(f, [r.value], d, c, t, t, base, base, f.pc + |Cells(s, f.pc, c)|, drained.final);
      }
    }
  }

  lemma ReturnCanUnwind(s: Stmt, c: Context, f: Frame, base: seq<Value>, g: Frame, v: Value)
    requires s.Return? && Ready(s, c)
    requires BlocksMatch(c.fins, f.blocks) && DepthsWithin(f.blocks, |f.stack|)
    requires NeedsLoop(s, c) ==> InShape(c, f, base)
    requires g == f.(pc := g.pc, stack := f.stack + [v], world := g.world)
    ensures CanUnwind(c.(pending := c.pending + 1), true, g, base)
  {
    var d := c.(pending := c.pending + 1);
    forall i | 0 <= i < |d.fins| ensures FinReady(d.fins[i], d) && Crossable(Return(Const(NoneValue)), d.fins[i], |d.iterators|) {
      assert FinReady(c.fins[i], c) && Crossable(s, c.fins[i], |c.iterators|);
    }
    if SomeFree(c.fins) { assert (f.stack + [v])[..|base|] == f.stack[..|base|]; }
  }

  /** The pieces of a `try`/`finally`: the body, the cleanup inline, and the cleanup as a handler. */
  lemma TryCells(code: seq<Instr>, s: Stmt, at: nat, c: Context, t: Targets)
    requires s.TryFinally? && At(code, at, Fill(Cells(s, at, c), t))
    ensures var b := Cells(s.body, at + 1, c.Under(Cleanup(s.cleanup, |c.iterators|)));
            var f := Cells(s.cleanup, at + 1 + |b| + 1, c);
            var handler := at + 1 + |b| + 1 + |f| + 1;
            var h := Cells(s.cleanup, handler, c.Under(Handler(|c.iterators|)));
            && At(code, at, One(SetupFinally, handler))
            && At(code, at + 1, Fill(b, t))
            && At(code, at + 1 + |b|, One(PopBlock, 0))
            && At(code, at + 1 + |b| + 1, Fill(f, t))
            && At(code, handler - 1, One(Jump, handler + |h| + 1))
            && At(code, handler, Fill(h, t))
            && At(code, handler + |h|, One(ReRaise, 0))
            && |Cells(s, at, c)| == handler + |h| + 1 - at
  {
    hide At, Cells;
    TryLayout(s, at, c);
    var b := Cells(s.body, at + 1, c.Under(Cleanup(s.cleanup, |c.iterators|)));
    var f := Cells(s.cleanup, at + 1 + |b| + 1, c);
    var handler := at + 1 + |b| + 1 + |f| + 1;
    var h := Cells(s.cleanup, handler, c.Under(Handler(|c.iterators|)));
    var setup, pop, skip, last := One(SetupFinally, handler), One(PopBlock, 0), One(Jump, handler + |h| + 1), One(ReRaise, 0);
    FillLift(setup, t);
    FillLift(pop, t);
    FillLift(skip, t);
    FillLift(last, t);
    AtCells(code, at, Lift(setup) + b + Lift(pop) + f + Lift(skip) + h, Lift(last), t);
    AtCells(code, at, Lift(setup) + b + Lift(pop) + f + Lift(skip), h, t);
    AtCells(code, at, Lift(setup) + b + Lift(pop) + f, Lift(skip), t);
    AtCells(code, at, Lift(setup) + b + Lift(pop), f, t);
    AtCells(code, at, Lift(setup) + b, Lift(pop), t);
    AtCells(code, at, Lift(setup), b, t);
  }

  /** The code of a `try` with its cleanup's handler at a known address. */
  predicate TryEntered(code: seq<Instr>, s: Stmt, c: Context, t: Targets, base: seq<Value>, f: Frame, normal: nat, handler: nat) {
    && s.TryFinally?
    && Entered(code, s, c, t, base, f)
    && var b := Cells(s.body, f.pc + 1, c.Under(Cleanup(s.cleanup, |c.iterators|)));
       normal == f.pc + 1 + |b| + 1 && handler == normal + |Cells(s.cleanup, normal, c)| + 1
  }

  /** The rest of a `try` whose body ran normally: the inline cleanup and the jump over the handler. */
  lemma {:induction false} RunTryNormal(rt: Runtime, code: seq<Instr>, s: Stmt, c: Context, t: Targets, base: seq<Value>, f: Frame, normal: nat, handler: nat, w: World, fuel: nat) returns (n: nat)
    requires TryEntered(code, s, c, t, base, f, normal, handler)
    ensures Arrives(rt, code, Running(f.(pc := normal, world := w)), n, fuel, f, c, t, base, f.pc + |Cells(s, f.pc, c)|,
                    Outward(rt, Exec(rt, s.cleanup, f.current, w, fuel), c, f))
    decreases Weight(s) + FinsWeight(c.fins), fuel, 1
  {
    hide At, Cells, Drain, Fill, FinsReady, FinsWeight, NeedsLoop, Ready, RunFor, SomeFree, StepMachine, Throw, UnwindCells;
    TryCells(code, s, f.pc, c, t);
    ReadyPart(s, s.cleanup, c);
    var g := f.(pc := normal, world := w);
    n := RunStmt(rt, code, s.cleanup, c, t, base, g, fuel);
    var r := Exec(rt, s.cleanup, f.current, w, fuel);
    if r.Done? && r.exit.Normal? {
      RunOneMore(rt, code, Running(g), n);
      StepJump(rt, code, f.pc + |Cells(s, f.pc, c)|, g.(pc := handler - 1, world := r.world));
      n := n + 1;
    }
  }

  /** A cleanup run as a handler: its own exit wins, or the exception goes on. */
  function AfterHandler(exn: Value, r: Run): Run {
    if r.Done? && r.exit.Normal? then Done(Raising(exn), r.world, r.fuel) else r
  }

  lemma HandlerMeaning(rt: Runtime, c: Context, f: Frame, block: Block, exn: Value, r: Run)
    requires BlocksMatch(c.fins, f.blocks) && block.HandlerBlock? && block.saved == f.current
    requires r.Done? ==> !r.exit.Normal?
    ensures var inner := Outward(rt, r, c.Under(Handler(|c.iterators|)), f.(blocks := f.blocks + [block], current := Some(exn)));
            if r.Done? && r.exit.Raising? then
              && inner == Final(r.exit, |c.fins| + 1, Some(exn), r.world, r.fuel)
              && Outward(rt, r, c, f) == Final(r.exit, |c.fins|, f.current, r.world, r.fuel)
            else inner == Outward(rt, r, c, f)
  {
    hide Exec;
    if r.Done? {
      DrainTop(rt, r.exit.Returning?, c.fins, Handler(|c.iterators|), f.blocks, block, |c.iterators|, Some(exn), r.world, r.fuel);
    }
  }

  /** An exception in the body of a `try` enters the handler, in the place of the body's block. */
  lemma EnterHandler(code: seq<Instr>, s: Stmt, c: Context, t: Targets, base: seq<Value>, f: Frame, normal: nat, handler: nat, exn: Value, w: World)
    requires TryEntered(code, s, c, t, base, f, normal, handler)
    ensures var g := f.(pc := handler, blocks := f.blocks + [HandlerBlock(handler, |f.stack|, f.current)], current := Some(exn), world := w);
            && Throw(f.stack, f.blocks + [FinallyBlock(handler, |f.stack|)], f.current, w, exn) == Running(g)
            && Entered(code, s.cleanup, c.Under(Handler(|c.iterators|)), t, base, g)
            && g.blocks[..|f.blocks|] == f.blocks
  {
    hide At, FinsReady, Cells, Fill, Ready, NeedsLoop, SomeFree;
    TryCells(code, s, f.pc, c, t);
    ReadyUnder(s, c, s.cleanup, Handler(|c.iterators|));
    assert (f.blocks + [FinallyBlock(handler, |f.stack|)])[..|f.blocks|] == f.blocks;
  }

  /** The rest of a `try` whose body raised: the machine has just entered the handler. */
  lemma {:induction false} RunTryRaising(rt: Runtime, code: seq<Instr>, s: Stmt, c: Context, t: Targets, base: seq<Value>, f: Frame, normal: nat, handler: nat, exn: Value, w: World, fuel: nat) returns (n: nat)
    requires TryEntered(code, s, c, t, base, f, normal, handler)
    ensures Arrives(rt, code, Throw(f.stack, f.blocks + [FinallyBlock(handler, |f.stack|)], f.current, w, exn), n, fuel,
                    f, c, t, base, f.pc + |Cells(s, f.pc, c)|,
                    Outward(rt, AfterHandler(exn, Exec(rt, s.cleanup, Some(exn), w, fuel)), c, f))
    decreases Weight(s) + FinsWeight(c.fins), fuel, 1
  {
    hide RunFor, StepMachine, At, FinsReady, Cells, Fill, Drain, FinsWeight, Ready, NeedsLoop, SomeFree, Throw;
    TryCells(code, s, f.pc, c, t);
    FinsWeightUnder(c.fins, Handler(|c.iterators|));
    var block := HandlerBlock(handler, |f.stack|, f.current);
    var g := f.(pc := handler, blocks := f.blocks + [block], current := Some(exn), world := w);
    EnterHandler(code, s, c, t, base, f, normal, handler, exn, w);
    n := RunStmt(rt, code, s.cleanup, c.Under(Handler(|c.iterators|)), t, base, g, fuel);
    var r := Exec(rt, s.cleanup, Some(exn), w, fuel);
    if r.Done? && r.exit.Normal? {
      RunOneMore(rt, code, Running(g), n);
      StepReRaise(rt, code, block, exn, f.(pc := handler + |Cells(s.cleanup, handler, c.Under(Handler(|c.iterators|)))|, world := r.world));
      n := n + 1;
      assert f.blocks[..|c.fins|] == f.blocks;
    } else {
      HandlerMeaning(rt, c, f, block, exn, r);
      if r.Done? && r.exit.Raising? {
        HandlerLeft(f, block, exn, r.world, r.exit.exn);
      } else {
        UnwoundFurther(g, f, c);
      }
    }
  }

  /** An exception raised inside a handler ends the handler on its way out. */
  lemma HandlerLeft(f: Frame, block: Block, exn: Value, w: World, next: Value)
    requires block.HandlerBlock? && block.saved == f.current && block.depth == |f.stack|
    ensures (f.blocks + [block])[..|f.blocks| + 1] == f.blocks + [block]
    ensures f.blocks[..|f.blocks|] == f.blocks
    ensures Throw(f.stack, f.blocks + [block], Some(exn), w, next) == Throw(f.stack, f.blocks, f.current, w, next)
  {
    assert (f.blocks + [block])[..|f.blocks|] == f.blocks;
  }

  /** A body that leaves by a jump or a return runs the cleanup inline, and its exit may win. */
  lemma JumpMeaning(rt: Runtime, s: Stmt, c: Context, f: Frame, block: Block, fuel: nat)
    requires s.TryFinally? && BlocksMatch(c.fins, f.blocks) && block.FinallyBlock?
    requires var r := Exec(rt, s.body, f.current, f.world, fuel);
             r.Done? ==> !r.exit.Normal? && !r.exit.Raising?
    ensures Meaning(rt, s.body, c.Under(Cleanup(s.cleanup, |c.iterators|)), f.(blocks := f.blocks + [block]), fuel)
         == Meaning(rt, s, c, f, fuel)
  {
    var r := Exec(rt, s.body, f.current, f.world, fuel);
    if r.Done? {
      DrainTop(rt, r.exit.Returning?, c.fins, Cleanup(s.cleanup, |c.iterators|), f.blocks, block, |c.iterators|, f.current, r.world, r.fuel);
    }
  }

  /** A `try` is entered by putting its block on the block stack. */
  lemma EnterTry(rt: Runtime, code: seq<Instr>, s: Stmt, c: Context, t: Targets, base: seq<Value>, f: Frame, normal: nat, handler: nat)
    requires TryEntered(code, s, c, t, base, f, normal, handler)
    ensures var block := FinallyBlock(handler, |f.stack|);
            var g := f.(pc := f.pc + 1, blocks := f.blocks + [block]);
            && StepMachine(rt, code, Running(f)) == Running(g)
            && Entered(code, s.body, c.Under(Cleanup(s.cleanup, |c.iterators|)), t, base, g)
  {
    hide StepMachine, At, FinsReady, Cells, Fill, SomeFree, Ready, NeedsLoop;
    TryCells(code, s, f.pc, c, t);
    ReadyUnder(s, c, s.body, Cleanup(s.cleanup, |c.iterators|));
    StepSetup(rt, code, handler, f);
  }

  /** What follows a body that ran to its end: its block is taken off, and the cleanup runs inline. */
  lemma {:induction false} RunTryEnded(rt: Runtime, code: seq<Instr>, s: Stmt, c: Context, t: Targets, base: seq<Value>, f: Frame, normal: nat, handler: nat, n: nat, w: World, fuel: nat, left: nat) returns (k: nat)
    requires TryEntered(code, s, c, t, base, f, normal, handler)
    requires RunFor(rt, code, Running(f), n) == Running(f.(pc := normal - 1, blocks := f.blocks + [FinallyBlock(handler, |f.stack|)], world := w))
    requires n + left >= fuel
    ensures Arrives(rt, code, Running(f), k, fuel, f, c, t, base, f.pc + |Cells(s, f.pc, c)|,
                    Outward(rt, Exec(rt, s.cleanup, f.current, w, left), c, f))
    decreases Weight(s) + FinsWeight(c.fins), left, 2
  {
    hide RunFor, StepMachine, At, Throw, Ready, Cells, Fill, Drain, Land, FinsWeight;
    TryCells(code, s, f.pc, c, t);
    RunOneMore(rt, code, Running(f), n);
    StepPopBlock(rt, code, FinallyBlock(handler, |f.stack|), f.(pc := normal - 1, world := w));
    k := RunTryNormal(rt, code, s, c, t, base, f, normal, handler, w, left);
    ArrivesAfter(rt, code, Running(f), n + 1, f.(pc := normal, world := w), k, fuel, left, f, c, t, base, f.pc + |Cells(s, f.pc, c)|,
                 Outward(rt, Exec(rt, s.cleanup, f.current, w, left), c, f));
    k := n + 1 + k;
  }

  lemma {:induction false} RunTry(rt: Runtime, code: seq<Instr>, s: Stmt, c: Context, t: Targets, base: seq<Value>, f: Frame, fuel: nat) returns (n: nat)
    requires s.TryFinally?
    requires Entered(code, s, c, t, base, f)
    ensures Simulated(rt, code, s, c, t, base, f, fuel, n)
    decreases Weight(s) + FinsWeight(c.fins), fuel, 3
  {
    hide RunFor, StepMachine, At, Throw, FinsReady, Cells, Fill, SomeFree, Ready, NeedsLoop, FinsWeight, Drain;
    var fin := Cleanup(s.cleanup, |c.iterators|);
    var b := Cells(s.body, f.pc + 1, c.Under(fin));
    var normal := f.pc + 1 + |b| + 1;
    var handler := normal + |Cells(s.cleanup, normal, c)| + 1;
    var block := FinallyBlock(handler, |f.stack|);
    var g := f.(pc := f.pc + 1, blocks := f.blocks + [block]);
    EnterTry(rt, code, s, c, t, base, f, normal, handler);
    FinsWeightUnder(c.fins, fin);
    n := RunStmt(rt, code, s.body, c.Under(fin), t, base, g, fuel);
    RunOnce(rt, code, Running(f));
    RunForAdd(rt, code, Running(f), 1, n);
    n := 1 + n;
    var r := Exec(rt, s.body, f.current, f.world, fuel);
    if r.Done? && r.exit.Normal? {
      n := RunTryEnded(rt, code, s, c, t, base, f, normal, handler, n, r.world, fuel, r.fuel);
    } else if r.Done? && r.exit.Raising? {
      var k := RunTryRaising(rt, code, s, c, t, base, f, normal, handler, r.exit.exn, r.world, r.fuel);
      assert g.blocks[..|c.fins| + 1] == g.blocks;
      RunForAdd(rt, code, Running(f), n, k);
      n := n + k;
    } else {
      JumpMeaning(rt, s, c, f, block, fuel);
      UnwoundFurther(g, f, c);
    }
  }
}
