/**
 The compiler itself: it appends instructions, remembers the jumps it cannot resolve yet and
 patches them in place. What it leaves in the instruction list is the layout of its input.
 */
module PythonCompiler {
  import opened Wrappers
  import opened PythonSource
  import opened PythonMachine
  import opened PythonLayout
  import opened PythonExpressions
  import opened PythonStatements
  import opened PythonCorrectness

  datatype LoopContext = LoopContext(breakJumps: seq<nat>, continueJumps: seq<nat>, hasIterator: bool)

  // ---- patching ----

  /** The addresses of the holes of one kind in cells emitted at `at`. */
  function Positions(cells: seq<Cell>, at: nat, kind: Kind): (ps: seq<nat>)
    ensures forall i :: 0 <= i < |ps| ==> at <= ps[i] < at + |cells|
  {
    if cells == [] then [] else
    (if cells[0].Hole? && cells[0].kind == kind then [at] else []) + Positions(cells[1..], at + 1, kind)
  }

  lemma PositionsConcat(a: seq<Cell>, b: seq<Cell>, at: nat, kind: Kind)
    ensures Positions(a + b, at, kind) == Positions(a, at, kind) + Positions(b, at + |a|, kind)
  {
    if a == [] {
      assert a + b == b;
    } else {
      assert (a + b)[1..] == a[1..] + b;
      PositionsConcat(a[1..], b, at + 1, kind);
    }
  }

  lemma PositionsFixed(code: seq<Instr>, at: nat, kind: Kind)
    ensures Positions(Lift(code), at, kind) == []
    decreases |code|
  {
    if code != [] {
      assert Lift(code)[1..] == Lift(code[1..]);
      PositionsFixed(code[1..], at + 1, kind);
    }
  }

  predicate Within(indices: seq<nat>, n: nat) {
    forall i :: 0 <= i < |indices| ==> indices[i] < n
  }

  function Patched(code: seq<Instr>, indices: seq<nat>, target: nat): (r: seq<Instr>)
    requires Within(indices, |code|)
    ensures |r| == |code|
    decreases |indices|
  {
    if indices == [] then code
    else Patched(code[indices[0] := code[indices[0]].(operand := target)], indices[1..], target)
  }

  lemma FillCellWith(cell: Cell, t: Targets, kind: Kind, target: nat)
    ensures FillCell(cell, t.With(kind, target))
         == if cell.Hole? && cell.kind == kind then FillCell(cell, t).(operand := target) else FillCell(cell, t)
  {
    if cell.Hole? {
      match kind
      case BreakHole =>
      case ContinueHole =>
      case ExitHole =>
    }
  }

  lemma FillHead(cells: seq<Cell>, t: Targets)
    requires cells != []
    ensures Fill(cells, t) == [FillCell(cells[0], t)] + Fill(cells[1..], t)
  {}

  lemma SetBetween(pre: seq<Instr>, x: Instr, y: Instr, mid: seq<Instr>, post: seq<Instr>)
    ensures var code := pre + ([x] + mid) + post;
            && code[|pre|] == x
            && code[|pre| := y] == pre + [y] + mid + post == pre + ([y] + mid) + post
  {}

  /** Patching the holes of one kind resolves exactly those holes. */
  lemma {:induction false} PatchResolves(pre: seq<Instr>, cells: seq<Cell>, post: seq<Instr>, t: Targets, kind: Kind, target: nat)
    ensures Patched(pre + Fill(cells, t) + post, Positions(cells, |pre|, kind), target)
         == pre + Fill(cells, t.With(kind, target)) + post
    decreases |cells|
  {
    hide Fill, FillCell;
    if cells == [] {
      assert Fill(cells, t) == Fill(cells, t.With(kind, target));
    } else {
      var x, y := FillCell(cells[0], t), FillCell(cells[0], t.With(kind, target));
      FillHead(cells, t);
      FillHead(cells, t.With(kind, target));
      FillCellWith(cells[0], t, kind, target);
      PatchResolves(pre + [y], cells[1..], post, t, kind, target);
      SetBetween(pre, x, y, Fill(cells[1..], t), post);
      SetBetween(pre, x, y, Fill(cells[1..], t.With(kind, target)), post);
      var ps := Positions(cells[1..], |pre| + 1, kind);
      assert Positions(cells, |pre|, kind) == (if cells[0].Hole? && cells[0].kind == kind then [|pre|] + ps else ps);
      assert |pre + [y]| == |pre| + 1;
    }
  }

  // ---- the state of a compilation ----

  function Iterators(loops: seq<LoopContext>): (s: seq<bool>)
    ensures |s| == |loops|
  {
    seq(|loops|, i requires 0 <= i < |loops| => loops[i].hasIterator)
  }

  /** The innermost loop remembers the unresolved jumps of the cells emitted at `at`. */
  function Remember(loops: seq<LoopContext>, cells: seq<Cell>, at: nat): (r: seq<LoopContext>)
    ensures |r| == |loops|
    ensures Iterators(r) == Iterators(loops)
  {
    if loops == [] then [] else
    var last := loops[|loops| - 1];
    loops[|loops| - 1 := last.(breakJumps := last.breakJumps + Positions(cells, at, BreakHole),
                               continueJumps := last.continueJumps + Positions(cells, at, ContinueHole))]
  }

  lemma RememberConcat(loops: seq<LoopContext>, a: seq<Cell>, b: seq<Cell>, at: nat)
    ensures Remember(Remember(loops, a, at), b, at + |a|) == Remember(loops, a + b, at)
  {
    PositionsConcat(a, b, at, BreakHole);
    PositionsConcat(a, b, at, ContinueHole);
    if loops != [] {
      var last := loops[|loops| - 1];
      assert last.breakJumps + Positions(a, at, BreakHole) + Positions(b, at + |a|, BreakHole) == last.breakJumps + Positions(a + b, at, BreakHole);
      assert last.continueJumps + Positions(a, at, ContinueHole) + Positions(b, at + |a|, ContinueHole) == last.continueJumps + Positions(a + b, at, ContinueHole);
    }
  }

  lemma RememberFixed(loops: seq<LoopContext>, code: seq<Instr>, at: nat)
    ensures Remember(loops, Lift(code), at) == loops
  {
    PositionsFixed(code, at, BreakHole);
    PositionsFixed(code, at, ContinueHole);
    if loops != [] {
      var last := loops[|loops| - 1];
      assert last.breakJumps + [] == last.breakJumps && last.continueJumps + [] == last.continueJumps;
    }
  }

  /** Exactly these cells were emitted, their holes unresolved and remembered by the innermost loop. */
  predicate Emitted(code: seq<Instr>, loops: seq<LoopContext>, cells: seq<Cell>, code': seq<Instr>, loops': seq<LoopContext>) {
    && code' == code + Fill(cells, UNPATCHED)
    && loops' == Remember(loops, cells, |code|)
  }

  lemma EmittedConcat(code: seq<Instr>, loops: seq<LoopContext>, a: seq<Cell>, code': seq<Instr>, loops': seq<LoopContext>, b: seq<Cell>, code'': seq<Instr>, loops'': seq<LoopContext>)
    requires Emitted(code, loops, a, code', loops') && Emitted(code', loops', b, code'', loops'')
    ensures Emitted(code, loops, a + b, code'', loops'')
  {
    FillConcat(a, b, UNPATCHED);
    RememberConcat(loops, a, b, |code|);
  }

  lemma EmittedSize(code: seq<Instr>, loops: seq<LoopContext>, cells: seq<Cell>, code': seq<Instr>, loops': seq<LoopContext>)
    requires Emitted(code, loops, cells, code', loops')
    ensures |code'| == |code| + |cells| && Iterators(loops') == Iterators(loops)
  {}

  lemma EmittedFixed(code: seq<Instr>, loops: seq<LoopContext>, more: seq<Instr>)
    ensures Emitted(code, loops, Lift(more), code + more, loops)
  {
    FillLift(more, UNPATCHED);
    RememberFixed(loops, more, |code|);
  }

  class Compiler {
    var instructions: seq<Instr>
    var loops: seq<LoopContext>
    var finallies: seq<Fin>
    var pendingReturns: nat

    constructor ()
      ensures instructions == [] && loops == [] && finallies == [] && pendingReturns == 0
    {
      instructions, loops, finallies, pendingReturns := [], [], [], 0;
    }

    ghost function Here(): Context
      reads this
    {
      Context(Iterators(loops), finallies, pendingReturns)
    }

    method Emit(op: OpCode, operand: nat) returns (index: nat)
      modifies this`instructions
      ensures index == |old(instructions)|
      ensures instructions == old(instructions) + [Instr(op, operand)]
    {
      index := |instructions|;
      instructions := instructions + [Instr(op, operand)];
    }

    method Patch(index: nat, target: nat)
      requires index < |instructions|
      modifies this`instructions
      ensures instructions == old(instructions)[index := old(instructions)[index].(operand := target)]
    {
      instructions := instructions[index := instructions[index].(operand := target)];
    }

    method PatchAll(indices: seq<nat>, target: nat)
      requires Within(indices, |instructions|)
      modifies this`instructions
      ensures instructions == Patched(old(instructions), indices, target)
    {
      for i := 0 to |indices|
        invariant |instructions| == |old(instructions)| && Within(indices[i..], |instructions|)
        invariant Patched(instructions, indices[i..], target) == Patched(old(instructions), indices, target)
      {
        Patch(indices[i], target);
        assert indices[i..][1..] == indices[i + 1..];
      }
    }

    method CompileExpression(e: Expr)
      modifies this`instructions
      ensures instructions == old(instructions) + ExprCode(e, |old(instructions)|)
      decreases e, 1
    {
      hide ExprCode;
      ghost var before := instructions;
      var at: nat;
      PlainLayout(e, |before|);
      match e {
        case Const(v) => at := Emit(LoadConst(v), 0);
        case Name(x) => at := Emit(LoadLocal(x), 0);
        case Binary(op, l, r) =>
          CompileExpression(l);
          CompileExpression(r);
          at := Emit(BinaryOp(op), 0);
          Joined(before, ExprCode(l, |before|), ExprCode(r, |before| + |ExprCode(l, |before|)|), One(BinaryOp(op), 0));
        case Unary(op, o) =>
          CompileExpression(o);
          at := Emit(UnaryOp(op), 0);
          Assoc(before, ExprCode(o, |before|), One(UnaryOp(op), 0));
        case BoolOp(_, _, _) => CompileBoolOp(e);
        case Compare(_, _) => CompileCompare(e);
        case Conditional(_, _, _) => CompileConditional(e);
        case Call(_, _) => CompileCall(e);
        case NamedExpr(x, bound) =>
          CompileExpression(bound);
          at := Emit(Duplicate, 0);
          at := Emit(StoreLocal(x), 0);
          Joined(before, ExprCode(bound, |before|), One(Duplicate, 0), One(StoreLocal(x), 0));
      }
    }

    method CompileConditional(e: Expr)
      requires e.Conditional?
      modifies this`instructions
      ensures instructions == old(instructions) + ExprCode(e, |old(instructions)|)
      decreases e, 0
    {
      hide ExprCode;
      ghost var before := instructions;
      CompileExpression(e.test);
      var elseJump := Emit(JumpIfFalse, 0);
      CompileExpression(e.body);
      var endJump := Emit(Jump, 0);
      Patch(elseJump, |instructions|);
      CompileExpression(e.orElse);
      Patch(endJump, |instructions|);
      ConditionalLayout(e, |before|);
    }

    method CompileCall(e: Expr)
      requires e.Call?
      modifies this`instructions
      ensures instructions == old(instructions) + ExprCode(e, |old(instructions)|)
      decreases e, 0
    {
      hide AllCode, ExprCode;
      ghost var before := instructions;
      var arguments := e.arguments;
      PlainLayout(e, |before|);
      CompileExpression(e.callee);
      ghost var start := instructions;
      ghost var values := AllCode(arguments, |start|);
      assert arguments[0..] == arguments;
      for i := 0 to |arguments|
        invariant instructions + AllCode(arguments[i..], |instructions|) == start + values
      {
        AllStep(arguments, i, |instructions|);
        Assoc(instructions, ExprCode(arguments[i], |instructions|), AllCode(arguments[i + 1..], |instructions| + |ExprCode(arguments[i], |instructions|)|));
        CompileExpression(arguments[i]);
      }
      AllStep(arguments, |arguments|, |instructions|);
      assert instructions + [] == instructions;
      var at := Emit(CallOp, |arguments|);
      Joined(before, ExprCode(e.callee, |before|), values, One(CallOp, |arguments|));
    }

    method CompileBoolOp(e: Expr)
      requires e.BoolOp?
      modifies this`instructions
      ensures instructions == old(instructions) + ExprCode(e, |old(instructions)|)
      decreases e, 0
    {
      hide Positions, Fill, BoolCells;
      CompileExpression(e.head);
      ghost var start := instructions;
      ghost var cells := BoolCells(e.isAnd, e.tail, |start|);
      var jumps := CompileOperands(e.isAnd, e.tail);
      PatchResolves(start, cells, [], UNPATCHED, ExitHole, |instructions|);
      assert start + Fill(cells, UNPATCHED) + [] == instructions;
      PatchAll(jumps, |instructions|);
    }

    /** The operands after the first, each behind a short-circuiting jump still to be patched. */
    method CompileOperands(isAnd: bool, tail: seq<Expr>) returns (jumps: seq<nat>)
      modifies this`instructions
      ensures instructions == old(instructions) + Fill(BoolCells(isAnd, tail, |old(instructions)|), UNPATCHED)
      ensures jumps == Positions(BoolCells(isAnd, tail, |old(instructions)|), |old(instructions)|, ExitHole)
      decreases tail, 0
    {
      hide Positions, Fill, BoolCells, ExprCode;
      ghost var start := instructions;
      ghost var cells := BoolCells(isAnd, tail, |start|);
      jumps := [];
      assert tail[0..] == tail;
      for i := 0 to |tail|
        invariant instructions + Fill(BoolCells(isAnd, tail[i..], |instructions|), UNPATCHED) == start + Fill(cells, UNPATCHED)
        invariant jumps + Positions(BoolCells(isAnd, tail[i..], |instructions|), |instructions|, ExitHole) == Positions(cells, |start|, ExitHole)
      {
        BoolStep(isAnd, tail, i, |instructions|);
        var jump := Emit(ShortCircuit(isAnd), 0);
        jumps := jumps + [jump];
        CompileExpression(tail[i]);
      }
      NoCells(isAnd, |instructions|);
      assert tail[|tail|..] == [] && instructions + [] == instructions && jumps + [] == jumps;
    }

    method CompileCompare(e: Expr)
      requires e.Compare?
      modifies this`instructions
      ensures instructions == old(instructions) + ExprCode(e, |old(instructions)|)
      decreases e, 0
    {
      hide Positions, Fill, ChainCells, ExprCode, Patched;
      var links := e.links;
      ghost var before := instructions;
      ghost var a := ExprCode(e.left, |before|);
      CompareLayout(e, |before|);
      CompileExpression(e.left);
      ghost var start := instructions;
      ghost var cells := ChainCells(links, |start|);
      if links == [] { return; }
      var exits := CompileLinks(links);
      Assoc(before, a, Fill(cells, UNPATCHED));
      if |links| == 1 { return; }
      var end := Emit(Jump, 0);
      PatchResolves(start, cells, One(Jump, 0), UNPATCHED, ExitHole, |instructions|);
      PatchAll(exits, |instructions|);
      ghost var chain := Fill(cells, UNPATCHED.(exit := end + 1));
      var swap := Emit(Swap, 0);
      var pop := Emit(Pop, 0);
      Assoc(start + chain + One(Jump, 0), One(Swap, 0), One(Pop, 0));
      OneReplaced(start + chain, Jump, One(Swap, 0) + One(Pop, 0), end + 3);
      Patch(end, |instructions|);
      Joined(before, a, chain, One(Jump, end + 3));
      Assoc(a + chain + One(Jump, end + 3), One(Swap, 0), One(Pop, 0));
      Assoc(before, a + chain + One(Jump, end + 3), One(Swap, 0) + One(Pop, 0));
    }

    /** The links of a comparison, with the exits taken when one is false still to be patched. */
    method CompileLinks(links: seq<Link>) returns (exits: seq<nat>)
      modifies this`instructions
      ensures instructions == old(instructions) + Fill(ChainCells(links, |old(instructions)|), UNPATCHED)
      ensures exits == Positions(ChainCells(links, |old(instructions)|), |old(instructions)|, ExitHole)
      decreases links, 0
    {
      hide Positions, Fill, ChainCells, ExprCode, LinkCode;
      ghost var start := instructions;
      ghost var cells := ChainCells(links, |start|);
      var at: nat;
      exits := [];
      assert links[0..] == links;
      for i := 0 to |links|
        invariant instructions + Fill(ChainCells(links[i..], |instructions|), UNPATCHED) == start + Fill(cells, UNPATCHED)
        invariant exits + Positions(ChainCells(links[i..], |instructions|), |instructions|, ExitHole) == Positions(cells, |start|, ExitHole)
      {
        ghost var here := instructions;
        ghost var last, x := i == |links| - 1, ExprCode(links[i].operand, |here|);
        ghost var more := LinkCode(last, links[i].op);
        ChainStep(links, i, |here|);
        CompileExpression(links[i].operand);
        EmitLink(i == |links| - 1, links[i].op);
        Assoc(here, x, more);
        if i < |links| - 1 {
          at := Emit(JumpIfFalseOrPop, 0);
          Joined(here, x + more, One(JumpIfFalseOrPop, 0), Fill(ChainCells(links[i + 1..], |instructions|), UNPATCHED));
          Assoc(exits, [at], Positions(ChainCells(links[i + 1..], |instructions|), |instructions|, ExitHole));
          exits := exits + [at];
        } else {
          NoLinks(|instructions|);
          assert links[i + 1..] == [] && instructions + [] == instructions && exits + [] == exits;
        }
      }
      NoLinks(|instructions|);
      assert links[|links|..] == [] && instructions + [] == instructions && exits + [] == exits;
    }

    /** What follows the operand of a link: all but the last keep a copy of it for the next. */
    method EmitLink(last: bool, op: string)
      modifies this`instructions
      ensures instructions == old(instructions) + LinkCode(last, op)
    {
      var at: nat;
      if !last {
        at := Emit(Duplicate, 0);
        at := Emit(RotateThree, 0);
      }
      at := Emit(CompareOp(op), 0);
    }

    // ---- statements ----

    /** Compiles `s`, or finds a `break` or `continue` outside every loop and gives up. */
    method CompileStatement(s: Stmt) returns (ok: bool)
      modifies this
      ensures ok == !Rejects(s, old(Here()))
      ensures ok ==> Emitted(old(instructions), old(loops), Cells(s, |old(instructions)|, old(Here())), instructions, loops)
      ensures (ok ==> finallies == old(finallies)) && pendingReturns == old(pendingReturns)
      decreases Weight(s) + FinsWeight(finallies), 2
    {
      hide ExprCode, Emitted, Remember, Fill, Lift, Cells, RejectsOutsideLoops;
      ghost var code, before := instructions, loops;
      var at: nat;
      ok := true;
      StatementLayout(s, |code|, Here());
      match s {
        case End => EmittedFixed(code, before, []); assert code + [] == code;
        case Pass => EmittedFixed(code, before, []); assert code + [] == code;
        case Seq(head, tail) =>
          ok := CompileStatement(head);
          if ok {
            ghost var code', loops' := instructions, loops;
            EmittedSize(code, before, Cells(head, |code|, old(Here())), code', loops');
            ok := CompileStatement(tail);
            if ok {
              EmittedConcat(code, before, Cells(head, |code|, old(Here())), code', loops', Cells(tail, |code'|, old(Here())), instructions, loops);
            }
          }
        case ExprStmt(e) =>
          CompileExpression(e);
          at := Emit(Pop, 0);
          EmittedExpression(code, before, e, One(Pop, 0));
        case Assign(x, e) =>
          CompileExpression(e);
          at := Emit(StoreLocal(x), 0);
          EmittedExpression(code, before, e, One(StoreLocal(x), 0));
        case If(_, _, _) => ok := CompileIf(s);
        case While(_, _, _) => ok := CompileWhile(s);
        case For(_, _, _, _) => ok := CompileFor(s);
        case Break => ok := CompileJump(s);
        case Continue => ok := CompileJump(s);
        case Return(_) => ok := CompileReturn(s);
        case Raise(e) =>
          CompileExpression(e);
          at := Emit(RaiseOp, 1);
          EmittedExpression(code, before, e, One(RaiseOp, 1));
        case RaiseCurrent =>
          at := Emit(RaiseOp, 0);
          EmittedFixed(code, before, One(RaiseOp, 0));
        case TryFinally(_, _) => ok := CompileTryFinally(s);
      }
    }

    method CompileIf(s: Stmt) returns (ok: bool)
      requires s.If?
      modifies this
      ensures ok == !Rejects(s, old(Here()))
      ensures ok ==> Emitted(old(instructions), old(loops), Cells(s, |old(instructions)|, old(Here())), instructions, loops)
      ensures (ok ==> finallies == old(finallies)) && pendingReturns == old(pendingReturns)
      decreases Weight(s) + FinsWeight(finallies), 1
    {
      hide ExprCode, Emitted, Remember, Fill, Lift, Cells;
      ghost var code, before, c := instructions, loops, Here();
      CompileExpression(s.test);
      var jumpOverBody := Emit(JumpIfFalse, 0);
      ghost var a := ExprCode(s.test, |code|);
      ghost var code1 := instructions;
      ok := CompileStatement(s.body);
      if !ok { return; }
      ghost var b := Cells(s.body, |code1|, c);
      ghost var loops2 := loops;
      IfLayout(s, |code|, c);
      EmittedCode(code1, before, b, instructions, loops);
      if s.orElse == End {
        assert !RejectsOutsideLoops(End, c.fins);
        OneReplaced(code + a, JumpIfFalse, Fill(b, UNPATCHED), |instructions|);
        Assoc(code, a, One(JumpIfFalse, |instructions|));
        Patch(jumpOverBody, |instructions|);
        IfEmitted(code, before, a + One(JumpIfFalse, |instructions|), b, loops, [], [], instructions, loops);
        return;
      }
      ok := CompileElse(s.orElse, jumpOverBody, code, a, b);
      if !ok { return; }
      ghost var elseAt := |code1| + |b| + 1;
      ghost var o := Cells(s.orElse, elseAt, c);
      IfEmitted(code, before, a + One(JumpIfFalse, elseAt), b, loops2, One(Jump, elseAt + |o|), o, instructions, loops);
    }

    /** The `else` of an `if`: the jump over it, and the jump to it, which is patched on the way. */
    method CompileElse(orElse: Stmt, jumpOverBody: nat, ghost code: seq<Instr>, ghost a: seq<Instr>, ghost b: seq<Cell>) returns (ok: bool)
      requires instructions == code + a + One(JumpIfFalse, 0) + Fill(b, UNPATCHED) && jumpOverBody == |code| + |a|
      modifies this
      ensures ok == !Rejects(orElse, old(Here()))
      ensures ok ==>
        var elseAt := |old(instructions)| + 1;
        var o := Cells(orElse, elseAt, old(Here()));
        && instructions == code + (a + One(JumpIfFalse, elseAt)) + Fill(b, UNPATCHED) + One(Jump, elseAt + |o|) + Fill(o, UNPATCHED)
        && loops == Remember(old(loops), o, elseAt)
      ensures (ok ==> finallies == old(finallies)) && pendingReturns == old(pendingReturns)
      decreases Weight(orElse) + FinsWeight(finallies), 3
    {
      hide Emitted, Remember, Fill, Cells, RejectsOutsideLoops;
      ghost var filled, before := Fill(b, UNPATCHED), loops;
      var jumpOverElse := Emit(Jump, 0);
      ghost var elseAt := |instructions|;
      ghost var test := a + One(JumpIfFalse, elseAt);
      Assoc(code + a + One(JumpIfFalse, 0), filled, One(Jump, 0));
      OneReplaced(code + a, JumpIfFalse, filled + One(Jump, 0), elseAt);
      Patch(jumpOverBody, |instructions|);
      Assoc(code, a, One(JumpIfFalse, elseAt));
      Assoc(code + test, filled, One(Jump, 0));
      ghost var soFar := instructions;
      ok := CompileStatement(orElse);
      if !ok { return; }
      ghost var o := Cells(orElse, elseAt, old(Here()));
      EmittedCode(soFar, before, o, instructions, loops);
      OneReplaced(code + test + filled, Jump, Fill(o, UNPATCHED), |instructions|);
      Patch(jumpOverElse, |instructions|);
    }

    /** Compiles a loop's body inside a new innermost loop, which is handed back with its jumps. */
    method CompileLoopBody(body: Stmt, hasIterator: bool) returns (ok: bool, context: LoopContext)
      modifies this
      ensures ok
      ensures var cells := Cells(body, |old(instructions)|, old(Here()).InLoop(hasIterator));
              && instructions == old(instructions) + Fill(cells, UNPATCHED)
              && context.breakJumps == Positions(cells, |old(instructions)|, BreakHole)
              && context.continueJumps == Positions(cells, |old(instructions)|, ContinueHole)
      ensures loops == old(loops) && finallies == old(finallies) && pendingReturns == old(pendingReturns)
      decreases Weight(body) + FinsWeight(finallies), 3
    {
      hide Fill, Cells, Positions;
      ghost var before := loops;
      context := LoopContext([], [], hasIterator);
      loops := loops + [context];
      assert Iterators(loops) == Iterators(before) + [hasIterator];
      ok := CompileStatement(body);
      context := loops[|loops| - 1];
      loops := loops[..|loops| - 1];
      assert loops == before;
    }

    /**
     The end of a loop whose body follows `opening`: the back jump, the exit, the `else`, and
     the body's own jumps, which are resolved last because a `break` skips the `else`.
     */
    method CloseLoop(context: LoopContext, top: nat, exit: nat, orElse: Stmt, ghost code: seq<Instr>, ghost opening: seq<Instr>, ghost b: seq<Cell>) returns (ok: bool)
      requires instructions == code + opening + Fill(b, UNPATCHED)
      requires |code| <= exit < |code| + |opening|
      requires context.breakJumps == Positions(b, |code| + |opening|, BreakHole)
      requires context.continueJumps == Positions(b, |code| + |opening|, ContinueHole)
      modifies this
      ensures ok == !Rejects(orElse, old(Here()))
      ensures ok ==>
        var exitAt := |old(instructions)| + 1;
        var o := Cells(orElse, exitAt, old(Here()));
        var lead := opening[exit - |code| := opening[exit - |code|].(operand := exitAt)];
        && instructions == code + (lead + Fill(b, Targets(exitAt + |o|, top, 0)) + One(Jump, top)) + Fill(o, UNPATCHED)
        && loops == Remember(old(loops), o, exitAt)
      ensures (ok ==> finallies == old(finallies)) && pendingReturns == old(pendingReturns)
      decreases Weight(orElse) + FinsWeight(finallies), 3
    {
      hide Emitted, Remember, Fill, Cells, Positions, Patched, RejectsOutsideLoops;
      ghost var filled := Fill(b, Targets(0, top, 0));
      PatchContinues(code + opening, b, top);
      PatchAll(context.continueJumps, top);
      var back := Emit(Jump, top);
      ghost var exitAt := |instructions|;
      OpeningReplaced(code, opening, filled + One(Jump, top), exit, exitAt);
      assert instructions == code + opening + (filled + One(Jump, top));
      Patch(exit, |instructions|);
      ghost var lead := opening[exit - |code| := opening[exit - |code|].(operand := exitAt)];
      ghost var before := loops;
      ok := CompileStatement(orElse);
      if !ok { return; }
      ghost var o := Cells(orElse, exitAt, old(Here()));
      EmittedCode(code + lead + (filled + One(Jump, top)), before, o, instructions, loops);
      FinishLoop(code, lead, b, top, One(Jump, top), Fill(o, UNPATCHED), |instructions|);
      PatchAll(context.breakJumps, |instructions|);
    }

    method CompileWhile(s: Stmt) returns (ok: bool)
      requires s.While?
      modifies this
      ensures ok == !Rejects(s, old(Here()))
      ensures ok ==> Emitted(old(instructions), old(loops), Cells(s, |old(instructions)|, old(Here())), instructions, loops)
      ensures (ok ==> finallies == old(finallies)) && pendingReturns == old(pendingReturns)
      decreases Weight(s) + FinsWeight(finallies), 1
    {
      hide ExprCode, Remember, Fill, Lift, Cells, Positions;
      ghost var code, before, c := instructions, loops, Here();
      var top := |instructions|;
      CompileExpression(s.test);
      var exit := Emit(JumpIfFalse, 0);
      ghost var a := ExprCode(s.test, top);
      ghost var b := Cells(s.body, |instructions|, c.InLoop(false));
      var context;
      ok, context := CompileLoopBody(s.body, false);
      ok := CloseLoop(context, top, exit, s.orElse, code, a + One(JumpIfFalse, 0), b);
      if !ok { return; }
      ghost var exitAt := exit + 1 + |b| + 1;
      ghost var o := Cells(s.orElse, exitAt, c);
      OneReplaced(a, JumpIfFalse, [], exitAt);
      assert a + One(JumpIfFalse, 0) + [] == a + One(JumpIfFalse, 0);
      WhileLayout(s, top, c);
      LoopEmitted(code, before, a + One(JumpIfFalse, exitAt) + Fill(b, Targets(exitAt + |o|, top, 0)) + One(Jump, top), o, instructions, loops);
    }

    method CompileFor(s: Stmt) returns (ok: bool)
      requires s.For?
      modifies this
      ensures ok == !Rejects(s, old(Here()))
      ensures ok ==> Emitted(old(instructions), old(loops), Cells(s, |old(instructions)|, old(Here())), instructions, loops)
      ensures (ok ==> finallies == old(finallies)) && pendingReturns == old(pendingReturns)
      decreases Weight(s) + FinsWeight(finallies), 1
    {
      hide ExprCode, Remember, Fill, Lift, Cells, Positions;
      ghost var code, before, c := instructions, loops, Here();
      CompileExpression(s.iterable);
      var get := Emit(GetIterator, 0);
      var top := |instructions|;
      var exit := Emit(ForIterate, 0);
      var store := Emit(StoreLocal(s.target), 0);
      ghost var a := ExprCode(s.iterable, |code|);
      ghost var b := Cells(s.body, |instructions|, c.InLoop(true));
      ghost var get0 := a + One(GetIterator, 0);
      ghost var opening := get0 + One(ForIterate, 0) + One(StoreLocal(s.target), 0);
      Assoc(code, a, One(GetIterator, 0));
      Joined(code, get0, One(ForIterate, 0), One(StoreLocal(s.target), 0));
      var context;
      ok, context := CompileLoopBody(s.body, true);
      ok := CloseLoop(context, top, exit, s.orElse, code, opening, b);
      if !ok { return; }
      ghost var exitAt := top + 2 + |b| + 1;
      ghost var o := Cells(s.orElse, exitAt, c);
      ghost var lead := get0 + One(ForIterate, exitAt) + One(StoreLocal(s.target), 0);
      OneReplaced(get0, ForIterate, One(StoreLocal(s.target), 0), exitAt);
      ForLayout(s, |code|, c);
      LoopEmitted(code, before, lead + Fill(b, Targets(exitAt + |o|, top, 0)) + One(Jump, top), o, instructions, loops);
    }

    /** Drops the return values a jump out of a `finally` abandons, and a `for`'s iterator. */
    method EmitPops(count: nat)
      modifies this`instructions
      ensures instructions == old(instructions) + Pops(count)
    {
      for i := 0 to count
        invariant instructions == old(instructions) + Pops(i)
      {
        var at := Emit(Pop, 0);
        assert Pops(i + 1) == Pops(i) + One(Pop, 0);
      }
    }

    method CompileJump(s: Stmt) returns (ok: bool)
      requires s.Break? || s.Continue?
      modifies this
      ensures ok == !Rejects(s, old(Here()))
      ensures ok ==> Emitted(old(instructions), old(loops), Cells(s, |old(instructions)|, old(Here())), instructions, loops)
      ensures (ok ==> finallies == old(finallies)) && pendingReturns == old(pendingReturns)
      decreases Weight(s) + FinsWeight(finallies), 1
    {
      hide Fill, Lift, Cells, UnwindCells, Emitted, Remember, Positions;
      if loops == [] {
        JumpRejected(s, finallies);
        return false;
      }
      ghost var code, before, c := instructions, loops, Here();
      ok := UnwindFinallies(false);
      ghost var code1, loops1 := instructions, loops;
      EmittedSize(code, before, UnwindCells(|code|, c, false), code1, loops1);
      var last := |loops| - 1;
      var extra := if s.Break? && loops[last].hasIterator then 1 else 0;
      assert Iterators(loops)[last] == InFor(c);
      EmitPops(pendingReturns + extra);
      ghost var code2 := instructions;
      ghost var kind := if s.Break? then BreakHole else ContinueHole;
      var jump := Emit(Jump, 0);
      if s.Break? {
        loops := loops[last := loops[last].(breakJumps := loops[last].breakJumps + [jump])];
      } else {
        loops := loops[last := loops[last].(continueJumps := loops[last].continueJumps + [jump])];
      }
      JumpLayout(s, |code|, c);
      ghost var u, pops := UnwindCells(|code|, c, false), Pops(c.pending + extra);
      EmittedFixed(code1, loops1, pops);
      EmittedConcat(code, before, u, code1, loops1, Lift(pops), code2, loops1);
      HoleEmitted(code2, loops1, kind);
      EmittedConcat(code, before, u + Lift(pops), code2, loops1, [Hole(kind, Jump)], instructions, loops);
    }

    method CompileReturn(s: Stmt) returns (ok: bool)
      requires s.Return?
      modifies this
      ensures ok == !Rejects(s, old(Here()))
      ensures ok ==> Emitted(old(instructions), old(loops), Cells(s, |old(instructions)|, old(Here())), instructions, loops)
      ensures (ok ==> finallies == old(finallies)) && pendingReturns == old(pendingReturns)
      decreases Weight(s) + FinsWeight(finallies), 1
    {
      hide ExprCode, Remember, Fill, Lift, Cells, UnwindCells;
      ghost var code, before, c := instructions, loops, Here();
      CompileExpression(s.value);
      ghost var a := ExprCode(s.value, |code|);
      ghost var code1 := instructions;
      pendingReturns := pendingReturns + 1;
      ghost var d := Here();
      assert d == c.(pending := c.pending + 1);
      ok := UnwindFinallies(true);
      pendingReturns := pendingReturns - 1;
      if !ok { return; }
      ghost var code2, loops2 := instructions, loops;
      var ret := Emit(ReturnOp, 0);
      ReturnLayout(s, |code|, c);
      ghost var u := UnwindCells(|code1|, d, true);
      EmittedFixed(code, before, a);
      EmittedConcat(code, before, Lift(a), code1, before, u, code2, loops2);
      EmittedFixed(code2, loops2, One(ReturnOp, 0));
      EmittedConcat(code, before, Lift(a) + u, code2, loops2, Lift(One(ReturnOp, 0)), instructions, loops);
    }

    /**
     Emits the `finally` bodies that a jump (or, for `all`, a return) would skip, each in the
     context outside its own `try`.
     */
    method UnwindFinallies(all: bool) returns (ok: bool)
      requires all || loops != []
      modifies this
      ensures ok == !(old(loops) == [] && UnwindRejects(old(finallies)))
      ensures ok ==> Emitted(old(instructions), old(loops), UnwindCells(|old(instructions)|, old(Here()), all), instructions, loops)
      ensures finallies == old(finallies) && pendingReturns == old(pendingReturns)
      decreases FinsWeight(finallies), 1
    {
      hide Fill, Lift, Cells, UnwindCells, UnwindStep, Remember, UnwindRejects, FinsWeight, Emitted;
      ghost var code, before, c := instructions, loops, Here();
      var pending := finallies;
      var i := |pending|;
      ok := true;
      ghost var done: seq<Cell> := [];
      EmittedFixed(code, before, []);
      assert Lift([]) == [] && code + [] == code;
      assert pending[..|pending|] == pending;
      while i > 0
        invariant 0 <= i <= |pending|
        invariant ok && Emitted(code, before, done, instructions, loops) && Iterators(loops) == c.iterators
        invariant done + UnwindCells(|instructions|, c.(fins := pending[..i]), all) == UnwindCells(|code|, c, all)
        invariant before == [] ==> (UnwindRejects(pending) <==> UnwindRejects(pending[..i]))
        invariant |finallies| >= i && finallies[..i] == pending[..i] && pendingReturns == c.pending
      {
        ghost var here := c.(fins := pending[..i]);
        assert here.fins[..i - 1] == pending[..i - 1];
        if !all && pending[i - 1].depth != |loops| {
          break;
        }
        UnwindLayout(|instructions|, here, all);
        UnwindRejectsStep(pending[..i]);
        FinsWeightPrefix(pending, i);
        ghost var code1, loops1 := instructions, loops;
        i := i - 1;
        ok := UnwindOne(pending[i], i, here);
        if !ok {
          finallies := pending;
          return;
        }
        ghost var step := UnwindStep(|code1|, here);
        EmittedSize(code1, loops1, step, instructions, loops);
        EmittedConcat(code, before, done, code1, loops1, step, instructions, loops);
        done := done + step;
      }
      finallies := pending;
      assert i == 0 ==> pending[..i] == [];
      UnwindNothing(|instructions|, c.(fins := pending[..i]), all);
      assert done + [] == done;
    }

    /** One pending cleanup; the body being emitted is no longer pending while it is compiled. */
    method UnwindOne(fin: Fin, i: nat, ghost here: Context) returns (ok: bool)
      requires i < |here.fins| == i + 1 && here.fins[i] == fin
      requires |finallies| >= i && finallies[..i] == here.fins[..i]
      requires Iterators(loops) == here.iterators && pendingReturns == here.pending
      modifies this
      ensures ok == !(old(loops) == [] && fin.Cleanup? && RejectsOutsideLoops(fin.body, here.fins[..i]))
      ensures ok ==> Emitted(old(instructions), old(loops), UnwindStep(|old(instructions)|, here), instructions, loops)
      ensures ok ==> |finallies| >= i && finallies[..i] == here.fins[..i]
      ensures pendingReturns == old(pendingReturns)
      decreases FinsWeight(here.fins), 0
    {
      hide Fill, Lift, Cells, Remember, RejectsOutsideLoops, FinsWeight;
      ghost var code, before := instructions, loops;
      if fin.Handler? {
        var end := Emit(EndHandler, 0);
        EmittedFixed(code, before, One(EndHandler, 0));
        return true;
      }
      var pop := Emit(PopBlock, 0);
      EmittedFixed(code, before, One(PopBlock, 0));
      ghost var code1 := instructions;
      finallies := finallies[..i];
      assert Here() == here.Outer();
      assert here.fins == here.fins[..i] + [fin];
      FinsWeightUnder(here.fins[..i], fin);
      ok := CompileStatement(fin.body);
      if ok {
        EmittedConcat(code, before, Lift(One(PopBlock, 0)), code1, before, Cells(fin.body, |code1|, here.Outer()), instructions, loops);
      }
    }

    method CompileTryFinally(s: Stmt) returns (ok: bool)
      requires s.TryFinally?
      modifies this
      ensures ok == !Rejects(s, old(Here()))
      ensures ok ==> Emitted(old(instructions), old(loops), Cells(s, |old(instructions)|, old(Here())), instructions, loops)
      ensures (ok ==> finallies == old(finallies)) && pendingReturns == old(pendingReturns)
      decreases Weight(s) + FinsWeight(finallies), 1
    {
      hide Emitted, Remember, Fill, Lift, Cells, FinsWeight, RejectsOutsideLoops;
      ghost var code, before, c := instructions, loops, Here();
      var fin, handling := Cleanup(s.cleanup, |loops|), Handler(|loops|);
      FinsWeightUnder(finallies, fin);
      FinsWeightUnder(finallies, handling);
      TryRejects(s, finallies, |loops|);
      var setup := Emit(SetupFinally, 0);
      ok := CompileUnder(s.body, fin);
      if !ok { return; }
      ghost var b, code1, loops1 := Cells(s.body, |code| + 1, c.Under(fin)), instructions, loops;
      EmittedCode(code + One(SetupFinally, 0), before, b, code1, loops1);
      var pop := Emit(PopBlock, 0);
      ghost var normal := |instructions|;
      ok := CompileStatement(s.cleanup);
      if !ok { return; }
      ghost var f, code2, loops2 := Cells(s.cleanup, normal, c), instructions, loops;
      EmittedCode(code1 + One(PopBlock, 0), loops1, f, code2, loops2);
      ghost var inner := Fill(b, UNPATCHED) + One(PopBlock, 0) + Fill(f, UNPATCHED);
      Joined(code + One(SetupFinally, 0), Fill(b, UNPATCHED), One(PopBlock, 0), Fill(f, UNPATCHED));
      ok := CompileHandler(s.cleanup, setup, code, inner);
      if !ok { return; }
      ghost var handler := |code2| + 1;
      ghost var h := Cells(s.cleanup, handler, c.Under(handling));
      TryLayout(s, |code|, c);
      TryEmitted(code, before, s, handler, handler + |h| + 1, b, loops1, f, loops2, h, instructions, loops);
    }

    /** The cleanup once more, as the handler that `setup` is patched to, and the jump over it. */
    method CompileHandler(cleanup: Stmt, setup: nat, ghost code: seq<Instr>, ghost inner: seq<Instr>) returns (ok: bool)
      requires instructions == code + One(SetupFinally, 0) + inner && setup == |code|
      modifies this
      ensures ok == !Rejects(cleanup, old(Here()).Under(Handler(|old(loops)|)))
      ensures ok ==>
        var handler := |old(instructions)| + 1;
        var h := Cells(cleanup, handler, old(Here()).Under(Handler(|old(loops)|)));
        && instructions == code + One(SetupFinally, handler) + inner + One(Jump, handler + |h| + 1) + (Fill(h, UNPATCHED) + One(ReRaise, 0))
        && loops == Remember(old(loops), h, handler)
      ensures (ok ==> finallies == old(finallies)) && pendingReturns == old(pendingReturns)
      decreases Weight(cleanup) + FinsWeight(finallies + [Handler(|loops|)]), 4
    {
      hide Emitted, Remember, Fill, Cells, FinsWeight, RejectsOutsideLoops;
      ghost var before := loops;
      var skip := Emit(Jump, 0);
      ghost var handler := |instructions|;
      Assoc(code + One(SetupFinally, 0), inner, One(Jump, 0));
      OneReplaced(code, SetupFinally, inner + One(Jump, 0), handler);
      Patch(setup, |instructions|);
      ghost var open := code + One(SetupFinally, handler);
      Assoc(open, inner, One(Jump, 0));
      ok := CompileUnder(cleanup, Handler(|loops|));
      if !ok { return; }
      ghost var h := Cells(cleanup, handler, old(Here()).Under(Handler(|before|)));
      EmittedCode(open + inner + One(Jump, 0), before, h, instructions, loops);
      var last := Emit(ReRaise, 0);
      Assoc(open + inner + One(Jump, 0), Fill(h, UNPATCHED), One(ReRaise, 0));
      OneReplaced(open + inner, Jump, Fill(h, UNPATCHED) + One(ReRaise, 0), |instructions|);
      Patch(skip, |instructions|);
    }

    /** Compiles `body` with one more cleanup pending around it. */
    method CompileUnder(body: Stmt, fin: Fin) returns (ok: bool)
      modifies this
      ensures ok == !Rejects(body, old(Here()).Under(fin))
      ensures ok ==> Emitted(old(instructions), old(loops), Cells(body, |old(instructions)|, old(Here()).Under(fin)), instructions, loops)
      ensures (ok ==> finallies == old(finallies)) && pendingReturns == old(pendingReturns)
      decreases Weight(body) + FinsWeight(finallies + [fin]), 3
    {
      hide Emitted, Cells, FinsWeight, RejectsOutsideLoops;
      ghost var before := finallies;
      finallies := finallies + [fin];
      ok := CompileStatement(body);
      if ok {
        finallies := finallies[..|finallies| - 1];
        assert finallies == before;
      }
    }
  }

  /** What a compiled `try` refuses: its body under the cleanup, or the cleanup at either place. */
  lemma TryRejects(s: Stmt, fins: seq<Fin>, depth: nat)
    requires s.TryFinally?
    ensures depth == 0 ==>
      (RejectsOutsideLoops(s, fins) <==>
        || RejectsOutsideLoops(s.body, fins + [Cleanup(s.cleanup, depth)])
        || RejectsOutsideLoops(s.cleanup, fins)
        || RejectsOutsideLoops(s.cleanup, fins + [Handler(depth)]))
  {}

  lemma EmittedCode(code: seq<Instr>, loops: seq<LoopContext>, cells: seq<Cell>, code': seq<Instr>, loops': seq<LoopContext>)
    requires Emitted(code, loops, cells, code', loops')
    ensures code' == code + Fill(cells, UNPATCHED) && loops' == Remember(loops, cells, |code|) && Iterators(loops') == Iterators(loops)
  {
    hide Fill;
  }

  /** Patching the one instruction between `pre` and `post`. */
  lemma OneReplaced(pre: seq<Instr>, op: OpCode, post: seq<Instr>, target: nat)
    ensures var code := pre + One(op, 0) + post;
            code[|pre| := code[|pre|].(operand := target)] == pre + One(op, target) + post
  {}

  /** The finished code of a `try` is its layout. */
  lemma TryEmitted(code: seq<Instr>, before: seq<LoopContext>, s: Stmt, handler: nat, end: nat, b: seq<Cell>, loops1: seq<LoopContext>,
                   f: seq<Cell>, loops2: seq<LoopContext>, h: seq<Cell>, code': seq<Instr>, loops3: seq<LoopContext>)
    requires handler == |code| + |b| + |f| + 3 && end == handler + |h| + 1
    requires loops1 == Remember(before, b, |code| + 1)
    requires loops2 == Remember(loops1, f, |code| + |b| + 2)
    requires loops3 == Remember(loops2, h, handler)
    requires code' == code + One(SetupFinally, handler) + (Fill(b, UNPATCHED) + One(PopBlock, 0) + Fill(f, UNPATCHED))
                      + One(Jump, end) + (Fill(h, UNPATCHED) + One(ReRaise, 0))
    ensures Emitted(code, before, TryShape(handler, b, f, h), code', loops3)
  {
    hide Fill, Remember, Lift, Emitted;
    EmittedTry(code, before, One(SetupFinally, handler), b, loops1, One(PopBlock, 0), f, loops2, One(Jump, end), h, loops3, One(ReRaise, 0));
    assert code' == code + One(SetupFinally, handler) + Fill(b, UNPATCHED) + One(PopBlock, 0) + Fill(f, UNPATCHED)
                    + One(Jump, end) + Fill(h, UNPATCHED) + One(ReRaise, 0);
  }

  /** The seven pieces of a `try`, three of them cells, emitted one after the other. */
  lemma EmittedTry(code: seq<Instr>, before: seq<LoopContext>, open: seq<Instr>, b: seq<Cell>, loops1: seq<LoopContext>, pop: seq<Instr>,
                   f: seq<Cell>, loops2: seq<LoopContext>, over: seq<Instr>, h: seq<Cell>, loops3: seq<LoopContext>, last: seq<Instr>)
    requires loops1 == Remember(before, b, |code| + |open|)
    requires loops2 == Remember(loops1, f, |code| + |open| + |b| + |pop|)
    requires loops3 == Remember(loops2, h, |code| + |open| + |b| + |pop| + |f| + |over|)
    ensures Emitted(code, before, Lift(open) + b + Lift(pop) + f + Lift(over) + h + Lift(last),
                    code + open + Fill(b, UNPATCHED) + pop + Fill(f, UNPATCHED) + over + Fill(h, UNPATCHED) + last, loops3)
  {
    hide Fill, Remember, Lift;
    var p1 := code + open;
    var p2 := p1 + Fill(b, UNPATCHED);
    var p3 := p2 + pop;
    var p4 := p3 + Fill(f, UNPATCHED);
    var p5 := p4 + over;
    var p6 := p5 + Fill(h, UNPATCHED);
    EmittedFixed(code, before, open);
    EmittedConcat(code, before, Lift(open), p1, before, b, p2, loops1);
    EmittedFixed(p2, loops1, pop);
    EmittedConcat(code, before, Lift(open) + b, p2, loops1, Lift(pop), p3, loops1);
    EmittedConcat(code, before, Lift(open) + b + Lift(pop), p3, loops1, f, p4, loops2);
    EmittedFixed(p4, loops2, over);
    EmittedConcat(code, before, Lift(open) + b + Lift(pop) + f, p4, loops2, Lift(over), p5, loops2);
    EmittedConcat(code, before, Lift(open) + b + Lift(pop) + f + Lift(over), p5, loops2, h, p6, loops3);
    EmittedFixed(p6, loops3, last);
    EmittedConcat(code, before, Lift(open) + b + Lift(pop) + f + Lift(over) + h, p6, loops3, Lift(last), p6 + last, loops3);
  }

  lemma Assoc<T>(a: seq<T>, b: seq<T>, c: seq<T>)
    ensures a + b + c == a + (b + c)
  {}

  lemma Joined(a: seq<Instr>, b: seq<Instr>, c: seq<Instr>, d: seq<Instr>)
    ensures a + b + c + d == a + (b + c + d)
  {
    Assoc(a, b, c);
    Assoc(a, b + c, d);
  }

  /** The code of the statements that have no code around their parts, and what they refuse. */
  lemma StatementLayout(s: Stmt, at: nat, c: Context)
    ensures match s
            case End => Cells(s, at, c) == Lift([]) && !RejectsOutsideLoops(s, c.fins)
            case Pass => Cells(s, at, c) == Lift([]) && !RejectsOutsideLoops(s, c.fins)
            case Seq(head, tail) =>
              var a := Cells(head, at, c);
              && Cells(s, at, c) == a + Cells(tail, at + |a|, c)
              && (RejectsOutsideLoops(s, c.fins) <==> RejectsOutsideLoops(head, c.fins) || RejectsOutsideLoops(tail, c.fins))
            case ExprStmt(e) => Cells(s, at, c) == Lift(ExprCode(e, at) + One(Pop, 0)) && !RejectsOutsideLoops(s, c.fins)
            case Assign(x, e) => Cells(s, at, c) == Lift(ExprCode(e, at) + One(StoreLocal(x), 0)) && !RejectsOutsideLoops(s, c.fins)
            case Raise(e) => Cells(s, at, c) == Lift(ExprCode(e, at) + One(RaiseOp, 1)) && !RejectsOutsideLoops(s, c.fins)
            case RaiseCurrent => Cells(s, at, c) == Lift(One(RaiseOp, 0)) && !RejectsOutsideLoops(s, c.fins)
            case _ => true
  {
    hide ExprCode, Fill, UnwindCells, TryShape, LoopShape, IfShape, Pops, FinsWeight;
  }

  lemma EmittedExpression(code: seq<Instr>, loops: seq<LoopContext>, e: Expr, use: seq<Instr>)
    ensures Emitted(code, loops, Lift(ExprCode(e, |code|) + use), code + ExprCode(e, |code|) + use, loops)
  {
    hide ExprCode, Emitted;
    EmittedFixed(code, loops, ExprCode(e, |code|) + use);
    Assoc(code, ExprCode(e, |code|), use);
  }

  /** The code of the expressions that need no jump. */
  lemma PlainLayout(e: Expr, at: nat)
    ensures match e
            case Const(v) => ExprCode(e, at) == One(LoadConst(v), 0)
            case Name(x) => ExprCode(e, at) == One(LoadLocal(x), 0)
            case Binary(op, l, r) => ExprCode(e, at) == ExprCode(l, at) + ExprCode(r, at + |ExprCode(l, at)|) + One(BinaryOp(op), 0)
            case Unary(op, o) => ExprCode(e, at) == ExprCode(o, at) + One(UnaryOp(op), 0)
            case NamedExpr(x, bound) => ExprCode(e, at) == ExprCode(bound, at) + One(Duplicate, 0) + One(StoreLocal(x), 0)
            case Call(callee, arguments) =>
              var a := ExprCode(callee, at);
              ExprCode(e, at) == a + AllCode(arguments, at + |a|) + One(CallOp, |arguments|)
            case _ => true
  {
    hide AllCode;
  }

  lemma JumpRejected(s: Stmt, fins: seq<Fin>)
    requires s.Break? || s.Continue?
    ensures RejectsOutsideLoops(s, fins)
  {}

  /** The finished code of an `if`, with or without an `else`. */
  lemma IfEmitted(code: seq<Instr>, before: seq<LoopContext>, test: seq<Instr>, b: seq<Cell>, loops1: seq<LoopContext>, skip: seq<Instr>,
                  o: seq<Cell>, code': seq<Instr>, loops2: seq<LoopContext>)
    requires loops1 == Remember(before, b, |code| + |test|)
    requires loops2 == if skip == [] && o == [] then loops1 else Remember(loops1, o, |code| + |test| + |b| + |skip|)
    requires code' == if skip == [] && o == [] then code + test + Fill(b, UNPATCHED) else code + test + Fill(b, UNPATCHED) + skip + Fill(o, UNPATCHED)
    ensures Emitted(code, before, IfShape(test, b, skip, o), code', loops2)
  {
    hide Fill, Remember, Lift;
    var code1 := code + test + Fill(b, UNPATCHED);
    EmittedFixed(code, before, test);
    EmittedConcat(code, before, Lift(test), code + test, before, b, code1, loops1);
    if skip == [] && o == [] {
      assert Lift(test) + b + Lift([]) + [] == Lift(test) + b;
    } else {
      EmittedFixed(code1, loops1, skip);
      EmittedConcat(code, before, Lift(test) + b, code1, loops1, Lift(skip), code1 + skip, loops1);
      EmittedConcat(code, before, Lift(test) + b + Lift(skip), code1 + skip, loops1, o, code', loops2);
    }
  }

  lemma LoopEmitted(code: seq<Instr>, before: seq<LoopContext>, fixed: seq<Instr>, o: seq<Cell>, code': seq<Instr>, after: seq<LoopContext>)
    requires code' == code + fixed + Fill(o, UNPATCHED) && after == Remember(before, o, |code| + |fixed|)
    ensures Emitted(code, before, Lift(fixed) + o, code', after)
  {
    hide Fill, Remember, Lift;
    EmittedFixed(code, before, fixed);
    EmittedConcat(code, before, Lift(fixed), code + fixed, before, o, code', after);
  }

  /** The exit jump in the opening of a loop, patched once the body stands behind it. */
  lemma OpeningReplaced(code: seq<Instr>, opening: seq<Instr>, rest: seq<Instr>, exit: nat, target: nat)
    requires |code| <= exit < |code| + |opening|
    ensures var all := code + opening + rest;
            var lead := opening[exit - |code| := opening[exit - |code|].(operand := target)];
            all[exit := all[exit].(operand := target)] == code + lead + rest
  {}

  /** Patching the `continue`s of a loop body, while nothing stands behind it. */
  lemma PatchContinues(pre: seq<Instr>, b: seq<Cell>, top: nat)
    ensures Patched(pre + Fill(b, UNPATCHED), Positions(b, |pre|, ContinueHole), top) == pre + Fill(b, Targets(0, top, 0))
  {
    hide Fill, Positions, Patched;
    PatchResolves(pre, b, [], UNPATCHED, ContinueHole, top);
    assert forall code: seq<Instr> :: code + [] == code;
  }

  /** Patching the breaks of a loop body, once the code around it is in place. */
  lemma FinishLoop(code: seq<Instr>, opening: seq<Instr>, b: seq<Cell>, top: nat, back: seq<Instr>, rest: seq<Instr>, target: nat)
    ensures var ps := Positions(b, |code| + |opening|, BreakHole);
            && Within(ps, |code + opening + (Fill(b, Targets(0, top, 0)) + back) + rest|)
            && Patched(code + opening + (Fill(b, Targets(0, top, 0)) + back) + rest, ps, target)
               == code + (opening + Fill(b, Targets(target, top, 0)) + back) + rest
  {
    hide Fill, Positions, Patched;
    PatchResolves(code + opening, b, back + rest, Targets(0, top, 0), BreakHole, target);
    assert |code + opening| == |code| + |opening|;
    PatchedRegrouped(code, opening, Fill(b, Targets(0, top, 0)), Fill(b, Targets(target, top, 0)), back, rest, Positions(b, |code + opening|, BreakHole), target);
  }

  lemma PatchedRegrouped(a: seq<Instr>, b: seq<Instr>, c: seq<Instr>, c': seq<Instr>, d: seq<Instr>, e: seq<Instr>, ps: seq<nat>, target: nat)
    requires Within(ps, |a + b + c + (d + e)|) && Patched(a + b + c + (d + e), ps, target) == a + b + c' + (d + e)
    ensures Within(ps, |a + b + (c + d) + e|) && Patched(a + b + (c + d) + e, ps, target) == a + (b + c' + d) + e
  {
    hide Patched, Within;
    Regroup(a, b, c, d, e);
    Regroup(a, b, c', d, e);
  }

  lemma Regroup(a: seq<Instr>, b: seq<Instr>, c: seq<Instr>, d: seq<Instr>, e: seq<Instr>)
    ensures a + b + (c + d) + e == a + b + c + (d + e) == a + (b + c + d) + e
  {}

  /** A jump to be resolved later, remembered by the innermost loop. */
  lemma HoleEmitted(code: seq<Instr>, loops: seq<LoopContext>, kind: Kind)
    requires loops != [] && kind != ExitHole
    ensures var k := |loops| - 1;
            var last := if kind == BreakHole then loops[k].(breakJumps := loops[k].breakJumps + [|code|])
                        else loops[k].(continueJumps := loops[k].continueJumps + [|code|]);
            Emitted(code, loops, [Hole(kind, Jump)], code + One(Jump, 0), loops[k := last])
  {
    hide Fill, Positions;
    OneHole(kind, Jump, |code|);
    NoOtherHole(kind, |code|);
    var last := loops[|loops| - 1];
    assert last.breakJumps + [] == last.breakJumps && last.continueJumps + [] == last.continueJumps;
  }

  lemma NoOtherHole(kind: Kind, at: nat)
    ensures forall other :: other != kind ==> Positions([Hole(kind, Jump)], at, other) == []
  {}

  lemma UnwindNothing(at: nat, c: Context, all: bool)
    requires !c.MustRun(all)
    ensures UnwindCells(at, c, all) == []
    ensures c.fins == [] ==> !UnwindRejects(c.fins)
  {}

  lemma UnwindRejectsStep(fins: seq<Fin>)
    requires fins != []
    ensures var fin, outer := fins[|fins| - 1], fins[..|fins| - 1];
            UnwindRejects(fins) <==> UnwindRejects(outer) || (fin.Cleanup? && RejectsOutsideLoops(fin.body, outer))
  {}

  lemma {:induction false} FinsWeightPrefix(fins: seq<Fin>, i: nat)
    requires i <= |fins|
    ensures FinsWeight(fins[..i]) <= FinsWeight(fins)
    decreases |fins| - i
  {
    if i < |fins| {
      FinsWeightPrefix(fins, i + 1);
      assert fins[..i + 1] == fins[..i] + [fins[i]];
      FinsWeightUnder(fins[..i], fins[i]);
    } else {
      assert fins[..i] == fins;
    }
  }

  lemma CompareLayout(e: Expr, at: nat)
    requires e.Compare?
    ensures var a := ExprCode(e.left, at);
            var cells := ChainCells(e.links, at + |a|);
            var exit := at + |a| + |cells| + 1;
            ExprCode(e, at) ==
              if e.links == [] then a
              else if |e.links| == 1 then a + Fill(cells, UNPATCHED)
              else a + Fill(cells, UNPATCHED.(exit := exit)) + One(Jump, exit + 2) + One(Swap, 0) + One(Pop, 0)
  {
    hide ChainCells, Fill;
  }

  /** The code of the arguments from `i` on. */
  lemma AllStep(es: seq<Expr>, i: nat, at: nat)
    requires i <= |es|
    ensures AllCode(es[i..], at) ==
              if i == |es| then [] else ExprCode(es[i], at) + AllCode(es[i + 1..], at + |ExprCode(es[i], at)|)
  {
    hide ExprCode;
    if i < |es| { assert es[i..][1..] == es[i + 1..]; }
  }

  lemma NoCells(isAnd: bool, at: nat)
    ensures BoolCells(isAnd, [], at) == [] && Fill([], UNPATCHED) == [] && Positions([], at, ExitHole) == []
  {}

  lemma NoLinks(at: nat)
    ensures ChainCells([], at) == [] && Fill([], UNPATCHED) == [] && Positions([], at, ExitHole) == []
  {}

  lemma ConditionalLayout(e: Expr, at: nat)
    requires e.Conditional?
    ensures var t := ExprCode(e.test, at);
            var b := ExprCode(e.body, at + |t| + 1);
            var elseAt := at + |t| + 1 + |b| + 1;
            var o := ExprCode(e.orElse, elseAt);
            ExprCode(e, at) == t + One(JumpIfFalse, elseAt) + b + One(Jump, elseAt + |o|) + o
  {}

  lemma OneHole(kind: Kind, op: OpCode, at: nat)
    ensures Fill([Hole(kind, op)], UNPATCHED) == One(op, 0)
    ensures Positions([Hole(kind, op)], at, kind) == [at]
  {
    assert [Hole(kind, op)][1..] == [];
  }

  /** Cells that start with finished code, then one hole, then more. */
  lemma AroundHole(code: seq<Instr>, kind: Kind, op: OpCode, rest: seq<Cell>, at: nat)
    ensures Fill(Lift(code) + ([Hole(kind, op)] + rest), UNPATCHED) == code + One(op, 0) + Fill(rest, UNPATCHED)
    ensures Positions(Lift(code) + ([Hole(kind, op)] + rest), at, kind) == [at + |code|] + Positions(rest, at + |code| + 1, kind)
  {
    hide Fill, Positions;
    var hole := [Hole(kind, op)];
    OneHole(kind, op, at + |code|);
    FillConcat(Lift(code), hole + rest, UNPATCHED);
    FillConcat(hole, rest, UNPATCHED);
    FillLift(code, UNPATCHED);
    PositionsConcat(Lift(code), hole + rest, at, kind);
    PositionsConcat(hole, rest, at + |code|, kind);
    PositionsFixed(code, at, kind);
  }

  lemma BoolLayout(isAnd: bool, tail: seq<Expr>, at: nat)
    requires tail != []
    ensures var a := ExprCode(tail[0], at + 1);
            BoolCells(isAnd, tail, at) == Lift([]) + ([Hole(ExitHole, ShortCircuit(isAnd))] + (Lift(a) + BoolCells(isAnd, tail[1..], at + 1 + |a|)))
  {
    hide ExprCode;
  }

  /** The cells of the operands from `i` on, and where their holes are. */
  lemma BoolStep(isAnd: bool, tail: seq<Expr>, i: nat, at: nat)
    requires i < |tail|
    ensures var a := ExprCode(tail[i], at + 1);
            var rest := BoolCells(isAnd, tail[i + 1..], at + 1 + |a|);
            && Fill(BoolCells(isAnd, tail[i..], at), UNPATCHED) == One(ShortCircuit(isAnd), 0) + a + Fill(rest, UNPATCHED)
            && Positions(BoolCells(isAnd, tail[i..], at), at, ExitHole) == [at] + Positions(rest, at + 1 + |a|, ExitHole)
  {
    hide ExprCode, Fill, BoolCells, Positions;
    var a := ExprCode(tail[i], at + 1);
    var rest := BoolCells(isAnd, tail[i + 1..], at + 1 + |a|);
    assert tail[i..][0] == tail[i] && tail[i..][1..] == tail[i + 1..];
    BoolLayout(isAnd, tail[i..], at);
    AroundHole([], ExitHole, ShortCircuit(isAnd), Lift(a) + rest, at);
    FillConcat(Lift(a), rest, UNPATCHED);
    FillLift(a, UNPATCHED);
    PositionsConcat(Lift(a), rest, at + 1, ExitHole);
    PositionsFixed(a, at + 1, ExitHole);
  }

  /** The cells of the links from `i` on, and where their holes are. */
  lemma ChainStep(links: seq<Link>, i: nat, at: nat)
    requires i < |links|
    ensures var last := i == |links| - 1;
            var work := ExprCode(links[i].operand, at) + LinkCode(last, links[i].op);
            var rest := ChainCells(links[i + 1..], at + |work| + 1);
            && Fill(ChainCells(links[i..], at), UNPATCHED) == (if last then work else work + One(JumpIfFalseOrPop, 0) + Fill(rest, UNPATCHED))
            && Positions(ChainCells(links[i..], at), at, ExitHole)
               == (if last then [] else [at + |work|] + Positions(rest, at + |work| + 1, ExitHole))
  {
    hide ExprCode, Fill, ChainCells, Positions, LinkCode;
    var last := i == |links| - 1;
    var work := ExprCode(links[i].operand, at) + LinkCode(last, links[i].op);
    assert links[i..][0] == links[i] && links[i..][1..] == links[i + 1..];
    ChainLayout(links[i..], at);
    if last {
      assert Lift(work) + [] == Lift(work);
      FillLift(work, UNPATCHED);
      PositionsFixed(work, at, ExitHole);
    } else {
      AroundHole(work, ExitHole, JumpIfFalseOrPop, ChainCells(links[i + 1..], at + |work| + 1), at);
    }
  }

  lemma ChainLayout(links: seq<Link>, at: nat)
    requires links != []
    ensures var x := ExprCode(links[0].operand, at);
            var last := |links| == 1;
            var work := x + LinkCode(last, links[0].op);
            ChainCells(links, at) == Lift(work) + if last then [] else [Hole(ExitHole, JumpIfFalseOrPop)] + ChainCells(links[1..], at + |work| + 1)
  {
    hide ExprCode;
    var x := ExprCode(links[0].operand, at);
    if |links| == 1 {
      assert Lift(x + One(CompareOp(links[0].op), 0)) + [] == Lift(x + One(CompareOp(links[0].op), 0));
    } else {
      assert x + One(Duplicate, 0) + One(RotateThree, 0) + One(CompareOp(links[0].op), 0) == x + LinkCode(false, links[0].op);
    }
  }

  /** Compiles a whole body: a syntax error exactly for a jump outside every loop. */
  method CompileBody(s: Stmt) returns (code: Option<seq<Instr>>)
    ensures code == if FreeJump(s) then None else Some(BodyCode(s))
  {
    hide Fill, Cells, RejectsOutsideLoops;
    var compiler := new Compiler();
    assert compiler.Here() == TOP;
    RejectedExactlyOutsideLoops(s);
    var ok := compiler.CompileStatement(s);
    if !ok { return None; }
    var load := compiler.Emit(LoadConst(NoneValue), 0);
    var ret := compiler.Emit(ReturnOp, 0);
    assert [] + Fill(Cells(s, 0, TOP), UNPATCHED) == Fill(Cells(s, 0, TOP), UNPATCHED);
    assert compiler.instructions == BodyCode(s);
    code := Some(compiler.instructions);
  }
}
