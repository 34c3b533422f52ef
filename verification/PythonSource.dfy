/**
 The Python fragment the compiler is verified on, and its big-step meaning.

 Operators, truth tests, calls and iteration are not fixed: a `Runtime` supplies them as
 arbitrary total functions that may raise and may change the `World`. Threading the world
 through every evaluation is what makes "evaluated once", "not evaluated" and "in this
 order" part of the meaning.
 */
module PythonSource {
  import opened Wrappers

  /** A reference to an object whose state lives in the world, or an immutable scalar. */
  datatype Value = NoneValue | Bool(b: bool) | Int(n: int) | Str(s: string) | Ref(id: nat)

  /** A frame's local variables and every object the program can reach. */
  datatype World = World(locals: map<string, Value>, heap: map<nat, seq<Value>>)

  /** The outcome of one run-time operation: a result, or a raised exception. */
  datatype Outcome<+T> = Ok(value: T, world: World) | Err(exn: Value, world: World)

  datatype Runtime = Runtime(
    binary: (string, Value, Value, World) -> Outcome<Value>,
    unary: (string, Value, World) -> Outcome<Value>,
    compare: (string, Value, Value, World) -> Outcome<Value>,
    truthy: (Value, World) -> Outcome<bool>,
    call: (Value, seq<Value>, World) -> Outcome<Value>,
    getIterator: (Value, World) -> Outcome<Value>,
    next: (Value, World) -> Outcome<Option<Value>>,
    toException: (Value, World) -> Outcome<Value>,
    unbound: string -> Value,
    noActiveException: Value)

  /** `BoolOp` lists its operands as a head and a tail because a parsed one is never empty. */
  datatype Expr =
    | Const(value: Value)
    | Name(id: string)
    | Binary(op: string, left: Expr, right: Expr)
    | Unary(op: string, operand: Expr)
    | BoolOp(isAnd: bool, head: Expr, tail: seq<Expr>)
    | Compare(left: Expr, links: seq<Link>)
    | Conditional(test: Expr, body: Expr, orElse: Expr)
    | Call(callee: Expr, arguments: seq<Expr>)
    | NamedExpr(target: string, bound: Expr)

  /** One operator of a chained comparison with the operand to its right. */
  datatype Link = Link(op: string, operand: Expr)

  /** `End` and `Seq` are the list of statements of a block. */
  datatype Stmt =
    | End
    | Seq(head: Stmt, tail: Stmt)
    | Pass
    | ExprStmt(value: Expr)
    | Assign(target: string, value: Expr)
    | If(test: Expr, body: Stmt, orElse: Stmt)
    | While(test: Expr, body: Stmt, orElse: Stmt)
    | For(target: string, iterable: Expr, body: Stmt, orElse: Stmt)
    | Break
    | Continue
    | Return(value: Expr)
    | Raise(value: Expr)
    | RaiseCurrent
    | TryFinally(body: Stmt, cleanup: Stmt)

  // ---- expressions ----

  function Load(rt: Runtime, x: string, w: World): Outcome<Value> {
    if x in w.locals then Ok(w.locals[x], w) else Err(rt.unbound(x), w)
  }

  function Store(x: string, v: Value, w: World): World {
    w.(locals := w.locals[x := v])
  }

  function Eval(rt: Runtime, e: Expr, w: World): Outcome<Value>
    decreases e, 1
  {
    match e
    case Const(v) => Ok(v, w)
    case Name(x) => Load(rt, x, w)
    case Binary(op, l, r) =>
      (match Eval(rt, l, w)
       case Err(x, w1) => Err(x, w1)
       case Ok(a, w1) =>
         match Eval(rt, r, w1)
         case Err(x, w2) => Err(x, w2)
         case Ok(b, w2) => rt.binary(op, a, b, w2))
    case Unary(op, o) =>
      (match Eval(rt, o, w)
       case Err(x, w1) => Err(x, w1)
       case Ok(a, w1) => rt.unary(op, a, w1))
    case BoolOp(isAnd, head, tail) =>
      (match Eval(rt, head, w)
       case Err(x, w1) => Err(x, w1)
       case Ok(a, w1) => EvalBool(rt, isAnd, a, tail, w1))
    case Compare(l, links) =>
      (match Eval(rt, l, w)
       case Err(x, w1) => Err(x, w1)
       case Ok(a, w1) => if links == [] then Ok(a, w1) else EvalChain(rt, a, links, w1))
    case Conditional(test, body, orElse) =>
      (match Eval(rt, test, w)
       case Err(x, w1) => Err(x, w1)
       case Ok(a, w1) =>
         match rt.truthy(a, w1)
         case Err(x, w2) => Err(x, w2)
         case Ok(t, w2) => if t then Eval(rt, body, w2) else Eval(rt, orElse, w2))
    case Call(callee, arguments) =>
      (match Eval(rt, callee, w)
       case Err(x, w1) => Err(x, w1)
       case Ok(f, w1) =>
         match EvalAll(rt, arguments, w1)
         case Err(x, w2) => Err(x, w2)
         case Ok(vs, w2) => rt.call(f, vs, w2))
    case NamedExpr(x, value) =>
      match Eval(rt, value, w)
      case Err(exn, w1) => Err(exn, w1)
      case Ok(v, w1) => Ok(v, Store(x, v, w1))
  }

  /** The operands after one whose value is `v`: the first deciding value is the result. */
  function EvalBool(rt: Runtime, isAnd: bool, v: Value, tail: seq<Expr>, w: World): Outcome<Value>
    decreases tail, 0
  {
    if tail == [] then Ok(v, w) else
    match rt.truthy(v, w)
    case Err(x, w1) => Err(x, w1)
    case Ok(t, w1) =>
      if t != isAnd then Ok(v, w1) else
      match Eval(rt, tail[0], w1)
      case Err(x, w2) => Err(x, w2)
      case Ok(v2, w2) => EvalBool(rt, isAnd, v2, tail[1..], w2)
  }

  /** A chained comparison whose left operand has already been evaluated to `a`. */
  function EvalChain(rt: Runtime, a: Value, links: seq<Link>, w: World): Outcome<Value>
    requires links != []
    decreases links, 0
  {
    match Eval(rt, links[0].operand, w)
    case Err(x, w1) => Err(x, w1)
    case Ok(b, w1) =>
      match rt.compare(links[0].op, a, b, w1)
      case Err(x, w2) => Err(x, w2)
      case Ok(c, w2) =>
        if |links| == 1 then Ok(c, w2) else
        match rt.truthy(c, w2)
        case Err(x, w3) => Err(x, w3)
        case Ok(t, w3) => if t then EvalChain(rt, b, links[1..], w3) else Ok(c, w3)
  }

  function EvalAll(rt: Runtime, es: seq<Expr>, w: World): (r: Outcome<seq<Value>>)
    ensures r.Ok? ==> |r.value| == |es|
    decreases es, 0
  {
    if es == [] then Ok([], w) else
    match Eval(rt, es[0], w)
    case Err(x, w1) => Err(x, w1)
    case Ok(v, w1) =>
      match EvalAll(rt, es[1..], w1)
      case Err(x, w2) => Err(x, w2)
      case Ok(vs, w2) => Ok([v] + vs, w2)
  }

  // ---- statements ----

  /** How control leaves a statement. */
  datatype Exit = Normal | Breaking | Continuing | Returning(value: Value) | Raising(exn: Value)

  /** A finished run with the fuel it has left, or one that asked for more than it was given. */
  datatype Run = Done(exit: Exit, world: World, fuel: nat) | OutOfFuel

  /**
   The big-step meaning. `current` is the exception being handled, which a bare `raise`
   re-raises. Every iteration of a loop burns one unit of fuel, so a program diverges
   exactly when it is `OutOfFuel` for every amount.
   */
  function Exec(rt: Runtime, s: Stmt, current: Option<Value>, w: World, fuel: nat): (r: Run)
    ensures r.Done? ==> r.fuel <= fuel
    decreases fuel, s, 1
  {
    match s
    case End => Done(Normal, w, fuel)
    case Pass => Done(Normal, w, fuel)
    case Seq(head, tail) =>
      (match Exec(rt, head, current, w, fuel)
       case OutOfFuel => OutOfFuel
       case Done(x, w1, left) => if x.Normal? then Exec(rt, tail, current, w1, left) else Done(x, w1, left))
    case ExprStmt(e) =>
      (match Eval(rt, e, w)
       case Err(x, w1) => Done(Raising(x), w1, fuel)
       case Ok(_, w1) => Done(Normal, w1, fuel))
    case Assign(x, e) =>
      (match Eval(rt, e, w)
       case Err(exn, w1) => Done(Raising(exn), w1, fuel)
       case Ok(v, w1) => Done(Normal, Store(x, v, w1), fuel))
    case If(test, body, orElse) =>
      (match Test(rt, test, w)
       case Err(x, w1) => Done(Raising(x), w1, fuel)
       case Ok(t, w1) => if t then Exec(rt, body, current, w1, fuel) else Exec(rt, orElse, current, w1, fuel))
    case While(test, body, orElse) => ExecWhile(rt, s, current, w, fuel)
    case For(x, iterable, body, orElse) =>
      (match Eval(rt, iterable, w)
       case Err(exn, w1) => Done(Raising(exn), w1, fuel)
       case Ok(v, w1) =>
         match rt.getIterator(v, w1)
         case Err(exn, w2) => Done(Raising(exn), w2, fuel)
         case Ok(it, w2) => ExecFor(rt, s, it, current, w2, fuel))
    case Break => Done(Breaking, w, fuel)
    case Continue => Done(Continuing, w, fuel)
    case Return(e) =>
      (match Eval(rt, e, w)
       case Err(x, w1) => Done(Raising(x), w1, fuel)
       case Ok(v, w1) => Done(Returning(v), w1, fuel))
    case Raise(e) =>
      (match Eval(rt, e, w)
       case Err(x, w1) => Done(Raising(x), w1, fuel)
       case Ok(v, w1) =>
         match rt.toException(v, w1)
         case Err(x, w2) => Done(Raising(x), w2, fuel)
         case Ok(x, w2) => Done(Raising(x), w2, fuel))
    case RaiseCurrent => Done(Raising(if current.Some? then current.value else rt.noActiveException), w, fuel)
    case TryFinally(body, cleanup) =>
      match Exec(rt, body, current, w, fuel)
      case OutOfFuel => OutOfFuel
      case Done(x, w1, left) =>
        match Exec(rt, cleanup, if x.Raising? then Some(x.exn) else current, w1, left)
        case OutOfFuel => OutOfFuel
        case Done(y, w2, left2) => Done(if y.Normal? then x else y, w2, left2)
  }

  function Test(rt: Runtime, e: Expr, w: World): Outcome<bool> {
    match Eval(rt, e, w)
    case Err(x, w1) => Err(x, w1)
    case Ok(v, w1) => rt.truthy(v, w1)
  }

  function ExecWhile(rt: Runtime, loop: Stmt, current: Option<Value>, w: World, fuel: nat): (r: Run)
    requires loop.While?
    ensures r.Done? ==> r.fuel <= fuel
    decreases fuel, loop, 0
  {
    if fuel == 0 then OutOfFuel else
    match Test(rt, loop.test, w)
    case Err(x, w1) => Done(Raising(x), w1, fuel - 1)
    case Ok(t, w1) =>
      if !t then Exec(rt, loop.orElse, current, w1, fuel - 1) else
      match Exec(rt, loop.body, current, w1, fuel - 1)
      case OutOfFuel => OutOfFuel
      case Done(x, w2, left) =>
        match x
        case Normal => ExecWhile(rt, loop, current, w2, left)
        case Continuing => ExecWhile(rt, loop, current, w2, left)
        case Breaking => Done(Normal, w2, left)
        case _ => Done(x, w2, left)
  }

  function ExecFor(rt: Runtime, loop: Stmt, it: Value, current: Option<Value>, w: World, fuel: nat): (r: Run)
    requires loop.For?
    ensures r.Done? ==> r.fuel <= fuel
    decreases fuel, loop, 0
  {
    if fuel == 0 then OutOfFuel else
    match rt.next(it, w)
    case Err(x, w1) => Done(Raising(x), w1, fuel - 1)
    case Ok(None, w1) => Exec(rt, loop.orElse, current, w1, fuel - 1)
    case Ok(Some(v), w1) =>
      match Exec(rt, loop.body, current, Store(loop.target, v, w1), fuel - 1)
      case OutOfFuel => OutOfFuel
      case Done(x, w2, left) =>
        match x
        case Normal => ExecFor(rt, loop, it, current, w2, left)
        case Continuing => ExecFor(rt, loop, it, current, w2, left)
        case Breaking => Done(Normal, w2, left)
        case _ => Done(x, w2, left)
  }

  // ---- where a jump or a return may leave a `finally` ----

  /** `s` holds a `break` or `continue` that belongs to a loop outside `s`. */
  predicate FreeJump(s: Stmt) {
    match s
    case Seq(head, tail) => FreeJump(head) || FreeJump(tail)
    case If(_, body, orElse) => FreeJump(body) || FreeJump(orElse)
    case While(_, _, orElse) => FreeJump(orElse)
    case For(_, _, _, orElse) => FreeJump(orElse)
    case Break => true
    case Continue => true
    case TryFinally(body, cleanup) => FreeJump(body) || FreeJump(cleanup)
    case _ => false
  }

  /** `s` holds a loop with a `break` or `continue` of its own. */
  predicate LoopJump(s: Stmt) {
    match s
    case Seq(head, tail) => LoopJump(head) || LoopJump(tail)
    case If(_, body, orElse) => LoopJump(body) || LoopJump(orElse)
    case While(_, body, orElse) => FreeJump(body) || LoopJump(body) || LoopJump(orElse)
    case For(_, _, body, orElse) => FreeJump(body) || LoopJump(body) || LoopJump(orElse)
    case TryFinally(body, cleanup) => LoopJump(body) || LoopJump(cleanup)
    case _ => false
  }

  predicate Returns(s: Stmt) {
    match s
    case Seq(head, tail) => Returns(head) || Returns(tail)
    case If(_, body, orElse) => Returns(body) || Returns(orElse)
    case While(_, body, orElse) => Returns(body) || Returns(orElse)
    case For(_, _, body, orElse) => Returns(body) || Returns(orElse)
    case Return(_) => true
    case TryFinally(body, cleanup) => Returns(body) || Returns(cleanup)
    case _ => false
  }

  /** `s` holds a loop with a `return` inside it. */
  predicate LoopReturn(s: Stmt): (b: bool)
    ensures b ==> Returns(s)
  {
    match s
    case Seq(head, tail) => LoopReturn(head) || LoopReturn(tail)
    case If(_, body, orElse) => LoopReturn(body) || LoopReturn(orElse)
    case While(_, body, orElse) => Returns(body) || LoopReturn(orElse)
    case For(_, _, body, orElse) => Returns(body) || LoopReturn(orElse)
    case TryFinally(body, cleanup) => LoopReturn(body) || LoopReturn(cleanup)
    case _ => false
  }

  /**
   The programs whose meaning the compiler preserves. A `finally` that a `return` may run
   must hold no loop with its own `break` or `continue`, and one that a `return` inside a
   loop may run must hold no `break` or `continue` at all.
   */
  predicate Guarded(s: Stmt) {
    match s
    case Seq(head, tail) => Guarded(head) && Guarded(tail)
    case If(_, body, orElse) => Guarded(body) && Guarded(orElse)
    case While(_, body, orElse) => Guarded(body) && Guarded(orElse)
    case For(_, _, body, orElse) => Guarded(body) && Guarded(orElse)
    case TryFinally(body, cleanup) =>
      && Guarded(body) && Guarded(cleanup)
      && (Returns(body) ==> !LoopJump(cleanup))
      && (LoopReturn(body) ==> !FreeJump(cleanup))
    case _ => true
  }

  /** Control leaves by a jump or a return only where one is written. */
  lemma {:induction false} ExitsAreWritten(rt: Runtime, s: Stmt, current: Option<Value>, w: World, fuel: nat)
    ensures Written(s, Exec(rt, s, current, w, fuel))
    decreases fuel, s, 1
  {
    match s
    case Seq(head, tail) =>
      ExitsAreWritten(rt, head, current, w, fuel);
      var r := Exec(rt, head, current, w, fuel);
      if r.Done? { ExitsAreWritten(rt, tail, current, r.world, r.fuel); }
    case If(test, body, orElse) =>
      var t := Test(rt, test, w);
      ExitsAreWritten(rt, body, current, t.world, fuel);
      ExitsAreWritten(rt, orElse, current, t.world, fuel);
    case While(test, body, orElse) =>
      WhileExitsAreWritten(rt, s, current, w, fuel);
    case For(x, iterable, body, orElse) =>
      var r := Eval(rt, iterable, w);
      if r.Ok? {
        var it := rt.getIterator(r.value, r.world);
        if it.Ok? { ForExitsAreWritten(rt, s, it.value, current, it.world, fuel); }
      }
    case TryFinally(body, cleanup) =>
      ExitsAreWritten(rt, body, current, w, fuel);
      var r := Exec(rt, body, current, w, fuel);
      if r.Done? {
        ExitsAreWritten(rt, cleanup, if r.exit.Raising? then Some(r.exit.exn) else current, r.world, r.fuel);
      }
    case _ =>
  }

  predicate Written(s: Stmt, r: Run) {
    r.Done? ==>
      && (r.exit.Breaking? || r.exit.Continuing? ==> FreeJump(s))
      && (r.exit.Returning? ==> Returns(s))
  }

  lemma {:induction false} WhileExitsAreWritten(rt: Runtime, loop: Stmt, current: Option<Value>, w: World, fuel: nat)
    requires loop.While?
    ensures Written(loop, ExecWhile(rt, loop, current, w, fuel))
    decreases fuel, loop, 0
  {
    if fuel > 0 {
      var t := Test(rt, loop.test, w);
      ExitsAreWritten(rt, loop.orElse, current, t.world, fuel - 1);
      ExitsAreWritten(rt, loop.body, current, t.world, fuel - 1);
      var r := Exec(rt, loop.body, current, t.world, fuel - 1);
      if r.Done? { WhileExitsAreWritten(rt, loop, current, r.world, r.fuel); }
    }
  }

  lemma {:induction false} ForExitsAreWritten(rt: Runtime, loop: Stmt, it: Value, current: Option<Value>, w: World, fuel: nat)
    requires loop.For?
    ensures Written(loop, ExecFor(rt, loop, it, current, w, fuel))
    decreases fuel, loop, 0
  {
    if fuel > 0 {
      var step := rt.next(it, w);
      ExitsAreWritten(rt, loop.orElse, current, step.world, fuel - 1);
      if step.Ok? && step.value.Some? {
        var w1 := Store(loop.target, step.value.value, step.world);
        ExitsAreWritten(rt, loop.body, current, w1, fuel - 1);
        var r := Exec(rt, loop.body, current, w1, fuel - 1);
        if r.Done? { ForExitsAreWritten(rt, loop, it, current, r.world, r.fuel); }
      }
    }
  }
}
