/**
 What a local variable holds after it is stored, told by what names evaluate to, and what that makes
 of the compiled code of straight-line bodies.
 */
module PythonLocals {
  import opened Wrappers
  import opened PythonSource
  import opened PythonMachine
  import opened PythonCorrectness

  /** `after` is `before` but for the one name `x`, which now evaluates to `v`. */
  ghost predicate Bound(rt: Runtime, x: string, v: Value, before: World, after: World) {
    && after.heap == before.heap
    && Eval(rt, Name(x), after) == Ok(v, after)
    && forall y: string :: y != x ==>
         match Eval(rt, Name(y), before)
         case Ok(held, _) => Eval(rt, Name(y), after) == Ok(held, after)
         case Err(exn, _) => Eval(rt, Name(y), after) == Err(exn, after)
  }

  /** An assignment that ends normally binds its target to what its right side evaluates to, and nothing else. */
  lemma AssignBinds(rt: Runtime, x: string, e: Expr, current: Option<Value>, w: World, fuel: nat)
    ensures match Eval(rt, e, w)
            case Err(exn, w1) => Exec(rt, Assign(x, e), current, w, fuel) == Done(Raising(exn), w1, fuel)
            case Ok(v, w1) =>
              exists after: World :: Bound(rt, x, v, w1, after) && Exec(rt, Assign(x, e), current, w, fuel) == Done(Normal, after, fuel)
  {
    var r := Eval(rt, e, w);
    if r.Ok? { StoreBinds(rt, x, r.value, r.world); }
  }

  lemma StoreBinds(rt: Runtime, x: string, v: Value, w: World)
    ensures Bound(rt, x, v, w, Store(x, v, w))
  {}

  /** The walrus does the same, and evaluates to what it bound. */
  lemma NamedBinds(rt: Runtime, x: string, e: Expr, w: World)
    ensures match Eval(rt, e, w)
            case Err(exn, w1) => Eval(rt, NamedExpr(x, e), w) == Err(exn, w1)
            case Ok(v, w1) =>
              var r := Eval(rt, NamedExpr(x, e), w);
              r.Ok? && r.value == v && Bound(rt, x, v, w1, r.world)
  {
    var r := Eval(rt, e, w);
    if r.Ok? {
      StoreBinds(rt, x, r.value, r.world);
      assert Eval(rt, NamedExpr(x, e), w) == Ok(r.value, Store(x, r.value, r.world));
    }
  }

  /** One pass of a `for` is its body run after its target is bound to the item the iterator gave. */
  lemma ForBinds(rt: Runtime, loop: Stmt, it: Value, current: Option<Value>, w: World, fuel: nat)
    requires loop.For? && fuel > 0 && rt.next(it, w).Ok? && rt.next(it, w).value.Some?
    ensures var item := rt.next(it, w);
            exists start: World :: Bound(rt, loop.target, item.value.value, item.world, start) &&
              ExecFor(rt, loop, it, current, w, fuel) ==
              match Exec(rt, loop.body, current, start, fuel - 1)
              case OutOfFuel => OutOfFuel
              case Done(exit, w2, left) =>
                if exit.Normal? || exit.Continuing? then ExecFor(rt, loop, it, current, w2, left)
                else Done(if exit.Breaking? then Normal else exit, w2, left)
  {
    hide Exec;
    var item := rt.next(it, w);
    StoreBinds(rt, loop.target, item.value.value, item.world);
  }

  // ---- straight-line bodies ----

  datatype Binding = Binding(name: string, value: Value)

  /** The assignments in order, then `return x`. */
  function StraightLine(bindings: seq<Binding>, x: string): Stmt {
    if bindings == [] then Return(Name(x))
    else Seq(Assign(bindings[0].name, Const(bindings[0].value)), StraightLine(bindings[1..], x))
  }

  /** The value of the last assignment to `x`, if there is one. */
  function LastBound(bindings: seq<Binding>, x: string): Option<Value> {
    if bindings == [] then None
    else if bindings[|bindings| - 1].name == x then Some(bindings[|bindings| - 1].value)
    else LastBound(bindings[..|bindings| - 1], x)
  }

  lemma {:induction false} LastBoundHead(bindings: seq<Binding>, x: string)
    requires bindings != []
    ensures var rest := LastBound(bindings[1..], x);
            LastBound(bindings, x) == if rest.Some? then rest else if bindings[0].name == x then Some(bindings[0].value) else None
  {
    if |bindings| > 1 {
      LastBoundHead(bindings[..|bindings| - 1], x);
      assert bindings[..|bindings| - 1][1..] == bindings[1..][..|bindings[1..]| - 1];
    } else {
      assert LastBound(bindings[..|bindings| - 1], x) == None;
    }
  }

  /** How `return x` ends after such bindings from a world in which `x` may already be bound. */
  ghost predicate Gives(rt: Runtime, bindings: seq<Binding>, x: string, w: World, exit: Exit) {
    match LastBound(bindings, x)
    case Some(v) => exit == Returning(v)
    case None => exit == if x in w.locals then Returning(w.locals[x]) else Raising(rt.unbound(x))
  }

  /** A name is bound exactly when it is among the locals. */
  lemma NameExactly(rt: Runtime, x: string, w: World)
    ensures Eval(rt, Name(x), w) == if x in w.locals then Ok(w.locals[x], w) else Err(rt.unbound(x), w)
  {}

  lemma {:induction false} StraightLineGives(rt: Runtime, bindings: seq<Binding>, x: string, w: World, fuel: nat)
    ensures var r := Exec(rt, StraightLine(bindings, x), None, w, fuel);
            r.Done? && r.fuel == fuel && Gives(rt, bindings, x, w, r.exit) && r.world.heap == w.heap
    ensures Guarded(StraightLine(bindings, x)) && !FreeJump(StraightLine(bindings, x))
    decreases |bindings|
  {
    if bindings != [] {
      var b := bindings[0];
      AssignBinds(rt, b.name, Const(b.value), None, w, fuel);
      var after: World :| Bound(rt, b.name, b.value, w, after)
        && Exec(rt, Assign(b.name, Const(b.value)), None, w, fuel) == Done(Normal, after, fuel);
      StraightLineGives(rt, bindings[1..], x, after, fuel);
      LastBoundHead(bindings, x);
    }
  }

  /**
   The compiled code of a straight-line body halts, and returns the last value bound to the name it
   asks for: its earlier value or the unbound exception if none was.
   */
  lemma CompiledStraightLine(rt: Runtime, bindings: seq<Binding>, x: string, w: World)
    ensures exists n: nat, exit: Exit, after: World ::
              && Gives(rt, bindings, x, w, exit)
              && RunFor(rt, BodyCode(StraightLine(bindings, x)), Start(w), n) == Halted(exit, after)
              && !Halted(exit, after).Running?
  {
    hide RunFor, Exec, BodyCode, LastBound, Gives, StraightLine;
    var s := StraightLine(bindings, x);
    StraightLineGives(rt, bindings, x, w, 0);
    var r := Exec(rt, s, None, w, 0);
    var m := Halted(r.exit, r.world);
    assert EndsIn(r, m);
    CompiledBodyMeansTheSource(rt, s, w, m);
    var n: nat :| RunFor(rt, BodyCode(s), Start(w), n) == m && !m.Running?;
  }

  /** The body `x = v1; y = v2; return x` returns the first value, whatever the two are. */
  lemma OtherNamesKeepTheirs(rt: Runtime, x: string, v1: Value, y: string, v2: Value, w: World)
    requires x != y
    ensures exists n: nat, after: World ::
              RunFor(rt, BodyCode(Seq(Assign(x, Const(v1)), Seq(Assign(y, Const(v2)), Return(Name(x))))), Start(w), n) == Returned(v1, after)
  {
    hide RunFor, BodyCode;
    var bindings := [Binding(x, v1), Binding(y, v2)];
    assert bindings[1..] == [Binding(y, v2)] && bindings[1..][1..] == [] && bindings[..1] == [Binding(x, v1)];
    assert StraightLine(bindings[1..][1..], x) == Return(Name(x));
    assert StraightLine(bindings[1..], x) == Seq(Assign(y, Const(v2)), Return(Name(x)));
    assert LastBound(bindings[..1], x) == Some(v1);
    CompiledStraightLine(rt, bindings, x, w);
  }
}
