/**
 The interpreter and its budget as they run: counters that only go up, depths that every call
 and loop puts back, and one shell state changed along the way.
 */
module ShellInterpreter {
  import opened Wrappers
  import opened ShellCommands

  datatype Result<+T> = Ok(value: T) | LimitExceeded

  datatype Limits = Limits(maxCommands: nat, maxLoopIterations: int, maxTotalLoopIterations: nat, maxFunctionDepth: nat)

  class ExecutionBudget {
    const limits: Limits
    var commands: nat
    var totalLoopIterations: nat
    var functionDepth: nat

    /** No limit has been passed yet. */
    ghost predicate Valid()
      reads this
    {
      commands <= limits.maxCommands && totalLoopIterations <= limits.maxTotalLoopIterations && functionDepth <= limits.maxFunctionDepth
    }

    ghost function Left(): Budget
      requires Valid()
      reads this
    {
      Budget(limits.maxCommands - commands, limits.maxTotalLoopIterations - totalLoopIterations,
             limits.maxLoopIterations, limits.maxFunctionDepth - functionDepth)
    }

    constructor (limits: Limits)
      ensures Valid() && this.limits == limits && functionDepth == 0
      ensures Left() == Budget(limits.maxCommands, limits.maxTotalLoopIterations, limits.maxLoopIterations, limits.maxFunctionDepth)
    {
      this.limits, commands, totalLoopIterations, functionDepth := limits, 0, 0, 0;
    }

    method ChargeCommand() returns (ok: bool)
      requires Valid()
      modifies `commands
      ensures ok == (old(Left()).commands > 0)
      ensures ok ==> Valid() && Left() == old(Left()).(commands := old(Left()).commands - 1)
    {
      commands := commands + 1;
      ok := commands <= limits.maxCommands;
    }

    method ChargeLoopIteration(loopIteration: nat) returns (ok: bool)
      requires Valid()
      modifies `totalLoopIterations
      ensures ok == (loopIteration <= limits.maxLoopIterations && old(Left()).iterations > 0)
      ensures ok ==> Valid() && Left() == old(Left()).(iterations := old(Left()).iterations - 1)
    {
      if loopIteration > limits.maxLoopIterations {
        return false;
      }
      totalLoopIterations := totalLoopIterations + 1;
      ok := totalLoopIterations <= limits.maxTotalLoopIterations;
    }

    method EnterFunction() returns (ok: bool)
      requires Valid()
      modifies `functionDepth
      ensures Valid() && ok == (old(Left()).frames > 0)
      ensures functionDepth == if ok then old(functionDepth) + 1 else old(functionDepth)
    {
      functionDepth := functionDepth + 1;
      ok := functionDepth <= limits.maxFunctionDepth;
      if !ok {
        functionDepth := functionDepth - 1;
      }
    }
  }

  class Interpreter {
    const rt: Runtime
    const budget: ExecutionBudget
    var world: World
    var loopDepth: nat

    constructor (rt: Runtime, budget: ExecutionBudget, world: World)
      ensures this.rt == rt && this.budget == budget && this.world == world && loopDepth == 0
    {
      this.rt, this.budget, this.world, loopDepth := rt, budget, world, 0;
    }

    /** The result and the state afterwards are what an outcome says. */
    ghost predicate Agrees(r: Result<Completion>, o: Outcome)
      reads this, budget
    {
      match o
      case Exceeded => r == LimitExceeded
      case Done(after, left, completion) => r == Ok(completion) && world == after && budget.Valid() && budget.Left() == left
    }

    method ExecuteAsync(c: Command) returns (r: Result<Completion>)
      requires budget.Valid()
      modifies this, budget
      ensures Agrees(r, Execute(rt, c, old(world), old(budget.Left())))
      ensures loopDepth == old(loopDepth) && budget.functionDepth == old(budget.functionDepth)
      decreases budget.Left().iterations, budget.Left().commands, c, 3
    {
      hide NextIteration, AfterLeft, AfterCondition, ShellCommands.ExecuteSimple;
      match c
      case Simple(action) => r := ExecuteSimpleAsync(action);
      case Assignments(action) =>
        world := Quiet(rt.assign(action, world), world);
        r := Ok(Success(""));
      case List(_, _, _) => r := ExecuteListAsync(c);
      case If(_, _, _) => r := ExecuteIfAsync(c);
      case While(_, _, _) => r := ExecuteLoopAsync(c, []);
      case For(_, items, _) =>
        var (after, list) := rt.items(items, world);
        world := Quiet(after, world);
        r := ExecuteLoopAsync(c, list);
      case ArithmeticFor(init, _, _, _) =>
        if init.Some? {
          var (after, _) := rt.arithmetic(init.value, world);
          world := Quiet(after, world);
        }
        r := ExecuteLoopAsync(c, []);
    }

    method ExecuteSimpleAsync(action: nat) returns (r: Result<Completion>)
      requires budget.Valid()
      modifies this, budget
      ensures Agrees(r, ShellCommands.ExecuteSimple(rt, action, old(world), old(budget.Left())))
      ensures loopDepth == old(loopDepth) && budget.functionDepth == old(budget.functionDepth)
      decreases budget.Left().iterations, budget.Left().commands, Simple(action), 2
    {
      hide Execute;
      var charged := budget.ChargeCommand();
      if !charged {
        return LimitExceeded;
      }
      var (expanded, name) := rt.expand(action, world);
      world := Quiet(expanded, world);
      if name in world.functions {
        r := CallFunctionAsync(world.functions[name]);
        return;
      }
      var (after, completion) := rt.run(action, world);
      world := after.(log := world.log + completion.stdout);
      r := Ok(completion);
    }

    method CallFunctionAsync(body: Command) returns (r: Result<Completion>)
      requires budget.Valid()
      modifies this, budget
      ensures var b := old(budget.Left());
              if b.frames == 0 then r == LimitExceeded else
              var o := Execute(rt, body, old(world), b.(frames := b.frames - 1));
              Agrees(r, if o.Exceeded? then o else Done(o.world, o.budget.(frames := b.frames), Returned(o.completion)))
      ensures loopDepth == old(loopDepth) && budget.functionDepth == old(budget.functionDepth)
      decreases budget.Left().iterations, budget.Left().commands, body, 4
    {
      hide Execute;
      var entered := budget.EnterFunction();
      if !entered {
        return LimitExceeded;
      }
      r := ExecuteAsync(body);
      budget.functionDepth := budget.functionDepth - 1;
      if r.Ok? {
        r := Ok(Returned(r.value));
      }
    }

    method ExecuteListAsync(c: Command) returns (r: Result<Completion>)
      requires budget.Valid() && c.List?
      modifies this, budget
      ensures Agrees(r, Execute(rt, c, old(world), old(budget.Left())))
      ensures loopDepth == old(loopDepth) && budget.functionDepth == old(budget.functionDepth)
      decreases budget.Left().iterations, budget.Left().commands, c, 2
    {
      r := ExecuteAsync(c.left);
      if r.LimitExceeded? {
        return;
      }
      var left := r.value;
      world := world.(lastExitCode := left.exitCode);
      if left.flow != Normal {
        return;
      }
      if c.right.None? {
        return;
      }
      if c.op == Sequence && world.errExit && left.exitCode != 0 && !left.suppressed {
        return;
      }
      var shouldRun := match c.op case And => left.exitCode == 0 case Or => left.exitCode != 0 case _ => true;
      if !shouldRun {
        return Ok(left.(suppressed := true));
      }
      r := ExecuteAsync(c.right.value);
      if r.LimitExceeded? {
        return;
      }
      world := world.(lastExitCode := r.value.exitCode);
      r := Ok(r.value.(stdout := left.stdout + r.value.stdout));
    }

    method ExecuteIfAsync(c: Command) returns (r: Result<Completion>)
      requires budget.Valid() && c.If?
      modifies this, budget
      ensures Agrees(r, Execute(rt, c, old(world), old(budget.Left())))
      ensures loopDepth == old(loopDepth) && budget.functionDepth == old(budget.functionDepth)
      decreases budget.Left().iterations, budget.Left().commands, c, 2
    {
      r := ExecuteAsync(c.condition);
      if r.LimitExceeded? {
        return;
      }
      var condition := r.value;
      world := world.(lastExitCode := condition.exitCode);
      if condition.flow != Normal {
        return;
      }
      var branch := if condition.exitCode == 0 then Some(c.thenDo) else c.elseDo;
      if branch.None? {
        return Ok(Success(condition.stdout));
      }
      r := ExecuteAsync(branch.value);
      if r.LimitExceeded? {
        return;
      }
      r := Ok(r.value.(stdout := condition.stdout + r.value.stdout));
    }

    /** The three kinds of loop, which differ in what decides on another iteration. */
    method ExecuteLoopAsync(c: Command, items: seq<string>) returns (r: Result<Completion>)
      requires budget.Valid() && IsLoop(c)
      modifies this, budget
      ensures Agrees(r, NextIteration(rt, c, items, old(world), old(budget.Left()), LoopState(0, 0, "")))
      ensures loopDepth == old(loopDepth) && budget.functionDepth == old(budget.functionDepth)
      decreases budget.Left().iterations, budget.Left().commands, c, 2
    {
      hide Execute, NextIteration;
      ghost var all := NextIteration(rt, c, items, world, budget.Left(), LoopState(0, 0, ""));
      var state := LoopState(0, 0, "");
      var flow := Normal;
      var ended := false;
      loopDepth := loopDepth + 1;
      while !ended
        invariant loopDepth == old(loopDepth) + 1 && budget.functionDepth == old(budget.functionDepth)
        invariant budget.Valid() && Within(budget.Left(), old(budget.Left())) && (ended || flow == Normal)
        invariant if ended then all == LoopEnds(world, budget.Left(), state, flow)
                  else all == NextIteration(rt, c, items, world, budget.Left(), state)
        decreases !ended, budget.Left().iterations
      {
        NextIs(rt, c, items, world, budget.Left(), state);
        if c.For? && state.iteration >= |items| {
          ended := true;
          continue;
        }
        var charged := budget.ChargeLoopIteration(state.iteration + 1);
        if !charged {
          loopDepth := loopDepth - 1;
          return LimitExceeded;
        }
        state := state.(iteration := state.iteration + 1);
        var passed;
        passed, r := Decide(c, items, state);
        if r.LimitExceeded? {
          loopDepth := loopDepth - 1;
          return;
        }
        state := state.(stdout := state.stdout + r.value.stdout);
        if !passed {
          ended := true;
          continue;
        }
        r := ExecuteAsync(c.body);
        if r.LimitExceeded? {
          loopDepth := loopDepth - 1;
          return;
        }
        world := world.(lastExitCode := r.value.exitCode);
        state := LoopState(state.iteration, r.value.exitCode, state.stdout + r.value.stdout);
        var (stop, left) := LoopFlow(r.value.flow);
        if stop {
          ended, flow := true, left;
          continue;
        }
        if c.ArithmeticFor? && c.update.Some? {
          var (after, _) := rt.arithmetic(c.update.value, world);
          world := Quiet(after, world);
        }
      }
      loopDepth := loopDepth - 1;
      r := Ok(Completion(state.exitCode, flow, state.stdout, false));
    }

    /** Whether the body runs: the condition of a `while`, the next item, or a test that is not zero. */
    method Decide(c: Command, items: seq<string>, state: LoopState) returns (passed: bool, r: Result<Completion>)
      requires budget.Valid() && IsLoop(c) && state.iteration > 0 && (c.For? ==> state.iteration <= |items|)
      modifies this, budget
      ensures loopDepth == old(loopDepth) && budget.functionDepth == old(budget.functionDepth)
      ensures Decided(passed, r, Decision(rt, c, items, old(world), old(budget.Left()), state))
      decreases budget.Left().iterations, budget.Left().commands, c, 1
    {
      hide Execute;
      passed, r := true, Ok(Success(""));
      match c
      case While(condition, _, negate) =>
        r := ExecuteAsync(condition);
        if r.LimitExceeded? {
          return;
        }
        world := world.(lastExitCode := r.value.exitCode);
        passed := (r.value.exitCode == 0) != negate;
      case For(variable, _, _) =>
        world := world.(variables := world.variables[variable := items[state.iteration - 1]]);
      case ArithmeticFor(_, test, _, _) =>
        if test.Some? {
          var (after, value) := rt.arithmetic(test.value, world);
          world := Quiet(after, world);
          passed := value != 0;
        }
    }

    ghost predicate Decided(passed: bool, r: Result<Completion>, d: Option<(bool, World, Budget, string)>)
      reads this, budget
    {
      if d.None? then r == LimitExceeded else
      && r.Ok? && passed == d.value.0 && world == d.value.1 && budget.Valid() && budget.Left() == d.value.2 && r.value.stdout == d.value.3
    }
  }

  /** What decides on the body: whether it runs, the state and budget by then, and what was printed. */
  ghost function Decision(rt: Runtime, c: Command, items: seq<string>, w: World, b: Budget, s: LoopState): (d: Option<(bool, World, Budget, string)>)
    requires IsLoop(c) && s.iteration > 0 && (c.For? ==> s.iteration <= |items|)
    ensures d.Some? ==> Within(d.value.2, b)
  {
    match c
    case While(condition, _, negate) =>
      var o := Execute(rt, condition, w, b);
      if o.Exceeded? then None
      else Some(((o.completion.exitCode == 0) != negate, o.world.(lastExitCode := o.completion.exitCode), o.budget, o.completion.stdout))
    case For(variable, _, _) => Some((true, w.(variables := w.variables[variable := items[s.iteration - 1]]), b, ""))
    case ArithmeticFor(_, test, _, _) =>
      if test.None? then Some((true, w, b, ""))
      else var (after, value) := rt.arithmetic(test.value, w); Some((value != 0, Quiet(after, w), b, ""))
  }

  /** One iteration, as the loop takes it. */
  lemma NextIs(rt: Runtime, c: Command, items: seq<string>, w: World, b: Budget, s: LoopState)
    requires IsLoop(c)
    ensures NextIteration(rt, c, items, w, b, s) ==
            if c.For? && s.iteration >= |items| then LoopEnds(w, b, s, Normal)
            else if s.iteration + 1 > b.perLoop || b.iterations == 0 then Exceeded
            else
              var s1 := s.(iteration := s.iteration + 1);
              var d := Decision(rt, c, items, w, b.(iterations := b.iterations - 1), s1);
              if d.None? then Exceeded else
              var (passed, w1, b1, said) := d.value;
              var s2 := s1.(stdout := s1.stdout + said);
              if !passed then LoopEnds(w1, b1, s2, Normal) else RunBody(rt, c, items, w1, b1, s2)
  {
    hide Execute, RunBody;
    assert s.stdout + "" == s.stdout;
  }
}
