/**
 Shell commands and what running them under a budget means. Loops and recursion need not end
 by themselves; every iteration and every command is charged, and the run ends with an error
 when the budget does. `break`, `continue`, `return` and `exit` are part of a command's result.
 */
module ShellCommands {
  import opened Wrappers

  datatype Flow = Normal | Break(level: int) | Continue(level: int) | Return(code: int) | Exit(code: int)

  datatype ListOperator = Sequence | And | Or | Background

  /** What single words, assignments and arithmetic do is not fixed: an `action` names one of them. */
  datatype Command =
    | Simple(action: nat)
    | Assignments(action: nat)
    | List(left: Command, op: ListOperator, right: Option<Command>)
    | If(condition: Command, thenDo: Command, elseDo: Option<Command>)
    | While(condition: Command, body: Command, negate: bool)
    | For(variable: string, items: nat, body: Command)
    | ArithmeticFor(init: Option<nat>, test: Option<nat>, update: Option<nat>, body: Command)

  /** `log` is all that was ever printed. */
  datatype World = World(variables: map<string, string>, functions: map<string, Command>, lastExitCode: int, errExit: bool, log: string)

  datatype Completion = Completion(exitCode: int, flow: Flow, stdout: string, suppressed: bool)

  datatype Runtime = Runtime(
    expand: (nat, World) -> (World, string),
    run: (nat, World) -> (World, Completion),
    assign: (nat, World) -> World,
    items: (nat, World) -> (World, seq<string>),
    arithmetic: (nat, World) -> (World, int))

  /** What may still be charged: commands, loop iterations in all and in one loop, and calls within calls. */
  datatype Budget = Budget(commands: nat, iterations: nat, perLoop: int, frames: nat)

  datatype Outcome = Done(world: World, budget: Budget, completion: Completion) | Exceeded

  /** The budget only ever shrinks, but for the frames, which a call gives back. */
  predicate Within(after: Budget, before: Budget) {
    && after.commands <= before.commands && after.iterations <= before.iterations
    && after.perLoop == before.perLoop && after.frames == before.frames
  }

  predicate Spent(o: Outcome, before: Budget) {
    o.Done? ==> Within(o.budget, before)
  }

  function Quiet(world: World, before: World): World {
    world.(log := before.log)
  }

  function Success(stdout: string): Completion {
    Completion(0, Normal, stdout, false)
  }

  /** Consumes one level of a break or continue. */
  function Unwind(f: Flow): Flow {
    match f
    case Break(level) => if level > 1 then Break(level - 1) else Normal
    case Continue(level) => if level > 1 then Continue(level - 1) else Normal
    case _ => Normal
  }

  /** Whether a loop stops after its body, and the flow it then passes on. */
  function LoopFlow(f: Flow): (bool, Flow) {
    match f
    case Normal => (false, Normal)
    case Break(_) => (true, Unwind(f))
    case Continue(_) => (Unwind(f) != Normal, Unwind(f))
    case _ => (true, f)
  }

  // ---- running ----

  function Execute(rt: Runtime, c: Command, w: World, b: Budget): (o: Outcome)
    ensures Spent(o, b)
    decreases b.iterations, b.commands, c, 3
  {
    match c
    case Simple(action) => ExecuteSimple(rt, action, w, b)
    case Assignments(action) => Done(Quiet(rt.assign(action, w), w), b, Success(""))
    case List(left, op, right) =>
      var o := Execute(rt, left, w, b);
      if o.Exceeded? then o else AfterLeft(rt, c, o.world, o.budget, o.completion)
    case If(condition, thenDo, elseDo) =>
      var o := Execute(rt, condition, w, b);
      if o.Exceeded? then o else AfterCondition(rt, c, o.world, o.budget, o.completion)
    case While(_, _, _) => NextIteration(rt, c, [], w, b, LoopState(0, 0, ""))
    case For(_, items, _) =>
      var (w1, list) := rt.items(items, w);
      NextIteration(rt, c, list, Quiet(w1, w), b, LoopState(0, 0, ""))
    case ArithmeticFor(init, _, _, _) =>
      var w1 := if init.Some? then Quiet(rt.arithmetic(init.value, w).0, w) else w;
      NextIteration(rt, c, [], w1, b, LoopState(0, 0, ""))
  }

  function ExecuteSimple(rt: Runtime, action: nat, w: World, b: Budget): (o: Outcome)
    ensures Spent(o, b)
    decreases b.iterations, b.commands, Simple(action), 2
  {
    if b.commands == 0 then Exceeded else
    var b1 := b.(commands := b.commands - 1);
    var (expanded, name) := rt.expand(action, w);
    var w1 := Quiet(expanded, w);
    if name in w1.functions then
      if b1.frames == 0 then Exceeded else
      var o := Execute(rt, w1.functions[name], w1, b1.(frames := b1.frames - 1));
      if o.Exceeded? then o else Done(o.world, o.budget.(frames := b1.frames), Returned(o.completion))
    else
      var (w2, completion) := rt.run(action, w1);
      Done(w2.(log := w.log + completion.stdout), b1, completion)
  }

  /** `return` goes no further than the function. */
  function Returned(c: Completion): Completion {
    if c.flow.Return? then c.(flow := Normal, exitCode := c.flow.code) else c
  }

  /** A list once its left side is done. */
  function AfterLeft(rt: Runtime, c: Command, w: World, b: Budget, left: Completion): (o: Outcome)
    requires c.List?
    ensures Spent(o, b)
    decreases b.iterations, b.commands, c, 1
  {
    var w1 := w.(lastExitCode := left.exitCode);
    if left.flow != Normal || c.right.None? then Done(w1, b, left)
    else if c.op == Sequence && w1.errExit && left.exitCode != 0 && !left.suppressed then Done(w1, b, left)
    else if (c.op == And && left.exitCode != 0) || (c.op == Or && left.exitCode == 0) then Done(w1, b, left.(suppressed := true))
    else
      var o := Execute(rt, c.right.value, w1, b);
      if o.Exceeded? then o else
      Done(o.world.(lastExitCode := o.completion.exitCode), o.budget, o.completion.(stdout := left.stdout + o.completion.stdout))
  }

  function AfterCondition(rt: Runtime, c: Command, w: World, b: Budget, condition: Completion): (o: Outcome)
    requires c.If?
    ensures Spent(o, b)
    decreases b.iterations, b.commands, c, 1
  {
    var w1 := w.(lastExitCode := condition.exitCode);
    var branch := if condition.exitCode == 0 then Some(c.thenDo) else c.elseDo;
    if condition.flow != Normal then Done(w1, b, condition)
    else if branch.None? then Done(w1, b, Success(condition.stdout))
    else
      var o := Execute(rt, branch.value, w1, b);
      if o.Exceeded? then o else Done(o.world, o.budget, o.completion.(stdout := condition.stdout + o.completion.stdout))
  }

  // ---- loops ----

  /** How far a loop is: iterations begun, the last body's exit code, and the output so far. */
  datatype LoopState = LoopState(iteration: nat, exitCode: int, stdout: string)

  predicate IsLoop(c: Command) {
    c.While? || c.For? || c.ArithmeticFor?
  }

  function LoopEnds(w: World, b: Budget, s: LoopState, flow: Flow): Outcome {
    Done(w, b, Completion(s.exitCode, flow, s.stdout, false))
  }

  /** One more iteration, if the loop's own list has another item; it is charged before anything else. */
  function NextIteration(rt: Runtime, c: Command, items: seq<string>, w: World, b: Budget, s: LoopState): (o: Outcome)
    requires IsLoop(c)
    ensures Spent(o, b)
    decreases b.iterations, b.commands, c, 0
  {
    if c.For? && s.iteration >= |items| then LoopEnds(w, b, s, Normal)
    else if s.iteration + 1 > b.perLoop || b.iterations == 0 then Exceeded
    else
      var b1, s1 := b.(iterations := b.iterations - 1), s.(iteration := s.iteration + 1);
      match c
      case While(condition, body, negate) =>
        var o := Execute(rt, condition, w, b1);
        if o.Exceeded? then o else
        var w1 := o.world.(lastExitCode := o.completion.exitCode);
        var s2 := s1.(stdout := s1.stdout + o.completion.stdout);
        if (o.completion.exitCode == 0) == negate then LoopEnds(w1, o.budget, s2, Normal)
        else RunBody(rt, c, items, w1, o.budget, s2)
      case For(variable, _, _) =>
        RunBody(rt, c, items, w.(variables := w.variables[variable := items[s.iteration]]), b1, s1)
      case ArithmeticFor(_, test, _, _) =>
        if test.None? then RunBody(rt, c, items, w, b1, s1) else
        var (w1, value) := rt.arithmetic(test.value, w);
        if value == 0 then LoopEnds(Quiet(w1, w), b1, s1, Normal) else RunBody(rt, c, items, Quiet(w1, w), b1, s1)
  }

  function RunBody(rt: Runtime, c: Command, items: seq<string>, w: World, b: Budget, s: LoopState): (o: Outcome)
    requires IsLoop(c)
    ensures Spent(o, b)
    decreases b.iterations, b.commands, c, 2
  {
    var o := Execute(rt, c.body, w, b);
    if o.Exceeded? then o else AfterBody(rt, c, items, o.world, o.budget, s, o.completion)
  }

  /** A loop once its body is done: on to the next iteration, or out with whatever flow is left. */
  function AfterBody(rt: Runtime, c: Command, items: seq<string>, w: World, b: Budget, s: LoopState, body: Completion): (o: Outcome)
    requires IsLoop(c)
    ensures Spent(o, b)
    decreases b.iterations, b.commands, c, 1
  {
    var w1 := w.(lastExitCode := body.exitCode);
    var s1 := LoopState(s.iteration, body.exitCode, s.stdout + body.stdout);
    var (stop, flow) := LoopFlow(body.flow);
    if stop then LoopEnds(w1, b, s1, flow) else
    var w2 := if c.ArithmeticFor? && c.update.Some? then Quiet(rt.arithmetic(c.update.value, w1).0, w1) else w1;
    NextIteration(rt, c, items, w2, b, s1)
  }
}
