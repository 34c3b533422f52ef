/**
 What a whole program makes of a `break` or `continue` deep inside it, and what a loop makes of
 one in its own condition.
 */
module ShellPrograms {
  import opened Wrappers
  import opened ShellCommands
  import opened ShellCommandLaws

  // ---- the way down into a program ----

  /** A place in a run: a command about to be executed, or a loop about to begin another iteration. */
  datatype Place =
    | At(command: Command, world: World, budget: Budget)
    | Looping(loop: Command, items: seq<string>, world: World, budget: Budget, state: LoopState)

  predicate IsPlace(p: Place) {
    p.Looping? ==> IsLoop(p.loop)
  }

  function Continued(rt: Runtime, p: Place): Outcome
    requires IsPlace(p)
  {
    match p
    case At(c, w, b) => Execute(rt, c, w, b)
    case Looping(c, items, w, b, s) => NextIteration(rt, c, items, w, b, s)
  }

  /** One step: into a part of a command, which then has a frame around it, or on to the next iteration. */
  datatype Step = ToLeft | ToRight | ToCondition | ToBranch | ToLoop | ToBody | ToNext | ToCall

  predicate GoesRight(list: Command, w: World, left: Completion)
    requires list.List?
  {
    && left.flow == Normal && list.right.Some?
    && !(list.op == Sequence && w.errExit && left.exitCode != 0 && !left.suppressed)
    && !(list.op == And && left.exitCode != 0) && !(list.op == Or && left.exitCode == 0)
  }

  function Branch(c: Command, condition: Completion): Option<Command>
    requires c.If?
  {
    if condition.flow != Normal then None else if condition.exitCode == 0 then Some(c.thenDo) else c.elseDo
  }

  /** The body of the iteration that is due, if its test lets it begin. */
  function BodyOf(rt: Runtime, p: Place): Option<(World, Budget, LoopState)>
    requires p.Looping? && IsPlace(p)
  {
    var Looping(c, items, w, b, s) := p;
    if (c.For? && s.iteration >= |items|) || s.iteration + 1 > b.perLoop || b.iterations == 0 then None else
    var b1, s1 := b.(iterations := b.iterations - 1), s.(iteration := s.iteration + 1);
    match c
    case While(condition, _, negate) =>
      var o := Execute(rt, condition, w, b1);
      if o.Exceeded? || (o.completion.exitCode == 0) == negate then None
      else Some((o.world.(lastExitCode := o.completion.exitCode), o.budget, s1.(stdout := s1.stdout + o.completion.stdout)))
    case For(variable, _, _) => Some((w.(variables := w.variables[variable := items[s.iteration]]), b1, s1))
    case ArithmeticFor(_, test, _, _) =>
      if test.None? then Some((w, b1, s1)) else
      var (w1, value) := rt.arithmetic(test.value, w);
      if value == 0 then None else Some((Quiet(w1, w), b1, s1))
  }

  function Taken(rt: Runtime, p: Place, step: Step): Option<(seq<Frame>, Place)>
    requires IsPlace(p)
    ensures Taken(rt, p, step).Some? ==> IsPlace(Taken(rt, p, step).value.1) && Proper(Taken(rt, p, step).value.0)
  {
    match step
    case ToLeft =>
      if p.At? && p.command.List? then Some(([InLeft(p.command)], At(p.command.left, p.world, p.budget))) else None
    case ToRight =>
      if !(p.At? && p.command.List?) then None else
      var o := Execute(rt, p.command.left, p.world, p.budget);
      if o.Exceeded? then None else
      var w1 := o.world.(lastExitCode := o.completion.exitCode);
      if !GoesRight(p.command, w1, o.completion) then None
      else Some(([InRight(o.completion.stdout)], At(p.command.right.value, w1, o.budget)))
    case ToCondition =>
      if p.At? && p.command.If? then Some(([InCondition(p.command)], At(p.command.condition, p.world, p.budget))) else None
    case ToBranch =>
      if !(p.At? && p.command.If?) then None else
      var o := Execute(rt, p.command.condition, p.world, p.budget);
      if o.Exceeded? || Branch(p.command, o.completion).None? then None else
      Some(([InBranch(o.completion.stdout)],
            At(Branch(p.command, o.completion).value, o.world.(lastExitCode := o.completion.exitCode), o.budget)))
    case ToLoop =>
      if !p.At? then None else
      (match p.command
       case While(_, _, _) => Some(([], Looping(p.command, [], p.world, p.budget, LoopState(0, 0, ""))))
       case For(_, items, _) =>
         var (w1, list) := rt.items(items, p.world);
         Some(([], Looping(p.command, list, Quiet(w1, p.world), p.budget, LoopState(0, 0, ""))))
       case ArithmeticFor(init, _, _, _) =>
         var w1 := if init.Some? then Quiet(rt.arithmetic(init.value, p.world).0, p.world) else p.world;
         Some(([], Looping(p.command, [], w1, p.budget, LoopState(0, 0, ""))))
       case _ => None)
    case ToBody =>
      if !p.Looping? || BodyOf(rt, p).None? then None else
      var (w, b, s) := BodyOf(rt, p).value;
      Some(([InBody(p.loop, p.items, s)], At(p.loop.body, w, b)))
    case ToNext =>
      if !p.Looping? || BodyOf(rt, p).None? then None else
      var (w, b, s) := BodyOf(rt, p).value;
      var o := Execute(rt, p.loop.body, w, b);
      if o.Exceeded? || LoopFlow(o.completion.flow).0 then None else
      var w1 := o.world.(lastExitCode := o.completion.exitCode);
      var w2 := if p.loop.ArithmeticFor? && p.loop.update.Some? then Quiet(rt.arithmetic(p.loop.update.value, w1).0, w1) else w1;
      Some(([], Looping(p.loop, p.items, w2, o.budget, LoopState(s.iteration, o.completion.exitCode, s.stdout + o.completion.stdout))))
    case ToCall =>
      if !(p.At? && p.command.Simple?) || p.budget.commands == 0 then None else
      var (expanded, name) := rt.expand(p.command.action, p.world);
      var w1 := Quiet(expanded, p.world);
      if name !in w1.functions || p.budget.frames == 0 then None
      else Some(([InCall(p.budget.frames)],
                 At(w1.functions[name], w1, p.budget.(commands := p.budget.commands - 1, frames := p.budget.frames - 1))))
  }

  /** Where a run has got to: the constructs around, the innermost first, and the place. */
  ghost function Reached(rt: Runtime, p: Place, path: seq<Step>): (r: Option<(seq<Frame>, Place)>)
    requires IsPlace(p)
    ensures r.Some? ==> Proper(r.value.0) && IsPlace(r.value.1)
    decreases |path|
  {
    if path == [] then Some(([], p)) else
    var first := Taken(rt, p, path[0]);
    if first.None? then None else
    var more := Reached(rt, first.value.1, path[1..]);
    if more.None? then None else Some((more.value.0 + first.value.0, more.value.1))
  }

  /** Each step leaves what is still to be done as it is. */
  lemma TakenContinues(rt: Runtime, p: Place, step: Step)
    requires IsPlace(p) && Taken(rt, p, step).Some?
    ensures var (frames, next) := Taken(rt, p, step).value; Continued(rt, p) == HandleAll(rt, frames, Continued(rt, next))
  {
    hide Execute, NextIteration, BodyOf;
    match step
    case ToLeft => EntersList(rt, p, step);
    case ToRight => EntersList(rt, p, step);
    case ToCondition => EntersIf(rt, p, step);
    case ToBranch => EntersIf(rt, p, step);
    case ToLoop => EntersLoop(rt, p);
    case ToBody => EntersBody(rt, p);
    case ToNext => GoesRound(rt, p);
    case ToCall => EntersCall(rt, p);
  }

  lemma One(rt: Runtime, f: Frame, o: Outcome)
    requires ProperFrame(f)
    ensures Proper([f]) && HandleAll(rt, [f], o) == Handle(rt, f, o)
  {
    assert [f][1..] == [];
  }

  lemma EntersList(rt: Runtime, p: Place, step: Step)
    requires IsPlace(p) && (step.ToLeft? || step.ToRight?) && Taken(rt, p, step).Some?
    ensures var (frames, next) := Taken(rt, p, step).value; Continued(rt, p) == HandleAll(rt, frames, Continued(rt, next))
  {
    hide BodyOf;
    var (frames, next) := Taken(rt, p, step).value;
    One(rt, frames[0], Continued(rt, next));
    var o := Execute(rt, p.command.left, p.world, p.budget);
    if o.Done? { var after := AfterLeft(rt, p.command, o.world, o.budget, o.completion); }
  }

  lemma EntersIf(rt: Runtime, p: Place, step: Step)
    requires IsPlace(p) && (step.ToCondition? || step.ToBranch?) && Taken(rt, p, step).Some?
    ensures var (frames, next) := Taken(rt, p, step).value; Continued(rt, p) == HandleAll(rt, frames, Continued(rt, next))
  {
    hide BodyOf;
    var (frames, next) := Taken(rt, p, step).value;
    One(rt, frames[0], Continued(rt, next));
    var o := Execute(rt, p.command.condition, p.world, p.budget);
    if o.Done? { var after := AfterCondition(rt, p.command, o.world, o.budget, o.completion); }
  }

  lemma EntersLoop(rt: Runtime, p: Place)
    requires IsPlace(p) && Taken(rt, p, ToLoop).Some?
    ensures Continued(rt, p) == HandleAll(rt, [], Continued(rt, Taken(rt, p, ToLoop).value.1))
  {
    hide BodyOf;
  }

  /** An iteration that begins is its body. */
  lemma IterationIsBody(rt: Runtime, p: Place)
    requires p.Looping? && IsPlace(p) && BodyOf(rt, p).Some?
    ensures var (w, b, s) := BodyOf(rt, p).value; Continued(rt, p) == RunBody(rt, p.loop, p.items, w, b, s)
  {
    hide Execute, RunBody;
  }

  lemma EntersBody(rt: Runtime, p: Place)
    requires IsPlace(p) && Taken(rt, p, ToBody).Some?
    ensures var (frames, next) := Taken(rt, p, ToBody).value; Continued(rt, p) == HandleAll(rt, frames, Continued(rt, next))
  {
    hide Execute, BodyOf, NextIteration;
    IterationIsBody(rt, p);
    var (frames, next) := Taken(rt, p, ToBody).value;
    One(rt, frames[0], Continued(rt, next));
  }

  lemma GoesRound(rt: Runtime, p: Place)
    requires IsPlace(p) && Taken(rt, p, ToNext).Some?
    ensures Continued(rt, p) == HandleAll(rt, [], Continued(rt, Taken(rt, p, ToNext).value.1))
  {
    hide Execute, BodyOf, NextIteration;
    IterationIsBody(rt, p);
  }

  lemma EntersCall(rt: Runtime, p: Place)
    requires IsPlace(p) && Taken(rt, p, ToCall).Some?
    ensures var (frames, next) := Taken(rt, p, ToCall).value; Continued(rt, p) == HandleAll(rt, frames, Continued(rt, next))
  {
    hide BodyOf;
    var (frames, next) := Taken(rt, p, ToCall).value;
    One(rt, frames[0], Continued(rt, next));
    var called := ExecuteSimple(rt, p.command.action, p.world, p.budget);
  }

  lemma {:induction false} HandleConcat(rt: Runtime, a: seq<Frame>, b: seq<Frame>, o: Outcome)
    requires Proper(a) && Proper(b)
    ensures Proper(a + b) && HandleAll(rt, a + b, o) == HandleAll(rt, b, HandleAll(rt, a, o))
    decreases |a|
  {
    hide Handle;
    if a == [] { assert a + b == b; } else {
      assert (a + b)[1..] == a[1..] + b;
      HandleConcat(rt, a[1..], b, Handle(rt, a[0], o));
    }
  }

  /** The outcome of a whole run is what the constructs around make of the place it has reached. */
  lemma {:induction false} RunIsFrames(rt: Runtime, p: Place, path: seq<Step>)
    requires IsPlace(p) && Reached(rt, p, path).Some?
    ensures var (frames, place) := Reached(rt, p, path).value; Continued(rt, p) == HandleAll(rt, frames, Continued(rt, place))
    decreases |path|
  {
    hide Continued, Taken, Handle;
    if path != [] {
      var (outer, next) := Taken(rt, p, path[0]).value;
      TakenContinues(rt, p, path[0]);
      RunIsFrames(rt, next, path[1..]);
      var (inner, place) := Reached(rt, next, path[1..]).value;
      HandleConcat(rt, inner, outer, Continued(rt, place));
    }
  }

  /**
   `break n` somewhere in a program, under lists, branches, calls and at least n loops: the run
   of the whole program is what the constructs outside the n-th loop make of that loop's normal
   end. With `continue n` it is the n-th loop going on.
   */
  lemma BreakInAProgram(rt: Runtime, program: Command, w: World, b: Budget, path: seq<Step>, n: nat)
    requires Reached(rt, At(program, w, b), path).Some?
    requires var (frames, place) := Reached(rt, At(program, w, b), path).value;
             1 <= n <= LoopsIn(frames) && Continued(rt, place).Done? && Continued(rt, place).completion.flow in {Break(n), Continue(n)}
    ensures var (frames, place) := Reached(rt, At(program, w, b), path).value;
            var Done(w1, b1, c) := Continued(rt, place);
            var i := NthLoop(frames, n);
            var inside := if c.flow.Break? then i + 1 else i;
            && Proper(frames[inside..])
            && Execute(rt, program, w, b)
               == HandleAll(rt, frames[inside..],
                            Done(w1.(lastExitCode := c.exitCode), GivenBack(frames[..inside], b1),
                                 Completion(c.exitCode, Normal, Said(frames[..inside], c.stdout), false)))
  {
    hide Execute, NextIteration, Handle, Said, GivenBack, Taken, LoopsIn;
    RunIsFrames(rt, At(program, w, b), path);
    var (frames, place) := Reached(rt, At(program, w, b), path).value;
    var Done(w1, b1, c) := Continued(rt, place);
    if c.flow.Break? {
      BreakEndsTheNthLoop(rt, frames, n, w1, b1, c.exitCode, c.stdout, c.suppressed);
    } else {
      ContinueResumesTheNthLoop(rt, frames, n, w1, b1, c.exitCode, c.stdout, c.suppressed);
    }
  }

  // ---- control flow in the condition of a loop ----

  /** What a loop does once its condition has run. */
  datatype Turn = RunsBody | Ends(flow: Flow) | TestsAgain

  predicate Passed(loop: Command, condition: Completion)
    requires loop.While?
  {
    (condition.exitCode == 0) != loop.negate
  }

  /** The code looks at the exit code alone. */
  function TurnTaken(loop: Command, condition: Completion): Turn
    requires loop.While?
  {
    if Passed(loop, condition) then RunsBody else Ends(Normal)
  }

  /** A `break`, `continue`, `return` or `exit` in the condition, meant as it is in the body. */
  function TurnMeant(loop: Command, condition: Completion): Turn
    requires loop.While?
  {
    if condition.flow == Normal then TurnTaken(loop, condition) else
    var (stop, flow) := LoopFlow(condition.flow);
    if stop then Ends(flow) else TestsAgain
  }

  function Take(rt: Runtime, loop: Command, turn: Turn, w: World, b: Budget, s: LoopState): Outcome
    requires loop.While?
  {
    match turn
    case RunsBody => RunBody(rt, loop, [], w, b, s)
    case Ends(flow) => LoopEnds(w, b, s, flow)
    case TestsAgain => NextIteration(rt, loop, [], w, b, s)
  }

  /** In every iteration, the flow of the condition makes no difference to what the loop does. */
  lemma ConditionFlowIsLost(rt: Runtime, loop: Command, w: World, b: Budget, s: LoopState, flow: Flow)
    requires loop.While? && s.iteration + 1 <= b.perLoop && b.iterations > 0
    ensures var o := Execute(rt, loop.condition, w, b.(iterations := b.iterations - 1));
            o.Done? ==>
            && NextIteration(rt, loop, [], w, b, s)
               == Take(rt, loop, TurnTaken(loop, o.completion), o.world.(lastExitCode := o.completion.exitCode), o.budget,
                       LoopState(s.iteration + 1, s.exitCode, s.stdout + o.completion.stdout))
            && TurnTaken(loop, o.completion.(flow := flow)) == TurnTaken(loop, o.completion)
  {
    hide Execute, RunBody;
  }

  /** It does what is meant if and only if there is no such flow, or it is a break of this loop and the test fails. */
  lemma ConditionFlowIsHonouredExactly(loop: Command, condition: Completion)
    requires loop.While?
    ensures TurnTaken(loop, condition) == TurnMeant(loop, condition)
            <==> condition.flow == Normal || (condition.flow.Break? && condition.flow.level <= 1 && !Passed(loop, condition))
  {}

  /** No flow comes for nothing: some command or iteration has been charged. */
  ghost predicate Cheaper(after: Budget, before: Budget) {
    after.commands < before.commands || after.iterations < before.iterations
  }

  lemma {:induction false} FlowCosts(rt: Runtime, c: Command, w: World, b: Budget)
    ensures var o := Execute(rt, c, w, b); o.Done? && o.completion.flow != Normal ==> Cheaper(o.budget, b)
    decreases c
  {
    hide NextIteration;
    match c
    case Simple(action) =>
      var o := ExecuteSimple(rt, action, w, b);
    case Assignments(_) =>
    case List(left, _, right) =>
      FlowCosts(rt, left, w, b);
      var o := Execute(rt, left, w, b);
      if o.Done? {
        var w1 := o.world.(lastExitCode := o.completion.exitCode);
        if right.Some? { FlowCosts(rt, right.value, w1, o.budget); }
        var after := AfterLeft(rt, c, o.world, o.budget, o.completion);
      }
    case If(condition, thenDo, elseDo) =>
      FlowCosts(rt, condition, w, b);
      var o := Execute(rt, condition, w, b);
      if o.Done? {
        var w1 := o.world.(lastExitCode := o.completion.exitCode);
        FlowCosts(rt, thenDo, w1, o.budget);
        if elseDo.Some? { FlowCosts(rt, elseDo.value, w1, o.budget); }
        var after := AfterCondition(rt, c, o.world, o.budget, o.completion);
      }
    case While(_, _, _) => IterationCosts(rt, c, [], w, b, LoopState(0, 0, ""));
    case For(_, items, _) =>
      var (w1, list) := rt.items(items, w);
      IterationCosts(rt, c, list, Quiet(w1, w), b, LoopState(0, 0, ""));
    case ArithmeticFor(init, _, _, _) =>
      var w1 := if init.Some? then Quiet(rt.arithmetic(init.value, w).0, w) else w;
      IterationCosts(rt, c, [], w1, b, LoopState(0, 0, ""));
  }

  lemma IterationCosts(rt: Runtime, c: Command, items: seq<string>, w: World, b: Budget, s: LoopState)
    requires IsLoop(c)
    ensures var o := NextIteration(rt, c, items, w, b, s);
            o.Done? && (!c.For? || o.completion.flow != Normal) ==> Cheaper(o.budget, b)
  {
    hide Execute, RunBody;
  }

  lemma BodyCosts(rt: Runtime, c: Command, w: World, b: Budget, s: LoopState)
    requires c.While?
    ensures var o := RunBody(rt, c, [], w, b, s); o.Done? ==> Cheaper(o.budget, b)
  {
    hide Execute, NextIteration;
    FlowCosts(rt, c.body, w, b);
    var o := Execute(rt, c.body, w, b);
    if o.Done? {
      var w1 := o.world.(lastExitCode := o.completion.exitCode);
      IterationCosts(rt, c, [], w1, o.budget, LoopState(s.iteration, o.completion.exitCode, s.stdout + o.completion.stdout));
      var after := AfterBody(rt, c, [], o.world, o.budget, s, o.completion);
    }
  }

  /**
   And so does the whole run from there on: it is the run that is meant if and only if the turn is. (When the test
   passes and `continue` means to test again, both runs may spend their budget.)
   */
  lemma RunIsAsMeantExactly(rt: Runtime, loop: Command, w: World, b: Budget, s: LoopState, condition: Completion)
    requires loop.While? && !(Passed(loop, condition) && TurnMeant(loop, condition) == TestsAgain)
    ensures Take(rt, loop, TurnTaken(loop, condition), w, b, s) == Take(rt, loop, TurnMeant(loop, condition), w, b, s)
            <==> condition.flow == Normal || (condition.flow.Break? && condition.flow.level <= 1 && !Passed(loop, condition))
  {
    hide RunBody, NextIteration;
    BodyCosts(rt, loop, w, b, s);
    IterationCosts(rt, loop, [], w, b, s);
  }

  // ---- `while break; do …; done` ----

  /** Action 0 is `break`; every other command does nothing. */
  const BREAKING := Runtime(
    (action: nat, w: World) => (w, ""),
    (action: nat, w: World) => (w, Completion(0, if action == 0 then Break(1) else Normal, "", false)),
    (action: nat, w: World) => w,
    (action: nat, w: World) => (w, []),
    (action: nat, w: World) => (w, 0))

  const WHILE_BREAK := While(Simple(0), Simple(1), false)

  /** Such a loop ends at its first test, by what is meant; it runs until the budget is spent. */
  lemma {:induction false} WhileBreakNeverEnds(w: World, b: Budget, s: LoopState)
    requires "" !in w.functions
    ensures NextIteration(BREAKING, WHILE_BREAK, [], w, b, s) == Exceeded
    ensures TurnMeant(WHILE_BREAK, Completion(0, Break(1), "", false)) == Ends(Normal)
    decreases b.iterations
  {
    if s.iteration + 1 <= b.perLoop && b.iterations > 0 && b.commands >= 2 {
      var b1 := b.(iterations := b.iterations - 1);
      Nothing(0, w, b1);
      var o := Execute(BREAKING, Simple(0), w, b1);
      var w1 := o.world.(lastExitCode := 0);
      Nothing(1, w1, o.budget);
      var o2 := Execute(BREAKING, Simple(1), w1, o.budget);
      var body := RunBody(BREAKING, WHILE_BREAK, [], w1, o.budget, LoopState(s.iteration + 1, s.exitCode, s.stdout + ""));
      var after := AfterBody(BREAKING, WHILE_BREAK, [], o2.world, o2.budget, LoopState(s.iteration + 1, s.exitCode, s.stdout + ""), o2.completion);
      WhileBreakNeverEnds(o2.world.(lastExitCode := 0), o2.budget, LoopState(s.iteration + 1, 0, s.stdout + "" + ""));
    } else if s.iteration + 1 <= b.perLoop && b.iterations > 0 {
      var b1 := b.(iterations := b.iterations - 1);
      var o := Execute(BREAKING, Simple(0), w, b1);
      if b.commands == 1 {
        Nothing(0, w, b1);
        var body := RunBody(BREAKING, WHILE_BREAK, [], o.world.(lastExitCode := 0), o.budget, LoopState(s.iteration + 1, s.exitCode, s.stdout + ""));
        var spent := Execute(BREAKING, Simple(1), o.world.(lastExitCode := 0), o.budget);
        assert ExecuteSimple(BREAKING, 1, o.world.(lastExitCode := 0), o.budget) == Exceeded;
      } else {
        assert ExecuteSimple(BREAKING, 0, w, b1) == Exceeded;
      }
    }
  }

  lemma Nothing(action: nat, w: World, b: Budget)
    requires "" !in w.functions && b.commands > 0
    ensures Execute(BREAKING, Simple(action), w, b)
            == Done(w, b.(commands := b.commands - 1), Completion(0, if action == 0 then Break(1) else Normal, "", false))
  {
    assert w.(log := w.log + "") == w;
  }
}
