/**
 What is not run, and what is: the outcome of a list, a branch and a loop from the exit code, control flow and
 output of the part that decides, and where `return` and `exit` go.
 */
module ShellOutcomes {
  import opened Wrappers
  import opened ShellCommands
  import opened ShellCommandLaws

  // ---- lists ----

  /** Whether `a` is enough: after `&&` when it fails, after `||` when it succeeds. */
  predicate Enough(op: ListOperator, code: int) {
    (op == And && code != 0) || (op == Or && code == 0)
  }

  /** Then the right side makes no difference: the list has the exit code, output and budget of its left side. */
  lemma RightIsNotRun(rt: Runtime, a: Command, op: ListOperator, w: World, b: Budget, code: int, out: string)
    requires Enough(op, code)
    requires var o := Execute(rt, a, w, b); o.Done? && o.completion.flow == Normal && o.completion.exitCode == code && o.completion.stdout == out
    ensures forall right: Command :: Execute(rt, List(a, op, Some(right)), w, b)
              == Done(Execute(rt, a, w, b).world.(lastExitCode := code), Execute(rt, a, w, b).budget, Completion(code, Normal, out, true))
  {
    var o := Execute(rt, a, w, b);
    forall right: Command
      ensures Execute(rt, List(a, op, Some(right)), w, b) == Done(o.world.(lastExitCode := code), o.budget, Completion(code, Normal, out, true))
    {
      ListStep(rt, List(a, op, Some(right)), w, b);
    }
  }

  lemma ListStep(rt: Runtime, c: Command, w: World, b: Budget)
    requires c.List?
    ensures var o := Execute(rt, c.left, w, b);
            Execute(rt, c, w, b) == if o.Exceeded? then o else AfterLeft(rt, c, o.world, o.budget, o.completion)
  {
    hide AfterLeft;
  }

  /** Where `set -e` stops a sequence: after a failure that nothing has excused. */
  predicate Aborts(op: ListOperator, w: World, left: Completion) {
    op == Sequence && w.errExit && left.exitCode != 0 && !left.suppressed
  }

  /** Otherwise, unless `set -e` stops there, the list is its right side run where the left side ended, after the left side's output. */
  lemma RightIsRun(rt: Runtime, a: Command, op: ListOperator, right: Command, w: World, b: Budget)
    requires var o := Execute(rt, a, w, b);
             o.Done? && o.completion.flow == Normal && !Enough(op, o.completion.exitCode) && !Aborts(op, o.world, o.completion)
    ensures var o := Execute(rt, a, w, b);
            var r := Execute(rt, right, o.world.(lastExitCode := o.completion.exitCode), o.budget);
            Execute(rt, List(a, op, Some(right)), w, b) ==
            if r.Exceeded? then Exceeded
            else Done(r.world.(lastExitCode := r.completion.exitCode), r.budget,
                      Completion(r.completion.exitCode, r.completion.flow, o.completion.stdout + r.completion.stdout, r.completion.suppressed))
  {
    hide Execute;
    ListStep(rt, List(a, op, Some(right)), w, b);
  }

  /** A list whose left side runs out of budget, ends otherwise than normally, is all there is, or is stopped by `set -e`, is its left side. */
  lemma LeftIsAll(rt: Runtime, a: Command, op: ListOperator, w: World, b: Budget)
    ensures var o := Execute(rt, a, w, b);
            && (o.Exceeded? ==> forall right: Option<Command> :: Execute(rt, List(a, op, right), w, b) == Exceeded)
            && (o.Done? ==> Execute(rt, List(a, op, None), w, b) == o.(world := o.world.(lastExitCode := o.completion.exitCode)))
            && (o.Done? && (o.completion.flow != Normal || Aborts(op, o.world, o.completion)) ==>
                  forall right: Option<Command> :: Execute(rt, List(a, op, right), w, b) == o.(world := o.world.(lastExitCode := o.completion.exitCode)))
  {
    var o := Execute(rt, a, w, b);
    forall right: Option<Command>
      ensures o.Exceeded? ==> Execute(rt, List(a, op, right), w, b) == Exceeded
      ensures o.Done? && (right.None? || o.completion.flow != Normal || Aborts(op, o.world, o.completion)) ==>
                Execute(rt, List(a, op, right), w, b) == o.(world := o.world.(lastExitCode := o.completion.exitCode))
    {
      ListStep(rt, List(a, op, right), w, b);
    }
  }

  /** `a && b; c` with `set -e` goes on to `c` when `a` fails, and stops when `b` does. */
  lemma TestsDoNotAbort(rt: Runtime, a: Command, b: Command, c: Command, w: World, budget: Budget)
    requires var o := Execute(rt, a, w, budget); o.Done? && o.completion.flow == Normal && o.world.errExit
    ensures var o := Execute(rt, a, w, budget);
            var tested := List(a, And, Some(b));
            var r := Execute(rt, b, o.world.(lastExitCode := o.completion.exitCode), o.budget);
            && (o.completion.exitCode != 0 ==>
                  var last := Execute(rt, c, o.world.(lastExitCode := o.completion.exitCode), o.budget);
                  Execute(rt, List(tested, Sequence, Some(c)), w, budget) ==
                  if last.Exceeded? then Exceeded
                  else Done(last.world.(lastExitCode := last.completion.exitCode), last.budget,
                            last.completion.(stdout := o.completion.stdout + last.completion.stdout)))
            && (o.completion.exitCode == 0 && r.Done? && r.completion.flow == Normal && r.world.errExit && r.completion.exitCode != 0 && !r.completion.suppressed ==>
                  Execute(rt, List(tested, Sequence, Some(c)), w, budget) == Execute(rt, tested, w, budget))
  {
    hide Execute, AfterLeft;
    var o := Execute(rt, a, w, budget);
    var tested := List(a, And, Some(b));
    if o.completion.exitCode != 0 {
      RightIsNotRun(rt, a, And, w, budget, o.completion.exitCode, o.completion.stdout);
      RightIsRun(rt, tested, Sequence, c, w, budget);
    } else {
      RightIsRun(rt, a, And, b, w, budget);
      LeftIsAll(rt, tested, Sequence, w, budget);
    }
  }

  /** Grouping does not matter: `(a && b) && c` runs as `a && (b && c)` does, and so for `||` and for `;`. */
  lemma GroupingDoesNotMatter(rt: Runtime, op: ListOperator, a: Command, b: Command, c: Command, w: World, budget: Budget)
    requires op in {And, Or, Sequence}
    ensures Execute(rt, List(List(a, op, Some(b)), op, Some(c)), w, budget) == Execute(rt, List(a, op, Some(List(b, op, Some(c)))), w, budget)
  {
    hide Execute;
    var first, rest := List(a, op, Some(b)), List(b, op, Some(c));
    ListStep(rt, List(first, op, Some(c)), w, budget);
    ListStep(rt, first, w, budget);
    ListStep(rt, List(a, op, Some(rest)), w, budget);
    var o := Execute(rt, a, w, budget);
    if o.Done? {
      var w1 := o.world.(lastExitCode := o.completion.exitCode);
      ListStep(rt, rest, w1, o.budget);
      var r := Execute(rt, b, w1, o.budget);
      if r.Done? {
        var last := Execute(rt, c, r.world.(lastExitCode := r.completion.exitCode), r.budget);
        if last.Done? { Regroup(o.completion.stdout, r.completion.stdout, last.completion.stdout); }
      }
    }
  }

  lemma Regroup(a: string, b: string, c: string)
    ensures a + b + c == a + (b + c)
  {}

  // ---- branches ----

  /** An `if` runs one branch, by the exit code of its condition; with none to run it succeeds, and nothing more is run or charged. */
  lemma OneBranch(rt: Runtime, condition: Command, thenDo: Command, elseDo: Option<Command>, w: World, b: Budget)
    requires var o := Execute(rt, condition, w, b); o.Done? && o.completion.flow == Normal
    ensures var o := Execute(rt, condition, w, b);
            var w1 := o.world.(lastExitCode := o.completion.exitCode);
            && (o.completion.exitCode == 0 ==>
                  Execute(rt, If(condition, thenDo, elseDo), w, b) == Following(o.completion.stdout, Execute(rt, thenDo, w1, o.budget)))
            && (o.completion.exitCode != 0 && elseDo.Some? ==>
                  Execute(rt, If(condition, thenDo, elseDo), w, b) == Following(o.completion.stdout, Execute(rt, elseDo.value, w1, o.budget)))
            && (o.completion.exitCode != 0 && elseDo.None? ==>
                  Execute(rt, If(condition, thenDo, elseDo), w, b) == Done(w1, o.budget, Completion(0, Normal, o.completion.stdout, false)))
  {
    hide Execute;
    IfStep(rt, If(condition, thenDo, elseDo), w, b);
  }

  lemma IfStep(rt: Runtime, c: Command, w: World, b: Budget)
    requires c.If?
    ensures var o := Execute(rt, c.condition, w, b);
            Execute(rt, c, w, b) == if o.Exceeded? then o else AfterCondition(rt, c, o.world, o.budget, o.completion)
  {
    hide AfterCondition;
  }

  /** The same outcome with some output before its own. */
  function Following(said: string, o: Outcome): Outcome {
    match o
    case Exceeded => Exceeded
    case Done(w, b, c) => Done(w, b, Completion(c.exitCode, c.flow, said + c.stdout, c.suppressed))
  }

  /** A condition that ends otherwise than normally, or not at all, is all of the `if`. */
  lemma ConditionIsAll(rt: Runtime, condition: Command, w: World, b: Budget)
    ensures var o := Execute(rt, condition, w, b);
            && (o.Exceeded? ==> forall thenDo: Command, elseDo: Option<Command> :: Execute(rt, If(condition, thenDo, elseDo), w, b) == Exceeded)
            && (o.Done? && o.completion.flow != Normal ==> forall thenDo: Command, elseDo: Option<Command> ::
                  Execute(rt, If(condition, thenDo, elseDo), w, b) == o.(world := o.world.(lastExitCode := o.completion.exitCode)))
  {
    var o := Execute(rt, condition, w, b);
    forall thenDo: Command, elseDo: Option<Command>
      ensures o.Exceeded? ==> Execute(rt, If(condition, thenDo, elseDo), w, b) == Exceeded
      ensures o.Done? && o.completion.flow != Normal ==>
                Execute(rt, If(condition, thenDo, elseDo), w, b) == o.(world := o.world.(lastExitCode := o.completion.exitCode))
    {
      IfStep(rt, If(condition, thenDo, elseDo), w, b);
    }
  }

  // ---- loops ----

  /** No iteration is left, in all or in this loop. */
  predicate NoIteration(b: Budget, s: LoopState) {
    b.iterations == 0 || s.iteration >= b.perLoop
  }

  /** A `for` with no item left ends with what it had, and charges nothing; with one left and no iteration to charge, the run is over. */
  lemma ItemsAtAnEnd(rt: Runtime, loop: Command, items: seq<string>, w: World, b: Budget, s: LoopState)
    requires loop.For?
    ensures s.iteration >= |items| ==> NextIteration(rt, loop, items, w, b, s) == Done(w, b, Completion(s.exitCode, Normal, s.stdout, false))
    ensures s.iteration < |items| ==> NoIteration(b, s) ==> NextIteration(rt, loop, items, w, b, s) == Exceeded
    ensures s.iteration < |items| ==> !NoIteration(b, s) ==>
              NextIteration(rt, loop, items, w, b, s)
              == RunBody(rt, loop, items, w.(variables := w.variables[loop.variable := items[s.iteration]]), b.(iterations := b.iterations - 1),
                         s.(iteration := s.iteration + 1))
  {
    hide RunBody;
  }

  /** A `for` over nothing is a success without output. */
  lemma NoItems(rt: Runtime, loop: Command, w: World, b: Budget)
    requires loop.For? && rt.items(loop.items, w).1 == []
    ensures Execute(rt, loop, w, b) == Done(rt.items(loop.items, w).0.(log := w.log), b, Completion(0, Normal, "", false))
  {
    ItemsAtAnEnd(rt, loop, [], rt.items(loop.items, w).0.(log := w.log), b, LoopState(0, 0, ""));
    assert Execute(rt, loop, w, b) == NextIteration(rt, loop, [], Quiet(rt.items(loop.items, w).0, w), b, LoopState(0, 0, ""));
  }

  /** An arithmetic `for` whose test is nought ends with what it had; the iteration was charged, and the test may have changed variables. */
  lemma TestAtAnEnd(rt: Runtime, loop: Command, w: World, b: Budget, s: LoopState)
    requires loop.ArithmeticFor?
    ensures NoIteration(b, s) ==> NextIteration(rt, loop, [], w, b, s) == Exceeded
    ensures !NoIteration(b, s) && loop.test.Some? && rt.arithmetic(loop.test.value, w).1 == 0 ==>
              NextIteration(rt, loop, [], w, b, s)
              == Done(rt.arithmetic(loop.test.value, w).0.(log := w.log), b.(iterations := b.iterations - 1), Completion(s.exitCode, Normal, s.stdout, false))
    ensures !NoIteration(b, s) && loop.test.Some? && rt.arithmetic(loop.test.value, w).1 != 0 ==>
              NextIteration(rt, loop, [], w, b, s)
              == RunBody(rt, loop, [], rt.arithmetic(loop.test.value, w).0.(log := w.log), b.(iterations := b.iterations - 1), s.(iteration := s.iteration + 1))
    ensures !NoIteration(b, s) && loop.test.None? ==>
              NextIteration(rt, loop, [], w, b, s) == RunBody(rt, loop, [], w, b.(iterations := b.iterations - 1), s.(iteration := s.iteration + 1))
  {
    hide RunBody;
  }

  /** A `while` whose condition fails, and an `until` whose condition succeeds, ends with what it had and the condition's output. */
  lemma ConditionAtAnEnd(rt: Runtime, condition: Command, body: Command, negate: bool, w: World, b: Budget, s: LoopState)
    ensures NoIteration(b, s) ==> NextIteration(rt, While(condition, body, negate), [], w, b, s) == Exceeded
    ensures !NoIteration(b, s) ==>
              var o := Execute(rt, condition, w, b.(iterations := b.iterations - 1));
              && (o.Exceeded? ==> NextIteration(rt, While(condition, body, negate), [], w, b, s) == Exceeded)
              && (o.Done? && (if negate then o.completion.exitCode == 0 else o.completion.exitCode != 0) ==>
                    NextIteration(rt, While(condition, body, negate), [], w, b, s)
                    == Done(o.world.(lastExitCode := o.completion.exitCode), o.budget, Completion(s.exitCode, Normal, s.stdout + o.completion.stdout, false)))
              && (o.Done? && !(if negate then o.completion.exitCode == 0 else o.completion.exitCode != 0) ==>
                    NextIteration(rt, While(condition, body, negate), [], w, b, s)
                    == RunBody(rt, While(condition, body, negate), [], o.world.(lastExitCode := o.completion.exitCode), o.budget,
                               LoopState(s.iteration + 1, s.exitCode, s.stdout + o.completion.stdout)))
  {
    hide Execute, RunBody;
  }

  // ---- calls ----

  /** A command that is no function costs one command and leaves what it wrote at the end of the log; with none left the run is over. */
  lemma CommandsAreCharged(rt: Runtime, action: nat, w: World, b: Budget)
    ensures b.commands == 0 ==> Execute(rt, Simple(action), w, b) == Exceeded
    ensures var (expanded, name) := rt.expand(action, w);
            var w1 := expanded.(log := w.log);
            b.commands > 0 && name !in w1.functions ==>
              var (w2, c) := rt.run(action, w1);
              Execute(rt, Simple(action), w, b) == Done(w2.(log := w.log + c.stdout), b.(commands := b.commands - 1), c)
  {}

  /** A function costs one command and one frame while it runs; a `return` in it gives its exit code, and any other control flow goes on outside. */
  lemma CallsAreCharged(rt: Runtime, action: nat, w: World, b: Budget)
    requires rt.expand(action, w).1 in rt.expand(action, w).0.functions && b.commands > 0
    ensures b.frames == 0 ==> Execute(rt, Simple(action), w, b) == Exceeded
    ensures b.frames > 0 ==>
              var (expanded, name) := rt.expand(action, w);
              var o := Execute(rt, expanded.functions[name], expanded.(log := w.log), b.(commands := b.commands - 1, frames := b.frames - 1));
              match o
              case Exceeded => Execute(rt, Simple(action), w, b) == Exceeded
              case Done(w1, b1, c) =>
                Execute(rt, Simple(action), w, b) == Done(w1, b1.(frames := b.frames),
                  match c.flow
                  case Return(code) => Completion(code, Normal, c.stdout, c.suppressed)
                  case _ => c)
  {
    hide Execute;
    CallStep(rt, action, w, b);
  }

  lemma CallStep(rt: Runtime, action: nat, w: World, b: Budget)
    ensures Execute(rt, Simple(action), w, b) == ExecuteSimple(rt, action, w, b)
  {
    hide ExecuteSimple;
  }

  function CallsIn(frames: seq<Frame>): nat {
    if frames == [] then 0 else (if frames[0].InCall? then 1 else 0) + CallsIn(frames[1..])
  }

  /** The place of the innermost call. */
  function InnermostCall(frames: seq<Frame>): (i: nat)
    requires CallsIn(frames) > 0
    ensures i < |frames| && frames[i].InCall?
  {
    if frames[0].InCall? then 0 else InnermostCall(frames[1..]) + 1
  }

  /** A frame other than a call passes a `return` on, and every frame an `exit`, and runs nothing. */
  lemma PassesOut(rt: Runtime, f: Frame, flow: Flow, w: World, b: Budget, code: int, out: string, suppressed: bool) returns (next: Outcome)
    requires ProperFrame(f) && (flow.Exit? || (flow.Return? && !f.InCall?))
    ensures next == Handle(rt, f, Done(w, b, Completion(code, flow, out, suppressed)))
    ensures next.Done? && next.budget == GivenBack([f], b) && next.world.(lastExitCode := code) == w.(lastExitCode := code)
    ensures next.completion == Completion(code, flow, Said([f], out), next.completion.suppressed)
  {
    hide Execute, NextIteration;
    next := Handle(rt, f, Done(w, b, Completion(code, flow, out, suppressed)));
    assert [f][1..] == [];
  }

  /**
   `return k` anywhere in a function, under any lists, branches and loops, ends exactly that call: the run goes on
   outside it with exit code `k` and all output so far, and nothing inside is run, or charged, any more.
   */
  lemma {:induction false} ReturnEndsTheCall(rt: Runtime, frames: seq<Frame>, k: int, w: World, b: Budget, code: int, out: string, suppressed: bool)
    returns (w1: World, excused: bool)
    requires Proper(frames) && CallsIn(frames) > 0
    ensures w1.(lastExitCode := code) == w.(lastExitCode := code)
    ensures var i := InnermostCall(frames);
            && Proper(frames[i + 1..])
            && HandleAll(rt, frames, Done(w, b, Completion(code, Return(k), out, suppressed)))
               == HandleAll(rt, frames[i + 1..], Done(w1, GivenBack(frames[..i + 1], b), Completion(k, Normal, Said(frames[..i + 1], out), excused)))
    decreases |frames|
  {
    hide Said, GivenBack, Execute, NextIteration, AfterLeft, AfterCondition, AfterBody;
    var i := InnermostCall(frames);
    ProperRest(frames, i + 1);
    ProperRest(frames, 1);
    var f, rest := frames[0], frames[1..];
    assert ProperFrame(f);
    if f.InCall? {
      assert frames[..1] == [f];
      SaidInCall(f, out);
      GivenBackOne(f, b);
      w1, excused := w, suppressed;
    } else {
      var next := PassesOut(rt, f, Return(k), w, b, code, out, suppressed);
      w1, excused := ReturnEndsTheCall(rt, rest, k, next.world, next.budget, code, next.completion.stdout, next.completion.suppressed);
      SaidNext(frames, i + 1, out);
      GivenBackNext(frames, i + 1, b);
      assert rest[i..] == frames[i + 1..];
    }
  }

  lemma SaidInCall(f: Frame, out: string)
    requires f.InCall?
    ensures Said([f], out) == out
  {
    assert [f][1..] == [];
  }

  /** `exit` leaves everything: with its exit code, all output so far, and every frame given back. */
  lemma {:induction false} ExitLeavesEverything(rt: Runtime, frames: seq<Frame>, k: int, w: World, b: Budget, code: int, out: string, suppressed: bool)
    requires Proper(frames)
    ensures var o := HandleAll(rt, frames, Done(w, b, Completion(code, Exit(k), out, suppressed)));
            o.Done? && o.budget == GivenBack(frames, b) && o.completion.exitCode == code && o.completion.flow == Exit(k)
            && o.completion.stdout == Said(frames, out)
    decreases |frames|
  {
    hide Handle;
    if frames != [] {
      var f := frames[0];
      assert ProperFrame(f);
      ProperRest(frames, 1);
      var next := PassesOut(rt, f, Exit(k), w, b, code, out, suppressed);
      ExitLeavesEverything(rt, frames[1..], k, next.world, next.budget, code, next.completion.stdout, next.completion.suppressed);
      assert [f][1..] == [];
    }
  }
}
