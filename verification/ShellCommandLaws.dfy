/**
 Where `break n` and `continue n` go, that a budget only ever cuts a run short, and that all
 output is kept, once and in order.
 */
module ShellCommandLaws {
  import opened Wrappers
  import opened ShellCommands

  // ---- the constructs around a running command ----

  /** What is waiting for a command to finish. */
  datatype Frame =
    | InLeft(list: Command)
    | InRight(said: string)
    | InCondition(branch: Command)
    | InBranch(said: string)
    | InCall(frames: nat)
    | InBody(loop: Command, items: seq<string>, state: LoopState)

  predicate ProperFrame(f: Frame) {
    match f
    case InLeft(list) => list.List?
    case InCondition(branch) => branch.If?
    case InBody(loop, _, _) => IsLoop(loop)
    case _ => true
  }

  predicate Proper(frames: seq<Frame>) {
    forall k :: 0 <= k < |frames| ==> ProperFrame(frames[k])
  }

  /** What the waiting construct does with the outcome. */
  function Handle(rt: Runtime, f: Frame, o: Outcome): Outcome
    requires ProperFrame(f)
  {
    if o.Exceeded? then o else
    match f
    case InLeft(list) => AfterLeft(rt, list, o.world, o.budget, o.completion)
    case InRight(said) =>
      Done(o.world.(lastExitCode := o.completion.exitCode), o.budget, o.completion.(stdout := said + o.completion.stdout))
    case InCondition(branch) => AfterCondition(rt, branch, o.world, o.budget, o.completion)
    case InBranch(said) => o.(completion := o.completion.(stdout := said + o.completion.stdout))
    case InCall(frames) => Done(o.world, o.budget.(frames := frames), Returned(o.completion))
    case InBody(loop, items, state) => AfterBody(rt, loop, items, o.world, o.budget, state, o.completion)
  }

  /** The innermost frame first. */
  function HandleAll(rt: Runtime, frames: seq<Frame>, o: Outcome): Outcome
    requires Proper(frames)
  {
    if frames == [] then o else HandleAll(rt, frames[1..], Handle(rt, frames[0], o))
  }

  /** The calls that a command within some frames is still in are given back, the outermost last. */
  function GivenBack(frames: seq<Frame>, b: Budget): Budget {
    if frames == [] then b else
    GivenBack(frames[1..], if frames[0].InCall? then b.(frames := frames[0].frames) else b)
  }

  function LoopsIn(frames: seq<Frame>): nat {
    if frames == [] then 0 else (if frames[0].InBody? then 1 else 0) + LoopsIn(frames[1..])
  }

  /** The place of the `n`-th loop, counting outwards. */
  function NthLoop(frames: seq<Frame>, n: nat): (i: nat)
    requires 1 <= n <= LoopsIn(frames)
    ensures i < |frames| && frames[i].InBody?
  {
    if frames[0].InBody? then (if n == 1 then 0 else NthLoop(frames[1..], n - 1) + 1) else NthLoop(frames[1..], n) + 1
  }

  /** The output of a command inside some frames, with what the frames have to put before it. */
  function Said(frames: seq<Frame>, out: string): string {
    if frames == [] then out else
    var first := frames[0];
    Said(frames[1..],
         match first
         case InRight(said) => said + out
         case InBranch(said) => said + out
         case InBody(_, _, state) => state.stdout + out
         case _ => out)
  }

  lemma {:induction false} ProperRest(frames: seq<Frame>, k: nat)
    requires Proper(frames) && k <= |frames|
    ensures Proper(frames[k..])
  {}

  /** A frame passes a break or continue on, one level less if it is a loop, and runs nothing. */
  lemma Passes(rt: Runtime, f: Frame, flow: Flow, w: World, b: Budget, code: int, out: string, suppressed: bool) returns (next: Outcome)
    requires ProperFrame(f) && (flow.Break? || flow.Continue?) && (f.InBody? ==> flow.level > 1)
    ensures next == Handle(rt, f, Done(w, b, Completion(code, flow, out, suppressed)))
    ensures next.Done? && next.budget == GivenBack([f], b) && next.world.(lastExitCode := code) == w.(lastExitCode := code)
    ensures next.completion == Completion(code, if f.InBody? then Unwind(flow) else flow, Said([f], out), next.completion.suppressed)
  {
    hide Execute, NextIteration;
    next := Handle(rt, f, Done(w, b, Completion(code, flow, out, suppressed)));
    assert [f][1..] == [];
  }

  /** At the loop it is for, a break ends the loop, and a continue counts as the body's normal end. */
  lemma Arrives(rt: Runtime, f: Frame, w: World, b: Budget, code: int, out: string, suppressed: bool)
    requires ProperFrame(f) && f.InBody?
    ensures Handle(rt, f, Done(w, b, Completion(code, Break(1), out, suppressed)))
            == Done(w.(lastExitCode := code), b, Completion(code, Normal, f.state.stdout + out, false))
    ensures Handle(rt, f, Done(w, b, Completion(code, Continue(1), out, suppressed)))
            == Handle(rt, f, Done(w.(lastExitCode := code), b, Completion(code, Normal, out, false)))
  {
    hide Execute, NextIteration;
    assert w.(lastExitCode := code).(lastExitCode := code) == w.(lastExitCode := code);
  }

  /**
   `break n` ends exactly the n-th loop around it: the run goes on outside that loop, with the
   exit code and output so far, and nothing inside is run, or charged, any more.
   */
  lemma {:induction false} BreakEndsTheNthLoop(rt: Runtime, frames: seq<Frame>, n: nat, w: World, b: Budget, code: int, out: string, suppressed: bool)
    requires Proper(frames) && 1 <= n <= LoopsIn(frames)
    ensures var i := NthLoop(frames, n);
            && Proper(frames[i + 1..])
            && HandleAll(rt, frames, Done(w, b, Completion(code, Break(n), out, suppressed)))
               == HandleAll(rt, frames[i + 1..], Done(w.(lastExitCode := code), GivenBack(frames[..i + 1], b), Completion(code, Normal, Said(frames[..i + 1], out), false)))
    decreases |frames|
  {
    hide Handle, Said, GivenBack;
    var i := NthLoop(frames, n);
    ProperRest(frames, i + 1);
    ProperRest(frames, 1);
    var f, rest := frames[0], frames[1..];
    assert ProperFrame(f);
    if f.InBody? && n == 1 {
      assert frames[..1] == [f];
      SaidOne(f, out);
      GivenBackOne(f, b);
      Arrives(rt, f, w, b, code, out, suppressed);
    } else {
      var next := Passes(rt, f, Break(n), w, b, code, out, suppressed);
      var fewer: nat := if f.InBody? then n - 1 else n;
      BreakEndsTheNthLoop(rt, rest, fewer, next.world, next.budget, code, next.completion.stdout, next.completion.suppressed);
      SaidNext(frames, i + 1, out);
      GivenBackNext(frames, i + 1, b);
      assert rest[i..] == frames[i + 1..];
    }
  }

  lemma SaidOne(f: Frame, out: string)
    requires f.InBody?
    ensures Said([f], out) == f.state.stdout + out
  {
    assert [f][1..] == [];
  }

  lemma GivenBackOne(f: Frame, b: Budget)
    ensures GivenBack([f], b) == if f.InCall? then b.(frames := f.frames) else b
  {
    assert [f][1..] == [];
  }

  lemma GivenBackNone(b: Budget)
    ensures GivenBack([], b) == b
  {}

  lemma GivenBackNext(frames: seq<Frame>, i: nat, b: Budget)
    requires 0 < i <= |frames|
    ensures GivenBack(frames[..i], b) == GivenBack(frames[1..][..i - 1], GivenBack([frames[0]], b))
  {
    assert frames[..i][1..] == frames[1..][..i - 1];
    GivenBackOne(frames[0], b);
  }

  lemma SaidNext(frames: seq<Frame>, i: nat, out: string)
    requires 0 < i <= |frames|
    ensures Said(frames[..i], out) == Said(frames[1..][..i - 1], Said([frames[0]], out))
  {
    assert frames[..i][1..] == frames[1..][..i - 1];
    assert [frames[0]][1..] == [];
  }

  /** `continue n` is the body of the n-th loop finishing normally: that loop goes on, and no other. */
  lemma {:induction false} ContinueResumesTheNthLoop(rt: Runtime, frames: seq<Frame>, n: nat, w: World, b: Budget, code: int, out: string, suppressed: bool)
    requires Proper(frames) && 1 <= n <= LoopsIn(frames)
    ensures var i := NthLoop(frames, n);
            && Proper(frames[i..])
            && HandleAll(rt, frames, Done(w, b, Completion(code, Continue(n), out, suppressed)))
               == HandleAll(rt, frames[i..], Done(w.(lastExitCode := code), GivenBack(frames[..i], b), Completion(code, Normal, Said(frames[..i], out), false)))
    decreases |frames|
  {
    hide Handle, Said, GivenBack;
    var i := NthLoop(frames, n);
    ProperRest(frames, i);
    ProperRest(frames, 1);
    var f, rest := frames[0], frames[1..];
    assert ProperFrame(f);
    if f.InBody? && n == 1 {
      assert frames[..0] == [] && frames[0..] == frames;
      SaidNone(out);
      GivenBackNone(b);
      Arrives(rt, f, w, b, code, out, suppressed);
    } else {
      var next := Passes(rt, f, Continue(n), w, b, code, out, suppressed);
      var fewer: nat := if f.InBody? then n - 1 else n;
      ContinueResumesTheNthLoop(rt, rest, fewer, next.world, next.budget, code, next.completion.stdout, next.completion.suppressed);
      SaidNext(frames, i, out);
      GivenBackNext(frames, i, b);
      assert rest[i - 1..] == frames[i..];
    }
  }

  lemma SaidNone(out: string)
    ensures Said([], out) == out
  {}

  /** With more levels than loops the rest is still a break when every frame is done, and it has skipped them all. */
  lemma {:induction false} BreakPastAllLoops(rt: Runtime, frames: seq<Frame>, n: nat, w: World, b: Budget, code: int, out: string, suppressed: bool)
    requires Proper(frames) && LoopsIn(frames) < n
    ensures var o := HandleAll(rt, frames, Done(w, b, Completion(code, Break(n), out, suppressed)));
            o.Done? && o.budget == GivenBack(frames, b) && o.completion.exitCode == code && o.completion.flow == Break(n - LoopsIn(frames))
            && o.completion.stdout == Said(frames, out)
    decreases |frames|
  {
    if frames != [] {
      hide Handle;
      var f := frames[0];
      assert ProperFrame(f);
      ProperRest(frames, 1);
      var next := Passes(rt, f, Break(n), w, b, code, out, suppressed);
      var fewer: nat := if f.InBody? then n - 1 else n;
      BreakPastAllLoops(rt, frames[1..], fewer, next.world, next.budget, code, next.completion.stdout, next.completion.suppressed);
      assert [f][1..] == [];
    }
  }

  // ---- a budget only cuts a run short ----

  /** As much again of everything that is counted. */
  function Richer(b: Budget, more: Budget): Budget {
    Budget(b.commands + more.commands, b.iterations + more.iterations, b.perLoop + more.perLoop, b.frames + more.frames)
  }

  /** The same outcome with that much more left over. */
  ghost predicate Same(o: Outcome, rich: Outcome, more: Budget) {
    o.Done? ==> rich == Done(o.world, Richer(o.budget, more), o.completion)
  }

  /** A run that ends within a budget ends the same way within any larger one. */
  lemma {:induction false} MoreBudget(rt: Runtime, c: Command, w: World, b: Budget, more: Budget)
    requires more.perLoop >= 0
    ensures Same(Execute(rt, c, w, b), Execute(rt, c, w, Richer(b, more)), more)
    decreases b.iterations, b.commands, c, 3
  {
    hide AfterLeft, AfterCondition, NextIteration, ExecuteSimple;
    match c
    case Simple(action) => MoreForSimple(rt, action, w, b, more);
    case Assignments(_) =>
    case List(left, _, _) =>
      var o := Execute(rt, left, w, b);
      MoreBudget(rt, left, w, b, more);
      if o.Done? { MoreAfterLeft(rt, c, o.world, o.budget, o.completion, more); }
    case If(condition, _, _) =>
      var o := Execute(rt, condition, w, b);
      MoreBudget(rt, condition, w, b, more);
      if o.Done? { MoreAfterCondition(rt, c, o.world, o.budget, o.completion, more); }
    case While(_, _, _) => MoreIterations(rt, c, [], w, b, LoopState(0, 0, ""), more);
    case For(_, items, _) =>
      var (w1, list) := rt.items(items, w);
      MoreIterations(rt, c, list, Quiet(w1, w), b, LoopState(0, 0, ""), more);
    case ArithmeticFor(init, _, _, _) =>
      var w1 := if init.Some? then Quiet(rt.arithmetic(init.value, w).0, w) else w;
      MoreIterations(rt, c, [], w1, b, LoopState(0, 0, ""), more);
  }

  lemma MoreForSimple(rt: Runtime, action: nat, w: World, b: Budget, more: Budget)
    requires more.perLoop >= 0
    ensures Same(ExecuteSimple(rt, action, w, b), ExecuteSimple(rt, action, w, Richer(b, more)), more)
    decreases b.iterations, b.commands, Simple(action), 2
  {
    hide Execute;
    if b.commands > 0 {
      var b1 := b.(commands := b.commands - 1);
      var (expanded, name) := rt.expand(action, w);
      var w1 := Quiet(expanded, w);
      if name in w1.functions && b1.frames > 0 {
        var b2 := b1.(frames := b1.frames - 1);
        MoreBudget(rt, w1.functions[name], w1, b2, more);
        assert Richer(b, more).(commands := Richer(b, more).commands - 1, frames := Richer(b, more).frames - 1) == Richer(b2, more);
      }
    }
  }

  lemma MoreAfterLeft(rt: Runtime, c: Command, w: World, b: Budget, left: Completion, more: Budget)
    requires more.perLoop >= 0
    requires c.List?
    ensures Same(AfterLeft(rt, c, w, b, left), AfterLeft(rt, c, w, Richer(b, more), left), more)
    decreases b.iterations, b.commands, c, 1
  {
    hide Execute;
    if c.right.Some? { MoreBudget(rt, c.right.value, w.(lastExitCode := left.exitCode), b, more); }
  }

  lemma MoreAfterCondition(rt: Runtime, c: Command, w: World, b: Budget, condition: Completion, more: Budget)
    requires more.perLoop >= 0
    requires c.If?
    ensures Same(AfterCondition(rt, c, w, b, condition), AfterCondition(rt, c, w, Richer(b, more), condition), more)
    decreases b.iterations, b.commands, c, 1
  {
    hide Execute;
    var branch := if condition.exitCode == 0 then Some(c.thenDo) else c.elseDo;
    if branch.Some? { MoreBudget(rt, branch.value, w.(lastExitCode := condition.exitCode), b, more); }
  }

  lemma MoreIterations(rt: Runtime, c: Command, items: seq<string>, w: World, b: Budget, s: LoopState, more: Budget)
    requires more.perLoop >= 0
    requires IsLoop(c)
    ensures Same(NextIteration(rt, c, items, w, b, s), NextIteration(rt, c, items, w, Richer(b, more), s), more)
    decreases b.iterations, b.commands, c, 0
  {
    hide Execute, RunBody;
    if !(c.For? && s.iteration >= |items|) && !(s.iteration + 1 > b.perLoop || b.iterations == 0) {
      var b1, s1 := b.(iterations := b.iterations - 1), s.(iteration := s.iteration + 1);
      var rich := Richer(b, more);
      assert rich.(iterations := rich.iterations - 1) == Richer(b1, more);
      match c
      case While(condition, _, negate) =>
        var o := Execute(rt, condition, w, b1);
        MoreBudget(rt, condition, w, b1, more);
        if o.Done? && (o.completion.exitCode == 0) != negate {
          var w1 := o.world.(lastExitCode := o.completion.exitCode);
          MoreBody(rt, c, items, w1, o.budget, s1.(stdout := s1.stdout + o.completion.stdout), more);
        }
      case For(variable, _, _) =>
        MoreBody(rt, c, items, w.(variables := w.variables[variable := items[s.iteration]]), b1, s1, more);
      case ArithmeticFor(_, test, _, _) =>
        if test.None? {
          MoreBody(rt, c, items, w, b1, s1, more);
        } else {
          MoreBody(rt, c, items, Quiet(rt.arithmetic(test.value, w).0, w), b1, s1, more);
        }
    }
  }

  lemma MoreBody(rt: Runtime, c: Command, items: seq<string>, w: World, b: Budget, s: LoopState, more: Budget)
    requires more.perLoop >= 0
    requires IsLoop(c)
    ensures Same(RunBody(rt, c, items, w, b, s), RunBody(rt, c, items, w, Richer(b, more), s), more)
    decreases b.iterations, b.commands, c, 2
  {
    hide Execute, NextIteration;
    var o := Execute(rt, c.body, w, b);
    MoreBudget(rt, c.body, w, b, more);
    if o.Done? && !LoopFlow(o.completion.flow).0 {
      var w1 := o.world.(lastExitCode := o.completion.exitCode);
      var w2 := if c.ArithmeticFor? && c.update.Some? then Quiet(rt.arithmetic(c.update.value, w1).0, w1) else w1;
      MoreIterations(rt, c, items, w2, o.budget, LoopState(s.iteration, o.completion.exitCode, s.stdout + o.completion.stdout), more);
    }
  }

  // ---- all output is kept ----

  /** What was printed since `start` is the outcome's output. */
  ghost predicate Logged(start: string, o: Outcome) {
    o.Done? ==> o.world.log == start + o.completion.stdout
  }

  /** A command's output is what its parts printed while it ran, each once and in order. */
  lemma {:induction false} OutputIsKept(rt: Runtime, c: Command, w: World, b: Budget)
    ensures Logged(w.log, Execute(rt, c, w, b))
    decreases b.iterations, b.commands, c, 3
  {
    hide AfterLeft, AfterCondition, NextIteration, ExecuteSimple;
    match c
    case Simple(action) => KeptBySimple(rt, action, w, b);
    case Assignments(_) => assert w.log + "" == w.log;
    case List(left, _, _) =>
      var o := Execute(rt, left, w, b);
      OutputIsKept(rt, left, w, b);
      if o.Done? { KeptAfterLeft(rt, c, o.world, o.budget, o.completion, w.log); }
    case If(condition, _, _) =>
      var o := Execute(rt, condition, w, b);
      OutputIsKept(rt, condition, w, b);
      if o.Done? { KeptAfterCondition(rt, c, o.world, o.budget, o.completion, w.log); }
    case While(_, _, _) =>
      assert w.log + "" == w.log;
      KeptByIterations(rt, c, [], w, b, LoopState(0, 0, ""), w.log);
    case For(_, items, _) =>
      var (w1, list) := rt.items(items, w);
      assert w.log + "" == w.log;
      KeptByIterations(rt, c, list, Quiet(w1, w), b, LoopState(0, 0, ""), w.log);
    case ArithmeticFor(init, _, _, _) =>
      var w1 := if init.Some? then Quiet(rt.arithmetic(init.value, w).0, w) else w;
      assert w.log + "" == w.log;
      KeptByIterations(rt, c, [], w1, b, LoopState(0, 0, ""), w.log);
  }

  lemma KeptBySimple(rt: Runtime, action: nat, w: World, b: Budget)
    ensures Logged(w.log, ExecuteSimple(rt, action, w, b))
    decreases b.iterations, b.commands, Simple(action), 2
  {
    hide Execute;
    if b.commands > 0 {
      var b1 := b.(commands := b.commands - 1);
      var (expanded, name) := rt.expand(action, w);
      var w1 := Quiet(expanded, w);
      if name in w1.functions && b1.frames > 0 {
        OutputIsKept(rt, w1.functions[name], w1, b1.(frames := b1.frames - 1));
      }
    }
  }

  lemma Joins(start: string, a: string, b: string)
    ensures start + a + b == start + (a + b)
  {}

  lemma KeptAfterLeft(rt: Runtime, c: Command, w: World, b: Budget, left: Completion, start: string)
    requires c.List? && w.log == start + left.stdout
    ensures Logged(start, AfterLeft(rt, c, w, b, left))
    decreases b.iterations, b.commands, c, 1
  {
    hide Execute;
    if c.right.Some? {
      var w1 := w.(lastExitCode := left.exitCode);
      OutputIsKept(rt, c.right.value, w1, b);
      var o := Execute(rt, c.right.value, w1, b);
      if o.Done? { Joins(start, left.stdout, o.completion.stdout); }
    }
  }

  lemma KeptAfterCondition(rt: Runtime, c: Command, w: World, b: Budget, condition: Completion, start: string)
    requires c.If? && w.log == start + condition.stdout
    ensures Logged(start, AfterCondition(rt, c, w, b, condition))
    decreases b.iterations, b.commands, c, 1
  {
    hide Execute;
    var branch := if condition.exitCode == 0 then Some(c.thenDo) else c.elseDo;
    if branch.Some? {
      var w1 := w.(lastExitCode := condition.exitCode);
      OutputIsKept(rt, branch.value, w1, b);
      var o := Execute(rt, branch.value, w1, b);
      if o.Done? { Joins(start, condition.stdout, o.completion.stdout); }
    }
  }

  lemma KeptByIterations(rt: Runtime, c: Command, items: seq<string>, w: World, b: Budget, s: LoopState, start: string)
    requires IsLoop(c) && w.log == start + s.stdout
    ensures Logged(start, NextIteration(rt, c, items, w, b, s))
    decreases b.iterations, b.commands, c, 0
  {
    hide Execute, RunBody;
    if !(c.For? && s.iteration >= |items|) && !(s.iteration + 1 > b.perLoop || b.iterations == 0) {
      var b1, s1 := b.(iterations := b.iterations - 1), s.(iteration := s.iteration + 1);
      match c
      case While(condition, _, negate) =>
        var o := Execute(rt, condition, w, b1);
        OutputIsKept(rt, condition, w, b1);
        if o.Done? {
          Joins(start, s.stdout, o.completion.stdout);
          var w1 := o.world.(lastExitCode := o.completion.exitCode);
          KeptByBody(rt, c, items, w1, o.budget, s1.(stdout := s1.stdout + o.completion.stdout), start);
        }
      case For(variable, _, _) =>
        KeptByBody(rt, c, items, w.(variables := w.variables[variable := items[s.iteration]]), b1, s1, start);
      case ArithmeticFor(_, test, _, _) =>
        if test.None? {
          KeptByBody(rt, c, items, w, b1, s1, start);
        } else {
          KeptByBody(rt, c, items, Quiet(rt.arithmetic(test.value, w).0, w), b1, s1, start);
        }
    }
  }

  lemma KeptByBody(rt: Runtime, c: Command, items: seq<string>, w: World, b: Budget, s: LoopState, start: string)
    requires IsLoop(c) && w.log == start + s.stdout
    ensures Logged(start, RunBody(rt, c, items, w, b, s))
    decreases b.iterations, b.commands, c, 2
  {
    hide Execute, NextIteration;
    var o := Execute(rt, c.body, w, b);
    OutputIsKept(rt, c.body, w, b);
    if o.Done? {
      Joins(start, s.stdout, o.completion.stdout);
      var w1 := o.world.(lastExitCode := o.completion.exitCode);
      var w2 := if c.ArithmeticFor? && c.update.Some? then Quiet(rt.arithmetic(c.update.value, w1).0, w1) else w1;
      KeptByIterations(rt, c, items, w2, o.budget, LoopState(s.iteration, o.completion.exitCode, s.stdout + o.completion.stdout), start);
    }
  }
}
