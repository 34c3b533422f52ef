/**
 What the guard on programs comes to: a body is guarded, with no jump outside a loop, exactly when every
 `break` and `continue` its compilation emits, in each of the places a cleanup is emitted at, goes to
 the loop it belongs to and leaves the stack at the height that loop has.
 */
module PythonGuard {
  import opened PythonSource
  import opened PythonLayout
  import opened PythonStatements

  /**
   A jump emitted here belongs to loop number `own` of those around it. It goes to the innermost one, and
   drops the return values that wait now; so it lands right when that is its own loop, and none of them
   was waiting when the loop began.
   */
  predicate AtOwnLoop(starts: seq<nat>, own: nat) {
    starts != [] && own == |starts| && starts[|starts| - 1] == 0
  }

  /**
   All jumps that compiling `s` in `c` emits land right. `starts` has the number of return values that
   were waiting when each loop began; `own` is the loop that the free jumps of `s` belong to.
   */
  predicate Lands(s: Stmt, c: Context, starts: seq<nat>, own: nat)
    decreases Weight(s) + FinsWeight(c.fins), 1
  {
    match s
    case Seq(head, tail) => Lands(head, c, starts, own) && Lands(tail, c, starts, own)
    case If(_, body, orElse) => Lands(body, c, starts, own) && Lands(orElse, c, starts, own)
    case While(_, body, orElse) => BodyLands(body, c, false, starts) && Lands(orElse, c, starts, own)
    case For(_, _, body, orElse) => BodyLands(body, c, true, starts) && Lands(orElse, c, starts, own)
    case Break => AtOwnLoop(starts, own) && UnwindLands(c, false, starts)
    case Continue => AtOwnLoop(starts, own) && UnwindLands(c, false, starts)
    case Return(_) => UnwindLands(c.(pending := c.pending + 1), true, starts)
    case TryFinally(_, _) => TryLands(s, c, starts, own)
    case _ => true
  }

  predicate BodyLands(body: Stmt, c: Context, hasIterator: bool, starts: seq<nat>)
    decreases Weight(body) + FinsWeight(c.fins), 2
  {
    Lands(body, c.InLoop(hasIterator), starts + [c.pending], |starts| + 1)
  }

  predicate TryLands(s: Stmt, c: Context, starts: seq<nat>, own: nat)
    requires s.TryFinally?
    decreases Weight(s) + FinsWeight(c.fins), 0
  {
    FinsWeightUnder(c.fins, Cleanup(s.cleanup, |c.iterators|));
    FinsWeightUnder(c.fins, Handler(|c.iterators|));
    && Lands(s.body, c.Under(Cleanup(s.cleanup, |c.iterators|)), starts, own)
    && Lands(s.cleanup, c, starts, own)
    && Lands(s.cleanup, c.Under(Handler(|c.iterators|)), starts, own)
  }

  /** And so do those in the cleanups that a jump (or, for `all`, a return) runs inline. */
  predicate UnwindLands(c: Context, all: bool, starts: seq<nat>)
    decreases FinsWeight(c.fins), 2
  {
    c.MustRun(all) ==>
      && (c.Innermost().Cleanup? ==> Lands(c.Innermost().body, c.Outer(), starts, c.Innermost().depth))
      && UnwindLands(c.Outer(), all, starts)
  }

  // ---- guarded programs land right ----

  lemma {:induction false} GuardedLands(s: Stmt, c: Context, starts: seq<nat>, own: nat)
    requires Ready(s, c) && |starts| == |c.iterators|
    requires NeedsLoop(s, c) ==> AtOwnLoop(starts, |starts|)
    requires FreeJump(s) ==> own == |starts|
    ensures Lands(s, c, starts, own)
    decreases Weight(s) + FinsWeight(c.fins), 3
  {
    hide Ready, NeedsLoop, FinsReady, SomeFree, UnwindLands, Crossable;
    JumpsNeedLoops(s, c);
    match s
    case Seq(head, tail) =>
      ReadyPart(s, head, c);
      ReadyPart(s, tail, c);
      GuardedLands(head, c, starts, own);
      GuardedLands(tail, c, starts, own);
    case If(_, body, orElse) =>
      ReadyPart(s, body, c);
      ReadyPart(s, orElse, c);
      GuardedLands(body, c, starts, own);
      GuardedLands(orElse, c, starts, own);
    case While(_, body, orElse) =>
      ReadyInLoop(s, c, false);
      ReadyPart(s, orElse, c);
      GuardedLands(body, c.InLoop(false), starts + [c.pending], |starts| + 1);
      GuardedLands(orElse, c, starts, own);
    case For(_, _, body, orElse) =>
      ReadyInLoop(s, c, true);
      ReadyPart(s, orElse, c);
      GuardedLands(body, c.InLoop(true), starts + [c.pending], |starts| + 1);
      GuardedLands(orElse, c, starts, own);
    case Break => JumpUnwinds(s, c, starts);
    case Continue => JumpUnwinds(s, c, starts);
    case Return(_) =>
      ReturnReady(s, c);
      GuardedUnwinds(c.(pending := c.pending + 1), true, starts);
    case TryFinally(body, cleanup) =>
      FinsWeightUnder(c.fins, Cleanup(cleanup, |c.iterators|));
      FinsWeightUnder(c.fins, Handler(|c.iterators|));
      ReadyUnder(s, c, body, Cleanup(cleanup, |c.iterators|));
      ReadyUnder(s, c, cleanup, Handler(|c.iterators|));
      ReadyPart(s, cleanup, c);
      GuardedLands(body, c.Under(Cleanup(cleanup, |c.iterators|)), starts, own);
      GuardedLands(cleanup, c, starts, own);
      GuardedLands(cleanup, c.Under(Handler(|c.iterators|)), starts, own);
    case _ =>
  }

  lemma JumpsNeedLoops(s: Stmt, c: Context)
    ensures FreeJump(s) || (Returns(s) && SomeFree(c.fins)) ==> NeedsLoop(s, c)
  {
    hide SomeFree;
  }

  /** What a return knows about the cleanups it runs, as they are emitted with its value waiting. */
  ghost predicate CanRun(c: Context, all: bool) {
    && FinsReady(c)
    && (all ==> c.pending > 0 && forall i :: 0 <= i < |c.fins| ==> Crossable(Return(Const(NoneValue)), c.fins[i], |c.iterators|))
  }

  lemma ReturnReady(s: Stmt, c: Context)
    requires s.Return? && Ready(s, c)
    ensures CanRun(c.(pending := c.pending + 1), true)
  {
    var d := c.(pending := c.pending + 1);
    forall i | 0 <= i < |d.fins| ensures FinReady(d.fins[i], d) && Crossable(Return(Const(NoneValue)), d.fins[i], |d.iterators|) {
      assert FinReady(c.fins[i], c) && Crossable(s, c.fins[i], |c.iterators|);
    }
  }

  lemma {:induction false} JumpUnwinds(s: Stmt, c: Context, starts: seq<nat>)
    requires (s.Break? || s.Continue?) && Ready(s, c) && |starts| == |c.iterators| && AtOwnLoop(starts, |starts|)
    ensures UnwindLands(c, false, starts)
    decreases FinsWeight(c.fins), 5
  {
    hide SomeFree, UnwindLands, FinsReady;
    GuardedUnwinds(c, false, starts);
  }

  lemma {:induction false} GuardedUnwinds(c: Context, all: bool, starts: seq<nat>)
    requires CanRun(c, all) && |starts| == |c.iterators|
    requires !all || SomeFree(c.fins) ==> AtOwnLoop(starts, |starts|)
    ensures UnwindLands(c, all, starts)
    decreases FinsWeight(c.fins), 4
  {
    hide FinsReady, SomeFree, Ready, NeedsLoop, Lands;
    if c.MustRun(all) {
      OuterCanRun(c, all);
      GuardedUnwinds(c.Outer(), all, starts);
      if c.Innermost().Cleanup? {
        ReadyCleanup(c, all);
        assert c.Innermost() == c.fins[|c.fins| - 1];
        GuardedLands(c.Innermost().body, c.Outer(), starts, c.Innermost().depth);
      }
    }
  }

  lemma OuterCanRun(c: Context, all: bool)
    requires CanRun(c, all) && c.fins != []
    ensures CanRun(c.Outer(), all)
    ensures SomeFree(c.Outer().fins) ==> SomeFree(c.fins)
  {
    var d := c.Outer();
    forall i | 0 <= i < |d.fins| ensures FinReady(d.fins[i], d) && (all ==> Crossable(Return(Const(NoneValue)), d.fins[i], |d.iterators|)) {
      assert FinReady(c.fins[i], c);
    }
    SomeFreeOuter(c.fins);
  }

  // ---- programs that land right are guarded ----

  lemma {:induction false} NoFreeJump(s: Stmt, c: Context, starts: seq<nat>, own: nat)
    requires Lands(s, c, starts, own) && !AtOwnLoop(starts, own)
    ensures !FreeJump(s)
    decreases s
  {
    match s
    case Seq(head, tail) => NoFreeJump(head, c, starts, own); NoFreeJump(tail, c, starts, own);
    case If(_, body, orElse) => NoFreeJump(body, c, starts, own); NoFreeJump(orElse, c, starts, own);
    case While(_, _, orElse) => NoFreeJump(orElse, c, starts, own);
    case For(_, _, _, orElse) => NoFreeJump(orElse, c, starts, own);
    case TryFinally(body, cleanup) =>
      NoFreeJump(body, c.Under(Cleanup(cleanup, |c.iterators|)), starts, own);
      NoFreeJump(cleanup, c, starts, own);
    case _ =>
  }

  lemma {:induction false} NoLoopJump(s: Stmt, c: Context, starts: seq<nat>, own: nat)
    requires Lands(s, c, starts, own) && c.pending > 0
    ensures !LoopJump(s)
    decreases s
  {
    match s
    case Seq(head, tail) => NoLoopJump(head, c, starts, own); NoLoopJump(tail, c, starts, own);
    case If(_, body, orElse) => NoLoopJump(body, c, starts, own); NoLoopJump(orElse, c, starts, own);
    case While(_, body, orElse) =>
      NoFreeJump(body, c.InLoop(false), starts + [c.pending], |starts| + 1);
      NoLoopJump(body, c.InLoop(false), starts + [c.pending], |starts| + 1);
      NoLoopJump(orElse, c, starts, own);
    case For(_, _, body, orElse) =>
      NoFreeJump(body, c.InLoop(true), starts + [c.pending], |starts| + 1);
      NoLoopJump(body, c.InLoop(true), starts + [c.pending], |starts| + 1);
      NoLoopJump(orElse, c, starts, own);
    case TryFinally(body, cleanup) =>
      NoLoopJump(body, c.Under(Cleanup(cleanup, |c.iterators|)), starts, own);
      NoLoopJump(cleanup, c, starts, own);
    case _ =>
  }

  lemma {:induction false} UnwindReaches(c: Context, starts: seq<nat>, k: nat)
    requires UnwindLands(c, true, starts) && k < |c.fins| && c.fins[k].Cleanup?
    ensures Lands(c.fins[k].body, c.(fins := c.fins[..k]), starts, c.fins[k].depth)
    decreases |c.fins|
  {
    hide Lands;
    if k < |c.fins| - 1 {
      UnwindReaches(c.Outer(), starts, k);
      assert c.Outer().fins[..k] == c.fins[..k];
    }
  }

  /** Somewhere a return in `s` has the pending cleanup emitted; further in than `s`, if that return is in a loop. */
  lemma {:induction false} CrossedByReturn(s: Stmt, c: Context, starts: seq<nat>, own: nat, k: nat, inLoop: bool) returns (d: Context, ds: seq<nat>)
    requires Lands(s, c, starts, own) && k < |c.fins| && c.fins[k].Cleanup?
    requires if inLoop then LoopReturn(s) else Returns(s)
    ensures d.pending > 0 && Lands(c.fins[k].body, d, ds, c.fins[k].depth)
    ensures if inLoop then |ds| > |starts| else |ds| >= |starts|
    decreases s
  {
    hide UnwindLands;
    match s
    case Seq(head, tail) =>
      var first := if inLoop then LoopReturn(head) else Returns(head);
      d, ds := CrossedByReturn(if first then head else tail, c, starts, own, k, inLoop);
    case If(_, body, orElse) =>
      var first := if inLoop then LoopReturn(body) else Returns(body);
      d, ds := CrossedByReturn(if first then body else orElse, c, starts, own, k, inLoop);
    case While(_, body, orElse) =>
      if Returns(body) { d, ds := CrossedByReturn(body, c.InLoop(false), starts + [c.pending], |starts| + 1, k, false); }
      else { d, ds := CrossedByReturn(orElse, c, starts, own, k, inLoop); }
    case For(_, _, body, orElse) =>
      if Returns(body) { d, ds := CrossedByReturn(body, c.InLoop(true), starts + [c.pending], |starts| + 1, k, false); }
      else { d, ds := CrossedByReturn(orElse, c, starts, own, k, inLoop); }
    case Return(_) =>
      UnwindReaches(c.(pending := c.pending + 1), starts, k);
      d, ds := c.(pending := c.pending + 1, fins := c.fins[..k]), starts;
    case TryFinally(body, cleanup) =>
      var first := if inLoop then LoopReturn(body) else Returns(body);
      if first { d, ds := CrossedByReturn(body, c.Under(Cleanup(cleanup, |c.iterators|)), starts, own, k, inLoop); }
      else { d, ds := CrossedByReturn(cleanup, c, starts, own, k, inLoop); }
  }

  lemma {:induction false} LandsGuarded(s: Stmt, c: Context, starts: seq<nat>, own: nat)
    requires Lands(s, c, starts, own) && |starts| == |c.iterators|
    ensures Guarded(s)
    decreases s
  {
    match s
    case Seq(head, tail) => LandsGuarded(head, c, starts, own); LandsGuarded(tail, c, starts, own);
    case If(_, body, orElse) => LandsGuarded(body, c, starts, own); LandsGuarded(orElse, c, starts, own);
    case While(_, body, orElse) =>
      LandsGuarded(body, c.InLoop(false), starts + [c.pending], |starts| + 1);
      LandsGuarded(orElse, c, starts, own);
    case For(_, _, body, orElse) =>
      LandsGuarded(body, c.InLoop(true), starts + [c.pending], |starts| + 1);
      LandsGuarded(orElse, c, starts, own);
    case TryFinally(body, cleanup) => TryGuarded(s, c, starts, own);
    case _ =>
  }

  lemma {:induction false} TryGuarded(s: Stmt, c: Context, starts: seq<nat>, own: nat)
    requires s.TryFinally? && Lands(s, c, starts, own) && |starts| == |c.iterators|
    ensures Guarded(s)
    decreases s, 0
  {
    hide LoopJump, FreeJump, Returns, LoopReturn;
    var under := c.Under(Cleanup(s.cleanup, |c.iterators|));
    LandsGuarded(s.body, under, starts, own);
    LandsGuarded(s.cleanup, c, starts, own);
    if Returns(s.body) {
      var d, ds := CrossedByReturn(s.body, under, starts, own, |c.fins|, false);
      NoLoopJump(s.cleanup, d, ds, |starts|);
    }
    if LoopReturn(s.body) {
      var d, ds := CrossedByReturn(s.body, under, starts, own, |c.fins|, true);
      NoFreeJump(s.cleanup, d, ds, |starts|);
    }
  }

  /** The guard is no more than what the emitted jumps need. */
  lemma GuardedExactly(s: Stmt)
    ensures Guarded(s) && !FreeJump(s) <==> Lands(s, TOP, [], 0)
  {
    hide Guarded, FreeJump, Lands;
    if Guarded(s) && !FreeJump(s) {
      GuardedLands(s, TOP, [], 0);
    }
    if Lands(s, TOP, [], 0) {
      LandsGuarded(s, TOP, [], 0);
      NoFreeJump(s, TOP, [], 0);
    }
  }
}
