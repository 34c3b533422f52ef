/**
 A shell's stack of scopes, and its forks. A script with subshells, run on scopes that borrow,
 sees and leaves exactly what it would if every fork copied everything.
 */
module ShellSessions {
  import opened Wrappers
  import opened ShellVariables
  import opened ShellScopes

  // ---- what the scopes mean ----

  type Stack = seq<Bindings>

  /** The innermost scope below `top` that defines `name`, or -1. */
  ghost function Defining(view: Stack, name: string, top: nat): (i: int)
    requires top <= |view|
    ensures -1 <= i < top && (i >= 0 ==> name in view[i])
    ensures forall j: nat :: i < j < top ==> name !in view[j]
  {
    if top == 0 then -1 else if name in view[top - 1] then top - 1 else Defining(view, name, top - 1)
  }

  ghost function ReadIn(view: Stack, name: string): Option<Contents> {
    var i := Defining(view, name, |view|);
    if i < 0 then None else Some(view[i][name])
  }

  function NoAttributes(): Attributes {
    Attributes(false, false, false, false, false, false, false)
  }

  ghost function Bound(view: Stack, i: nat, name: string, c: Contents): Stack
    requires i < |view|
  {
    view[i := view[i][name := c]]
  }

  /** An assignment: to the scope that defines the name, or globally; None when the variable is readonly. */
  ghost function Assigned(view: Stack, l: Letters, allExport: bool, name: string, value: string): Option<Stack>
    requires view != []
  {
    var i := Defining(view, name, |view|);
    if i < 0 then
      Some(Bound(view, 0, name, WithScalar(Stored(NoAttributes(), map[], map[]), l, value).(attributes := NoAttributes().(exported := allExport))))
    else if view[i][name].attributes.readOnly then None
    else Some(Bound(view, i, name, WithScalar(view[i][name], l, value)))
  }

  ghost function AssignedLocally(view: Stack, l: Letters, name: string, value: Option<string>): Stack
    requires view != []
  {
    var top := |view| - 1;
    var before := if name in view[top] then view[top][name] else Stored(NoAttributes(), map[], map[]);
    Bound(view, top, name, if value.Some? then WithScalar(before, l, value.value) else before)
  }

  // ---- references ----

  function Text(c: Option<string>): string {
    match c
    case Some(value) => value
    case None => ""
  }

  /** What a variable refers to; one that holds its own name is an ordinary variable. */
  ghost function Referent(view: Stack, name: string): Option<string> {
    match ReadIn(view, name)
    case None => None
    case Some(c) => if c.attributes.nameRef && Text(First(c)) != name then Some(Text(First(c))) else None
  }

  function BracketAt(s: string): (i: int)
    ensures -1 <= i < |s|
  {
    if s == "" then -1 else if s[0] == '[' then 0 else var i := BracketAt(s[1..]); if i < 0 then -1 else i + 1
  }

  /** The name a reference leads to: a lookup leaves a subscript off, `unset` does not. */
  function Onward(target: string, cut: bool): string {
    if cut && BracketAt(target) > 0 then target[..BracketAt(target)] else target
  }

  /** The variable at the end of the references from a name; None when they come back to themselves. */
  ghost function Followed(view: Stack, name: string, cut: bool, seen: set<string>): Option<string>
    decreases |AllNames(view) - seen|
  {
    match Referent(view, name)
    case None => Some(name)
    case Some(target) =>
      if name in seen then None else
      OneMoreSeen(view, name, seen);
      Followed(view, Onward(target, cut), cut, seen + {name})
  }

  lemma OneMoreSeen(view: Stack, name: string, seen: set<string>)
    requires ReadIn(view, name).Some? && name !in seen
    ensures |AllNames(view) - (seen + {name})| < |AllNames(view) - seen|
  {
    InAllNames(view, name);
    var before, after := AllNames(view) - seen, AllNames(view) - (seen + {name});
    assert name in before && after == before - {name};
  }

  /** The references from a name end within so many hops. */
  ghost predicate Ends(view: Stack, name: string, cut: bool, hops: nat)
    decreases hops
  {
    var next := Referent(view, name);
    next.None? || (hops > 0 && Ends(view, Onward(next.value, cut), cut, hops - 1))
  }

  lemma {:induction false} EndsLater(view: Stack, name: string, cut: bool, hops: nat)
    requires Ends(view, name, cut, hops)
    ensures Ends(view, name, cut, hops + 1)
    decreases hops
  {
    var next := Referent(view, name);
    if next.Some? { EndsLater(view, Onward(next.value, cut), cut, hops - 1); }
  }

  lemma {:induction false} FollowedEnds(view: Stack, name: string, cut: bool, seen: set<string>)
    requires Followed(view, name, cut, seen).Some?
    ensures exists hops: nat :: Ends(view, name, cut, hops)
    decreases |AllNames(view) - seen|
  {
    var next := Referent(view, name);
    if next.None? {
      assert Ends(view, name, cut, 0);
    } else {
      OneMoreSeen(view, name, seen);
      FollowedEnds(view, Onward(next.value, cut), cut, seen + {name});
      var hops: nat :| Ends(view, Onward(next.value, cut), cut, hops);
      assert Ends(view, name, cut, hops + 1);
    }
  }

  lemma {:induction false} EndsFollowed(view: Stack, name: string, cut: bool, seen: set<string>, hops: nat)
    requires Ends(view, name, cut, hops) && (hops > 0 ==> !Ends(view, name, cut, hops - 1))
    requires forall other: string :: other in seen ==> !Ends(view, other, cut, hops)
    ensures Followed(view, name, cut, seen).Some?
    decreases hops
  {
    var next := Referent(view, name);
    if next.Some? {
      forall other: string | other in seen + {name} ensures !Ends(view, other, cut, hops - 1) {
        if Ends(view, other, cut, hops - 1) { EndsLater(view, other, cut, hops - 1); }
      }
      EndsFollowed(view, Onward(next.value, cut), cut, seen + {name}, hops - 1);
    }
  }

  lemma {:induction false} FewestHops(view: Stack, name: string, cut: bool, hops: nat) returns (fewest: nat)
    requires Ends(view, name, cut, hops)
    ensures Ends(view, name, cut, fewest) && (fewest > 0 ==> !Ends(view, name, cut, fewest - 1))
    decreases hops
  {
    fewest := hops;
    if hops > 0 && Ends(view, name, cut, hops - 1) { fewest := FewestHops(view, name, cut, hops - 1); }
  }

  /** A lookup returns if and only if the references end after some number of hops. */
  lemma LookupReturnsExactly(view: Stack, name: string, cut: bool)
    ensures Followed(view, name, cut, {}).Some? <==> exists hops: nat :: Ends(view, name, cut, hops)
  {
    hide Followed, Ends;
    if Followed(view, name, cut, {}).Some? { FollowedEnds(view, name, cut, {}); }
    if hops: nat :| Ends(view, name, cut, hops) {
      var fewest := FewestHops(view, name, cut, hops);
      EndsFollowed(view, name, cut, {}, fewest);
    }
  }

  /** Two references to each other: no lookup of either returns. */
  lemma RoundAndRound(view: Stack, a: string, b: string, cut: bool)
    requires Referent(view, a).Some? && Onward(Referent(view, a).value, cut) == b
    requires Referent(view, b).Some? && Onward(Referent(view, b).value, cut) == a
    ensures Followed(view, a, cut, {}) == None
  {
    if a != b { assert Followed(view, a, cut, {b, a}) == None; }
    assert {a} + {b} == {b, a} && {} + {a} == {a};
  }

  ghost function Target(view: Stack, name: string, cut: bool): Option<string> {
    Followed(view, name, cut, {})
  }

  /** Removal from the innermost scope that defines the name; None when the variable is readonly. */
  ghost function Removed(view: Stack, name: string): Option<Stack> {
    var i := Defining(view, name, |view|);
    if i < 0 then Some(view)
    else if view[i][name].attributes.readOnly then None
    else Some(view[i := view[i] - {name}])
  }

  /**
   A change to the variable that the name leads to. Where that is none, a new one takes the name itself: in the
   place of the reference, if the name is one.
   */
  ghost function Changed(view: Stack, l: Letters, name: string, target: string, change: Change): Stack
    requires view != []
  {
    var i, j := Defining(view, target, |view|), Defining(view, name, |view|);
    if i >= 0 then Bound(view, i, target, Altered(view[i][target], l, change))
    else Bound(view, if j >= 0 then j else 0, name, Altered(Stored(NoAttributes(), map[], map[]), l, change))
  }

  /** `local -n name=target`: a variable of the innermost scope becomes a reference. */
  ghost function Referred(view: Stack, l: Letters, name: string, target: string): Stack
    requires view != []
  {
    var top := |view| - 1;
    var before := if name in view[top] then view[top][name] else Stored(NoAttributes(), map[], map[]);
    Bound(view, top, name, Altered(before, l, Referring(target)))
  }

  // ---- scripts, and what they do when a fork copies everything ----

  datatype Step =
    | Get(name: string)
    | Assign(name: string, value: string)
    | AssignLocal(name: string, local: Option<string>)
    | Alter(name: string, change: Change)
    | Unset(name: string)
    | Refer(name: string, target: string)
    | List
    | EnterFunction
    | LeaveFunction
    | Subshell(body: seq<Step>)

  datatype Observation = Saw(value: Option<string>) | Done(ok: bool) | Listed(values: map<string, string>)

  ghost function ValueIn(view: Stack, name: string): Option<string> {
    match ReadIn(view, name)
    case None => None
    case Some(c) => Some(match First(c) case Some(value) => value case None => "")
  }

  /** The names defined in any scope. */
  ghost function AllNames(view: Stack): set<string> {
    if view == [] then {} else view[0].Keys + AllNames(view[1..])
  }

  /** Every name with the value of its innermost variable. */
  ghost function AllValues(view: Stack): map<string, string> {
    map name | name in AllNames(view) && ValueIn(view, name).Some? :: ValueIn(view, name).value
  }

  /** What is left and seen when the script is done; None when one of its lookups never returns. */
  ghost function Run(view: Stack, l: Letters, allExport: bool, script: seq<Step>): (r: Option<(Stack, seq<Observation>)>)
    requires view != []
    ensures r.Some? ==> r.value.0 != []
    decreases script
  {
    if script == [] then Some((view, [])) else
    var first := RunOne(view, l, allExport, script[0]);
    if first.None? then None else
    var rest := Run(first.value.0, l, allExport, script[1..]);
    if rest.None? then None else Some((rest.value.0, first.value.1 + rest.value.1))
  }

  /** A subshell works on a copy of its own, and leaves nothing behind but what it saw. */
  ghost function RunOne(view: Stack, l: Letters, allExport: bool, step: Step): (r: Option<(Stack, seq<Observation>)>)
    requires view != []
    ensures r.Some? ==> r.value.0 != []
    decreases step
  {
    match step
    case Get(name) =>
      var target := Target(view, name, true);
      if target.None? then None else Some((view, [Saw(ValueIn(view, target.value))]))
    case Assign(name, value) =>
      var after := Assigned(view, l, allExport, name, value);
      Some((if after.Some? then after.value else view, [Done(after.Some?)]))
    case AssignLocal(name, value) => Some((AssignedLocally(view, l, name, value), []))
    case Alter(name, change) =>
      var target := Target(view, name, true);
      if target.None? then None else Some((Changed(view, l, name, target.value, change), []))
    case Unset(name) =>
      var target := Target(view, name, false);
      if target.None? then None else
      var after := Removed(view, target.value);
      Some((if after.Some? then after.value else view, [Done(after.Some?)]))
    case Refer(name, target) => Some((Referred(view, l, name, target), []))
    case List => Some((view, [Listed(AllValues(view))]))
    case EnterFunction => Some((view + [map[]], []))
    case LeaveFunction => Some((if |view| > 1 then view[..|view| - 1] else view, []))
    case Subshell(body) =>
      var inner := Run(view, l, allExport, body);
      if inner.None? then None else Some((view, inner.value.1))
  }

  lemma {:induction false} InAllNames(view: Stack, name: string)
    ensures name in AllNames(view) <==> exists i: nat :: i < |view| && name in view[i]
  {
    if view != [] {
      InAllNames(view[1..], name);
      if i: nat :| i < |view| && name in view[i] {
        if i > 0 { assert view[1..][i - 1] == view[i]; }
      }
      if i: nat :| i < |view[1..]| && name in view[1..][i] { assert view[i + 1] == view[1..][i]; }
    }
  }

  lemma NamesIn(view: Stack, names: set<string>)
    requires forall name: string :: name in names <==> ReadIn(view, name).Some?
    ensures names == AllNames(view)
  {
    forall name: string ensures name in names <==> name in AllNames(view) {
      InAllNames(view, name);
      if i: nat :| i < |view| && name in view[i] {
        assert ReadIn(view, name).Some?;
      }
    }
  }

  /** A step, and those of a subshell, that make no reference. */
  predicate MakesNoReference(step: Step) {
    match step
    case Refer(_, _) => false
    case Alter(_, change) => !change.Referring?
    case Subshell(body) => forall k :: 0 <= k < |body| ==> MakesNoReference(body[k])
    case _ => true
  }

  /** Without references every lookup returns, and a step that makes none leaves none. */
  lemma {:induction false} StayPlain(view: Stack, l: Letters, allExport: bool, step: Step)
    requires view != [] && Plain(view) && MakesNoReference(step)
    ensures RunOne(view, l, allExport, step).Some? && Plain(RunOne(view, l, allExport, step).value.0)
    decreases step
  {
    hide Plain, Defining, Altered, WithScalar, Run, Bound, ReadIn, Followed;
    var empty := Stored(NoAttributes(), map[], map[]);
    match step
    case Get(name) => PlainTarget(view, name, true);
    case Assign(name, value) =>
      var i := Defining(view, name, |view|);
      if i < 0 {
        var c := WithScalar(empty, l, value).(attributes := NoAttributes().(exported := allExport));
        BoundPlain(view, 0, name, c);
      } else {
        PlainIn(view, i, name);
        ScalarPlain(view[i][name], l, value);
        BoundPlain(view, i, name, WithScalar(view[i][name], l, value));
      }
    case AssignLocal(name, value) =>
      var top := |view| - 1;
      var before := if name in view[top] then view[top][name] else empty;
      if name in view[top] { PlainIn(view, top, name); }
      if value.Some? { ScalarPlain(before, l, value.value); }
      BoundPlain(view, top, name, if value.Some? then WithScalar(before, l, value.value) else before);
    case Alter(name, change) =>
      PlainTarget(view, name, true);
      var i := Defining(view, name, |view|);
      var before := if i < 0 then empty else view[i][name];
      if i >= 0 { PlainIn(view, i, name); }
      AlteredPlain(before, l, change);
      BoundPlain(view, if i < 0 then 0 else i, name, Altered(before, l, change));
    case Unset(name) =>
      PlainTarget(view, name, false);
      var i := Defining(view, name, |view|);
      if i >= 0 { RemovedPlain(view, i, name); }
    case List =>
    case EnterFunction => StackPlain(view);
    case LeaveFunction => StackPlain(view);
    case Subshell(body) => RunsPlain(view, l, allExport, body);
  }

  lemma {:induction false} RunsPlain(view: Stack, l: Letters, allExport: bool, script: seq<Step>)
    requires view != [] && Plain(view) && forall k :: 0 <= k < |script| ==> MakesNoReference(script[k])
    ensures Run(view, l, allExport, script).Some? && Plain(Run(view, l, allExport, script).value.0)
    decreases script
  {
    hide Plain, RunOne;
    if script != [] {
      StayPlain(view, l, allExport, script[0]);
      RunsPlain(RunOne(view, l, allExport, script[0]).value.0, l, allExport, script[1..]);
    }
  }

  lemma PlainTarget(view: Stack, name: string, cut: bool)
    requires Plain(view)
    ensures Target(view, name, cut) == Some(name)
  {
    hide ReadIn;
    PlainAt(view, name);
  }

  lemma PlainIn(view: Stack, i: nat, name: string)
    requires Plain(view) && i < |view| && name in view[i]
    ensures !view[i][name].attributes.nameRef
  {}

  lemma BoundPlain(view: Stack, i: nat, name: string, c: Contents)
    requires Plain(view) && i < |view| && !c.attributes.nameRef
    ensures Plain(Bound(view, i, name, c))
  {}

  lemma RemovedPlain(view: Stack, i: nat, name: string)
    requires Plain(view) && i < |view|
    ensures Plain(view[i := view[i] - {name}])
  {}

  lemma StackPlain(view: Stack)
    requires Plain(view) && view != []
    ensures Plain(view + [map[]]) && Plain(view[..|view| - 1])
  {}

  lemma ScalarPlain(c: Contents, l: Letters, value: string)
    ensures WithScalar(c, l, value).attributes == c.attributes
  {}

  lemma AlteredPlain(c: Contents, l: Letters, change: Change)
    requires !change.Referring?
    ensures Altered(c, l, change).attributes.nameRef == c.attributes.nameRef
  {}

  /** No variable forwards to another. */
  ghost predicate Plain(view: Stack) {
    forall i: nat, name: string :: i < |view| && name in view[i] ==> !view[i][name].attributes.nameRef
  }

  lemma PlainAt(view: Stack, name: string)
    requires Plain(view)
    ensures ReadIn(view, name).Some? ==> !ReadIn(view, name).value.attributes.nameRef
  {}

  lemma BoundSame(view: Stack, i: nat, name: string)
    requires i < |view| && name in view[i]
    ensures Bound(view, i, name, view[i][name]) == view
  {
    assert view[i][name := view[i][name]] == view[i];
  }

  lemma BoundTwice(view: Stack, i: nat, name: string, a: Contents, b: Contents)
    requires i < |view|
    ensures Bound(Bound(view, i, name, a), i, name, b) == Bound(view, i, name, b)
  {
    assert view[i][name := a][name := b] == view[i][name := b];
  }

  // ---- what references come to ----

  lemma BoundReads(view: Stack, i: nat, name: string, c: Contents, other: string)
    requires i < |view| && Defining(view, name, |view|) <= i
    ensures ReadIn(Bound(view, i, name, c), name) == Some(c)
    ensures other != name ==> ReadIn(Bound(view, i, name, c), other) == ReadIn(view, other)
  {
    var after := Bound(view, i, name, c);
    IsDefining(after, name, i);
    if other != name { SameDefining(view, after, other, |view|); }
  }

  lemma {:induction false} SameDefining(a: Stack, b: Stack, name: string, top: nat)
    requires |a| == |b| && top <= |a|
    requires forall j: nat :: j < |a| ==> (name in a[j] <==> name in b[j])
    ensures Defining(a, name, top) == Defining(b, name, top)
    decreases top
  {
    if top > 0 { SameDefining(a, b, name, top - 1); }
  }

  /**
   A change through references makes no variable where they lead to none: it reaches the variable at their end if
   and only if there is one, and otherwise the name itself becomes an ordinary variable.
   */
  lemma ChangeReachesExactly(view: Stack, l: Letters, name: string, target: string, change: Change)
    requires view != [] && Target(view, name, true) == Some(target) && target != name && !change.Referring?
    ensures var after := Changed(view, l, name, target, change);
            && (ReadIn(after, target).Some? <==> ReadIn(view, target).Some?)
            && (ReadIn(view, target).Some? ==> ReadIn(after, target) == Some(Altered(ReadIn(view, target).value, l, change))
                                               && ReadIn(after, name) == ReadIn(view, name))
            && (ReadIn(view, target).None? ==> ReadIn(after, name) == Some(Altered(Stored(NoAttributes(), map[], map[]), l, change))
                                               && Referent(after, name) == None)
  {
    hide Followed, Altered, Defining;
    var empty := Stored(NoAttributes(), map[], map[]);
    var i, j := Defining(view, target, |view|), Defining(view, name, |view|);
    if i >= 0 {
      BoundReads(view, i, target, Altered(view[i][target], l, change), name);
    } else {
      BoundReads(view, if j >= 0 then j else 0, name, Altered(empty, l, change), target);
      AlteredPlain(empty, l, change);
    }
  }

  /** An assignment of a name changes that name's own variable and no other, whatever it refers to. */
  lemma AssignmentStays(view: Stack, l: Letters, allExport: bool, name: string, value: string, other: string)
    requires view != [] && Assigned(view, l, allExport, name, value).Some? && other != name
    ensures ReadIn(Assigned(view, l, allExport, name, value).value, other) == ReadIn(view, other)
  {
    hide Defining, WithScalar;
    var i := Defining(view, name, |view|);
    var c := if i < 0 then WithScalar(Stored(NoAttributes(), map[], map[]), l, value).(attributes := NoAttributes().(exported := allExport))
             else WithScalar(view[i][name], l, value);
    BoundReads(view, if i < 0 then 0 else i, name, c, other);
  }

  function Reference(target: string): Contents {
    Stored(NoAttributes().(nameRef := true), map[0 := target], map[])
  }

  lemma ReferredOnce(m: Bindings, l: Letters, name: string, target: string)
    requires name !in m
    ensures Referred([m], l, name, target) == [m[name := Reference(target)]]
  {}

  lemma ReferenceRefers(m: Bindings, name: string, target: string)
    requires name in m && m[name] == Reference(target) && target != name
    ensures Referent([m], name) == Some(target)
  {
    IsDefining([m], name, 0);
  }

  lemma RunNever(view: Stack, l: Letters, allExport: bool, first: Step, rest: seq<Step>)
    requires view != [] && RunOne(view, l, allExport, first).Some? && Run(RunOne(view, l, allExport, first).value.0, l, allExport, rest).None?
    ensures Run(view, l, allExport, [first] + rest) == None
  {
    hide RunOne;
    assert ([first] + rest)[1..] == rest;
  }

  /** The script that never returns: two references to each other, and a look at one. */
  lemma CycleNeverReturns(l: Letters, allExport: bool)
    ensures Run([map[]], l, allExport, [Refer("a", "b"), Refer("b", "a"), Get("a")]) == None
  {
    hide Followed, Referent, Referred, Run;
    var one := map["a" := Reference("b")];
    var two := map["a" := Reference("b"), "b" := Reference("a")];
    ReferredOnce(map[], l, "a", "b");
    ReferredOnce(one, l, "b", "a");
    assert one["b" := Reference("a")] == two;
    ReferenceRefers(two, "a", "b");
    ReferenceRefers(two, "b", "a");
    RoundAndRound([two], "a", "b", true);
    LookNever([two], l, allExport, "a");
    RunNever([one], l, allExport, Refer("b", "a"), [Get("a")]);
    assert [Refer("b", "a")] + [Get("a")] == [Refer("b", "a"), Get("a")];
    var empty: Bindings := map[];
    assert empty["a" := Reference("b")] == one;
    RunNever([empty], l, allExport, Refer("a", "b"), [Refer("b", "a"), Get("a")]);
    assert [Refer("a", "b")] + [Refer("b", "a"), Get("a")] == [Refer("a", "b"), Refer("b", "a"), Get("a")];
  }

  lemma LookNever(view: Stack, l: Letters, allExport: bool, name: string)
    requires view != [] && Target(view, name, true) == None
    ensures Run(view, l, allExport, [Get(name)]) == None
  {
    hide Followed;
  }

  class ShellState {
    const letters: Letters
    const allExport: bool
    var scopes: seq<Scope>
    /** What belongs to this shell: the only objects it ever changes. */
    ghost var repr: set<object>
    /** All that belongs to the shells this one was forked from. */
    ghost const ancestors: set<object>

    ghost predicate Valid()
      reads this, repr, ancestors
    {
      && scopes != []
      && this in repr && repr !! ancestors
      && (forall i: nat :: i < |scopes| ==> InPlace(scopes[i]))
      && (forall i: nat, j: nat :: i < j < |scopes| ==> scopes[i].Own() !! scopes[j].Own())
    }

    ghost predicate InPlace(scope: Scope)
      reads repr, ancestors, `repr
    {
      scope in repr && scope.Own() <= repr && scope.behind <= ancestors && scope.letters == letters && scope.Valid()
    }

    ghost function View(): Stack
      requires Valid()
      reads this, repr, ancestors
    {
      Below(|scopes|)
    }

    ghost function Below(top: nat): (view: Stack)
      requires Valid() && top <= |scopes|
      reads this, repr, ancestors
      ensures |view| == top && forall i: nat :: i < top ==> view[i] == scopes[i].Visible()
    {
      if top == 0 then [] else Below(top - 1) + [scopes[top - 1].Visible()]
    }

    lemma ViewIs()
      requires Valid()
      ensures |View()| == |scopes| > 0 && this in repr
      ensures forall i: nat :: i < |scopes| ==> InPlace(scopes[i]) && View()[i] == scopes[i].Visible()
    {}

    constructor (letters: Letters, allExport: bool)
      ensures Valid() && fresh(repr) && View() == [map[]] && ancestors == {}
      ensures this.letters == letters && this.allExport == allExport
    {
      var global := new Scope(letters);
      this.letters, this.allExport, ancestors := letters, allExport, {};
      scopes := [global];
      repr := {this, global};
    }

    constructor Detached(parent: ShellState)
      ensures letters == parent.letters && allExport == parent.allExport
      ensures scopes == [] && repr == {this} && ancestors == parent.repr + parent.ancestors
    {
      letters, allExport := parent.letters, parent.allExport;
      ancestors := parent.repr + parent.ancestors;
      scopes, repr := [], {this};
    }

    /** Every scope so far is borrowed and shows what its original shows. */
    ghost predicate Borrowing(view: Stack)
      reads this, repr, ancestors
    {
      && |view| == |scopes| && this in repr && repr !! ancestors
      && (forall j: nat :: j < |scopes| ==> InPlace(scopes[j]) && scopes[j].Own() == {scopes[j]} && scopes[j].Visible() == view[j])
      && (forall j: nat, k: nat :: j < k < |scopes| ==> scopes[j] != scopes[k])
    }

    method BorrowOne(scope: Scope, ghost view: Stack)
      requires Borrowing(view) && scope.Valid() && scope.Own() + scope.behind <= ancestors && scope.letters == letters
      modifies this
      ensures Borrowing(view + [scope.Visible()]) && fresh(repr - old(repr)) && old(repr) <= repr
    {
      hide Scope.Valid, Scope.Visible, Scope.Own;
      var share := scope.Share();
      scopes := scopes + [share];
      repr := repr + {share};
    }

    lemma Borrowed(view: Stack)
      requires Borrowing(view) && view != []
      ensures Valid() && View() == view
    {
      hide Scope.Valid, Scope.Visible, Scope.Own;
    }

    /** A fork: every scope borrowed, nothing copied. */
    method Fork() returns (fork: ShellState)
      requires Valid()
      ensures fresh(fork.repr) && fork.Valid() && fork.View() == View()
      ensures fork.letters == letters && fork.allExport == allExport
    {
      hide Scope.Valid, Scope.Visible, Scope.Own, View, Below, Valid, Borrowing;
      ViewIs();
      fork := new ShellState.Detached(this);
      ghost var view := View();
      fork.BorrowingNone();
      for i := 0 to |scopes|
        invariant fork.Borrowing(view[..i]) && fresh(fork.repr) && fork in fork.repr
      {
        fork.BorrowOne(scopes[i], view[..i]);
        assert view[..i] + [scopes[i].Visible()] == view[..i + 1];
      }
      assert view[..|scopes|] == view;
      fork.Borrowed(view);
    }

    lemma BorrowingNone()
      requires scopes == [] && this in repr && repr !! ancestors
      ensures Borrowing([])
    {}

    method PushScope()
      requires Valid()
      modifies this
      ensures Valid() && fresh(repr - old(repr))
      ensures View() == old(View()) + [map[]]
    {
      hide Scope.Valid, Scope.Visible;
      var local := new Scope(letters);
      scopes := scopes + [local];
      repr := repr + {local};
    }

    method PopScope()
      requires Valid()
      modifies this
      ensures Valid() && repr == old(repr)
      ensures View() == if |old(View())| > 1 then old(View())[..|old(View())| - 1] else old(View())
    {
      hide Scope.Valid, Scope.Visible;
      if |scopes| > 1 {
        scopes := scopes[..|scopes| - 1];
      }
    }

    /** The innermost scope that defines a name, found without copying anything in. */
    method FindDefiningScope(name: string) returns (i: int)
      requires Valid()
      ensures i == Defining(View(), name, |View()|)
    {
      hide Valid, View, Scope.Valid, Scope.Visible;
      ViewIs();
      i := |scopes| - 1;
      while i >= 0
        invariant -1 <= i < |scopes|
        invariant Defining(View(), name, |View()|) == Defining(View(), name, i + 1)
      {
        var found := scopes[i].TryPeek(name);
        if found != null {
          return;
        }
        i := i - 1;
      }
    }

    /** One scope's lookup, which may copy the variable in; nothing visible changes anywhere. */
    method TryGetIn(i: nat, name: string) returns (variable: ShellVariable?)
      requires Valid() && i < |scopes|
      modifies this, scopes[i]
      ensures scopes == old(scopes) && Valid() && View() == old(View()) && fresh(repr - old(repr))
      ensures variable != null <==> name in View()[i]
      ensures variable != null ==> name in scopes[i].own && variable == scopes[i].own[name]
    {
      hide Scope.Valid, Scope.Visible;
      variable := scopes[i].TryGet(name);
      repr := repr + scopes[i].Own();
    }

    /** The innermost scope that has a name, and the variable there as this shell's own. */
    method Search(name: string) returns (i: int, variable: ShellVariable?)
      requires Valid()
      modifies repr
      ensures Valid() && View() == old(View()) && fresh(repr - old(repr)) && scopes == old(scopes) && |View()| == |scopes|
      ensures i == Defining(View(), name, |View()|) && (variable != null <==> i >= 0)
      ensures variable != null ==> name in scopes[i].own && variable == scopes[i].own[name]
    {
      hide Valid, View, Scope.Valid, Scope.Visible, Scope.Own;
      ViewIs();
      ghost var view := View();
      i := |scopes| - 1;
      while i >= 0
        invariant -1 <= i < |scopes|
        invariant scopes == old(scopes) && Valid() && View() == view && fresh(repr - old(repr))
        invariant Defining(view, name, |view|) == Defining(view, name, i + 1)
      {
        assert old(InPlace(scopes[i]));
        variable := TryGetIn(i, name);
        if variable != null {
          return;
        }
        i := i - 1;
      }
      variable := null;
    }

    /** The innermost variable of a name; what comes back is this shell's own and may be changed freely. */
    method LookupRaw(name: string) returns (variable: ShellVariable?)
      requires Valid()
      modifies repr
      ensures Valid() && View() == old(View()) && fresh(repr - old(repr))
      ensures variable == null ==> ReadIn(View(), name).None?
      ensures variable != null ==> variable in repr && variable.Valid() && ReadIn(View(), name) == Some(variable.Contents())
    {
      hide Valid, View, Scope.Valid, Scope.Visible, Scope.Own;
      var i;
      i, variable := Search(name);
      if variable != null {
        OwnShows(i, name);
      }
    }

    lemma Holds(i: nat)
      requires Valid() && i < |scopes|
      ensures scopes[i] in repr && |View()| == |scopes|
    {}

    lemma OwnShows(i: nat, name: string)
      requires Valid() && i < |scopes| && name in scopes[i].own
      ensures |View()| == |scopes| && name in View()[i] && View()[i][name] == scopes[i].own[name].Contents()
      ensures scopes[i].own[name].Valid() && scopes[i].own[name] in repr
    {
      ViewIs();
      OwnVisible(scopes[i], name);
    }

    /** Changing an own variable changes the view at its place alone. */
    method AlterAt(i: nat, ghost name: string, variable: ShellVariable, change: Change)
      requires Valid() && i < |scopes| && name in scopes[i].own && variable == scopes[i].own[name]
      modifies variable
      ensures Valid() && |old(View())| == |scopes| && name in old(View())[i]
      ensures View() == Bound(old(View()), i, name, Altered(old(View())[i][name], letters, change))
    {
      hide Scope.Valid, Scope.Visible, Scope.Own, Altered;
      forall j: nat | j < |scopes| { InOwn(scopes[j]); }
      scopes[i].Alter(name, variable, change);
    }

    method Set(name: string, value: string) returns (ok: bool)
      requires Valid()
      modifies repr
      ensures Valid() && fresh(repr - old(repr))
      ensures ok == Assigned(old(View()), letters, allExport, name, value).Some?
      ensures View() == if ok then Assigned(old(View()), letters, allExport, name, value).value else old(View())
    {
      hide Valid, View, Scope.Valid, Scope.Visible, Scope.Own;
      ViewIs();
      var i := FindDefiningScope(name);
      var target: nat := 0;
      if i >= 0 {
        target := i;
      }
      Holds(target);
      var existing := TryGetIn(target, name);
      if existing != null {
        OwnShows(target, name);
        if existing.attributes.readOnly {
          return false;
        }
        AlterAt(target, name, existing, Scalar(value));
        return true;
      }
      var variable := new ShellVariable(letters, NoAttributes());
      variable.SetScalar(value);
      if allExport {
        variable.attributes := variable.attributes.(exported := true);
      }
      DefineIn(0, name, variable);
      ok := true;
    }

    method DefineIn(i: nat, name: string, variable: ShellVariable)
      requires Valid() && i < |scopes| && variable.Valid() && variable.letters == letters
      requires variable !in repr && variable !in ancestors
      modifies this, scopes[i]
      ensures Valid() && repr == old(repr) + {variable} && scopes == old(scopes)
      ensures name in scopes[i].own && scopes[i].own[name] == variable
      ensures |old(View())| == |scopes| && View() == Bound(old(View()), i, name, variable.Contents())
    {
      hide Scope.Valid, Scope.Visible, Scope.Own, ShellVariable.Valid, ShellVariable.Contents;
      InOwn(scopes[i]);
      scopes[i].Define(name, variable);
      repr := repr + {variable};
    }

    /** Creates or changes a variable in the innermost scope, as `local` does. */
    method SetLocal(name: string, value: Option<string>)
      requires Valid()
      modifies repr
      ensures Valid() && fresh(repr - old(repr))
      ensures View() == AssignedLocally(old(View()), letters, name, value)
    {
      hide Valid, View, Scope.Valid, Scope.Visible, Scope.Own, WithScalar;
      ViewIs();
      var top := |scopes| - 1;
      Holds(top);
      var variable := TryGetIn(top, name);
      if variable == null {
        variable := new ShellVariable(letters, NoAttributes());
        DefineIn(top, name, variable);
      } else {
        OwnShows(top, name);
        BoundSame(View(), top, name);
      }
      if value.Some? {
        ghost var before := View()[top][name];
        AlterAt(top, name, variable, Scalar(value.value));
        BoundTwice(old(View()), top, name, before, Altered(before, letters, Scalar(value.value)));
      }
    }

    /** A variable looked up through references: where it is, and it itself as this shell's own. */
    method Lookup(name: string, ghost seen: set<string>) returns (ghost target: string, i: int, variable: ShellVariable?)
      requires Valid() && Followed(View(), name, true, seen).Some?
      modifies repr
      ensures Valid() && View() == old(View()) && fresh(repr - old(repr)) && scopes == old(scopes) && |View()| == |scopes|
      ensures target == Followed(View(), name, true, seen).value
      ensures i == Defining(View(), target, |View()|) && (variable != null <==> i >= 0)
      ensures variable != null ==> target in scopes[i].own && variable == scopes[i].own[target]
      decreases |AllNames(View()) - seen|
    {
      hide Valid, View, Scope.Valid, Scope.Visible, Scope.Own, AllNames, Onward;
      target := name;
      i, variable := Search(name);
      if variable != null {
        OwnShows(i, name);
        if variable.attributes.nameRef {
          var value := variable.Value();
          if value != name {
            OneMoreSeen(View(), name, seen);
            target, i, variable := Lookup(Onward(value, true), seen + {name});
          }
        }
      }
    }

    /** Removes the variable a name leads to from the innermost scope that has it, unless it is readonly. */
    method Unset(name: string, ghost seen: set<string>) returns (ok: bool)
      requires Valid() && Followed(View(), name, false, seen).Some?
      modifies repr
      ensures Valid() && fresh(repr - old(repr))
      ensures var target := Followed(old(View()), name, false, seen).value;
              && ok == Removed(old(View()), target).Some?
              && View() == if ok then Removed(old(View()), target).value else old(View())
      decreases |AllNames(View()) - seen|
    {
      hide Valid, View, Scope.Valid, Scope.Visible, Scope.Own, AllNames, Removed;
      var reference := LookupRaw(name);
      if reference != null && reference.attributes.nameRef {
        var value := reference.Value();
        if value != name {
          OneMoreSeen(View(), name, seen);
          ok := Unset(value, seen + {name});
          return;
        }
      }
      ok := UnsetHere(name);
    }

    method UnsetHere(name: string) returns (ok: bool)
      requires Valid()
      modifies repr
      ensures Valid() && fresh(repr - old(repr))
      ensures ok == Removed(old(View()), name).Some?
      ensures View() == if ok then Removed(old(View()), name).value else old(View())
    {
      hide Valid, View, Scope.Valid, Scope.Visible, Scope.Own;
      var i, variable := Search(name);
      if variable == null {
        return true;
      }
      OwnShows(i, name);
      if variable.attributes.readOnly {
        return false;
      }
      Holds(i);
      RemoveIn(i, name);
      ok := true;
    }

    method RemoveIn(i: nat, name: string)
      requires Valid() && i < |scopes|
      modifies scopes[i]
      ensures Valid() && |old(View())| == |scopes| && View() == old(View())[i := old(View())[i] - {name}]
    {
      hide Scope.Valid, Scope.Visible, Scope.Own;
      InOwn(scopes[i]);
      var found := scopes[i].Remove(name);
    }

    /** Gets the variable a name leads to, or creates one where the name is defined, if anywhere, and changes it. */
    method GetOrCreateAndAlter(name: string, change: Change)
      requires Valid() && Target(View(), name, true).Some?
      modifies repr
      ensures Valid() && fresh(repr - old(repr))
      ensures View() == Changed(old(View()), letters, name, Target(old(View()), name, true).value, change)
    {
      hide Valid, View, Scope.Valid, Scope.Visible, Scope.Own, Altered, Followed;
      ghost var target;
      var i, existing;
      target, i, existing := Lookup(name, {});
      if existing != null {
        OwnShows(i, target);
        AlterAt(i, target, existing, change);
        return;
      }
      ViewIs();
      var j := FindDefiningScope(name);
      var place: nat := 0;
      if j >= 0 {
        place := j;
      }
      Holds(place);
      CreateIn(place, name, change);
    }

    method CreateIn(i: nat, name: string, change: Change)
      requires Valid() && i < |scopes|
      modifies repr
      ensures Valid() && fresh(repr - old(repr)) && |old(View())| == |scopes|
      ensures View() == Bound(old(View()), i, name, Altered(Stored(NoAttributes(), map[], map[]), letters, change))
    {
      hide Valid, View, Scope.Valid, Scope.Visible, Scope.Own, Altered;
      ViewIs();
      Holds(i);
      var variable := new ShellVariable(letters, NoAttributes());
      ghost var empty := variable.Contents();
      DefineIn(i, name, variable);
      AlterAt(i, name, variable, change);
      BoundTwice(old(View()), i, name, empty, Altered(empty, letters, change));
    }

    /** `local -n`: the variable of the innermost scope becomes a reference. */
    method MakeReference(name: string, target: string)
      requires Valid()
      modifies repr
      ensures Valid() && fresh(repr - old(repr))
      ensures View() == Referred(old(View()), letters, name, target)
    {
      hide Valid, View, Scope.Valid, Scope.Visible, Scope.Own, Altered;
      ViewIs();
      var top := |scopes| - 1;
      Holds(top);
      var variable := TryGetIn(top, name);
      if variable == null {
        CreateIn(top, name, Referring(target));
      } else {
        OwnShows(top, name);
        AlterAt(top, name, variable, Referring(target));
      }
    }

    /** What is listed for a name is its innermost variable, this shell's own. */
    ghost predicate Lists(variables: seq<(string, ShellVariable)>)
      requires Valid()
      reads this, repr, ancestors, set k | 0 <= k < |variables| :: variables[k].1
    {
      forall k :: 0 <= k < |variables| ==>
        variables[k].1 in repr && variables[k].1.Valid() && ReadIn(View(), variables[k].0) == Some(variables[k].1.Contents())
    }

    /** The names visible in all scopes, each once, with their innermost variables. */
    method AllVariables() returns (variables: seq<(string, ShellVariable)>)
      requires Valid()
      modifies repr
      ensures Valid() && View() == old(View()) && fresh(repr - old(repr))
      ensures Lists(variables)
      ensures forall name: string :: name in Names(variables) <==> ReadIn(View(), name).Some?
      ensures forall j, k :: 0 <= j < k < |variables| ==> variables[j].0 != variables[k].0
    {
      hide Valid, View, Lists, Scope.Valid, Scope.Visible, Scope.Own;
      ViewIs();
      ghost var view := View();
      variables := [];
      ListsNone();
      var i := |scopes| - 1;
      while i >= 0
        invariant -1 <= i < |scopes|
        invariant scopes == old(scopes) && Valid() && View() == view && |view| == |scopes| && fresh(repr - old(repr))
        invariant Lists(variables)
        invariant forall j, k :: 0 <= j < k < |variables| ==> variables[j].0 != variables[k].0
        invariant forall name: string :: name in Names(variables) <==> Defining(view, name, |view|) > i
      {
        assert old(InPlace(scopes[i]));
        variables := ListScope(i, variables);
        i := i - 1;
      }
      forall name: string ensures name in Names(variables) <==> ReadIn(view, name).Some? {}
    }

    /** One scope's names, but for those listed before. */
    method ListScope(i: nat, before: seq<(string, ShellVariable)>) returns (variables: seq<(string, ShellVariable)>)
      requires Valid() && i < |scopes| && Lists(before) && |View()| == |scopes|
      requires forall j, k :: 0 <= j < k < |before| ==> before[j].0 != before[k].0
      requires forall name: string :: name in Names(before) <==> Defining(View(), name, |View()|) > i
      modifies this, scopes[i]
      ensures scopes == old(scopes) && Valid() && View() == old(View()) && fresh(repr - old(repr))
      ensures Lists(variables)
      ensures forall j, k :: 0 <= j < k < |variables| ==> variables[j].0 != variables[k].0
      ensures forall name: string :: name in Names(variables) <==> Defining(View(), name, |View()|) >= i
    {
      hide Valid, View, Lists, Scope.Valid, Scope.Visible, Scope.Own;
      ghost var view := View();
      var names := EntriesBeside(i, before);
      variables := before;
      for k := 0 to |names|
        invariant scopes == old(scopes) && Valid() && View() == view && fresh(repr - old(repr))
        invariant Lists(variables) && forall name: string :: name in names ==> name in scopes[i].own
        invariant forall a, b :: 0 <= a < b < |variables| ==> variables[a].0 != variables[b].0
        invariant forall name: string :: name in Names(variables) <==> Defining(view, name, |view|) > i || name in names[..k]
      {
        var name := names[k];
        assert name in names && names[..k + 1] == names[..k] + [name];
        if name !in Names(variables) {
          OwnShows(i, name);
          IsDefining(view, name, i);
          var variable := scopes[i].own[name];
          ListsOneMore(variables, name, variable);
          NamesMore(variables, name, variable);
          variables := variables + [(name, variable)];
        }
      }
      assert names[..|names|] == names;
      forall name: string ensures name in Names(variables) <==> Defining(view, name, |view|) >= i {
        if name in view[i] && !(Defining(view, name, |view|) > i) { IsDefining(view, name, i); }
      }
    }

    /** Copying in one scope's variables leaves those listed before as they are. */
    method EntriesBeside(i: nat, before: seq<(string, ShellVariable)>) returns (names: seq<string>)
      requires Valid() && i < |scopes| && Lists(before)
      modifies this, scopes[i]
      ensures scopes == old(scopes) && Valid() && View() == old(View()) && |View()| == |scopes| && fresh(repr - old(repr)) && old(repr) <= repr
      ensures forall name: string :: name in names <==> name in View()[i]
      ensures forall name: string :: name in names ==> name in scopes[i].own
      ensures Lists(before)
    {
      hide Valid, View, Scope.Valid, Scope.Visible, Scope.Own, ShellVariable.Valid, ShellVariable.Contents;
      ghost var view := View();
      names := EntriesIn(i);
      forall k | 0 <= k < |before|
        ensures before[k].1 in repr && before[k].1.Valid() && ReadIn(View(), before[k].0) == Some(before[k].1.Contents())
      {
        assert old(before[k].1 in repr && before[k].1.Valid() && ReadIn(view, before[k].0) == Some(before[k].1.Contents()));
      }
    }

    /** What a listing shows: each name with its value. */
    method ShowAll(variables: seq<(string, ShellVariable)>) returns (log: seq<Observation>)
      requires Valid() && Lists(variables)
      requires forall name: string :: name in Names(variables) <==> ReadIn(View(), name).Some?
      requires forall j, k :: 0 <= j < k < |variables| ==> variables[j].0 != variables[k].0
      ensures log == [Listed(AllValues(View()))]
    {
      hide Valid, View, ShellVariable.Valid, ShellVariable.Contents, ReadIn;
      var values := map[];
      for k := 0 to |variables|
        invariant values.Keys == set j | 0 <= j < k :: variables[j].0
        invariant forall j :: 0 <= j < k ==> values[variables[j].0] == ValueIn(View(), variables[j].0).value
      {
        assert ReadIn(View(), variables[k].0) == Some(variables[k].1.Contents());
        var value := variables[k].1.Value();
        values := values[variables[k].0 := value];
      }
      NamesIn(View(), Names(variables));
      assert values == AllValues(View());
      log := [Listed(values)];
    }

    lemma ListsNone()
      requires Valid()
      ensures Lists([])
    {}

    lemma ListsOneMore(variables: seq<(string, ShellVariable)>, name: string, variable: ShellVariable)
      requires Valid() && Lists(variables)
      requires variable in repr && variable.Valid() && ReadIn(View(), name) == Some(variable.Contents())
      ensures Lists(variables + [(name, variable)])
    {}

    method EntriesIn(i: nat) returns (names: seq<string>)
      requires Valid() && i < |scopes|
      modifies this, scopes[i]
      ensures scopes == old(scopes) && Valid() && View() == old(View()) && |View()| == |scopes| && fresh(repr - old(repr)) && old(repr) <= repr
      ensures forall name: string :: name in names <==> name in View()[i]
      ensures forall name: string :: name in names ==> name in scopes[i].own
    {
      hide Scope.Valid, Scope.Visible;
      names := scopes[i].Entries();
      repr := repr + scopes[i].Own();
      assert names[0..] == names;
    }

    /** Runs a script. A subshell runs on a fork, to its end, before the shell goes on. */
    method Execute(script: seq<Step>) returns (log: seq<Observation>)
      requires Valid() && View() != [] && Run(View(), letters, allExport, script).Some?
      modifies repr
      ensures Valid() && fresh(repr - old(repr))
      ensures Some((View(), log)) == Run(old(View()), letters, allExport, script)
      decreases script
    {
      hide Valid, View, RunOne;
      ViewIs();
      if script == [] {
        return [];
      }
      log := ExecuteOne(script[0]);
      var more := Execute(script[1..]);
      log := log + more;
    }

    method ExecuteOne(step: Step) returns (log: seq<Observation>)
      requires Valid() && View() != [] && RunOne(View(), letters, allExport, step).Some?
      modifies repr
      ensures Valid() && fresh(repr - old(repr))
      ensures Some((View(), log)) == RunOne(old(View()), letters, allExport, step)
      decreases step
    {
      hide Valid, View, Assigned, AssignedLocally, Removed, Changed, Referred, ReadIn, Run, Followed;
      ViewIs();
      match step
      case Get(name) =>
        log := Show(name);
      case Assign(name, value) =>
        var ok := Set(name, value);
        log := [Done(ok)];
      case AssignLocal(name, value) =>
        SetLocal(name, value);
        log := [];
      case Alter(name, change) =>
        GetOrCreateAndAlter(name, change);
        log := [];
      case Unset(name) =>
        var ok := this.Unset(name, {});
        log := [Done(ok)];
      case Refer(name, target) =>
        MakeReference(name, target);
        log := [];
      case List =>
        var variables := AllVariables();
        log := ShowAll(variables);
      case EnterFunction =>
        PushScope();
        log := [];
      case LeaveFunction =>
        PopScope();
        log := [];
      case Subshell(body) =>
        var fork := Fork();
        log := fork.Execute(body);
    }

    /** The value of the variable a name leads to. */
    method Show(name: string) returns (log: seq<Observation>)
      requires Valid() && Target(View(), name, true).Some?
      modifies repr
      ensures Valid() && View() == old(View()) && fresh(repr - old(repr))
      ensures log == [Saw(ValueIn(View(), Target(View(), name, true).value))]
    {
      hide Valid, View, Scope.Valid, Scope.Visible, Scope.Own, Followed;
      ghost var target;
      var i, variable;
      target, i, variable := Lookup(name, {});
      if variable == null {
        return [Saw(None)];
      }
      OwnShows(i, target);
      var value := variable.Value();
      log := [Saw(Some(value))];
    }
  }

  function Names(variables: seq<(string, ShellVariable)>): set<string> {
    set k | 0 <= k < |variables| :: variables[k].0
  }

  lemma NamesMore(variables: seq<(string, ShellVariable)>, name: string, variable: ShellVariable)
    ensures Names(variables + [(name, variable)]) == Names(variables) + {name}
  {
    var more := variables + [(name, variable)];
    assert forall k :: 0 <= k < |variables| ==> more[k] == variables[k];
    assert more[|variables|].0 == name;
  }

  lemma IsDefining(view: Stack, name: string, i: nat)
    requires i < |view| && name in view[i] && Defining(view, name, |view|) <= i
    ensures Defining(view, name, |view|) == i && ReadIn(view, name) == Some(view[i][name])
  {}

  lemma OwnVisible(scope: Scope, name: string)
    requires scope.Valid() && name in scope.own
    ensures name in scope.Visible() && scope.Visible()[name] == scope.own[name].Contents() && scope.own[name].Valid()
  {}

  lemma InOwn(scope: Scope)
    ensures scope in scope.Own() && scope.own.Values <= scope.Own()
    ensures forall name: string :: name in scope.own ==> scope.own[name] in scope.Own()
  {}
}