/**
 What an assignment, a local declaration, an unset and a change leave in a stack of scopes, told by which scope
 binds a name and what the name then reads as.
 */
module ShellBindings {
  import opened Wrappers
  import opened ShellVariables
  import opened ShellScopes
  import opened ShellSessions

  /** No scope binds the name. */
  ghost predicate Unbound(view: Stack, name: string) {
    forall j: nat :: j < |view| ==> name !in view[j]
  }

  /** The `i`-th scope is the innermost one that binds the name. */
  ghost predicate Innermost(view: Stack, name: string, i: nat) {
    i < |view| && name in view[i] && forall j: nat :: i < j < |view| ==> name !in view[j]
  }

  /** Only the binding of one name in one scope differs. */
  ghost predicate OnlyAt(before: Stack, after: Stack, i: nat, name: string) {
    && |after| == |before| && i < |before|
    && (forall j: nat :: j < |before| && j != i ==> after[j] == before[j])
    && (forall other: string :: other != name ==> (other in after[i] <==> other in before[i]))
    && (forall other: string :: other != name && other in before[i] ==> after[i][other] == before[i][other])
  }

  lemma UnboundReads(view: Stack, name: string)
    requires Unbound(view, name)
    ensures Defining(view, name, |view|) == -1 && ReadIn(view, name) == None
  {}

  lemma InnermostReads(view: Stack, name: string, i: nat)
    requires Innermost(view, name, i)
    ensures Defining(view, name, |view|) == i && ReadIn(view, name) == Some(view[i][name])
  {
    IsDefining(view, name, i);
  }

  /** A name that nothing binds is assigned in the outermost scope, as a plain variable. */
  lemma NewNamesAreGlobal(view: Stack, l: Letters, allExport: bool, name: string, value: string)
    requires view != [] && Unbound(view, name)
    ensures var after := Assigned(view, l, allExport, name, value);
            && after.Some? && OnlyAt(view, after.value, 0, name) && Innermost(after.value, name, 0)
            && after.value[0][name] == Stored(NoAttributes().(exported := allExport), map[0 := value], map[])
  {
    UnboundReads(view, name);
  }

  /** Any other is assigned in the innermost scope that binds it, with its attributes kept, unless it is readonly there. */
  lemma OldNamesStayWhereTheyAre(view: Stack, l: Letters, allExport: bool, name: string, value: string, i: nat)
    requires Innermost(view, name, i)
    ensures Assigned(view, l, allExport, name, value).None? <==> view[i][name].attributes.readOnly
    ensures var after := Assigned(view, l, allExport, name, value);
            after.Some? ==>
              && OnlyAt(view, after.value, i, name) && Innermost(after.value, name, i)
              && after.value[i][name].attributes == view[i][name].attributes
              && First(after.value[i][name]) == Some(Cased(view[i][name].attributes, l, value))
  {
    InnermostReads(view, name, i);
  }

  /** `local` binds in the innermost scope whatever binds the name further out, and goes with that scope. */
  lemma LocalsAreInnermost(view: Stack, l: Letters, name: string, value: string)
    requires view != []
    ensures var top := |view| - 1;
            var after := AssignedLocally(view, l, name, Some(value));
            var before := if name in view[top] then view[top][name].attributes else NoAttributes();
            && OnlyAt(view, after, top, name) && Innermost(after, name, top)
            && after[top][name].attributes == before && First(after[top][name]) == Some(Cased(before, l, value))
            && after[..top] == view[..top]
  {}

  /** Without a value it makes an empty variable, or leaves the one that is there. */
  lemma LocalsMayBeEmpty(view: Stack, l: Letters, name: string)
    requires view != []
    ensures var top := |view| - 1;
            var after := AssignedLocally(view, l, name, None);
            && OnlyAt(view, after, top, name) && Innermost(after, name, top)
            && after[top][name] == if name in view[top] then view[top][name] else Stored(NoAttributes(), map[], map[])
  {}

  /** An unset takes the innermost binding, so that an outer one shows again; a readonly one stays. */
  lemma UnsetShowsTheOuterOne(view: Stack, name: string, i: nat)
    requires Innermost(view, name, i)
    ensures Removed(view, name).None? <==> view[i][name].attributes.readOnly
    ensures var after := Removed(view, name);
            after.Some? ==>
              && OnlyAt(view, after.value, i, name) && name !in after.value[i]
              && ReadIn(after.value, name) == ReadIn(view[..i], name)
  {
    InnermostReads(view, name, i);
    var after := Removed(view, name);
    if after.Some? {
      SameBelow(after.value, view[..i], name, i);
      SkipsAbove(after.value, name, i, |view|);
    }
  }

  lemma {:induction false} SameBelow(a: Stack, b: Stack, name: string, top: nat)
    requires top <= |a| && top <= |b| && forall j: nat :: j < top ==> a[j] == b[j]
    ensures Defining(a, name, top) == Defining(b, name, top)
    decreases top
  {
    if top > 0 { SameBelow(a, b, name, top - 1); }
  }

  lemma {:induction false} SkipsAbove(a: Stack, name: string, i: nat, top: nat)
    requires i < top <= |a| && forall j: nat :: i <= j < top ==> name !in a[j]
    ensures Defining(a, name, top) == Defining(a, name, i)
    decreases top
  {
    if top > i + 1 { SkipsAbove(a, name, i, top - 1); }
  }

  /** What is not bound cannot be unset, and that is no error. */
  lemma NothingToUnset(view: Stack, name: string)
    requires Unbound(view, name)
    ensures Removed(view, name) == Some(view)
  {
    UnboundReads(view, name);
  }

  /** A change to an ordinary variable is made where it is bound, or to a new one in the outermost scope. */
  lemma ChangesStayWhereTheyAre(view: Stack, l: Letters, name: string, change: Change, i: nat)
    requires view != []
    ensures Innermost(view, name, i) ==>
              var after := Changed(view, l, name, name, change);
              OnlyAt(view, after, i, name) && Innermost(after, name, i) && after[i][name] == Altered(view[i][name], l, change)
    ensures Unbound(view, name) ==>
              var after := Changed(view, l, name, name, change);
              OnlyAt(view, after, 0, name) && Innermost(after, name, 0)
              && after[0][name] == Altered(Stored(NoAttributes(), map[], map[]), l, change)
  {
    hide Altered;
    if Innermost(view, name, i) { InnermostReads(view, name, i); }
    if Unbound(view, name) { UnboundReads(view, name); }
  }

  /** A listing has every name that some scope binds, with the value its innermost variable reads as. */
  lemma ListsEveryName(view: Stack, name: string, i: nat)
    ensures Innermost(view, name, i) ==>
              name in AllValues(view) && AllValues(view)[name] == match First(view[i][name]) case Some(value) => value case None => ""
    ensures Unbound(view, name) ==> name !in AllValues(view)
  {
    InAllNames(view, name);
    if Innermost(view, name, i) { InnermostReads(view, name, i); }
    if Unbound(view, name) { UnboundReads(view, name); }
  }

  /** A lookup leaves off everything from the first bracket on, if a name comes before it. */
  lemma {:induction false} OnwardCuts(name: string, rest: string)
    requires '[' !in name
    ensures BracketAt(name + "[" + rest) == |name|
    ensures name != "" ==> Onward(name + "[" + rest, true) == name
    ensures Onward(name, true) == name && Onward(name + "[" + rest, false) == name + "[" + rest
  {
    NoBracket(name);
    BracketFirst(name, rest);
    assert (name + "[" + rest)[..|name|] == name;
  }

  lemma {:induction false} NoBracket(s: string)
    requires '[' !in s
    ensures BracketAt(s) == -1
  {
    if s != "" { NoBracket(s[1..]); }
  }

  lemma {:induction false} BracketFirst(name: string, rest: string)
    requires '[' !in name
    ensures BracketAt(name + "[" + rest) == |name|
  {
    var s := name + "[" + rest;
    if name != "" {
      assert s[1..] == name[1..] + "[" + rest;
      BracketFirst(name[1..], rest);
    }
  }

  /** `local -n name=target` makes the name lead to the target's variable. */
  lemma ReferencesForward(view: Stack, l: Letters, name: string, target: string, top: nat)
    requires top + 1 == |view| && name !in view[top] && target != name && '[' !in target && Referent(view, target).None?
    ensures var after := Referred(view, l, name, target);
            && OnlyAt(view, after, top, name) && Innermost(after, name, top)
            && Target(after, name, true) == Some(target) && ReadIn(after, target) == ReadIn(view, target)
  {
    hide Defining;
    var after := Referred(view, l, name, target);
    assert after == Bound(view, top, name, Reference(target));
    InnermostReads(after, name, top);
    DefiningWithin(view, name);
    BoundReads(view, top, name, Reference(target), target);
    NoBracket(target);
    assert Referent(after, name) == Some(target);
    assert Followed(after, target, true, {} + {name}) == Some(target);
  }

  lemma DefiningWithin(view: Stack, name: string)
    ensures Defining(view, name, |view|) < |view|
  {}

  // ---- over a function call ----

  /** What a function assigns to a name bound nowhere is still there when it has returned. */
  lemma GlobalsOutliveTheFunction(view: Stack, l: Letters, allExport: bool, name: string, value: string)
    requires view != [] && Unbound(view, name)
    ensures var r := Run(view, l, allExport, [EnterFunction, Assign(name, value), LeaveFunction, Get(name)]);
            r.Some? && r.value.1 == [Done(true), Saw(Some(value))]
  {
    hide Defining, Followed, Run;
    var inside := view + [map[]];
    assert Unbound(inside, name);
    NewNamesAreGlobal(inside, l, allExport, name, value);
    var after := Assigned(inside, l, allExport, name, value).value;
    var out := after[..|after| - 1];
    assert Innermost(out, name, 0);
    InnermostReads(out, name, 0);
    NoReference(out, name);
    FourSteps(view, l, allExport, EnterFunction, Assign(name, value), LeaveFunction, Get(name), inside, after, out, out, [], [Done(true)], [], [Saw(Some(value))]);
  }

  /** What it makes local is what it reads itself, and afterwards the name reads as before. */
  lemma LocalsEndWithTheFunction(view: Stack, l: Letters, allExport: bool, name: string, value: string)
    requires view != [] && Referent(view, name).None?
    ensures var r := Run(view, l, allExport, [EnterFunction, AssignLocal(name, Some(value)), LeaveFunction, Get(name)]);
            r.Some? && r.value == (view, [Saw(ValueIn(view, name))])
    ensures var r := Run(view, l, allExport, [EnterFunction, AssignLocal(name, Some(value)), Get(name), LeaveFunction]);
            r.Some? && r.value == (view, [Saw(Some(value))])
  {
    hide Defining, Followed, Run, ValueIn;
    var inside := view + [map[]];
    LocalsAreInnermost(inside, l, name, value);
    var after := AssignedLocally(inside, l, name, Some(value));
    assert after[..|after| - 1] == inside[..|view|] == view;
    NoReference(view, name);
    OneSeen(Saw(ValueIn(view, name)));
    FourSteps(view, l, allExport, EnterFunction, AssignLocal(name, Some(value)), LeaveFunction, Get(name), inside, after, view, view, [], [], [], [Saw(ValueIn(view, name))]);
    InnermostReads(after, name, |view|);
    NoReference(after, name);
    LocalValue(after, name, value, |view|);
    OneSeen(Saw(Some(value)));
    FourSteps(view, l, allExport, EnterFunction, AssignLocal(name, Some(value)), Get(name), LeaveFunction, inside, after, after, view, [], [], [Saw(Some(value))], []);
  }

  lemma LocalValue(view: Stack, name: string, value: string, i: nat)
    requires Innermost(view, name, i) && First(view[i][name]) == Some(value)
    ensures ValueIn(view, name) == Some(value)
  {
    InnermostReads(view, name, i);
  }

  lemma NoReference(view: Stack, name: string)
    requires Referent(view, name).None?
    ensures Target(view, name, true) == Some(name)
  {}

  lemma FourSteps(v0: Stack, l: Letters, allExport: bool, a: Step, b: Step, c: Step, d: Step, v1: Stack, v2: Stack, v3: Stack, v4: Stack,
                  w: seq<Observation>, x: seq<Observation>, y: seq<Observation>, z: seq<Observation>)
    requires v0 != [] && v1 != [] && v2 != [] && v3 != []
    requires RunOne(v0, l, allExport, a) == Some((v1, w)) && RunOne(v1, l, allExport, b) == Some((v2, x))
    requires RunOne(v2, l, allExport, c) == Some((v3, y)) && RunOne(v3, l, allExport, d) == Some((v4, z))
    ensures Run(v0, l, allExport, [a, b, c, d]) == Some((v4, w + x + y + z))
  {
    hide RunOne;
    assert [a, b, c, d][1..] == [b, c, d] && [b, c, d][1..] == [c, d] && [c, d][1..] == [d] && [d][1..] == [];
    assert Run(v4, l, allExport, []) == Some((v4, []));
    assert Run(v3, l, allExport, [d]) == Some((v4, z + []));
    assert Run(v2, l, allExport, [c, d]) == Some((v4, y + (z + [])));
    assert Run(v1, l, allExport, [b, c, d]) == Some((v4, x + (y + (z + []))));
    assert w + (x + (y + (z + []))) == w + x + y + z;
  }

  lemma OneSeen(o: Observation)
    ensures [] + [] + [] + [o] == [o] && [] + [] + [o] + [] == [o]
  {}
}
