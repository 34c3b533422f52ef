/**
 Variable scopes that a subshell borrows. A forked scope starts empty with a link to the one
 it came from, and copies a variable in when it is first touched; the meaning is that of a
 deep copy made at the fork.
 */
module ShellScopes {
  import opened Wrappers
  import opened ShellVariables

  /** The variables visible in one scope. */
  type Bindings = map<string, Contents>

  /** Own variables over borrowed ones, less the names unset since. */
  ghost function Layer(borrowed: Bindings, removed: set<string>, mine: Bindings): Bindings {
    (borrowed - removed) + mine
  }

  class Scope {
    const letters: Letters
    var own: map<string, ShellVariable>
    /** Names unset here that the chain behind still defines. */
    var removed: set<string>
    const inherited: Scope?
    /** Everything that belongs to the scopes behind this one; none of it is ever written here. */
    ghost const behind: set<object>

    ghost predicate Valid()
      reads this, own.Values, behind
      decreases behind, 1
    {
      && this !in behind
      && own.Values !! behind
      && Unshared(own)
      && (forall v: ShellVariable :: v in own.Values ==> v.Valid() && v.letters == letters)
      && Linked()
    }

    ghost predicate Linked()
      reads behind
      decreases behind, 0
    {
      inherited != null ==>
        inherited in behind && inherited.own.Values <= behind && inherited.behind < behind && inherited.letters == letters && inherited.Valid()
    }

    ghost function Borrowed(): Bindings
      requires Linked()
      reads behind
      decreases behind, 0
    {
      if inherited == null then map[] else inherited.Visible()
    }

    ghost function Mine(): Bindings
      reads `own, own.Values
    {
      map name: string | name in own :: own[name].Contents()
    }

    ghost function Visible(): Bindings
      requires Valid()
      reads this, own.Values, behind
      decreases behind, 1
    {
      Layer(Borrowed(), removed, Mine())
    }

    /** What belongs to this scope itself. */
    ghost function Own(): set<object>
      reads this
    {
      {this} + own.Values
    }

    constructor (letters: Letters)
      ensures Valid() && Visible() == map[] && own == map[] && behind == {} && this.letters == letters
    {
      this.letters, own, removed, inherited, behind := letters, map[], {}, null, {};
    }

    constructor Borrow(from: Scope)
      requires from.Valid()
      ensures Valid() && Visible() == from.Visible() && own == map[] && behind == from.Own() + from.behind && letters == from.letters
    {
      letters, own, removed, inherited := from.letters, map[], {}, from;
      behind := from.Own() + from.behind;
      new;
      assert from in behind && from !in from.behind;
      assert from.Visible() - {} + map[] == from.Visible();
    }

    /** Hands a fork a scope that borrows from this one. */
    method Share() returns (scope: Scope)
      requires Valid()
      ensures fresh(scope) && scope.Valid() && scope.Visible() == Visible()
      ensures scope.own == map[] && scope.behind == Own() + behind && scope.letters == letters
      ensures scope.Own() == {scope}
    {
      scope := new Scope.Borrow(this);
    }

    /** Reads along the chain, and changes nothing on the way. */
    method TryPeek(name: string) returns (variable: ShellVariable?)
      requires Valid()
      ensures variable != null <==> name in Visible()
      ensures variable != null ==> variable.Valid() && variable.letters == letters && variable.Contents() == Visible()[name]
      decreases behind
    {
      if name in own {
        return own[name];
      }
      if name in removed {
        return null;
      }
      if inherited == null {
        return null;
      }
      variable := inherited.TryPeek(name);
    }

    /** A variable this scope owns, copied in from the chain if that is where it lives. */
    method TryGet(name: string) returns (variable: ShellVariable?)
      requires Valid()
      modifies this
      ensures Valid() && Visible() == old(Visible())
      ensures fresh(own.Values - old(own.Values)) && forall n: string :: n in old(own) ==> n in own && own[n] == old(own)[n]
      ensures variable != null <==> name in Visible()
      ensures variable != null ==> name in own && variable == own[name]
    {
      hide Layer, Mine, Unshared, ShellVariable.Contents, ShellVariable.Valid;
      MineHas(name);
      LayerHas(Borrowed(), removed, Mine(), name);
      if name in own {
        return own[name];
      }
      if name in removed || inherited == null {
        return null;
      }
      var borrowed := inherited.TryPeek(name);
      if borrowed == null {
        return null;
      }
      assert Borrowed()[name] == borrowed.Contents();
      variable := borrowed.Clone();
      Put(name, variable);
      LayerCopied(Borrowed(), removed, old(Mine()), name);
    }

    lemma MineHas(name: string)
      ensures name in Mine() <==> name in own
      ensures name in own ==> Mine()[name] == own[name].Contents()
    {}

    /** Makes `variable` this scope's own under `name`. */
    method Put(name: string, variable: ShellVariable)
      requires Valid() && variable.Valid() && variable.letters == letters && variable !in own.Values && variable !in behind
      modifies `own
      ensures Valid() && own == old(own)[name := variable]
      ensures Borrowed() == old(Borrowed()) && Mine() == old(Mine())[name := variable.Contents()]
    {
      hide Linked, Borrowed, ShellVariable.Valid, ShellVariable.Contents;
      UnsharedPut(own, name, variable);
      own := own[name := variable];
    }

    method Define(name: string, variable: ShellVariable)
      requires Valid() && variable.Valid() && variable.letters == letters && variable !in own.Values && variable !in behind
      modifies this
      ensures Valid() && Own() <= old(Own()) + {variable} && name in own && own[name] == variable
      ensures Visible() == old(Visible())[name := variable.Contents()]
    {
      hide Linked, Borrowed, Mine, Layer, Unshared, ShellVariable.Valid, ShellVariable.Contents;
      Put(name, variable);
      removed := removed - {name};
      LayerDefined(Borrowed(), old(removed), old(Mine()), name, variable.Contents());
    }

    /** What a caller does to a variable it was handed: that shows under its name, and nowhere else. */
    method Alter(ghost name: string, variable: ShellVariable, change: Change)
      requires Valid() && name in own && variable == own[name]
      modifies variable
      ensures Valid() && name in old(Visible())
      ensures Visible() == old(Visible())[name := Altered(old(Visible())[name], letters, change)]
    {
      hide Layer, Borrowed, Linked, Altered, ShellVariable.Valid, ShellVariable.Contents;
      MineHas(name);
      LayerHas(Borrowed(), removed, Mine(), name);
      ghost var before := own[name].Contents();
      Perform(variable, change);
      assert Mine() == old(Mine())[name := Altered(before, letters, change)];
      LayerDefined(Borrowed(), removed, old(Mine()), name, Altered(before, letters, change));
      LayerKept(Borrowed(), removed, Mine(), name);
    }

    /** Removes a variable, hiding an inherited one of the same name. */
    method Remove(name: string) returns (found: bool)
      requires Valid()
      modifies this
      ensures Valid() && Own() <= old(Own())
      ensures Visible() == old(Visible()) - {name} && found == (name in old(Visible()))
    {
      hide Linked, Borrowed, Layer, ShellVariable.Valid, ShellVariable.Contents, Unshared;
      var defined := name in own;
      UnsharedTake(own, name);
      own := own - {name};
      assert Mine() == old(Mine()) - {name};
      var hides := Hides(name);
      LayerRemoved(Borrowed(), removed, old(Mine()), name);
      if hides {
        removed := removed + {name};
      }
      assert Borrowed() == old(Borrowed()) && Mine() == old(Mine()) - {name};
      assert Visible() == Layer(Borrowed(), removed, Mine());
      found := defined || hides;
    }

    /** Whether the chain behind defines a name that is not yet unset here. */
    method Hides(name: string) returns (r: bool)
      requires Valid()
      ensures r <==> name in Borrowed() && name !in removed
    {
      if inherited == null || name in removed {
        return false;
      }
      var borrowed := inherited.TryPeek(name);
      r := borrowed != null;
    }

    /** Adds the names visible here and not yet seen; names unset here count as seen further behind. */
    method CollectNames(names0: seq<string>, seen0: set<string>) returns (names: seq<string>)
      requires Valid()
      ensures Adds(names0, names, Visible().Keys - seen0)
      decreases behind
    {
      hide Borrowed, Adds, Mine, ShellVariable.Contents, ShellVariable.Valid, Unshared;
      var seen;
      names, seen := OwnNames(names0, seen0);
      seen := seen + removed;
      ghost var mine := names;
      VisibleKeys();
      if inherited != null {
        names := inherited.CollectNames(names, seen);
      } else {
        AddsNone(names);
        assert Borrowed().Keys - seen == {};
      }
      ghost var more := Borrowed().Keys - seen;
      AddsMore(names0, mine, names, own.Keys - seen0, more);
      assert Visible().Keys - seen0 == (own.Keys - seen0) + more;
    }

    lemma VisibleKeys()
      requires Valid()
      ensures Visible().Keys == (Borrowed().Keys - removed) + own.Keys
      ensures inherited == null ==> Borrowed() == map[]
      ensures inherited != null ==> Borrowed() == inherited.Visible()
    {}

    method OwnNames(names0: seq<string>, seen0: set<string>) returns (names: seq<string>, seen: set<string>)
      ensures Adds(names0, names, own.Keys - seen0) && seen == seen0 + own.Keys
    {
      names, seen := AddNames(own.Keys, names0, seen0);
    }

    static method AddNames(all: set<string>, names0: seq<string>, seen0: set<string>) returns (names: seq<string>, seen: set<string>)
      ensures Adds(names0, names, all - seen0) && seen == seen0 + all
    {
      hide Adds;
      names, seen := names0, seen0;
      var keys := all;
      AddsNone(names);
      assert (all - keys) - seen0 == {} && seen0 + (all - keys) == seen0;
      while keys != {}
        invariant keys <= all
        invariant seen == seen0 + (all - keys)
        invariant Adds(names0, names, (all - keys) - seen0)
        decreases |keys|
      {
        var name :| name in keys;
        AddsOne(names0, names, (all - keys) - seen0, name);
        OneKeyFewer(all, keys, seen0, name);
        keys := keys - {name};
        if name !in seen {
          seen := seen + {name};
          names := names + [name];
        }
      }
      assert all - keys == all;
    }

    /** Every name visible here, once, and each variable copied in. */
    method Entries() returns (names: seq<string>)
      requires Valid()
      modifies this
      ensures Valid() && Visible() == old(Visible()) && fresh(own.Values - old(own.Values))
      ensures Adds([], names, Visible().Keys)
      ensures forall name: string :: name in names ==> name in own
    {
      hide Linked, Borrowed, Mine, Layer, Unshared, ShellVariable.Valid, ShellVariable.Contents;
      names := CollectNames([], {});
      assert Visible().Keys - {} == Visible().Keys;
      var i := 0;
      while i < |names|
        invariant 0 <= i <= |names|
        invariant Valid() && Visible() == old(Visible()) && fresh(own.Values - old(own.Values))
        invariant forall k :: 0 <= k < i ==> names[k] in own
      {
        assert names[i] in names[0..];
        var variable := TryGet(names[i]);
        i := i + 1;
      }
    }
  }

  /** The changes a variable's callers make to it. */
  datatype Change =
    | Scalar(value: string)
    | Appending(value: string)
    | Indexed(index: int, value: string)
    | Whole(values: seq<string>)
    | More(values: seq<string>)
    | Without(subscript: Subscript)
    | Marked(exported: bool, readOnly: bool)
    | Referring(target: string)

  ghost function Altered(c: Contents, l: Letters, change: Change): Contents {
    match change
    case Scalar(value) => WithScalar(c, l, value)
    case Appending(value) => WithScalar(c, l, (match First(c) case Some(v) => v case None => "") + value)
    case Indexed(index, value) => WithIndexed(c, l, index, value)
    case Whole(values) => WithArray(c, l, values)
    case More(values) => WithAppended(c, l, values)
    case Without(subscript) => WithoutElement(c, subscript)
    case Marked(exported, readOnly) => c.(attributes := c.attributes.(exported := exported, readOnly := readOnly))
    case Referring(target) => WithScalar(c.(attributes := c.attributes.(nameRef := true)), l, target)
  }

  method Perform(variable: ShellVariable, change: Change)
    requires variable.Valid()
    modifies variable
    ensures variable.Valid() && variable.Contents() == Altered(old(variable.Contents()), variable.letters, change)
  {
    match change
    case Scalar(value) => variable.SetScalar(value);
    case Appending(value) => variable.AppendScalar(value);
    case Indexed(index, value) => variable.SetIndexed(index, value);
    case Whole(values) => variable.SetArray(values);
    case More(values) => variable.AppendArray(values);
    case Without(subscript) => variable.UnsetElement(subscript);
    case Marked(exported, readOnly) => variable.attributes := variable.attributes.(exported := exported, readOnly := readOnly);
    case Referring(target) =>
      variable.attributes := variable.attributes.(nameRef := true);
      variable.SetScalar(target);
  }

  /** No two names hold the same variable. */
  ghost predicate Unshared(own: map<string, ShellVariable>) {
    forall a: string, b: string :: a in own && b in own && own[a] == own[b] ==> a == b
  }

  lemma UnsharedPut(own: map<string, ShellVariable>, name: string, variable: ShellVariable)
    requires Unshared(own) && variable !in own.Values
    ensures Unshared(own[name := variable]) && own[name := variable].Values <= own.Values + {variable}
  {}

  lemma UnsharedTake(own: map<string, ShellVariable>, name: string)
    requires Unshared(own)
    ensures Unshared(own - {name}) && (own - {name}).Values <= own.Values
  {}

  lemma LayerHas(borrowed: Bindings, removed: set<string>, mine: Bindings, name: string)
    ensures name in Layer(borrowed, removed, mine) <==> name in mine || (name in borrowed && name !in removed)
    ensures name in mine ==> Layer(borrowed, removed, mine)[name] == mine[name]
  {}

  lemma LayerCopied(borrowed: Bindings, removed: set<string>, mine: Bindings, name: string)
    requires name in borrowed && name !in removed && name !in mine
    ensures Layer(borrowed, removed, mine[name := borrowed[name]]) == Layer(borrowed, removed, mine)
    ensures name in Layer(borrowed, removed, mine)
  {}

  lemma LayerDefined(borrowed: Bindings, removed: set<string>, mine: Bindings, name: string, c: Contents)
    ensures Layer(borrowed, removed - {name}, mine[name := c]) == Layer(borrowed, removed, mine)[name := c]
  {}

  lemma LayerKept(borrowed: Bindings, removed: set<string>, mine: Bindings, name: string)
    requires name in mine
    ensures Layer(borrowed, removed - {name}, mine) == Layer(borrowed, removed, mine)
  {}

  lemma LayerRemoved(borrowed: Bindings, removed: set<string>, mine: Bindings, name: string)
    ensures Layer(borrowed, removed + {name}, mine - {name}) == Layer(borrowed, removed, mine) - {name}
    ensures !(name in borrowed && name !in removed) ==>
              Layer(borrowed, removed, mine - {name}) == Layer(borrowed, removed, mine) - {name}
    ensures name in Layer(borrowed, removed, mine) <==> name in mine || (name in borrowed && name !in removed)
  {}

  // ---- lists of names ----

  /** `names` goes on from `names0` with each of `more` once. */
  ghost predicate Adds(names0: seq<string>, names: seq<string>, more: set<string>) {
    && names0 <= names
    && (forall name: string :: name in names[|names0|..] <==> name in more)
    && (forall i, j :: |names0| <= i < j < |names| ==> names[i] != names[j])
  }

  lemma AddsNone(names: seq<string>)
    ensures Adds(names, names, {})
  {}

  lemma OneKeyFewer(all: set<string>, keys: set<string>, seen0: set<string>, name: string)
    requires keys <= all && name in keys
    ensures (all - (keys - {name})) - seen0 == ((all - keys) - seen0) + if name in seen0 then {} else {name}
    ensures seen0 + (all - (keys - {name})) == seen0 + (all - keys) + {name}
    ensures name in seen0 + (all - keys) <==> name in seen0
    ensures name !in (all - keys) - seen0
  {}

  lemma AddsOne(names0: seq<string>, names: seq<string>, more: set<string>, name: string)
    requires Adds(names0, names, more)
    ensures name !in more ==> Adds(names0, names + [name], more + {name})
  {
    assert (names + [name])[|names0|..] == names[|names0|..] + [name];
    assert forall i :: |names0| <= i < |names| ==> names[i] in names[|names0|..];
  }

  lemma AddsMore(names0: seq<string>, names1: seq<string>, names2: seq<string>, a: set<string>, b: set<string>)
    requires Adds(names0, names1, a) && Adds(names1, names2, b) && a !! b
    ensures Adds(names0, names2, a + b)
  {
    assert names2[|names0|..] == names1[|names0|..] + names2[|names1|..];
    assert forall i :: |names0| <= i < |names1| ==> names2[i] == names1[i] && names2[i] in names1[|names0|..];
    assert forall i :: |names1| <= i < |names2| ==> names2[i] in names2[|names1|..];
  }
}
