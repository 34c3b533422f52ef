/**
 Normalization as rewriting on text: a doubled separator, a dot and a name followed by two dots go, wherever they
 stand, and what none of these touches stays as it is.
 */
module PathRewriting {
  import opened Wrappers
  import opened VirtualPath

  /** A segment that is a name of its own. */
  predicate IsProper(name: string) {
    IsName(name) && name != "" && name != "." && name != ".."
  }

  lemma MiddleDrops(front: seq<string>, middle: seq<string>, back: seq<string>, absolute: bool)
    requires forall kept: seq<string> :: PushAll(kept, middle, absolute) == kept
    ensures PushAll([], front + middle + back, absolute) == PushAll([], front + back, absolute)
  {
    hide PushAll;
    PushAllConcat([], front + middle, back, absolute);
    PushAllConcat([], front, middle, absolute);
    PushAllConcat([], front, back, absolute);
  }

  /** Two paths with the same beginning and end are the same once what is between them leaves no segment. */
  lemma Between(a: string, middle: seq<string>, b: string, path: string)
    requires Split(path) == Split(a) + middle + Split(b) && path != "" && IsAbsolute(path) == IsAbsolute(a + "/" + b)
    requires forall kept: seq<string> :: PushAll(kept, middle, IsAbsolute(path)) == kept
    ensures Normal(path) == Normal(a + "/" + b)
  {
    hide Split, Show, PushAll, IsAbsolute;
    SplitConcat(a, b);
    MiddleDrops(Split(a), middle, Split(b), IsAbsolute(path));
  }

  lemma StartsAlike(a: string, x: string, y: string)
    ensures IsAbsolute(a + "/" + x) == IsAbsolute(a + "/" + y)
  {
    if a != "" { assert (a + "/" + x)[0] == a[0] == (a + "/" + y)[0]; }
  }

  lemma SplitThree(a: string, x: string, b: string)
    requires IsName(x)
    ensures Split(a + "/" + x + "/" + b) == Split(a) + [x] + Split(b)
    ensures IsAbsolute(a + "/" + x + "/" + b) == IsAbsolute(a + "/" + b)
  {
    hide Split;
    SplitConcat(a + "/" + x, b);
    SplitConcat(a, x);
    SplitName(x);
    assert a + "/" + x + "/" + b == a + "/" + (x + "/" + b);
    StartsAlike(a, x + "/" + b, b);
  }

  /** A doubled separator counts once. */
  lemma SeparatorsMerge(a: string, b: string)
    ensures Normal(a + "//" + b) == Normal(a + "/" + b)
  {
    hide Split, Normal;
    SplitThree(a, "", b);
    assert a + "/" + "" + "/" + b == a + "//" + b;
    Drops("");
    Between(a, [""], b, a + "//" + b);
  }

  /** A separator at the end does not count. */
  lemma LastSeparatorGoes(a: string)
    requires a != ""
    ensures Normal(a + "/") == Normal(a)
  {
    hide Split, Show;
    SplitConcat(a, "");
    SplitStep("");
    assert a + "/" + "" == a + "/";
    PushAllConcat([], Split(a), [""], IsAbsolute(a));
    Drops("");
  }

  /** A dot is no step. */
  lemma DotVanishes(a: string, b: string)
    ensures Normal(a + "/./" + b) == Normal(a + "/" + b)
  {
    hide Split, Normal;
    SplitThree(a, ".", b);
    assert a + "/" + "." + "/" + b == a + "/./" + b;
    Drops(".");
    Between(a, ["."], b, a + "/./" + b);
  }

  lemma Drops(segment: string)
    requires segment == "" || segment == "."
    ensures forall kept: seq<string>, absolute: bool :: PushAll(kept, [segment], absolute) == kept
  {
    assert [segment][1..] == [];
  }

  /** A name and the two dots after it cancel. */
  lemma NameCancels(a: string, name: string, b: string)
    requires IsProper(name)
    ensures Normal(a + "/" + name + "/../" + b) == Normal(a + "/" + b)
  {
    hide Split, Normal;
    var rest := "../" + b;
    SplitConcat("..", b);
    SplitName("..");
    assert ".." + "/" + b == rest;
    SplitThree(a, name, rest);
    var path := a + "/" + name + "/" + rest;
    assert path == a + "/" + name + "/../" + b;
    assert Split(a) + [name] + ([".."] + Split(b)) == Split(a) + [name, ".."] + Split(b);
    StartsAlike(a, rest, b);
    Cancels(name, IsAbsolute(path));
    Between(a, [name, ".."], b, path);
  }

  lemma Cancels(name: string, absolute: bool)
    requires IsProper(name)
    ensures forall kept: seq<string> :: PushAll(kept, [name, ".."], absolute) == kept
  {
    forall kept: seq<string> ensures PushAll(kept, [name, ".."], absolute) == kept {
      var one := kept + [name];
      assert [name, ".."][1..] == [".."] && [".."][1..] == [];
      assert one[..|one| - 1] == kept;
      assert Push(kept, name, absolute) == one && Push(one, "..", absolute) == kept;
    }
  }

  /** At the root two dots go nowhere. */
  lemma RootHasNoParent(b: string)
    ensures Normal("/../" + b) == Normal("/" + b)
  {
    hide Split, Show;
    SplitThree("", "..", b);
    assert "" + "/" + ".." + "/" + b == "/../" + b && "" + "/" + b == "/" + b;
    SplitConcat("", b);
    SplitStep("");
    var parts := [""] + [".."] + Split(b);
    assert parts[1..] == [".."] + Split(b) && parts[1..][1..] == Split(b);
    assert ([""] + Split(b))[1..] == Split(b);
    assert Split("/../" + b) == parts && Split("/" + b) == [""] + Split(b);
    assert PushAll([], parts, true) == PushAll([], parts[1..], true) == PushAll([], Split(b), true);
    assert PushAll([], [""] + Split(b), true) == PushAll([], Split(b), true);
  }

  /** A relative path is resolved from the directory it is given, and an absolute one from the root. */
  lemma ResolvesFromHere(cwd: string, path: string)
    requires IsNormal(cwd) && IsAbsolute(cwd) && path != ""
    ensures Resolve(cwd, path) == Normal(if IsAbsolute(path) then path else cwd + "/" + path)
  {
    hide Normal;
    if !IsAbsolute(path) {
      NotTrailing(cwd);
      if cwd == "/" {
        SeparatorsMerge("", path);
        assert "" + "//" + path == "/" + "/" + path && "" + "/" + path == "/" + path;
      }
    }
  }

  /** Proper names between single separators stay as they are, after any leading pairs of dots that a relative path keeps. */
  lemma NamesStay(absolute: bool, names: seq<string>, up: nat)
    requires forall k :: 0 <= k < |names| ==> IsProper(names[k])
    requires up == 0 || !absolute
    ensures IsNormal(Show(absolute, seq(up, _ => "..") + names))
  {
    hide Split, Show;
    var kept := seq(up, _ => "..") + names;
    assert AreNames(kept) by {
      forall k | 0 <= k < |kept| ensures IsName(kept[k]) { assert k >= up ==> kept[k] == names[k - up]; }
    }
    forall k | 0 <= k < |kept| ensures kept[k] != "" && kept[k] != "." && (kept[k] == ".." <==> k < up) {
      assert k >= up ==> kept[k] == names[k - up];
    }
    ShowSplits(absolute, kept);
  }
}
