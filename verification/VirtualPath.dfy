/**
 Virtual paths: normalization, joining, and the lexical ancestor test. A path is a string;
 its meaning is whether it is absolute and the names between its separators.
 */
module VirtualPath {
  import opened Wrappers

  // ---- splitting and joining at '/' ----

  /** The pieces of `s` between its separators; one more than there are separators. */
  function Split(s: string): (r: seq<string>)
    ensures |r| > 0
  {
    if s == "" then [""] else
    var rest := Split(s[1..]);
    if s[0] == '/' then [""] + rest else [[s[0]] + rest[0]] + rest[1..]
  }

  function JoinWith(parts: seq<string>): string {
    if parts == [] then "" else if |parts| == 1 then parts[0] else parts[0] + "/" + JoinWith(parts[1..])
  }

  predicate IsName(s: string) {
    forall k :: 0 <= k < |s| ==> s[k] != '/'
  }

  predicate AreNames(parts: seq<string>) {
    forall k :: 0 <= k < |parts| ==> IsName(parts[k])
  }

  lemma {:induction false} SplitNames(s: string)
    ensures AreNames(Split(s))
  {
    if s != "" {
      SplitNames(s[1..]);
    }
  }

  lemma {:induction false} SplitName(s: string)
    requires IsName(s)
    ensures Split(s) == [s]
  {
    if s != "" {
      SplitName(s[1..]);
      assert [s[0]] + s[1..] == s;
    }
  }

  lemma {:induction false} SplitConcat(a: string, b: string)
    ensures Split(a + "/" + b) == Split(a) + Split(b)
  {
    hide Split;
    var whole := a + "/" + b;
    SplitStep(whole);
    SplitStep(a);
    if a == "" {
      assert whole[1..] == b;
    } else {
      assert whole[1..] == a[1..] + "/" + b;
      SplitConcat(a[1..], b);
      var rest := Split(a[1..]);
      assert (rest + Split(b))[1..] == rest[1..] + Split(b);
    }
  }

  lemma SplitStep(s: string)
    ensures Split(s) == if s == "" then [""] else if s[0] == '/' then [""] + Split(s[1..])
                        else [[s[0]] + Split(s[1..])[0]] + Split(s[1..])[1..]
  {}

  lemma {:induction false} SplitTrailing(s: string)
    requires s != "" && s[|s| - 1] == '/'
    ensures |Split(s)| > 1 && Split(s)[|Split(s)| - 1] == ""
  {
    SplitStep(s);
    if |s| > 1 {
      SplitTrailing(s[1..]);
    } else {
      SplitStep(s[1..]);
    }
  }

  lemma {:induction false} SplitJoin(parts: seq<string>)
    requires parts != [] && AreNames(parts)
    ensures Split(JoinWith(parts)) == parts
  {
    SplitName(parts[0]);
    if |parts| > 1 {
      SplitJoin(parts[1..]);
      SplitConcat(parts[0], JoinWith(parts[1..]));
      assert [parts[0]] + parts[1..] == parts;
    } else {
      assert parts == [parts[0]];
    }
  }

  // ---- normalization ----

  /** One segment pushed on, popped from or dropped from the segments kept so far. */
  function Push(kept: seq<string>, segment: string, absolute: bool): seq<string> {
    if segment == "" || segment == "." then kept
    else if segment != ".." then kept + [segment]
    else if kept != [] && kept[|kept| - 1] != ".." then kept[..|kept| - 1]
    else if absolute then kept else kept + [".."]
  }

  function PushAll(kept: seq<string>, segments: seq<string>, absolute: bool): seq<string>
    decreases |segments|
  {
    if segments == [] then kept else PushAll(Push(kept, segments[0], absolute), segments[1..], absolute)
  }

  predicate IsAbsolute(path: string) {
    path != "" && path[0] == '/'
  }

  function Show(absolute: bool, kept: seq<string>): string {
    if kept == [] then (if absolute then "/" else ".") else if absolute then "/" + JoinWith(kept) else JoinWith(kept)
  }

  function Normal(path: string): string {
    if path == "" then "" else Show(IsAbsolute(path), PushAll([], Split(path), IsAbsolute(path)))
  }

  method Normalize(path: string) returns (r: string)
    ensures r == Normal(path)
  {
    hide Split, PushAll, JoinWith;
    if path == "" {
      return "";
    }
    var absolute := path[0] == '/';
    var segments: seq<string> := [];
    var start := 0;
    assert path[0..] == path;
    for i := 0 to |path| + 1
      invariant 0 <= start <= i && start <= |path| + 1
      invariant i <= |path| ==> start <= |path| && IsName(path[start..i])
      invariant i == |path| + 1 ==> start == i
      invariant PushAll([], Split(path), absolute) == PushAll(segments, if start <= |path| then Split(path[start..]) else [], absolute)
    {
      if i != |path| && path[i] != '/' {
        assert path[start..i + 1] == path[start..i] + [path[i]];
        continue;
      }
      var segment := path[start..i];
      NextSegment(path, start, i);
      PushNext(segments, segment, if i < |path| then Split(path[i + 1..]) else [], absolute);
      start := i + 1;
      if segment == "" || segment == "." {
        continue;
      }
      if segment == ".." {
        if |segments| > 0 && segments[|segments| - 1] != ".." {
          segments := segments[..|segments| - 1];
        } else if !absolute {
          segments := segments + [".."];
        }
        continue;
      }
      segments := segments + [segment];
    }
    PushNone(segments, absolute);
    if |segments| == 0 {
      return if absolute then "/" else ".";
    }
    var joined := JoinWith(segments);
    r := if absolute then "/" + joined else joined;
  }

  lemma PushNext(kept: seq<string>, segment: string, more: seq<string>, absolute: bool)
    ensures PushAll(kept, [segment] + more, absolute) == PushAll(Push(kept, segment, absolute), more, absolute)
  {
    assert ([segment] + more)[1..] == more;
  }

  lemma PushNone(kept: seq<string>, absolute: bool)
    ensures PushAll(kept, [], absolute) == kept
  {}

  lemma NextSegment(path: string, start: nat, i: nat)
    requires start <= i <= |path| && IsName(path[start..i]) && (i < |path| ==> path[i] == '/')
    ensures Split(path[start..]) == [path[start..i]] + if i < |path| then Split(path[i + 1..]) else []
  {
    SplitName(path[start..i]);
    if i < |path| {
      SplitConcat(path[start..i], path[i + 1..]);
      assert path[start..] == path[start..i] + "/" + path[i + 1..];
    } else {
      assert path[start..] == path[start..i];
      assert [path[start..i]] + [] == [path[start..i]];
    }
  }

  /** Proper names, after leading ".." segments which only a relative path keeps. */
  predicate Kept(kept: seq<string>, absolute: bool) {
    && AreNames(kept)
    && (forall k :: 0 <= k < |kept| ==> kept[k] != "" && kept[k] != ".")
    && (forall k :: 0 <= k < |kept| && kept[k] == ".." ==> !absolute && forall j :: 0 <= j < k ==> kept[j] == "..")
  }

  lemma {:induction false} PushAllKeeps(kept: seq<string>, segments: seq<string>, absolute: bool)
    requires Kept(kept, absolute) && AreNames(segments)
    ensures Kept(PushAll(kept, segments, absolute), absolute)
    decreases |segments|
  {
    if segments != [] {
      PushKeeps(kept, segments[0], absolute);
      PushAllKeeps(Push(kept, segments[0], absolute), segments[1..], absolute);
    }
  }

  lemma PushKeeps(kept: seq<string>, segment: string, absolute: bool)
    requires Kept(kept, absolute) && IsName(segment)
    ensures Kept(Push(kept, segment, absolute), absolute)
  {
    if segment == ".." && !absolute && !(kept != [] && kept[|kept| - 1] != "..") {
      forall j | 0 <= j < |kept| ensures kept[j] == ".." {}
    }
  }

  lemma {:induction false} PushAllConcat(kept: seq<string>, a: seq<string>, b: seq<string>, absolute: bool)
    ensures PushAll(kept, a + b, absolute) == PushAll(PushAll(kept, a, absolute), b, absolute)
    decreases |a|
  {
    if a == [] {
      assert a + b == b;
    } else {
      assert (a + b)[1..] == a[1..] + b;
      PushAllConcat(Push(kept, a[0], absolute), a[1..], b, absolute);
    }
  }

  /** Segments already kept are kept again. */
  lemma {:induction false} PushAllKept(kept: seq<string>, more: seq<string>, absolute: bool)
    requires Kept(kept + more, absolute)
    ensures PushAll(kept, more, absolute) == kept + more
    decreases |more|
  {
    if more == [] {
      assert kept + more == kept;
    } else {
      var all := kept + more;
      assert all[|kept|] == more[0];
      if more[0] == ".." {
        assert forall j :: 0 <= j < |kept| ==> all[j] == kept[j] && all[j] == "..";
      }
      assert kept + [more[0]] + more[1..] == all;
      PushAllKept(kept + [more[0]], more[1..], absolute);
    }
  }

  // ---- what a normal path is ----

  predicate IsNormal(path: string) {
    path == Normal(path)
  }

  /** The names of a path, without the root marker. */
  function Segments(path: string): seq<string> {
    NonEmpty(Split(path))
  }

  function NonEmpty(parts: seq<string>): seq<string> {
    if parts == [] then [] else (if parts[0] == "" then [] else [parts[0]]) + NonEmpty(parts[1..])
  }

  lemma {:induction false} NonEmptyKept(parts: seq<string>)
    requires forall k :: 0 <= k < |parts| ==> parts[k] != ""
    ensures NonEmpty(parts) == parts
  {
    if parts != [] {
      NonEmptyKept(parts[1..]);
    }
  }

  /** How a shown path splits again. */
  lemma ShowSplits(absolute: bool, kept: seq<string>)
    requires Kept(kept, absolute)
    ensures Show(absolute, kept) != "" && IsAbsolute(Show(absolute, kept)) == absolute
    ensures PushAll([], Split(Show(absolute, kept)), absolute) == kept
    ensures absolute || kept != [] ==> Segments(Show(absolute, kept)) == kept
  {
    var shown := Show(absolute, kept);
    if kept == [] {
      var empty: seq<string> := ["", ""];
      assert Split("") == [""];
      assert "/"[1..] == "";
      assert Split("/") == [""] + [""] == empty;
      assert empty[1..] == [""] && [""][1..] == [];
      assert PushAll([], empty, absolute) == PushAll([], [""], absolute) == PushAll([], [], absolute) == [];
      SplitName(".");
      assert ["."][1..] == [];
      assert PushAll([], ["."], absolute) == PushAll([], [], absolute) == [];
      assert NonEmpty(empty) == NonEmpty([""]) == [];
    } else {
      SplitJoin(kept);
      assert [] + kept == kept;
      PushAllKept([], kept, absolute);
      NonEmptyKept(kept);
      if absolute {
        SplitConcat("", JoinWith(kept));
        assert "" + "/" + JoinWith(kept) == shown;
        assert Split(shown) == [""] + kept;
        assert ([""] + kept)[1..] == kept;
      } else {
        assert JoinWith(kept)[0] == kept[0][0];
      }
    }
  }

  lemma NormalShown(path: string) returns (kept: seq<string>)
    requires path != ""
    ensures kept == PushAll([], Split(path), IsAbsolute(path)) && Kept(kept, IsAbsolute(path))
    ensures Normal(path) == Show(IsAbsolute(path), kept)
  {
    kept := PushAll([], Split(path), IsAbsolute(path));
    SplitNames(path);
    PushAllKeeps([], Split(path), IsAbsolute(path));
  }

  lemma NormalizeIdempotent(path: string)
    ensures IsNormal(Normal(path))
  {
    if path != "" {
      var kept := NormalShown(path);
      ShowSplits(IsAbsolute(path), kept);
    }
  }

  /** Normalizing the front of a path first makes no difference. */
  lemma NormalizeCompositional(a: string, b: string)
    requires a != ""
    ensures Normal(a + "/" + b) == Normal(Normal(a) + "/" + b)
  {
    var absolute := IsAbsolute(a);
    var kept := NormalShown(a);
    ShowSplits(absolute, kept);
    var short := Normal(a);
    assert IsAbsolute(a + "/" + b) == absolute && IsAbsolute(short + "/" + b) == absolute;
    SplitConcat(a, b);
    SplitConcat(short, b);
    PushAllConcat([], Split(a), Split(b), absolute);
    PushAllConcat([], Split(short), Split(b), absolute);
  }

  /** An absolute path normalizes to "/" and proper names: nothing empty, no "." and no "..". */
  lemma AbsoluteNormal(path: string)
    requires IsAbsolute(path)
    ensures IsAbsolute(Normal(path))
    ensures Normal(path) == Show(true, Segments(Normal(path))) && Kept(Segments(Normal(path)), true)
    ensures ".." !in Segments(Normal(path)) && "." !in Segments(Normal(path)) && "" !in Segments(Normal(path))
  {
    var kept := NormalShown(path);
    ShowSplits(true, kept);
  }

  /** A relative path normalizes to ".", or to leading ".." segments and then proper names. */
  lemma RelativeNormal(path: string)
    requires path != "" && !IsAbsolute(path)
    ensures !IsAbsolute(Normal(path))
    ensures Normal(path) == "." || (Normal(path) == Show(false, Segments(Normal(path))) && Kept(Segments(Normal(path)), false))
  {
    var kept := NormalShown(path);
    ShowSplits(false, kept);
  }

  lemma NoSegments(path: string)
    requires IsNormal(path)
    ensures Segments(path) == [] <==> path == "" || path == "/"
  {
    if path == "" {
      assert Split(path) == [""];
      assert NonEmpty([""]) == [] + NonEmpty([""][1..]);
    } else {
      var kept := NormalShown(path);
      ShowSplits(IsAbsolute(path), kept);
      if path == "." {
        SplitName(".");
        assert NonEmpty(["."])[0] == ".";
      }
    }
  }

  // ---- joining, ancestors and relative paths ----

  function Join(path: string, relative: string): string {
    if relative == "" then path
    else if relative[0] == '/' then Normal(relative)
    else if path == "" then Normal(relative)
    else Normal(if path[|path| - 1] == '/' then path + relative else path + "/" + relative)
  }

  function Resolve(cwd: string, path: string): string {
    if path == "" then cwd else if path[0] == '/' then Normal(path) else Join(cwd, path)
  }

  predicate IsUnder(path: string, ancestor: string) {
    if ancestor == "" then false
    else if ancestor == "/" then path != "" && path[0] == '/'
    else |path| >= |ancestor| && path[..|ancestor|] == ancestor && (|path| == |ancestor| || path[|ancestor|] == '/')
  }

  function RelativeTo(path: string, base: string): Option<string> {
    if !IsUnder(path, base) then None
    else if |path| == |base| then Some(Normal("."))
    else if base == "/" then Some(path[1..])
    else Some(path[|base| + 1..])
  }

  /** Resolving from an absolute directory never leaves the root, however many ".." are asked for. */
  lemma ResolveStaysAbsolute(cwd: string, path: string)
    requires IsNormal(cwd) && IsAbsolute(cwd)
    ensures IsNormal(Resolve(cwd, path)) && IsAbsolute(Resolve(cwd, path))
    ensures Kept(Segments(Resolve(cwd, path)), true)
  {
    AbsoluteNormal(cwd);
    if path != "" {
      var raw := if path[0] == '/' then path else if cwd[|cwd| - 1] == '/' then cwd + path else cwd + "/" + path;
      AbsoluteNormal(raw);
      NormalizeIdempotent(raw);
    }
  }

  lemma {:induction false} JoinConcat(a: seq<string>, b: seq<string>)
    requires a != [] && b != []
    ensures JoinWith(a + b) == JoinWith(a) + "/" + JoinWith(b)
  {
    if |a| == 1 {
      assert (a + b)[1..] == b;
    } else {
      assert (a + b)[1..] == a[1..] + b;
      JoinConcat(a[1..], b);
    }
  }

  /** On normal absolute paths the character test is exactly the test on names. */
  lemma IsUnderIsPrefix(path: string, ancestor: string)
    requires IsNormal(path) && IsAbsolute(path) && IsNormal(ancestor) && IsAbsolute(ancestor)
    ensures IsUnder(path, ancestor) <==> Segments(ancestor) <= Segments(path)
  {
    hide Segments, Normal, Kept, Show;
    AbsoluteNormal(path);
    AbsoluteNormal(ancestor);
    var p, a := Segments(path), Segments(ancestor);
    RootOnly(path, p);
    RootOnly(ancestor, a);
    if a == [] {
    } else if IsUnder(path, ancestor) {
      if |path| > |ancestor| {
        var rest := path[|ancestor| + 1..];
        assert path == ancestor + "/" + rest;
        SplitSegments(ancestor, rest);
      } else {
        assert path == ancestor;
      }
    } else if a <= p {
      UnderByNames(p, a);
    }
  }

  lemma RootOnly(path: string, names: seq<string>)
    requires path == Show(true, names) && Kept(names, true)
    ensures names == [] <==> path == "/"
  {
    if names != [] {
      assert |JoinWith(names)| >= |names[0]|;
    }
  }

  lemma SplitSegments(a: string, b: string)
    ensures Segments(a + "/" + b) == Segments(a) + Segments(b)
  {
    SplitConcat(a, b);
    NonEmptyConcat(Split(a), Split(b));
  }

  lemma {:induction false} NonEmptyConcat(a: seq<string>, b: seq<string>)
    ensures NonEmpty(a + b) == NonEmpty(a) + NonEmpty(b)
  {
    if a == [] {
      assert a + b == b;
    } else {
      assert (a + b)[1..] == a[1..] + b;
      NonEmptyConcat(a[1..], b);
    }
  }

  lemma UnderByNames(p: seq<string>, a: seq<string>)
    requires a != [] && a <= p && Kept(p, true)
    ensures IsUnder(Show(true, p), Show(true, a))
  {
    var rest := p[|a|..];
    assert p == a + rest;
    if rest == [] {
      assert p == a;
    } else {
      JoinConcat(a, rest);
      assert Show(true, p) == Show(true, a) + "/" + JoinWith(rest);
    }
    assert a[0] == p[0] && |JoinWith(a)| >= |a[0]|;
  }

  /** Joining a path's relative form to its base gives the path back. */
  lemma JoinRelativeTo(path: string, base: string)
    requires IsNormal(path) && IsAbsolute(path) && IsNormal(base) && IsAbsolute(base) && IsUnder(path, base)
    ensures RelativeTo(path, base).Some? && Join(base, RelativeTo(path, base).value) == path
  {
    var relative := RelativeTo(path, base).value;
    if |path| == |base| {
      assert path == base by { if base != "/" { assert path[..|base|] == path; } }
      assert PushAll([], ["."], false) == PushAll([], ["."][1..], false) == [];
      SplitName(".");
      assert relative == ".";
      JoinDot(path);
    } else {
      AbsoluteNormal(path);
      var p := Segments(path);
      ShowSplits(true, p);
      assert path[1..] == JoinWith(p);
      if base == "/" {
        assert base + relative == path;
        assert relative[0] == p[0][0];
      } else {
        assert base + "/" + relative == path;
        assert relative != "" && relative[0] != '/' by { NoDoubleSeparator(p, base, relative); }
        NotTrailing(base);
      }
    }
  }

  lemma JoinDot(path: string)
    requires IsNormal(path) && IsAbsolute(path)
    ensures Join(path, ".") == path
  {
    var kept := NormalShown(path);
    ShowSplits(true, kept);
    SplitName(".");
    assert ["."][1..] == [];
    if path[|path| - 1] == '/' {
      NotTrailing(path);
      assert path + "." == "" + "/" + ".";
      SplitConcat("", ".");
      assert Split("") == [""];
      assert ([""] + ["."])[1..] == ["."];
      assert PushAll([], ["", "."], true) == PushAll([], ["."], true) == PushAll([], [], true);
    } else {
      SplitConcat(path, ".");
      PushAllConcat([], Split(path), ["."], true);
      assert PushAll(kept, ["."], true) == PushAll(kept, [], true);
    }
  }

  /** A normal path other than "/" does not end in a separator. */
  lemma NotTrailing(path: string)
    requires IsNormal(path) && IsAbsolute(path)
    ensures path != "/" ==> path[|path| - 1] != '/'
  {
    if path != "/" {
      AbsoluteNormal(path);
      var p := Segments(path);
      SplitJoin(p);
      SplitConcat("", JoinWith(p));
      assert path == "" + "/" + JoinWith(p);
      assert Split(path) == [""] + p;
      if path[|path| - 1] == '/' {
        SplitTrailing(path);
        assert false;
      }
    }
  }

  lemma NoDoubleSeparator(p: seq<string>, base: string, relative: string)
    requires Kept(p, true) && p != [] && Show(true, p) == base + "/" + relative && base != ""
    ensures relative != "" && relative[0] != '/'
  {
    SplitJoin(p);
    SplitConcat("", JoinWith(p));
    assert Show(true, p) == "" + "/" + JoinWith(p);
    SplitConcat(base, relative);
    assert Split(base) + Split(relative) == [""] + p;
    var first := Split(relative)[0];
    assert first == ([""] + p)[|Split(base)|] == p[|Split(base)| - 1];
    SplitStep(relative);
  }
}
