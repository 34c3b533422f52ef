/**
 What the filesystem operations keep: a tree below one root, counters that equal a recount,
 and the quotas, after any run; and what a rename moves and leaves alone.
 */
module FileTreeLaws {
  import opened Wrappers
  import opened VirtualPath
  import opened FileTree

  // ---- recounts ----

  lemma {:induction false} TotalTake(t: Tree, p: Path, m: Measure)
    requires p in t
    ensures Total(t, m) == Weigh(m, t[p]) + Total(t - {p}, m)
    decreases |t|
  {
    hide Weigh;
    var q: Path :| q in t && Total(t, m) == Weigh(m, t[q]) + Total(t - {q}, m);
    if q != p {
      TotalTake(t - {q}, p, m);
      TotalTake(t - {p}, q, m);
      assert t - {q} - {p} == t - {p} - {q};
    }
  }

  lemma TotalPut(t: Tree, p: Path, e: Entry, m: Measure)
    ensures Total(t[p := e], m) == Weigh(m, e) + Total(t - {p}, m)
    ensures p !in t ==> t - {p} == t
  {
    hide Weigh, Total;
    TotalTake(t[p := e], p, m);
    assert t[p := e] - {p} == t - {p};
  }

  lemma UnionTake(a: Tree, b: Tree, p: Path)
    requires p in a && p !in b
    ensures (a + b) - {p} == (a - {p}) + b && (a + b)[p] == a[p]
  {}

  lemma TotalNone(m: Measure)
    ensures Total(map[], m) == 0
  {}

  lemma {:induction false} TotalUnion(a: Tree, b: Tree, m: Measure)
    requires a.Keys !! b.Keys
    ensures Total(a + b, m) == Total(a, m) + Total(b, m)
    decreases |a|
  {
    hide Weigh, Total;
    if a == map[] {
      assert a + b == b;
      TotalNone(m);
    } else {
      var p: Path :| p in a;
      TotalTake(a, p, m);
      TotalTake(a + b, p, m);
      UnionTake(a, b, p);
      TotalUnion(a - {p}, b, m);
    }
  }

  /** `b` is `a` with every path's prefix `from` exchanged for `to`. */
  ghost predicate Rebases<T>(a: map<Path, T>, b: map<Path, T>, from: Path, to: Path) {
    && (forall p: Path :: p in a ==> from <= p && to + p[|from|..] in b && b[to + p[|from|..]] == a[p])
    && (forall q: Path :: q in b ==> to <= q && from + q[|to|..] in a)
  }

  lemma {:induction false} TotalRebases(a: Tree, b: Tree, from: Path, to: Path, m: Measure)
    requires Rebases(a, b, from, to)
    ensures Total(a, m) == Total(b, m)
    decreases |a|
  {
    hide Weigh;
    if a == map[] {
      assert b == map[];
    } else {
      var p: Path :| p in a;
      var q := to + p[|from|..];
      TotalTake(a, p, m);
      TotalTake(b, q, m);
      RebasesSmaller(a, b, from, to, p);
      TotalRebases(a - {p}, b - {q}, from, to, m);
    }
  }

  lemma RebasesSmaller(a: Tree, b: Tree, from: Path, to: Path, p: Path)
    requires Rebases(a, b, from, to) && p in a
    ensures Rebases(a - {p}, b - {to + p[|from|..]}, from, to)
  {
    var q := to + p[|from|..];
    ThereAndBack(p, from, to);
    forall r: Path | r in a && r != p ensures to + r[|from|..] != q {
      ThereAndBack(r, from, to);
    }
    forall r: Path | r in b && r != q ensures from + r[|to|..] != p {
      ThereAndBack(r, to, from);
    }
  }

  lemma ThereAndBack(p: Path, from: Path, to: Path)
    requires from <= p
    ensures to <= to + p[|from|..] && from + (to + p[|from|..])[|to|..] == p
  {
    assert (to + p[|from|..])[|to|..] == p[|from|..];
  }

  lemma RebasedRebases<T>(t: map<Path, T>, from: Path, to: Path)
    ensures Rebases(Subtree(t, from), Rebased(t, from, to), from, to)
    ensures forall q: Path :: q in Rebased(t, from, to) <==> to <= q && from + q[|to|..] in t
    ensures forall q: Path :: q in Rebased(t, from, to) ==> Rebased(t, from, to)[q] == t[from + q[|to|..]]
  {
    var a, b := Subtree(t, from), Rebased(t, from, to);
    forall p: Path | p in a ensures to + p[|from|..] in b && b[to + p[|from|..]] == a[p] {
      var q := to + p[|from|..];
      assert q[|to|..] == p[|from|..];
      assert from + q[|to|..] == p;
    }
    forall q: Path | to <= q && from + q[|to|..] in t ensures q in b {
      var p := from + q[|to|..];
      assert p[|from|..] == q[|to|..];
      assert q == to + p[|from|..];
      assert p in a;
    }
  }

  lemma TotalSplit(t: Tree, p: Path, m: Measure)
    ensures Total(t, m) == Total(Without(t, p), m) + Total(Subtree(t, p), m)
  {
    hide Total, Weigh;
    TotalUnion(Without(t, p), Subtree(t, p), m);
    assert Without(t, p) + Subtree(t, p) == t;
  }

  // ---- the shape of a tree ----

  /** All that leads to a path in a tree is a directory in it. */
  lemma {:induction false} Ancestors(t: Tree, p: Path, k: nat)
    requires IsTree(t) && p in t && k < |p|
    ensures p[..k] in t && t[p[..k]].Directory?
    decreases |p| - k
  {
    if k + 1 < |p| {
      Ancestors(t, p, k + 1);
      assert Parent(p[..k + 1]) == p[..k];
    }
  }

  lemma Below(t: Tree, p: Path, q: Path)
    requires IsTree(t) && q in t && p < q
    ensures p in t && t[p].Directory?
  {
    Ancestors(t, q, |p|);
    assert q[..|p|] == p;
  }

  lemma {:induction false} ParentErrorNone(t: Tree, p: Path, i: nat)
    requires IsTree(t) && i < |p|
    requires p[..i] in t && t[p[..i]].Directory?
    ensures ParentError(t, p, i).None? <==> Parent(p) in t && t[Parent(p)].Directory?
    decreases |p| - i
  {
    if i + 1 < |p| {
      if p[..i + 1] in t && t[p[..i + 1]].Directory? {
        ParentErrorNone(t, p, i + 1);
      } else if Parent(p) in t {
        assert Parent(p)[..i + 1] == p[..i + 1];
        if i + 1 < |p| - 1 {
          Ancestors(t, Parent(p), i + 1);
        }
      }
    } else {
      assert Parent(p) == p[..i];
    }
  }

  /** A path resolves to a parent exactly when its parent is a directory there. */
  lemma Resolved(t: Tree, p: Path)
    requires IsTree(t)
    ensures ResolveParent(t, p).None? <==> p != [] && Parent(p) in t && t[Parent(p)].Directory?
  {
    if p != [] {
      assert p[..0] == [];
      ParentErrorNone(t, p, 0);
    }
  }

  // ---- writing ----

  lemma TreePut(t: Tree, p: Path, e: Entry)
    requires IsTree(t) && p != [] && Parent(p) in t && t[Parent(p)].Directory?
    requires p in t ==> t[p].File? && e.File?
    ensures IsTree(t[p := e])
  {}

  lemma AccountedPut(s: State, p: Path, e: Entry, after: State)
    requires Accounted(s)
    requires after.tree == s.tree[p := e]
    requires forall m | m in {Bytes, Files, Directories} ::
               Counter(after, m) == Counter(s, m) + Weigh(m, e) - if p in s.tree then Weigh(m, s.tree[p]) else 0
    ensures Accounted(after)
  {
    hide Total, Weigh;
    forall m | m in {Bytes, Files, Directories} ensures Counter(after, m) == Total(after.tree, m) {
      assert Counter(s, m) == Total(s.tree, m);
      TotalPut(s.tree, p, e, m);
      if p in s.tree { TotalTake(s.tree, p, m); }
    }
    assert Counter(after, Bytes) == Total(after.tree, Bytes);
    assert Counter(after, Files) == Total(after.tree, Files);
    assert Counter(after, Directories) == Total(after.tree, Directories);
  }

  function Counter(s: State, m: Measure): int {
    match m
    case Bytes => s.bytes
    case Files => s.files
    case Directories => s.directories
  }

  /** The quotas, on the counters and on each file. */
  ghost predicate Within(l: Limits, s: State) {
    && s.bytes <= l.maxTotalBytes && s.files <= l.maxFiles
    && forall p: Path :: p in s.tree && s.tree[p].File? ==> |s.tree[p].content| <= l.maxFileBytes
  }

  lemma WriteKeeps(l: Limits, s: State, p: Path, content: seq<bv8>, append: bool)
    requires IsTree(s.tree)
    ensures IsTree(Write(l, s, p, content, append).0.tree)
    ensures Accounted(s) ==> Accounted(Write(l, s, p, content, append).0)
    ensures Within(l, s) ==> Within(l, Write(l, s, p, content, append).0)
  {
    hide Accounted, Total, ResolveParent;
    var (after, error) := Write(l, s, p, content, append);
    Resolved(s.tree, p);
    if error.None? {
      var e := after.tree[p];
      TreePut(s.tree, p, e);
      if Accounted(s) { AccountedPut(s, p, e, after); }
    }
  }

  /** A written file reads back; an append reads back as what was there and then the addition. */
  lemma WriteReads(l: Limits, s: State, p: Path, content: seq<bv8>, append: bool)
    requires Write(l, s, p, content, append).1.None?
    ensures Read(Write(l, s, p, content, append).0, p)
            == Ok(if append && p in s.tree then Read(s, p).value + content else content)
    ensures forall q: Path :: q != p ==> Read(Write(l, s, p, content, append).0, q) == Read(s, q)
  {
    hide ResolveParent;
  }

  /** Two appends that succeed leave what one append of both would. */
  lemma AppendAppend(l: Limits, s: State, p: Path, a: seq<bv8>, b: seq<bv8>)
    requires IsTree(s.tree) && Write(l, s, p, a, true).1.None? && Write(l, Write(l, s, p, a, true).0, p, b, true).1.None?
    ensures Write(l, s, p, a + b, true) == Write(l, Write(l, s, p, a, true).0, p, b, true)
  {
    hide ResolveParent;
    var s1 := Write(l, s, p, a, true).0;
    var s2 := Write(l, s1, p, b, true).0;
    if p in s.tree {
      assert s.tree[p].content + a + b == s.tree[p].content + (a + b);
    }
    assert s2.tree == s.tree[p := s2.tree[p]];
  }

  // ---- directories ----

  lemma {:induction false} MakeKeeps(l: Limits, s: State, p: Path, recursive: bool, i: nat)
    requires IsTree(s.tree) && i <= |p|
    requires i < |p| ==> p[..i] in s.tree && s.tree[p[..i]].Directory?
    ensures IsTree(MakeFrom(l, s, p, recursive, i).0.tree)
    ensures Accounted(s) ==> Accounted(MakeFrom(l, s, p, recursive, i).0)
    ensures Within(l, s) ==> Within(l, MakeFrom(l, s, p, recursive, i).0)
    decreases |p| - i
  {
    hide Accounted, Total;
    if i < |p| {
      var here := p[..i + 1];
      assert Parent(here) == p[..i];
      if here in s.tree {
        if s.tree[here].Directory? { MakeKeeps(l, s, p, recursive, i + 1); }
      } else {
        var s1 := s.(tree := s.tree[here := Directory], directories := s.directories + 1);
        TreePut(s.tree, here, Directory);
        if Accounted(s) { AccountedPut(s, here, Directory, s1); }
        MakeKeeps(l, s1, p, recursive, i + 1);
      }
    }
  }

  /** The directories a `mkdir` adds are prefixes of its path, and on success all of them are there. */
  lemma {:induction false} MakeMakes(l: Limits, s: State, p: Path, recursive: bool, i: nat)
    requires i <= |p|
    ensures var (after, error) := MakeFrom(l, s, p, recursive, i);
            && (forall q: Path :: q in s.tree ==> q in after.tree && after.tree[q] == s.tree[q])
            && (forall q: Path :: q in after.tree && q !in s.tree ==> q <= p && after.tree[q] == Directory)
            && (error.None? ==> forall k :: i < k <= |p| ==> p[..k] in after.tree && after.tree[p[..k]] == Directory)
            && (error.Some? && !recursive ==> after == s)
    decreases |p| - i
  {
    if i < |p| {
      var here := p[..i + 1];
      if here in s.tree {
        MakeMakes(l, s, p, recursive, i + 1);
      } else {
        var s1 := s.(tree := s.tree[here := Directory], directories := s.directories + 1);
        MakeMakes(l, s1, p, recursive, i + 1);
        if i + 1 == |p| { assert MakeFrom(l, s1, p, recursive, i + 1) == (s1, None); }
      }
    }
  }

  // ---- removing ----

  lemma WithoutIsTree(t: Tree, p: Path)
    requires IsTree(t) && p != []
    ensures IsTree(Without(t, p))
  {
    forall q: Path | q in Without(t, p) && q != [] ensures Parent(q) in Without(t, p) {
      if p <= Parent(q) { assert p <= q; }
    }
  }

  lemma RemoveKeeps(s: State, path: string, recursive: bool)
    requires IsTree(s.tree)
    ensures IsTree(Remove(s, path, recursive).0.tree)
    ensures Accounted(s) ==> Accounted(Remove(s, path, recursive).0)
    ensures forall l :: Within(l, s) ==> Within(l, Remove(s, path, recursive).0)
  {
    hide Total, ResolveParent, Segments, HasChildren;
    var p := Segments(path);
    Resolved(s.tree, p);
    if Remove(s, path, recursive).1.None? {
      WithoutIsTree(s.tree, p);
      TotalSplit(s.tree, p, Bytes);
      TotalSplit(s.tree, p, Files);
      TotalSplit(s.tree, p, Directories);
    }
  }

  // ---- renaming ----

  lemma PrefixParent(p: Path, q: Path)
    requires q != []
    ensures p <= Parent(q) <==> p < q
  {
    if p < q { assert Parent(q)[..|p|] == q[..|p|]; }
  }

  /** What a successful rename knows about its two paths. */
  lemma RenameFacts(s: State, from: string, to: string)
    requires IsTree(s.tree) && Rename(s, from, to).1.None?
    ensures var t, f, q := s.tree, Segments(from), Segments(to);
            && f != [] && f in t && q != [] && Parent(q) in t && t[Parent(q)].Directory?
            && !HasChildren(t, q)
            && !(q < f)
            && (Parent(q) in Without(t, f) <==> !(f < q))
            && (f < q ==> t[f].Directory?)
  {
    hide Segments, ResolveParent, Total, IsUnder;
    var t, f, q := s.tree, Segments(from), Segments(to);
    Resolved(t, f);
    Resolved(t, q);
    if HasChildren(t, q) {
      var r: Path :| r in t && q < r;
      Below(t, q, r);
      assert false;
    }
    PrefixParent(f, q);
    assert q < f ==> HasChildren(t, q);
    if f < Parent(q) {
      Below(t, f, Parent(q));
    } else if f < q {
      assert f == Parent(q);
    }
  }

  lemma RenameKeepsTree(s: State, from: string, to: string)
    requires IsTree(s.tree)
    ensures IsTree(Rename(s, from, to).0.tree)
  {
    hide Segments, ResolveParent, Total, Rebased, IsUnder;
    if Rename(s, from, to).1.None? {
      RenameFacts(s, from, to);
      MovedIsTree(s.tree, Segments(from), Segments(to));
    }
  }

  lemma MovedIsTree(t: Tree, f: Path, q: Path)
    requires IsTree(t) && f != [] && f in t && q != []
    requires Parent(q) in t && t[Parent(q)].Directory?
    ensures IsTree(Moved(t, f, q))
  {
    hide Rebased;
    var rest := Without(t, f);
    WithoutIsTree(t, f);
    if Parent(q) in rest {
      var base, grafted := Without(rest, q), Rebased(t, f, q);
      WithoutIsTree(rest, q);
      RebasedRebases(t, f, q);
      var after := base + grafted;
      assert after == Moved(t, f, q);
      assert Parent(q) in base;
      forall r: Path | r in after && r != [] ensures Parent(r) in after && after[Parent(r)].Directory? {
        if r in grafted {
          if r != q { GraftParent(t, f, q, r); } else { assert Parent(q) !in grafted; }
        } else {
          assert Parent(r) in base;
          PrefixParent(q, r);
        }
      }
    }
  }

  lemma GraftParent(t: Tree, f: Path, q: Path, r: Path)
    requires IsTree(t) && r in Rebased(t, f, q) && r != q && f in t
    ensures r != [] && Parent(r) in Rebased(t, f, q) && Rebased(t, f, q)[Parent(r)].Directory?
  {
    hide Rebased;
    RebasedRebases(t, f, q);
    var source := f + r[|q|..];
    assert q < r;
    PrefixParent(q, r);
    assert Parent(source) == f + Parent(r)[|q|..];
    assert source in t;
    assert Parent(source) in Subtree(t, f);
    ThereAndBack(Parent(r), q, f);
  }

  /** A rename keeps the counters right exactly when its target is not its source, nor below it. */
  lemma RenameAccounted(s: State, from: string, to: string)
    requires IsTree(s.tree) && Accounted(s) && Rename(s, from, to).1.None?
    ensures Accounted(Rename(s, from, to).0) <==> !(Segments(from) <= Segments(to))
  {
    hide Segments, ResolveParent, Total, Rebased, IsUnder, HasChildren, IsTree;
    var t, f, q := s.tree, Segments(from), Segments(to);
    RenameFacts(s, from, to);
    if f <= q {
      LostCount(t, f, q);
    } else {
      MovedTotal(t, f, q, Bytes);
      MovedTotal(t, f, q, Files);
      MovedTotal(t, f, q, Directories);
    }
  }

  lemma Diverge(f: Path, q: Path, r: Path)
    requires q <= r && f <= r
    ensures f <= q || q <= f
  {
    assert r[..|f|] == f && r[..|q|] == q;
    if |f| <= |q| { assert q[..|f|] == f; } else { assert f[..|q|] == q; }
  }

  lemma MovedTotal(t: Tree, f: Path, q: Path, m: Measure)
    requires q != [] && !(f <= q) && !(q <= f) && Parent(q) in Without(t, f)
    ensures Total(Moved(t, f, q), m) == Total(t, m) - Total(Subtree(t, q), m)
    ensures Moved(t, f, q) == Without(Without(t, f), q) + Rebased(t, f, q)
  {
    hide Total, Rebased;
    var rest := Without(t, f);
    RebasedRebases(t, f, q);
    TotalUnion(Without(rest, q), Rebased(t, f, q), m);
    TotalRebases(Subtree(t, f), Rebased(t, f, q), f, q, m);
    TotalSplit(t, f, m);
    TotalSplit(rest, q, m);
    assert Subtree(rest, q) == Subtree(t, q) by {
      forall r: Path | r in t && q <= r ensures !(f <= r) { if f <= r { Diverge(f, q, r); } }
    }
  }

  /** When the target is at or below the source, the source is forgotten on one side only. */
  lemma LostCount(t: Tree, f: Path, q: Path)
    requires f in t && f <= q && q != [] && !HasChildren(t, q)
    requires Parent(q) in Without(t, f) <==> !(f < q)
    requires f < q ==> t[f].Directory?
    ensures exists m :: Total(Moved(t, f, q), m) != Total(t, m) - Total(Subtree(t, q), m) && m in {Files, Directories}
  {
    hide Total, Rebased;
    var rest := Without(t, f);
    if f == q {
      MovedOnto(t, f);
      var m := if t[f].File? then Files else Directories;
      TotalTake(Subtree(t, f), f, m);
      assert Total(Moved(t, f, q), m) != Total(t, m) - Total(Subtree(t, q), m);
    } else {
      var m := Directories;
      TotalSplit(t, f, m);
      TotalTake(Subtree(t, f), f, m);
      var below := Subtree(t, f) - {f};
      TotalSplit(below, q, m);
      assert Subtree(below, q) == Subtree(t, q);
      assert Total(Moved(t, f, q), m) != Total(t, m) - Total(Subtree(t, q), m);
    }
  }

  lemma MovedOnto(t: Tree, f: Path)
    requires f != [] && f in t && Parent(f) in Without(t, f)
    ensures Moved(t, f, f) == t
  {
    hide Rebased;
    RebasedRebases(t, f, f);
    var rest := Without(t, f);
    assert Without(rest, f) == rest;
    forall q: Path | f <= q ensures f + q[|f|..] == q {}
    assert rest + Rebased(t, f, f) == t;
  }

  /** Between normal absolute paths that happens only to a file renamed onto itself. */
  lemma RenameOntoItself(s: State, from: string, to: string)
    requires IsTree(s.tree) && Rename(s, from, to).1.None?
    requires IsNormal(from) && IsAbsolute(from) && IsNormal(to) && IsAbsolute(to)
    ensures Segments(from) <= Segments(to) <==> from == to
    ensures from == to ==> s.tree[Segments(from)].File? && Rename(s, from, to).0.tree == s.tree
  {
    hide Segments, ResolveParent, Total, Rebased, IsUnder, HasChildren, IsTree, IsNormal, Moved;
    var f, q := Segments(from), Segments(to);
    RenameFacts(s, from, to);
    IsUnderIsPrefix(to, from);
    if f <= q {
      assert f == q;
      AbsoluteNormal(from);
      AbsoluteNormal(to);
      assert from == Normal(from) && to == Normal(to) by { NormalIs(from); NormalIs(to); }
      MovedOnto(s.tree, f);
    }
  }

  lemma NormalIs(path: string)
    requires IsNormal(path)
    ensures path == Normal(path)
  {}

  /** The guard compares text: it stops a move into the directory itself if and only if the target is absolute. */
  lemma GuardExactly(from: string, to: string)
    requires IsNormal(from) && IsAbsolute(from) && IsNormal(to)
    ensures IsUnder(to, from) <==> IsAbsolute(to) && Segments(from) <= Segments(to)
  {
    hide Segments, IsNormal;
    if IsAbsolute(to) { IsUnderIsPrefix(to, from); }
  }

  /** A directory moved below itself, which a relative target can ask for, is gone with all that is in it. */
  lemma MovedBelowItself(s: State, from: string, to: string)
    requires IsTree(s.tree) && Rename(s, from, to).1.None? && Segments(from) < Segments(to)
    ensures Rename(s, from, to).0.tree == Without(s.tree, Segments(from))
  {
    hide Segments, ResolveParent, Total, Rebased, IsUnder, HasChildren, IsTree;
    var f, q := Segments(from), Segments(to);
    RenameFacts(s, from, to);
    assert f <= Parent(q);
  }

  /** Such a target: `a/b` for `/a`. */
  lemma RelativeTargetPassesTheGuard()
    ensures !IsUnder("a/b", "/a") && Segments("/a") < Segments("a/b")
    ensures IsNormal("a/b") && IsNormal("/a")
  {
    ShowSplits(true, ["a"]);
    assert Show(true, ["a"]) == "/a";
    assert JoinWith(["a", "b"]) == "a" + "/" + JoinWith(["a", "b"][1..]) == "a/b";
    ShowSplits(false, ["a", "b"]);
  }

  /** Exactly the named subtree moves: its entries are found under the new name and no lookup elsewhere changes. */
  lemma RenameMoves(s: State, from: string, to: string, p: Path)
    requires IsTree(s.tree) && Rename(s, from, to).1.None? && !(Segments(from) <= Segments(to))
    ensures var f, q, after := Segments(from), Segments(to), Rename(s, from, to).0.tree;
            if q <= p then (p in after <==> f + p[|q|..] in s.tree) && (p in after ==> after[p] == s.tree[f + p[|q|..]])
            else if f <= p then p !in after
            else (p in after <==> p in s.tree) && (p in after ==> after[p] == s.tree[p])
  {
    hide Segments, ResolveParent, Total, IsUnder, HasChildren, IsTree, Rebased;
    var f, q := Segments(from), Segments(to);
    RenameFacts(s, from, to);
    MovedTotal(s.tree, f, q, Bytes);
    RebasedRebases(s.tree, f, q);
    if q <= p && f + p[|q|..] in s.tree {
      var source := f + p[|q|..];
      assert source[|f|..] == p[|q|..];
      assert q + source[|f|..] == p;
    }
  }

  lemma NothingBelow(t: Tree, q: Path)
    requires IsTree(t) && q !in t
    ensures Subtree(t, q) == map[] && !HasChildren(t, q)
  {
    hide IsTree;
    forall r: Path | r in t ensures !(q <= r) {
      if q <= r {
        assert q != r;
        Below(t, q, r);
      }
    }
    assert forall r: Path :: r !in Subtree(t, q);
  }

  lemma EmptyTotal(s: State)
    ensures Released(s, map[]) == s
  {}

  /** Renaming to a free name and back restores everything. */
  lemma RenameBack(s: State, from: string, to: string)
    requires IsTree(s.tree) && Rename(s, from, to).1.None? && Segments(to) !in s.tree
    requires IsNormal(from) && IsAbsolute(from) && IsNormal(to) && IsAbsolute(to)
    ensures Rename(Rename(s, from, to).0, to, from) == (s, None)
  {
    hide Segments, ResolveParent, Total, IsUnder, HasChildren, IsTree, Subtree, Rebased, Moved, IsNormal, Released;
    var t, f, q := s.tree, Segments(from), Segments(to);
    RenameFacts(s, from, to);
    RenameOntoItself(s, from, to);
    NothingBelow(t, q);
    EmptyTotal(s);
    var t1 := Moved(t, f, q);
    RenameKeepsTree(s, from, to);
    assert Rename(s, from, to).0 == s.(tree := t1);
    BackIsFree(t, f, q);
    NothingBelow(t1, f);
    EmptyTotal(s.(tree := t1));
    Resolved(t1, f);
    Resolved(t1, q);
    IsUnderIsPrefix(from, to);
    MovedBack(t, f, q);
  }

  /** After a move to a free name the old name is free, and both names still have their parents. */
  lemma BackIsFree(t: Tree, f: Path, q: Path)
    requires IsTree(t) && f in t && f != [] && q != [] && q !in t && !(f <= q) && Parent(q) in t && t[Parent(q)].Directory?
    ensures var after := Moved(t, f, q);
            && !(q <= f) && f !in after && q in after
            && Parent(f) in after && after[Parent(f)].Directory?
            && Parent(q) in after && after[Parent(q)].Directory?
  {
    hide Rebased;
    if q <= f { if q < f { Below(t, q, f); } }
    RebasedRebases(t, f, q);
    assert f + q[|q|..] == f;
    PrefixParent(q, f);
    PrefixParent(f, q);
    assert Parent(f) in Without(t, f);
  }

  lemma MovedBack(t: Tree, f: Path, q: Path)
    requires IsTree(t) && f in t && f != [] && q != [] && q !in t && !(f <= q) && Parent(q) in t && t[Parent(q)].Directory?
    ensures Moved(Moved(t, f, q), q, f) == t
  {
    hide IsTree, Rebased, Moved, Without, Subtree;
    var t1, rest := Moved(t, f, q), Without(t, f);
    BackIsFree(t, f, q);
    NothingBelow(t, q);
    PrefixParent(f, q);
    PrefixParent(q, f);
    InWithout(t, f, Parent(q));
    GraftAndCut(t, f, q);
    InWithout(t, f, Parent(f));
    ParentIn(t, f);
    MovedIs(t1, q, f);
    CutAndPaste(t, f);
    RebasedBack(t, f, q);
  }

  lemma ParentIn(t: Tree, f: Path)
    requires IsTree(t) && f in t && f != []
    ensures Parent(f) in t
  {}

  lemma InWithout<T>(t: map<Path, T>, f: Path, p: Path)
    ensures p in Without(t, f) <==> p in t && !(f <= p)
  {}

  lemma MovedIs<T>(t: map<Path, T>, f: Path, q: Path)
    requires q != [] && Parent(q) in Without(t, f)
    ensures Moved(t, f, q) == Without(Without(t, f), q) + Rebased(t, f, q)
  {}

  lemma CutAndPaste<T>(t: map<Path, T>, f: Path)
    ensures Without(Without(t, f), f) == Without(t, f)
    ensures Without(t, f) + Subtree(t, f) == t
  {}

  lemma GraftAndCut(t: Tree, f: Path, q: Path)
    requires q != [] && Subtree(t, q) == map[] && Parent(q) in Without(t, f)
    ensures Moved(t, f, q) == Without(t, f) + Rebased(t, f, q)
    ensures Without(Moved(t, f, q), q) == Without(t, f)
    ensures Subtree(Moved(t, f, q), q) == Rebased(t, f, q)
  {
    hide Rebased;
    RebasedRebases(t, f, q);
    var rest := Without(t, f);
    assert forall r: Path :: r in t ==> r !in Subtree(t, q);
    assert Without(rest, q) == rest;
  }

  lemma RebasedBack(t: Tree, f: Path, q: Path)
    requires q != [] && Subtree(t, q) == map[] && Parent(q) in Without(t, f)
    ensures Rebased(Moved(t, f, q), q, f) == Subtree(t, f)
  {
    hide Rebased, Moved;
    var t1 := Moved(t, f, q);
    GraftAndCut(t, f, q);
    RebasedRebases(t, f, q);
    RebasedRebases(t1, q, f);
    forall p: Path | f <= p
      ensures p in Rebased(t1, q, f) <==> p in t
      ensures p in t ==> Rebased(t1, q, f)[p] == t[p]
    {
      ThereAndBack(p, f, q);
      var there := q + p[|f|..];
      assert there in t1 <==> there in Subtree(t1, q);
    }
  }

  /** Nothing in the tree is nested, or named, beyond the limits. */
  ghost predicate Bounded(l: Limits, t: Tree) {
    forall p: Path :: p in t ==> |p| <= l.maxDepth && forall k :: 0 <= k < |p| ==> |p[k]| <= l.maxNameLength
  }

  predicate Short(l: Limits, p: Path) {
    |p| <= l.maxDepth && forall k :: 0 <= k < |p| ==> |p[k]| <= l.maxNameLength
  }

  lemma ParentShort(l: Limits, t: Tree, p: Path)
    requires Bounded(l, t) && p != [] && Parent(p) in t && |p| <= l.maxDepth && |p[|p| - 1]| <= l.maxNameLength
    ensures Short(l, p)
  {
    forall k | 0 <= k < |p| ensures |p[k]| <= l.maxNameLength {
      if k < |p| - 1 { assert p[k] == Parent(p)[k]; }
    }
  }

  /** Every other operation checks what it adds: writing, copying, making and removing keep both limits. */
  lemma WriteBounded(l: Limits, s: State, p: Path, content: seq<bv8>, append: bool)
    requires IsTree(s.tree) && Bounded(l, s.tree)
    ensures Bounded(l, Write(l, s, p, content, append).0.tree)
  {
    hide ResolveParent, IsTree;
    Resolved(s.tree, p);
    if Write(l, s, p, content, append).1.None? { ParentShort(l, s.tree, p); }
  }

  lemma {:induction false} MakeBounded(l: Limits, s: State, p: Path, recursive: bool, i: nat)
    requires Bounded(l, s.tree) && i <= |p| && (i < |p| ==> p[..i] in s.tree)
    ensures Bounded(l, MakeFrom(l, s, p, recursive, i).0.tree)
    decreases |p| - i
  {
    if i < |p| {
      var here := p[..i + 1];
      assert Parent(here) == p[..i] && here[|here| - 1] == p[i];
      if here in s.tree { MakeBounded(l, s, p, recursive, i + 1); }
      else if |p[i]| <= l.maxNameLength && i + 1 <= l.maxDepth {
        ParentShort(l, s.tree, here);
        MakeBounded(l, s.(tree := s.tree[here := Directory], directories := s.directories + 1), p, recursive, i + 1);
      }
    }
  }

  /** A move fits when its target's name and all that moves with it keep the limits. */
  ghost predicate Fits(l: Limits, s: State, op: Operation) {
    op.Move? ==>
    var f, q := Segments(op.path), Segments(op.to);
    Rename(s, op.path, op.to).1.None? ==>
    !(f <= q) ==> |q[|q| - 1]| <= l.maxNameLength && forall p: Path :: p in s.tree && f <= p ==> |q| + |p| - |f| <= l.maxDepth
  }

  lemma ApplyBounded(l: Limits, s: State, op: Operation)
    requires IsTree(s.tree) && Bounded(l, s.tree)
    ensures Fits(l, s, op) <==> Bounded(l, Apply(l, s, op).tree)
  {
    hide IsTree, Bounded, Write, MakeFrom, Segments, Moved, HasChildren, ResolveParent, IsUnder;
    match op
    case WriteFile(path, content, append) => WriteBounded(l, s, Segments(path), content, append);
    case CreateDirectory(path, recursive) =>
      RootIn(s.tree);
      MakeBounded(l, s, Segments(path), recursive, 0);
    case RemoveAt(path, recursive) => FewerBounded(l, s.tree, Remove(s, path, recursive).0.tree);
    case CopyFile(path, to) =>
      var read := Read(s, Segments(path));
      if read.Ok? { WriteBounded(l, s, Segments(to), read.value, false); }
    case Move(path, to) => MoveBounded(l, s, path, to);
  }

  lemma MoveBounded(l: Limits, s: State, path: string, to: string)
    requires IsTree(s.tree) && Bounded(l, s.tree)
    ensures Fits(l, s, Move(path, to)) <==> Bounded(l, Rename(s, path, to).0.tree)
  {
    hide IsTree, Bounded, Segments, Moved, HasChildren, ResolveParent, IsUnder, Rename;
    if Rename(s, path, to).1.Some? { RenameFails(s, path, to); }
    else if !(Segments(path) <= Segments(to)) { RenameBounded(l, s, path, to); }
    else if Segments(path) == Segments(to) {
      RenameFacts(s, path, to);
      MovedOnto(s.tree, Segments(path));
      MovedTree(s, path, to);
    }
    else {
      MovedBelowItself(s, path, to);
      FewerBounded(l, s.tree, Rename(s, path, to).0.tree);
    }
  }

  lemma MovedTree(s: State, path: string, to: string)
    requires Rename(s, path, to).1.None?
    ensures Segments(to) != [] && Rename(s, path, to).0.tree == Moved(s.tree, Segments(path), Segments(to))
  {
    hide Segments;
  }

  lemma FewerBounded(l: Limits, t: Tree, less: Tree)
    requires Bounded(l, t) && forall p: Path :: p in less ==> p in t
    ensures Bounded(l, less)
  {}

  ghost predicate AllFit(l: Limits, s: State, ops: seq<Operation>)
    decreases |ops|
  {
    ops == [] || (Fits(l, s, ops[0]) && AllFit(l, Apply(l, s, ops[0]), ops[1..]))
  }

  /** Over a whole run nothing is nested or named beyond the limits, as long as each move fits when it is made. */
  lemma {:induction false} RunBounded(l: Limits, s: State, ops: seq<Operation>)
    requires IsTree(s.tree) && Bounded(l, s.tree) && AllFit(l, s, ops)
    ensures Bounded(l, Run(l, s, ops).tree)
    decreases |ops|
  {
    hide IsTree, Bounded, Apply, Fits;
    if ops != [] {
      ApplyKeeps(l, s, ops[0]);
      ApplyBounded(l, s, ops[0]);
      RunBounded(l, Apply(l, s, ops[0]), ops[1..]);
    }
  }

  /** Rename checks neither limit: it keeps them exactly when the moved subtree happens to fit. */
  lemma RenameBounded(l: Limits, s: State, from: string, to: string)
    requires IsTree(s.tree) && Bounded(l, s.tree) && Rename(s, from, to).1.None? && !(Segments(from) <= Segments(to))
    ensures var f, q := Segments(from), Segments(to);
            Bounded(l, Rename(s, from, to).0.tree) <==>
            && |q[|q| - 1]| <= l.maxNameLength
            && forall p: Path :: p in s.tree && f <= p ==> |q| + |p| - |f| <= l.maxDepth
  {
    hide Segments, ResolveParent, Total, IsUnder, HasChildren, IsTree, Rebased, Moved, Rename;
    var f, q, after := Segments(from), Segments(to), Rename(s, from, to).0.tree;
    RenameFacts(s, from, to);
    RenameMoves(s, from, to, q);
    assert f + q[|q|..] == f;
    if Bounded(l, after) {
      forall p: Path | p in s.tree && f <= p ensures |q| + |p| - |f| <= l.maxDepth {
        var there := q + p[|f|..];
        assert there[|q|..] == p[|f|..];
        assert f + there[|q|..] == p;
        RenameMoves(s, from, to, there);
      }
    }
    if |q[|q| - 1]| <= l.maxNameLength && forall p: Path :: p in s.tree && f <= p ==> |q| + |p| - |f| <= l.maxDepth {
      forall p: Path | p in after
        ensures |p| <= l.maxDepth && forall k :: 0 <= k < |p| ==> |p[k]| <= l.maxNameLength
      {
        RenameMoves(s, from, to, p);
        if q <= p {
          var source := f + p[|q|..];
          assert forall k :: |q| <= k < |p| ==> p[k] == source[|f| + k - |q|];
          assert forall k :: 0 <= k < |q| - 1 ==> p[k] == Parent(q)[k];
        }
      }
    }
  }

  /** A copy reads as what was copied. */
  lemma CopyReads(l: Limits, s: State, from: Path, to: Path)
    requires Copy(l, s, from, to).1.None?
    ensures Read(Copy(l, s, from, to).0, to) == Read(s, from)
    ensures Read(s, from).Ok?
  {
    hide ResolveParent, Write;
    WriteReads(l, s, to, Read(s, from).value, false);
  }

  /** Removing a file just created restores the state, counters included. */
  lemma RemoveUndoesWrite(l: Limits, s: State, path: string, content: seq<bv8>, append: bool, recursive: bool)
    requires IsTree(s.tree) && path != "/" && Segments(path) !in s.tree
    requires Write(l, s, Segments(path), content, append).1.None?
    ensures Remove(Write(l, s, Segments(path), content, append).0, path, recursive) == (s, None)
  {
    hide Segments, ResolveParent, Total, HasChildren, IsTree;
    var p := Segments(path);
    var s1 := Write(l, s, p, content, append).0;
    Resolved(s.tree, p);
    WriteKeeps(l, s, p, content, append);
    Resolved(s1.tree, p);
    NothingBelow(s.tree, p);
    var one: Tree := map[p := File(content)];
    assert forall r: Path :: r in s.tree ==> r !in Subtree(s.tree, p);
    assert Subtree(s1.tree, p) == one;
    assert Without(s1.tree, p) == s.tree;
    forall m ensures Total(one, m) == Weigh(m, File(content)) {
      TotalTake(one, p, m);
      assert one - {p} == map[];
      TotalNone(m);
    }
  }

  // ---- whole runs ----

  datatype Operation =
    | WriteFile(path: string, content: seq<bv8>, append: bool)
    | CreateDirectory(path: string, recursive: bool)
    | RemoveAt(path: string, recursive: bool)
    | Move(path: string, to: string)
    | CopyFile(path: string, to: string)

  ghost function Apply(l: Limits, s: State, op: Operation): State {
    match op
    case WriteFile(path, content, append) => Write(l, s, Segments(path), content, append).0
    case CreateDirectory(path, recursive) => MakeDirectory(l, s, path, recursive).0
    case RemoveAt(path, recursive) => Remove(s, path, recursive).0
    case Move(path, to) => Rename(s, path, to).0
    case CopyFile(path, to) => Copy(l, s, Segments(path), Segments(to)).0
  }

  ghost function Run(l: Limits, s: State, ops: seq<Operation>): State
    decreases |ops|
  {
    if ops == [] then s else Run(l, Apply(l, s, ops[0]), ops[1..])
  }

  predicate MovesOntoItself(op: Operation) {
    op.Move? && op.path == op.to
  }

  predicate AbsolutePaths(op: Operation) {
    op.Move? ==> IsNormal(op.path) && IsAbsolute(op.path) && IsNormal(op.to) && IsAbsolute(op.to)
  }

  lemma ApplyKeeps(l: Limits, s: State, op: Operation)
    requires IsTree(s.tree)
    ensures IsTree(Apply(l, s, op).tree)
    ensures Within(l, s) ==> Within(l, Apply(l, s, op))
    ensures Accounted(s) && AbsolutePaths(op) && !MovesOntoItself(op) ==> Accounted(Apply(l, s, op))
  {
    hide IsTree, Accounted, Within, Write, MakeFrom, Remove, Rename, Segments, IsNormal, IsAbsolute;
    match op
    case WriteFile(path, content, append) => WriteKeeps(l, s, Segments(path), content, append);
    case CreateDirectory(path, recursive) =>
      RootIn(s.tree);
      MakeKeeps(l, s, Segments(path), recursive, 0);
    case RemoveAt(path, recursive) => RemoveKeeps(s, path, recursive);
    case CopyFile(path, to) =>
      var read := Read(s, Segments(path));
      if read.Ok? { WriteKeeps(l, s, Segments(to), read.value, false); }
    case Move(path, to) =>
      RenameKeepsTree(s, path, to);
      if Within(l, s) { RenameWithin(l, s, path, to); }
      if Rename(s, path, to).1.None? {
        if Accounted(s) { RenameAccounted(s, path, to); }
        if AbsolutePaths(op) { RenameOntoItself(s, path, to); }
      } else {
        RenameFails(s, path, to);
      }
  }

  lemma RootIn(t: Tree)
    requires IsTree(t)
    ensures forall p: Path :: p[..0] in t && t[p[..0]].Directory?
  {
    assert forall p: Path :: p[..0] == [];
  }

  lemma RenameFails(s: State, from: string, to: string)
    requires Rename(s, from, to).1.Some?
    ensures Rename(s, from, to).0 == s
  {}

  lemma RenameWithin(l: Limits, s: State, from: string, to: string)
    requires IsTree(s.tree) && Within(l, s)
    ensures Within(l, Rename(s, from, to).0)
  {
    hide Segments, ResolveParent, Total, IsUnder, HasChildren, IsTree, Rebased;
    if Rename(s, from, to).1.None? {
      RenameFacts(s, from, to);
      RebasedRebases(s.tree, Segments(from), Segments(to));
    }
  }

  /**
   From any well-formed start, every run keeps one tree and the quotas; and without a file
   renamed onto itself the counters always equal a recount.
   */
  lemma {:induction false} RunKeeps(l: Limits, s: State, ops: seq<Operation>)
    requires IsTree(s.tree) && Within(l, s)
    ensures IsTree(Run(l, s, ops).tree) && Within(l, Run(l, s, ops))
    ensures Accounted(s) && (forall k :: 0 <= k < |ops| ==> AbsolutePaths(ops[k]) && !MovesOntoItself(ops[k])) ==> Accounted(Run(l, s, ops))
    decreases |ops|
  {
    hide IsTree, Accounted, Within, Apply, AbsolutePaths, MovesOntoItself;
    if ops != [] {
      ApplyKeeps(l, s, ops[0]);
      RunKeeps(l, Apply(l, s, ops[0]), ops[1..]);
    }
  }

  /** So after such a run the recount itself is within the quotas. */
  lemma RunWithinQuotas(l: Limits, s: State, ops: seq<Operation>)
    requires IsTree(s.tree) && Within(l, s) && Accounted(s)
    requires forall k :: 0 <= k < |ops| ==> AbsolutePaths(ops[k]) && !MovesOntoItself(ops[k])
    ensures Total(Run(l, s, ops).tree, Bytes) <= l.maxTotalBytes && Total(Run(l, s, ops).tree, Files) <= l.maxFiles
  {
    RunKeeps(l, s, ops);
  }
}
