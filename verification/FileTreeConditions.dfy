/**
 When each filesystem operation succeeds, which error it answers otherwise, and what a removal takes:
 conditions on the tree alone that a caller could check before the call.
 */
module FileTreeConditions {
  import opened Wrappers
  import opened VirtualPath
  import opened FileTree
  import opened FileTreeLaws

  /** Something on the way to `p` is a file. */
  ghost predicate Blocked(t: Tree, p: Path) {
    exists k :: 0 < k < |p| && p[..k] in t && t[p[..k]].File?
  }

  /** What `p` lies in is a directory. */
  ghost predicate HasHome(t: Tree, p: Path) {
    p != [] && Parent(p) in t && t[Parent(p)].Directory?
  }

  lemma HomeIsOpen(t: Tree, p: Path)
    requires IsTree(t) && HasHome(t, p)
    ensures !Blocked(t, p)
  {
    forall k | 0 < k < |p| ensures p[..k] in t && t[p[..k]].Directory? {
      if k < |p| - 1 {
        Ancestors(t, Parent(p), k);
        assert Parent(p)[..k] == p[..k];
      } else {
        assert p[..k] == Parent(p);
      }
    }
  }

  lemma {:induction false} ParentErrors(t: Tree, p: Path, i: nat)
    requires IsTree(t) && i < |p| && p[..i] in t && t[p[..i]].Directory?
    ensures var error := ParentError(t, p, i);
            && (error == None || error == Some(NotFound) || error == Some(NotADirectory))
            && (error == Some(NotADirectory) <==> Blocked(t, p))
    decreases |p| - i
  {
    if i + 1 < |p| && p[..i + 1] in t && t[p[..i + 1]].Directory? {
      ParentErrors(t, p, i + 1);
    } else {
      forall k | 0 < k < |p| ensures k <= i ==> p[..k] in t && t[p[..k]].Directory? {
        if k < i {
          Ancestors(t, p[..i], k);
          assert p[..i][..k] == p[..k];
        }
      }
      if i + 1 < |p| && p[..i + 1] !in t {
        forall k | i < k < |p| ensures p[..k] !in t {
          assert p[..k][..i + 1] == p[..i + 1];
          if p[..k] in t && i + 1 < k { Ancestors(t, p[..k], i + 1); }
        }
      }
    }
  }

  /** A path has no place exactly when what it lies in is no directory: then a file is in the way, or something is missing. */
  lemma ResolveParentExactly(t: Tree, p: Path)
    requires IsTree(t)
    ensures ResolveParent(t, p) == if p == [] then Some(InvalidArgument) else if HasHome(t, p) then None
                                   else if Blocked(t, p) then Some(NotADirectory) else Some(NotFound)
  {
    Resolved(t, p);
    if p != [] {
      assert p[..0] == [];
      ParentErrors(t, p, 0);
      if HasHome(t, p) { HomeIsOpen(t, p); }
    }
  }

  lemma PresentHasHome(t: Tree, p: Path)
    requires IsTree(t) && p in t && p != []
    ensures HasHome(t, p) && !Blocked(t, p)
  {
    HomeIsOpen(t, p);
  }

  // ---- removing ----

  /**
   A removal succeeds exactly when the path is there and either everything below may go too or there is
   nothing below. It takes what lies at or below the path and nothing else; a refused one changes nothing.
   */
  lemma RemoveExactly(s: State, path: string, recursive: bool)
    requires IsTree(s.tree) && path != "/"
    ensures var p, (after, error) := Segments(path), Remove(s, path, recursive);
            && (error.None? <==> p != [] && p in s.tree && (recursive || forall q: Path :: q in s.tree ==> !(p < q)))
            && (error.None? ==> forall q: Path ::
                  && (q in after.tree <==> q in s.tree && !(p <= q))
                  && (q in after.tree ==> after.tree[q] == s.tree[q]))
            && (error.Some? ==> after == s)
  {
    hide Segments, ResolveParent, IsTree, Released;
    var p := Segments(path);
    ResolveParentExactly(s.tree, p);
    if p in s.tree && p != [] {
      PresentHasHome(s.tree, p);
      if s.tree[p].File? { OnlyDirectoriesHold(s.tree, p); }
    }
  }

  lemma OnlyDirectoriesHold(t: Tree, p: Path)
    requires IsTree(t) && p in t && t[p].File?
    ensures forall q: Path :: q in t ==> !(p < q)
  {
    forall q: Path | q in t ensures !(p < q) {
      if p < q { Below(t, p, q); }
    }
  }

  /** And each refusal has its own reason. */
  lemma RemoveRefused(s: State, path: string, recursive: bool)
    requires IsTree(s.tree)
    ensures var p, error := Segments(path), Remove(s, path, recursive).1;
            && (error == Some(PermissionDenied) <==> path == "/")
            && (path != "/" ==>
                && (error == Some(InvalidArgument) <==> p == [])
                && (error == Some(NotADirectory) <==> p != [] && p !in s.tree && Blocked(s.tree, p))
                && (error == Some(NotFound) <==> p != [] && p !in s.tree && !Blocked(s.tree, p))
                && (error == Some(DirectoryNotEmpty) <==> p != [] && p in s.tree && !recursive && exists q: Path :: q in s.tree && p < q))
  {
    hide Segments, ResolveParent, IsTree, Released;
    var p := Segments(path);
    ResolveParentExactly(s.tree, p);
    if p != [] && HasHome(s.tree, p) { HomeIsOpen(s.tree, p); }
    if p in s.tree && p != [] {
      PresentHasHome(s.tree, p);
      if s.tree[p].File? { OnlyDirectoriesHold(s.tree, p); }
    }
  }

  // ---- writing ----

  /** What a file at `p` would hold after the write. */
  function Written(t: Tree, p: Path, content: seq<bv8>, append: bool): seq<bv8> {
    if append && p in t && t[p].File? then t[p].content + content else content
  }

  /**
   A write succeeds exactly when the path has a place that no directory takes, its name and depth are
   within the limits, and the tree with the file in it is within the quotas; otherwise nothing changes.
   */
  lemma WriteExactly(l: Limits, s: State, p: Path, content: seq<bv8>, append: bool)
    requires IsTree(s.tree) && Accounted(s)
    ensures var (after, error) := Write(l, s, p, content, append);
            var now := Written(s.tree, p, content, append);
            && (error.None? <==>
                && HasHome(s.tree, p) && !(p in s.tree && s.tree[p].Directory?)
                && |p[|p| - 1]| <= l.maxNameLength && |p| <= l.maxDepth
                && |now| <= l.maxFileBytes
                && Total(s.tree[p := File(now)], Bytes) <= l.maxTotalBytes
                && (p in s.tree || Total(s.tree[p := File(now)], Files) <= l.maxFiles))
            && (error.None? ==> after.tree == s.tree[p := File(now)])
            && (error.Some? ==> after == s)
  {
    hide ResolveParent, IsTree, Total;
    ResolveParentExactly(s.tree, p);
    var now := Written(s.tree, p, content, append);
    TotalPut(s.tree, p, File(now), Bytes);
    TotalPut(s.tree, p, File(now), Files);
    if p in s.tree { TotalTake(s.tree, p, Bytes); }
  }

  /** And each refusal has its own reason, the first of these that holds. */
  lemma WriteRefused(l: Limits, s: State, p: Path, content: seq<bv8>, append: bool)
    requires IsTree(s.tree) && Write(l, s, p, content, append).1.Some?
    ensures Write(l, s, p, content, append).1.value ==
            if p == [] then InvalidArgument
            else if Blocked(s.tree, p) then NotADirectory
            else if Parent(p) !in s.tree then NotFound
            else if |p[|p| - 1]| > l.maxNameLength then NameTooLong
            else if |p| > l.maxDepth then InvalidArgument
            else if p in s.tree && s.tree[p].Directory? then IsADirectory
            else QuotaExceeded
  {
    hide ResolveParent;
    ResolveParentExactly(s.tree, p);
    if p != [] && !HasHome(s.tree, p) && Parent(p) in s.tree { assert Parent(p) == p[..|p| - 1]; }
    if p != [] && HasHome(s.tree, p) { HomeIsOpen(s.tree, p); }
  }

  /** A copy succeeds exactly when there is a file to copy and its contents could be written there. */
  lemma CopyExactly(l: Limits, s: State, from: Path, to: Path)
    ensures var (after, error) := Copy(l, s, from, to);
            && (error.None? <==> from in s.tree && s.tree[from].File? && Write(l, s, to, s.tree[from].content, false).1.None?)
            && (error.None? ==> to in after.tree && after.tree[to] == s.tree[from])
            && (error.Some? ==> after == s)
            && (from !in s.tree ==> error == Some(NotFound)) && (from in s.tree && s.tree[from].Directory? ==> error == Some(IsADirectory))
  {
    hide ResolveParent;
  }

  // ---- making directories ----

  /** From the `i`-th name of `p` on every name is short enough, and what is there is a directory. */
  ghost predicate Open(l: Limits, t: Tree, p: Path, i: nat) {
    && (forall k :: i <= k < |p| ==> |p[k]| <= l.maxNameLength)
    && (forall k :: i < k <= |p| && p[..k] in t ==> t[p[..k]].Directory?)
  }

  /** Whether the directory at `p` may be made, or is there already where that is enough. */
  ghost predicate MayMake(l: Limits, t: Tree, p: Path, recursive: bool)
    requires p != []
  {
    (p in t || |p| <= l.maxDepth) && (recursive || (p !in t && Parent(p) in t))
  }

  lemma {:induction false} MakeFromExactly(l: Limits, s: State, p: Path, recursive: bool, i: nat)
    requires IsTree(s.tree) && i < |p| && p[..i] in s.tree && s.tree[p[..i]].Directory?
    ensures MakeFrom(l, s, p, recursive, i).1.None? <==> Open(l, s.tree, p, i) && MayMake(l, s.tree, p, recursive)
    decreases |p| - i
  {
    var here, last := p[..i + 1], i + 1 == |p|;
    assert p[..|p|] == p;
    assert Parent(here) == p[..i];
    OpenNext(l, s.tree, p, i);
    if |p[i]| > l.maxNameLength {
    } else if here in s.tree {
      if s.tree[here].Directory? && !last { MakeFromExactly(l, s, p, recursive, i + 1); }
    } else {
      MissingBelow(s.tree, p, i + 1);
      if recursive || last {
        var s1 := s.(tree := s.tree[here := Directory], directories := s.directories + 1);
        TreePut(s.tree, here, Directory);
        if !last {
          OpenApart(l, s.tree, s1.tree, p, i + 1);
          MakeFromExactly(l, s1, p, recursive, i + 1);
        }
      }
    }
  }

  /** Where something is missing, all below it is. */
  lemma MissingBelow(t: Tree, p: Path, i: nat)
    requires IsTree(t) && i <= |p| && p[..i] !in t
    ensures forall k :: i <= k <= |p| ==> p[..k] !in t
    ensures p !in t && (i < |p| ==> Parent(p) !in t)
  {
    forall k | i <= k <= |p| ensures p[..k] !in t {
      if k > i && p[..k] in t { Below(t, p[..i], p[..k]); }
    }
    assert p[..|p|] == p;
  }

  /** Adding a directory above does not change what is open below it. */
  lemma OpenApart(l: Limits, t: Tree, t1: Tree, p: Path, i: nat)
    requires i < |p| && t1 == t[p[..i] := Directory]
    ensures Open(l, t1, p, i) == Open(l, t, p, i)
    ensures p in t1 <==> p in t
  {
    forall k | i < k <= |p| ensures p[..k] in t1 <==> p[..k] in t { assert |p[..k]| != |p[..i]|; }
    assert |p| != |p[..i]|;
  }

  lemma OpenNext(l: Limits, t: Tree, p: Path, i: nat)
    requires i < |p|
    ensures Open(l, t, p, i) <==> |p[i]| <= l.maxNameLength && (p[..i + 1] in t ==> t[p[..i + 1]].Directory?) && Open(l, t, p, i + 1)
  {}

  /**
   Making a directory succeeds exactly when no file is in the way, every name on the path is short enough,
   and the path is not too deep unless it is there already; without `recursive` only its last name may be missing,
   and must be.
   */
  lemma MakeExactly(l: Limits, s: State, path: string, recursive: bool)
    requires IsTree(s.tree) && path != "/" && Segments(path) != []
    ensures var p := Segments(path);
            MakeDirectory(l, s, path, recursive).1.None? <==>
              && !Blocked(s.tree, p) && (p in s.tree ==> s.tree[p].Directory?)
              && (forall k :: 0 <= k < |p| ==> |p[k]| <= l.maxNameLength)
              && (p in s.tree || |p| <= l.maxDepth)
              && (recursive || (p !in s.tree && Parent(p) in s.tree))
  {
    hide Segments, MakeFrom;
    var p := Segments(path);
    assert p[..0] == [];
    MakeFromExactly(l, s, p, recursive, 0);
    assert p[..|p|] == p;
  }

  /** Why a directory and all above it cannot be made: the error its `k`-th name answers. */
  ghost function Obstacle(l: Limits, t: Tree, p: Path, k: nat): Option<Error>
    requires k < |p|
  {
    if |p[k]| > l.maxNameLength then Some(NameTooLong)
    else if p[..k + 1] in t then if t[p[..k + 1]].File? then Some(NotADirectory) else None
    else if k + 1 > l.maxDepth then Some(InvalidArgument) else None
  }

  /** `k` is the first name of `p` from the `i`-th on that cannot be made. */
  ghost predicate StopsAt(l: Limits, t: Tree, p: Path, i: nat, k: nat) {
    i <= k < |p| && Obstacle(l, t, p, k).Some? && forall j: nat :: i <= j < k ==> Obstacle(l, t, p, j).None?
  }

  /** Made with all above it, a directory stops at the first name that cannot be, and what was made before that stays. */
  lemma {:induction false} MakeStops(l: Limits, s: State, p: Path, i: nat)
    requires IsTree(s.tree) && i < |p| && p[..i] in s.tree && s.tree[p[..i]].Directory?
    requires MakeFrom(l, s, p, true, i).1.Some?
    ensures exists k: nat :: StopsAt(l, s.tree, p, i, k)
              && MakeFrom(l, s, p, true, i).1 == Obstacle(l, s.tree, p, k)
              && forall q: Path :: q in MakeFrom(l, s, p, true, i).0.tree <==> q in s.tree || (i < |q| <= k && q == p[..|q|])
    decreases |p| - i
  {
    hide IsTree;
    var here := p[..i + 1];
    assert Parent(here) == p[..i];
    assert forall q: Path :: i < |q| <= i ==> false;
    if Obstacle(l, s.tree, p, i).Some? {
      assert StopsAt(l, s.tree, p, i, i);
    } else if here in s.tree {
      MakeStops(l, s, p, i + 1);
      var k: nat :| StopsAt(l, s.tree, p, i + 1, k) && MakeFrom(l, s, p, true, i + 1).1 == Obstacle(l, s.tree, p, k)
        && forall q: Path :: q in MakeFrom(l, s, p, true, i + 1).0.tree <==> q in s.tree || (i + 1 < |q| <= k && q == p[..|q|]);
      assert StopsAt(l, s.tree, p, i, k);
    } else {
      var s1 := s.(tree := s.tree[here := Directory], directories := s.directories + 1);
      TreePut(s.tree, here, Directory);
      MakeStops(l, s1, p, i + 1);
      var k: nat :| StopsAt(l, s1.tree, p, i + 1, k) && MakeFrom(l, s1, p, true, i + 1).1 == Obstacle(l, s1.tree, p, k)
        && forall q: Path :: q in MakeFrom(l, s1, p, true, i + 1).0.tree <==> q in s1.tree || (i + 1 < |q| <= k && q == p[..|q|]);
      forall j: nat | i < j < |p| ensures Obstacle(l, s1.tree, p, j) == Obstacle(l, s.tree, p, j) { assert |p[..j + 1]| != |here|; }
      assert StopsAt(l, s.tree, p, i, k);
    }
  }

  // ---- renaming ----

  /**
   A rename succeeds exactly when its source is there, its target has a place that no full directory
   takes, and a directory does not go where the guard says it may not; otherwise nothing changes.
   */
  lemma RenameExactly(s: State, from: string, to: string)
    requires IsTree(s.tree)
    ensures var f, q, (after, error) := Segments(from), Segments(to), Rename(s, from, to);
            && (error.None? <==>
                && f != [] && f in s.tree && HasHome(s.tree, q)
                && !(s.tree[f].Directory? && IsUnder(to, from))
                && forall r: Path :: r in s.tree ==> !(q < r))
            && (error.Some? ==> after == s)
  {
    hide Segments, ResolveParent, IsTree, Released, IsUnder, Moved;
    var f, q := Segments(from), Segments(to);
    ResolveParentExactly(s.tree, f);
    ResolveParentExactly(s.tree, q);
    if f in s.tree && f != [] { PresentHasHome(s.tree, f); }
    if q in s.tree { OnlyFullOnes(s.tree, q); } else { NothingBelow(s.tree, q); }
  }

  lemma OnlyFullOnes(t: Tree, p: Path)
    requires IsTree(t) && p in t
    ensures t[p].Directory? && HasChildren(t, p) <==> exists r: Path :: r in t && p < r
  {
    if r: Path :| r in t && p < r { Below(t, p, r); }
  }

  /** And each refusal has its own reason. */
  lemma RenameRefused(s: State, from: string, to: string)
    requires IsTree(s.tree) && Rename(s, from, to).1.Some?
    ensures var f, q, error := Segments(from), Segments(to), Rename(s, from, to).1.value;
            error == if f == [] then InvalidArgument
                     else if f !in s.tree then if Blocked(s.tree, f) then NotADirectory else NotFound
                     else if s.tree[f].Directory? && IsUnder(to, from) then InvalidArgument
                     else if q == [] then InvalidArgument
                     else if !HasHome(s.tree, q) then if Blocked(s.tree, q) then NotADirectory else NotFound
                     else DirectoryNotEmpty
  {
    hide Segments, ResolveParent, IsTree, Released, IsUnder, Moved;
    var f, q := Segments(from), Segments(to);
    ResolveParentExactly(s.tree, f);
    ResolveParentExactly(s.tree, q);
    if f in s.tree && f != [] { PresentHasHome(s.tree, f); }
    if f != [] && HasHome(s.tree, f) { HomeIsOpen(s.tree, f); }
  }
}
