/**
 The in-memory filesystem: a graph of nodes on the heap, changed in place, with counters kept
 as it goes. Each operation is proved to do to the flat state exactly what its function says.
 */
module FileSystem {
  import opened Wrappers
  import opened VirtualPath
  import opened FileTree
  import Laws = FileTreeLaws

  class Node {
    const isDirectory: bool
    var children: map<string, Node>
    var content: seq<bv8>

    constructor Directory()
      ensures isDirectory && children == map[]
    {
      isDirectory, children, content := true, map[], [];
    }

    constructor File(bytes: seq<bv8>)
      ensures !isDirectory && children == map[] && content == bytes
    {
      isDirectory, children, content := false, map[], bytes;
    }

    ghost function Entry(): (e: FileTree.Entry)
      reads `content
      ensures e.Directory? == isDirectory
    {
      if isDirectory then FileTree.Directory else FileTree.File(content)
    }
  }

  /** The children named at `p` are exactly the nodes one name further. */
  ghost predicate Names<T>(children: map<string, T>, nodes: map<Path, T>, p: Path) {
    && (forall name: string :: name in children <==> p + [name] in nodes)
    && (forall name: string :: name in children ==> children[name] == nodes[p + [name]])
  }

  /** No node is in two places. */
  ghost predicate Injective<T>(nodes: map<Path, T>) {
    forall p: Path, q: Path :: p in nodes && q in nodes && nodes[p] == nodes[q] ==> p == q
  }

  /** A filesystem before anything is made in it. */
  ghost function OnlyRoot(): State {
    FileTree.State(map[[] := FileTree.Directory], 0, 0, 1)
  }

  class InMemoryFileSystem {
    const limits: Limits
    const root: Node
    var totalBytes: int
    var fileCount: int
    var directoryCount: int
    /** The error the constructor ends with, if there is no room for `/tmp`: then nobody gets the filesystem. */
    var stillborn: Option<Error>
    /** Where each node of the graph is found; every node in one place. */
    ghost var nodes: map<Path, Node>

    ghost predicate Valid()
      reads `nodes, nodes.Values
    {
      && [] in nodes && nodes[[]] == root && root.isDirectory
      && Injective(nodes)
      && (forall p: Path :: p in nodes ==> Names(nodes[p].children, nodes, p))
      && (forall p: Path :: p in nodes && p != [] ==> Parent(p) in nodes && nodes[Parent(p)].isDirectory)
    }

    /** The tree of entries the graph stands for. */
    ghost function Tree(): Tree
      reads `nodes, nodes.Values
    {
      map p: Path | p in nodes :: nodes[p].Entry()
    }

    ghost function State(): State
      reads this, nodes.Values
    {
      FileTree.State(Tree(), totalBytes, fileCount, directoryCount)
    }

    /** An empty filesystem: the root and a place for temporary files, or the error that stood in the way of it. */
    constructor (limits: Limits)
      ensures Valid() && fresh(nodes.Values) && this.limits == limits
      ensures (State(), stillborn) == MakeDirectory(limits, OnlyRoot(), "/tmp", true)
    {
      hide MakeDirectory, Names;
      var top := new Node.Directory();
      this.limits, root := limits, top;
      totalBytes, fileCount, directoryCount := 0, 0, 1;
      stillborn := None;
      nodes := map[[] := top];
      new;
      RootAlone();
      assert Tree() == map[[] := FileTree.Directory];
      stillborn := CreateDirectory("/tmp", true);
    }

    lemma RootAlone()
      requires nodes.Keys == {[]} && nodes[[]] == root && root.isDirectory && root.children == map[]
      ensures Valid()
    {
      forall p: Path, name: string ensures p + [name] !in nodes {}
    }

    lemma ValidIsTree()
      requires Valid()
      ensures IsTree(Tree())
    {}

    /** What looking a name up in its parent's children tells. */
    lemma StepAt(path: Path)
      requires Valid() && path != [] && Parent(path) in nodes
      ensures var name := path[|path| - 1];
              && (name in nodes[Parent(path)].children <==> path in nodes)
              && (path in nodes <==> path in Tree())
              && (path in nodes ==> nodes[Parent(path)].children[name] == nodes[path] && Tree()[path] == nodes[path].Entry())
    {
      assert Names(nodes[Parent(path)].children, nodes, Parent(path));
      assert Parent(path) + [path[|path| - 1]] == path;
    }

    lemma EntryAt(path: Path)
      requires path in nodes
      ensures path in Tree() && Tree()[path] == nodes[path].Entry()
      ensures forall p: Path :: p in Tree() <==> p in nodes
    {}

    lemma RootAt(segments: Path)
      requires Valid()
      ensures segments[..0] in nodes && nodes[segments[..0]] == root && root.isDirectory
    {
      assert segments[..0] == [];
    }

    lemma StepDown(path: Path, name: string)
      requires Valid() && path in nodes && name in nodes[path].children
      ensures path + [name] in nodes && nodes[path].children[name] == nodes[path + [name]]
    {
      assert Names(nodes[path].children, nodes, path);
    }

    lemma ChildrenAre(path: Path)
      requires Valid() && path in nodes
      ensures forall q: Path :: q in nodes && path < q ==> q[|path|] in nodes[path].children
    {
      ValidIsTree();
      assert Names(nodes[path].children, nodes, path);
      forall q: Path | q in nodes && path < q ensures path + [q[|path|]] in nodes {
        assert path + [q[|path|]] == q[..|path| + 1];
        if |path| + 1 < |q| { Laws.Ancestors(Tree(), q, |path| + 1); } else { assert q[..|path| + 1] == q; }
      }
    }

    lemma NoChildrenOfFile(path: Path)
      requires Valid() && path in nodes && !nodes[path].isDirectory
      ensures forall q: Path :: q in nodes ==> !(path < q)
    {
      ValidIsTree();
      forall q: Path | q in nodes && path < q ensures false {
        Laws.Below(Tree(), path, q);
      }
    }

    lemma HasChildrenAt(path: Path)
      requires Valid() && path in nodes
      ensures HasChildren(Tree(), path) <==> nodes[path].children != map[]
    {
      hide Valid, Names, IsTree;
      ChildrenAre(path);
      if HasChildren(Tree(), path) {
        var q: Path :| q in Tree() && path < q;
        assert q in nodes;
        assert q[|path|] in nodes[path].children;
      }
      if nodes[path].children != map[] {
        var name :| name in nodes[path].children;
        StepDown(path, name);
        assert path < path + [name] && path + [name] in Tree();
      }
    }

    // ---- finding ----

    method ResolveParent(path: Path) returns (parent: Node, error: Option<Error>)
      requires Valid()
      ensures error == FileTree.ResolveParent(Tree(), path)
      ensures error.None? ==> path != [] && Parent(path) in nodes && parent == nodes[Parent(path)] && parent.isDirectory
    {
      hide Valid, Tree, Names;
      parent := root;
      if path == [] {
        return parent, Some(InvalidArgument);
      }
      RootAt(path);
      var i := 0;
      while i < |path| - 1
        invariant 0 <= i <= |path| - 1
        invariant path[..i] in nodes && parent == nodes[path[..i]] && parent.isDirectory
        invariant ParentError(Tree(), path, 0) == ParentError(Tree(), path, i)
      {
        ghost var here := path[..i + 1];
        assert Parent(here) == path[..i];
        StepAt(here);
        if path[i] !in parent.children {
          return parent, Some(NotFound);
        }
        var child := parent.children[path[i]];
        if !child.isDirectory {
          return parent, Some(NotADirectory);
        }
        parent := child;
        i := i + 1;
      }
      error := None;
    }

    method TryResolve(path: Path) returns (found: bool, node: Node)
      requires Valid()
      ensures found <==> path in nodes
      ensures found ==> node == nodes[path]
    {
      hide Valid, Names;
      ValidIsTree();
      node := root;
      RootAt(path);
      var i := 0;
      while i < |path|
        invariant 0 <= i <= |path|
        invariant path[..i] in nodes && node == nodes[path[..i]]
      {
        ghost var here := path[..i + 1];
        assert Parent(here) == path[..i];
        StepAt(here);
        if path in nodes {
          Laws.Ancestors(Tree(), path, i);
          if i + 1 < |path| { Laws.Ancestors(Tree(), path, i + 1); } else { assert here == path; }
        }
        if !node.isDirectory {
          return false, node;
        }
        if path[i] !in node.children {
          return false, node;
        }
        node := node.children[path[i]];
        i := i + 1;
      }
      assert path[..i] == path;
      found := true;
    }

    method ReadFile(path: Path) returns (r: Result<seq<bv8>>)
      requires Valid()
      ensures r == Read(State(), path)
    {
      hide Valid;
      var found, node := TryResolve(path);
      if !found {
        return Err(NotFound);
      }
      r := if node.isDirectory then Err(IsADirectory) else Ok(node.content);
    }

    // ---- changing the graph ----

    method SetContent(ghost path: Path, file: Node, content: seq<bv8>)
      requires Valid() && path in nodes && file == nodes[path] && !file.isDirectory
      modifies file`content
      ensures Valid() && nodes == old(nodes) && Tree() == old(Tree())[path := FileTree.File(content)]
    {
      hide Names;
      file.content := content;
    }

    /** Puts a new node, without children, in its parent. */
    method AddNode(ghost path: Path, parent: Node, name: string, child: Node)
      requires Valid() && path != [] && path !in nodes && name == path[|path| - 1]
      requires Parent(path) in nodes && parent == nodes[Parent(path)] && parent.isDirectory
      requires child !in nodes.Values && child.children == map[]
      modifies `nodes, parent`children
      ensures Valid() && nodes == old(nodes)[path := child] && Tree() == old(Tree())[path := child.Entry()]
    {
      hide Names, IsTree, Injective, Parent, Node.Entry;
      ghost var before, t := nodes, Tree();
      ValidIsTree();
      NothingIn(t, path);
      InjectiveWith(before, path, child);
      ghost var children := map r: Path | r in before :: before[r].children;
      parent.children := parent.children[name := child];
      nodes := nodes[path := child];
      forall p: Path | p in nodes ensures Names(nodes[p].children, nodes, p) {
        if p == path {
          NewNames(before, path, child);
        } else {
          InjectiveAt(before, p, Parent(path));
          AddedNames(children[p], before, p, path, child);
        }
      }
      GrownTree(before, t, path, child);
      Laws.TreePut(t, path, child.Entry());
      ClosedAt(Tree());
    }

    /** Takes a name out of its directory: the node and all below it leave the tree. */
    method Unlink(ghost path: Path, parent: Node, name: string)
      requires Valid() && path in nodes && path != [] && name == path[|path| - 1]
      requires Parent(path) in nodes && parent == nodes[Parent(path)]
      modifies `nodes, parent`children
      ensures Valid() && nodes == Without(old(nodes), path) && Tree() == Without(old(Tree()), path)
    {
      hide Names, Injective, Without, Subtree, IsTree, Node.Entry;
      ghost var before, t := nodes, Tree();
      ValidIsTree();
      Laws.WithoutIsTree(t, path);
      parent.children := parent.children - {name};
      nodes := Without(before, path);
      Laws.InWithout(before, path, []);
      InjectiveWithout(before, path);
      CutTree(before, t, path);
      forall p: Path | p in nodes ensures Names(nodes[p].children, nodes, p) {
        Laws.InWithout(before, path, p);
        InjectiveAt(before, p, Parent(path));
        RemovedNames(old(before[p].children), before, p, path);
      }
      ClosedAt(Tree());
    }

    lemma GrownTree(before: map<Path, Node>, t: Tree, path: Path, child: Node)
      requires nodes == before[path := child]
      requires t.Keys == before.Keys && forall p: Path :: p in before ==> t[p] == before[p].Entry()
      ensures Tree() == t[path := child.Entry()]
    {}

    lemma CutTree(before: map<Path, Node>, t: Tree, path: Path)
      requires nodes == Without(before, path)
      requires t.Keys == before.Keys && forall p: Path :: p in before ==> t[p] == before[p].Entry()
      ensures Tree() == Without(t, path)
      ensures forall p: Path :: p in nodes ==> nodes[p] == before[p]
    {}

    // ---- counting ----

    method EnsureCapacity(fileSize: int, delta: int, newFile: bool) returns (error: Option<Error>)
      ensures error == if Exceeds(limits, State(), fileSize, delta, newFile) then Some(QuotaExceeded) else None
    {
      if fileSize > limits.maxFileBytes {
        return Some(QuotaExceeded);
      }
      if totalBytes + delta > limits.maxTotalBytes {
        return Some(QuotaExceeded);
      }
      if newFile && fileCount + 1 > limits.maxFiles {
        return Some(QuotaExceeded);
      }
      error := None;
    }

    /** Takes a node and all below it off the counters. */
    method ReleaseAccounting(node: Node, ghost path: Path)
      requires Valid() && path in nodes && node == nodes[path]
      modifies `totalBytes, `fileCount, `directoryCount
      ensures State() == Released(old(State()), Subtree(Tree(), path))
      decreases Subtree(Tree(), path).Keys
    {
      hide Released, Valid, Names, Tree, Seen, Subtree;
      ghost var t, s := Tree(), State();
      EntryAt(path);
      ReleasedSelf(s, t, path);
      if !node.isDirectory {
        totalBytes := totalBytes - |node.content|;
        fileCount := fileCount - 1;
        NoChildrenOfFile(path);
        SeenAll(t, path, {});
        return;
      }
      directoryCount := directoryCount - 1;
      var names := node.children.Keys;
      ghost var done: set<string> := {};
      while names != {}
        invariant names + done == node.children.Keys && names !! done
        invariant State() == Released(s, Seen(t, path, done))
        decreases |names|
      {
        var name :| name in names;
        var child := node.children[name];
        StepDown(path, name);
        ReleasedMore(s, t, path, done, name);
        SmallerBelow(t, path, name);
        ReleaseAccounting(child, path + [name]);
        MoveOver(names, done, name);
        names, done := names - {name}, done + {name};
      }
      ChildrenAre(path);
      SeenAll(t, path, done);
    }

    static lemma OneDeeper(segments: Path, i: nat)
      requires i < |segments|
      ensures var here := segments[..i + 1]; here != [] && Parent(here) == segments[..i] && here[|here| - 1] == segments[i]
    {}

    static lemma MoveOver(names: set<string>, done: set<string>, name: string)
      requires names !! done && name in names
      ensures (names - {name}) + (done + {name}) == names + done && names - {name} !! done + {name}
    {}

    // ---- the operations ----

    method WriteFile(path: Path, content: seq<bv8>, append: bool) returns (error: Option<Error>)
      requires Valid()
      modifies this, nodes.Values
      ensures Valid() && fresh(nodes.Values - old(nodes.Values))
      ensures (State(), error) == Write(limits, old(State()), path, content, append)
    {
      hide Valid, Tree, Names, FileTree.ResolveParent;
      var parent, unresolved := ResolveParent(path);
      if unresolved.Some? {
        return unresolved;
      }
      var name := path[|path| - 1];
      if |name| > limits.maxNameLength {
        return Some(NameTooLong);
      }
      if |path| > limits.maxDepth {
        return Some(InvalidArgument);
      }
      StepAt(path);
      if name in parent.children {
        var file := parent.children[name];
        if file.isDirectory {
          return Some(IsADirectory);
        }
        var final := if append then file.content + content else content;
        var delta := |final| - |file.content|;
        error := EnsureCapacity(|final|, delta, false);
        if error.Some? {
          return;
        }
        SetContent(path, file, final);
        totalBytes := totalBytes + delta;
        return None;
      }
      error := EnsureCapacity(|content|, |content|, true);
      if error.Some? {
        return;
      }
      var file := new Node.File(content);
      AddNode(path, parent, name, file);
      totalBytes := totalBytes + |content|;
      fileCount := fileCount + 1;
      error := None;
    }

    method CreateDirectory(path: string, recursive: bool) returns (error: Option<Error>)
      requires Valid()
      modifies this, nodes.Values
      ensures Valid() && fresh(nodes.Values - old(nodes.Values))
      ensures (State(), error) == MakeDirectory(limits, old(State()), path, recursive)
    {
      hide Valid, Tree, Names, Segments, Parent;
      if path == "/" {
        return if recursive then None else Some(AlreadyExists);
      }
      var segments := Segments(path);
      var current := root;
      RootAt(segments);
      var i := 0;
      while i < |segments|
        invariant 0 <= i <= |segments|
        invariant Valid() && fresh(nodes.Values - old(nodes.Values))
        invariant segments[..i] in nodes && current == nodes[segments[..i]] && current.isDirectory
        invariant MakeFrom(limits, old(State()), segments, recursive, 0) == MakeFrom(limits, State(), segments, recursive, i)
      {
        var last := i == |segments| - 1;
        var name := segments[i];
        if |name| > limits.maxNameLength {
          return Some(NameTooLong);
        }
        ghost var here := segments[..i + 1];
        OneDeeper(segments, i);
        StepAt(here);
        if name in current.children {
          var child := current.children[name];
          if !child.isDirectory {
            return Some(if last && !recursive then AlreadyExists else NotADirectory);
          }
          if last && !recursive {
            return Some(AlreadyExists);
          }
          current := child;
        } else {
          if !last && !recursive {
            return Some(NotFound);
          }
          if i + 1 > limits.maxDepth {
            return Some(InvalidArgument);
          }
          var created := new Node.Directory();
          AddNode(here, current, name, created);
          directoryCount := directoryCount + 1;
          current := created;
        }
        i := i + 1;
      }
      error := None;
    }

    method Remove(path: string, recursive: bool) returns (error: Option<Error>)
      requires Valid()
      modifies this, nodes.Values
      ensures Valid() && nodes.Values <= old(nodes.Values)
      ensures (State(), error) == FileTree.Remove(old(State()), path, recursive)
    {
      hide Valid, Tree, Names, Segments, HasChildren, FileTree.ResolveParent, Subtree;
      if path == "/" {
        return Some(PermissionDenied);
      }
      var segments := Segments(path);
      var parent, unresolved := ResolveParent(segments);
      if unresolved.Some? {
        return unresolved;
      }
      var name := segments[|segments| - 1];
      StepAt(segments);
      if name !in parent.children {
        return Some(NotFound);
      }
      var node := parent.children[name];
      HasChildrenAt(segments);
      if node.isDirectory && node.children != map[] && !recursive {
        return Some(DirectoryNotEmpty);
      }
      ReleaseAccounting(node, segments);
      Unlink(segments, parent, name);
      error := None;
    }

    method Rename(from: string, to: string) returns (error: Option<Error>)
      requires Valid()
      modifies this, nodes.Values
      ensures Valid() && nodes.Values <= old(nodes.Values)
      ensures (State(), error) == FileTree.Rename(old(State()), from, to)
    {
      hide Valid, Tree, Names, Segments, IsUnder, HasChildren, FileTree.ResolveParent, Subtree, Moved;
      var f, q := Segments(from), Segments(to);
      var fromParent, unresolved := ResolveParent(f);
      if unresolved.Some? {
        return unresolved;
      }
      var fromName := f[|f| - 1];
      StepAt(f);
      if fromName !in fromParent.children {
        return Some(NotFound);
      }
      var node := fromParent.children[fromName];
      if node.isDirectory && IsUnder(to, from) {
        return Some(InvalidArgument);
      }
      var toParent, nowhere := ResolveParent(q);
      if nowhere.Some? {
        return nowhere;
      }
      var toName := q[|q| - 1];
      StepAt(q);
      if toName in toParent.children {
        var existing := toParent.children[toName];
        HasChildrenAt(q);
        if existing.isDirectory && existing.children != map[] {
          return Some(DirectoryNotEmpty);
        }
        ReleaseAccounting(existing, q);
      } else {
        ValidIsTree();
        Laws.NothingBelow(Tree(), q);
        Laws.EmptyTotal(State());
      }
      ValidIsTree();
      Laws.RenameFacts(old(State()), from, to);
      Relink(f, q, node, fromParent, fromName, toParent, toName);
      error := None;
    }

    /** Takes a node out of one directory and puts it in another, or the same. */
    method Relink(ghost f: Path, ghost q: Path, node: Node, fromParent: Node, fromName: string, toParent: Node, toName: string)
      requires Valid() && f != [] && q != [] && f in nodes && node == nodes[f] && Parent(f) in nodes && Parent(q) in nodes
      requires fromParent == nodes[Parent(f)] && toParent == nodes[Parent(q)] && toParent.isDirectory
      requires fromName == f[|f| - 1] && toName == q[|q| - 1]
      requires !(q < f) && (Parent(q) in Without(nodes, f) <==> !(f < q))
      modifies `nodes, fromParent`children, toParent`children
      ensures Valid() && nodes.Values <= old(nodes.Values)
      ensures Tree() == Moved(old(Tree()), f, q)
    {
      hide Names, Moved, Without, Injective, IsTree, Rewired, Node.Entry, Parent;
      ghost var before, t := nodes, Tree();
      ghost var children := map r: Path | r in before :: before[r].children;
      ValidIsTree();
      Laws.MovedIsTree(t, f, q);
      fromParent.children := fromParent.children - {fromName};
      toParent.children := toParent.children[toName := node];
      forall r: Path | r in before ensures before[r].children == Rewired(children[r], before, f, q, r) {
        InjectiveAt(before, r, Parent(f));
        InjectiveAt(before, r, Parent(q));
        RewiredIs(children[r], before, f, q, r);
      }
      nodes := Moved(before, f, q);
      ValidMoved(before, children, t, f, q);
    }

    lemma ValidMoved(before: map<Path, Node>, children: map<Path, map<string, Node>>, t: Tree, f: Path, q: Path)
      requires f in before && f != [] && q != [] && !(q < f) && (Parent(q) in Without(before, f) <==> !(f < q))
      requires Injective(before) && [] in before && before[[]] == root && root.isDirectory
      requires before.Keys == children.Keys == t.Keys
      requires forall r: Path :: r in before ==>
                 Names(children[r], before, r) && before[r].children == Rewired(children[r], before, f, q, r) && t[r] == before[r].Entry()
      requires IsTree(Moved(t, f, q)) && nodes == Moved(before, f, q)
      ensures Valid() && Tree() == Moved(t, f, q) && nodes.Values <= before.Values
    {
      hide Names, Moved, Without, Source, Injective, IsTree, Rewired, Node.Entry;
      ghost var after := map r: Path | r in before :: before[r].children;
      AllNamesMoved(before, children, after, f, q);
      forall p: Path | p in nodes ensures Names(nodes[p].children, nodes, p) {
        assert nodes[p] == before[Source(f, q, p)];
      }
      InjectiveMoved(before, f, q);
      RootStays(before, f, q);
      MovedTree(before, t, f, q);
      ClosedAt(Tree());
    }

    lemma MovedTree(before: map<Path, Node>, t: Tree, f: Path, q: Path)
      requires q != [] && f != [] && !(q < f) && f in before && nodes == Moved(before, f, q)
      requires Parent(q) in Without(before, f) <==> !(f < q)
      requires t.Keys == before.Keys && forall p: Path :: p in before ==> t[p] == before[p].Entry()
      ensures Tree() == Moved(t, f, q)
    {
      hide Moved, Without, Source;
      Laws.InWithout(before, f, Parent(q));
      Laws.InWithout(t, f, Parent(q));
      PlacesMoved(before, f, q);
      PlacesMoved(t, f, q);
    }

    method Copy(from: Path, to: Path) returns (error: Option<Error>)
      requires Valid()
      modifies this, nodes.Values
      ensures Valid() && fresh(nodes.Values - old(nodes.Values))
      ensures (State(), error) == FileTree.Copy(limits, old(State()), from, to)
    {
      hide Valid, Tree, Names, Write;
      var read := ReadFile(from);
      if read.Err? {
        return Some(read.error);
      }
      error := WriteFile(to, read.value, false);
    }
  }

  // ---- names and nodes ----

  /** A path is one name further than `p` only if `p` is its parent. */
  lemma ExtendedIs(p: Path, path: Path, name: string)
    requires path != []
    ensures p + [name] == path <==> p == Parent(path) && name == path[|path| - 1]
  {
    assert Parent(path) + [path[|path| - 1]] == path;
    assert Parent(p + [name]) == p;
  }

  lemma BelowExtended(path: Path, p: Path, n: string)
    ensures path <= p + [n] <==> path <= p || path == p + [n]
  {
    if path <= p + [n] && path != p + [n] { assert (p + [n])[..|path|] == p[..|path|]; }
  }

  lemma NothingIn(t: Tree, path: Path)
    requires IsTree(t) && path !in t
    ensures forall name: string :: path + [name] !in t
  {
    hide IsTree;
    forall name: string ensures path + [name] !in t {
      assert path < path + [name];
      if path + [name] in t { Laws.Below(t, path, path + [name]); }
    }
  }

  lemma NewNames<T>(nodes: map<Path, T>, path: Path, child: T)
    requires forall name: string :: path + [name] !in nodes
    ensures Names(map[], nodes[path := child], path)
  {
    forall name: string ensures path + [name] !in nodes[path := child] {
      assert |path + [name]| != |path|;
    }
  }

  lemma AddedNames<T>(children: map<string, T>, nodes: map<Path, T>, p: Path, path: Path, child: T)
    requires Names(children, nodes, p) && path != [] && path !in nodes
    ensures Names(if p == Parent(path) then children[path[|path| - 1] := child] else children, nodes[path := child], p)
  {
    forall name: string { ExtendedIs(p, path, name); }
  }

  lemma RemovedNames<T>(children: map<string, T>, nodes: map<Path, T>, p: Path, path: Path)
    requires Names(children, nodes, p) && path != [] && !(path <= p)
    ensures Names(if p == Parent(path) then children - {path[|path| - 1]} else children, Without(nodes, path), p)
  {
    forall name: string
      ensures path <= p + [name] <==> p == Parent(path) && name == path[|path| - 1]
    {
      ExtendedIs(p, path, name);
      BelowExtended(path, p, name);
    }
  }

  /** Where the node that ends up at `p` comes from. */
  ghost function Source(f: Path, q: Path, p: Path): Path {
    if q <= p && !(f < q) then f + p[|q|..] else p
  }

  /** The places after a move: each node comes from one place, and directories still hold all. */
  lemma PlacesMoved<T>(nodes: map<Path, T>, f: Path, q: Path)
    requires f != [] && q != [] && f in nodes && !(q < f) && (Parent(q) in Without(nodes, f) <==> !(f < q))
    ensures forall p: Path :: p in Moved(nodes, f, q) <==>
              Source(f, q, p) in nodes && (if q <= p && !(f < q) then true else !(f <= p))
    ensures forall p: Path :: p in Moved(nodes, f, q) ==> Moved(nodes, f, q)[p] == nodes[Source(f, q, p)]
  {
    hide Rebased;
    Laws.RebasedRebases(nodes, f, q);
  }

  lemma RootStays<T>(nodes: map<Path, T>, f: Path, q: Path)
    requires f != [] && q != [] && f in nodes && !(q < f) && (Parent(q) in Without(nodes, f) <==> !(f < q))
    ensures [] in nodes ==> [] in Moved(nodes, f, q) && Moved(nodes, f, q)[[]] == nodes[[]]
  {
    hide Moved, Without;
    PlacesMoved(nodes, f, q);
    assert Source(f, q, []) == [];
  }

  lemma SourceInjective<T>(nodes: map<Path, T>, f: Path, q: Path, p: Path, r: Path)
    requires f in nodes && f != [] && q != [] && !(q < f) && (Parent(q) in Without(nodes, f) <==> !(f < q))
    requires p in Moved(nodes, f, q) && r in Moved(nodes, f, q) && Source(f, q, p) == Source(f, q, r)
    ensures p == r
  {
    hide Moved, Without;
    PlacesMoved(nodes, f, q);
    if q <= p { Laws.ThereAndBack(p, q, f); }
    if q <= r { Laws.ThereAndBack(r, q, f); }
  }

  lemma InjectiveMoved<T>(nodes: map<Path, T>, f: Path, q: Path)
    requires f in nodes && f != [] && q != [] && !(q < f) && (Parent(q) in Without(nodes, f) <==> !(f < q))
    requires Injective(nodes)
    ensures Injective(Moved(nodes, f, q)) && Moved(nodes, f, q).Values <= nodes.Values
  {
    hide Moved, Without, Source;
    PlacesMoved(nodes, f, q);
    forall p: Path, r: Path | p in Moved(nodes, f, q) && r in Moved(nodes, f, q) && Moved(nodes, f, q)[p] == Moved(nodes, f, q)[r]
      ensures p == r
    {
      SourceInjective(nodes, f, q, p, r);
    }
  }

  lemma InjectiveWithout<T>(nodes: map<Path, T>, path: Path)
    requires Injective(nodes)
    ensures Injective(Without(nodes, path)) && Without(nodes, path).Values <= nodes.Values
  {}

  lemma InjectiveWith<T>(nodes: map<Path, T>, path: Path, child: T)
    requires Injective(nodes) && path !in nodes && child !in nodes.Values
    ensures Injective(nodes[path := child])
  {}

  lemma InjectiveAt<T>(nodes: map<Path, T>, p: Path, r: Path)
    requires Injective(nodes) && p in nodes && r in nodes
    ensures nodes[p] == nodes[r] <==> p == r
  {}

  lemma ClosedAt(t: Tree)
    requires IsTree(t)
    ensures forall p: Path :: p in t && p != [] ==> Parent(p) in t && t[Parent(p)].Directory?
  {}

  /** What moved is not one of the two directories it moved between. */
  lemma SourceIsNoParent<T>(nodes: map<Path, T>, f: Path, q: Path, p: Path)
    requires f in nodes && f != [] && q != [] && !(q < f) && (Parent(q) in Without(nodes, f) <==> !(f < q))
    requires p in Moved(nodes, f, q)
    ensures q <= p ==> !(f < q) && Source(f, q, p) != Parent(f) && Source(f, q, p) != Parent(q)
    ensures !(q <= p) ==> Source(f, q, p) == p
  {
    hide Moved, Without;
    PlacesMoved(nodes, f, q);
    if q <= p {
      assert f < q ==> f <= p;
      Laws.PrefixParent(f, q);
    }
  }

  /** The children of the node that was at `r`, once the node at `f` is linked at `q` instead. */
  ghost function Rewired<T>(children: map<string, T>, nodes: map<Path, T>, f: Path, q: Path, r: Path): map<string, T>
    requires f in nodes && f != [] && q != []
  {
    var kept := if r == Parent(f) then children - {f[|f| - 1]} else children;
    if r == Parent(q) then kept[q[|q| - 1] := nodes[f]] else kept
  }

  lemma RewiredIs<T>(children: map<string, T>, nodes: map<Path, T>, f: Path, q: Path, r: Path)
    requires f in nodes && f != [] && q != []
    ensures Rewired(children, nodes, f, q, r) ==
            if r == Parent(f) && r == Parent(q) then (children - {f[|f| - 1]})[q[|q| - 1] := nodes[f]] else
            if r == Parent(f) then children - {f[|f| - 1]} else
            if r == Parent(q) then children[q[|q| - 1] := nodes[f]] else children
  {}

  lemma AllNamesMoved<T>(nodes: map<Path, T>, before: map<Path, map<string, T>>, after: map<Path, map<string, T>>, f: Path, q: Path)
    requires f in nodes && f != [] && q != [] && !(q < f) && (Parent(q) in Without(nodes, f) <==> !(f < q))
    requires before.Keys == nodes.Keys == after.Keys
    requires forall r: Path :: r in nodes ==> Names(before[r], nodes, r) && after[r] == Rewired(before[r], nodes, f, q, r)
    ensures forall p: Path :: p in Moved(nodes, f, q) ==>
              var r := Source(f, q, p);
              r in nodes && Moved(nodes, f, q)[p] == nodes[r] && Names(after[r], Moved(nodes, f, q), p)
  {
    hide Names, Moved, Without, Source, Rewired;
    PlacesMoved(nodes, f, q);
    forall p: Path | p in Moved(nodes, f, q) ensures Names(after[Source(f, q, p)], Moved(nodes, f, q), p) {
      MovedNames(before[Source(f, q, p)], nodes, f, q, p);
    }
  }

  lemma MovedNames<T>(children: map<string, T>, nodes: map<Path, T>, f: Path, q: Path, p: Path)
    requires f in nodes && f != [] && q != [] && !(q < f) && (Parent(q) in Without(nodes, f) <==> !(f < q))
    requires p in Moved(nodes, f, q) && Names(children, nodes, Source(f, q, p))
    ensures Names(Rewired(children, nodes, f, q, Source(f, q, p)), Moved(nodes, f, q), p)
  {
    hide Names, Moved, Without;
    SourceIsNoParent(nodes, f, q, p);
    if q <= p {
      GraftedNames(children, nodes, f, q, p);
    } else {
      PlacesMoved(nodes, f, q);
      RemovedNames(children, nodes, p, f);
      var kept := if p == Parent(f) then children - {f[|f| - 1]} else children;
      if Parent(q) in Without(nodes, f) {
        BaseNames(kept, nodes, f, q, p);
      } else {
        MovedInside(nodes, f, q);
        assert p != Parent(q);
      }
    }
  }

  lemma MovedInside<T>(nodes: map<Path, T>, f: Path, q: Path)
    requires q != [] && Parent(q) !in Without(nodes, f)
    ensures Moved(nodes, f, q) == Without(nodes, f)
  {}

  lemma GraftedNames<T>(children: map<string, T>, nodes: map<Path, T>, f: Path, q: Path, p: Path)
    requires f in nodes && f != [] && q != [] && !(q < f) && !(f < q) && Parent(q) in Without(nodes, f)
    requires q <= p && Names(children, nodes, f + p[|q|..])
    ensures Names(children, Moved(nodes, f, q), p)
  {
    hide Moved, Without;
    PlacesMoved(nodes, f, q);
    forall name: string ensures q <= p + [name] && Source(f, q, p + [name]) == f + p[|q|..] + [name] {
      assert (p + [name])[|q|..] == p[|q|..] + [name];
    }
  }

  lemma BaseNames<T>(kept: map<string, T>, nodes: map<Path, T>, f: Path, q: Path, p: Path)
    requires f in nodes && f != [] && q != [] && !(q < f) && !(f < q) && Parent(q) in Without(nodes, f)
    requires !(q <= p) && Names(kept, Without(nodes, f), p)
    ensures Names(if p == Parent(q) then kept[q[|q| - 1] := nodes[f]] else kept, Moved(nodes, f, q), p)
  {
    hide Moved;
    PlacesMoved(nodes, f, q);
    forall name: string ensures q <= p + [name] <==> p == Parent(q) && name == q[|q| - 1] {
      ExtendedIs(p, q, name);
      BelowExtended(q, p, name);
    }
    assert Parent(q) + [q[|q| - 1]] == q;
    assert f + q[|q|..] == f;
  }

  // ---- what a release has seen ----

  /** `p` itself and all below the children named in `done`. */
  ghost function Seen(t: Tree, p: Path, done: set<string>): Tree {
    map q: Path | q in t && p <= q && (q == p || q[|p|] in done) :: t[q]
  }

  lemma ReleasedSelf(s: State, t: Tree, p: Path)
    requires p in t
    ensures Released(s, Seen(t, p, {}))
            == match t[p]
               case Directory => s.(directories := s.directories - 1)
               case File(content) => s.(bytes := s.bytes - |content|, files := s.files - 1)
  {
    hide Total;
    var one := Seen(t, p, {});
    forall m ensures Total(one, m) == Weigh(m, t[p]) {
      Laws.TotalTake(one, p, m);
      assert one - {p} == map[];
      Laws.TotalNone(m);
    }
  }

  lemma ReleasedMore(s: State, t: Tree, p: Path, done: set<string>, name: string)
    requires name !in done
    ensures Released(Released(s, Seen(t, p, done)), Subtree(t, p + [name])) == Released(s, Seen(t, p, done + {name}))
  {
    hide Total, Seen, Subtree;
    SeenMore(t, p, done, name);
  }

  lemma SeenMore(t: Tree, p: Path, done: set<string>, name: string)
    requires name !in done
    ensures forall m :: Total(Seen(t, p, done + {name}), m) == Total(Seen(t, p, done), m) + Total(Subtree(t, p + [name]), m)
  {
    hide Total, Weigh;
    var more, below := Seen(t, p, done), Subtree(t, p + [name]);
    forall q: Path ensures p + [name] <= q <==> p < q && q[|p|] == name {
      if p < q && q[|p|] == name { assert q[..|p| + 1] == p + [name]; }
    }
    assert Seen(t, p, done + {name}) == more + below;
    forall m ensures Total(more + below, m) == Total(more, m) + Total(below, m) {
      Laws.TotalUnion(more, below, m);
    }
  }

  lemma SeenAll(t: Tree, p: Path, done: set<string>)
    requires forall q: Path :: q in t && p < q ==> q[|p|] in done
    ensures Seen(t, p, done) == Subtree(t, p)
  {}

  lemma SmallerBelow(t: Tree, p: Path, name: string)
    requires p in t
    ensures Subtree(t, p + [name]).Keys < Subtree(t, p).Keys
  {
    assert p in Subtree(t, p).Keys && p !in Subtree(t, p + [name]).Keys;
    forall q: Path | q in Subtree(t, p + [name]) ensures q in Subtree(t, p) {
      assert p <= p + [name] <= q;
    }
  }
}
