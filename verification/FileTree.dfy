/**
 The filesystem as a flat map from the names on a path to what is there, with the three
 running counters beside it, and each operation as a function on that state.
 */
module FileTree {
  import opened Wrappers
  import opened VirtualPath

  type Path = seq<string>

  datatype Entry = Directory | File(content: seq<bv8>)

  type Tree = map<Path, Entry>

  datatype Limits = Limits(maxFileBytes: int, maxTotalBytes: int, maxFiles: int, maxDepth: int, maxNameLength: int)

  datatype Error =
    | NotFound | NotADirectory | IsADirectory | AlreadyExists | DirectoryNotEmpty
    | InvalidArgument | QuotaExceeded | NameTooLong | PermissionDenied

  datatype Result<+T> = Ok(value: T) | Err(error: Error)

  datatype State = State(tree: Tree, bytes: int, files: int, directories: int)

  function Parent(p: Path): Path
    requires p != []
  {
    p[..|p| - 1]
  }

  /** The root is a directory, and everything else lies in one. */
  ghost predicate IsTree(t: Tree) {
    && [] in t && t[[]].Directory?
    && forall p: Path :: p in t && p != [] ==> Parent(p) in t && t[Parent(p)].Directory?
  }

  /** Whether anything lies below `p`. */
  ghost predicate HasChildren(t: Tree, p: Path) {
    exists q: Path :: q in t && p < q
  }

  // The next four cut and paste whole subtrees, of entries here and of nodes in the heap.

  /** What lies at or below `p`. */
  ghost function Subtree<T>(t: map<Path, T>, p: Path): map<Path, T> {
    map q: Path | q in t && p <= q :: t[q]
  }

  /** What is left without `p` and all below it. */
  ghost function Without<T>(t: map<Path, T>, p: Path): map<Path, T> {
    map q: Path | q in t && !(p <= q) :: t[q]
  }

  // ---- recounting ----

  datatype Measure = Bytes | Files | Directories

  function Weigh(m: Measure, e: Entry): nat {
    match m
    case Bytes => if e.File? then |e.content| else 0
    case Files => if e.File? then 1 else 0
    case Directories => if e.Directory? then 1 else 0
  }

  /** The recount: what all entries weigh together. */
  ghost function Total(t: Tree, m: Measure): nat
    decreases |t|
  {
    if t == map[] then 0 else
    var p: Path :| p in t;
    Weigh(m, t[p]) + Total(t - {p}, m)
  }

  /** The running counters agree with a recount. */
  ghost predicate Accounted(s: State) {
    && s.bytes == Total(s.tree, Bytes)
    && s.files == Total(s.tree, Files)
    && s.directories == Total(s.tree, Directories)
  }

  // ---- finding ----

  /** The first thing on the way to `path`, from its `i`-th name on, that is not a directory. */
  ghost function ParentError(t: Tree, path: Path, i: nat): Option<Error>
    decreases |path| - i
  {
    if i + 1 >= |path| then None
    else if path[..i + 1] !in t then Some(NotFound)
    else if !t[path[..i + 1]].Directory? then Some(NotADirectory)
    else ParentError(t, path, i + 1)
  }

  ghost function ResolveParent(t: Tree, path: Path): Option<Error> {
    if path == [] then Some(InvalidArgument) else ParentError(t, path, 0)
  }

  function Read(s: State, path: Path): Result<seq<bv8>> {
    if path !in s.tree then Err(NotFound)
    else if s.tree[path].Directory? then Err(IsADirectory)
    else Ok(s.tree[path].content)
  }

  // ---- the operations ----

  predicate Exceeds(l: Limits, s: State, fileSize: int, delta: int, newFile: bool) {
    fileSize > l.maxFileBytes || s.bytes + delta > l.maxTotalBytes || (newFile && s.files + 1 > l.maxFiles)
  }

  ghost function Write(l: Limits, s: State, path: Path, content: seq<bv8>, append: bool): (State, Option<Error>) {
    var unresolved := ResolveParent(s.tree, path);
    if unresolved.Some? then (s, unresolved)
    else if |path[|path| - 1]| > l.maxNameLength then (s, Some(NameTooLong))
    else if |path| > l.maxDepth then (s, Some(InvalidArgument))
    else if path in s.tree then
      if s.tree[path].Directory? then (s, Some(IsADirectory)) else
      var before := s.tree[path].content;
      var now := if append then before + content else content;
      if Exceeds(l, s, |now|, |now| - |before|, false) then (s, Some(QuotaExceeded))
      else (s.(tree := s.tree[path := File(now)], bytes := s.bytes + |now| - |before|), None)
    else if Exceeds(l, s, |content|, |content|, true) then (s, Some(QuotaExceeded))
    else (s.(tree := s.tree[path := File(content)], bytes := s.bytes + |content|, files := s.files + 1), None)
  }

  /** The directories on `path` from its `i`-th name on; those made before a failure stay. */
  ghost function MakeFrom(l: Limits, s: State, path: Path, recursive: bool, i: nat): (State, Option<Error>)
    decreases |path| - i
  {
    if i >= |path| then (s, None) else
    var here, last := path[..i + 1], i + 1 == |path|;
    if |path[i]| > l.maxNameLength then (s, Some(NameTooLong))
    else if here in s.tree then
      if !s.tree[here].Directory? then (s, Some(if last && !recursive then AlreadyExists else NotADirectory))
      else if last && !recursive then (s, Some(AlreadyExists))
      else MakeFrom(l, s, path, recursive, i + 1)
    else if !last && !recursive then (s, Some(NotFound))
    else if i + 1 > l.maxDepth then (s, Some(InvalidArgument))
    else MakeFrom(l, s.(tree := s.tree[here := Directory], directories := s.directories + 1), path, recursive, i + 1)
  }

  ghost function MakeDirectory(l: Limits, s: State, path: string, recursive: bool): (State, Option<Error>) {
    if path == "/" then (s, if recursive then None else Some(AlreadyExists))
    else MakeFrom(l, s, Segments(path), recursive, 0)
  }

  /** The state once `t` has been taken off the counters. */
  ghost function Released(s: State, t: Tree): State {
    s.(bytes := s.bytes - Total(t, Bytes), files := s.files - Total(t, Files), directories := s.directories - Total(t, Directories))
  }

  ghost function Remove(s: State, path: string, recursive: bool): (State, Option<Error>) {
    var p := Segments(path);
    if path == "/" then (s, Some(PermissionDenied)) else
    var unresolved := ResolveParent(s.tree, p);
    if unresolved.Some? then (s, unresolved)
    else if p !in s.tree then (s, Some(NotFound))
    else if s.tree[p].Directory? && HasChildren(s.tree, p) && !recursive then (s, Some(DirectoryNotEmpty))
    else (Released(s, Subtree(s.tree, p)).(tree := Without(s.tree, p)), None)
  }

  /** `t` with all at or below `from` taken out and, where `to` still has a parent, put there instead. */
  ghost function Moved<T>(t: map<Path, T>, from: Path, to: Path): map<Path, T>
    requires to != []
  {
    var rest := Without(t, from);
    if Parent(to) !in rest then rest
    else Without(rest, to) + Rebased(t, from, to)
  }

  /** What lies at or below `from`, as it lies at or below `to`. */
  ghost function Rebased<T>(t: map<Path, T>, from: Path, to: Path): map<Path, T> {
    var targets := set q: Path | q in t && from <= q :: to + q[|from|..];
    map q: Path | q in targets && to <= q && from + q[|to|..] in t :: t[from + q[|to|..]]
  }

  ghost function Rename(s: State, from: string, to: string): (State, Option<Error>) {
    var f, q := Segments(from), Segments(to);
    var unresolved := ResolveParent(s.tree, f);
    if unresolved.Some? then (s, unresolved)
    else if f !in s.tree then (s, Some(NotFound))
    else if s.tree[f].Directory? && IsUnder(to, from) then (s, Some(InvalidArgument))
    else
      var nowhere := ResolveParent(s.tree, q);
      if nowhere.Some? then (s, nowhere)
      else if q in s.tree && s.tree[q].Directory? && HasChildren(s.tree, q) then (s, Some(DirectoryNotEmpty))
      else (Released(s, Subtree(s.tree, q)).(tree := Moved(s.tree, f, q)), None)
  }

  ghost function Copy(l: Limits, s: State, from: Path, to: Path): (State, Option<Error>) {
    match Read(s, from)
    case Err(error) => (s, Some(error))
    case Ok(content) => Write(l, s, to, content, false)
  }
}
