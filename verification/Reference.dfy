/** What each op means for a tree of paths, with no inodes in sight. */
module Reference {
  import opened Wrappers
  import opened Trace
  import opened Paths
  import opened Bytes
  import opened Runs

  function IsDirIn(tree: Tree, path: string): bool {
    path == "" || (path in tree && tree[path] == Dir)
  }

  function ExistsIn(tree: Tree, path: string): bool {
    path == "" || path in tree
  }

  /** The new bytes over the old, with zeros in any gap. */
  function WriteAt(was: seq<Byte>, offset: nat, data: seq<Byte>): (r: seq<Byte>)
    ensures |r| == Max(|was|, offset + |data|)
  {
    seq(Max(|was|, offset + |data|), x requires 0 <= x =>
      if offset <= x < offset + |data| then data[x - offset] else ByteAt(was, x))
  }

  /** Writing nothing has no effect exactly when it is not past the end; past it, the compiler still
      emits a size change and the file grows. */
  lemma EmptyWrite(was: seq<Byte>, offset: nat)
    ensures WriteAt(was, offset, []) == was <==> offset <= |was|
  {
    if offset <= |was| {
      assert forall x :: 0 <= x < |was| ==> WriteAt(was, offset, [])[x] == was[x];
    }
  }

  function FileIn(tree: Tree, path: string): Result<seq<Byte>, Refusal> {
    if !ExistsIn(tree, path) then Failure(NoSuchFile)
    else if IsDirIn(tree, path) then Failure(IsADirectory)
    else Success(tree[path].data)
  }

  function StepCreate(tree: Tree, path: string, entry: Entry): Result<Tree, Refusal> {
    if ExistsIn(tree, path) then Success(tree)
    else if !IsDirIn(tree, Split(path).0) then Failure(NoParent)
    else Success(tree[path := entry])
  }

  /** Everything at or below `from`, now at or below `to`, in place of whatever was there. */
  function Moved(tree: Tree, from: string, to: string): (moved: Tree)
    ensures forall p :: p in moved <==> WasThere(tree, from, to, p)
    ensures forall p :: p in moved ==> moved[p] == EntryBefore(tree, from, to, p)
  {
    var stay := set q | q in tree && !Below(from, q) && !Below(to, q);
    var come := set q | q in tree && Below(from, q) :: Origin(to, from, q);
    ComesFrom(tree, from, to, come);
    assert forall p :: p in stay + come ==> WasThere(tree, from, to, p);
    map p | p in stay + come :: EntryBefore(tree, from, to, p)
  }

  function EntryBefore(tree: Tree, from: string, to: string, p: string): Entry
    requires WasThere(tree, from, to, p)
  {
    if Below(to, p) then tree[Origin(from, to, p)] else tree[p]
  }

  predicate WasThere(tree: Tree, from: string, to: string, p: string) {
    if Below(to, p) then Origin(from, to, p) in tree else !Below(from, p) && p in tree
  }

  lemma OriginTwice(from: string, to: string, p: string)
    requires Below(to, p)
    ensures Below(from, Origin(from, to, p)) && Origin(to, from, Origin(from, to, p)) == p
  {
    var back := Origin(from, to, p);
    assert back[|from|..] == p[|to|..];
    if p == to {
      assert p[|to|..] == "" && back == from;
    } else {
      assert p[|to|] == '/';
      assert back[..|from| + 1] == from + "/";
    }
    assert p == to + p[|to|..];
  }

  lemma ComesFrom(tree: Tree, from: string, to: string, come: set<string>)
    requires come == set q | q in tree && Below(from, q) :: Origin(to, from, q)
    ensures forall p :: p in come <==> Below(to, p) && Origin(from, to, p) in tree
  {
    forall p ensures p in come <==> Below(to, p) && Origin(from, to, p) in tree {
      if p in come {
        var q :| q in tree && Below(from, q) && p == Origin(to, from, q);
        OriginTwice(to, from, q);
      }
      if Below(to, p) && Origin(from, to, p) in tree {
        OriginTwice(from, to, p);
      }
    }
  }

  function StepRename(tree: Tree, from: string, to: string): Result<Tree, Refusal> {
    if !ExistsIn(tree, from) then Failure(NoSuchFile)
    else if from == to then Success(tree)
    else if from + "/" <= to then Failure(IntoItself)
    else if !IsDirIn(tree, Split(to).0) then Failure(NoTargetDir)
    else Success(Moved(tree, from, to))
  }

  function Without(tree: Tree, path: string): Tree {
    map p | p in tree && !Below(path, p) :: tree[p]
  }

  /** One op on a tree: its result, or why it cannot apply. */
  function Step(tree: Tree, op: Op): Result<Tree, Refusal> {
    match op
    case Create(path) => StepCreate(tree, path, File([]))
    case Mkdir(path) => StepCreate(tree, path, Dir)
    case Write(path, offset, data) =>
      (match FileIn(tree, path)
       case Failure(e) => Failure(e)
       case Success(was) => Success(tree[path := File(WriteAt(was, offset, data))]))
    case Truncate(path, len) =>
      (match FileIn(tree, path)
       case Failure(e) => Failure(e)
       case Success(was) => Success(tree[path := File(Resize(was, len))]))
    case Rename(from, to) => StepRename(tree, from, to)
    case Unlink(path) => if ExistsIn(tree, path) then Success(Without(tree, path)) else Failure(NoSuchFile)
    case Rmdir(path) => if ExistsIn(tree, path) then Success(Without(tree, path)) else Failure(NoSuchFile)
    case Fsync(path) => if ExistsIn(tree, path) then Success(tree) else Failure(NoSuchFile)
    case Sync => Success(tree)
    case Mark(_) => Success(tree)
  }

  /** The tree after the first `k` ops, or the first op that cannot apply. */
  function TreeAfter(trace: Trace, k: nat): Result<Tree, CompileError>
    requires k <= |trace.ops|
  {
    if k == 0 then Success(trace.initial) else
    match TreeAfter(trace, k - 1)
    case Failure(e) => Failure(e)
    case Success(tree) =>
      match Step(tree, trace.ops[k - 1])
      case Failure(reason) => Failure(CompileError(k - 1, reason))
      case Success(next) => Success(next)
  }

  /** Paths are normalised, and renames and removals are not about the root itself. */
  predicate IsNormalOp(op: Op) {
    match op
    case Create(path) => Normal(path)
    case Mkdir(path) => Normal(path)
    case Write(path, _, _) => Normal(path)
    case Truncate(path, _) => Normal(path)
    case Rename(from, to) => Normal(from) && Normal(to) && from != "" && to != ""
    case Unlink(path) => Normal(path) && path != ""
    case Rmdir(path) => Normal(path) && path != ""
    case Fsync(path) => Normal(path)
    case Sync => true
    case Mark(_) => true
  }

  ghost predicate IsNormalTrace(trace: Trace) {
    WellFormed(trace.initial) && forall i :: 0 <= i < |trace.ops| ==> IsNormalOp(trace.ops[i])
  }
}
