/** The inode-level replay refines the reference semantics on paths. */
module Replay {
  import opened Wrappers
  import opened Trace
  import opened Paths
  import opened FileSystem
  import opened Walk
  import opened Namespace
  import opened Reshape
  import opened Snapshot
  import opened Bytes
  import opened Locality
  import opened Runs
  import opened Stages
  import opened Crash
  import opened Enumerate
  import opened Shapes
  import opened Durability
  import opened Reference

  // -------------------------------------------------- looking up in a held tree

  lemma LookupAgrees(v: Image, tree: Tree, path: string)
    requires Holds(v, tree) && Normal(path)
    ensures Lookup(v, path).Some? <==> ExistsIn(tree, path)
    ensures DirAt(v, path).Some? <==> IsDirIn(tree, path)
    ensures DirAt(v, path).Some? ==> HasDirAt(v, path)
    ensures FileAt(v, path).Failure? ==> FileIn(tree, path) == Failure(FileAt(v, path).error)
    ensures FileAt(v, path).Success? ==>
              && Lookup(v, path) == Some(FileAt(v, path).value) && FileAt(v, path).value < |v|
              && v[FileAt(v, path).value].FileNode?
              && FileIn(tree, path) == Success(Content(v[FileAt(v, path).value]))
  {
    hide Lookup, Normal, UniquePaths, NamesAreValid, Settled, Content;
    EmptyPathIsRoot(v);
    assert path != "" && path in tree ==> Shows(v, path, tree[path]);
  }

  /** Only one path leads to an inode. */
  lemma OnePath(v: Image, tree: Tree, a: string, b: string)
    requires Holds(v, tree) && Normal(a) && Normal(b) && Lookup(v, a).Some? && Lookup(v, a) == Lookup(v, b)
    ensures a == b
  {
    hide Resolve, Normal, Parts, Settled, Shows, NamesAreValid, Closed;
    assert Parts(a) == Parts(b);
    SameParts(a, b);
  }

  /** What the inodes did is what the reference says. */
  ghost predicate Matches(v: Image, out: Outcome, step: Result<Tree, Refusal>) {
    match out
    case Refused(reason) => step == Failure(reason)
    case Emits(born, ms) => step.Success? && Holds(Replayed(v + born, ms), step.value)
  }

  // ------------------------------------------------------------ create, mkdir

  lemma CreateRefines(v: Image, tree: Tree, path: string, entry: Entry)
    requires Holds(v, tree) && Normal(path) && (entry.File? ==> entry.data == [])
    ensures Matches(v, OutcomeOfCreate(v, path, NodeOf(entry)), StepCreate(tree, path, entry))
  {
    hide Holds, Lookup, Split, Normal, Applied, Replayed;
    LookupAgrees(v, tree, path);
    if !ExistsIn(tree, path) {
      SplitOfNormal(path);
      var dir := Split(path).0;
      LookupAgrees(v, tree, dir);
      if IsDirIn(tree, dir) {
        LoadNextHolds(v, tree, path, entry);
        ReplayedSingle(v + [NodeOf(entry)], Link(DirAt(v, dir).value, Split(path).1, |v|));
      }
    } else {
      NothingReplayed(v);
    }
  }

  lemma NothingReplayed(v: Image)
    ensures Replayed(v + [], []) == v
  {
    assert v + [] == v;
    ReplayedNothing(v);
  }

  // ---------------------------------------------------------------- file data

  lemma {:induction false} DataKeepsWalks(v: Image, ino: Ino, node: Node, q: seq<string>)
    requires ino < |v| && v[ino].FileNode? && node.FileNode?
    ensures Resolve(v[ino := node], q) == Resolve(v, q)
    decreases |q|
  {
    if q != [] {
      DataKeepsWalks(v, ino, node, q[..|q| - 1]);
    }
  }

  lemma DataKeepsTidy(v: Image, ino: Ino, node: Node)
    requires Tidy(v) && ino < |v| && v[ino].FileNode? && node.FileNode?
    ensures Tidy(v[ino := node]) && forall path :: Lookup(v[ino := node], path) == Lookup(v, path)
  {
    hide Parts, Resolve;
    var after := v[ino := node];
    forall q ensures Resolve(after, q) == Resolve(v, q) { DataKeepsWalks(v, ino, node, q); }
    assert forall d :: 0 <= d < |after| && after[d].DirNode? ==> after[d] == v[d];
    assert Closed(after) && NamesAreValid(after) && UniquePaths(after);
  }

  /** Giving one file new contents. */
  lemma SetFileHolds(v: Image, tree: Tree, path: string, ino: Ino, node: Node)
    requires Holds(v, tree) && Normal(path) && Lookup(v, path) == Some(ino) && path in tree
    requires ino < |v| && v[ino].FileNode? && node.FileNode? && |node.buf| <= node.len
    ensures Holds(v[ino := node], tree[path := EntryOf(node)])
  {
    hide Lookup, Normal, EntryOf, Tidy, Shows;
    HeldIsTidy(v, tree);
    DataKeepsTidy(v, ino, node);
    var after, next := v[ino := node], tree[path := EntryOf(node)];
    assert Tidy(after) && Settled(after);
    forall q | q in tree ensures Normal(q) && q != "" && Shows(after, q, next[q]) {
      StillShows(v, tree, path, ino, node, q);
    }
    assert forall q :: q in next <==> q in tree;
    assert forall q :: Normal(q) && q != "" && Lookup(after, q).Some? ==> q in next;
  }

  lemma StillShows(v: Image, tree: Tree, path: string, ino: Ino, node: Node, q: string)
    requires Holds(v, tree) && Normal(path) && Lookup(v, path) == Some(ino) && path in tree && q in tree
    requires ino < |v| && v[ino].FileNode? && node.FileNode?
    ensures Shows(v[ino := node], q, tree[path := EntryOf(node)][q])
  {
    hide Lookup, Normal, EntryOf, Tidy;
    HeldIsTidy(v, tree);
    DataKeepsTidy(v, ino, node);
    assert Shows(v, q, tree[q]);
    if q != path && Lookup(v, q) == Some(ino) {
      OnePath(v, tree, q, path);
    }
  }

  lemma HeldIsTidy(v: Image, tree: Tree)
    requires Holds(v, tree)
    ensures Tidy(v) && Settled(v) && Closed(v)
  {
  }

  /** Micro-ops on the data of one file change that node and nothing else. */
  lemma {:induction false} DataStaysInFile(v: Image, ino: Ino, ms: seq<Micro>)
    requires ino < |v| && v[ino].FileNode?
    requires forall m :: m in ms ==> (m.Write? || m.SetLen?) && m.ino == ino
    ensures Replayed(v, ms) == v[ino := NodeSurvive(ino, v[ino], ms, Prefix(|ms|, |ms|))]
    ensures Replayed(v, ms)[ino].FileNode?
  {
    hide Applied, Effect;
    if ms != [] {
      var k := |ms| - 1;
      DataStaysInFile(v, ino, ms[..k]);
      SurvivePrefixOf(ino, v[ino], ms, k);
      OneNodeChanges(Replayed(v, ms[..k]), ino, ms[k]);
    }
  }

  lemma OneNodeChanges(v: Image, ino: Ino, m: Micro)
    requires ino < |v| && v[ino].FileNode? && (m.Write? || m.SetLen?) && m.ino == ino
    ensures Applied(v, m) == v[ino := Effect(ino, v[ino], m)] && Effect(ino, v[ino], m).FileNode?
  {
    hide Overlay;
  }

  lemma SurvivePrefixOf(n: Ino, node: Node, ms: seq<Micro>, k: nat)
    requires k + 1 == |ms|
    ensures NodeSurvive(n, node, ms, Prefix(k + 1, k + 1)) ==
            Effect(n, NodeSurvive(n, node, ms[..k], Prefix(k, k)), ms[k])
  {
    hide Effect;
    assert Prefix(k + 1, k + 1)[..k] == Prefix(k, k);
    SurviveOfPrefix(n, node, ms, ms[..k], Prefix(k, k));
  }

  lemma {:induction false} SurviveOfPrefix(n: Ino, node: Node, ms: seq<Micro>, part: seq<Micro>, s: Persisted)
    requires part <= ms && |s| <= |part|
    ensures NodeSurvive(n, node, ms, s) == NodeSurvive(n, node, part, s)
    decreases |s|
  {
    hide Effect;
    if s != [] {
      SurviveOfPrefix(n, node, ms, part, s[..|s| - 1]);
    }
  }

  // -------------------------------------------------------------------- write

  /** The buffer after all chunks of a write. */
  function Written(buf: seq<Byte>, offset: nat, data: seq<Byte>): seq<Byte> {
    if data == [] then buf else Overlay(buf, offset, data)
  }

  lemma ChunksWrite(ino: Ino, buf: seq<Byte>, len: nat, offset: nat, data: seq<Byte>, block: nat)
    requires block > 0
    ensures var chunks := Chunks(ino, offset, data, block);
            NodeSurvive(ino, FileNode(buf, len), chunks, Prefix(|chunks|, |chunks|)) ==
            FileNode(Written(buf, offset, data), len)
  {
    if data != [] {
      hide NodeSurvive, Chunks, Overlay;
      WholeWrite(ino, buf, len, offset, data, block);
    }
  }

  lemma WrittenContent(buf: seq<Byte>, len: nat, offset: nat, data: seq<Byte>)
    requires |buf| <= len
    ensures var end := offset + |data|;
            && |Written(buf, offset, data)| <= Max(len, end)
            && Resize(Written(buf, offset, data), Max(len, end)) == WriteAt(Resize(buf, len), offset, data)
  {
    hide Overlay, Resize;
    if data != [] {
      OverlayBytes(buf, offset, data);
    }
    var end := offset + |data|;
    ResizeBytes(buf, len);
    ResizeBytes(Written(buf, offset, data), Max(len, end));
    ByteOfResize(buf, len);
  }

  lemma ByteOfResize(buf: seq<Byte>, len: nat)
    requires |buf| <= len
    ensures forall x: nat :: ByteAt(Resize(buf, len), x) == ByteAt(buf, x)
  {
  }

  function Growth(ino: Ino, len: nat, end: nat): seq<Micro> {
    if end > len then [SetLen(ino, end, true)] else []
  }

  lemma WriteNode(ino: Ino, buf: seq<Byte>, len: nat, offset: nat, data: seq<Byte>, block: nat)
    requires block > 0 && |buf| <= len
    ensures var end := offset + |data|;
            var ms := Chunks(ino, offset, data, block) + Growth(ino, len, end);
            NodeSurvive(ino, FileNode(buf, len), ms, Prefix(|ms|, |ms|)) ==
            FileNode(Written(buf, offset, data), Max(len, end))
  {
    hide Overlay, NodeSurvive, Chunks, Written;
    var chunks := Chunks(ino, offset, data, block);
    ChunksWrite(ino, buf, len, offset, data, block);
    var end := offset + |data|;
    if end > len {
      var ms := chunks + [SetLen(ino, end, true)];
      SurvivePrefixOf(ino, FileNode(buf, len), ms, |chunks|);
      assert ms[..|chunks|] == chunks;
    } else {
      assert chunks + [] == chunks;
    }
  }

  lemma WriteRefines(v: Image, tree: Tree, path: string, offset: nat, data: seq<Byte>, block: nat)
    requires Holds(v, tree) && Normal(path) && block > 0
    ensures Matches(v, OutcomeOfWrite(v, path, offset, data, block), Step(tree, Op.Write(path, offset, data)))
  {
    hide Lookup, Normal, Holds, Chunks, Replayed, Resize, WriteAt, Written, NodeSurvive, FileAt, ExistsIn, IsDirIn;
    LookupAgrees(v, tree, path);
    FileIsListed(tree, path);
    if FileAt(v, path).Success? {
      var ino := FileAt(v, path).value;
      var FileNode(buf, len) := v[ino];
      HeldIsTidy(v, tree);
      var end := offset + |data|;
      var ms := Chunks(ino, offset, data, block) + Growth(ino, len, end);
      ChunksAre(ino, offset, data, block);
      assert v + [] == v;
      DataStaysInFile(v, ino, ms);
      assert |buf| <= len;
      WriteNode(ino, buf, len, offset, data, block);
      WrittenContent(buf, len, offset, data);
      SetFileHolds(v, tree, path, ino, FileNode(Written(buf, offset, data), Max(len, end)));
    }
  }

  lemma FileIsListed(tree: Tree, path: string)
    ensures FileIn(tree, path).Success? ==> path in tree
  {
  }

  lemma TruncateRefines(v: Image, tree: Tree, path: string, len: nat, block: nat)
    requires Holds(v, tree) && Normal(path) && block > 0
    ensures Matches(v, OutcomeOf(v, Op.Truncate(path, len), block), Step(tree, Op.Truncate(path, len)))
  {
    hide Lookup, Normal, Holds, Replayed, Resize, FileAt, ExistsIn, IsDirIn, ResizeNode, NodeSurvive;
    LookupAgrees(v, tree, path);
    FileIsListed(tree, path);
    if FileAt(v, path).Success? {
      var ino := FileAt(v, path).value;
      HeldIsTidy(v, tree);
      var m := SetLen(ino, len, false);
      assert v + [] == v;
      ReplayedSingle(v, m);
      OneFileChanges(v, ino, m);
      TruncatedContent(ino, v[ino], len);
      SetFileHolds(v, tree, path, ino, ResizeNode(v[ino], len, false));
    }
  }

  lemma OneFileChanges(v: Image, ino: Ino, m: Micro)
    requires ino < |v| && v[ino].FileNode? && m.SetLen? && m.ino == ino
    ensures Applied(v, m) == v[ino := ResizeNode(v[ino], m.len, m.keepTail)]
  {
    hide ResizeNode;
  }

  lemma TruncatedContent(ino: Ino, node: Node, len: nat)
    requires node.FileNode? && |node.buf| <= node.len
    ensures var cut := ResizeNode(node, len, false);
            cut.FileNode? && |cut.buf| <= cut.len && Content(cut) == Resize(Content(node), len)
  {
    hide Resize;
    TruncationShows(ino, node, len);
  }

  // ---------------------------------------------------------------- unlinking

  lemma EntriesKept(v: Image, m: Micro)
    requires m.Unlink? || m.Rename?
    ensures forall n :: 0 <= n < |v| ==> EntryOf(Applied(v, m)[n]) == EntryOf(v[n])
    ensures Settled(v) ==> Settled(Applied(v, m))
  {
    hide Content;
    var after := Applied(v, m);
    assert forall n :: 0 <= n < |v| && v[n].FileNode? ==> after[n] == v[n];
    assert forall n :: 0 <= n < |v| && v[n].DirNode? ==> after[n].DirNode?;
  }

  lemma UnlinkLookup(v: Image, path: string, parent: Ino)
    requires Tidy(v) && Normal(path) && path != "" && Lookup(v, Split(path).0) == Some(parent) && parent < |v|
    ensures var after := Applied(v, Micro.Unlink(parent, Split(path).1));
            && Tidy(after)
            && forall q :: Normal(q) ==> Lookup(after, q) == (if Below(path, q) then None else Lookup(v, q))
  {
    hide Normal, Split, Parts, Resolve, Applied, Below, UniquePaths, NamesAreValid, Closed;
    SplitOfNormal(path);
    UnlinkKeepsTidy(v, Parts(Split(path).0), parent, Split(path).1);
    forall q | Normal(q) ensures Below(path, q) <==> Parts(path) <= Parts(q) {
      BelowIsPrefix(path, q);
    }
  }

  lemma WithoutHolds(v: Image, after: Image, tree: Tree, path: string)
    requires Holds(v, tree) && Tidy(after) && Settled(after) && |after| == |v|
    requires forall n :: 0 <= n < |v| ==> EntryOf(after[n]) == EntryOf(v[n])
    requires forall q :: Normal(q) ==> Lookup(after, q) == (if Below(path, q) then None else Lookup(v, q))
    ensures Holds(after, Without(tree, path))
  {
    hide Lookup, Normal, EntryOf, Tidy, Settled, Below;
    forall q | q in Without(tree, path) ensures Shows(after, q, Without(tree, path)[q]) {
      assert Shows(v, q, tree[q]);
    }
  }

  lemma UnlinkRefines(v: Image, tree: Tree, path: string)
    requires Holds(v, tree) && Normal(path) && path != ""
    ensures Matches(v, OutcomeOfUnlink(v, path),
                    if ExistsIn(tree, path) then Success(Without(tree, path)) else Failure(NoSuchFile))
  {
    hide Lookup, Normal, Split, Holds, Replayed, Applied, Without, Tidy, EntryOf;
    LookupAgrees(v, tree, path);
    if ExistsIn(tree, path) {
      HeldIsTidy(v, tree);
      ParentResolves(v, path);
      var parent := Lookup(v, Split(path).0).value;
      ResolvesInside(v, Split(path).0);
      var m := Micro.Unlink(parent, Split(path).1);
      assert v + [] == v;
      ReplayedSingle(v, m);
      UnlinkLookup(v, path, parent);
      EntriesKept(v, m);
      WithoutHolds(v, Applied(v, m), tree, path);
    }
  }

  lemma ResolvesInside(v: Image, path: string)
    requires Closed(v)
    ensures Lookup(v, path).Some? ==> Lookup(v, path).value < |v|
  {
    ResolveInside(v, Parts(path));
  }

  // ------------------------------------------------------------------- rename

  /** The micro-op of a rename that goes ahead. */
  ghost predicate IsMove(v: Image, from: string, to: string, m: Micro) {
    && m.Rename? && m.fromName == Split(from).1 && m.toName == Split(to).1
    && Lookup(v, from) == Some(m.ino) && Lookup(v, Split(from).0) == Some(m.from)
    && Lookup(v, Split(to).0) == Some(m.to)
  }

  lemma MoveIsPossible(v: Image, tree: Tree, from: string, to: string, m: Micro)
    requires Holds(v, tree) && Normal(from) && Normal(to) && from != "" && to != "" && from != to && !(from + "/" <= to)
    requires IsMove(v, from, to, m) && IsDirIn(tree, Split(to).0)
    ensures CanMove(v, Parts(Split(from).0), Split(from).1, Parts(Split(to).0), Split(to).1, m)
    ensures Parts(from) == Parts(Split(from).0) + [Split(from).1]
    ensures Parts(to) == Parts(Split(to).0) + [Split(to).1]
  {
    hide Normal, Split, Parts, Resolve, UniquePaths, NamesAreValid, Settled, Shows, IsDirIn, Below;
    HeldIsTidy(v, tree);
    SplitOfNormal(from);
    SplitOfNormal(to);
    LookupAgrees(v, tree, Split(to).0);
    ResolvesInside(v, from);
    ResolvesInside(v, Split(from).0);
    NotInside(from, to);
    SameParts(from, to);
  }

  /** A target that does not start with `from/` has a parent that is not at or below `from`. */
  lemma NotInside(from: string, to: string)
    requires Normal(from) && Normal(to) && from != "" && to != "" && from != to && !(from + "/" <= to)
    ensures !(Parts(from) <= Parts(Split(to).0))
  {
    hide Normal, Parts;
    SplitOfNormal(to);
    var (dir, name) := Split(to);
    BelowIsPrefix(from, to);
    PrefixOfSnoc(Parts(from), Parts(dir), name);
  }

  lemma RenameLookup(v: Image, tree: Tree, from: string, to: string, m: Micro)
    requires Holds(v, tree) && Normal(from) && Normal(to) && from != "" && to != "" && from != to && !(from + "/" <= to)
    requires IsMove(v, from, to, m) && IsDirIn(tree, Split(to).0)
    ensures var after := Applied(v, m);
            && Tidy(after)
            && forall q :: Normal(q) ==>
                 Lookup(after, q) == (if Below(to, q) then Lookup(v, Origin(from, to, q))
                                      else if Below(from, q) then None else Lookup(v, q))
    ensures forall q :: Normal(q) && Below(to, q) ==> Normal(Origin(from, to, q)) && Origin(from, to, q) != ""
  {
    hide Normal, Split, Parts, Resolve, Applied, Below, UniquePaths, NamesAreValid, Settled, Shows, IsDirIn, Closed,
      Origin, IsMove;
    MoveIsPossible(v, tree, from, to, m);
    RenameKeepsTidy(v, Parts(Split(from).0), Split(from).1, Parts(Split(to).0), Split(to).1, m);
    var after := Applied(v, m);
    forall q | Normal(q)
      ensures Lookup(after, q) == (if Below(to, q) then Lookup(v, Origin(from, to, q))
                                   else if Below(from, q) then None else Lookup(v, q))
      ensures Below(to, q) ==> Normal(Origin(from, to, q)) && Origin(from, to, q) != ""
    {
      BelowIsPrefix(to, q);
      BelowIsPrefix(from, q);
      if Below(to, q) {
        Rebase(from, to, q);
        OriginNotRoot(from, to, q);
      }
    }
  }

  lemma OriginNotRoot(from: string, to: string, q: string)
    requires Below(to, q) && from != ""
    ensures Origin(from, to, q) != ""
  {
  }

  lemma MovedHolds(v: Image, after: Image, tree: Tree, from: string, to: string)
    requires Holds(v, tree) && Tidy(after) && Settled(after) && |after| == |v|
    requires forall n :: 0 <= n < |v| ==> EntryOf(after[n]) == EntryOf(v[n])
    requires forall q :: Normal(q) ==>
               Lookup(after, q) == (if Below(to, q) then Lookup(v, Origin(from, to, q))
                                    else if Below(from, q) then None else Lookup(v, q))
    requires forall q :: Normal(q) && Below(to, q) ==> Normal(Origin(from, to, q)) && Origin(from, to, q) != ""
    requires Normal(from) && Normal(to) && from != "" && to != ""
    ensures Holds(after, Moved(tree, from, to))
  {
    hide Lookup, Normal, EntryOf, Tidy, Settled, Below, Origin, Moved;
    var moved := Moved(tree, from, to);
    forall q | q in moved ensures Normal(q) && q != "" && Shows(after, q, moved[q]) {
      if Below(to, q) {
        var was := Origin(from, to, q);
        assert was in tree && Shows(v, was, tree[was]);
        OriginTwice(from, to, q);
        Rebase(to, from, was);
        OriginNotRoot(to, from, was);
      } else {
        assert Shows(v, q, tree[q]);
      }
    }
    forall q | Normal(q) && q != "" && Lookup(after, q).Some? ensures q in moved {
      assert WasThere(tree, from, to, q);
    }
  }

  lemma RenameRefines(v: Image, tree: Tree, from: string, to: string)
    requires Holds(v, tree) && Normal(from) && Normal(to) && from != "" && to != ""
    ensures Matches(v, OutcomeOfRename(v, from, to), StepRename(tree, from, to))
  {
    hide Lookup, Normal, Split, Holds, Replayed, Applied, Moved, Tidy, EntryOf, ExistsIn, IsDirIn, DirAt;
    LookupAgrees(v, tree, from);
    LookupAgrees(v, tree, to);
    NothingReplayed(v);
    if Lookup(v, from).Some? && Lookup(v, to) == Lookup(v, from) {
      OnePath(v, tree, from, to);
    }
    SplitOfNormal(to);
    LookupAgrees(v, tree, Split(to).0);
    if ExistsIn(tree, from) && from != to && !(from + "/" <= to) && IsDirIn(tree, Split(to).0) {
      ParentResolves(v, from);
      DirAtIsLookup(v, Split(to).0);
      var m := Micro.Rename(Lookup(v, Split(from).0).value, Split(from).1, DirAt(v, Split(to).0).value, Split(to).1,
                            Lookup(v, from).value, Lookup(v, to).Some?);
      HeldIsTidy(v, tree);
      assert v + [] == v;
      ReplayedSingle(v, m);
      RenameLookup(v, tree, from, to, m);
      EntriesKept(v, m);
      MovedHolds(v, Applied(v, m), tree, from, to);
    }
  }

  lemma DirAtIsLookup(v: Image, path: string)
    ensures DirAt(v, path).Some? ==> DirAt(v, path) == Lookup(v, path)
  {
  }

  // --------------------------------------------------------------- whole runs

  /** One op: the inode replay emits what the reference step means, or both refuse alike. */
  lemma StepRefines(v: Image, tree: Tree, op: Op, block: nat)
    requires Holds(v, tree) && IsNormalOp(op) && block > 0
    ensures Matches(v, OutcomeOf(v, op, block), Step(tree, op))
  {
    hide Holds, Normal, Lookup, Replayed, OutcomeOfCreate, OutcomeOfRename, OutcomeOfUnlink, OutcomeOfWrite,
      StepCreate, StepRename, Without, FileIn, FileAt, ExistsIn, WriteAt, Resize;
    NothingReplayed(v);
    match op {
      case Create(path) => CreateRefines(v, tree, path, File([]));
      case Mkdir(path) => CreateRefines(v, tree, path, Dir);
      case Write(path, offset, data) => WriteRefines(v, tree, path, offset, data, block);
      case Truncate(path, len) => TruncateRefines(v, tree, path, len, block);
      case Rename(from, to) => RenameRefines(v, tree, from, to);
      case Unlink(path) => UnlinkRefines(v, tree, path);
      case Rmdir(path) => UnlinkRefines(v, tree, path);
      case Fsync(path) => LookupAgrees(v, tree, path);
      case Sync =>
      case Mark(_) =>
    }
  }

  /** Whole runs: the replay gets as far as the reference does and refuses the same op for the same
      reason; after every op its view is a tidy tree of inodes holding exactly the reference tree. */
  lemma {:induction false} RunRefines(trace: Trace, block: nat, k: nat)
    requires block > 0 && IsNormalTrace(trace) && k <= |trace.ops|
    ensures Run(trace, block, k).Failure? ==> TreeAfter(trace, k) == Failure(Run(trace, block, k).error)
    ensures Run(trace, block, k).Success? ==>
              TreeAfter(trace, k).Success? && Holds(StageOf(trace, block, k).view, TreeAfter(trace, k).value)
  {
    hide Holds, OutcomeOf, Step, IsNormalOp, Replayed, WellFormed, FromTree;
    if k == 0 {
      FromTreeHolds(trace.initial);
    } else {
      RunRefines(trace, block, k - 1);
      if Run(trace, block, k - 1).Success? {
        StepRefines(StageOf(trace, block, k - 1).view, TreeAfter(trace, k - 1).value, trace.ops[k - 1], block);
      }
    }
  }

  /** The tree of the volatile view after `k` ops is the reference tree, and so is the tree of the
      first `k` ops' micro-ops applied to the padded initial image. */
  lemma ViewShowsReference(trace: Trace, profile: Profile, block: nat, p: Program, k: nat)
    requires Compiled(trace, profile, block, p) && IsNormalTrace(trace) && k <= |trace.ops|
    ensures Run(trace, block, k).Success? && Tidy(StageOf(trace, block, k).view)
    ensures TreeAfter(trace, k) == Success(ToTree(StageOf(trace, block, k).view))
    ensures k < |p.opEnd| && p.opEnd[k] <= |p.micro| && Closed(Volatile(p, k))
    ensures ToTree(Volatile(p, k)) == ToTree(StageOf(trace, block, k).view)
  {
    hide Run, IsProgram, Holds, Volatile, TreeAfter, ToTree, Tidy, Closed, Shaped;
    RunRefines(trace, block, k);
    VolatileIsView(trace, profile, block, p, k);
    var v := StageOf(trace, block, k).view;
    HeldIsTidy(v, TreeAfter(trace, k).value);
    HeldTreeIsShown(v, TreeAfter(trace, k).value);
    ShapedBoundsAt(trace, profile, block, p, k);
    ViewIsACrashState(p, k);
    PaddedTree(v, p.base[|v|..]);
  }

  lemma ShapedBoundsAt(trace: Trace, profile: Profile, block: nat, p: Program, k: nat)
    requires Compiled(trace, profile, block, p) && k <= |trace.ops|
    ensures Shaped(p) && k < |p.opEnd| && p.opEnd[k] <= |p.micro|
  {
    hide Run, FirstCover;
    ProgramIsShaped(trace, profile, block, p);
  }

  lemma ViewIsACrashState(p: Program, k: nat)
    requires Shaped(p) && k < |p.opEnd| && p.opEnd[k] <= |p.micro|
    ensures Closed(Volatile(p, k))
    ensures CrashImage(p, Prefix(p.opEnd[k], p.opEnd[k])) == Volatile(p, k)
  {
    hide Shaped, Closed, Replayed, Survive;
    CrashImageIsClosed(p, Prefix(p.opEnd[k], p.opEnd[k]));
    SurvivePrefix(p.base, Micros(p.micro), p.opEnd[k], p.opEnd[k]);
  }
}
