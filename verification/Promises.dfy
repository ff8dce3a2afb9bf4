/** The guarantees, stated on paths and trees: what a user of the tool may rely on. */
module Promises {
  import opened Wrappers
  import opened Trace
  import opened Paths
  import opened FileSystem
  import opened Walk
  import opened Namespace
  import opened Snapshot
  import opened Locality
  import opened Runs
  import opened Stages
  import opened Crash
  import opened Enumerate
  import opened Explorer
  import opened Shapes
  import opened Durability
  import opened Ordered
  import opened Reference
  import opened Replay

  // ------------------------------------------------- crash states are snapshots

  predicate NamesFit(m: Micro) {
    (m.Link? ==> ValidName(m.name)) && (m.Rename? ==> ValidName(m.toName))
  }

  lemma NormalOpNamesFit(v: Image, op: Op, block: nat)
    requires block > 0 && IsNormalOp(op) && OutcomeOf(v, op, block).Emits?
    ensures forall m :: m in OutcomeOf(v, op, block).micros ==> NamesFit(m)
    ensures forall node :: node in OutcomeOf(v, op, block).born ==> node.DirNode? ==> node.entries == map[]
  {
    hide Lookup, Parts, Split, Normal, Chunks;
    match op {
      case Create(path) => if path != "" { SplitOfNormal(path); } else { EmptyPathIsRoot(v); }
      case Mkdir(path) => if path != "" { SplitOfNormal(path); } else { EmptyPathIsRoot(v); }
      case Write(path, offset, data) =>
        if FileAt(v, path).Success? { ChunksAre(FileAt(v, path).value, offset, data, block); }
      case Rename(from, to) => SplitOfNormal(to);
      case _ =>
    }
  }

  lemma {:induction false} RunNamesFit(trace: Trace, block: nat, k: nat)
    requires block > 0 && IsNormalTrace(trace) && k <= |trace.ops| && Run(trace, block, k).Success?
    ensures NamesAreValid(StageOf(trace, block, k).base)
    ensures forall m :: m in StageOf(trace, block, k).micro ==> NamesFit(m)
  {
    hide OutcomeOf, Replayed, NamesFit, WellFormed, Tidy, Settled, FromTree;
    if k == 0 {
      FromTreeHolds(trace.initial);
      HeldNamesAreValid(FromTree(trace.initial), trace.initial);
    } else {
      RunNamesFit(trace, block, k - 1);
      var s := StageOf(trace, block, k - 1);
      NormalOpNamesFit(s.view, trace.ops[k - 1], block);
      var born := OutcomeOf(s.view, trace.ops[k - 1], block).born;
      assert forall n :: |s.base| <= n < |s.base + born| ==> (s.base + born)[n] in born;
    }
  }

  lemma HeldNamesAreValid(v: Image, tree: Tree)
    requires Holds(v, tree)
    ensures NamesAreValid(v)
  {
  }

  lemma AppliedNames(fs: Image, m: Micro)
    requires NamesAreValid(fs) && NamesFit(m)
    ensures NamesAreValid(Applied(fs, m))
  {
  }

  lemma {:induction false} SurviveNames(fs: Image, ms: seq<Micro>, s: Persisted)
    requires |s| <= |ms| && NamesAreValid(fs) && forall j :: 0 <= j < |s| ==> NamesFit(ms[j])
    ensures NamesAreValid(Survive(fs, ms, s))
  {
    hide NamesFit, Applied, NamesAreValid;
    if s != [] {
      SurviveNames(fs, ms, s[..|s| - 1]);
      AppliedNames(Survive(fs, ms, s[..|s| - 1]), ms[|s| - 1]);
    }
  }

  lemma CrashNamesAreValid(trace: Trace, profile: Profile, block: nat, p: Program, s: Persisted)
    requires Compiled(trace, profile, block, p) && IsNormalTrace(trace) && |s| <= |p.micro|
    ensures Shaped(p) && NamesAreValid(CrashImage(p, s)) && Closed(CrashImage(p, s))
  {
    hide Run, FirstCover, NamesFit, NamesAreValid, Survive, Closed;
    ProgramIsShaped(trace, profile, block, p);
    RunNamesFit(trace, block, |trace.ops|);
    CrashImageIsClosed(p, s);
    var ms := Micros(p.micro);
    forall j | 0 <= j < |s| ensures NamesFit(ms[j]) {
      assert ms[j] in StageOf(trace, block, |trace.ops|).micro;
    }
    SurviveNames(p.base, ms, s);
  }

  /** Any subset of the micro-ops, legal or not, leaves a well-formed tree: every entry's parent is
      there, as a directory. So it can be a recovery's starting snapshot, and survives that trip. */
  lemma CrashTreesAreSnapshots(trace: Trace, profile: Profile, block: nat, p: Program, s: Persisted)
    requires Compiled(trace, profile, block, p) && IsNormalTrace(trace) && |s| <= |p.micro|
    ensures Shaped(p) && WellFormed(CrashTree(p, s))
    ensures Closed(FromTree(CrashTree(p, s))) && ToTree(FromTree(CrashTree(p, s))) == CrashTree(p, s)
  {
    hide IsProgram, CrashImage, ToTree, Closed, NamesAreValid, FromTree, IsNormalTrace;
    CrashNamesAreValid(trace, profile, block, p, s);
    RoundTripOfShown(CrashImage(p, s));
  }

  // ------------------------------------------------------------------- ext4

  ghost function TreeAt(trace: Trace, k: nat): Tree
    requires k <= |trace.ops| && TreeAfter(trace, k).Success?
  {
    TreeAfter(trace, k).value
  }

  /** ext4: after any crash, names and sizes are those of the run after some `k` ops, with every
      fsync or sync before the crash among them. */
  lemma Ext4KeepsAPrefixOfNames(trace: Trace, block: nat, p: Program, point: nat, s: Persisted) returns (k: nat)
    requires Compiled(trace, Ext4Ordered, block, p) && IsNormalTrace(trace) && Legal(p, point, s)
    ensures Shaped(p) && k <= point <= |trace.ops|
    ensures forall b :: 0 <= b < point && IsBarrier(trace.ops[b]) ==> b < k
    ensures TreeAfter(trace, k).Success? && Shape(CrashTree(p, s)) == Shape(TreeAt(trace, k))
  {
    hide IsProgram, Legal, Run, IsNormalTrace, TreeAfter, ToTree, CrashTree, Shape, Shaped, Closed, Volatile, Tidy;
    k := Ext4ShapeIsAPrefix(trace, block, p, point, s);
    ViewShowsReference(trace, Ext4Ordered, block, p, k);
  }

  /** Nothing is truncated and every write goes to the end of its file. */
  ghost predicate AppendOnlyTrace(trace: Trace) {
    forall i :: 0 <= i < |trace.ops| && TreeAfter(trace, i).Success? ==>
      && !trace.ops[i].Truncate?
      && (trace.ops[i].Write? ==>
            FileIn(TreeAt(trace, i), trace.ops[i].path).Success?
            && |FileIn(TreeAt(trace, i), trace.ops[i].path).value| == trace.ops[i].offset)
  }

  lemma AppendsOnInodes(trace: Trace, block: nat)
    requires block > 0 && IsNormalTrace(trace) && AppendOnlyTrace(trace)
    ensures AppendsOnly(trace, block)
  {
    hide Run, TreeAfter, Holds, Lookup, Normal, WellFormed, FileIn, Resize;
    forall i | 0 <= i < |trace.ops| && Run(trace, block, i).Success?
      ensures !trace.ops[i].Truncate?
      ensures trace.ops[i].Write? ==> LengthAt(StageOf(trace, block, i).view, trace.ops[i].path) == trace.ops[i].offset
    {
      RunRefines(trace, block, i);
      assert IsNormalOp(trace.ops[i]);
      if trace.ops[i].Write? {
        LengthInTree(StageOf(trace, block, i).view, TreeAt(trace, i), trace.ops[i].path);
      }
    }
  }

  lemma LengthInTree(v: Image, tree: Tree, path: string)
    requires Holds(v, tree) && Normal(path) && FileIn(tree, path).Success?
    ensures LengthAt(v, path) == |FileIn(tree, path).value|
  {
    hide Lookup, Normal, Holds, FileIn, Resize;
    LookupAgrees(v, tree, path);
  }

  /** ext4, append-only: after any crash the whole tree, contents included, is that of the run after
      some `k` ops, with every fsync or sync before the crash among them. */
  lemma Ext4KeepsAPrefixOfAppends(trace: Trace, block: nat, p: Program, point: nat, s: Persisted) returns (k: nat)
    requires Compiled(trace, Ext4Ordered, block, p) && IsNormalTrace(trace) && AppendOnlyTrace(trace)
             && Legal(p, point, s)
    ensures Shaped(p) && k <= point <= |trace.ops|
    ensures forall b :: 0 <= b < point && IsBarrier(trace.ops[b]) ==> b < k
    ensures TreeAfter(trace, k) == Success(CrashTree(p, s))
  {
    hide IsProgram, Legal, Run, IsNormalTrace, TreeAfter, ToTree, CrashTree, Shaped, Closed, Volatile, Tidy,
      AppendsOnly;
    AppendsOnInodes(trace, block);
    k := Ext4AppendsAreAPrefix(trace, block, p, point, s);
    ViewShowsReference(trace, Ext4Ordered, block, p, k);
  }

  // ------------------------------------------------------------------- fsync

  /** Wherever a crash left the name of a file that was fsynced and not changed since, under either
      profile, it has the contents it had when the power went out. */
  lemma FsyncedContentSurvives(trace: Trace, profile: Profile, block: nat, p: Program, i: nat, point: nat, ino: Ino,
                               s: Persisted, path: string)
    requires Compiled(trace, profile, block, p) && IsNormalTrace(trace) && i < point <= |trace.ops|
    requires Fsyncs(trace, block, i, ino) && Legal(p, point, s)
    requires |p.opEnd| == |trace.ops| + 1 && ino < |p.base| && p.base[ino].FileNode? && QuietSince(p, i, point, ino)
    requires Shaped(p) && path in CrashTree(p, s) && Lookup(CrashImage(p, s), path) == Some(ino)
    ensures CrashTree(p, s)[path] == EntryOf(Volatile(p, point)[ino])
  {
    hide IsProgram, Run, CrashImage, ToTree, Volatile, Closed, NamesAreValid, IsNormalTrace, Lookup, QuietSince,
      Fsyncs, EntryOf;
    FsyncedFileIsIntact(trace, profile, block, p, i, point, ino, s);
    CrashNamesAreValid(trace, profile, block, p, s);
    ToTreeIsSound(CrashImage(p, s));
    assert ListedRightly(CrashImage(p, s), CrashTree(p, s), path);
  }

  /** The state in which the first `k` ops persisted, and nothing later. */
  lemma CutStateIsReference(trace: Trace, profile: Profile, block: nat, p: Program, k: nat, point: nat)
    requires Compiled(trace, profile, block, p) && IsNormalTrace(trace) && k <= point <= |trace.ops|
    ensures Shaped(p) && point < |p.opEnd| && p.opEnd[k] <= p.opEnd[point] <= |p.micro|
    ensures TreeAfter(trace, k) == Success(CrashTree(p, Prefix(p.opEnd[k], p.opEnd[point])))
  {
    hide IsProgram, Run, IsNormalTrace, TreeAfter, ToTree, Closed, Volatile, Tidy, CrashImage;
    OpEndsAscend(trace, profile, block, p, k, point);
    ViewShowsReference(trace, profile, block, p, k);
    ViewAsState(p, k, point);
  }

  // --------------------------------------------------- marks and what waits

  /** The marks before each op: one more after each acknowledgement, with its text. */
  lemma MarksAre(trace: Trace, profile: Profile, block: nat, p: Program, i: nat)
    requires Compiled(trace, profile, block, p) && i < |trace.ops|
    ensures |p.marksBefore| == |trace.ops| + 1 && p.marksBefore[0] == 0
    ensures p.marksBefore[i + 1] == p.marksBefore[i] + (if trace.ops[i].Mark? then 1 else 0)
    ensures p.marksBefore[|trace.ops|] == |p.marks|
    ensures trace.ops[i].Mark? ==> p.marksBefore[i] < |p.marks| && p.marks[p.marksBefore[i]] == trace.ops[i].text
  {
    hide IsProgram, Run, OutcomeOf, Replayed, FirstCover, Closed;
    ProgramIsShaped(trace, profile, block, p);
    ProgramStages(trace, profile, block, p, 0);
    ProgramStages(trace, profile, block, p, i);
    ProgramStages(trace, profile, block, p, i + 1);
    RunStart(trace, block);
    RunStep(trace, block, i);
    AllMarks(trace, profile, block, p);
  }

  lemma AllMarks(trace: Trace, profile: Profile, block: nat, p: Program)
    requires Compiled(trace, profile, block, p)
    ensures |p.marksBefore| == |trace.ops| + 1 && p.marksBefore[|trace.ops|] == |p.marks|
  {
    hide Run, FirstCover, Closed, Fits, AllFit;
    ProgramIsShaped(trace, profile, block, p);
    RunIsRegular(trace, block, |trace.ops|);
  }

  /** Which micro-ops data is waited for: a size change belongs to a write exactly if it extends, and a
      rename replaces exactly if its target was there. */
  lemma FlagsTell(trace: Trace, profile: Profile, block: nat, p: Program, j: nat)
    requires Compiled(trace, profile, block, p) && IsNormalTrace(trace) && j < |p.micro|
    ensures var i, m := p.micro[j].op, p.micro[j].m;
            && i < |trace.ops| && TreeAfter(trace, i).Success?
            && (m.SetLen? ==> if m.keepTail then trace.ops[i].Write? else trace.ops[i].Truncate?)
            && (m.Rename? ==> trace.ops[i].Rename? && (m.replacing <==> trace.ops[i].to in TreeAt(trace, i)))
  {
    hide IsProgram, Run, IsNormalTrace, Lookup, OutcomeOf, Holds, Normal, WellFormed;
    MicroIsEmitted(trace, profile, block, p, j);
    var i := p.micro[j].op;
    RunRefines(trace, block, i);
    NormalOps(trace, i);
    FlagsOf(StageOf(trace, block, i).view, TreeAt(trace, i), trace.ops[i], block, p.micro[j].m);
  }

  lemma NormalOps(trace: Trace, i: nat)
    requires IsNormalTrace(trace) && i < |trace.ops|
    ensures IsNormalOp(trace.ops[i])
  {
  }

  lemma FlagsOf(v: Image, tree: Tree, op: Op, block: nat, m: Micro)
    requires block > 0 && Holds(v, tree) && IsNormalOp(op)
    requires OutcomeOf(v, op, block).Emits? && m in OutcomeOf(v, op, block).micros
    ensures m.SetLen? ==> if m.keepTail then op.Write? else op.Truncate?
    ensures m.Rename? ==> op.Rename? && (m.replacing <==> op.to in tree)
  {
    hide Lookup, Holds, Normal, Chunks, Split;
    match op
    case Write(path, offset, data) =>
      if FileAt(v, path).Success? {
        ChunksAre(FileAt(v, path).value, offset, data, block);
      }
    case Rename(from, to) => LookupAgrees(v, tree, to);
    case _ =>
  }

  // ------------------------------------------------------- nothing to crash

  /** A trace of acknowledgements only: whenever it crashes, what was there at its start is there. */
  lemma MarksLeaveNothing(trace: Trace, profile: Profile, block: nat, p: Program, point: nat, s: Persisted)
    requires Compiled(trace, profile, block, p) && IsNormalTrace(trace) && Legal(p, point, s)
    requires forall i :: 0 <= i < |trace.ops| ==> trace.ops[i].Mark?
    ensures Shaped(p) && CrashTree(p, s) == trace.initial
  {
    hide IsProgram, Run, IsNormalTrace, TreeAfter, Closed, CrashTree, KeepsDurable, MetaInOrder, DataBeforeSize,
      DataBeforeReplace;
    ProgramIsShaped(trace, profile, block, p);
    CutStateIsReference(trace, profile, block, p, 0, point);
    MarksEmitNothing(trace, profile, block, p, point);
    assert s == Prefix(p.opEnd[0], p.opEnd[point]);
    TreeAtStart(trace);
  }

  lemma TreeAtStart(trace: Trace)
    ensures TreeAfter(trace, 0) == Success(trace.initial)
  {
  }

  lemma {:induction false} MarksEmitNothing(trace: Trace, profile: Profile, block: nat, p: Program, k: nat)
    requires Compiled(trace, profile, block, p) && k <= |trace.ops|
    requires forall i :: 0 <= i < |trace.ops| ==> trace.ops[i].Mark?
    ensures k < |p.opEnd| && p.opEnd[k] == 0
  {
    hide IsProgram, Run, Lookup;
    ProgramStages(trace, profile, block, p, k);
    if k > 0 {
      MarksEmitNothing(trace, profile, block, p, k - 1);
      OpMicros(trace, profile, block, p, k - 1);
      assert |Micros(p.micro)[p.opEnd[k - 1]..p.opEnd[k]]| == 0;
    } else {
      FirstEnd(trace, profile, block, p);
    }
  }

  // -------------------------------------------------------------------- sync

  /** When a micro-op becomes durable, in full: at the first later `sync`, or `fsync` of a path that
      names, at that time, the file it writes or resizes, the directory it links into or unlinks from, or
      the directory it moves into; on ext4 any `fsync` does, unless the micro-op is a write. */
  lemma DurabilityTable(trace: Trace, profile: Profile, block: nat, p: Program, j: nat, i: nat)
    requires Compiled(trace, profile, block, p) && j < |p.micro| && p.micro[j].op < i < |trace.ops|
    ensures p.micro[j].durableAt <= i <==>
            exists b: nat :: p.micro[j].op < b <= i && Run(trace, block, b).Success? &&
              (trace.ops[b].Sync? ||
               (trace.ops[b].Fsync? &&
                match Lookup(StageOf(trace, block, b).view, trace.ops[b].path)
                case None => false
                case Some(ino) =>
                  || (profile == Ext4Ordered && !p.micro[j].m.Write?)
                  || match p.micro[j].m
                     case Write(file, _, _) => ino == file
                     case SetLen(file, _, _) => ino == file
                     case Link(dir, _, _) => ino == dir
                     case Unlink(dir, _) => ino == dir
                     case Rename(_, _, into, _, _, _) => ino == into))
  {
    hide Run, Lookup, FirstCover, IsProgram;
    var m := p.micro[j].m;
    if p.micro[j].durableAt <= i {
      DurableIsCovered(trace, profile, block, p, j);
      var b := p.micro[j].durableAt;
      assert CoveredAt(trace, profile, block, b, m) && p.micro[j].op < b <= i && Run(trace, block, b).Success?;
    }
    forall b: nat {:trigger Run(trace, block, b)} | p.micro[j].op < b <= i && CoveredAt(trace, profile, block, b, m)
      ensures p.micro[j].durableAt <= i
    {
      CoveredIsDurable(trace, profile, block, p, b, j);
    }
  }

  /** Once a `sync` returned, no crash loses anything that came before it, under either profile. */
  lemma SyncedIsKept(trace: Trace, profile: Profile, block: nat, p: Program, i: nat, point: nat, s: Persisted, j: nat)
    requires Compiled(trace, profile, block, p) && i < point <= |trace.ops| && trace.ops[i].Sync?
    requires Legal(p, point, s) && j < |s| && p.micro[j].op < i
    ensures s[j]
  {
    hide IsProgram, Run, MetaInOrder, DataBeforeSize, DataBeforeReplace;
    ProgramStages(trace, profile, block, p, i);
    CoveredIsDurable(trace, profile, block, p, i, j);
  }

  /** So a crash after a `sync`, and before anything else is emitted, leaves what the calls left. */
  lemma SyncedTreeIsKept(trace: Trace, profile: Profile, block: nat, p: Program, i: nat, point: nat, s: Persisted)
    requires Compiled(trace, profile, block, p) && IsNormalTrace(trace) && i < point <= |trace.ops|
    requires trace.ops[i].Sync? && Legal(p, point, s) && i < |p.opEnd| && p.opEnd[point] == p.opEnd[i]
    ensures Shaped(p) && TreeAfter(trace, i) == Success(CrashTree(p, s))
  {
    hide IsProgram, Run, IsNormalTrace, TreeAfter, Closed, CrashTree, MetaInOrder, DataBeforeSize, DataBeforeReplace,
      KeepsDurable;
    CutStateIsReference(trace, profile, block, p, i, point);
    forall j: nat | j < |s| ensures s[j] {
      OwnerOf(trace, profile, block, p, i, j);
      SyncedIsKept(trace, profile, block, p, i, point, s, j);
    }
    assert s == Prefix(p.opEnd[i], p.opEnd[point]);
  }

  /** On posix a rename is durable only through its target directory: fsyncing the directory the file
      was moved out of, and nothing else, leaves a legal state from before the rename. */
  lemma SourceFsyncKeepsNothing(trace: Trace, block: nat, p: Program, i: nat) returns (s: Persisted)
    requires Compiled(trace, Posix, block, p) && IsNormalTrace(trace) && i + 2 <= |trace.ops|
    requires trace.ops[i].Rename? && trace.ops[i + 1] == Op.Fsync(Split(trace.ops[i].from).0)
    requires Split(trace.ops[i].from).0 != Split(trace.ops[i].to).0
    requires !Below(trace.ops[i].to, Split(trace.ops[i].from).0)
    ensures Shaped(p) && Legal(p, i + 2, s)
    ensures TreeAfter(trace, i) == Success(CrashTree(p, s)) && trace.ops[i].from in CrashTree(p, s)
  {
    hide IsProgram, Run, IsNormalTrace, ToTree, Closed, Volatile, Tidy, CrashTree, Split, Below, Normal, Step,
      CoveredAt, Regular;
    CutStateIsReference(trace, Posix, block, p, i, i + 2);
    ProgramIsShaped(trace, Posix, block, p);
    s := Prefix(p.opEnd[i], p.opEnd[i + 2]);
    forall j | p.opEnd[i] <= j < p.opEnd[i + 2] ensures p.micro[j].durableAt >= i + 2 {
      MoveIsNotCovered(trace, block, p, i, j);
    }
    ProgramStages(trace, Posix, block, p, |trace.ops|);
    RenamedExists(trace, block, i);
  }

  lemma RenamedExists(trace: Trace, block: nat, i: nat)
    requires block > 0 && IsNormalTrace(trace) && i < |trace.ops| && Run(trace, block, |trace.ops|).Success?
    requires trace.ops[i].Rename?
    ensures TreeAfter(trace, i).Success? && trace.ops[i].from in TreeAt(trace, i)
  {
    hide Run, Normal, Holds, Step;
    RunPrecedes(trace, block, i + 1, |trace.ops|);
    RunPrecedes(trace, block, i, |trace.ops|);
    RunRefines(trace, block, i);
    RunRefines(trace, block, i + 1);
    StepNeedsSource(TreeAt(trace, i), trace.ops[i].from, trace.ops[i].to);
    assert IsNormalOp(trace.ops[i]);
  }

  lemma StepNeedsSource(tree: Tree, from: string, to: string)
    ensures Step(tree, Op.Rename(from, to)).Success? && from != "" ==> from in tree
  {
    hide Moved, Below;
  }

  lemma MoveIsNotCovered(trace: Trace, block: nat, p: Program, i: nat, j: nat)
    requires Compiled(trace, Posix, block, p) && IsNormalTrace(trace) && i + 2 <= |trace.ops|
    requires trace.ops[i].Rename? && trace.ops[i + 1] == Op.Fsync(Split(trace.ops[i].from).0)
    requires Split(trace.ops[i].from).0 != Split(trace.ops[i].to).0
    requires !Below(trace.ops[i].to, Split(trace.ops[i].from).0)
    requires Shaped(p) && |p.opEnd| == |trace.ops| + 1 && p.opEnd[i] <= j < p.opEnd[i + 2] <= |p.micro|
    ensures p.micro[j].durableAt >= i + 2
  {
    hide IsProgram, Run, IsNormalTrace, Split, Below, Normal, Regular, Lookup, Holds, OutcomeOf, Replayed, Shaped;
    OwnerOf(trace, Posix, block, p, i, j);
    OwnerOf(trace, Posix, block, p, i + 2, j);
    MicroIsEmitted(trace, Posix, block, p, j);
    ProgramStages(trace, Posix, block, p, i + 1);
    ProgramStages(trace, Posix, block, p, i + 2);
    RunStep(trace, block, i + 1);
    FsyncEmitsNothing(StageOf(trace, block, i + 1).view, trace.ops[i + 1], block);
    if p.micro[j].durableAt != NEVER {
      DurableIsCovered(trace, Posix, block, p, j);
      if p.micro[j].durableAt == i + 1 {
        RunStep(trace, block, i);
        RunRefines(trace, block, i);
        SourceIsNotTarget(trace, block, i, p.micro[j].m);
      }
    }
  }

  lemma FsyncEmitsNothing(v: Image, op: Op, block: nat)
    requires block > 0 && op.Fsync? && OutcomeOf(v, op, block).Emits?
    ensures OutcomeOf(v, op, block).micros == []
  {
    hide Lookup;
  }

  /** The rename's target directory is not the inode its source directory names afterwards. */
  lemma SourceIsNotTarget(trace: Trace, block: nat, i: nat, m: Micro)
    requires block > 0 && IsNormalTrace(trace) && i < |trace.ops| && trace.ops[i].Rename?
    requires Run(trace, block, i + 1).Success? && Run(trace, block, i).Success?
    requires var s, op := StageOf(trace, block, i), trace.ops[i];
             var out := OutcomeOf(s.view, op, block);
             out.Emits? && m in out.micros && StageOf(trace, block, i + 1) == Advance(s, i, op, out.born, out.micros)
    requires TreeAfter(trace, i).Success? && Holds(StageOf(trace, block, i).view, TreeAt(trace, i))
    requires Split(trace.ops[i].from).0 != Split(trace.ops[i].to).0
    requires !Below(trace.ops[i].to, Split(trace.ops[i].from).0)
    ensures m.Rename? && Lookup(StageOf(trace, block, i + 1).view, Split(trace.ops[i].from).0) != Some(m.to)
  {
    hide Run, WellFormed, Split, Below, Normal, Lookup, Holds, Replayed, IsDirIn, ExistsIn, Applied;
    var v, from, to := StageOf(trace, block, i).view, trace.ops[i].from, trace.ops[i].to;
    assert IsNormalOp(trace.ops[i]);
    MovedOnce(v, from, to, m);
    SourceSplits(from, to);
    LookupAgrees(v, TreeAt(trace, i), Split(to).0);
    RenameLookup(v, TreeAt(trace, i), from, to, m);
    var after := Applied(v, m);
    assert v + [] == v;
    ReplayedSingle(v, m);
    ParentResolves(v, from);
    if Lookup(after, Split(from).0) == Some(m.to) {
      OnePath(v, TreeAt(trace, i), Split(from).0, Split(to).0);
    }
  }

  lemma MovedOnce(v: Image, from: string, to: string, m: Micro)
    requires OutcomeOfRename(v, from, to).Emits? && m in OutcomeOfRename(v, from, to).micros
    ensures IsMove(v, from, to, m) && from != to && !(from + "/" <= to) && DirAt(v, Split(to).0).Some?
    ensures OutcomeOfRename(v, from, to) == Emits([], [m])
  {
    hide Lookup, Split;
  }

  lemma SourceSplits(from: string, to: string)
    requires Normal(from) && from != "" && Normal(to) && to != ""
    ensures Normal(Split(from).0) && Normal(Split(to).0) && !Below(from, Split(from).0)
  {
    SplitOfNormal(from);
    SplitOfNormal(to);
  }

  // ------------------------------------------------------- posix covers ext4

  /** A checker that accepts every posix crash state accepts every ext4 one. */
  lemma AcceptedOnPosixIsAcceptedOnExt4(trace: Trace, block: nat, posix: Program, ext4: Program, checker: Checker)
    requires Compiled(trace, Posix, block, posix) && Compiled(trace, Ext4Ordered, block, ext4)
    requires Shaped(posix) && Shaped(ext4) && AllAccepted(posix, checker)
    ensures AllAccepted(ext4, checker)
  {
    hide IsProgram, CrashTree, KeepsDurable, MetaInOrder, DataBeforeSize, DataBeforeReplace;
    Ext4IsDurableSooner(trace, block, posix, ext4);
    forall point, s | Legal(ext4, point, s) ensures Judge(ext4, checker, point, s, true) == Accepted {
      Ext4StatesArePosixStates(trace, block, posix, ext4, point, s);
      assert Judge(posix, checker, point, s, true) == Accepted;
    }
  }
}
