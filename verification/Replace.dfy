/** Replacing a file by writing a temporary one and renaming it: which of the
    recipe's fsyncs are needed for what. */
module Replace {
  import opened Wrappers
  import opened Trace
  import opened Paths
  import opened FileSystem
  import opened Walk
  import opened Snapshot
  import opened Bytes
  import opened Locality
  import opened Runs
  import opened Stages
  import opened Crash
  import opened Enumerate
  import opened Durability
  import opened Ordered
  import opened Replay
  import opened Flat

  /** The target holds `was` and is to hold `now`; which barriers the program bothers with. */
  datatype Recipe = Recipe(target: string, temp: string, was: seq<Byte>, now: seq<Byte>, syncFile: bool, syncDir: bool)

  predicate IsRecipe(r: Recipe) {
    ValidName(r.target) && ValidName(r.temp) && r.target != r.temp
  }

  /** The index of the rename. */
  function MoveOp(r: Recipe): nat {
    if r.syncFile then 3 else 2
  }

  function SaveOps(r: Recipe): seq<Op> {
    [Op.Create(r.temp), Op.Write(r.temp, 0, r.now)] + (if r.syncFile then [Op.Fsync(r.temp)] else [])
    + [Op.Rename(r.temp, r.target)] + (if r.syncDir then [Op.Fsync("")] else []) + [Op.Mark("saved")]
  }

  function SaveTrace(r: Recipe): Trace {
    Trace(map[r.target := File(r.was)], SaveOps(r))
  }

  lemma SaveOpsAre(r: Recipe)
    ensures var ops := SaveOps(r);
            && |ops| == MoveOp(r) + (if r.syncDir then 3 else 2)
            && ops[0] == Op.Create(r.temp) && ops[1] == Op.Write(r.temp, 0, r.now)
            && (r.syncFile ==> ops[2] == Op.Fsync(r.temp))
            && ops[MoveOp(r)] == Op.Rename(r.temp, r.target)
            && (r.syncDir ==> ops[MoveOp(r) + 1] == Op.Fsync(""))
            && ops[|ops| - 1] == Op.Mark("saved")
  {
  }

  // ---------------------------------------------------------------- the run

  function Whole(data: seq<Byte>): Node {
    FileNode(data, |data|)
  }

  /** The volatile view after `k` ops. */
  function ViewAt(r: Recipe, k: nat): Image {
    var root := if k == 0 then map[r.target := 1]
                else if k <= MoveOp(r) then map[r.target := 1, r.temp := 2] else map[r.target := 2];
    [DirNode(root), Whole(r.was)] + (if k == 0 then [] else if k == 1 then [Whole([])] else [Whole(r.now)])
  }

  function PaddedStart(r: Recipe): Image {
    [DirNode(map[r.target := 1]), Whole(r.was), Whole([])]
  }

  function DataMicros(r: Recipe, block: nat): seq<Micro>
    requires block > 0
  {
    Chunks(2, 0, r.now, block) + Growth(2, 0, |r.now|)
  }

  function TheMove(r: Recipe): Micro {
    Micro.Rename(0, r.temp, 0, r.target, 2, true)
  }

  /** What op `k` of the recipe emits. */
  function EmittedAt(r: Recipe, block: nat, k: nat): seq<Micro>
    requires block > 0
  {
    if k == 0 then [Link(0, r.temp, 2)] else if k == 1 then DataMicros(r, block)
    else if k == MoveOp(r) then [TheMove(r)] else []
  }

  lemma SaveLookups(r: Recipe, k: nat)
    requires IsRecipe(r)
    ensures Lookup(ViewAt(r, k), "") == Some(0) && Split(r.temp) == ("", r.temp) && Split(r.target) == ("", r.target)
    ensures Lookup(ViewAt(r, k), r.temp) == if 0 < k <= MoveOp(r) then Some(2) else None
    ensures Lookup(ViewAt(r, k), r.target) == if k <= MoveOp(r) then Some(1) else Some(2)
  {
    hide Parts, Resolve, Split;
    NameAlone(ViewAt(r, k), r.temp);
    NameAlone(ViewAt(r, k), r.target);
  }

  lemma SaveCreates(r: Recipe, block: nat)
    requires IsRecipe(r) && block > 0
    ensures var out := OutcomeOf(ViewAt(r, 0), Op.Create(r.temp), block);
            out == Emits([Whole([])], EmittedAt(r, block, 0))
              && Replayed(ViewAt(r, 0) + out.born, out.micros) == ViewAt(r, 1)
  {
    hide Lookup, Split, Replayed;
    SaveLookups(r, 0);
    var v := ViewAt(r, 0) + [Whole([])];
    ReplayedSingle(v, Link(0, r.temp, 2));
    assert Applied(v, Link(0, r.temp, 2))[0] == ViewAt(r, 1)[0];
    assert Applied(v, Link(0, r.temp, 2)) == ViewAt(r, 1);
  }

  lemma SaveWrites(r: Recipe, block: nat)
    requires IsRecipe(r) && block > 0
    ensures var out := OutcomeOf(ViewAt(r, 1), Op.Write(r.temp, 0, r.now), block);
            out == Emits([], EmittedAt(r, block, 1)) && Replayed(ViewAt(r, 1) + out.born, out.micros) == ViewAt(r, 2)
  {
    hide Lookup, Replayed, Chunks, NodeSurvive, Overlay;
    SaveLookups(r, 1);
    var v, ms := ViewAt(r, 1), DataMicros(r, block);
    ChunksAre(2, 0, r.now, block);
    assert v + [] == v;
    DataStaysInFile(v, 2, ms);
    WriteNode(2, [], 0, 0, r.now, block);
    WrittenAlone(r.now);
    assert v[2 := Whole(r.now)] == ViewAt(r, 2);
  }

  lemma WrittenAlone(data: seq<Byte>)
    ensures Written([], 0, data) == data && Max(0, |data|) == |data|
  {
    hide Overlay;
    OverlayBytes([], 0, data);
    SameBytes(Written([], 0, data), data);
  }

  lemma NotBelowName(dir: string, name: string)
    requires ValidName(name)
    ensures !(dir + "/" <= name)
  {
    assert (dir + "/")[|dir|] == '/';
  }

  lemma SaveMoves(r: Recipe, block: nat)
    requires IsRecipe(r) && block > 0
    ensures var k := MoveOp(r);
            var out := OutcomeOf(ViewAt(r, k), Op.Rename(r.temp, r.target), block);
            out == Emits([], EmittedAt(r, block, k))
              && Replayed(ViewAt(r, k) + out.born, out.micros) == ViewAt(r, k + 1)
  {
    hide Lookup, Replayed, Split;
    var k := MoveOp(r);
    SaveLookups(r, k);
    NotBelowName(r.temp, r.target);
    var v := ViewAt(r, k);
    assert v + [] == v;
    ReplayedSingle(v, TheMove(r));
    assert Applied(v, TheMove(r))[0] == ViewAt(r, k + 1)[0];
    assert Applied(v, TheMove(r)) == ViewAt(r, k + 1);
  }

  lemma SaveRests(r: Recipe, block: nat, k: nat)
    requires IsRecipe(r) && block > 0 && 2 <= k < |SaveOps(r)| && k != MoveOp(r)
    ensures OutcomeOf(ViewAt(r, k), SaveOps(r)[k], block) == Emits([], [])
    ensures Replayed(ViewAt(r, k) + [], []) == ViewAt(r, k + 1)
  {
    hide Lookup, Replayed, SaveOps, OutcomeOfCreate, OutcomeOfWrite, OutcomeOfRename, OutcomeOfUnlink;
    SaveOpsAre(r);
    SaveLookups(r, k);
    NothingReplayed(ViewAt(r, k));
    assert SaveOps(r)[k].Fsync? || SaveOps(r)[k].Mark?;
  }

  lemma SaveStep(r: Recipe, block: nat, k: nat)
    requires IsRecipe(r) && block > 0 && k < |SaveOps(r)|
    ensures var out := OutcomeOf(ViewAt(r, k), SaveOps(r)[k], block);
            && out == Emits(if k == 0 then [Whole([])] else [], EmittedAt(r, block, k))
            && Replayed(ViewAt(r, k) + out.born, out.micros) == ViewAt(r, k + 1)
  {
    hide OutcomeOf, Replayed, EmittedAt, ViewAt, SaveOps;
    SaveOpsAre(r);
    NothingEmitted(r, block, k);
    if k == 0 {
      SaveCreates(r, block);
    } else if k == 1 {
      SaveWrites(r, block);
    } else if k == MoveOp(r) {
      SaveMoves(r, block);
    } else {
      SaveRests(r, block, k);
    }
  }

  lemma NothingEmitted(r: Recipe, block: nat, k: nat)
    requires block > 0
    ensures 2 <= k != MoveOp(r) ==> EmittedAt(r, block, k) == []
  {
  }

  lemma SaveStarts(r: Recipe)
    requires IsRecipe(r)
    ensures FromTree(SaveTrace(r).initial) == ViewAt(r, 0)
  {
    hide Parts, Resolve, Split, Replayed;
    var tree := SaveTrace(r).initial;
    var none: Image := [DirNode(map[])];
    NameAlone(none, r.target);
    assert Order.Sorted(tree.Keys) == [r.target] by { OneKey(r.target, tree.Keys); }
    LoadSnoc(tree, [r.target], 0);
    assert [r.target][..1] == [r.target] && [r.target][..0] == [];
    assert Load(tree, []) == none;
    var grown := none + [Whole(r.was)];
    assert Applied(grown, Link(0, r.target, 1))[0] == ViewAt(r, 0)[0];
    assert Applied(grown, Link(0, r.target, 1)) == ViewAt(r, 0);
  }

  lemma OneKey(name: string, keys: set<string>)
    requires keys == {name}
    ensures Order.Sorted(keys) == [name]
  {
    var s := Order.Sorted(keys);
    assert |s| == 1;
    assert s[0] in s;
  }

  ghost predicate SaveAt(r: Recipe, block: nat, k: nat)
    requires block > 0 && k <= |SaveOps(r)|
  {
    Run(SaveTrace(r), block, k).Success?
    && var s := Run(SaveTrace(r), block, k).value;
    s.view == ViewAt(r, k) && s.base == (if k == 0 then ViewAt(r, 0) else PaddedStart(r))
    && |s.marks| == if k == |SaveOps(r)| then 1 else 0
  }

  lemma {:induction false} SaveRuns(r: Recipe, block: nat, k: nat)
    requires IsRecipe(r) && block > 0 && k <= |SaveOps(r)|
    ensures SaveAt(r, block, k)
    decreases k
  {
    hide OutcomeOf, Replayed, FromTree, EmittedAt;
    SaveOpsAre(r);
    if k == 0 {
      SaveStarts(r);
      RunStart(SaveTrace(r), block);
    } else {
      SaveRuns(r, block, k - 1);
      SaveNext(r, block, k - 1);
    }
  }

  lemma SaveNext(r: Recipe, block: nat, k: nat)
    requires IsRecipe(r) && block > 0 && k < |SaveOps(r)| && SaveAt(r, block, k)
    ensures SaveAt(r, block, k + 1)
  {
    hide OutcomeOf, Replayed, FromTree, EmittedAt;
    SaveOpsAre(r);
    SaveStep(r, block, k);
    StepOf(SaveTrace(r), block, k);
    assert ViewAt(r, 0) + [Whole([])] == PaddedStart(r) && PaddedStart(r) + [] == PaddedStart(r);
    OnlyTheLastMarks(r, k);
  }

  lemma OnlyTheLastMarks(r: Recipe, k: nat)
    requires k < |SaveOps(r)|
    ensures SaveOps(r)[k].Mark? <==> k == |SaveOps(r)| - 1
  {
  }

  // ------------------------------------------------------ the compiled recipe

  ghost predicate IsSave(r: Recipe, profile: Profile, block: nat, p: Program) {
    IsRecipe(r) && Compiled(SaveTrace(r), profile, block, p)
  }

  lemma SaveFacts(r: Recipe, profile: Profile, block: nat, p: Program, k: nat)
    requires IsSave(r, profile, block, p) && k <= |SaveOps(r)|
    ensures Shaped(p) && |p.opEnd| == |SaveOps(r)| + 1 && p.base == PaddedStart(r) && p.profile == profile
    ensures Run(SaveTrace(r), block, k).Success? && StageOf(SaveTrace(r), block, k).view == ViewAt(r, k)
    ensures k > 0 ==> Volatile(p, k) == ViewAt(r, k)
    ensures p.marksBefore[k] == if k == |SaveOps(r)| then 1 else 0
  {
    hide Run, Replayed, FirstCover, Regular, ViewAt, SaveOps;
    SaveOpsAre(r);
    ProgramIsShaped(SaveTrace(r), profile, block, p);
    ProgramStages(SaveTrace(r), profile, block, p, k);
    VolatileIsView(SaveTrace(r), profile, block, p, k);
    SaveRuns(r, block, k);
    SaveRuns(r, block, |SaveOps(r)|);
    ViewSizes(r, k);
    assert k > 0 ==> ViewAt(r, k) + p.base[3..] == ViewAt(r, k);
  }

  lemma ViewSizes(r: Recipe, k: nat)
    ensures |ViewAt(r, k)| == if k == 0 then 2 else 3
  {
  }

  lemma SaveMicro(r: Recipe, profile: Profile, block: nat, p: Program, j: nat)
    requires IsSave(r, profile, block, p) && j < |p.micro|
    ensures p.micro[j].op < |SaveOps(r)| && p.micro[j].m in EmittedAt(r, block, p.micro[j].op)
  {
    hide IsProgram, Run, OutcomeOf, EmittedAt, ViewAt, SaveOps;
    MicroIsEmitted(SaveTrace(r), profile, block, p, j);
    SaveFacts(r, profile, block, p, p.micro[j].op);
    SaveStep(r, block, p.micro[j].op);
  }

  /** The three kinds of micro-op of a recipe. */
  ghost predicate SaveKind(r: Recipe, op: nat, m: Micro) {
    || (op == 0 && m == Link(0, r.temp, 2))
    || (op == 1 && (m.Write? || (m.SetLen? && m.keepTail && m.len == |r.now|)) && m.ino == 2)
    || (op == MoveOp(r) && m == TheMove(r))
  }

  lemma EmittedKinds(r: Recipe, block: nat, op: nat, m: Micro)
    requires block > 0 && m in EmittedAt(r, block, op)
    ensures SaveKind(r, op, m)
    ensures m.Write? ==> forall x: nat :: x < |m.data| ==> m.data[x] in r.now
    ensures m.Write? || m.SetLen? ==> r.now != []
    ensures m.Write? ==> m.offset + |m.data| <= |r.now|
  {
    hide Chunks;
    if op == 1 {
      ChunksAre(2, 0, r.now, block);
      ChunksTile(2, 0, r.now, block);
      if m.Write? {
        var chunks := Chunks(2, 0, r.now, block);
        var c :| 0 <= c < |chunks| && chunks[c] == m;
        assert ChunkFits(chunks[c], c, 2, 0, r.now, block);
      }
    }
  }

  lemma SaveKinds(r: Recipe, profile: Profile, block: nat, p: Program, j: nat)
    requires IsSave(r, profile, block, p) && j < |p.micro|
    ensures SaveKind(r, p.micro[j].op, p.micro[j].m)
  {
    hide IsProgram, EmittedAt, SaveOps, SaveKind;
    SaveMicro(r, profile, block, p, j);
    EmittedKinds(r, block, p.micro[j].op, p.micro[j].m);
  }

  /** Where the rename is among the micro-ops. */
  lemma MoveIndex(r: Recipe, profile: Profile, block: nat, p: Program) returns (j: nat)
    requires IsSave(r, profile, block, p)
    ensures |p.opEnd| == |SaveOps(r)| + 1 && MoveOp(r) + 1 < |p.opEnd|
    ensures j == p.opEnd[MoveOp(r)] && p.opEnd[MoveOp(r) + 1] == j + 1 <= |p.micro|
    ensures p.micro[j].m == TheMove(r) && p.micro[j].op == MoveOp(r)
  {
    hide IsProgram, Run, OutcomeOf, ViewAt, SaveOps, Regular;
    var k := MoveOp(r);
    SaveOpsAre(r);
    SaveFacts(r, profile, block, p, k);
    OpMicros(SaveTrace(r), profile, block, p, k);
    SaveStep(r, block, k);
    j := p.opEnd[k];
    assert Micros(p.micro)[j..p.opEnd[k + 1]] == [TheMove(r)];
    assert |Micros(p.micro)[j..p.opEnd[k + 1]]| == 1;
    assert Micros(p.micro)[j..p.opEnd[k + 1]][0] == p.micro[j].m;
    OwnerOf(SaveTrace(r), profile, block, p, k, j);
    OwnerOf(SaveTrace(r), profile, block, p, k + 1, j);
  }

  // ------------------------------------------------- the shape of crash states

  ghost predicate MovePersisted(p: Program, s: Persisted)
    requires |s| <= |p.micro|
  {
    exists j :: 0 <= j < |s| && s[j] && p.micro[j].m.Rename?
  }

  /** The root lists the target, as the old inode or the new one, and nothing else but the temporary. */
  ghost predicate RootIs(r: Recipe, root: Node, moved: bool) {
    && root.DirNode? && r.target in root.entries && root.entries[r.target] == (if moved then 2 else 1)
    && forall name :: name in root.entries ==> name == r.target || root.entries[name] == 2
  }

  lemma RootStep(r: Recipe, root: Node, moved: bool, op: nat, m: Micro)
    requires IsRecipe(r) && RootIs(r, root, moved) && SaveKind(r, op, m)
    ensures RootIs(r, Effect(0, root, m), moved || m.Rename?)
  {
  }

  lemma {:induction false} RootAfter(r: Recipe, root: Node, ms: seq<Micro>, ops: seq<nat>, s: Persisted)
    requires IsRecipe(r) && RootIs(r, root, false) && |s| <= |ms| == |ops|
    requires forall j :: 0 <= j < |ms| ==> SaveKind(r, ops[j], ms[j])
    ensures RootIs(r, NodeSurvive(0, root, ms, s), exists j :: 0 <= j < |s| && s[j] && ms[j].Rename?)
  {
    hide Effect, SaveKind, RootIs;
    if s != [] {
      var k := |s| - 1;
      RootAfter(r, root, ms, ops, s[..k]);
      if s[k] {
        var moved := exists j :: 0 <= j < k && s[..k][j] && ms[j].Rename?;
        RootStep(r, NodeSurvive(0, root, ms, s[..k]), moved, ops[k], ms[k]);
        assert (moved || ms[k].Rename?) == exists j :: 0 <= j < |s| && s[j] && ms[j].Rename?;
      } else {
        assert (exists j :: 0 <= j < k && s[..k][j] && ms[j].Rename?) ==
               exists j :: 0 <= j < |s| && s[j] && ms[j].Rename?;
      }
    }
  }

  lemma OldFileStays(r: Recipe, profile: Profile, block: nat, p: Program, s: Persisted)
    requires IsSave(r, profile, block, p) && |s| <= |p.micro| && p.base == PaddedStart(r)
    ensures NodeSurvive(1, p.base[1], Micros(p.micro), s) == Whole(r.was)
  {
    hide IsProgram, NodeSurvive, SaveKind, SaveOps;
    var none := Prefix(0, |s|);
    forall j | 0 <= j < |s| ensures !Touches(p.micro[j].m, 1, true) {
      SaveKinds(r, profile, block, p, j);
      NeverTheOldFile(r, p.micro[j].op, p.micro[j].m);
    }
    NodeDependsOnTouches(1, p.base[1], Micros(p.micro), s, none);
    NothingSurvives(1, p.base[1], Micros(p.micro), |s|);
  }

  lemma NeverTheOldFile(r: Recipe, op: nat, m: Micro)
    requires SaveKind(r, op, m)
    ensures !Touches(m, 1, true)
  {
  }

  lemma {:induction false} NothingSurvives(n: Ino, node: Node, ms: seq<Micro>, k: nat)
    requires k <= |ms|
    ensures NodeSurvive(n, node, ms, Prefix(0, k)) == node
  {
    hide Effect;
    if k > 0 {
      assert Prefix(0, k)[..k - 1] == Prefix(0, k - 1);
      NothingSurvives(n, node, ms, k - 1);
    }
  }

  /** In every crash state the target is there: the old file unless the rename persisted, and then
      whatever persisted of the new one. */
  lemma TargetIs(r: Recipe, profile: Profile, block: nat, p: Program, s: Persisted)
    requires IsSave(r, profile, block, p) && |s| <= |p.micro|
    ensures Shaped(p) && |CrashImage(p, s)| == 3 && CrashImage(p, s)[2].FileNode?
    ensures CrashImage(p, s)[2] == NodeSurvive(2, Whole([]), Micros(p.micro), s)
    ensures r.target in CrashTree(p, s)
    ensures CrashTree(p, s)[r.target] == File(if MovePersisted(p, s) then Content(CrashImage(p, s)[2]) else r.was)
  {
    hide IsProgram, NodeSurvive, SaveKind, SaveOps, Survive, ToTree, Content;
    SaveFacts(r, profile, block, p, 0);
    var ms, ops := Micros(p.micro), seq(|p.micro|, j requires 0 <= j < |p.micro| => p.micro[j].op);
    forall j | 0 <= j < |ms| ensures SaveKind(r, ops[j], ms[j]) {
      SaveKinds(r, profile, block, p, j);
    }
    RootAfter(r, p.base[0], ms, ops, s);
    OldFileStays(r, profile, block, p, s);
    forall n | 0 <= n < 3 ensures CrashImage(p, s)[n] == NodeSurvive(n, p.base[n], ms, s) {
      SurviveIsNodewise(p.base, ms, s, n);
    }
    SurviveKeepsKind(2, p.base[2], ms, s);
    CrashImageIsClosed(p, s);
    FlatTree(CrashImage(p, s));
    WholeContent(r.was);
  }

  lemma WholeContent(data: seq<Byte>)
    ensures Content(Whole(data)) == data
  {
  }

  // -------------------------------------------------------------- what is kept

  /** The new file is complete whenever the rename persisted, if the file was fsynced before the
      rename, or if the file system flushes renamed data by itself. */
  lemma MovedFileIsWhole(r: Recipe, profile: Profile, block: nat, p: Program, point: nat, s: Persisted)
    requires IsSave(r, profile, block, p) && Legal(p, point, s) && MovePersisted(p, s)
    requires r.syncFile || profile == Ext4Ordered
    ensures point <= |SaveOps(r)| && CrashImage(p, s) != [] && |CrashImage(p, s)| == 3
    ensures CrashImage(p, s)[2] == Whole(r.now)
  {
    hide IsProgram, Run, NodeSurvive, SaveKind, SaveOps, CrashImage, Volatile, MetaInOrder, DataBeforeSize,
      DataBeforeReplace;
    SaveFacts(r, profile, block, p, 0);
    var j :| 0 <= j < |s| && s[j] && p.micro[j].m.Rename?;
    OnlyOneMove(r, profile, block, p, j);
    OwnerOf(SaveTrace(r), profile, block, p, point, j);
    SaveFacts(r, profile, block, p, point);
    forall i | 0 <= i < |s| && Touches(p.micro[i].m, 2, true) ensures s[i] {
      NewDataPersists(r, profile, block, p, point, s, j, i);
    }
    NothingLostNothingChanged(p, point, s, 2);
  }

  lemma OnlyOneMove(r: Recipe, profile: Profile, block: nat, p: Program, j: nat)
    requires IsSave(r, profile, block, p) && j < |p.micro| && p.micro[j].m.Rename?
    ensures p.micro[j].op == MoveOp(r) && p.micro[j].m == TheMove(r)
  {
    hide IsProgram;
    SaveKinds(r, profile, block, p, j);
  }

  lemma NewDataPersists(r: Recipe, profile: Profile, block: nat, p: Program, point: nat, s: Persisted, j: nat, i: nat)
    requires IsSave(r, profile, block, p) && Legal(p, point, s) && (r.syncFile || profile == Ext4Ordered)
    requires j < |s| && s[j] && p.micro[j].m == TheMove(r) && p.micro[j].op == MoveOp(r)
             && MoveOp(r) < point <= |SaveOps(r)|
    requires i < |s| && Touches(p.micro[i].m, 2, true)
    ensures s[i]
  {
    hide IsProgram, Run, ViewAt, SaveOps, Touches, DataBeforeSize, DataBeforeReplace, MetaInOrder;
    if r.syncFile {
      FileFsyncCovers(r, profile, block, p, i);
    } else {
      FlushedByMove(r, block, p, point, s, j, i);
    }
  }

  lemma TouchesNewFile(r: Recipe, op: nat, m: Micro)
    requires SaveKind(r, op, m) && Touches(m, 2, true)
    ensures op == 1 && InScope(2, m) && (m.Write? || (m.SetLen? && IsMeta(m))) && m.ino == 2
  {
  }

  lemma FileFsyncCovers(r: Recipe, profile: Profile, block: nat, p: Program, i: nat)
    requires IsSave(r, profile, block, p) && r.syncFile && i < |p.micro| && Touches(p.micro[i].m, 2, true)
    ensures p.micro[i].durableAt <= 2
  {
    hide IsProgram, Run, ViewAt, SaveOps, Touches, SaveKind, Lookup, InScope;
    SaveKinds(r, profile, block, p, i);
    TouchesNewFile(r, p.micro[i].op, p.micro[i].m);
    SaveOpsAre(r);
    SaveFacts(r, profile, block, p, 2);
    SaveLookups(r, 2);
    CoveredIsDurable(SaveTrace(r), profile, block, p, 2, i);
  }

  lemma FlushedByMove(r: Recipe, block: nat, p: Program, point: nat, s: Persisted, j: nat, i: nat)
    requires IsSave(r, Ext4Ordered, block, p) && Legal(p, point, s)
    requires j < |s| && s[j] && p.micro[j].m == TheMove(r) && p.micro[j].op == MoveOp(r)
             && MoveOp(r) < point <= |SaveOps(r)|
    requires i < |s| && Touches(p.micro[i].m, 2, true)
    ensures s[i]
  {
    hide IsProgram, Run, ViewAt, SaveOps, Touches, SaveKind, DataBeforeSize, InScope;
    SaveKinds(r, Ext4Ordered, block, p, i);
    TouchesNewFile(r, p.micro[i].op, p.micro[i].m);
    SaveFacts(r, Ext4Ordered, block, p, MoveOp(r));
    OwnerOf(SaveTrace(r), Ext4Ordered, block, p, MoveOp(r), i);
    OwnerOf(SaveTrace(r), Ext4Ordered, block, p, MoveOp(r), j);
    assert i < j;
  }

  /** After the directory fsync the rename is durable. */
  lemma MoveIsDurable(r: Recipe, profile: Profile, block: nat, p: Program, point: nat, s: Persisted)
    requires IsSave(r, profile, block, p) && Legal(p, point, s) && r.syncDir && MoveOp(r) + 1 < point
    ensures |s| <= |p.micro| && MovePersisted(p, s)
  {
    hide IsProgram, Run, ViewAt, SaveOps, MetaInOrder, DataBeforeSize, DataBeforeReplace;
    SaveFacts(r, profile, block, p, 0);
    var j := MoveIndex(r, profile, block, p);
    OwnerOf(SaveTrace(r), profile, block, p, point, j);
    DirFsyncCovers(r, profile, block, p, j);
    assert s[j];
  }

  lemma DirFsyncCovers(r: Recipe, profile: Profile, block: nat, p: Program, j: nat)
    requires IsSave(r, profile, block, p) && r.syncDir && j < |p.micro|
    requires p.micro[j].m == TheMove(r) && p.micro[j].op == MoveOp(r)
    ensures p.micro[j].durableAt <= MoveOp(r) + 1
  {
    hide IsProgram, Run, ViewAt, SaveOps, Lookup;
    SaveOpsAre(r);
    SaveFacts(r, profile, block, p, MoveOp(r) + 1);
    SaveLookups(r, MoveOp(r) + 1);
    CoveredIsDurable(SaveTrace(r), profile, block, p, MoveOp(r) + 1, j);
  }

  /** The target holds all of the old contents or all of the new. */
  predicate IsIntact(r: Recipe, tree: Tree) {
    r.target in tree && (tree[r.target] == File(r.was) || tree[r.target] == File(r.now))
  }

  ghost predicate NeverTorn(r: Recipe, p: Program)
    requires Shaped(p)
  {
    forall point, s :: Legal(p, point, s) ==> IsIntact(r, CrashTree(p, s))
  }

  /** The full recipe, under either profile and for any contents and block size: the target is always
      old or new, and new once it was reported as saved. The file fsync can be left to ext4. */
  lemma SavedFileIsOldOrNew(r: Recipe, profile: Profile, block: nat, p: Program, point: nat, s: Persisted)
    requires IsSave(r, profile, block, p) && Legal(p, point, s) && (r.syncFile || profile == Ext4Ordered)
    ensures Shaped(p) && point < |p.marksBefore| && IsIntact(r, CrashTree(p, s))
    ensures r.syncDir && p.marksBefore[point] > 0 ==> CrashTree(p, s)[r.target] == File(r.now)
  {
    hide IsProgram, CrashImage, ToTree, SaveOps, MetaInOrder, DataBeforeSize, DataBeforeReplace, KeepsDurable,
      MovePersisted, Content, CrashTree;
    SaveFacts(r, profile, block, p, 0);
    SaveFacts(r, profile, block, p, point);
    SaveOpsAre(r);
    TargetIs(r, profile, block, p, s);
    WholeContent(r.now);
    if MovePersisted(p, s) {
      MovedFileIsWhole(r, profile, block, p, point, s);
    } else if r.syncDir && p.marksBefore[point] > 0 {
      MoveIsDurable(r, profile, block, p, point, s);
    }
  }

  // ------------------------------------------------- leaving out the file fsync

  /** Before the first barrier every subset of what was emitted is a legal posix state. */
  lemma AnythingGoes(r: Recipe, block: nat, p: Program, s: Persisted)
    requires IsSave(r, Posix, block, p) && !r.syncFile && |p.opEnd| == |SaveOps(r)| + 1
    requires MoveOp(r) + 1 < |p.opEnd| && |s| == p.opEnd[MoveOp(r) + 1] <= |p.micro|
    ensures Legal(p, MoveOp(r) + 1, s)
  {
    hide IsProgram, Run, ViewAt, SaveOps;
    SaveOpsAre(r);
    SaveFacts(r, Posix, block, p, 0);
    forall j | 0 <= j < |s| ensures p.micro[j].durableAt >= MoveOp(r) + 1 {
      NoBarrierYet(r, block, p, j);
    }
  }

  lemma NoBarrierYet(r: Recipe, block: nat, p: Program, j: nat)
    requires IsSave(r, Posix, block, p) && !r.syncFile && j < |p.micro|
    ensures p.micro[j].durableAt >= MoveOp(r) + 1
  {
    hide IsProgram, Run, ViewAt, SaveOps;
    SaveOpsAre(r);
    if p.micro[j].durableAt != NEVER {
      DurableIsCovered(SaveTrace(r), Posix, block, p, j);
    }
  }

  lemma {:induction false} NoDataNoBytes(n: Ino, node: Node, ms: seq<Micro>, s: Persisted)
    requires |s| <= |ms| && node.FileNode? && node.buf == []
    requires forall j :: 0 <= j < |s| && s[j] ==> !ms[j].Write?
    ensures NodeSurvive(n, node, ms, s).FileNode? && NodeSurvive(n, node, ms, s).buf == []
  {
    if s != [] {
      NoDataNoBytes(n, node, ms, s[..|s| - 1]);
    }
  }

  function AllZero(data: seq<Byte>): (b: bool)
    ensures b <==> data == Zeros(|data|)
  {
    forall x :: 0 <= x < |data| ==> data[x] == 0
  }

  /** The rename persisted and the data did not: the target is empty, or has the new length and zeros. */
  lemma MovedWithoutData(r: Recipe, block: nat, p: Program, sized: bool) returns (s: Persisted)
    requires IsSave(r, Posix, block, p) && !r.syncFile
    ensures Shaped(p) && Legal(p, MoveOp(r) + 1, s) && r.target in CrashTree(p, s)
    ensures CrashTree(p, s)[r.target] == File(Zeros(if sized then |r.now| else 0))
  {
    hide IsProgram, CrashImage, CrashTree, ToTree, SaveOps, Content, NodeSurvive, Legal, SaveKind;
    var at := MoveIndex(r, Posix, block, p);
    SaveFacts(r, Posix, block, p, 0);
    s := seq(at + 1, j requires 0 <= j <= at => p.micro[j].m.Rename? || (sized && p.micro[j].m.SetLen?));
    AnythingGoes(r, block, p, s);
    TargetIs(r, Posix, block, p, s);
    assert s[at];
    var ms := Micros(p.micro);
    NoDataNoBytes(2, Whole([]), ms, s);
    MovedLength(r, block, p, s, sized);
    ZerosShow(CrashImage(p, s)[2]);
  }

  lemma MovedLength(r: Recipe, block: nat, p: Program, s: Persisted, sized: bool)
    requires IsSave(r, Posix, block, p) && !r.syncFile && Shaped(p) && |p.opEnd| == |SaveOps(r)| + 1
    requires MoveOp(r) + 1 < |p.opEnd| && |s| == p.opEnd[MoveOp(r) + 1] <= |p.micro|
    requires forall j :: 0 <= j < |s| ==> s[j] == (p.micro[j].m.Rename? || (sized && p.micro[j].m.SetLen?))
    ensures NodeSurvive(2, Whole([]), Micros(p.micro), s).FileNode?
    ensures NodeSurvive(2, Whole([]), Micros(p.micro), s).len == if sized then |r.now| else 0
  {
    hide IsProgram, NodeSurvive, Replayed, SaveOps, ViewAt, Survive, Closed;
    SaveFacts(r, Posix, block, p, MoveOp(r) + 1);
    LastView(r);
    var ms, n := Micros(p.micro), |s|;
    if sized {
      SurviveIsNodewise(p.base, ms, Prefix(n, n), 2);
      SurvivePrefix(p.base, ms, n, n);
      forall j | 0 <= j < n && Touches(ms[j], 2, true) && IsMeta(ms[j]) ensures s[j] {}
      LengthsDependOnSizes(2, Whole([]), ms, s, Prefix(n, n));
    } else {
      LengthsUntouched(2, Whole([]), ms, s);
    }
  }

  lemma LastView(r: Recipe)
    ensures ViewAt(r, MoveOp(r) + 1)[2] == Whole(r.now)
  {
  }

  /** The length of a file depends on which of its size changes persisted. */
  lemma {:induction false} LengthsDependOnSizes(n: Ino, node: Node, ms: seq<Micro>, s: Persisted, t: Persisted)
    requires node.FileNode? && |s| == |t| <= |ms|
    requires forall j :: 0 <= j < |s| && Touches(ms[j], n, true) && IsMeta(ms[j]) ==> s[j] == t[j]
    ensures NodeSurvive(n, node, ms, s).FileNode? && NodeSurvive(n, node, ms, t).FileNode?
    ensures NodeSurvive(n, node, ms, s).len == NodeSurvive(n, node, ms, t).len
  {
    hide Overlay;
    if s != [] {
      LengthsDependOnSizes(n, node, ms, s[..|s| - 1], t[..|s| - 1]);
    }
  }

  lemma ZerosShow(node: Node)
    requires node.FileNode? && node.buf == []
    ensures Content(node) == Zeros(node.len)
  {
  }

  /** A file that never holds anything but zeros, in one of two lengths. */
  ghost predicate IsBlank(node: Node, len: nat) {
    node.FileNode? && (node.len == 0 || node.len == len) && forall x: nat :: ByteAt(node.buf, x) == 0
  }

  lemma BlankStep(r: Recipe, node: Node, op: nat, m: Micro)
    requires IsBlank(node, |r.now|) && SaveKind(r, op, m) && (m.Write? ==> AllZero(m.data))
    ensures IsBlank(Effect(2, node, m), |r.now|)
  {
    hide Overlay;
    if m.Write? {
      OverlayBytes(node.buf, m.offset, m.data);
    }
  }

  lemma {:induction false} StaysBlank(r: Recipe, node: Node, ms: seq<Micro>, ops: seq<nat>, s: Persisted)
    requires |s| <= |ms| == |ops| && IsBlank(node, |r.now|)
    requires forall j :: 0 <= j < |ms| ==> SaveKind(r, ops[j], ms[j]) && (ms[j].Write? ==> AllZero(ms[j].data))
    ensures IsBlank(NodeSurvive(2, node, ms, s), |r.now|)
  {
    hide Effect, SaveKind, IsBlank, AllZero;
    if s != [] {
      var k := |s| - 1;
      StaysBlank(r, node, ms, ops, s[..k]);
      BlankStep(r, NodeSurvive(2, node, ms, s[..k]), ops[k], ms[k]);
    }
  }

  lemma BlankShows(node: Node, len: nat)
    requires IsBlank(node, len)
    ensures Content(node) == [] || Content(node) == Zeros(len)
  {
    hide Resize;
    ResizeBytes(node.buf, node.len);
    assert forall x :: 0 <= x < node.len ==> Content(node)[x] == ByteAt(node.buf, x);
    assert Content(node) == Zeros(node.len);
  }

  lemma BlankNewFile(r: Recipe, block: nat, p: Program, s: Persisted)
    requires IsSave(r, Posix, block, p) && |s| <= |p.micro| && AllZero(r.now)
    ensures IsBlank(NodeSurvive(2, Whole([]), Micros(p.micro), s), |r.now|)
  {
    hide IsProgram, NodeSurvive, SaveKind, SaveOps, EmittedAt;
    var ms, ops := Micros(p.micro), seq(|p.micro|, j requires 0 <= j < |p.micro| => p.micro[j].op);
    forall j | 0 <= j < |ms| ensures SaveKind(r, ops[j], ms[j]) && (ms[j].Write? ==> AllZero(ms[j].data)) {
      SaveMicro(r, Posix, block, p, j);
      EmittedKinds(r, block, ops[j], ms[j]);
    }
    StaysBlank(r, Whole([]), ms, ops, s);
  }

  /** Without the file fsync, on posix: never torn exactly when there is nothing to tear, that is, the
      new contents are all zeros and one of the two versions is empty. */
  lemma UnsyncedSaveIsSafeIff(r: Recipe, block: nat, p: Program)
    requires IsSave(r, Posix, block, p) && !r.syncFile
    ensures Shaped(p)
    ensures NeverTorn(r, p) <==> AllZero(r.now) && (r.now == [] || r.was == [])
  {
    hide IsProgram, CrashTree, CrashImage, SaveOps, KeepsDurable, MetaInOrder, DataBeforeSize, DataBeforeReplace,
      MovePersisted, IsBlank, AllZero, Content, NodeSurvive;
    SaveFacts(r, Posix, block, p, 0);
    if AllZero(r.now) && (r.now == [] || r.was == []) {
      forall point: nat, s | Legal(p, point, s) ensures IsIntact(r, CrashTree(p, s)) {
        LegalSize(p, point, s);
        TargetIs(r, Posix, block, p, s);
        BlankNewFile(r, block, p, s);
        BlankShows(CrashImage(p, s)[2], |r.now|);
      }
    } else {
      var emptied := MovedWithoutData(r, block, p, false);
      var zeroed := MovedWithoutData(r, block, p, true);
      assert !(IsIntact(r, CrashTree(p, emptied)) && IsIntact(r, CrashTree(p, zeroed)));
    }
  }

  // -------------------------------------------- leaving out the directory fsync

  /** The update reported as saved is there in every legal crash state after the report. */
  ghost predicate SavedIsKept(r: Recipe, p: Program)
    requires Shaped(p)
  {
    forall point: nat, s :: Legal(p, point, s) && p.marksBefore[point] > 0 ==>
      r.target in CrashTree(p, s) && CrashTree(p, s)[r.target] == File(r.now)
  }

  /** Without a directory fsync the rename can be rolled back to the end, under either profile. */
  lemma MoveCanBeLost(r: Recipe, profile: Profile, block: nat, p: Program) returns (s: Persisted)
    requires IsSave(r, profile, block, p) && !r.syncDir
    ensures Shaped(p) && Legal(p, |SaveOps(r)|, s) && !MovePersisted(p, s)
  {
    hide IsProgram, Run, ViewAt, SaveOps, CoveredAt;
    SaveOpsAre(r);
    SaveFacts(r, profile, block, p, |SaveOps(r)|);
    var at := MoveIndex(r, profile, block, p);
    s := Prefix(at, |p.micro|);
    forall j | 0 <= j < |s| && p.micro[j].durableAt < |SaveOps(r)| ensures j < at {
      if j >= at {
        OwnerOf(SaveTrace(r), profile, block, p, MoveOp(r), j);
        NothingCoversAfter(r, profile, block, p, j);
      }
    }
    forall j | 0 <= j < at ensures !p.micro[j].m.Rename? {
      OwnerOf(SaveTrace(r), profile, block, p, MoveOp(r), j);
      SaveKinds(r, profile, block, p, j);
    }
  }

  lemma NothingCoversAfter(r: Recipe, profile: Profile, block: nat, p: Program, j: nat)
    requires IsSave(r, profile, block, p) && !r.syncDir && j < |p.micro| && MoveOp(r) <= p.micro[j].op
    ensures p.micro[j].durableAt == NEVER
  {
    hide IsProgram, Run, ViewAt, SaveOps;
    SaveOpsAre(r);
    if p.micro[j].durableAt != NEVER {
      DurableIsCovered(SaveTrace(r), profile, block, p, j);
    }
  }

  /** On posix a directory fsync covers the names only. */
  lemma DirFsyncCoversNames(r: Recipe, block: nat, p: Program, j: nat)
    requires IsSave(r, Posix, block, p) && !r.syncFile && j < |p.micro| && p.micro[j].durableAt != NEVER
    ensures p.micro[j].m.Link? || p.micro[j].m.Rename?
  {
    hide IsProgram, Run, ViewAt, SaveOps, Lookup;
    SaveOpsAre(r);
    var d := p.micro[j].durableAt;
    DurableIsCovered(SaveTrace(r), Posix, block, p, j);
    SaveFacts(r, Posix, block, p, d);
    SaveLookups(r, d);
    SaveKinds(r, Posix, block, p, j);
  }

  /** Without a file fsync the rename can be there to the end without the data, on posix. */
  lemma DataCanBeLost(r: Recipe, block: nat, p: Program) returns (s: Persisted)
    requires IsSave(r, Posix, block, p) && !r.syncFile
    ensures Shaped(p) && Legal(p, |SaveOps(r)|, s)
    ensures r.target in CrashTree(p, s) && CrashTree(p, s)[r.target] == File([])
  {
    hide IsProgram, CrashImage, CrashTree, SaveOps, Content, NodeSurvive, MovePersisted, Legal, NamesOnly, Shaped;
    SaveFacts(r, Posix, block, p, |SaveOps(r)|);
    s := NamesOnly(p);
    NamesOnlyIsLegal(r, block, p);
    LegalSize(p, |SaveOps(r)|, s);
    TargetIs(r, Posix, block, p, s);
    NamesOnlyMoves(r, block, p);
    NamesOnlyIsBlank(p, 2);
    ZerosShow(CrashImage(p, s)[2]);
  }

  /** Every name persisted, and no data or size. */
  function NamesOnly(p: Program): Persisted {
    seq(|p.micro|, j requires 0 <= j < |p.micro| => p.micro[j].m.Link? || p.micro[j].m.Rename?)
  }

  lemma NamesOnlyIsLegal(r: Recipe, block: nat, p: Program)
    requires IsSave(r, Posix, block, p) && !r.syncFile && Shaped(p) && |p.opEnd| == |SaveOps(r)| + 1
    ensures Legal(p, |SaveOps(r)|, NamesOnly(p))
  {
    hide IsProgram, SaveOps;
    SaveFacts(r, Posix, block, p, 0);
    NeverIsFar(r, Posix, block, p);
    forall j | 0 <= j < |p.micro| && p.micro[j].durableAt < |SaveOps(r)| ensures NamesOnly(p)[j] {
      DirFsyncCoversNames(r, block, p, j);
    }
  }

  lemma NamesOnlyMoves(r: Recipe, block: nat, p: Program)
    requires IsSave(r, Posix, block, p)
    ensures |NamesOnly(p)| <= |p.micro| && MovePersisted(p, NamesOnly(p))
  {
    hide IsProgram, SaveOps;
    var at := MoveIndex(r, Posix, block, p);
    assert NamesOnly(p)[at];
  }

  lemma NamesOnlyIsBlank(p: Program, n: Ino)
    ensures var node := NodeSurvive(n, Whole([]), Micros(p.micro), NamesOnly(p));
            node.FileNode? && node.buf == [] && node.len == 0
  {
    hide NodeSurvive;
    NoDataNoBytes(n, Whole([]), Micros(p.micro), NamesOnly(p));
    LengthsUntouched(n, Whole([]), Micros(p.micro), NamesOnly(p));
  }

  lemma NeverIsFar(r: Recipe, profile: Profile, block: nat, p: Program)
    requires IsSave(r, profile, block, p)
    ensures |SaveOps(r)| < NEVER
  {
  }

  /** An acknowledged update is kept exactly when the rename is made durable or changes nothing, and the
      data is: by the file fsync, by the profile, or because there is none. */
  lemma SavedIsKeptIff(r: Recipe, profile: Profile, block: nat, p: Program)
    requires IsSave(r, profile, block, p)
    ensures Shaped(p)
    ensures SavedIsKept(r, p) <==>
              (r.syncDir || r.was == r.now) && (r.syncFile || profile == Ext4Ordered || r.now == [])
  {
    hide IsProgram, CrashTree, CrashImage, SaveOps, KeepsDurable, MetaInOrder, DataBeforeSize, DataBeforeReplace,
      MovePersisted, Content;
    SaveFacts(r, profile, block, p, |SaveOps(r)|);
    if !(r.syncDir || r.was == r.now) {
      var s := MoveCanBeLost(r, profile, block, p);
      LegalSize(p, |SaveOps(r)|, s);
      TargetIs(r, profile, block, p, s);
    } else if !(r.syncFile || profile == Ext4Ordered || r.now == []) {
      var s := DataCanBeLost(r, block, p);
    } else {
      forall point: nat, s | Legal(p, point, s) && p.marksBefore[point] > 0
        ensures r.target in CrashTree(p, s) && CrashTree(p, s)[r.target] == File(r.now)
      {
        SavedStays(r, profile, block, p, point, s);
      }
    }
  }

  lemma SavedStays(r: Recipe, profile: Profile, block: nat, p: Program, point: nat, s: Persisted)
    requires IsSave(r, profile, block, p) && Shaped(p) && Legal(p, point, s) && p.marksBefore[point] > 0
    requires (r.syncDir || r.was == r.now) && (r.syncFile || profile == Ext4Ordered || r.now == [])
    ensures r.target in CrashTree(p, s) && CrashTree(p, s)[r.target] == File(r.now)
  {
    hide IsProgram, CrashTree, CrashImage, SaveOps, KeepsDurable, MetaInOrder, DataBeforeSize, DataBeforeReplace,
      MovePersisted, Content, AllZero, IsBlank, NodeSurvive;
    if r.syncFile || profile == Ext4Ordered {
      SavedFileIsOldOrNew(r, profile, block, p, point, s);
    } else {
      LegalSize(p, point, s);
      TargetIs(r, profile, block, p, s);
      BlankNewFile(r, block, p, s);
      BlankShows(CrashImage(p, s)[2], 0);
      if r.syncDir {
        SaveOpsAre(r);
        SaveFacts(r, profile, block, p, 0);
        SaveFacts(r, profile, block, p, point);
        MoveIsDurable(r, profile, block, p, point, s);
      }
    }
  }
}
