/** The example log: no acknowledged record is ever lost, and which repairs keep it so. */
module Wal {
  import opened Wrappers
  import opened Trace
  import opened Paths
  import opened FileSystem
  import opened Walk
  import opened Snapshot
  import opened Bytes
  import opened Locality
  import opened Runs
  import opened Stages
  import opened Crash
  import opened Enumerate
  import opened Durability
  import opened Ordered
  import opened Replay
  import opened Flat
  import opened LogFormat

  /** What is appended: the records, the log's name, whether records carry a checksum, and whether the
      log's directory is fsynced. */
  datatype Workload = Workload(name: string, payloads: seq<seq<Byte>>, crc: Checksum, checked: bool, synced: bool)

  ghost predicate IsWorkload(w: Workload) {
    ValidName(w.name) && AllStorable(w.payloads)
  }

  /** The log's bytes after the first `i` records. */
  ghost function LogAfter(w: Workload, i: nat): seq<Byte>
    requires IsWorkload(w) && i <= |w.payloads|
  {
    Encodings(w.crc, w.checked, w.payloads[..i])
  }

  ghost function FullCount(w: Workload): nat {
    2 + 3 * |w.payloads|
  }

  /** Create the log and fsync its directory; then write, fsync and acknowledge each record. */
  ghost function FullOp(w: Workload, f: nat): Op
    requires IsWorkload(w) && f < FullCount(w)
  {
    if f == 0 then Op.Create(w.name)
    else if f == 1 then Op.Fsync("")
    else if f % 3 == 2 then
      Op.Write(w.name, |LogAfter(w, f / 3)|, Encode(w.crc, w.checked, w.payloads[f / 3]))
    else if f % 3 == 0 then Op.Fsync(w.name)
    else Op.Mark("put")
  }

  /** Without the fsync of the directory, everything after the first op is one op earlier. */
  function Gap(w: Workload): nat {
    if w.synced then 0 else 1
  }

  function FullAt(w: Workload, k: nat): nat {
    if k == 0 then 0 else k + Gap(w)
  }

  ghost function OpCount(w: Workload): nat {
    FullCount(w) - Gap(w)
  }

  ghost function WalTrace(w: Workload): Trace
    requires IsWorkload(w)
  {
    Trace(map[], seq(OpCount(w), k requires 0 <= k < OpCount(w) => FullOp(w, FullAt(w, k))))
  }

  /** Records written by the first `k` ops. */
  function Written(w: Workload, k: nat): nat {
    FullAt(w, k) / 3
  }

  /** Acknowledgements among the first `k` ops. */
  function Acknowledged(w: Workload, k: nat): nat {
    if FullAt(w, k) < 2 then 0 else (FullAt(w, k) - 2) / 3
  }

  // ---------------------------------------------------------------- the run

  function LogImage(name: string, content: seq<Byte>): Image {
    [DirNode(map[name := 1]), FileNode(content, |content|)]
  }

  const EMPTY_ROOT: Image := [DirNode(map[])]

  function PaddedRoot(): Image {
    [DirNode(map[]), FileNode([], 0)]
  }

  lemma LogLookup(name: string, content: seq<Byte>)
    requires ValidName(name)
    ensures Lookup(LogImage(name, content), name) == Some(1) && Lookup(LogImage(name, content), "") == Some(0)
    ensures FileAt(LogImage(name, content), name) == Success(1)
  {
    hide Parts, Resolve;
    NameAlone(LogImage(name, content), name);
  }

  function AppendMicros(content: seq<Byte>, data: seq<Byte>, block: nat): seq<Micro>
    requires block > 0
  {
    Chunks(1, |content|, data, block) + Growth(1, |content|, |content| + |data|)
  }

  lemma AppendsAreData(content: seq<Byte>, data: seq<Byte>, block: nat)
    requires block > 0
    ensures forall m :: m in AppendMicros(content, data, block) ==> m.Write? || m.SetLen?
  {
    hide Chunks;
    ChunksAre(1, |content|, data, block);
  }

  lemma AppendOutcome(name: string, content: seq<Byte>, data: seq<Byte>, block: nat)
    requires ValidName(name) && block > 0
    ensures OutcomeOf(LogImage(name, content), Op.Write(name, |content|, data), block) ==
            Emits([], AppendMicros(content, data, block))
  {
    hide Chunks, FileAt;
    LogLookup(name, content);
  }

  /** Appending to the log. */
  lemma AppendStep(name: string, content: seq<Byte>, data: seq<Byte>, block: nat)
    requires ValidName(name) && block > 0 && data != []
    ensures var v := LogImage(name, content);
            var out := OutcomeOf(v, Op.Write(name, |content|, data), block);
            out.Emits? && out.born == [] && Replayed(v + out.born, out.micros) == LogImage(name, content + data)
  {
    hide Chunks, Replayed, NodeSurvive, OutcomeOf, Overlay;
    AppendOutcome(name, content, data, block);
    var v := LogImage(name, content);
    var ms := AppendMicros(content, data, block);
    ChunksAre(1, |content|, data, block);
    assert v + [] == v;
    DataStaysInFile(v, 1, ms);
    WriteNode(1, content, |content|, |content|, data, block);
    OverlayAtEnd(content, data);
  }

  lemma OverlayAtEnd(content: seq<Byte>, data: seq<Byte>)
    ensures Overlay(content, |content|, data) == content + data
  {
    hide Overlay;
    OverlayBytes(content, |content|, data);
    SameBytes(Overlay(content, |content|, data), content + data);
  }

  lemma CreateStep(name: string, block: nat)
    requires ValidName(name) && block > 0
    ensures var out := OutcomeOf(EMPTY_ROOT, Op.Create(name), block);
            && out == Emits([FileNode([], 0)], [Link(0, name, 1)])
            && Replayed(EMPTY_ROOT + out.born, out.micros) == LogImage(name, [])
  {
    hide Parts, Resolve, Split, Replayed;
    NameAlone(EMPTY_ROOT, name);
    ReplayedSingle(EMPTY_ROOT + [FileNode([], 0)], Link(0, name, 1));
    var after := Applied(PaddedRoot(), Link(0, name, 1));
    assert after[0].entries == map[name := 1];
    assert after == LogImage(name, []);
    assert EMPTY_ROOT + [FileNode([], 0)] == PaddedRoot();
  }

  lemma StartIsEmpty()
    ensures FromTree(map[]) == EMPTY_ROOT
  {
    var none: Tree := map[];
    assert none.Keys == {};
  }

  lemma LogGrows(w: Workload, i: nat)
    requires IsWorkload(w) && i < |w.payloads|
    ensures LogAfter(w, i + 1) == LogAfter(w, i) + Encode(w.crc, w.checked, w.payloads[i])
  {
    hide Encode;
    assert w.payloads[..i + 1][..i] == w.payloads[..i];
  }

  ghost predicate WalAt(w: Workload, block: nat, k: nat)
    requires IsWorkload(w) && block > 0 && 1 <= k <= OpCount(w)
  {
    Run(WalTrace(w), block, k).Success? && Written(w, k) <= |w.payloads|
    && var s := Run(WalTrace(w), block, k).value;
    && s.view == LogImage(w.name, LogAfter(w, Written(w, k))) && s.base == PaddedRoot()
    && |s.marks| == Acknowledged(w, k) && |s.micro| > 0 && s.micro[0] == Link(0, w.name, 1)
    && forall j :: 1 <= j < |s.micro| ==> s.micro[j].Write? || s.micro[j].SetLen?
  }

  lemma WalFirst(w: Workload, block: nat)
    requires IsWorkload(w) && block > 0 && 1 <= OpCount(w)
    ensures WalAt(w, block, 1)
  {
    hide OutcomeOf, Replayed, FromTree, Encodings;
    StartIsEmpty();
    CreateStep(w.name, block);
    assert WalTrace(w).ops[0] == Op.Create(w.name);
    StepOf(WalTrace(w), block, 0);
    NothingToRead(w.crc, w.checked, []);
    assert w.payloads[..0] == [];
  }

  lemma WalNext(w: Workload, block: nat, k: nat)
    requires IsWorkload(w) && block > 0 && 1 <= k < OpCount(w) && WalAt(w, block, k)
    ensures WalAt(w, block, k + 1)
  {
    hide OutcomeOf, Replayed, FromTree, LogAfter, Encode, Run, AppendMicros;
    var op, i := WalTrace(w).ops[k], Written(w, k);
    assert op == FullOp(w, FullAt(w, k));
    var content := LogAfter(w, i);
    var s := Run(WalTrace(w), block, k).value;
    if op.Write? {
      var data := Encode(w.crc, w.checked, w.payloads[i]);
      AppendStep(w.name, content, data, block);
      AppendOutcome(w.name, content, data, block);
      AppendsAreData(content, data, block);
      LogGrows(w, i);
      assert Written(w, k + 1) == i + 1;
    } else {
      QuietStep(w.name, content, op, block);
    }
    assert s.base + [] == s.base;
    StepOf(WalTrace(w), block, k);
  }

  lemma QuietStep(name: string, content: seq<Byte>, op: Op, block: nat)
    requires ValidName(name) && block > 0
    requires op == Op.Fsync("") || op == Op.Fsync(name) || op.Mark?
    ensures OutcomeOf(LogImage(name, content), op, block) == Emits([], [])
    ensures Replayed(LogImage(name, content) + [], []) == LogImage(name, content)
  {
    hide Lookup, Replayed;
    LogLookup(name, content);
    NothingReplayed(LogImage(name, content));
  }

  lemma {:induction false} WalRuns(w: Workload, block: nat, k: nat)
    requires IsWorkload(w) && block > 0 && 1 <= k <= OpCount(w)
    ensures WalAt(w, block, k)
    decreases k
  {
    hide WalAt;
    if k == 1 {
      WalFirst(w, block);
    } else {
      WalRuns(w, block, k - 1);
      WalNext(w, block, k - 1);
    }
  }

  // ---------------------------------------------------- what each op emitted

  ghost predicate IsWal(w: Workload, profile: Profile, block: nat, p: Program) {
    IsWorkload(w) && Compiled(WalTrace(w), profile, block, p)
  }

  /** The program's view and bookkeeping after `k` ops. */
  lemma WalFacts(w: Workload, profile: Profile, block: nat, p: Program, k: nat)
    requires IsWal(w, profile, block, p) && k <= OpCount(w)
    ensures Shaped(p) && |p.opEnd| == OpCount(w) + 1 && p.base == PaddedRoot() && Written(w, k) <= |w.payloads|
    ensures Run(WalTrace(w), block, k).Success? && p.marksBefore[k] == Acknowledged(w, k) <= |w.payloads|
    ensures 1 <= k ==> StageOf(WalTrace(w), block, k).view == LogImage(w.name, LogAfter(w, Written(w, k)))
    ensures 1 <= k ==> Volatile(p, k) == LogImage(w.name, LogAfter(w, Written(w, k)))
    ensures |p.micro| > 0 && p.micro[0].m == Link(0, w.name, 1)
    ensures forall j :: 1 <= j < |p.micro| ==> !Touches(p.micro[j].m, 0, false)
  {
    hide Run, Replayed, FirstCover, LogAfter, Regular;
    VolatileIsView(WalTrace(w), profile, block, p, k);
    ProgramStages(WalTrace(w), profile, block, p, k);
    WalRuns(w, block, OpCount(w));
    var last := Run(WalTrace(w), block, OpCount(w)).value;
    assert Micros(p.micro) == last.micro;
    forall j | 1 <= j < |p.micro| ensures !Touches(p.micro[j].m, 0, false) {
      assert last.micro[j].Write? || last.micro[j].SetLen?;
    }
    if k == 0 {
      RunStart(WalTrace(w), block);
    } else {
      WalRuns(w, block, k);
      var v := LogImage(w.name, LogAfter(w, Written(w, k)));
      assert v + p.base[2..] == v;
    }
  }

  /** A micro-op of a later append lands past everything written by then. */
  ghost predicate PastEnd(m: Micro, end: nat) {
    && (m.Write? || m.SetLen?) && m.ino == 1
    && (m.Write? ==> m.offset >= end) && (m.SetLen? ==> m.len >= end && m.keepTail)
  }

  lemma AppendsArePastEnd(content: seq<Byte>, data: seq<Byte>, block: nat, m: Micro)
    requires block > 0 && m in AppendMicros(content, data, block)
    ensures PastEnd(m, |content|)
  {
    hide Chunks;
    ChunksAre(1, |content|, data, block);
  }

  /** Every micro-op but the first is about the log's data; those of op `i` lie past the log at `i`. */
  lemma WalMicro(w: Workload, profile: Profile, block: nat, p: Program, j: nat)
    requires IsWal(w, profile, block, p) && j < |p.micro|
    ensures p.micro[j].op < OpCount(w)
    ensures p.micro[j].op == 0 ==> p.micro[j].m == Link(0, w.name, 1)
    ensures p.micro[j].op > 0 ==>
              && Written(w, p.micro[j].op) <= |w.payloads|
              && PastEnd(p.micro[j].m, |LogAfter(w, Written(w, p.micro[j].op))|)
  {
    hide IsProgram, Run, OutcomeOf, LogAfter, Encode, Regular, AppendMicros, PastEnd;
    var trace := WalTrace(w);
    MicroIsEmitted(trace, profile, block, p, j);
    var i := p.micro[j].op;
    assert trace.ops[i] == FullOp(w, FullAt(w, i));
    if i == 0 {
      RunStart(trace, block);
      StartIsEmpty();
      CreateStep(w.name, block);
    } else {
      WalFacts(w, profile, block, p, i);
      var content := LogAfter(w, Written(w, i));
      if trace.ops[i].Write? {
        var data := Encode(w.crc, w.checked, w.payloads[Written(w, i)]);
        AppendOutcome(w.name, content, data, block);
        AppendsArePastEnd(content, data, block, p.micro[j].m);
      } else {
        QuietStep(w.name, content, trace.ops[i], block);
      }
    }
  }

  // --------------------------------------------------------- what a crash keeps

  /** Micro-ops past `end` leave the first `end` bytes of a file, and at least that length. */
  ghost predicate Keeps(before: Node, after: Node, end: nat) {
    && before.FileNode? && after.FileNode? && end <= after.len
    && forall x: nat :: x < end ==> ByteAt(after.buf, x) == ByteAt(before.buf, x)
  }

  lemma PastEndKeeps(n: Ino, before: Node, node: Node, m: Micro, end: nat)
    requires Keeps(before, node, end) && PastEnd(m, end)
    ensures Keeps(before, Effect(n, node, m), end)
  {
    hide Overlay;
    if m.Write? && m.ino == n {
      OverlayBytes(node.buf, m.offset, m.data);
    }
  }

  lemma {:induction false} TailKeeps(n: Ino, node: Node, ms: seq<Micro>, s: Persisted, m: nat, end: nat)
    requires m <= |s| <= |ms|
    requires NodeSurvive(n, node, ms, s[..m]).FileNode? && end <= NodeSurvive(n, node, ms, s[..m]).len
    requires forall j :: m <= j < |s| ==> PastEnd(ms[j], end)
    ensures Keeps(NodeSurvive(n, node, ms, s[..m]), NodeSurvive(n, node, ms, s), end)
  {
    hide PastEnd, Effect;
    if m == |s| {
      assert s[..m] == s;
    } else {
      var k := |s| - 1;
      assert s[..k][..m] == s[..m];
      TailKeeps(n, node, ms, s[..k], m, end);
      PastEndKeeps(n, NodeSurvive(n, node, ms, s[..m]), NodeSurvive(n, node, ms, s[..k]), ms[k], end);
    }
  }

  lemma LogsAscend(w: Workload, i: nat, j: nat)
    requires IsWorkload(w) && i <= j <= |w.payloads|
    ensures |LogAfter(w, i)| <= |LogAfter(w, j)|
    decreases j
  {
    hide LogAfter, Encode;
    if i < j {
      LogsAscend(w, i, j - 1);
      LogGrows(w, j - 1);
    }
  }

  /** The fsync at op `f` makes everything written before it durable. */
  lemma FsyncedSoFar(w: Workload, profile: Profile, block: nat, p: Program, point: nat, s: Persisted, f: nat, j: nat)
    requires IsWal(w, profile, block, p) && w.synced && Legal(p, point, s) && 3 <= f < point <= OpCount(w) && f % 3 == 0
    requires j < |s| && 0 < p.micro[j].op < f
    ensures s[j]
  {
    hide Run, IsProgram, LogAfter, MetaInOrder, DataBeforeSize, DataBeforeReplace, FirstCover, Lookup;
    WalMicro(w, profile, block, p, j);
    WalFacts(w, profile, block, p, f);
    LogLookup(w.name, LogAfter(w, Written(w, f)));
    assert WalTrace(w).ops[f] == FullOp(w, f);
    CoveredIsDurable(WalTrace(w), profile, block, p, f, j);
  }

  /** The directory entry is durable from op 1, so past it the root holds the log in every state. */
  lemma LogIsLinked(w: Workload, profile: Profile, block: nat, p: Program, point: nat, s: Persisted)
    requires IsWal(w, profile, block, p) && w.synced && Legal(p, point, s) && 2 <= point <= OpCount(w)
    ensures |CrashImage(p, s)| == 2 && CrashImage(p, s)[0] == DirNode(map[w.name := 1])
  {
    hide Run, IsProgram, LogAfter, MetaInOrder, DataBeforeSize, DataBeforeReplace, FirstCover, Lookup, CrashImage,
      Volatile;
    WalFacts(w, profile, block, p, 1);
    WalFacts(w, profile, block, p, point);
    LogLookup(w.name, LogAfter(w, 0));
    assert WalTrace(w).ops[1] == FullOp(w, 1);
    forall j | 0 <= j < |s| && Touches(p.micro[j].m, 0, false) ensures s[j] {
      WalMicro(w, profile, block, p, j);
      CoveredIsDurable(WalTrace(w), profile, block, p, 1, j);
    }
    NothingLostNothingChanged(p, point, s, 0);
  }

  /** The log's node in a crash state after `a` acknowledgements begins with the first `a` records. */
  lemma LogIsKept(w: Workload, profile: Profile, block: nat, p: Program, point: nat, s: Persisted, a: nat)
    requires IsWal(w, profile, block, p) && w.synced && Legal(p, point, s) && 0 < a && 3 * a + 1 < point <= OpCount(w)
    ensures |CrashImage(p, s)| == 2 && a <= |w.payloads|
    ensures Keeps(FileNode(LogAfter(w, a), |LogAfter(w, a)|), CrashImage(p, s)[1], |LogAfter(w, a)|)
  {
    hide Run, IsProgram, LogAfter, Legal, NodeSurvive, PastEnd, Survive, Keeps, Replayed;
    var f := 3 * a;
    WalFacts(w, profile, block, p, f);
    LegalSize(p, point, s);
    OpEndsAscend(WalTrace(w), profile, block, p, f, point);
    var ms, m := Micros(p.micro), p.opEnd[f];
    SurviveIsNodewise(p.base, ms, s, 1);
    NodeAtFsync(w, profile, block, p, point, s, a);
    forall j | m <= j < |s| ensures PastEnd(ms[j], |LogAfter(w, a)|) {
      WalMicro(w, profile, block, p, j);
      OwnerOf(WalTrace(w), profile, block, p, f, j);
      LogsAscend(w, a, Written(w, p.micro[j].op));
      PastShorterEnd(ms[j], |LogAfter(w, a)|, |LogAfter(w, Written(w, p.micro[j].op))|);
    }
    TailKeeps(1, p.base[1], ms, s, m, |LogAfter(w, a)|);
  }

  lemma PastShorterEnd(m: Micro, end: nat, further: nat)
    requires PastEnd(m, further) && end <= further
    ensures PastEnd(m, end)
  {
  }

  lemma NodeAtFsync(w: Workload, profile: Profile, block: nat, p: Program, point: nat, s: Persisted, a: nat)
    requires IsWal(w, profile, block, p) && w.synced && Legal(p, point, s) && 0 < a && 3 * a + 1 < point <= OpCount(w)
    requires Shaped(p) && |p.opEnd| == OpCount(w) + 1 && p.opEnd[3 * a] <= |s| <= |p.micro|
    ensures a <= |w.payloads| && |p.base| == 2
    ensures NodeSurvive(1, p.base[1], Micros(p.micro), s[..p.opEnd[3 * a]]) ==
            FileNode(LogAfter(w, a), |LogAfter(w, a)|)
  {
    hide Run, IsProgram, LogAfter, Legal, NodeSurvive, PastEnd, Survive, Replayed, Shaped;
    var f := 3 * a;
    WalFacts(w, profile, block, p, f);
    var ms, m := Micros(p.micro), p.opEnd[f];
    forall j | 0 <= j < m && Touches(ms[j], 1, true) ensures s[..m][j] == Prefix(m, m)[j] {
      WalMicro(w, profile, block, p, j);
      OwnerOf(WalTrace(w), profile, block, p, f, j);
      FsyncedSoFar(w, profile, block, p, point, s, f, j);
    }
    NodeDependsOnTouches(1, p.base[1], ms, s[..m], Prefix(m, m));
    SurvivePrefix(p.base, ms, m, m);
    SurviveIsNodewise(p.base, ms, Prefix(m, m), 1);
  }

  /** What a reader finds in the log after a crash; nothing if the log is not there. */
  ghost function LogIn(tree: Tree, name: string): seq<Byte> {
    if name in tree && tree[name].File? then tree[name].data else []
  }

  lemma LogInCrash(p: Program, s: Persisted, name: string)
    requires Shaped(p) && |s| <= |p.micro| && |CrashImage(p, s)| == 2
    requires CrashImage(p, s)[0] == DirNode(map[name := 1]) && CrashImage(p, s)[1].FileNode?
    ensures CrashTree(p, s) == map[name := File(Content(CrashImage(p, s)[1]))]
  {
    hide CrashImage, Content, ToTree;
    CrashImageIsClosed(p, s);
    FlatTree(CrashImage(p, s));
  }

  lemma KeptContent(before: seq<Byte>, after: Node)
    requires Keeps(FileNode(before, |before|), after, |before|)
    ensures before <= Content(after)
  {
    ResizeBytes(after.buf, after.len);
    forall x: nat | x < |before| ensures Content(after)[x] == before[x] {
      assert ByteAt(after.buf, x) == ByteAt(before, x);
    }
  }

  /** Durability of the log: for any records, any block size and either profile, every legal crash
      state of the workload reads back as a sequence that begins with every acknowledged record. */
  lemma AcknowledgedRecordsSurvive(w: Workload, profile: Profile, block: nat, p: Program, point: nat, s: Persisted)
    requires IsWal(w, profile, block, p) && w.synced && Legal(p, point, s)
    ensures Shaped(p) && point < |p.marksBefore| && p.marksBefore[point] <= |w.payloads|
    ensures w.payloads[..p.marksBefore[point]] <= ReadFrom(w.crc, w.checked, LogIn(CrashTree(p, s), w.name), 0).0
  {
    hide IsProgram, Legal, Run, LogAfter, CrashImage, Keeps, CrashTree, ReadFrom, Volatile, Content;
    ProgramIsShaped(WalTrace(w), profile, block, p);
    LegalSize(p, point, s);
    var a := Acknowledged(w, point);
    WalFacts(w, profile, block, p, point);
    if a > 0 {
      LogIsLinked(w, profile, block, p, point, s);
      LogIsKept(w, profile, block, p, point, s, a);
      KeptIsFile(FileNode(LogAfter(w, a), |LogAfter(w, a)|), CrashImage(p, s)[1], |LogAfter(w, a)|);
      LogInCrash(p, s, w.name);
      KeptContent(LogAfter(w, a), CrashImage(p, s)[1]);
      RecordsRead(w, a, LogIn(CrashTree(p, s), w.name));
    }
  }

  lemma KeptIsFile(before: Node, after: Node, end: nat)
    requires Keeps(before, after, end)
    ensures after.FileNode?
  {
  }

  lemma RecordsRead(w: Workload, a: nat, log: seq<Byte>)
    requires IsWorkload(w) && a <= |w.payloads| && LogAfter(w, a) <= log
    ensures w.payloads[..a] <= ReadFrom(w.crc, w.checked, log, 0).0
  {
    hide ReadFrom, Encodings;
    assert log[0..] == log;
    ReadsWhatWasWritten(w.crc, w.checked, log, 0, w.payloads[..a]);
  }

  // ---------------------------------------------------------- exactly, on ext4

  /** A view that holds the first `i` records reads back as exactly them. */
  lemma LogImageReads(w: Workload, i: nat)
    requires IsWorkload(w) && i <= |w.payloads|
    ensures var log := LogIn(ToTree(LogImage(w.name, LogAfter(w, i))), w.name);
            ReadFrom(w.crc, w.checked, log, 0).0 == w.payloads[..i]
  {
    hide LogAfter, ReadFrom, ToTree, Encodings;
    var content := LogAfter(w, i);
    var v := LogImage(w.name, content);
    FlatTree(v);
    WholeResize(content);
    assert content[0..] == content;
    LogAfterIs(w, i);
    ReadsExactly(w.crc, w.checked, content, 0, w.payloads[..i]);
  }

  lemma WholeResize(content: seq<Byte>)
    ensures Resize(content, |content|) == content
  {
  }

  lemma LogAfterIs(w: Workload, i: nat)
    requires IsWorkload(w) && i <= |w.payloads|
    ensures LogAfter(w, i) == Encodings(w.crc, w.checked, w.payloads[..i])
  {
  }

  lemma EmptyRootReads(w: Workload)
    requires IsWorkload(w)
    ensures var log := LogIn(ToTree(EMPTY_ROOT), w.name);
            ReadFrom(w.crc, w.checked, log, 0).0 == w.payloads[..0]
  {
    hide ReadFrom, ToTree;
    FlatTree(EMPTY_ROOT);
    NothingToRead(w.crc, w.checked, []);
  }

  lemma WalAppends(w: Workload, block: nat)
    requires IsWorkload(w) && block > 0
    ensures AppendsOnly(WalTrace(w), block)
  {
    hide Run, LogAfter, Lookup;
    forall k | 0 <= k < OpCount(w) && WalTrace(w).ops[k].Write?
      ensures Run(WalTrace(w), block, k).Success?
      ensures LengthAt(StageOf(WalTrace(w), block, k).view, w.name) == WalTrace(w).ops[k].offset
    {
      assert WalTrace(w).ops[k] == FullOp(w, FullAt(w, k));
      WalRuns(w, block, k);
      LogLookup(w.name, LogAfter(w, Written(w, k)));
    }
  }

  /** What a crash state reads back as is what the run had written after some number of records. */
  ghost predicate ReadsAsFirst(w: Workload, tree: Tree, i: nat) {
    i <= |w.payloads| && ReadFrom(w.crc, w.checked, LogIn(tree, w.name), 0).0 == w.payloads[..i]
  }

  /** On ext4 the log reads back as exactly the first records, all acknowledged ones among them, whatever
      the checksum, even without one, and even without the fsync of the directory: an fsync of the log
      commits its entry too. */
  lemma Ext4ReadsAPrefix(w: Workload, block: nat, p: Program, point: nat, s: Persisted) returns (i: nat)
    requires IsWal(w, Ext4Ordered, block, p) && Legal(p, point, s)
    ensures Shaped(p) && point < |p.marksBefore| && p.marksBefore[point] <= i
    ensures ReadsAsFirst(w, CrashTree(p, s), i)
  {
    hide IsProgram, Legal, Run, LogAfter, CrashImage, CrashTree, ReadFrom, ToTree, Volatile, AppendsOnly;
    ProgramIsShaped(WalTrace(w), Ext4Ordered, block, p);
    LegalSize(p, point, s);
    WalAppends(w, block);
    var k := Ext4AppendsAreAPrefix(WalTrace(w), block, p, point, s);
    WalFacts(w, Ext4Ordered, block, p, point);
    WalFacts(w, Ext4Ordered, block, p, k);
    i := Written(w, k);
    if k == 0 {
      RunStart(WalTrace(w), block);
      StartIsEmpty();
      EmptyRootReads(w);
    } else {
      LogImageReads(w, i);
    }
    var a := Acknowledged(w, point);
    if a > 0 {
      assert WalTrace(w).ops[3 * a - Gap(w)] == FullOp(w, 3 * a);
    }
  }
}
