/** Repairing a log after a crash, and crashing the repair. */
module Repair {
  import opened Wrappers
  import opened Trace
  import opened Paths
  import opened FileSystem
  import opened Walk
  import opened Namespace
  import opened Locality
  import opened Runs
  import opened Stages
  import opened Crash
  import opened Enumerate
  import opened Durability
  import opened Ordered
  import opened Reference
  import opened Promises
  import opened LogFormat
  import opened Wal

  /** What recovery starts from: some tree with a log in it. */
  datatype Torn = Torn(tree: Tree, path: string, crc: Checksum)

  ghost predicate HasLog(t: Torn) {
    t.path in t.tree && t.tree[t.path].File?
  }

  function LogBytes(t: Torn): seq<Byte> {
    if t.path in t.tree && t.tree[t.path].File? then t.tree[t.path].data else []
  }

  /** The end of the last valid record. */
  function ValidEnd(t: Torn): (v: nat)
    ensures v <= |LogBytes(t)|
  {
    ReadFrom(t.crc, true, LogBytes(t), 0).1
  }

  ghost function Records(t: Torn, tree: Tree): seq<seq<Byte>> {
    ReadFrom(t.crc, true, LogIn(tree, t.path), 0).0
  }

  /** The ops of a repair: none if the tail is sound; otherwise cut it off, or start over. */
  function RepairOps(t: Torn, safe: bool): seq<Op> {
    var bytes, valid := LogBytes(t), ValidEnd(t);
    if valid == |bytes| then []
    else if safe then [Op.Truncate(t.path, valid), Op.Fsync(t.path)]
    else if valid == 0 then [Op.Truncate(t.path, 0), Op.Fsync(t.path)]
    else [Op.Truncate(t.path, 0), Op.Write(t.path, 0, bytes[..valid]), Op.Fsync(t.path)]
  }

  function RepairTrace(t: Torn, safe: bool): Trace {
    Trace(t.tree, RepairOps(t, safe))
  }

  ghost predicate IsRepair(t: Torn, safe: bool, profile: Profile, block: nat, p: Program) {
    WellFormed(t.tree) && Compiled(RepairTrace(t, safe), profile, block, p)
  }

  /** The repair keeps the records in every legal state of a crash during it. */
  ghost predicate SurvivesACrash(t: Torn, p: Program)
    requires Shaped(p)
  {
    forall point, s :: Legal(p, point, s) ==> Records(t, CrashTree(p, s)) == Records(t, t.tree)
  }

  // ------------------------------------------------------------------- basics

  lemma TornLogExists(t: Torn)
    requires ValidEnd(t) < |LogBytes(t)|
    ensures HasLog(t)
  {
    hide ReadFrom;
  }

  lemma RepairIsNormal(t: Torn, safe: bool)
    requires WellFormed(t.tree)
    ensures IsNormalTrace(RepairTrace(t, safe))
  {
    hide Normal, ReadFrom;
  }

  /** When at most one micro-op, from the first op, was emitted, a crash leaves the tree before or
      after that op. */
  lemma BeforeOrAfterFirst(trace: Trace, profile: Profile, block: nat, p: Program, point: nat, s: Persisted)
    requires Compiled(trace, profile, block, p) && IsNormalTrace(trace) && Legal(p, point, s)
    requires |trace.ops| > 0 && |p.opEnd| == |trace.ops| + 1 && p.opEnd[0] == 0 && p.opEnd[1] == |p.micro| == 1
    ensures Shaped(p) && TreeAfter(trace, 1).Success?
    ensures CrashTree(p, s) == trace.initial || CrashTree(p, s) == TreeAt(trace, 1)
  {
    hide IsProgram, Run, IsNormalTrace, ToTree, Closed, Volatile, Tidy, CrashTree, Step;
    LegalSize(p, point, s);
    OpEndsAscend(trace, profile, block, p, 0, point);
    CutStateIsReference(trace, profile, block, p, 0, point);
    CutStateIsReference(trace, profile, block, p, 1, 1);
    if point > 0 {
      OpEndsAscend(trace, profile, block, p, 1, point);
      CutStateIsReference(trace, profile, block, p, 1, point);
    }
    if s == [] || !s[0] {
      assert s == Prefix(0, p.opEnd[point]);
    } else {
      assert s == Prefix(1, p.opEnd[point]);
    }
  }

  lemma TruncatedRecords(t: Torn, cut: nat)
    requires HasLog(t) && cut == ValidEnd(t)
    ensures Records(t, t.tree[t.path := File(Resize(LogBytes(t), cut))]) == Records(t, t.tree)
  {
    hide ReadFrom;
    CutKeepsRecords(t.crc, true, LogBytes(t), 0, cut);
  }

  /** A single truncation to the end of the valid records, then an fsync. */
  lemma CuttingSurvives(t: Torn, profile: Profile, block: nat, p: Program, trace: Trace)
    requires WellFormed(t.tree) && HasLog(t) && Compiled(trace, profile, block, p) && ValidEnd(t) < |LogBytes(t)|
    requires trace == Trace(t.tree, [Op.Truncate(t.path, ValidEnd(t)), Op.Fsync(t.path)])
    ensures Shaped(p) && SurvivesACrash(t, p)
  {
    hide IsProgram, Run, ToTree, Closed, Volatile, Tidy, CrashTree, KeepsDurable, MetaInOrder, DataBeforeSize,
      DataBeforeReplace, Records, OutcomeOf, ReadFrom, Normal, Resize, HasLog, ValidEnd;
    LogPathIsNormal(t);
    ProgramIsShaped(trace, profile, block, p);
    OneMicro(trace, profile, block, p);
    forall point, s | Legal(p, point, s) ensures Records(t, CrashTree(p, s)) == Records(t, t.tree) {
      BeforeOrAfterFirst(trace, profile, block, p, point, s);
      FirstTree(t, trace);
      TruncatedRecords(t, ValidEnd(t));
    }
  }

  lemma LogPathIsNormal(t: Torn)
    requires WellFormed(t.tree) && HasLog(t)
    ensures Normal(t.path) && t.path != ""
  {
    hide Normal;
  }

  lemma FirstTree(t: Torn, trace: Trace)
    requires WellFormed(t.tree) && HasLog(t) && trace.initial == t.tree && |trace.ops| > 0
             && trace.ops[0].Truncate? && trace.ops[0].path == t.path
    requires TreeAfter(trace, 1).Success?
    ensures TreeAt(trace, 1) == t.tree[t.path := File(Resize(LogBytes(t), trace.ops[0].len))]
  {
    hide Resize, Normal;
    assert TreeAfter(trace, 0) == Success(t.tree);
    assert t.path != "";
  }

  /** A truncation emits one micro-op, and an fsync none. */
  lemma OneMicro(trace: Trace, profile: Profile, block: nat, p: Program)
    requires Compiled(trace, profile, block, p) && |trace.ops| == 2 && trace.ops[0].Truncate? && trace.ops[1].Fsync?
    ensures |p.opEnd| == 3 && p.opEnd[0] == 0 && p.opEnd[1] == |p.micro| == 1
  {
    hide IsProgram, Run, Lookup, FileAt, Regular;
    OpMicros(trace, profile, block, p, 0);
    OpMicros(trace, profile, block, p, 1);
    ProgramIsShaped(trace, profile, block, p);
    FirstEnd(trace, profile, block, p);
    assert |Micros(p.micro)[p.opEnd[0]..p.opEnd[1]]| == 1;
    assert |Micros(p.micro)[p.opEnd[1]..p.opEnd[2]]| == 0;
  }

  // ------------------------------------------------------------ the two repairs

  /** With nothing to do, a crash during the repair changes nothing. */
  lemma NoRepairNoChange(t: Torn, profile: Profile, block: nat, p: Program)
    requires WellFormed(t.tree) && Compiled(Trace(t.tree, []), profile, block, p)
    ensures Shaped(p) && SurvivesACrash(t, p)
  {
    hide IsProgram, Run, CrashTree, KeepsDurable, MetaInOrder, DataBeforeSize, DataBeforeReplace, Records, WellFormed;
    var trace := Trace(t.tree, []);
    ProgramIsShaped(trace, profile, block, p);
    FirstEnd(trace, profile, block, p);
    CutStateIsReference(trace, profile, block, p, 0, 0);
    forall point, s | Legal(p, point, s) ensures Records(t, CrashTree(p, s)) == Records(t, t.tree) {
      assert s == Prefix(0, 0);
    }
  }

  /** Truncating repair: crashing it anywhere leaves the same records, under either profile. */
  lemma TruncatingRepairSurvives(t: Torn, profile: Profile, block: nat, p: Program)
    requires IsRepair(t, true, profile, block, p)
    ensures Shaped(p) && SurvivesACrash(t, p)
  {
    hide IsProgram, SurvivesACrash, Shaped, WellFormed, ReadFrom, ValidEnd;
    if ValidEnd(t) == |LogBytes(t)| {
      NoRepairNoChange(t, profile, block, p);
    } else {
      TornLogExists(t);
      CuttingSurvives(t, profile, block, p, RepairTrace(t, true));
    }
  }

  lemma SomeRecordSomeEnd(crc: Checksum, log: seq<Byte>)
    ensures ReadFrom(crc, true, log, 0).0 == [] <==> ReadFrom(crc, true, log, 0).1 == 0
    ensures log == [] ==> ReadFrom(crc, true, log, 0) == ([], 0)
  {
    hide FromLe32;
  }

  /** Starting over passes through a legal state in which every record is gone. */
  lemma RewritingLosesAll(t: Torn, profile: Profile, block: nat, p: Program) returns (s: Persisted)
    requires IsRepair(t, false, profile, block, p) && 0 < ValidEnd(t) < |LogBytes(t)|
    ensures Shaped(p) && Legal(p, 1, s) && Records(t, CrashTree(p, s)) == [] && Records(t, t.tree) != []
  {
    hide IsProgram, CrashTree, ReadFrom, WellFormed, Run, Normal, Resize, Step;
    var trace := RepairTrace(t, false);
    TornLogExists(t);
    LogPathIsNormal(t);
    RepairIsNormal(t, false);
    ProgramIsShaped(trace, profile, block, p);
    CutStateIsReference(trace, profile, block, p, 1, 1);
    s := Prefix(p.opEnd[1], p.opEnd[1]);
    FirstTree(t, trace);
    NothingLeft(LogBytes(t));
    SomeRecordSomeEnd(t.crc, []);
    SomeRecordSomeEnd(t.crc, LogBytes(t));
  }

  lemma NothingLeft(data: seq<Byte>)
    ensures Resize(data, 0) == []
  {
  }

  /** Rewriting repair survives a crash exactly when there is nothing to repair or nothing to keep. */
  lemma RewritingRepairSurvivesIff(t: Torn, profile: Profile, block: nat, p: Program)
    requires IsRepair(t, false, profile, block, p)
    ensures Shaped(p) && (SurvivesACrash(t, p) <==> ValidEnd(t) == 0 || ValidEnd(t) == |LogBytes(t)|)
  {
    hide IsProgram, Shaped, WellFormed, ReadFrom, ValidEnd, Records, CrashTree, Legal;
    if ValidEnd(t) == |LogBytes(t)| {
      NoRepairNoChange(t, profile, block, p);
    } else if ValidEnd(t) == 0 {
      TornLogExists(t);
      CuttingSurvives(t, profile, block, p, RepairTrace(t, false));
    } else {
      var s := RewritingLosesAll(t, profile, block, p);
      LegalSize(p, 1, s);
    }
  }

  // ------------------------------------------------------------ crashing twice

  /** What recovery finds after a crash of the workload. */
  ghost function AfterCrash(w: Workload, p: Program, s: Persisted): Torn
    requires Shaped(p) && |s| <= |p.micro|
  {
    Torn(CrashTree(p, s), w.name, w.crc)
  }

  lemma WalIsNormal(w: Workload)
    requires IsWorkload(w)
    ensures IsNormalTrace(WalTrace(w))
  {
    hide Parts, LogAfter, Encode;
    JoinSplits("", w.name);
    forall i | 0 <= i < |WalTrace(w).ops| ensures IsNormalOp(WalTrace(w).ops[i]) {
      assert WalTrace(w).ops[i] == FullOp(w, FullAt(w, i));
    }
  }

  /** Two crashes, the second during truncating recovery from the first, still lose no acknowledged
      record. */
  lemma AcknowledgedRecordsSurviveTwice(w: Workload, profile: Profile, block: nat, p: Program, point: nat, s: Persisted,
                                        profile2: Profile, block2: nat, p2: Program, point2: nat, s2: Persisted)
    requires IsWal(w, profile, block, p) && Legal(p, point, s) && w.checked && Shaped(p)
    requires w.synced || profile == Ext4Ordered
    requires IsRepair(AfterCrash(w, p, s), true, profile2, block2, p2) && Legal(p2, point2, s2)
    ensures Shaped(p2) && point < |p.marksBefore| && p.marksBefore[point] <= |w.payloads|
    ensures w.payloads[..p.marksBefore[point]] <= ReadFrom(w.crc, true, LogIn(CrashTree(p2, s2), w.name), 0).0
  {
    hide IsProgram, CrashTree, ReadFrom, WellFormed, MetaInOrder, DataBeforeSize, DataBeforeReplace, KeepsDurable;
    if w.synced {
      AcknowledgedRecordsSurvive(w, profile, block, p, point, s);
    } else {
      var i := Ext4ReadsAPrefix(w, block, p, point, s);
    }
    TruncatingRepairSurvives(AfterCrash(w, p, s), profile2, block2, p2);
    assert Records(AfterCrash(w, p, s), CrashTree(p2, s2)) == Records(AfterCrash(w, p, s), CrashTree(p, s));
  }

  /** And recovery can always start: what the first crash left is a well-formed snapshot. */
  lemma RecoveryCanStart(w: Workload, profile: Profile, block: nat, p: Program, point: nat, s: Persisted)
    requires IsWal(w, profile, block, p) && Legal(p, point, s)
    ensures Shaped(p) && WellFormed(AfterCrash(w, p, s).tree)
  {
    hide IsProgram, CrashTree, WellFormed, MetaInOrder, DataBeforeSize, DataBeforeReplace, KeepsDurable, IsNormalTrace;
    WalIsNormal(w);
    CrashTreesAreSnapshots(WalTrace(w), profile, block, p, s);
  }
}
