/** Why a double crash is not always judged by the marks of its own first crash. */
module Twice {
  import opened Wrappers
  import opened Trace
  import opened Snapshot
  import opened Runs
  import opened Stages
  import opened Compiler
  import opened Locality
  import opened Crash
  import opened Enumerate
  import opened Explorer
  import opened Check
  import opened Durability
  import opened Ordered
  import opened Reference
  import opened Replay
  import opened Promises
  import opened Tool
  import opened Recovery

  /** A file that must not be empty once anything was acknowledged, and a recovery that rewrites it. */
  const KEPT: Tree := map["f" := File([1])]

  const REWRITING: Trace := Trace(KEPT, [Op.Truncate("f", 0), Op.Write("f", 0, [1]), Op.Fsync("f")])

  function Rewrite(tree: Tree): Recovered {
    if tree == KEPT then Recovered(Success(REWRITING), KEPT) else Recovered(Success(Trace(tree, [])), tree)
  }

  function NeedsFile(tree: Tree, marks: seq<string>): Verdict {
    if marks == [] || tree == KEPT then Accepted else Rejected("acknowledged data lost")
  }

  const ACKED: Trace := Trace(KEPT, [Op.Mark("kept")])

  lemma KeptIsWellFormed()
    ensures WellFormed(KEPT) && Paths.Normal("f")
  {
    hide Paths.Parts, Paths.LastSlash, Paths.Normal, Paths.Split;
    assert Paths.Join("", "f") == "f" && Paths.ValidName("f");
    Paths.JoinSplits("", "f");
    Paths.EmptyHasNoPieces();
    forall path | path in KEPT ensures path == "f" {}
  }

  lemma RewritesNormally()
    ensures IsNormalTrace(ACKED) && IsNormalTrace(REWRITING) && RecoversNormally(Rewrite)
  {
    hide Paths.Normal, WellFormed;
    KeptIsWellFormed();
  }

  lemma AckedStates(profile: Profile, block: nat, p: Program, point: nat, s: Persisted)
    requires Compiled(ACKED, profile, block, p) && Legal(p, point, s)
    ensures Shaped(p) && CrashTree(p, s) == KEPT && point <= 1
  {
    hide IsProgram, CrashTree, KeepsDurable, MetaInOrder, DataBeforeSize, DataBeforeReplace, Run, Paths.Normal,
      WellFormed;
    KeptIsWellFormed();
    ProgramIsShaped(ACKED, profile, block, p);
    OpMicros(ACKED, profile, block, p, 0);
    FirstEnd(ACKED, profile, block, p);
    CutStateIsReference(ACKED, profile, block, p, 0, 0);
    assert |Micros(p.micro)[p.opEnd[0]..p.opEnd[1]]| == 0;
    assert s == Prefix(0, 0);
  }

  lemma AckedMarks(profile: Profile, block: nat, p: Program)
    requires Compiled(ACKED, profile, block, p)
    ensures Shaped(p) && |p.opEnd| == 2 && p.opEnd[1] <= |p.micro|
    ensures p.marks[..p.marksBefore[0]] == [] && p.marks[..p.marksBefore[1]] == ["kept"]
  {
    hide FirstCover, FromTree;
    ProgramIsShaped(ACKED, profile, block, p);
    RunStart(ACKED, block);
    StepOf(ACKED, block, 0);
    ProgramStages(ACKED, profile, block, p, 0);
    ProgramStages(ACKED, profile, block, p, 1);
  }

  /** Either crash leaves the file, and leads to the same recovery. */
  lemma AckedLeadsToRewriting(profile: Profile, block: nat, p: Program, point: nat)
    requires Compiled(ACKED, profile, block, p) && point <= 1
    ensures Shaped(p) && |p.opEnd| == 2 && RecoveredBy(p, Rewrite, point, FullyPersisted(p, point), REWRITING)
  {
    hide IsProgram, CrashTree, Legal;
    AckedMarks(profile, block, p);
    FullyPersistedIsLegal(p, point);
    AckedStates(profile, block, p, point, FullyPersisted(p, point));
  }

  /** The only recovery is the rewriting, and it is first met before the mark. */
  lemma FirstIsUnmarked(profile: Profile, block: nat, p: Program, trace: Trace, first: nat)
    requires Compiled(ACKED, profile, block, p) && Shaped(p) && IsEarliest(p, Rewrite, trace, first)
    ensures trace == REWRITING && first == 0 && p.marksBefore[0] <= |p.marks| && p.marks[..p.marksBefore[first]] == []
  {
    hide IsProgram, CrashTree, KeepsDurable, MetaInOrder, DataBeforeSize, DataBeforeReplace;
    var s :| RecoveredBy(p, Rewrite, first, s, trace);
    AckedStates(profile, block, p, first, s);
    AckedLeadsToRewriting(profile, block, p, 0);
    AckedMarks(profile, block, p);
  }

  /** Halfway through the rewrite the file is empty. */
  lemma RewriteCanBeCut(profile: Profile, block: nat, q: Program) returns (s: Persisted)
    requires Compiled(REWRITING, profile, block, q)
    ensures Shaped(q) && Legal(q, 1, s) && CrashTree(q, s) == KEPT["f" := File([])]
  {
    hide IsProgram, CrashTree, Run, Paths.Normal, WellFormed;
    RewritesNormally();
    ProgramIsShaped(REWRITING, profile, block, q);
    CutStateIsReference(REWRITING, profile, block, q, 1, 1);
    s := Prefix(q.opEnd[1], q.opEnd[1]);
    assert TreeAfter(REWRITING, 0) == Success(KEPT);
    assert Resize([1], 0) == [];
  }

  lemma RewritingCompiles(profile: Profile, block: nat) returns (q: Program)
    requires block > 0
    ensures Compiled(REWRITING, profile, block, q) && Shaped(q)
  {
    hide IsProgram, Run, Paths.Normal, WellFormed;
    RewritesNormally();
    RunRefines(REWRITING, block, 3);
    RewritingReplays();
    ProgramExists(REWRITING, profile, block);
    q :| Compiled(REWRITING, profile, block, q);
    ProgramIsShaped(REWRITING, profile, block, q);
  }

  lemma RewritingReplays()
    ensures TreeAfter(REWRITING, 3).Success?
  {
    hide Paths.Normal, WellFormed;
    assert TreeAfter(REWRITING, 0) == Success(KEPT);
    assert TreeAfter(REWRITING, 1).Success? && "f" in TreeAfter(REWRITING, 1).value;
  }

  /** The recovery of both crashes is the same, and is first met before the mark. Explored with no marks
      it is never rejected: every complete search reports nothing. Yet after the mark a second crash, in
      the middle of the recovery, loses what was acknowledged. */
  lemma OwnMarksCanBeMissed(options: Options, p: Program)
    requires Compiled(ACKED, options.profile, BlockSize(options.blockSize), p)
    ensures Shaped(p) && IsNormalTrace(ACKED) && RecoversNormally(Rewrite)
    ensures AcceptedOnce(p, Rewrite, NeedsFile) && AcceptedByFirst(p, options, Rewrite, NeedsFile)
    ensures !AcceptedByOwn(p, options, Rewrite, NeedsFile) && !SameMarks(p, Rewrite) && StartsFromGiven(Rewrite)
  {
    hide IsProgram, CrashTree, KeepsDurable, MetaInOrder, DataBeforeSize, DataBeforeReplace, RecoveredBy, IsEarliest;
    var profile, block := options.profile, BlockSize(options.blockSize);
    RewritesNormally();
    AckedMarks(profile, block, p);
    forall point: nat, t | Legal(p, point, t)
      ensures |t| <= |p.micro| && point < |p.marksBefore| && p.marksBefore[point] <= |p.marks|
      ensures AcceptedAfter(Rewrite, NeedsFile, p, t, p.marks[..p.marksBefore[point]])
    {
      ShapedBounds(p, point);
      AckedStates(profile, block, p, point, t);
    }
    forall point: nat, s, trace, q, point2: nat, s2, first: nat |
      IsDouble(p, options, Rewrite, point, s, trace, q, point2, s2) && IsEarliest(p, Rewrite, trace, first)
      ensures first < |p.marksBefore| && p.marksBefore[first] <= |p.marks| && |s2| <= |q.micro|
      ensures AcceptedAfter(Rewrite, NeedsFile, q, s2, p.marks[..p.marksBefore[first]])
    {
      FirstIsUnmarked(profile, block, p, trace, first);
    }
    OwnMarksReject(options, p);
    AckedLeadsToRewriting(profile, block, p, 0);
    AckedLeadsToRewriting(profile, block, p, 1);
    assert p.marks[..p.marksBefore[0]] != p.marks[..p.marksBefore[1]] && !REWRITING.ops[0].Mark?;
  }

  lemma OwnMarksReject(options: Options, p: Program)
    requires Compiled(ACKED, options.profile, BlockSize(options.blockSize), p)
    ensures Shaped(p) && !AcceptedByOwn(p, options, Rewrite, NeedsFile)
  {
    hide IsProgram, CrashTree, KeepsDurable, MetaInOrder, DataBeforeSize, DataBeforeReplace, RecoveredBy;
    var profile, block := options.profile, BlockSize(options.blockSize);
    AckedMarks(profile, block, p);
    AckedLeadsToRewriting(profile, block, p, 1);
    var q := RewritingCompiles(profile, block);
    var s2 := RewriteCanBeCut(profile, block, q);
    assert IsDouble(p, options, Rewrite, 1, FullyPersisted(p, 1), REWRITING, q, 1, s2);
    assert KEPT["f" := File([])]["f"] != KEPT["f"];
    assert !AcceptedAfter(Rewrite, NeedsFile, q, s2, p.marks[..p.marksBefore[1]]);
  }
}
