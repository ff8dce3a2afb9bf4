/** The tool from end to end: a trace, a profile and a checker in, a report out. */
module Tool {
  import opened Wrappers
  import opened Trace
  import opened Runs
  import opened Compiler
  import opened Crash
  import opened Enumerate
  import opened Explorer
  import opened Check
  import opened Durability
  import opened Reference
  import opened Replay

  datatype Options = Options(profile: Profile, blockSize: nat, search: Search, maxStates: nat, explain: nat)

  /** What a report says about the program it is about. */
  ghost predicate Answers(report: Report, p: Program, options: Options, checker: Checker)
    requires Shaped(p)
  {
    && Total(report.groups) <= report.failures <= report.states <= options.maxStates
    && Counts(p, checker, report.failures, !report.truncated && Exhaustive(p, options.search))
    && (report.failures > 0 ==> exists point, s :: Fails(p, checker, point, s))
    && (!report.truncated && Exhaustive(p, options.search) ==> (report.failures == 0 <==> AllAccepted(p, checker)))
  }

  /** The checker was only ever shown legal crash states, first those of the jobs, and in a complete search
      all of them. */
  ghost predicate Shown(report: Report, p: Program, options: Options, calls: seq<Call>)
    requires Shaped(p)
  {
    && AreReal(p, calls) && StartsWithJobs(p, calls, report.states)
    && (!report.truncated && Exhaustive(p, options.search) ==>
          SawEverything(p, calls) && SawEverything(p, calls[..report.states]))
  }

  /** `check`: refuses a trace exactly when some op of it cannot be performed on its own tree, and
      names that op; otherwise a clean, complete, exhaustive report means that the checker accepts every
      crash state the profile allows, at every point. */
  method CheckTrace(trace: Trace, options: Options, checker: Checker, coin: (nat, nat) -> (nat, nat) -> bool)
    returns (r: Result<Report, CompileError>, calls: seq<Call>, ghost p: Program)
    requires IsNormalTrace(trace) && |trace.ops| < NEVER && options.search.exhaustiveLimit < 64
    ensures r.Success? <==> TreeAfter(trace, |trace.ops|).Success?
    ensures r.Failure? ==> TreeAfter(trace, |trace.ops|) == Failure(r.error)
    ensures r.Success? ==> Compiled(trace, options.profile, BlockSize(options.blockSize), p) && Shaped(p)
                           && Answers(r.value, p, options, checker) && Shown(r.value, p, options, calls)
  {
    hide IsProgram, Run, TreeAfter, Exhaustive, AllAccepted, Fails, Shaped, IsNormalTrace, WellFormed, AreReal,
      SawEverything, StartsWithJobs, Total, Counts;
    NormalStart(trace);
    var block := BlockSize(options.blockSize);
    RunRefines(trace, block, |trace.ops|);
    var compiled := Compile(trace, options.profile, options.blockSize);
    if compiled.Failure? {
      return Failure(compiled.error), [], Program([], [], [], options.profile, [], []);
    }
    var program := compiled.value;
    p := program;
    ProgramIsShaped(trace, options.profile, block, program);
    OwnersAreOps(trace, options.profile, block, program);
    var engine := new Engine(program, trace.ops, checker);
    var report := engine.Run(options.search, options.maxStates, options.explain, coin);
    r, calls := Success(report), engine.calls;
  }

  /** The same for a checker that also reads the crash point, as far as failures go: each content and
      acknowledgement is shown at one point, so a clean, complete, exhaustive search speaks for all crash
      states exactly if the verdict depends on nothing else. */
  method CheckWithPoints(trace: Trace, options: Options, reader: PointChecker, coin: (nat, nat) -> (nat, nat) -> bool)
    returns (r: Result<(nat, bool), CompileError>, ghost p: Program)
    requires IsNormalTrace(trace) && |trace.ops| < NEVER && options.search.exhaustiveLimit < 64
    ensures r.Success? <==> TreeAfter(trace, |trace.ops|).Success?
    ensures r.Success? ==> Compiled(trace, options.profile, BlockSize(options.blockSize), p) && Shaped(p)
    ensures r.Success? && r.value.0 > 0 ==> !AllAcceptedAt(p, reader)
    ensures r.Success? && !r.value.1 && Exhaustive(p, options.search) ==>
              (AllAcceptedAt(p, reader) <==> r.value.0 == 0 && KeyDecides(p, reader))
  {
    hide IsProgram, Run, TreeAfter, Exhaustive, Shaped, IsNormalTrace, WellFormed, JobIsSound, JudgeAt, AllAcceptedAt,
      KeyDecides, EveryStateHasJob;
    NormalStart(trace);
    var block := BlockSize(options.blockSize);
    RunRefines(trace, block, |trace.ops|);
    var compiled := Compile(trace, options.profile, options.blockSize);
    if compiled.Failure? {
      return Failure(compiled.error), Program([], [], [], options.profile, [], []);
    }
    var program := compiled.value;
    p := program;
    ProgramIsShaped(trace, options.profile, block, program);
    OwnersAreOps(trace, options.profile, block, program);
    var jobs, truncated := Jobs(program, options.search, options.maxStates, coin);
    assert forall job :: job in jobs ==> JobIsSound(program, job);
    var verdicts := JudgeJobs(program, jobs, reader);
    var failures: nat := 0;
    for i := 0 to |jobs|
      invariant failures == 0 <==> forall j :: 0 <= j < i ==> verdicts[j] == Accepted
    {
      if verdicts[i].Rejected? {
        failures := failures + 1;
      }
    }
    if failures == 0 {
      assert JobsAccepted(program, reader, jobs);
    } else {
      SomeJobRejected(program, reader, jobs, verdicts);
    }
    if !truncated && Exhaustive(program, options.search) {
      PointReadersAreExactIff(program, reader, jobs);
    }
    r := Success((failures, truncated));
  }

  lemma SomeJobRejected(p: Program, reader: PointChecker, jobs: seq<Job>, verdicts: seq<Verdict>)
    requires Shaped(p) && JobsAreSound(p, jobs) && |verdicts| == |jobs|
    requires forall i :: 0 <= i < |jobs| ==>
               LegalFits(p, jobs[i].point, jobs[i].persisted)
               && verdicts[i] == JudgeAt(p, reader, jobs[i].point, jobs[i].persisted)
    requires !(forall j :: 0 <= j < |jobs| ==> verdicts[j] == Accepted)
    ensures !JobsAccepted(p, reader, jobs) && !AllAcceptedAt(p, reader)
  {
    hide CrashTree, KeepsDurable, MetaInOrder, DataBeforeSize, DataBeforeReplace, JudgeAt, Shaped;
    var i :| 0 <= i < |jobs| && verdicts[i] != Accepted;
    assert JobIsSound(p, jobs[i]);
  }

  lemma NormalStart(trace: Trace)
    requires IsNormalTrace(trace)
    ensures WellFormed(trace.initial)
  {
    hide WellFormed;
  }

  lemma OwnersAreOps(trace: Trace, profile: Profile, block: nat, p: Program)
    requires Compiled(trace, profile, block, p)
    ensures Run(trace, block, |trace.ops|).Success?
    ensures forall j :: 0 <= j < |p.micro| ==> p.micro[j].op < |trace.ops|
  {
    hide Run, FirstCover;
  }
}
