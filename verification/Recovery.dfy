/** Crash-testing recovery: every recovery the first search meets is explored like a workload. */
module Recovery {
  import opened Wrappers
  import opened Trace
  import opened Sorting
  import opened Runs
  import opened Compiler
  import opened Crash
  import opened Enumerate
  import opened Explorer
  import opened Check
  import opened Durability
  import opened Reference
  import opened Promises
  import opened Tool

  /** What recovery does to a directory: the trace of its own operations, and what it leaves. */
  datatype Recovered = Recovered(trace: Result<Trace, string>, left: Tree)

  type Recover = Tree -> Recovered

  /** A recovery met by the first search, with the crash it was first met after. */
  datatype Found = Found(point: nat, marks: seq<string>, trace: Trace)

  datatype RecoveryReport = RecoveryReport(first: Report, states: nat, truncated: bool, failures: nat,
    groups: seq<Group>)

  predicate Writes(trace: Trace) {
    exists i :: 0 <= i < |trace.ops| && !trace.ops[i].Mark?
  }

  /** The first search: recover, then judge what recovery left. */
  function FirstChecker(recover: Recover, verify: Checker): Checker {
    (tree: Tree, marks: seq<string>) =>
      if recover(tree).trace.Failure? then Rejected("recovery failed: " + recover(tree).trace.error)
      else verify(recover(tree).left, marks)
  }

  /** The second: recover again, and judge by the marks of the first crash. */
  function SecondChecker(recover: Recover, verify: Checker, marks: seq<string>): Checker {
    (tree: Tree, _: seq<string>) => FirstChecker(recover, verify)(tree, marks)
  }

  // -------------------------------------------------------------- collecting

  ghost predicate Gives(call: Call, recover: Recover, trace: Trace) {
    recover(call.tree).trace == Success(trace)
  }

  /** The first of the calls with this recovery. */
  ghost predicate IsFirstIn(f: Found, calls: seq<Call>, recover: Recover, i: nat) {
    && i < |calls| && Gives(calls[i], recover, f.trace) && f.marks == calls[i].marks && f.point == calls[i].point
    && forall j :: 0 <= j < i ==> !Gives(calls[j], recover, f.trace)
  }

  ghost predicate IsFoundIn(f: Found, calls: seq<Call>, recover: Recover) {
    Writes(f.trace) && exists i :: IsFirstIn(f, calls, recover, i)
  }

  ghost predicate HasTrace(found: seq<Found>, trace: Trace) {
    exists f :: f in found && f.trace == trace
  }

  ghost predicate FoundAll(found: seq<Found>, calls: seq<Call>, recover: Recover) {
    && (forall f :: f in found ==> IsFoundIn(f, calls, recover))
    && (forall c :: c in calls && recover(c.tree).trace.Success? && Writes(recover(c.tree).trace.value) ==>
          HasTrace(found, recover(c.tree).trace.value))
  }

  ghost predicate TracesDiffer(found: seq<Found>) {
    forall i, j :: 0 <= i < j < |found| ==> found[i].trace != found[j].trace
  }

  /** One recovery per distinct trace that does more than acknowledge, with the marks and the point of the
      first call that led to it. */
  method Collect(calls: seq<Call>, recover: Recover) returns (found: seq<Found>)
    ensures FoundAll(found, calls, recover) && TracesDiffer(found)
    ensures forall f :: f in found ==> exists i: nat :: i < |f.trace.ops| && !f.trace.ops[i].Mark?
    ensures forall c, trace, i: nat ::
              c in calls && Gives(c, recover, trace) && i < |trace.ops| && !trace.ops[i].Mark? ==>
                HasTrace(found, trace)
  {
    hide Writes, FoundAll, TracesDiffer, HasTrace;
    found := [];
    var seen: set<Trace> := {};
    NothingFound(recover);
    for i := 0 to |calls|
      invariant FoundAll(found, calls[..i], recover) && TracesDiffer(found)
      invariant forall trace :: trace in seen <==> HasTrace(found, trace)
    {
      var c := calls[i];
      assert calls[..i + 1] == calls[..i] + [c];
      var done := recover(c.tree).trace;
      if done.Success? && Writes(done.value) && done.value !in seen {
        OneMoreFound(found, calls[..i], recover, c);
        seen := seen + {done.value};
        found := found + [Found(c.point, c.marks, done.value)];
      } else {
        NothingNew(found, calls[..i], recover, c);
      }
    }
    assert calls[..|calls|] == calls;
    FoundAllWork(found, calls, recover);
  }

  lemma FoundAllWork(found: seq<Found>, calls: seq<Call>, recover: Recover)
    requires FoundAll(found, calls, recover)
    ensures forall f :: f in found ==> exists i: nat :: i < |f.trace.ops| && !f.trace.ops[i].Mark?
    ensures forall c, trace, i: nat ::
              c in calls && Gives(c, recover, trace) && i < |trace.ops| && !trace.ops[i].Mark? ==>
                HasTrace(found, trace)
  {
    hide HasTrace;
    forall f | f in found ensures exists i: nat :: i < |f.trace.ops| && !f.trace.ops[i].Mark? {
      assert IsFoundIn(f, calls, recover);
      var k := WritingOp(f.trace);
    }
  }

  lemma NothingFound(recover: Recover)
    ensures FoundAll([], [], recover) && TracesDiffer([]) && forall trace :: !HasTrace([], trace)
  {
  }

  lemma StillFirst(f: Found, calls: seq<Call>, recover: Recover, c: Call)
    requires IsFoundIn(f, calls, recover)
    ensures IsFoundIn(f, calls + [c], recover)
  {
    hide Writes, Gives;
    var i: nat :| IsFirstIn(f, calls, recover, i);
    assert IsFirstIn(f, calls + [c], recover, i);
  }

  lemma NothingNew(found: seq<Found>, calls: seq<Call>, recover: Recover, c: Call)
    requires FoundAll(found, calls, recover)
    requires recover(c.tree).trace.Success? && Writes(recover(c.tree).trace.value) ==>
               HasTrace(found, recover(c.tree).trace.value)
    ensures FoundAll(found, calls + [c], recover)
  {
    hide Writes, HasTrace, IsFoundIn;
    assert forall x :: x in calls + [c] <==> x in calls || x == c;
    forall f | f in found ensures IsFoundIn(f, calls + [c], recover) {
      StillFirst(f, calls, recover, c);
    }
  }

  lemma OneMoreFound(found: seq<Found>, calls: seq<Call>, recover: Recover, c: Call)
    requires FoundAll(found, calls, recover) && TracesDiffer(found)
    requires recover(c.tree).trace.Success? && Writes(recover(c.tree).trace.value)
    requires !HasTrace(found, recover(c.tree).trace.value)
    ensures var more := found + [Found(c.point, c.marks, recover(c.tree).trace.value)];
            && FoundAll(more, calls + [c], recover) && TracesDiffer(more)
            && forall trace :: HasTrace(more, trace) <==> HasTrace(found, trace) || trace == recover(c.tree).trace.value
  {
    hide Writes, IsFoundIn, HasTrace;
    var f := Found(c.point, c.marks, recover(c.tree).trace.value);
    var more := found + [f];
    MoreTraces(found, f);
    NewIsFirst(found, calls, recover, c);
    forall g | g in more ensures IsFoundIn(g, calls + [c], recover) {
      if g != f {
        assert g in found;
        StillFirst(g, calls, recover, c);
      }
    }
    assert forall x :: x in calls + [c] <==> x in calls || x == c;
  }

  lemma MoreTraces(found: seq<Found>, f: Found)
    ensures forall trace :: HasTrace(found + [f], trace) <==> HasTrace(found, trace) || trace == f.trace
    ensures TracesDiffer(found) && !HasTrace(found, f.trace) ==> TracesDiffer(found + [f])
  {
    var more := found + [f];
    assert forall g :: g in more <==> g in found || g == f;
    forall i | 0 <= i < |found| ensures found[i] in found {}
  }

  lemma NewIsFirst(found: seq<Found>, calls: seq<Call>, recover: Recover, c: Call)
    requires FoundAll(found, calls, recover) && recover(c.tree).trace.Success?
    requires Writes(recover(c.tree).trace.value) && !HasTrace(found, recover(c.tree).trace.value)
    ensures IsFoundIn(Found(c.point, c.marks, recover(c.tree).trace.value), calls + [c], recover)
  {
    hide Writes, HasTrace, IsFoundIn;
    var f, more := Found(c.point, c.marks, recover(c.tree).trace.value), calls + [c];
    forall j | 0 <= j < |calls| ensures !Gives(more[j], recover, f.trace) {
      assert more[j] == calls[j] && calls[j] in calls;
    }
    assert more[|calls|] == c;
    FirstIsFound(f, more, recover, |calls|);
  }

  lemma FirstIsFound(f: Found, calls: seq<Call>, recover: Recover, i: nat)
    requires Writes(f.trace) && i < |calls| && Gives(calls[i], recover, f.trace)
    requires f.marks == calls[i].marks && f.point == calls[i].point
    requires forall j :: 0 <= j < i ==> !Gives(calls[j], recover, f.trace)
    ensures IsFoundIn(f, calls, recover)
  {
    hide Writes, Gives;
    assert IsFirstIn(f, calls, recover, i);
  }

  // ------------------------------------------------------- several workers

  /** The order in which the workers get to call recovery on the jobs. */
  ghost predicate IsSchedule(schedule: seq<Call> -> seq<Call>) {
    forall calls :: multiset(schedule(calls)) == multiset(calls)
  }

  /** A single worker takes the jobs as they come. */
  ghost predicate OneWorker(schedule: seq<Call> -> seq<Call>) {
    forall calls :: schedule(calls) == calls
  }

  function Heard(calls: seq<Call>, n: nat, schedule: seq<Call> -> seq<Call>): seq<Call>
    requires n <= |calls|
  {
    schedule(calls[..n]) + calls[n..]
  }

  lemma InAnyOrder(calls: seq<Call>, n: nat, schedule: seq<Call> -> seq<Call>)
    requires n <= |calls| && IsSchedule(schedule)
    ensures |schedule(calls[..n])| == n && forall c :: c in schedule(calls[..n]) <==> c in calls[..n]
  {
    SameElements(schedule(calls[..n]), calls[..n]);
    assert multiset(schedule(calls[..n])) == multiset(calls[..n]);
    assert |multiset(schedule(calls[..n]))| == n;
  }

  lemma SameTreesShown(a: seq<Call>, b: seq<Call>, tree: Tree)
    requires forall c :: c in a ==> c in b
    ensures IsShown(a, tree) ==> IsShown(b, tree)
  {
    if IsShown(a, tree) {
      var i :| 0 <= i < |a| && a[i].tree == tree;
      assert a[i] in b;
    }
  }

  /** What minimization calls afterwards was shown by some job, in whatever order those came. */
  lemma HeardIsReal(p: Program, calls: seq<Call>, n: nat, schedule: seq<Call> -> seq<Call>)
    requires Shaped(p) && AreReal(p, calls) && StartsWithJobs(p, calls, n) && IsSchedule(schedule)
    ensures AreReal(p, Heard(calls, n, schedule))
  {
    hide IsOwnCall, IsShown, IsSchedule;
    InAnyOrder(calls, n, schedule);
    var heard, first := Heard(calls, n, schedule), schedule(calls[..n]);
    forall i | 0 <= i < |heard|
      ensures IsOwnCall(p, heard[i]) || (heard[i].marks == [] && IsShown(heard[..i], heard[i].tree))
    {
      if i < n {
        assert heard[i] in first && heard[i] in calls[..n];
      } else {
        assert heard[i] == calls[i] && heard[..i] == first + calls[n..i] && calls[..i] == calls[..n] + calls[n..i];
        SameTreesShown(calls[..i], heard[..i], heard[i].tree);
      }
    }
  }

  /** By crash point, then by the trace's hash. */
  predicate NoLaterThan(a: Found, b: Found, rank: Trace -> nat) {
    a.point < b.point || (a.point == b.point && rank(a.trace) <= rank(b.trace))
  }

  function ByPoint(rank: Trace -> nat): (Found, Found) -> bool {
    (a: Found, b: Found) => NoLaterThan(a, b, rank)
  }

  method SortFound(found: seq<Found>, rank: Trace -> nat) returns (out: seq<Found>)
    ensures multiset(out) == multiset(found) && InOrder(out, ByPoint(rank))
  {
    var le := ByPoint(rank);
    assert IsOrder(le);
    out := Sort(found, le);
  }

  // --------------------------------------------------------------- exploring

  /** Whatever recovery is given, the trace it returns, if it succeeds, is one that can be explored. */
  ghost predicate RecoversNormally(recover: Recover) {
    forall tree {:trigger recover(tree)} :: WellFormed(tree) && recover(tree).trace.Success? ==>
      IsNormalTrace(recover(tree).trace.value) && |recover(tree).trace.value.ops| < NEVER
  }

  ghost predicate Explorable(found: seq<Found>) {
    forall f :: f in found ==> IsNormalTrace(f.trace) && |f.trace.ops| < NEVER
  }

  /** The trace that recovery returns has what it was given as its initial snapshot. */
  ghost predicate StartsFromGiven(recover: Recover) {
    forall tree {:trigger recover(tree)} :: WellFormed(tree) && recover(tree).trace.Success? ==>
      recover(tree).trace.value.initial == tree
  }

  /** A legal crash of the workload, and the recovery from it. */
  ghost predicate RecoveredBy(p: Program, recover: Recover, point: nat, s: Persisted, trace: Trace)
    requires Shaped(p)
  {
    Legal(p, point, s) && recover(CrashTree(p, s)).trace == Success(trace)
  }

  /** The recovery does something, and was met after a legal crash, with the marks before it. */
  ghost predicate WasMet(p: Program, f: Found, recover: Recover)
    requires Shaped(p)
  {
    && (exists i: nat :: i < |f.trace.ops| && !f.trace.ops[i].Mark?)
    && exists s :: RecoveredBy(p, recover, f.point, s, f.trace) && f.marks == p.marks[..p.marksBefore[f.point]]
  }

  ghost predicate OnlyMet(p: Program, found: seq<Found>, recover: Recover)
    requires Shaped(p)
  {
    forall f :: f in found ==> WasMet(p, f, recover)
  }

  /** The first call with a given recovery comes with the marks of its crash. */
  lemma FoundWereMet(p: Program, calls: seq<Call>, found: seq<Found>, recover: Recover)
    requires Shaped(p) && AreReal(p, calls) && FoundAll(found, calls, recover)
    ensures OnlyMet(p, found, recover)
  {
    hide CrashTree, KeepsDurable, MetaInOrder, DataBeforeSize, DataBeforeReplace, Writes, HasTrace;
    forall f | f in found ensures WasMet(p, f, recover) {
      assert IsFoundIn(f, calls, recover);
      var i: nat :| IsFirstIn(f, calls, recover, i);
      FirstIsNew(f, calls, recover, i);
      assert IsOwnCall(p, calls[i]);
      var s :| Legal(p, calls[i].point, s) && calls[i].tree == CrashTree(p, s);
      assert RecoveredBy(p, recover, f.point, s, f.trace);
      var k := WritingOp(f.trace);
    }
  }

  lemma WritingOp(trace: Trace) returns (k: nat)
    requires Writes(trace)
    ensures k < |trace.ops| && !trace.ops[k].Mark?
  {
    k :| k < |trace.ops| && !trace.ops[k].Mark?;
  }

  lemma FirstIsNew(f: Found, calls: seq<Call>, recover: Recover, i: nat)
    requires IsFirstIn(f, calls, recover, i)
    ensures !IsShown(calls[..i], calls[i].tree)
  {
    forall j | 0 <= j < i ensures calls[..i][j].tree != calls[i].tree {
      assert !Gives(calls[j], recover, f.trace);
    }
  }

  lemma FoundAreExplorable(trace: Trace, profile: Profile, block: nat, p: Program, found: seq<Found>, recover: Recover)
    requires Compiled(trace, profile, block, p) && IsNormalTrace(trace) && Shaped(p)
    requires OnlyMet(p, found, recover) && RecoversNormally(recover)
    ensures Explorable(found)
  {
    hide IsProgram, CrashTree, IsNormalTrace, WellFormed, KeepsDurable, MetaInOrder, DataBeforeSize,
      DataBeforeReplace, Writes;
    forall f | f in found ensures IsNormalTrace(f.trace) && |f.trace.ops| < NEVER {
      assert WasMet(p, f, recover);
      var s :| RecoveredBy(p, recover, f.point, s, f.trace);
      CrashTreesAreSnapshots(trace, profile, block, p, s);
    }
  }

  ghost predicate MetBy(found: seq<Found>, trace: Trace, point: nat) {
    exists i :: 0 <= i < |found| && found[i].trace == trace && found[i].point <= point
  }

  ghost predicate Met(found: seq<Found>, trace: Trace) {
    exists i :: 0 <= i < |found| && found[i].trace == trace
  }

  /** The recovery from every legal crash state is among those met, unless all it does is acknowledge. */
  ghost predicate MetAll(p: Program, found: seq<Found>, recover: Recover)
    requires Shaped(p)
  {
    forall point: nat, s, trace, i: nat ::
      RecoveredBy(p, recover, point, s, trace) && i < |trace.ops| && !trace.ops[i].Mark? ==> Met(found, trace)
  }

  /** And it was met no later than after that crash. */
  ghost predicate MetInTime(p: Program, found: seq<Found>, recover: Recover)
    requires Shaped(p)
  {
    forall point: nat, s, trace, i: nat ::
      RecoveredBy(p, recover, point, s, trace) && i < |trace.ops| && !trace.ops[i].Mark? ==>
        MetBy(found, trace, point)
  }

  lemma InTimeIsAll(p: Program, found: seq<Found>, recover: Recover)
    requires Shaped(p) && MetInTime(p, found, recover)
    ensures MetAll(p, found, recover)
  {
    hide RecoveredBy;
    forall point: nat, s, trace, i: nat |
      RecoveredBy(p, recover, point, s, trace) && i < |trace.ops| && !trace.ops[i].Mark?
      ensures Met(found, trace)
    {
      assert MetBy(found, trace, point);
    }
  }

  /** Every program is one of the recoveries compiled, in order. */
  ghost predicate AreRecoveries(found: seq<Found>, programs: seq<Program>, options: Options) {
    |programs| <= |found|
    && forall i :: 0 <= i < |programs| ==>
         Compiled(found[i].trace, options.profile, BlockSize(options.blockSize), programs[i]) && Shaped(programs[i])
  }

  /** Nothing the two searches can meet is rejected. */
  ghost predicate NothingFails(found: seq<Found>, programs: seq<Program>, recover: Recover, verify: Checker)
    requires forall i :: 0 <= i < |programs| ==> Shaped(programs[i])
    requires |programs| <= |found|
  {
    forall i :: 0 <= i < |programs| ==> AllAccepted(programs[i], SecondChecker(recover, verify, found[i].marks))
  }

  ghost predicate AllExhaustive(programs: seq<Program>, search: Search)
    requires forall i :: 0 <= i < |programs| ==> Shaped(programs[i])
  {
    forall i :: 0 <= i < |programs| ==> Exhaustive(programs[i], search)
  }

  // ---------------------------------------------------- what two crashes can do

  /** A crash of the workload, and a crash of the recovery from it. */
  ghost predicate IsDouble(p: Program, options: Options, recover: Recover, point: nat, s: Persisted, trace: Trace,
                           q: Program, point2: nat, s2: Persisted)
    requires Shaped(p)
  {
    && RecoveredBy(p, recover, point, s, trace)
    && Compiled(trace, options.profile, BlockSize(options.blockSize), q) && Shaped(q) && Legal(q, point2, s2)
  }

  /** The earliest crash point from which recovery does this. */
  ghost predicate IsEarliest(p: Program, recover: Recover, trace: Trace, first: nat)
    requires Shaped(p)
  {
    && first < |p.marksBefore| && (exists s :: RecoveredBy(p, recover, first, s, trace))
    && forall point: nat, s :: RecoveredBy(p, recover, point, s, trace) ==> first <= point
  }

  /** Recovery from this crash works, and what it leaves is accepted by these marks. */
  ghost predicate AcceptedAfter(recover: Recover, verify: Checker, q: Program, s: Persisted, marks: seq<string>)
    requires Shaped(q) && |s| <= |q.micro|
  {
    var done := recover(CrashTree(q, s));
    done.trace.Success? && verify(done.left, marks) == Accepted
  }

  /** Recovery from every crash of the workload is accepted by the marks before it. */
  ghost predicate AcceptedOnce(p: Program, recover: Recover, verify: Checker)
    requires Shaped(p)
  {
    forall point: nat, s :: Legal(p, point, s) ==>
      AcceptedAfter(recover, verify, p, s, p.marks[..p.marksBefore[point]])
  }

  /** That is what the first search judges. */
  lemma FirstJudges(p: Program, recover: Recover, verify: Checker)
    requires Shaped(p)
    ensures AllAccepted(p, FirstChecker(recover, verify)) <==> AcceptedOnce(p, recover, verify)
  {
    hide CrashTree, KeepsDurable, MetaInOrder, DataBeforeSize, DataBeforeReplace;
    var checker := FirstChecker(recover, verify);
    forall point: nat, s | Legal(p, point, s)
      ensures |s| <= |p.micro| && point < |p.marksBefore| && p.marksBefore[point] <= |p.marks|
      ensures Judge(p, checker, point, s, true) == Accepted <==>
              AcceptedAfter(recover, verify, p, s, p.marks[..p.marksBefore[point]])
    {
      ShapedBounds(p, point);
    }
  }

  /** Every double crash is accepted by the marks of the earliest crash with the same recovery. */
  ghost predicate AcceptedByFirst(p: Program, options: Options, recover: Recover, verify: Checker)
    requires Shaped(p)
  {
    forall point: nat, s, trace, q, point2: nat, s2, first: nat ::
      IsDouble(p, options, recover, point, s, trace, q, point2, s2) && IsEarliest(p, recover, trace, first) ==>
        AcceptedAfter(recover, verify, q, s2, p.marks[..p.marksBefore[first]])
  }

  /** Every double crash is accepted by the marks of its own first crash. */
  ghost predicate AcceptedByOwn(p: Program, options: Options, recover: Recover, verify: Checker)
    requires Shaped(p)
  {
    forall point: nat, s, trace, q, point2: nat, s2 ::
      IsDouble(p, options, recover, point, s, trace, q, point2, s2) ==>
        AcceptedAfter(recover, verify, q, s2, p.marks[..p.marksBefore[point]])
  }

  /** The marks a double crash is judged by: those on record for its recovery; if there are none, its own. */
  ghost predicate JudgedBy(p: Program, found: seq<Found>, point: nat, trace: Trace, marks: seq<string>)
    requires Shaped(p)
  {
    || (exists i :: 0 <= i < |found| && found[i].trace == trace && found[i].marks == marks)
    || (!Met(found, trace) && point < |p.marksBefore| && marks == p.marks[..p.marksBefore[point]])
  }

  /** Every double crash is accepted by the marks on record for its recovery. */
  ghost predicate AcceptedByRecorded(p: Program, found: seq<Found>, options: Options, recover: Recover, verify: Checker)
    requires Shaped(p)
  {
    forall point: nat, s, trace, q, point2: nat, s2, marks ::
      IsDouble(p, options, recover, point, s, trace, q, point2, s2) && JudgedBy(p, found, point, trace, marks) ==>
        AcceptedAfter(recover, verify, q, s2, marks)
  }

  /** Crashes with the same recovery have the same marks before them, unless all it does is acknowledge. */
  ghost predicate SameMarks(p: Program, recover: Recover)
    requires Shaped(p)
  {
    forall a: nat, s, b: nat, t, trace, i: nat ::
      && RecoveredBy(p, recover, a, s, trace) && RecoveredBy(p, recover, b, t, trace)
      && i < |trace.ops| && !trace.ops[i].Mark? ==>
        p.marks[..p.marksBefore[a]] == p.marks[..p.marksBefore[b]]
  }

  /** Each recovery on record has the marks of every crash that leads to it. */
  ghost predicate RecordsOwnMarks(p: Program, found: seq<Found>, recover: Recover)
    requires Shaped(p)
  {
    forall point: nat, s, i :: 0 <= i < |found| && RecoveredBy(p, recover, point, s, found[i].trace) ==>
      found[i].marks == p.marks[..p.marksBefore[point]]
  }

  /** The second search judges every double crash by the marks of its own first crash exactly when no two
      crashes with the same recovery differ in marks. */
  lemma OwnMarksIffSame(p: Program, found: seq<Found>, recover: Recover)
    requires Shaped(p) && OnlyMet(p, found, recover) && MetAll(p, found, recover)
    ensures RecordsOwnMarks(p, found, recover) <==> SameMarks(p, recover)
  {
    hide RecoveredBy;
    if RecordsOwnMarks(p, found, recover) {
      forall a: nat, s, b: nat, t, trace, k: nat |
        && RecoveredBy(p, recover, a, s, trace) && RecoveredBy(p, recover, b, t, trace)
        && k < |trace.ops| && !trace.ops[k].Mark?
        ensures a < |p.marksBefore| && b < |p.marksBefore|
        ensures p.marks[..p.marksBefore[a]] == p.marks[..p.marksBefore[b]]
      {
        RecoveredFits(p, recover, a, s, trace);
        RecoveredFits(p, recover, b, t, trace);
        assert Met(found, trace);
        var i :| 0 <= i < |found| && found[i].trace == trace;
        assert RecoveredBy(p, recover, a, s, found[i].trace) && RecoveredBy(p, recover, b, t, found[i].trace);
      }
    }
    if SameMarks(p, recover) {
      forall point: nat, s, i | 0 <= i < |found| && RecoveredBy(p, recover, point, s, found[i].trace)
        ensures point < |p.marksBefore| && found[i].marks == p.marks[..p.marksBefore[point]]
      {
        RecoveredFits(p, recover, point, s, found[i].trace);
        var k := Works(p, found, recover, i);
        assert WasMet(p, found[i], recover);
      }
    }
  }

  lemma Works(p: Program, found: seq<Found>, recover: Recover, i: nat) returns (k: nat)
    requires Shaped(p) && OnlyMet(p, found, recover) && i < |found|
    ensures k < |found[i].trace.ops| && !found[i].trace.ops[k].Mark?
  {
    hide RecoveredBy;
    assert WasMet(p, found[i], recover);
    k :| k < |found[i].trace.ops| && !found[i].trace.ops[k].Mark?;
  }

  lemma RecoveredFits(p: Program, recover: Recover, point: nat, s: Persisted, trace: Trace)
    requires Shaped(p) && RecoveredBy(p, recover, point, s, trace)
    ensures point < |p.marksBefore| && p.marksBefore[point] <= |p.marks| && |s| <= |p.micro|
  {
    hide CrashTree, KeepsDurable, MetaInOrder, DataBeforeSize, DataBeforeReplace, Writes;
  }

  /** With one worker, what is on record for a recovery is its earliest crash. */
  lemma RecordedIsEarliest(p: Program, found: seq<Found>, recover: Recover, i: nat)
    requires Shaped(p) && OnlyMet(p, found, recover) && MetInTime(p, found, recover) && TracesDiffer(found)
    requires i < |found|
    ensures IsEarliest(p, recover, found[i].trace, found[i].point)
    ensures found[i].marks == p.marks[..p.marksBefore[found[i].point]]
  {
    hide RecoveredBy;
    assert WasMet(p, found[i], recover);
    var s :| RecoveredBy(p, recover, found[i].point, s, found[i].trace);
    RecoveredFits(p, recover, found[i].point, s, found[i].trace);
    var k := Works(p, found, recover, i);
    forall point: nat, t | RecoveredBy(p, recover, point, t, found[i].trace) ensures found[i].point <= point {
      assert MetBy(found, found[i].trace, point);
    }
  }

  /** Every recovery from a crash starts from what the crash left. */
  ghost predicate Restarts(p: Program, recover: Recover)
    requires Shaped(p)
  {
    forall point: nat, s, trace :: RecoveredBy(p, recover, point, s, trace) ==>
      IsNormalTrace(trace) && trace.initial == CrashTree(p, s)
  }

  lemma RecoveriesRestart(trace: Trace, profile: Profile, block: nat, p: Program, recover: Recover)
    requires Compiled(trace, profile, block, p) && IsNormalTrace(trace) && Shaped(p)
    requires RecoversNormally(recover) && StartsFromGiven(recover)
    ensures Restarts(p, recover)
  {
    hide IsProgram, CrashTree, IsNormalTrace, WellFormed, KeepsDurable, MetaInOrder, DataBeforeSize,
      DataBeforeReplace;
    forall point: nat, s, again | RecoveredBy(p, recover, point, s, again)
      ensures IsNormalTrace(again) && again.initial == CrashTree(p, s)
    {
      CrashTreesAreSnapshots(trace, profile, block, p, s);
    }
  }

  /** What the second search leaves out cannot fail: a recovery that is not on record only acknowledges, so
      wherever it crashes it leaves what the first crash left, and that was judged already. */
  lemma UnmetIsAccepted(p: Program, found: seq<Found>, options: Options, recover: Recover, verify: Checker,
                        point: nat, s: Persisted, trace: Trace, q: Program, point2: nat, s2: Persisted)
    requires Shaped(p) && Restarts(p, recover) && MetAll(p, found, recover) && !Met(found, trace)
    requires AcceptedOnce(p, recover, verify)
    requires IsDouble(p, options, recover, point, s, trace, q, point2, s2)
    ensures |s2| <= |q.micro| && point < |p.marksBefore| && p.marksBefore[point] <= |p.marks|
    ensures AcceptedAfter(recover, verify, q, s2, p.marks[..p.marksBefore[point]])
  {
    hide IsProgram, CrashTree, IsNormalTrace, KeepsDurable, MetaInOrder, DataBeforeSize, DataBeforeReplace, Met;
    RecoveredFits(p, recover, point, s, trace);
    MarksLeaveNothing(trace, options.profile, BlockSize(options.blockSize), q, point2, s2);
  }

  /** The second search, over what it found and compiled, is about all double crashes. */
  lemma JudgedByRecorded(p: Program, found: seq<Found>, programs: seq<Program>, options: Options, recover: Recover,
                         verify: Checker)
    requires Shaped(p) && OnlyMet(p, found, recover) && AreRecoveries(found, programs, options)
    requires |programs| == |found| && Restarts(p, recover) && MetAll(p, found, recover)
    requires AcceptedOnce(p, recover, verify)
    ensures NothingFails(found, programs, recover, verify) <==>
              AcceptedByRecorded(p, found, options, recover, verify)
  {
    hide RecoveredBy, IsProgram, Shaped, CrashTree, OnlyMet, AcceptedAfter, KeepsDurable, MetaInOrder, DataBeforeSize,
      DataBeforeReplace, Restarts, MetAll, AcceptedOnce;
    if NothingFails(found, programs, recover, verify) {
      forall point: nat, s, trace, q, point2: nat, s2, marks |
        IsDouble(p, options, recover, point, s, trace, q, point2, s2) && JudgedBy(p, found, point, trace, marks)
        ensures |s2| <= |q.micro| && AcceptedAfter(recover, verify, q, s2, marks)
      {
        if Met(found, trace) {
          var i :| 0 <= i < |found| && found[i].trace == trace && found[i].marks == marks;
          DoubleIsAccepted(p, found, programs, options, recover, verify, point, s, q, point2, s2, i);
        } else {
          UnmetIsAccepted(p, found, options, recover, verify, point, s, trace, q, point2, s2);
        }
      }
    }
    if AcceptedByRecorded(p, found, options, recover, verify) {
      forall i | 0 <= i < |programs| ensures AllAccepted(programs[i], SecondChecker(recover, verify, found[i].marks)) {
        FoundIsAccepted(p, found, programs, options, recover, verify, i);
      }
    }
  }

  lemma DoubleIsAccepted(p: Program, found: seq<Found>, programs: seq<Program>, options: Options, recover: Recover,
                         verify: Checker, point: nat, s: Persisted, q: Program, point2: nat, s2: Persisted, i: nat)
    requires Shaped(p) && AreRecoveries(found, programs, options) && |programs| == |found|
    requires NothingFails(found, programs, recover, verify)
    requires i < |found| && IsDouble(p, options, recover, point, s, found[i].trace, q, point2, s2)
    ensures |s2| <= |q.micro| && AcceptedAfter(recover, verify, q, s2, found[i].marks)
  {
    hide RecoveredBy, IsProgram, CrashTree, KeepsDurable, MetaInOrder, DataBeforeSize, DataBeforeReplace;
    ProgramIsUnique(found[i].trace, options.profile, BlockSize(options.blockSize), q, programs[i]);
    var checker := SecondChecker(recover, verify, found[i].marks);
    assert AllAccepted(q, checker);
    assert Judge(q, checker, point2, s2, true) == Accepted;
    SecondJudges(recover, verify, found[i].marks, CrashTree(q, s2), q.marks[..q.marksBefore[point2]]);
  }

  lemma SecondJudges(recover: Recover, verify: Checker, marks: seq<string>, tree: Tree, others: seq<string>)
    ensures SecondChecker(recover, verify, marks)(tree, others) == Accepted <==>
            recover(tree).trace.Success? && verify(recover(tree).left, marks) == Accepted
  {
    assert SecondChecker(recover, verify, marks)(tree, others) == FirstChecker(recover, verify)(tree, marks);
  }

  lemma FoundIsAccepted(p: Program, found: seq<Found>, programs: seq<Program>, options: Options, recover: Recover,
                        verify: Checker, i: nat)
    requires Shaped(p) && OnlyMet(p, found, recover) && AreRecoveries(found, programs, options) && i < |programs|
    requires AcceptedByRecorded(p, found, options, recover, verify)
    ensures Shaped(programs[i]) && AllAccepted(programs[i], SecondChecker(recover, verify, found[i].marks))
  {
    hide RecoveredBy, IsProgram, CrashTree, KeepsDurable, MetaInOrder, DataBeforeSize, DataBeforeReplace;
    var q, checker, f := programs[i], SecondChecker(recover, verify, found[i].marks), found[i];
    assert WasMet(p, f, recover);
    var s :| RecoveredBy(p, recover, f.point, s, f.trace);
    forall point2: nat, s2 | Legal(q, point2, s2) ensures Judge(q, checker, point2, s2, true) == Accepted {
      assert IsDouble(p, options, recover, f.point, s, f.trace, q, point2, s2);
      assert JudgedBy(p, found, f.point, f.trace, found[i].marks);
      SecondJudges(recover, verify, f.marks, CrashTree(q, s2), q.marks[..q.marksBefore[point2]]);
    }
  }

  /** With one worker the marks on record are those of the earliest crash. */
  lemma RecordedIsFirst(p: Program, found: seq<Found>, options: Options, recover: Recover, verify: Checker)
    requires Shaped(p) && OnlyMet(p, found, recover) && MetInTime(p, found, recover) && TracesDiffer(found)
    requires Restarts(p, recover) && AcceptedOnce(p, recover, verify)
    ensures AcceptedByRecorded(p, found, options, recover, verify) <==> AcceptedByFirst(p, options, recover, verify)
  {
    hide RecoveredBy, IsProgram, Shaped, CrashTree, AcceptedAfter, KeepsDurable, MetaInOrder, DataBeforeSize,
      DataBeforeReplace, IsEarliest, OnlyMet, MetInTime, MetAll, TracesDiffer, Restarts, AcceptedOnce;
    InTimeIsAll(p, found, recover);
    if AcceptedByRecorded(p, found, options, recover, verify) {
      forall point: nat, s, trace, q, point2: nat, s2, first: nat |
        IsDouble(p, options, recover, point, s, trace, q, point2, s2) && IsEarliest(p, recover, trace, first)
        ensures first < |p.marksBefore| && p.marksBefore[first] <= |p.marks| && |s2| <= |q.micro|
        ensures AcceptedAfter(recover, verify, q, s2, p.marks[..p.marksBefore[first]])
      {
        var s1 := EarliestState(p, recover, trace, first);
        assert IsDouble(p, options, recover, first, s1, trace, q, point2, s2);
        if Met(found, trace) {
          var i: nat :| i < |found| && found[i].trace == trace;
          RecordedIsEarliest(p, found, recover, i);
          SameEarliest(p, recover, trace, first, found[i].point);
          assert JudgedBy(p, found, first, trace, found[i].marks);
        } else {
          UnmetIsAccepted(p, found, options, recover, verify, first, s1, trace, q, point2, s2);
        }
      }
    }
    if AcceptedByFirst(p, options, recover, verify) {
      forall point: nat, s, trace, q, point2: nat, s2, marks |
        IsDouble(p, options, recover, point, s, trace, q, point2, s2) && JudgedBy(p, found, point, trace, marks)
        ensures |s2| <= |q.micro| && AcceptedAfter(recover, verify, q, s2, marks)
      {
        if Met(found, trace) {
          var i: nat :| i < |found| && found[i].trace == trace && found[i].marks == marks;
          RecordedIsEarliest(p, found, recover, i);
        } else {
          UnmetIsAccepted(p, found, options, recover, verify, point, s, trace, q, point2, s2);
        }
      }
    }
  }

  lemma EarliestState(p: Program, recover: Recover, trace: Trace, first: nat) returns (s: Persisted)
    requires Shaped(p) && IsEarliest(p, recover, trace, first)
    ensures RecoveredBy(p, recover, first, s, trace)
    ensures first < |p.marksBefore| && p.marksBefore[first] <= |p.marks|
  {
    hide RecoveredBy;
    s :| RecoveredBy(p, recover, first, s, trace);
  }

  lemma MetAfter(p: Program, f: Found, recover: Recover) returns (t: Persisted)
    requires Shaped(p) && WasMet(p, f, recover)
    ensures RecoveredBy(p, recover, f.point, t, f.trace) && f.point < |p.marksBefore|
    ensures p.marksBefore[f.point] <= |p.marks| && f.marks == p.marks[..p.marksBefore[f.point]]
  {
    hide CrashTree, KeepsDurable, MetaInOrder, DataBeforeSize, DataBeforeReplace, Writes;
    t :| RecoveredBy(p, recover, f.point, t, f.trace) && f.marks == p.marks[..p.marksBefore[f.point]];
  }

  lemma SameEarliest(p: Program, recover: Recover, trace: Trace, a: nat, b: nat)
    requires Shaped(p) && IsEarliest(p, recover, trace, a) && IsEarliest(p, recover, trace, b)
    ensures a == b && a < |p.marksBefore| && p.marksBefore[a] <= |p.marks|
  {
    hide RecoveredBy;
  }

  /** However the workers were scheduled: what every double crash's own marks accept is accepted, and under
      `SameMarks` nothing else is. */
  lemma RecordedAndOwn(p: Program, found: seq<Found>, options: Options, recover: Recover, verify: Checker)
    requires Shaped(p) && OnlyMet(p, found, recover) && MetAll(p, found, recover)
    ensures AcceptedByOwn(p, options, recover, verify) ==> AcceptedByRecorded(p, found, options, recover, verify)
    ensures SameMarks(p, recover) && AcceptedByRecorded(p, found, options, recover, verify) ==>
              AcceptedByOwn(p, options, recover, verify)
  {
    hide RecoveredBy, IsProgram, Shaped, CrashTree, AcceptedAfter, KeepsDurable, MetaInOrder, DataBeforeSize,
      DataBeforeReplace, MetAll;
    if AcceptedByOwn(p, options, recover, verify) {
      forall point: nat, s, trace, q, point2: nat, s2, marks |
        IsDouble(p, options, recover, point, s, trace, q, point2, s2) && JudgedBy(p, found, point, trace, marks)
        ensures |s2| <= |q.micro| && AcceptedAfter(recover, verify, q, s2, marks)
      {
        if Met(found, trace) {
          var i: nat :| i < |found| && found[i].trace == trace && found[i].marks == marks;
          var f := found[i];
          assert WasMet(p, f, recover);
          var t := MetAfter(p, f, recover);
          assert IsDouble(p, options, recover, f.point, t, f.trace, q, point2, s2);
        }
      }
    }
    if SameMarks(p, recover) && AcceptedByRecorded(p, found, options, recover, verify) {
      OwnMarksIffSame(p, found, recover);
      forall point: nat, s, trace, q, point2: nat, s2 | IsDouble(p, options, recover, point, s, trace, q, point2, s2)
        ensures point < |p.marksBefore| && p.marksBefore[point] <= |p.marks| && |s2| <= |q.micro|
        ensures AcceptedAfter(recover, verify, q, s2, p.marks[..p.marksBefore[point]])
      {
        RecoveredFits(p, recover, point, s, trace);
        if Met(found, trace) {
          var i :| 0 <= i < |found| && found[i].trace == trace;
          assert found[i].marks == p.marks[..p.marksBefore[point]];
        }
        assert JudgedBy(p, found, point, trace, p.marks[..p.marksBefore[point]]);
      }
    }
  }

  // ------------------------------------------------------------------ groups

  /** Occurrences on record for one kind and set of files. */
  function Occurrences(groups: seq<Group>, kind: BugKind, files: seq<string>): nat {
    if groups == [] then 0 else
    var g := groups[|groups| - 1];
    Occurrences(groups[..|groups| - 1], kind, files) + (if g.kind == kind && g.files == files then g.occurrences else 0)
  }

  ghost predicate IsListed(groups: seq<Group>, kind: BugKind, files: seq<string>) {
    exists i :: 0 <= i < |groups| && groups[i].kind == kind && groups[i].files == files
  }

  /** One group for each kind and set of files. */
  ghost predicate ListedOnce(groups: seq<Group>) {
    forall i, j :: 0 <= i < j < |groups| ==> (groups[i].kind, groups[i].files) != (groups[j].kind, groups[j].files)
  }

  lemma {:induction false} OccurrencesOfUpdate(groups: seq<Group>, i: nat, g: Group, kind: BugKind, files: seq<string>)
    requires i < |groups| && g.kind == groups[i].kind && g.files == groups[i].files
    ensures Occurrences(groups[i := g], kind, files)
            + (if g.kind == kind && g.files == files then groups[i].occurrences else 0) ==
            Occurrences(groups, kind, files) + (if g.kind == kind && g.files == files then g.occurrences else 0)
  {
    var n := |groups| - 1;
    if i < n {
      OccurrencesOfUpdate(groups[..n], i, g, kind, files);
      assert groups[i := g][..n] == groups[..n][i := g];
    } else {
      assert groups[i := g][..n] == groups[..n];
    }
  }

  lemma OccurrencesOfMore(groups: seq<Group>, g: Group, kind: BugKind, files: seq<string>)
    ensures Occurrences(groups + [g], kind, files) ==
            Occurrences(groups, kind, files) + (if g.kind == kind && g.files == files then g.occurrences else 0)
  {
    assert (groups + [g])[..|groups|] == groups;
  }

  /** What merging means: the same kinds and files, listed once each, with all their occurrences. */
  ghost predicate Merges(groups: seq<Group>, more: seq<Group>, out: seq<Group>) {
    && Total(out) == Total(groups) + Total(more)
    && (forall kind, files ::
          Occurrences(out, kind, files) == Occurrences(groups, kind, files) + Occurrences(more, kind, files))
    && (forall kind, files ::
          IsListed(out, kind, files) <==> IsListed(groups, kind, files) || IsListed(more, kind, files))
    && (ListedOnce(groups) ==> ListedOnce(out))
  }

  /** File a group of a recovery's search under the same kind and files, if there is one. */
  method Merge(groups: seq<Group>, g: Group) returns (out: seq<Group>)
    ensures Merges(groups, [g], out)
    ensures forall i :: 0 <= i < |groups| && (groups[i].kind, groups[i].files) != (g.kind, g.files) ==>
              i < |out| && out[i] == groups[i]
  {
    hide Occurrences, Total;
    var i := FindGroup(groups, g.kind, g.files);
    AloneAddsItself(g);
    if i < |groups| {
      var sum := groups[i].(occurrences := groups[i].occurrences + g.occurrences);
      TotalOfChange(groups, i, sum);
      forall kind, files
        ensures Occurrences(groups[i := sum], kind, files) ==
                Occurrences(groups, kind, files) + Occurrences([g], kind, files)
      {
        OccurrencesOfUpdate(groups, i, sum, kind, files);
      }
      SameListed(groups, i, sum);
      out := groups[i := sum];
    } else {
      TotalOfMore(groups, g);
      forall kind, files
        ensures Occurrences(groups + [g], kind, files) ==
                Occurrences(groups, kind, files) + Occurrences([g], kind, files)
      {
        OccurrencesOfMore(groups, g, kind, files);
      }
      OneMoreListed(groups, g);
      out := groups + [g];
      forall i | 0 <= i < |groups| ensures groups[i] in groups {}
    }
  }

  lemma AloneAddsItself(g: Group)
    ensures Total([g]) == g.occurrences
    ensures forall kind, files :: Occurrences([g], kind, files) ==
              if g.kind == kind && g.files == files then g.occurrences else 0
    ensures forall kind, files :: IsListed([g], kind, files) <==> g.kind == kind && g.files == files
  {
    assert [g][..0] == [];
    forall kind, files ensures IsListed([g], kind, files) <==> g.kind == kind && g.files == files {
      if g.kind == kind && g.files == files {
        assert [g][0].kind == kind && [g][0].files == files;
      }
    }
  }

  lemma SameListed(groups: seq<Group>, i: nat, g: Group)
    requires i < |groups| && g.kind == groups[i].kind && g.files == groups[i].files
    ensures forall kind, files :: IsListed(groups[i := g], kind, files) <==> IsListed(groups, kind, files)
    ensures IsListed(groups, g.kind, g.files) && (ListedOnce(groups) ==> ListedOnce(groups[i := g]))
  {
    var out := groups[i := g];
    forall kind, files ensures IsListed(out, kind, files) <==> IsListed(groups, kind, files) {
      if IsListed(groups, kind, files) {
        var k :| 0 <= k < |groups| && groups[k].kind == kind && groups[k].files == files;
        assert out[k].kind == kind && out[k].files == files;
      }
    }
  }

  lemma OneMoreListed(groups: seq<Group>, g: Group)
    ensures forall kind, files :: IsListed(groups + [g], kind, files) <==>
              IsListed(groups, kind, files) || (g.kind == kind && g.files == files)
  {
    var out := groups + [g];
    forall kind, files
      ensures IsListed(out, kind, files) <==> IsListed(groups, kind, files) || (g.kind == kind && g.files == files)
    {
      if IsListed(groups, kind, files) {
        var k :| 0 <= k < |groups| && groups[k].kind == kind && groups[k].files == files;
        assert out[k].kind == kind && out[k].files == files;
      }
      if g.kind == kind && g.files == files {
        assert out[|groups|].kind == kind && out[|groups|].files == files;
      }
    }
  }

  method MergeAll(groups: seq<Group>, more: seq<Group>) returns (out: seq<Group>)
    ensures Merges(groups, more, out)
  {
    hide Total, Occurrences, IsListed, ListedOnce;
    out := groups;
    NothingMerges(groups);
    assert more[..0] == [];
    for i := 0 to |more|
      invariant Merges(groups, more[..i], out)
    {
      ghost var before := out;
      out := Merge(out, more[i]);
      assert more[..i + 1] == more[..i] + [more[i]];
      MergesChain(groups, more[..i], more[i], before, out);
    }
    assert more[..|more|] == more;
  }

  lemma NothingMerges(groups: seq<Group>)
    ensures Merges(groups, [], groups)
  {
  }

  lemma MergesChain(groups: seq<Group>, more: seq<Group>, g: Group, before: seq<Group>, out: seq<Group>)
    requires Merges(groups, more, before) && Merges(before, [g], out)
    ensures Merges(groups, more + [g], out)
  {
    hide Total, Occurrences, IsListed, ListedOnce;
    AloneAddsItself(g);
    TotalOfMore(more, g);
    OneMoreListed(more, g);
    forall kind, files
      ensures Occurrences(out, kind, files) == Occurrences(groups, kind, files) + Occurrences(more + [g], kind, files)
    {
      OccurrencesOfMore(more, g, kind, files);
    }
  }

  lemma NoTotal()
    ensures Total([]) == 0
  {
  }

  lemma OneMoreRecovery(found: seq<Found>, programs: seq<Program>, options: Options, q: Program,
                        recover: Recover, verify: Checker)
    requires AreRecoveries(found, programs, options) && |programs| < |found|
    requires Compiled(found[|programs|].trace, options.profile, BlockSize(options.blockSize), q) && Shaped(q)
    ensures AreRecoveries(found, programs + [q], options)
    ensures NothingFails(found, programs + [q], recover, verify) <==>
              NothingFails(found, programs, recover, verify)
              && AllAccepted(q, SecondChecker(recover, verify, found[|programs|].marks))
    ensures AllExhaustive(programs + [q], options.search) <==>
              AllExhaustive(programs, options.search) && Exhaustive(q, options.search)
  {
    hide Shaped, IsProgram, AllAccepted, Exhaustive;
    var more := programs + [q];
    assert forall i :: 0 <= i < |programs| ==> more[i] == programs[i];
    assert more[|programs|] == q;
  }

  /** `check_with_recovery`: recover from every crash state and judge the result; then crash every
      distinct recovery at every point, recover again, and judge by the marks it was first met with, in
      whatever order the workers call. When both searches are complete and exhaustive, a clean report means
      that recovery is accepted after every crash, and again after every crash of any recovery, explored or
      not, by the marks on record if there are any. Those are the marks of the earliest crash if there is one
      worker, and its own marks if crashes with the same recovery agree on them; and what is accepted by its
      own marks is never reported. */
  method CheckWithRecovery(trace: Trace, options: Options, recover: Recover, verify: Checker, rank: Trace -> nat,
                           coin: (nat, nat) -> (nat, nat) -> bool, schedule: seq<Call> -> seq<Call>)
    returns (r: Result<RecoveryReport, CompileError>, ghost p: Program, found: seq<Found>, ghost programs: seq<Program>)
    requires IsNormalTrace(trace) && |trace.ops| < NEVER && options.search.exhaustiveLimit < 64
             && RecoversNormally(recover) && IsSchedule(schedule)
    ensures r.Failure? ==> TreeAfter(trace, |trace.ops|) == Failure(r.error)
                           || exists f :: f in found && TreeAfter(f.trace, |f.trace.ops|) == Failure(r.error)
    ensures r.Success? ==> Compiled(trace, options.profile, BlockSize(options.blockSize), p) && Shaped(p)
                           && AreRecoveries(found, programs, options)
                           && r.value.states <= options.maxStates && r.value.first.states <= options.maxStates
                           && Total(r.value.first.groups) + Total(r.value.groups) <= r.value.failures
    ensures r.Success? ==> OnlyMet(p, found, recover) && TracesDiffer(found) && InOrder(found, ByPoint(rank))
    ensures r.Success? && !r.value.truncated ==> |programs| == |found|
    ensures r.Success? && !r.value.first.truncated && Exhaustive(p, options.search) ==>
              MetAll(p, found, recover) && (OneWorker(schedule) ==> MetInTime(p, found, recover))
    ensures r.Success? && !r.value.truncated && Exhaustive(p, options.search)
            && AllExhaustive(programs, options.search) ==>
              (r.value.failures == 0 <==>
                 AllAccepted(p, FirstChecker(recover, verify)) && NothingFails(found, programs, recover, verify))
    ensures r.Success? && !r.value.truncated && Exhaustive(p, options.search)
            && AllExhaustive(programs, options.search) && StartsFromGiven(recover) ==>
              && (r.value.failures == 0 <==>
                    AcceptedOnce(p, recover, verify) && AcceptedByRecorded(p, found, options, recover, verify))
              && (OneWorker(schedule) ==>
                    (r.value.failures == 0 <==>
                       AcceptedOnce(p, recover, verify) && AcceptedByFirst(p, options, recover, verify)))
              && (SameMarks(p, recover) ==>
                    (r.value.failures == 0 <==>
                       AcceptedOnce(p, recover, verify) && AcceptedByOwn(p, options, recover, verify)))
              && (AcceptedOnce(p, recover, verify) && AcceptedByOwn(p, options, recover, verify) ==>
                    r.value.failures == 0)
  {
    hide IsProgram, Run, TreeAfter, Exhaustive, AllAccepted, Fails, Shaped, IsNormalTrace, WellFormed, AreReal,
      SawEverything, FoundAll, TracesDiffer, NothingFails, AllExhaustive, MetAll, RecoversNormally, OnlyMet,
      ByPoint, Total, InOrder, Counts, Merges, AcceptedByFirst, AcceptedByOwn, AcceptedByRecorded, SameMarks, MetInTime,
      StartsWithJobs, IsSchedule, OneWorker, StartsFromGiven, Restarts, AcceptedOnce;
    found, programs := [], [];
    var main, calls, q := CheckTrace(trace, options, FirstChecker(recover, verify), coin);
    p := q;
    if main.Failure? {
      return Failure(main.error), p, found, programs;
    }
    var report := main.value;
    JobsWereFirst(p, calls, report.states);
    var heard := Heard(calls, report.states, schedule);
    HeardIsReal(p, calls, report.states, schedule);
    var met := Collect(heard, recover);
    found := SortFound(met, rank);
    SameElements(found, met);
    SameFoundAll(met, found, heard, recover);
    SortingKeepsTraces(met, found);
    FoundWereMet(p, heard, found, recover);
    FoundAreExplorable(trace, options.profile, BlockSize(options.blockSize), p, found, recover);
    if !report.truncated && Exhaustive(p, options.search) {
      HeardMeansMet(p, calls, report.states, schedule, found, recover);
    }
    var states: nat, failures: nat, truncated: bool, groups: seq<Group> := 0, report.failures, report.truncated, [];
    NoRecoveries(found, options, recover, verify);
    NoTotal();
    var i := 0;
    while i < |found|
      invariant i <= |found| && |programs| == i && AreRecoveries(found, programs, options)
      invariant Total(report.groups) + Total(groups) <= failures
      invariant states <= options.maxStates && (!truncated ==> !report.truncated)
      invariant !truncated && Exhaustive(p, options.search) && AllExhaustive(programs, options.search) ==>
                  (failures == 0 <==>
                     AllAccepted(p, FirstChecker(recover, verify)) && NothingFails(found, programs, recover, verify))
    {
      var f := found[i];
      assert f in found;
      if states == options.maxStates {
        truncated := true;
        break;
      }
      var again, ignored, sub := CheckTrace(f.trace, options.(maxStates := options.maxStates - states),
                                            SecondChecker(recover, verify, f.marks), coin);
      if again.Failure? {
        return Failure(again.error), p, found, programs;
      }
      OneMoreRecovery(found, programs, options, sub, recover, verify);
      states, failures := states + again.value.states, failures + again.value.failures;
      truncated := truncated || again.value.truncated;
      ghost var before := groups;
      groups := MergeAll(groups, again.value.groups);
      MergedTotal(before, again.value.groups, groups);
      programs := programs + [sub];
      i := i + 1;
    }
    if !truncated && Exhaustive(p, options.search) && StartsFromGiven(recover) {
      RecoveriesRestart(trace, options.profile, BlockSize(options.blockSize), p, recover);
      RecordedAndOwn(p, found, options, recover, verify);
      FirstJudges(p, recover, verify);
      if AcceptedOnce(p, recover, verify) {
        JudgedByRecorded(p, found, programs, options, recover, verify);
      }
      if OneWorker(schedule) && AcceptedOnce(p, recover, verify) {
        RecordedIsFirst(p, found, options, recover, verify);
      }
    }
    r := Success(RecoveryReport(report, states, truncated, failures, groups));
  }

  lemma MergedTotal(groups: seq<Group>, more: seq<Group>, out: seq<Group>)
    requires Merges(groups, more, out)
    ensures Total(out) == Total(groups) + Total(more)
  {
  }

  lemma SortingKeepsTraces(a: seq<Found>, b: seq<Found>)
    requires multiset(a) == multiset(b) && TracesDiffer(a)
    ensures TracesDiffer(b)
  {
    forall i, j | 0 <= i < j < |b| ensures b[i].trace != b[j].trace {
      if b[i].trace == b[j].trace {
        SameElements(a, b);
        assert b[i] in b && b[j] in b;
        OneOfEachTrace(a, b[i], b[j]);
        OccursTwice(b, i, j);
        assert false;
      }
    }
  }

  lemma OneOfEachTrace(a: seq<Found>, x: Found, y: Found)
    requires TracesDiffer(a) && x in a && y in a && x.trace == y.trace
    ensures x == y && multiset(a)[x] == 1
  {
    var k :| 0 <= k < |a| && a[k] == x;
    assert a == a[..k] + [a[k]] + a[k + 1..];
    assert a[k] !in a[..k] && a[k] !in a[k + 1..];
  }

  lemma OccursTwice(b: seq<Found>, i: nat, j: nat)
    requires i < j < |b| && b[i] == b[j]
    ensures multiset(b)[b[i]] >= 2
  {
    assert b == b[..j] + b[j..];
    assert b[i] in b[..j] && b[j] in b[j..];
  }

  lemma NoRecoveries(found: seq<Found>, options: Options, recover: Recover, verify: Checker)
    ensures AreRecoveries(found, [], options) && NothingFails(found, [], recover, verify)
  {
  }

  lemma SameFoundAll(a: seq<Found>, b: seq<Found>, calls: seq<Call>, recover: Recover)
    requires FoundAll(a, calls, recover) && forall f :: f in a <==> f in b
    ensures FoundAll(b, calls, recover)
  {
    hide IsFoundIn, Writes;
  }

  lemma JobsWereFirst(p: Program, calls: seq<Call>, n: nat)
    requires Shaped(p) && StartsWithJobs(p, calls, n)
    ensures n <= |calls|
  {
  }

  lemma HeardMeansMet(p: Program, calls: seq<Call>, n: nat, schedule: seq<Call> -> seq<Call>, found: seq<Found>,
                      recover: Recover)
    requires Shaped(p) && n <= |calls| && IsSchedule(schedule)
    requires SawEverything(p, calls) && SawEverything(p, calls[..n])
    requires FoundAll(found, Heard(calls, n, schedule), recover)
    ensures MetAll(p, found, recover) && (OneWorker(schedule) ==> MetInTime(p, found, recover))
  {
    hide CrashTree, KeepsDurable, MetaInOrder, DataBeforeSize, DataBeforeReplace, Writes, HasTrace, IsFoundIn,
      IsSchedule;
    InAnyOrder(calls, n, schedule);
    forall point: nat, s, trace, k: nat |
      RecoveredBy(p, recover, point, s, trace) && k < |trace.ops| && !trace.ops[k].Mark?
      ensures Met(found, trace)
    {
      WritesIfWorks(trace, k);
      var i: nat :| ShowsFirst(p, calls[..n], point, s, i);
      assert calls[..n][i] in schedule(calls[..n]) && Gives(calls[..n][i], recover, trace);
      assert calls[..n][i] in Heard(calls, n, schedule);
      HasTraceIsMet(found, trace);
    }
    if OneWorker(schedule) {
      assert Heard(calls, n, schedule) == calls;
      SawMeansMet(p, calls, found, recover);
    }
  }

  lemma WritesIfWorks(trace: Trace, k: nat)
    requires k < |trace.ops| && !trace.ops[k].Mark?
    ensures Writes(trace)
  {
  }

  lemma HasTraceIsMet(found: seq<Found>, trace: Trace)
    requires HasTrace(found, trace)
    ensures Met(found, trace)
  {
  }

  lemma SawMeansMet(p: Program, calls: seq<Call>, found: seq<Found>, recover: Recover)
    requires Shaped(p) && SawEverything(p, calls) && FoundAll(found, calls, recover)
    ensures MetInTime(p, found, recover)
  {
    hide CrashTree, KeepsDurable, MetaInOrder, DataBeforeSize, DataBeforeReplace, Writes, HasTrace, IsFoundIn;
    forall point: nat, s, trace, k: nat |
      RecoveredBy(p, recover, point, s, trace) && k < |trace.ops| && !trace.ops[k].Mark?
      ensures MetBy(found, trace, point)
    {
      WritesIfWorks(trace, k);
      var i: nat :| ShowsFirst(p, calls, point, s, i);
      assert calls[i] in calls && Gives(calls[i], recover, trace);
      FirstIsEarliest(calls, found, recover, trace, i);
    }
  }

  lemma FirstIsEarliest(calls: seq<Call>, found: seq<Found>, recover: Recover, trace: Trace, i: nat)
    requires FoundAll(found, calls, recover) && Writes(trace) && i < |calls| && Gives(calls[i], recover, trace)
    requires forall j :: 0 <= j < i ==> calls[j].point <= calls[i].point
    ensures MetBy(found, trace, calls[i].point)
  {
    hide Writes;
    assert calls[i] in calls;
    var f :| f in found && f.trace == trace;
    assert IsFoundIn(f, calls, recover);
    var k: nat :| IsFirstIn(f, calls, recover, k);
    assert k <= i;
  }
}
