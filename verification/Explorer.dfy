/** Exploring the crash states of a compiled trace: enumerate and dedupe them,
    run the checker on each, minimize and group the failures. */
module Explorer {
  import opened Trace
  import opened Runs
  import opened Crash
  import opened Enumerate

  datatype Verdict = Accepted | Rejected(message: string)

  /** The content of a crash state and how much had been acknowledged. */
  datatype Key = Key(tree: Tree, marks: nat)

  datatype Job = Job(point: nat, persisted: Persisted, key: Key)

  /** The checker sees the recovered tree and the marks emitted before the crash. */
  type Checker = (Tree, seq<string>) -> Verdict

  // ------------------------------------------------------------ the question

  ghost function KeyOf(p: Program, point: nat, s: Persisted, withMarks: bool): Key
    requires Shaped(p) && point < |p.opEnd| && |s| <= |p.micro|
  {
    Key(CrashTree(p, s), if withMarks then p.marksBefore[point] else 0)
  }

  ghost function Judge(p: Program, checker: Checker, point: nat, s: Persisted, withMarks: bool): Verdict
    requires Shaped(p) && point < |p.opEnd| && |s| <= |p.micro|
  {
    checker(CrashTree(p, s), if withMarks then p.marks[..p.marksBefore[point]] else [])
  }

  /** The checker accepts every legal crash state at every point. */
  ghost predicate AllAccepted(p: Program, checker: Checker)
    requires Shaped(p)
  {
    forall point, s :: Legal(p, point, s) ==> Judge(p, checker, point, s, true) == Accepted
  }

  ghost predicate Fails(p: Program, checker: Checker, point: nat, s: Persisted)
    requires Shaped(p)
  {
    Legal(p, point, s) && Judge(p, checker, point, s, true).Rejected?
  }

  /** Few enough micro-ops in flight everywhere for exhaustive enumeration. */
  ghost predicate Exhaustive(p: Program, search: Search)
    requires Shaped(p)
  {
    forall point :: 0 <= point < |p.opEnd| ==> |Flight(p, point, p.opEnd[point])| <= search.exhaustiveLimit
  }

  lemma {:induction false} FlightCounts(p: Program, point: nat, n: nat)
    requires n <= |p.micro|
    ensures |Flight(p, point, n)| == |set j | 0 <= j < n && p.micro[j].durableAt >= point|
  {
    if n > 0 {
      FlightCounts(p, point, n - 1);
      var before := set j | 0 <= j < n - 1 && p.micro[j].durableAt >= point;
      var now := set j | 0 <= j < n && p.micro[j].durableAt >= point;
      assert now == if p.micro[n - 1].durableAt >= point then before + {n - 1} else before;
    }
  }

  /** Enumeration is exhaustive exactly if nowhere more micro-ops than the limit are not durable yet. */
  lemma ExhaustiveIff(p: Program, search: Search)
    requires Shaped(p)
    ensures Exhaustive(p, search) <==>
            forall point :: 0 <= point < |p.opEnd| ==>
              |set j | 0 <= j < p.opEnd[point] && p.micro[j].durableAt >= point| <= search.exhaustiveLimit
  {
    hide Flight;
    forall point: nat | point < |p.opEnd|
      ensures |Flight(p, point, p.opEnd[point])| ==
              |set j | 0 <= j < p.opEnd[point] && p.micro[j].durableAt >= point|
    {
      ShapedBounds(p, point);
      FlightCounts(p, point, p.opEnd[point]);
    }
  }

  // ------------------------------------------------------------ enumeration

  ghost predicate JobIsSound(p: Program, job: Job)
    requires Shaped(p)
  {
    Legal(p, job.point, job.persisted) && job.key == KeyOf(p, job.point, job.persisted, true)
  }

  /** Every job is a legal crash state under its own key, and no two share one. */
  ghost predicate JobsAreSound(p: Program, jobs: seq<Job>)
    requires Shaped(p)
  {
    && (forall i :: 0 <= i < |jobs| ==> JobIsSound(p, jobs[i]))
    && (forall i, j :: 0 <= i < j < |jobs| ==> jobs[i].key != jobs[j].key)
  }

  ghost predicate HasJob(jobs: seq<Job>, key: Key) {
    exists i :: 0 <= i < |jobs| && jobs[i].key == key
  }

  ghost predicate PointCovered(p: Program, point: nat, seen: set<Key>)
    requires Shaped(p)
  {
    forall s :: Legal(p, point, s) ==> KeyOf(p, point, s, true) in seen
  }

  /** A job under that key, for a crash no later than `point`. */
  ghost predicate HasJobBy(jobs: seq<Job>, key: Key, point: nat) {
    exists i :: 0 <= i < |jobs| && jobs[i].key == key && jobs[i].point <= point
  }

  ghost predicate PointHasJobs(p: Program, point: nat, jobs: seq<Job>)
    requires Shaped(p)
  {
    forall s :: Legal(p, point, s) ==> HasJobBy(jobs, KeyOf(p, point, s, true), point)
  }

  ghost predicate EveryStateHasJob(p: Program, jobs: seq<Job>)
    requires Shaped(p)
  {
    forall point: nat, s :: Legal(p, point, s) ==> HasJobBy(jobs, KeyOf(p, point, s, true), point)
  }

  /** Earlier crashes first, none later than `last`. */
  ghost predicate JobsAscend(jobs: seq<Job>, last: nat) {
    && (forall i, j :: 0 <= i < j < |jobs| ==> jobs[i].point <= jobs[j].point)
    && (forall i :: 0 <= i < |jobs| ==> jobs[i].point <= last)
  }

  ghost predicate SeenAre(jobs: seq<Job>, seen: set<Key>) {
    forall key :: key in seen <==> HasJob(jobs, key)
  }

  lemma HasJobMore(jobs: seq<Job>, job: Job)
    ensures forall key :: HasJob(jobs + [job], key) <==> HasJob(jobs, key) || key == job.key
  {
    var more := jobs + [job];
    forall key ensures HasJob(more, key) <==> HasJob(jobs, key) || key == job.key {
      if HasJob(jobs, key) {
        var i :| 0 <= i < |jobs| && jobs[i].key == key;
        assert more[i].key == key;
      }
      if key == job.key {
        assert more[|jobs|].key == key;
      }
    }
  }

  /** Close one candidate and materialize it. */
  method CloseCandidate(p: Program, point: nat, candidate: Persisted) returns (job: Job)
    requires Shaped(p) && point < |p.opEnd| && IsCandidate(p, point, candidate)
    ensures JobIsSound(p, job) && job.point == point
    ensures p.opEnd[point] <= |p.micro| && job.key == KeyOf(p, point, Closure(p, point, candidate), true)
  {
    hide Shaped, Closure, CrashTree;
    ShapedBounds(p, point);
    var persisted := new bool[|candidate|](i requires 0 <= i < |candidate| => candidate[i]);
    assert persisted[..] == candidate;
    Close(p, point, persisted);
    var tree := Materialize(p, persisted[..]);
    job := Job(point, persisted[..], Key(tree, p.marksBefore[point]));
  }

  ghost predicate ClosedInto(p: Program, point: nat, candidate: Persisted, seen: set<Key>)
    requires Shaped(p) && point < |p.opEnd| && IsCandidate(p, point, candidate)
  {
    && p.opEnd[point] <= |p.micro|
    && KeyOf(p, point, Closure(p, point, candidate), true) in seen
  }

  /** All legal states at a point are covered once all its candidates are. */
  lemma CandidatesCover(p: Program, point: nat, candidates: seq<Persisted>, seen: set<Key>)
    requires Shaped(p) && point < |p.opEnd| && AllCandidates(p, point, candidates)
    requires forall s :: IsCandidate(p, point, s) ==> s in candidates
    requires forall i :: 0 <= i < |candidates| ==> ClosedInto(p, point, candidates[i], seen)
    ensures PointCovered(p, point, seen)
  {
    hide Shaped, KeyOf, HasJob, Closure;
    forall s | Legal(p, point, s) ensures KeyOf(p, point, s, true) in seen {
      ClosureIsIdempotent(p, point, s);
      assert IsCandidate(p, point, s);
    }
  }

  lemma AnotherJob(p: Program, jobs: seq<Job>, seen: set<Key>, job: Job)
    requires Shaped(p) && JobsAreSound(p, jobs) && SeenAre(jobs, seen) && JobIsSound(p, job) && job.key !in seen
    ensures JobsAreSound(p, jobs + [job]) && SeenAre(jobs + [job], seen + {job.key})
  {
    hide Shaped, JobIsSound;
    HasJobMore(jobs, job);
    forall i | 0 <= i < |jobs| ensures jobs[i].key != job.key {
      assert HasJob(jobs, jobs[i].key);
    }
  }

  lemma SeenHaveJobs(p: Program, point: nat, jobs: seq<Job>, seen: set<Key>)
    requires Shaped(p) && SeenAre(jobs, seen) && PointCovered(p, point, seen) && JobsAscend(jobs, point)
    ensures PointHasJobs(p, point, jobs)
  {
    hide Shaped, KeyOf, KeepsDurable, MetaInOrder, DataBeforeSize, DataBeforeReplace;
    forall s | Legal(p, point, s) ensures HasJobBy(jobs, KeyOf(p, point, s, true), point) {
      assert HasJob(jobs, KeyOf(p, point, s, true));
    }
  }

  lemma MoreJobsStillHave(p: Program, point: nat, before: seq<Job>, jobs: seq<Job>)
    requires Shaped(p) && before <= jobs && PointHasJobs(p, point, before)
    ensures PointHasJobs(p, point, jobs)
  {
    hide Shaped, KeyOf, KeepsDurable, MetaInOrder, DataBeforeSize, DataBeforeReplace;
    forall s | Legal(p, point, s) ensures HasJobBy(jobs, KeyOf(p, point, s, true), point) {
      assert HasJobBy(before, KeyOf(p, point, s, true), point);
      var i :| 0 <= i < |before| && before[i].key == KeyOf(p, point, s, true) && before[i].point <= point;
      assert jobs[i] == before[i];
    }
  }

  lemma SeenEverything(p: Program, jobs: seq<Job>)
    requires Shaped(p) && forall point :: 0 <= point < |p.opEnd| ==> PointHasJobs(p, point, jobs)
    ensures EveryStateHasJob(p, jobs)
  {
    hide Shaped, KeyOf, HasJobBy, KeepsDurable, MetaInOrder, DataBeforeSize, DataBeforeReplace;
    forall point: nat, s | Legal(p, point, s) ensures HasJobBy(jobs, KeyOf(p, point, s, true), point) {
      assert PointHasJobs(p, point, jobs);
    }
  }

  /** Step 1: one job per distinct (tree, marks), up to `maxStates`. */
  method Jobs(p: Program, search: Search, maxStates: nat, coin: (nat, nat) -> (nat, nat) -> bool)
    returns (jobs: seq<Job>, truncated: bool)
    requires Shaped(p) && search.exhaustiveLimit < 64
    ensures JobsAreSound(p, jobs) && |jobs| <= maxStates && (truncated ==> |jobs| == maxStates)
    ensures JobsAscend(jobs, |p.opEnd|)
    ensures !truncated && Exhaustive(p, search) ==> EveryStateHasJob(p, jobs)
  {
    hide Shaped, KeyOf, Closure, Flight, JobIsSound, HasJob, IsCandidate, PointCovered, PointHasJobs, Legal;
    jobs, truncated := [], false;
    var seen: set<Key> := {};
    NoJobs();
    var point := 0;
    while point < |p.opEnd|
      invariant point <= |p.opEnd| && JobsAreSound(p, jobs) && SeenAre(jobs, seen) && |jobs| <= maxStates
      invariant JobsAscend(jobs, point)
      invariant Exhaustive(p, search) ==> forall k :: 0 <= k < point ==> PointHasJobs(p, k, jobs)
    {
      var candidates := Candidates(p, point, search, i => coin(point, i));
      ghost var before := jobs;
      var c := 0;
      while c < |candidates|
        invariant c <= |candidates| && JobsAreSound(p, jobs) && SeenAre(jobs, seen) && |jobs| <= maxStates
        invariant before <= jobs && JobsAscend(jobs, point)
        invariant forall i :: 0 <= i < c ==>
          IsCandidate(p, point, candidates[i]) && ClosedInto(p, point, candidates[i], seen)
      {
        assert candidates[c] in candidates;
        var job := CloseCandidate(p, point, candidates[c]);
        if job.key !in seen {
          if |jobs| == maxStates {
            return jobs, true;
          }
          AnotherJob(p, jobs, seen, job);
          jobs := jobs + [job];
          seen := seen + {job.key};
        }
        c := c + 1;
      }
      if Exhaustive(p, search) {
        CandidatesCover(p, point, candidates, seen);
        SeenHaveJobs(p, point, jobs, seen);
        forall k | 0 <= k < point ensures PointHasJobs(p, k, jobs) {
          MoreJobsStillHave(p, k, before, jobs);
        }
      }
      point := point + 1;
    }
    if Exhaustive(p, search) {
      SeenEverything(p, jobs);
    }
  }

  lemma NoJobs()
    ensures SeenAre([], {})
  {
  }

  // ------------------------------------------- checkers that look at the point

  /** A checker that also reads how many ops had completed. */
  type PointChecker = (Tree, nat, seq<string>) -> Verdict

  ghost function JudgeAt(p: Program, checker: PointChecker, point: nat, s: Persisted): Verdict
    requires Shaped(p) && point < |p.opEnd| && |s| <= |p.micro|
  {
    checker(CrashTree(p, s), point, p.marks[..p.marksBefore[point]])
  }

  ghost predicate AllAcceptedAt(p: Program, checker: PointChecker)
    requires Shaped(p)
  {
    forall point: nat, s :: Legal(p, point, s) ==> JudgeAt(p, checker, point, s) == Accepted
  }

  /** One crash has the other's contents and marks, and is rejected where the other is accepted. */
  ghost predicate DependsOnPoint(p: Program, checker: PointChecker, a: nat, s: Persisted, b: nat, t: Persisted)
    requires Shaped(p)
  {
    && Legal(p, a, s) && Legal(p, b, t) && KeyOf(p, a, s, true) == KeyOf(p, b, t, true)
    && JudgeAt(p, checker, a, s) == Accepted && JudgeAt(p, checker, b, t) != Accepted
  }

  ghost predicate KeyDecides(p: Program, checker: PointChecker)
    requires Shaped(p)
  {
    forall a: nat, s, b: nat, t :: !DependsOnPoint(p, checker, a, s, b, t)
  }

  ghost predicate JobsAccepted(p: Program, checker: PointChecker, jobs: seq<Job>)
    requires Shaped(p) && JobsAreSound(p, jobs)
  {
    forall i :: 0 <= i < |jobs| ==> JudgeAt(p, checker, jobs[i].point, jobs[i].persisted) == Accepted
  }

  /** States are told apart by contents and marks alone. A clean complete search of a checker that reads
      the point too holds for every legal state exactly when its verdict depends on the key only. */
  lemma PointReadersAreExactIff(p: Program, checker: PointChecker, jobs: seq<Job>)
    requires Shaped(p) && JobsAreSound(p, jobs) && EveryStateHasJob(p, jobs)
    ensures AllAcceptedAt(p, checker) <==> JobsAccepted(p, checker, jobs) && KeyDecides(p, checker)
  {
    hide CrashTree, KeepsDurable, MetaInOrder, DataBeforeSize, DataBeforeReplace, JudgeAt, KeyOf, Shaped;
    if JobsAccepted(p, checker, jobs) && KeyDecides(p, checker) {
      forall point: nat, s | Legal(p, point, s) ensures JudgeAt(p, checker, point, s) == Accepted {
        assert HasJobBy(jobs, KeyOf(p, point, s, true), point);
        var i :| 0 <= i < |jobs| && jobs[i].key == KeyOf(p, point, s, true);
        assert JobIsSound(p, jobs[i]);
        assert !DependsOnPoint(p, checker, jobs[i].point, jobs[i].persisted, point, s);
      }
    }
    if AllAcceptedAt(p, checker) {
      forall i | 0 <= i < |jobs| ensures JudgeAt(p, checker, jobs[i].point, jobs[i].persisted) == Accepted {
        assert JobIsSound(p, jobs[i]);
      }
    }
  }

  /** No checker is ever shown the point after an op that emits nothing, a barrier above all: whatever is
      legal there was legal before it. */
  lemma QuietPointsAreNotShown(p: Program, jobs: seq<Job>, point: nat)
    requires Shaped(p) && JobsAreSound(p, jobs) && EveryStateHasJob(p, jobs) && point + 1 < |p.opEnd|
    requires p.opEnd[point] == p.opEnd[point + 1] && p.marksBefore[point] == p.marksBefore[point + 1]
    ensures forall i: nat :: i < |jobs| ==> jobs[i].point != point + 1
  {
    hide CrashTree, MetaInOrder, DataBeforeSize, DataBeforeReplace, Shaped;
    forall i: nat | i < |jobs| ensures jobs[i].point != point + 1 {
      assert JobIsSound(p, jobs[i]);
      if jobs[i].point == point + 1 {
        QuietStateWasLegal(p, point, jobs[i].persisted);
        OnlyJobOfItsKey(jobs, i, point);
        assert false;
      }
    }
  }

  lemma QuietStateWasLegal(p: Program, point: nat, s: Persisted)
    requires Shaped(p) && Legal(p, point + 1, s)
    requires p.opEnd[point] == p.opEnd[point + 1] && p.marksBefore[point] == p.marksBefore[point + 1]
    ensures Legal(p, point, s) && KeyOf(p, point, s, true) == KeyOf(p, point + 1, s, true)
  {
    hide CrashTree, MetaInOrder, DataBeforeSize, DataBeforeReplace;
  }

  lemma OnlyJobOfItsKey(jobs: seq<Job>, i: nat, point: nat)
    requires i < |jobs| && (forall j, k :: 0 <= j < k < |jobs| ==> jobs[j].key != jobs[k].key)
    requires HasJobBy(jobs, jobs[i].key, point)
    ensures jobs[i].point <= point
  {
  }
}
