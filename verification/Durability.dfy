/** What barriers buy: durability of micro-ops, of files and of directories, and
    how the two profiles compare. */
module Durability {
  import opened Wrappers
  import opened Trace
  import opened FileSystem
  import opened Runs
  import opened Stages
  import opened Crash
  import opened Enumerate
  import opened Locality

  // ------------------------------------------------- a program and its stages

  ghost predicate Compiled(trace: Trace, profile: Profile, block: nat, p: Program) {
    block > 0 && |trace.ops| < NEVER && IsProgram(trace, profile, block, p)
  }

  /** The run behind a program, after `k` ops. */
  ghost function StageOf(trace: Trace, block: nat, k: nat): Stage
    requires block > 0 && k <= |trace.ops| && Run(trace, block, k).Success?
  {
    Run(trace, block, k).value
  }

  ghost predicate IsStageOf(p: Program, k: nat, s: Stage) {
    && Regular(s, k) && k < |p.opEnd| && p.opEnd[k] == |s.micro| <= |p.micro|
    && Micros(p.micro)[..|s.micro|] == s.micro && s.base <= p.base
    && (forall j :: 0 <= j < |s.micro| ==> p.micro[j].op == s.owner[j])
    && s.marks <= p.marks && k < |p.marksBefore| && p.marksBefore[k] == |s.marks|
  }

  lemma ProgramStages(trace: Trace, profile: Profile, block: nat, p: Program, k: nat)
    requires Compiled(trace, profile, block, p) && k <= |trace.ops|
    ensures Shaped(p) && |p.opEnd| == |trace.ops| + 1
    ensures Run(trace, block, k).Success? && IsStageOf(p, k, StageOf(trace, block, k))
    ensures forall i :: 0 <= i <= k ==> i < |p.opEnd| && p.opEnd[i] == StageOf(trace, block, k).opEnd[i]
  {
    hide Run, FirstCover, Closed, Fits, AllFit;
    ProgramIsShaped(trace, profile, block, p);
    RunPrecedes(trace, block, k, |trace.ops|);
    RunIsRegular(trace, block, k);
    RunIsRegular(trace, block, |trace.ops|);
    var s, t := StageOf(trace, block, k), StageOf(trace, block, |trace.ops|);
    assert Micros(p.micro) == t.micro;
    assert s.opEnd[k] == t.opEnd[k] && s.marksBefore[k] == t.marksBefore[k];
  }

  lemma FirstEnd(trace: Trace, profile: Profile, block: nat, p: Program)
    requires Compiled(trace, profile, block, p)
    ensures |p.opEnd| > 0 && p.opEnd[0] == 0
  {
    hide Run, FirstCover;
    ProgramStages(trace, profile, block, p, 0);
    ProgramStages(trace, profile, block, p, |trace.ops|);
  }

  /** One more op of a run. */
  lemma RunStep(trace: Trace, block: nat, i: nat)
    requires block > 0 && i < |trace.ops| && Run(trace, block, i + 1).Success?
    ensures Run(trace, block, i).Success?
    ensures var s, op := StageOf(trace, block, i), trace.ops[i];
            var out := OutcomeOf(s.view, op, block);
            out.Emits? && StageOf(trace, block, i + 1) == Advance(s, i, op, out.born, out.micros)
  {
    hide OutcomeOf, Advance;
  }

  lemma {:induction false} ReplayedConcat(fs: Image, a: seq<Micro>, b: seq<Micro>)
    ensures Replayed(fs, a + b) == Replayed(Replayed(fs, a), b)
  {
    hide Applied;
    if b == [] {
      assert a + b == a;
    } else {
      assert (a + b)[..|a| + |b| - 1] == a + b[..|b| - 1];
      ReplayedConcat(fs, a, b[..|b| - 1]);
    }
  }

  /** Micro-ops that stay inside a table leave what is appended to it alone. */
  lemma {:induction false} ReplayedPadded(fs: Image, extra: Image, ms: seq<Micro>)
    requires AllFit(ms, |fs|)
    ensures Replayed(fs + extra, ms) == Replayed(fs, ms) + extra
  {
    if ms != [] {
      ReplayedPadded(fs, extra, ms[..|ms| - 1]);
      AppliedPadded(Replayed(fs, ms[..|ms| - 1]), extra, ms[|ms| - 1]);
    }
  }

  lemma AppliedPadded(fs: Image, extra: Image, m: Micro)
    requires Fits(m, |fs|)
    ensures Applied(fs + extra, m) == Applied(fs, m) + extra
  {
  }

  lemma {:induction false} ViewIsReplay(trace: Trace, block: nat, k: nat)
    requires block > 0 && k <= |trace.ops| && Run(trace, block, k).Success?
    ensures Replayed(StageOf(trace, block, k).base, StageOf(trace, block, k).micro) == StageOf(trace, block, k).view
  {
    hide OutcomeOf, Replayed, Closed, Fits;
    if k == 0 {
      ReplayedNothing(Start(trace).base);
    } else {
      ViewIsReplay(trace, block, k - 1);
      RunIsRegular(trace, block, k - 1);
      var s := StageOf(trace, block, k - 1);
      var out := OutcomeOf(s.view, trace.ops[k - 1], block);
      ReplayedPadded(s.base, out.born, s.micro);
      ReplayedConcat(s.base + out.born, s.micro, out.micros);
    }
  }

  /** Replaying the first `k` ops' micro-ops on the padded initial image gives the view after them,
      followed by the inodes not created yet. */
  lemma VolatileIsView(trace: Trace, profile: Profile, block: nat, p: Program, k: nat)
    requires Compiled(trace, profile, block, p) && k <= |trace.ops|
    ensures Shaped(p) && Run(trace, block, k).Success? && IsStageOf(p, k, StageOf(trace, block, k))
    ensures var v := StageOf(trace, block, k).view;
            |v| <= |p.base| && Volatile(p, k) == v + p.base[|v|..]
  {
    hide Run, Replayed, FirstCover, IsProgram, Shaped;
    ProgramStages(trace, profile, block, p, k);
    ViewIsReplay(trace, block, k);
    var s := StageOf(trace, block, k);
    assert p.base == s.base + p.base[|s.base|..];
    ReplayedPadded(s.base, p.base[|s.base|..], s.micro);
  }

  // -------------------------------------------------------------- durability

  /** Whatever a barrier at op `i` covers is durable from `i` at the latest. */
  lemma CoveredIsDurable(trace: Trace, profile: Profile, block: nat, p: Program, i: nat, j: nat)
    requires Compiled(trace, profile, block, p) && i < |trace.ops| && j < |p.micro| && p.micro[j].op < i
    requires CoveredAt(trace, profile, block, i, p.micro[j].m)
    ensures p.micro[j].durableAt <= i
  {
    hide Run, CoveredAt;
    assert FirstCover(trace, profile, block, |trace.ops|, p.micro[j].op, p.micro[j].m, p.micro[j].durableAt);
  }

  /** A micro-op counts as durable only because of a barrier after it that covers it. */
  lemma DurableIsCovered(trace: Trace, profile: Profile, block: nat, p: Program, j: nat)
    requires Compiled(trace, profile, block, p) && j < |p.micro| && p.micro[j].durableAt != NEVER
    ensures p.micro[j].op < p.micro[j].durableAt < |trace.ops|
    ensures CoveredAt(trace, profile, block, p.micro[j].durableAt, p.micro[j].m)
  {
    hide Run, CoveredAt;
    assert FirstCover(trace, profile, block, |trace.ops|, p.micro[j].op, p.micro[j].m, p.micro[j].durableAt);
  }

  lemma FirstCoverIsUnique(trace: Trace, profile: Profile, block: nat, owner: nat, m: Micro, d: nat, e: nat)
    requires block > 0 && |trace.ops| < NEVER
    requires FirstCover(trace, profile, block, |trace.ops|, owner, m, d)
    requires FirstCover(trace, profile, block, |trace.ops|, owner, m, e)
    ensures d == e
  {
    hide CoveredAt;
    assert !(d < e) && !(e < d);
  }

  /** A trace compiles to one program. */
  lemma ProgramIsUnique(trace: Trace, profile: Profile, block: nat, p: Program, q: Program)
    requires Compiled(trace, profile, block, p) && Compiled(trace, profile, block, q)
    ensures p == q
  {
    hide Run, FirstCover;
    forall j | 0 <= j < |p.micro| ensures p.micro[j] == q.micro[j] {
      var a, b := p.micro[j], q.micro[j];
      FirstCoverIsUnique(trace, profile, block, a.op, a.m, a.durableAt, b.durableAt);
    }
    assert p.micro == q.micro;
  }

  lemma {:induction false} FirstCoverExists(trace: Trace, profile: Profile, block: nat, owner: nat, m: Micro, from: nat)
    returns (d: nat)
    requires block > 0 && owner < from <= |trace.ops| < NEVER
    requires forall i :: owner < i < from ==> !CoveredAt(trace, profile, block, i, m)
    ensures FirstCover(trace, profile, block, |trace.ops|, owner, m, d)
    decreases |trace.ops| - from
  {
    hide CoveredAt;
    if from == |trace.ops| {
      d := NEVER;
    } else if CoveredAt(trace, profile, block, from, m) {
      d := from;
    } else {
      d := FirstCoverExists(trace, profile, block, owner, m, from + 1);
    }
  }

  /** A trace whose ops all replay compiles to a program. */
  lemma ProgramExists(trace: Trace, profile: Profile, block: nat)
    requires block > 0 && |trace.ops| < NEVER && Run(trace, block, |trace.ops|).Success?
    ensures exists p :: Compiled(trace, profile, block, p)
  {
    hide Run, FirstCover, Closed, Fits, AllFit, Covers;
    RunIsRegular(trace, block, |trace.ops|);
    var s := StageOf(trace, block, |trace.ops|);
    var micro: seq<MicroOp> := [];
    for j := 0 to |s.micro|
      invariant |micro| == j
      invariant forall i :: 0 <= i < j ==>
        && micro[i].m == s.micro[i] && micro[i].op == s.owner[i]
        && FirstCover(trace, profile, block, |trace.ops|, s.owner[i], s.micro[i], micro[i].durableAt)
    {
      var d := FirstCoverExists(trace, profile, block, s.owner[j], s.micro[j], s.owner[j] + 1);
      micro := micro + [MicroOp(s.micro[j], s.owner[j], d)];
    }
    assert Compiled(trace, profile, block, Program(s.base, micro, s.opEnd, profile, s.marksBefore, s.marks));
  }

  /** Some legal crash state is without micro-op `j`. */
  ghost predicate Losable(p: Program, point: nat, j: nat) {
    exists s :: Legal(p, point, s) && j < |s| && !s[j]
  }

  ghost predicate CoveredBy(trace: Trace, profile: Profile, block: nat, p: Program, point: nat, j: nat)
    requires block > 0 && point <= |trace.ops| && j < |p.micro|
  {
    exists i :: p.micro[j].op < i < point && CoveredAt(trace, profile, block, i, p.micro[j].m)
  }

  /** On posix a crash can lose a micro-op exactly when no barrier before the crash covers it. */
  lemma LosableIffUncovered(trace: Trace, block: nat, p: Program, point: nat, j: nat)
    requires Compiled(trace, Posix, block, p) && point <= |trace.ops|
    requires |p.opEnd| == |trace.ops| + 1 && j < p.opEnd[point] <= |p.micro|
    ensures Losable(p, point, j) <==> !CoveredBy(trace, Posix, block, p, point, j)
  {
    hide Run, CoveredAt, FirstCover;
    if CoveredBy(trace, Posix, block, p, point, j) {
      var i :| p.micro[j].op < i < point && CoveredAt(trace, Posix, block, i, p.micro[j].m);
      CoveredIsDurable(trace, Posix, block, p, i, j);
    } else {
      if p.micro[j].durableAt < point {
        DurableIsCovered(trace, Posix, block, p, j);
      }
      var s := seq(p.opEnd[point], k => k != j);
      assert Legal(p, point, s);
    }
  }

  /** Which op a micro-op index belongs to. */
  lemma OwnerOf(trace: Trace, profile: Profile, block: nat, p: Program, k: nat, j: nat)
    requires Compiled(trace, profile, block, p) && k <= |trace.ops| && k < |p.opEnd| && j < |p.micro|
    ensures p.micro[j].op < |trace.ops|
    ensures j < p.opEnd[k] <==> p.micro[j].op < k
  {
    hide Run, FirstCover, Closed, Fits, AllFit;
    ProgramStages(trace, profile, block, p, |trace.ops|);
  }

  /** `fsync` of a path that names inode `ino` at op `i`. */
  ghost predicate Fsyncs(trace: Trace, block: nat, i: nat, ino: Ino)
    requires block > 0 && i < |trace.ops|
  {
    && Run(trace, block, i).Success? && trace.ops[i].Fsync?
    && Lookup(StageOf(trace, block, i).view, trace.ops[i].path) == Some(ino)
  }

  /** Nothing emitted from op `i` on, before the crash point, touches node `n`. */
  ghost predicate QuietSince(p: Program, i: nat, point: nat, n: Ino)
    requires i < |p.opEnd| && point < |p.opEnd| && p.opEnd[point] <= |p.micro| && n < |p.base|
  {
    forall j :: p.opEnd[i] <= j < p.opEnd[point] ==> !Touches(p.micro[j].m, n, p.base[n].FileNode?)
  }

  /** A file that was fsynced and not written or resized since is intact in every legal crash state,
      under either profile and whatever renames came in between. */
  lemma FsyncedFileIsIntact(trace: Trace, profile: Profile, block: nat, p: Program, i: nat, point: nat, ino: Ino,
                            s: Persisted)
    requires Compiled(trace, profile, block, p) && i < point <= |trace.ops| && Fsyncs(trace, block, i, ino)
    requires |p.opEnd| == |trace.ops| + 1 && Legal(p, point, s) && ino < |p.base| && p.base[ino].FileNode?
    requires QuietSince(p, i, point, ino)
    ensures CrashImage(p, s)[ino] == Volatile(p, point)[ino]
  {
    hide Run, IsProgram, CrashImage, Volatile, Lookup, FirstCover;
    forall j | 0 <= j < |s| && Touches(p.micro[j].m, ino, true) ensures s[j] {
      OwnerOf(trace, profile, block, p, i, j);
      CoveredIsDurable(trace, profile, block, p, i, j);
    }
    NothingLostNothingChanged(p, point, s, ino);
  }

  /** The same for a directory's entries, except that renames out of it are durable only through
      their target directory. */
  lemma FsyncedDirIsIntact(trace: Trace, profile: Profile, block: nat, p: Program, i: nat, point: nat, d: Ino,
                           s: Persisted)
    requires Compiled(trace, profile, block, p) && i < point <= |trace.ops| && Fsyncs(trace, block, i, d)
    requires |p.opEnd| == |trace.ops| + 1 && Legal(p, point, s) && d < |p.base| && p.base[d].DirNode?
    requires QuietSince(p, i, point, d)
    requires forall j :: 0 <= j < |s| && p.micro[j].m.Rename? && p.micro[j].m.from == d && p.micro[j].m.to != d ==> s[j]
    ensures CrashImage(p, s)[d] == Volatile(p, point)[d]
  {
    hide Run, IsProgram, CrashImage, Volatile, Lookup, FirstCover;
    forall j | 0 <= j < |s| && Touches(p.micro[j].m, d, false) ensures s[j] {
      OwnerOf(trace, profile, block, p, i, j);
      if InScope(d, p.micro[j].m) {
        CoveredIsDurable(trace, profile, block, p, i, j);
      }
    }
    NothingLostNothingChanged(p, point, s, d);
  }

  // --------------------------------------------------- comparing the profiles

  /** One trace under both profiles: the same micro-ops, each durable at least as early on ext4. */
  lemma Ext4IsDurableSooner(trace: Trace, block: nat, posix: Program, ext4: Program)
    requires Compiled(trace, Posix, block, posix) && Compiled(trace, Ext4Ordered, block, ext4)
    ensures posix.base == ext4.base && posix.opEnd == ext4.opEnd && Micros(posix.micro) == Micros(ext4.micro)
    ensures posix.marks == ext4.marks && posix.marksBefore == ext4.marksBefore
    ensures forall j :: 0 <= j < |posix.micro| && j < |ext4.micro| ==>
              ext4.micro[j].durableAt <= posix.micro[j].durableAt
  {
    hide Run, CoveredAt;
    forall j | 0 <= j < |posix.micro| && j < |ext4.micro|
      ensures ext4.micro[j].durableAt <= posix.micro[j].durableAt
    {
      if posix.micro[j].durableAt != NEVER {
        DurableIsCovered(trace, Posix, block, posix, j);
        CoveredOnExt4Too(trace, block, posix.micro[j].durableAt, posix.micro[j].m);
        CoveredIsDurable(trace, Ext4Ordered, block, ext4, posix.micro[j].durableAt, j);
      } else {
        assert FirstCover(trace, Ext4Ordered, block, |trace.ops|, ext4.micro[j].op, ext4.micro[j].m,
          ext4.micro[j].durableAt);
      }
    }
  }

  lemma CoveredOnExt4Too(trace: Trace, block: nat, i: nat, m: Micro)
    requires block > 0 && i < |trace.ops| && CoveredAt(trace, Posix, block, i, m)
    ensures CoveredAt(trace, Ext4Ordered, block, i, m)
  {
    hide Run, BarrierOf;
  }

  /** posix is an over-approximation: every legal ext4 crash state is a legal posix one, and shows
      the same tree. */
  lemma Ext4StatesArePosixStates(trace: Trace, block: nat, posix: Program, ext4: Program, point: nat, s: Persisted)
    requires Compiled(trace, Posix, block, posix) && Compiled(trace, Ext4Ordered, block, ext4) && Legal(ext4, point, s)
    ensures Shaped(posix) && Shaped(ext4) && Legal(posix, point, s)
    ensures CrashTree(posix, s) == CrashTree(ext4, s)
  {
    hide Run, FirstCover, CrashImage;
    Ext4IsDurableSooner(trace, block, posix, ext4);
    ProgramIsShaped(trace, Posix, block, posix);
    ProgramIsShaped(trace, Ext4Ordered, block, ext4);
    SameImage(posix, ext4, s);
  }

  lemma SameImage(a: Program, b: Program, s: Persisted)
    requires a.base == b.base && Micros(a.micro) == Micros(b.micro) && |s| <= |a.micro| && |s| <= |b.micro|
    ensures CrashImage(a, s) == CrashImage(b, s)
  {
  }
}
