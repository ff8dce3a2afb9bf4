/** Legal crash states and the closure that computes them. */
module Crash {
  import opened Trace
  import opened FileSystem
  import opened Runs
  import opened Stages

  /** Which micro-ops of the first ops persisted. */
  type Persisted = seq<bool>

  predicate Subset(a: Persisted, b: Persisted) {
    |a| == |b| && forall j :: 0 <= j < |a| && a[j] ==> b[j]
  }

  /** The parts of a compiled program that crash states depend on. */
  ghost predicate Shaped(p: Program) {
    && |p.opEnd| > 0 && |p.opEnd| == |p.marksBefore| && p.opEnd[|p.opEnd| - 1] == |p.micro|
    && (forall i :: 0 <= i < |p.opEnd| ==> p.opEnd[i] <= |p.micro|)
    && (forall i :: 0 <= i < |p.marksBefore| ==> p.marksBefore[i] <= |p.marks|)
    && Closed(p.base) && (forall j :: 0 <= j < |p.micro| ==> Fits(p.micro[j].m, |p.base|))
  }

  lemma ProgramIsShaped(trace: Trace, profile: Profile, block: nat, p: Program)
    requires block > 0 && IsProgram(trace, profile, block, p)
    ensures Shaped(p) && |p.opEnd| == |trace.ops| + 1 && p.profile == profile
  {
    hide Run, FirstCover, Closed, Fits;
    RunIsRegular(trace, block, |trace.ops|);
    var s := Run(trace, block, |trace.ops|).value;
    forall j | 0 <= j < |p.micro| ensures Fits(p.micro[j].m, |p.base|) {
      assert s.micro[j] in s.micro;
    }
  }

  // ----------------------------------------------------- the declarative rules

  /** Micro-ops durable from a barrier before the crash point persist. */
  ghost predicate KeepsDurable(p: Program, point: nat, s: Persisted)
    requires |s| <= |p.micro|
  {
    forall j :: 0 <= j < |s| && p.micro[j].durableAt < point ==> s[j]
  }

  /** Rule 1: if a metadata micro-op persisted, every earlier one did. */
  ghost predicate MetaInOrder(p: Program, s: Persisted)
    requires |s| <= |p.micro|
  {
    forall i, j :: 0 <= i < j < |s| && IsMeta(p.micro[i].m) && IsMeta(p.micro[j].m) && s[j] ==> s[i]
  }

  /** Rule 2: if a size extension persisted, every earlier write to that inode did. */
  ghost predicate DataBeforeSize(p: Program, s: Persisted)
    requires |s| <= |p.micro|
  {
    forall i, j :: 0 <= i < j < |s| && p.micro[i].m.Write? && Extends(p.micro[j].m, p.micro[i].m.ino) && s[j] ==> s[i]
  }

  predicate Extends(m: Micro, ino: Ino) {
    m.SetLen? && m.keepTail && m.ino == ino
  }

  /** Rule 3: if a replacing rename persisted, every earlier write to the renamed inode did. */
  ghost predicate DataBeforeReplace(p: Program, s: Persisted)
    requires |s| <= |p.micro|
  {
    forall i, j :: 0 <= i < j < |s| && p.micro[i].m.Write? && Replaces(p.micro[j].m, p.micro[i].m.ino) && s[j] ==> s[i]
  }

  predicate Replaces(m: Micro, ino: Ino) {
    m.Rename? && m.replacing && m.ino == ino
  }

  /** A legal crash state after the first `point` ops. */
  ghost predicate Legal(p: Program, point: nat, s: Persisted) {
    && point < |p.opEnd| && |s| == p.opEnd[point] <= |p.micro|
    && KeepsDurable(p, point, s)
    && (p.profile == Ext4Ordered ==> MetaInOrder(p, s) && DataBeforeSize(p, s) && DataBeforeReplace(p, s))
  }

  /** `s` is the least legal state that keeps everything in `start`. */
  ghost predicate LeastLegal(p: Program, point: nat, start: Persisted, s: Persisted) {
    && Legal(p, point, s) && Subset(start, s)
    && forall q :: Legal(p, point, q) && Subset(start, q) ==> Subset(s, q)
  }

  // ---------------------------------------------------------------- closure

  ghost function WithDurable(p: Program, point: nat, s: Persisted): (r: Persisted)
    requires |s| <= |p.micro|
    ensures |r| == |s|
  {
    seq(|s|, j requires 0 <= j < |s| => s[j] || p.micro[j].durableAt < point)
  }

  ghost predicate LaterMeta(p: Program, s: Persisted, j: nat)
    requires |s| <= |p.micro|
  {
    exists l :: j < l < |s| && s[l] && IsMeta(p.micro[l].m)
  }

  ghost function WithEarlierMeta(p: Program, s: Persisted): (r: Persisted)
    requires |s| <= |p.micro|
    ensures |r| == |s|
  {
    seq(|s|, j requires 0 <= j < |s| => s[j] || (IsMeta(p.micro[j].m) && LaterMeta(p, s, j)))
  }

  /** A persisted micro-op that had to wait for the data of `ino`. */
  predicate Waits(m: Micro, ino: Ino) {
    Extends(m, ino) || Replaces(m, ino)
  }

  ghost predicate LaterWaits(p: Program, s: Persisted, j: nat, ino: Ino)
    requires |s| <= |p.micro|
  {
    exists l :: j < l < |s| && s[l] && Waits(p.micro[l].m, ino)
  }

  ghost function WithFlushedData(p: Program, s: Persisted): (r: Persisted)
    requires |s| <= |p.micro|
    ensures |r| == |s|
  {
    seq(|s|, j requires 0 <= j < |s| => s[j] || (p.micro[j].m.Write? && LaterWaits(p, s, j, p.micro[j].m.ino)))
  }

  /** One pass: durable micro-ops, then metadata in order, then the data that had to come first. */
  ghost function Closure(p: Program, point: nat, s: Persisted): (r: Persisted)
    requires |s| <= |p.micro|
    ensures |r| == |s|
  {
    var kept := WithDurable(p, point, s);
    if p.profile != Ext4Ordered then kept else WithFlushedData(p, WithEarlierMeta(p, kept))
  }

  lemma ClosureIsLegal(p: Program, point: nat, s: Persisted)
    requires point < |p.opEnd| && |s| == p.opEnd[point] <= |p.micro|
    ensures Legal(p, point, Closure(p, point, s)) && Subset(s, Closure(p, point, s))
  {
    if p.profile == Ext4Ordered {
      var kept := WithDurable(p, point, s);
      var ordered := WithEarlierMeta(p, kept);
      var all := WithFlushedData(p, ordered);
      assert forall j :: 0 <= j < |s| && IsMeta(p.micro[j].m) ==> all[j] == ordered[j];
      forall i, j | 0 <= i < j < |s| && IsMeta(p.micro[i].m) && IsMeta(p.micro[j].m) && all[j] ensures all[i] {
        assert kept[j] || LaterMeta(p, kept, j);
        assert LaterMeta(p, kept, i);
      }
      forall i, j | 0 <= i < j < |s| && p.micro[i].m.Write? && Waits(p.micro[j].m, p.micro[i].m.ino) && all[j]
        ensures all[i]
      {
        assert LaterWaits(p, ordered, i, p.micro[i].m.ino);
      }
    }
  }

  lemma ClosureIsBelow(p: Program, point: nat, s: Persisted, q: Persisted)
    requires Legal(p, point, q) && Subset(s, q)
    ensures Subset(Closure(p, point, s), q)
  {
    var kept := WithDurable(p, point, s);
    assert Subset(kept, q);
    if p.profile == Ext4Ordered {
      var ordered := WithEarlierMeta(p, kept);
      assert Subset(ordered, q);
    }
  }

  /** The one-pass closure of any candidate is its least legal superset. */
  lemma ClosureIsLeast(p: Program, point: nat, s: Persisted)
    requires point < |p.opEnd| && |s| == p.opEnd[point] <= |p.micro|
    ensures LeastLegal(p, point, s, Closure(p, point, s))
  {
    hide Closure, Legal;
    ClosureIsLegal(p, point, s);
    forall q | Legal(p, point, q) && Subset(s, q) ensures Subset(Closure(p, point, s), q) {
      ClosureIsBelow(p, point, s, q);
    }
  }

  lemma SubsetsAgree(a: Persisted, b: Persisted)
    requires Subset(a, b) && Subset(b, a)
    ensures a == b
  {
    assert forall j :: 0 <= j < |a| ==> a[j] == b[j];
  }

  lemma LeastIsUnique(p: Program, point: nat, start: Persisted, a: Persisted, b: Persisted)
    requires LeastLegal(p, point, start, a) && LeastLegal(p, point, start, b)
    ensures a == b
  {
    hide Legal;
    SubsetsAgree(a, b);
  }

  // ------------------------------------------------------------- the algebra

  function Union(a: Persisted, b: Persisted): (r: Persisted)
    requires |a| == |b|
    ensures |r| == |a|
  {
    seq(|a|, j requires 0 <= j < |a| => a[j] || b[j])
  }

  function Intersection(a: Persisted, b: Persisted): (r: Persisted)
    requires |a| == |b|
    ensures |r| == |a|
  {
    seq(|a|, j requires 0 <= j < |a| => a[j] && b[j])
  }

  /** The legal states at a point form a lattice under union and intersection. */
  lemma LegalStatesFormLattice(p: Program, point: nat, a: Persisted, b: Persisted)
    requires Legal(p, point, a) && Legal(p, point, b)
    ensures Legal(p, point, Union(a, b)) && Legal(p, point, Intersection(a, b))
  {
    var u, n := Union(a, b), Intersection(a, b);
    assert forall j :: 0 <= j < |a| ==> u[j] == (a[j] || b[j]) && n[j] == (a[j] && b[j]);
  }

  /** Closing is idempotent, monotone, and distributes over union. */
  lemma ClosureIsIdempotent(p: Program, point: nat, s: Persisted)
    requires Legal(p, point, s)
    ensures Closure(p, point, s) == s
  {
    hide Closure, Legal;
    LegalSize(p, point, s);
    ClosureIsLeast(p, point, s);
    SubsetsAgree(Closure(p, point, s), s);
  }

  lemma LegalSize(p: Program, point: nat, s: Persisted)
    requires Legal(p, point, s)
    ensures point < |p.opEnd| && |s| == p.opEnd[point] <= |p.micro| && KeepsDurable(p, point, s)
  {
  }

  lemma ClosureOfUnion(p: Program, point: nat, a: Persisted, b: Persisted)
    requires point < |p.opEnd| && |a| == |b| == p.opEnd[point] <= |p.micro|
    ensures Closure(p, point, Union(a, b)) == Union(Closure(p, point, a), Closure(p, point, b))
    ensures Subset(a, b) ==> Subset(Closure(p, point, a), Closure(p, point, b))
  {
    hide Closure, Legal;
    var ca, cb, cu := Closure(p, point, a), Closure(p, point, b), Closure(p, point, Union(a, b));
    ClosureIsLeast(p, point, a);
    ClosureIsLeast(p, point, b);
    ClosureIsLeast(p, point, Union(a, b));
    LegalStatesFormLattice(p, point, ca, cb);
    assert Subset(a, cu) && Subset(b, cu);
    assert Subset(ca, cu) && Subset(cb, cu);
    assert Subset(Union(a, b), Union(ca, cb));
    SubsetsAgree(Union(ca, cb), cu);
    if Subset(a, b) {
      assert Subset(a, cb);
    }
  }
}
