/** What ext4's ordering buys: every crash state's names and sizes are those of
    some moment of the run, and for append-only runs its contents are too. */
module Ordered {
  import opened Trace
  import opened FileSystem
  import opened Walk
  import opened Runs
  import opened Stages
  import opened Crash
  import opened Enumerate
  import opened Locality
  import opened Bytes
  import opened Shapes
  import opened Durability

  predicate IsBarrier(op: Op) {
    op.Fsync? || op.Sync?
  }

  // ------------------------------------------------------ persisted metadata

  /** The metadata that persisted is exactly that of the first `k` ops. */
  ghost predicate MetaCutAt(p: Program, s: Persisted, k: nat)
    requires |s| <= |p.micro|
  {
    forall j :: 0 <= j < |s| && IsMeta(p.micro[j].m) ==> (s[j] <==> p.micro[j].op < k)
  }

  /** A barrier emits nothing, and on ext4 flushes all metadata before it. */
  lemma BarrierFlushesMeta(trace: Trace, block: nat, p: Program, b: nat, j: nat)
    requires Compiled(trace, Ext4Ordered, block, p) && b < |trace.ops| && IsBarrier(trace.ops[b])
    requires j < |p.micro| && p.micro[j].op <= b && IsMeta(p.micro[j].m)
    ensures p.micro[j].durableAt <= b
  {
    hide IsProgram, Lookup, OutcomeOf, Regular;
    ProgramStages(trace, Ext4Ordered, block, p, b + 1);
    ProgramStages(trace, Ext4Ordered, block, p, b);
    BarrierIsEmpty(trace, block, b);
    OwnerOf(trace, Ext4Ordered, block, p, b + 1, j);
    OwnerOf(trace, Ext4Ordered, block, p, b, j);
    CoveredIsDurable(trace, Ext4Ordered, block, p, b, j);
  }

  lemma BarrierIsEmpty(trace: Trace, block: nat, b: nat)
    requires block > 0 && b < |trace.ops| && IsBarrier(trace.ops[b]) && Run(trace, block, b + 1).Success?
    ensures Run(trace, block, b).Success?
    ensures StageOf(trace, block, b + 1).micro == StageOf(trace, block, b).micro
    ensures BarrierOf(StageOf(trace, block, b).view, trace.ops[b]) != Nothing
  {
    hide Lookup, Replayed;
  }

  /** Metadata is the last thing an op emits, so a persisted micro-op ends its op. */
  lemma MetaEndsOp(trace: Trace, profile: Profile, block: nat, p: Program, i: nat, j: nat)
    requires Compiled(trace, profile, block, p) && i < j < |p.micro| && IsMeta(p.micro[i].m)
    ensures p.micro[i].op < p.micro[j].op < |trace.ops|
  {
    hide Run, Closed, AllFit;
    ProgramStages(trace, profile, block, p, |trace.ops|);
    var t := StageOf(trace, block, |trace.ops|);
    OwnerOf(trace, profile, block, p, |trace.ops|, i);
    OwnerOf(trace, profile, block, p, |trace.ops|, j);
    OwnersAscend(t, |trace.ops|, i, i + 1);
    OwnersAscend(t, |trace.ops|, i + 1, j);
  }

  lemma OwnersAscend(s: Stage, k: nat, i: nat, j: nat)
    requires Regular(s, k) && i <= j < |s.micro|
    ensures s.owner[i] <= s.owner[j]
  {
    hide Closed, AllFit;
    var above, start := s.opEnd[s.owner[j] + 1], s.opEnd[s.owner[i]];
    assert j < above && start <= i;
  }

  lemma LastBarrier(trace: Trace, point: nat) returns (kb: nat)
    requires point <= |trace.ops|
    ensures kb <= point && (kb == 0 || IsBarrier(trace.ops[kb - 1]))
    ensures forall b :: 0 <= b < point && IsBarrier(trace.ops[b]) ==> b < kb
  {
    kb := point;
    while kb > 0 && !IsBarrier(trace.ops[kb - 1])
      invariant kb <= point
      invariant forall b :: kb <= b < point ==> !IsBarrier(trace.ops[b])
    {
      kb := kb - 1;
    }
  }

  lemma LastMeta(p: Program, s: Persisted) returns (n: nat)
    requires |s| <= |p.micro|
    ensures n <= |s| && (n > 0 ==> s[n - 1] && IsMeta(p.micro[n - 1].m))
    ensures forall j :: n <= j < |s| ==> !(s[j] && IsMeta(p.micro[j].m))
  {
    n := |s|;
    while n > 0 && !(s[n - 1] && IsMeta(p.micro[n - 1].m))
      invariant n <= |s|
      invariant forall j :: n <= j < |s| ==> !(s[j] && IsMeta(p.micro[j].m))
    {
      n := n - 1;
    }
  }

  /** In a legal ext4 state the persisted metadata is that of a whole number of ops, reaching past
      every barrier before the crash. */
  lemma MetaIsCut(trace: Trace, block: nat, p: Program, point: nat, s: Persisted) returns (k: nat)
    requires Compiled(trace, Ext4Ordered, block, p) && Legal(p, point, s) && |p.opEnd| == |trace.ops| + 1
    ensures k <= point && MetaCutAt(p, s, k)
    ensures forall b :: 0 <= b < point && IsBarrier(trace.ops[b]) ==> b < k
  {
    hide IsProgram, DataBeforeSize, DataBeforeReplace, Run;
    ProgramIsShaped(trace, Ext4Ordered, block, p);
    var kb := LastBarrier(trace, point);
    var n := LastMeta(p, s);
    k := kb;
    if n > 0 {
      OwnerOf(trace, Ext4Ordered, block, p, point, n - 1);
      k := if p.micro[n - 1].op < kb then kb else p.micro[n - 1].op + 1;
    }
    forall j | 0 <= j < |s| && IsMeta(p.micro[j].m) ensures s[j] <==> p.micro[j].op < k {
      if j < n {
        assert s[j];
        if j < n - 1 {
          MetaEndsOp(trace, Ext4Ordered, block, p, j, n - 1);
        }
      } else {
        if n > 0 {
          MetaEndsOp(trace, Ext4Ordered, block, p, n - 1, j);
        }
        if kb > 0 && p.micro[j].op < kb {
          BarrierFlushesMeta(trace, block, p, kb - 1, j);
        }
      }
    }
  }

  /** On ext4 a crash can lose a metadata micro-op exactly when there was no fsync or sync since. */
  lemma MetaIsLosableIff(trace: Trace, block: nat, p: Program, point: nat, j: nat)
    requires Compiled(trace, Ext4Ordered, block, p) && point <= |trace.ops|
    requires |p.opEnd| == |trace.ops| + 1 && j < p.opEnd[point] <= |p.micro| && IsMeta(p.micro[j].m)
    ensures Losable(p, point, j) <==> forall b :: p.micro[j].op < b < point ==> !IsBarrier(trace.ops[b])
  {
    hide IsProgram, Run, DataBeforeSize, DataBeforeReplace, MetaInOrder;
    if b :| p.micro[j].op < b < point && IsBarrier(trace.ops[b]) {
      BarrierFlushesMeta(trace, block, p, b, j);
    } else {
      UnflushedIsLosable(trace, block, p, point, j);
    }
  }

  lemma UnflushedIsLosable(trace: Trace, block: nat, p: Program, point: nat, j: nat)
    requires Compiled(trace, Ext4Ordered, block, p) && point <= |trace.ops|
    requires |p.opEnd| == |trace.ops| + 1 && j < p.opEnd[point] <= |p.micro|
    requires forall b :: p.micro[j].op < b < point ==> !IsBarrier(trace.ops[b])
    ensures Losable(p, point, j)
  {
    hide IsProgram, Run, CoveredAt;
    ProgramIsShaped(trace, Ext4Ordered, block, p);
    var s := Prefix(j, p.opEnd[point]);
    forall l | j <= l < |s| ensures p.micro[l].durableAt >= point {
      InOrderOfOps(trace, Ext4Ordered, block, p, j, l);
      if p.micro[l].durableAt < point {
        DurableIsCovered(trace, Ext4Ordered, block, p, l);
        OnlyBarriersCover(trace, Ext4Ordered, block, p.micro[l].durableAt, p.micro[l].m);
      }
    }
    assert Legal(p, point, s);
  }

  /** A later micro-op that has to wait for this data comes before an fsync or sync. */
  ghost predicate ForcedOut(trace: Trace, p: Program, point: nat, j: nat)
    requires point <= |trace.ops| && point < |p.opEnd| && j < p.opEnd[point] <= |p.micro| && p.micro[j].m.Write?
  {
    exists l, b :: j < l < p.opEnd[point] && p.micro[l].op < b < point && IsBarrier(trace.ops[b])
                   && match p.micro[l].m
                      case SetLen(ino, _, keepTail) => keepTail && ino == p.micro[j].m.ino
                      case Rename(_, _, _, _, ino, replacing) => replacing && ino == p.micro[j].m.ino
                      case _ => false
  }

  lemma WhatForcedOut(trace: Trace, p: Program, point: nat, j: nat) returns (l: nat, b: nat)
    requires point <= |trace.ops| && point < |p.opEnd| && j < p.opEnd[point] <= |p.micro| && p.micro[j].m.Write?
    requires ForcedOut(trace, p, point, j)
    ensures j < l < p.opEnd[point] && p.micro[l].op < b < point && IsBarrier(trace.ops[b])
    ensures Waits(p.micro[l].m, p.micro[j].m.ino) && IsMeta(p.micro[l].m)
  {
    l, b :| j < l < p.opEnd[point] && p.micro[l].op < b < point && IsBarrier(trace.ops[b])
            && match p.micro[l].m
               case SetLen(ino, _, keepTail) => keepTail && ino == p.micro[j].m.ino
               case Rename(_, _, _, _, ino, replacing) => replacing && ino == p.micro[j].m.ino
               case _ => false;
  }

  /** On ext4 a crash can lose data exactly when no barrier since covers it and none forced out a size
      extension or a replacing rename of the same file that was to wait for it. */
  lemma DataIsLosableIff(trace: Trace, block: nat, p: Program, point: nat, j: nat)
    requires Compiled(trace, Ext4Ordered, block, p) && point <= |trace.ops|
    requires |p.opEnd| == |trace.ops| + 1 && j < p.opEnd[point] <= |p.micro| && p.micro[j].m.Write?
    ensures Losable(p, point, j) <==>
              !CoveredBy(trace, Ext4Ordered, block, p, point, j) && !ForcedOut(trace, p, point, j)
  {
    hide IsProgram, Run, CoveredAt, MetaInOrder, Closure;
    ProgramIsShaped(trace, Ext4Ordered, block, p);
    if CoveredBy(trace, Ext4Ordered, block, p, point, j) {
      var i :| p.micro[j].op < i < point && CoveredAt(trace, Ext4Ordered, block, i, p.micro[j].m);
      CoveredIsDurable(trace, Ext4Ordered, block, p, i, j);
    } else if ForcedOut(trace, p, point, j) {
      var l, b := WhatForcedOut(trace, p, point, j);
      BarrierFlushesMeta(trace, block, p, b, l);
    } else {
      var none := Prefix(0, p.opEnd[point]);
      ClosureIsLegal(p, point, none);
      if Closure(p, point, none)[j] {
        LeastStateForces(trace, block, p, point, j);
      }
    }
  }

  /** What the least legal state keeps of the data was covered or forced out. */
  lemma LeastStateForces(trace: Trace, block: nat, p: Program, point: nat, j: nat)
    requires Compiled(trace, Ext4Ordered, block, p) && point <= |trace.ops|
    requires |p.opEnd| == |trace.ops| + 1 && j < p.opEnd[point] <= |p.micro| && p.micro[j].m.Write?
    requires Closure(p, point, Prefix(0, p.opEnd[point]))[j]
    ensures CoveredBy(trace, Ext4Ordered, block, p, point, j) || ForcedOut(trace, p, point, j)
  {
    hide IsProgram, Run, CoveredAt;
    var none := Prefix(0, p.opEnd[point]);
    var kept := WithDurable(p, point, none);
    ProgramIsShaped(trace, Ext4Ordered, block, p);
    if kept[j] {
      DurableIsCovered(trace, Ext4Ordered, block, p, j);
    } else {
      var l :| j < l < |none| && WithEarlierMeta(p, kept)[l] && Waits(p.micro[l].m, p.micro[j].m.ino);
      var m := if kept[l] then l else var m :| l < m < |kept| && kept[m] && IsMeta(p.micro[m].m); m;
      DurableIsCovered(trace, Ext4Ordered, block, p, m);
      OnlyBarriersCover(trace, Ext4Ordered, block, p.micro[m].durableAt, p.micro[m].m);
      InOrderOfOps(trace, Ext4Ordered, block, p, l, m);
      assert p.micro[l].op < p.micro[m].durableAt < point;
    }
  }

  lemma OnlyBarriersCover(trace: Trace, profile: Profile, block: nat, i: nat, m: Micro)
    requires block > 0 && i < |trace.ops| && CoveredAt(trace, profile, block, i, m)
    ensures IsBarrier(trace.ops[i])
  {
    hide Run, Lookup;
  }

  lemma InOrderOfOps(trace: Trace, profile: Profile, block: nat, p: Program, i: nat, j: nat)
    requires Compiled(trace, profile, block, p) && i <= j < |p.micro|
    ensures p.micro[i].op <= p.micro[j].op < |trace.ops|
  {
    hide IsProgram, Run, Regular;
    ProgramIsShaped(trace, profile, block, p);
    OwnerOf(trace, profile, block, p, 0, j);
    OwnerOf(trace, profile, block, p, 0, i);
    OwnerOf(trace, profile, block, p, p.micro[j].op + 1, j);
    OwnerOf(trace, profile, block, p, p.micro[j].op + 1, i);
  }

  // -------------------------------------------------------- names and lengths

  ghost predicate SameButData(a: Node, b: Node) {
    match (a, b)
    case (DirNode(e), DirNode(f)) => e == f
    case (FileNode(_, n), FileNode(_, m)) => n == m
    case _ => false
  }

  lemma EffectOnLengths(n: Ino, a: Node, b: Node, m: Micro)
    requires SameButData(a, b)
    ensures SameButData(Effect(n, a, m), Effect(n, b, m))
    ensures !IsMeta(m) ==> SameButData(Effect(n, a, m), b) && SameButData(a, Effect(n, b, m))
  {
  }

  /** Entries and lengths depend on the persisted metadata alone. */
  lemma {:induction false} LengthsDependOnMeta(n: Ino, node: Node, ms: seq<Micro>, s: Persisted, t: Persisted)
    requires |s| == |t| <= |ms| && forall j :: 0 <= j < |s| && IsMeta(ms[j]) ==> s[j] == t[j]
    ensures SameButData(NodeSurvive(n, node, ms, s), NodeSurvive(n, node, ms, t))
  {
    hide Effect;
    if s != [] {
      var k := |s| - 1;
      LengthsDependOnMeta(n, node, ms, s[..k], t[..k]);
      EffectOnLengths(n, NodeSurvive(n, node, ms, s[..k]), NodeSurvive(n, node, ms, t[..k]), ms[k]);
    }
  }

  lemma SameButDataIsAlike(a: Node, b: Node)
    requires SameButData(a, b)
    ensures NodesAlike(LengthsOnly, a, b)
  {
  }

  /** The view after `k` ops as a crash state at a later point: everything before persisted, nothing
      after. */
  lemma ViewAsState(p: Program, k: nat, point: nat)
    requires Shaped(p) && k <= point < |p.opEnd| && p.opEnd[k] <= p.opEnd[point]
    ensures p.opEnd[point] <= |p.micro|
    ensures CrashImage(p, Prefix(p.opEnd[k], p.opEnd[point])) == Volatile(p, k)
  {
    hide Replayed, Closed;
    SurvivePrefix(p.base, Micros(p.micro), p.opEnd[k], p.opEnd[point]);
  }

  lemma OpEndsAscend(trace: Trace, profile: Profile, block: nat, p: Program, k: nat, point: nat)
    requires Compiled(trace, profile, block, p) && k <= point <= |trace.ops|
    ensures Shaped(p) && |p.opEnd| == |trace.ops| + 1 && p.opEnd[k] <= p.opEnd[point] <= |p.micro|
  {
    hide IsProgram, Run, AllFit;
    ProgramStages(trace, profile, block, p, |trace.ops|);
  }

  /** ext4 prefix theorem: the names and file lengths of every legal crash state are those of the
      volatile view after some `k` ops, no older than the last fsync or sync. */
  lemma Ext4ShapeIsAPrefix(trace: Trace, block: nat, p: Program, point: nat, s: Persisted) returns (k: nat)
    requires Compiled(trace, Ext4Ordered, block, p) && Legal(p, point, s)
    ensures Shaped(p) && point <= |trace.ops| && k <= point
    ensures forall b :: 0 <= b < point && IsBarrier(trace.ops[b]) ==> b < k
    ensures Run(trace, block, k).Success? && Closed(StageOf(trace, block, k).view)
    ensures Shape(CrashTree(p, s)) == Shape(ToTree(StageOf(trace, block, k).view))
  {
    hide IsProgram, Run, DataBeforeSize, DataBeforeReplace, MetaInOrder, SeeTree, ToTree, Replayed, NodeSurvive;
    ProgramIsShaped(trace, Ext4Ordered, block, p);
    k := MetaIsCut(trace, block, p, point, s);
    VolatileIsView(trace, Ext4Ordered, block, p, k);
    OpEndsAscend(trace, Ext4Ordered, block, p, k, point);
    CutLooksLikeView(trace, block, p, point, s, k);
    CrashImageIsClosed(p, s);
    CrashImageIsClosed(p, Prefix(p.opEnd[k], p.opEnd[point]));
    ViewAsState(p, k, point);
    TreesAlike(LengthsOnly, CrashImage(p, s), Volatile(p, k));
    PaddedTree(StageOf(trace, block, k).view, p.base[|StageOf(trace, block, k).view|..]);
  }

  lemma CutLooksLikeView(trace: Trace, block: nat, p: Program, point: nat, s: Persisted, k: nat)
    requires Compiled(trace, Ext4Ordered, block, p) && Shaped(p) && k <= point < |p.opEnd|
    requires p.opEnd[k] <= p.opEnd[point] == |s| <= |p.micro| && |p.opEnd| == |trace.ops| + 1 && MetaCutAt(p, s, k)
    ensures Alike(LengthsOnly, CrashImage(p, s), Volatile(p, k))
  {
    hide IsProgram, Run, Replayed, NodeSurvive, Survive;
    ViewAsState(p, k, point);
    var t := Prefix(p.opEnd[k], p.opEnd[point]);
    forall j | 0 <= j < |s| && IsMeta(p.micro[j].m) ensures s[j] == t[j] {
      OwnerOf(trace, Ext4Ordered, block, p, k, j);
    }
    var ms := Micros(p.micro);
    forall n | 0 <= n < |p.base| ensures NodesAlike(LengthsOnly, CrashImage(p, s)[n], Volatile(p, k)[n]) {
      SurviveIsNodewise(p.base, ms, s, n);
      SurviveIsNodewise(p.base, ms, t, n);
      LengthsDependOnMeta(n, p.base[n], ms, s, t);
      SameButDataIsAlike(CrashImage(p, s)[n], Volatile(p, k)[n]);
    }
  }

  // ------------------------------------------------------------- append only

  /** No file is truncated and every write starts at the file's current length. */
  ghost predicate AppendsOnly(trace: Trace, block: nat)
    requires block > 0
  {
    forall i :: 0 <= i < |trace.ops| && Run(trace, block, i).Success? ==>
      && !trace.ops[i].Truncate?
      && (trace.ops[i].Write? ==> LengthAt(StageOf(trace, block, i).view, trace.ops[i].path) == trace.ops[i].offset)
  }

  function LengthOf(fs: Image, n: Ino): nat {
    if n < |fs| && fs[n].FileNode? then fs[n].len else 0
  }

  function LengthAt(fs: Image, path: string): nat {
    match Lookup(fs, path)
    case None => 0
    case Some(ino) => LengthOf(fs, ino)
  }

  /** The micro-ops of op `i`, as the program holds them. */
  lemma OpMicros(trace: Trace, profile: Profile, block: nat, p: Program, i: nat)
    requires Compiled(trace, profile, block, p) && i < |trace.ops|
    ensures Shaped(p) && |p.opEnd| == |trace.ops| + 1 && p.opEnd[i] <= p.opEnd[i + 1] <= |p.micro|
    ensures Run(trace, block, i).Success?
    ensures OutcomeOf(StageOf(trace, block, i).view, trace.ops[i], block).Emits?
    ensures Micros(p.micro)[p.opEnd[i]..p.opEnd[i + 1]] ==
            OutcomeOf(StageOf(trace, block, i).view, trace.ops[i], block).micros
  {
    hide IsProgram, OutcomeOf, Replayed, Regular, Run;
    ProgramStages(trace, profile, block, p, i);
    ProgramStages(trace, profile, block, p, i + 1);
    RunStep(trace, block, i);
    OpEndsAscend(trace, profile, block, p, i, i + 1);
    var s, t := StageOf(trace, block, i), StageOf(trace, block, i + 1);
    var ms := OutcomeOf(s.view, trace.ops[i], block).micros;
    assert t.micro == s.micro + ms;
    assert t.micro[|s.micro|..] == ms;
  }

  /** Every micro-op of a program is one that its op emitted on the view before it. */
  lemma MicroIsEmitted(trace: Trace, profile: Profile, block: nat, p: Program, j: nat)
    requires Compiled(trace, profile, block, p) && j < |p.micro|
    ensures var i := p.micro[j].op;
            && i < |trace.ops| && Run(trace, block, i).Success?
            && OutcomeOf(StageOf(trace, block, i).view, trace.ops[i], block).Emits?
            && p.micro[j].m in OutcomeOf(StageOf(trace, block, i).view, trace.ops[i], block).micros
  {
    hide IsProgram, OutcomeOf, Run;
    ProgramIsShaped(trace, profile, block, p);
    OwnerOf(trace, profile, block, p, 0, j);
    var i := p.micro[j].op;
    OwnerOf(trace, profile, block, p, i, j);
    OwnerOf(trace, profile, block, p, i + 1, j);
    OpMicros(trace, profile, block, p, i);
    assert Micros(p.micro)[p.opEnd[i]..p.opEnd[i + 1]][j - p.opEnd[i]] == p.micro[j].m;
  }

  /** What a non-truncating op does to lengths: only a write's last micro-op changes one, to more. */
  ghost predicate OnlyGrows(v: Image, ms: seq<Micro>)
  {
    forall j :: 0 <= j < |ms| && ms[j].SetLen? ==> j == |ms| - 1 && ms[j].keepTail && ms[j].len > LengthOf(v, ms[j].ino)
  }

  lemma AppendOnlyGrows(v: Image, op: Op, block: nat)
    requires block > 0 && !op.Truncate? && OutcomeOf(v, op, block).Emits?
    ensures OnlyGrows(v, OutcomeOf(v, op, block).micros)
    ensures forall node :: node in OutcomeOf(v, op, block).born ==> node.FileNode? ==> node.len == 0
  {
    hide Lookup, Chunks;
    if op.Write? && FileAt(v, op.path).Success? {
      ChunksAre(FileAt(v, op.path).value, op.offset, op.data, block);
    }
  }

  lemma {:induction false} LengthsUntouched(n: Ino, node: Node, ms: seq<Micro>, s: Persisted)
    requires |s| <= |ms| && node.FileNode? && forall j :: 0 <= j < |s| && s[j] ==> !ms[j].SetLen?
    ensures NodeSurvive(n, node, ms, s).FileNode? && NodeSurvive(n, node, ms, s).len == node.len
  {
    hide Overlay;
    if s != [] {
      LengthsUntouched(n, node, ms, s[..|s| - 1]);
    }
  }

  lemma LengthGrows(v: Image, ms: seq<Micro>, n: Ino)
    requires OnlyGrows(v, ms) && n < |v|
    ensures LengthOf(Replayed(v, ms), n) >= LengthOf(v, n)
  {
    hide NodeSurvive, Replayed;
    ReplayedNode(v, ms, n);
    SurviveKeepsKind(n, v[n], ms, Prefix(|ms|, |ms|));
    if ms == [] {
      ReplayedNothing(v);
    } else {
      var last := |ms| - 1;
      assert ms[..last + 1] == ms;
      var before := NodeSurvive(n, v[n], ms, Prefix(last, last));
      if v[n].FileNode? {
        LengthsUntouched(n, v[n], ms, Prefix(last, last));
      }
      SurvivePrefixSnoc(n, v[n], ms, last);
    }
  }

  lemma SurvivePrefixSnoc(n: Ino, node: Node, ms: seq<Micro>, k: nat)
    requires k < |ms|
    ensures NodeSurvive(n, node, ms, Prefix(k + 1, k + 1)) == Effect(n, NodeSurvive(n, node, ms, Prefix(k, k)), ms[k])
  {
    assert Prefix(k + 1, k + 1)[..k] == Prefix(k, k);
  }

  lemma LengthStep(v: Image, op: Op, block: nat, n: Ino)
    requires block > 0 && !op.Truncate? && OutcomeOf(v, op, block).Emits?
    ensures var out := OutcomeOf(v, op, block);
            LengthOf(v, n) <= LengthOf(Replayed(v + out.born, out.micros), n)
  {
    hide OutcomeOf, Replayed, OnlyGrows;
    var out := OutcomeOf(v, op, block);
    AppendOnlyGrows(v, op, block);
    GrownStillGrows(v, out.born, out.micros);
    if n < |v| {
      LengthGrows(v + out.born, out.micros, n);
    }
  }

  /** Under appends, lengths in the view only grow. */
  lemma {:induction false} LengthsAscend(trace: Trace, block: nat, k: nat, i: nat, n: Ino)
    requires block > 0 && k <= i <= |trace.ops| && Run(trace, block, i).Success? && AppendsOnly(trace, block)
    ensures Run(trace, block, k).Success?
    ensures LengthOf(StageOf(trace, block, k).view, n) <= LengthOf(StageOf(trace, block, i).view, n)
  {
    hide OutcomeOf, Replayed, OnlyGrows, LengthAt, LengthOf, Run;
    if k < i {
      RunStep(trace, block, i - 1);
      LengthsAscend(trace, block, k, i - 1, n);
      LengthStep(StageOf(trace, block, i - 1).view, trace.ops[i - 1], block, n);
    }
  }

  lemma GrownStillGrows(v: Image, born: seq<Node>, ms: seq<Micro>)
    requires OnlyGrows(v, ms) && (forall node :: node in born ==> node.FileNode? ==> node.len == 0)
    ensures OnlyGrows(v + born, ms)
  {
    var grown := v + born;
    assert forall n :: |v| <= n < |grown| ==> grown[n] == born[n - |v|] && grown[n] in born;
    assert forall n :: LengthOf(grown, n) == LengthOf(v, n);
  }

  /** An appending op that writes data at all ends by extending the file, and writes past its end. */
  ghost predicate EndsByExtending(v: Image, ms: seq<Micro>) {
    forall j :: 0 <= j < |ms| && ms[j].Write? ==>
      j < |ms| - 1 && Extends(ms[|ms| - 1], ms[j].ino) && LengthOf(v, ms[j].ino) <= ms[j].offset
  }

  lemma AppendEndsByExtending(v: Image, op: Op, block: nat)
    requires block > 0 && OutcomeOf(v, op, block).Emits?
    requires op.Write? ==> LengthAt(v, op.path) == op.offset
    ensures EndsByExtending(v, OutcomeOf(v, op, block).micros)
  {
    hide Lookup, Room;
    if op.Write? && FileAt(v, op.path).Success? {
      ChunksAre(FileAt(v, op.path).value, op.offset, op.data, block);
    }
  }

  /** Where micro-op `j` of op `i` stands among what the op emitted. */
  lemma AppendedMicro(trace: Trace, profile: Profile, block: nat, p: Program, j: nat)
    requires Compiled(trace, profile, block, p) && AppendsOnly(trace, block) && j < |p.micro| && p.micro[j].m.Write?
    ensures var i := p.micro[j].op;
            && i < |trace.ops| && Run(trace, block, i).Success?
            && LengthOf(StageOf(trace, block, i).view, p.micro[j].m.ino) <= p.micro[j].m.offset
            && exists l :: j < l < |p.micro| && p.micro[l].op == i && Extends(p.micro[l].m, p.micro[j].m.ino)
  {
    hide IsProgram, OutcomeOf, Run, Regular, LengthAt, LengthOf;
    ProgramIsShaped(trace, profile, block, p);
    OwnerOf(trace, profile, block, p, 0, j);
    var i := p.micro[j].op;
    OwnerOf(trace, profile, block, p, i, j);
    OwnerOf(trace, profile, block, p, i + 1, j);
    OpMicros(trace, profile, block, p, i);
    var v := StageOf(trace, block, i).view;
    var ms := OutcomeOf(v, trace.ops[i], block).micros;
    AppendEndsByExtending(v, trace.ops[i], block);
    assert ms[j - p.opEnd[i]] == p.micro[j].m;
    var l := p.opEnd[i + 1] - 1;
    assert ms[|ms| - 1] == p.micro[l].m;
    OwnerOf(trace, profile, block, p, i, l);
    OwnerOf(trace, profile, block, p, i + 1, l);
  }

  /** Everything the first `k` ops emitted persisted; of the rest, only data. */
  lemma AppendsPersistWhole(trace: Trace, block: nat, p: Program, point: nat, s: Persisted, k: nat)
    requires Compiled(trace, Ext4Ordered, block, p) && AppendsOnly(trace, block) && Legal(p, point, s)
    requires |p.opEnd| == |trace.ops| + 1 && k <= point && MetaCutAt(p, s, k)
    ensures forall j :: 0 <= j < |s| ==> if j < p.opEnd[k] then s[j] else s[j] ==> p.micro[j].m.Write?
  {
    hide IsProgram, MetaInOrder, DataBeforeReplace, Run, AppendsOnly;
    ProgramIsShaped(trace, Ext4Ordered, block, p);
    forall j | 0 <= j < |s| ensures if j < p.opEnd[k] then s[j] else s[j] ==> p.micro[j].m.Write? {
      OwnerOf(trace, Ext4Ordered, block, p, k, j);
      if j < p.opEnd[k] && p.micro[j].m.Write? {
        AppendedMicro(trace, Ext4Ordered, block, p, j);
        var l :| j < l < |p.micro| && p.micro[l].op == p.micro[j].op && Extends(p.micro[l].m, p.micro[j].m.ino);
        OwnerOf(trace, Ext4Ordered, block, p, point, l);
        assert s[l];
      }
    }
  }

  /** Data written past the length of a file does not show. */
  lemma WritePastEnd(buf: seq<Byte>, len: nat, offset: nat, data: seq<Byte>)
    requires len <= offset
    ensures Resize(Overlay(buf, offset, data), len) == Resize(buf, len)
  {
    hide Overlay, Resize;
    OverlayBytes(buf, offset, data);
    SameBytesSameContent(Overlay(buf, offset, data), buf, len);
  }

  lemma {:induction false} InvisibleTail(n: Ino, node: Node, ms: seq<Micro>, s: Persisted, m: nat)
    requires m <= |s| <= |ms|
    requires forall j :: m <= j < |s| && s[j] ==> ms[j].Write?
    requires var at := NodeSurvive(n, node, ms, s[..m]);
             at.FileNode? ==> forall j :: m <= j < |s| && s[j] && ms[j].ino == n ==> at.len <= ms[j].offset
    ensures NodesAlike(Contents, NodeSurvive(n, node, ms, s), NodeSurvive(n, node, ms, s[..m]))
    ensures SameButData(NodeSurvive(n, node, ms, s), NodeSurvive(n, node, ms, s[..m]))
  {
    hide Overlay, Resize;
    if m == |s| {
      assert s[..m] == s;
    } else {
      var k := |s| - 1;
      assert s[..k][..m] == s[..m];
      InvisibleTail(n, node, ms, s[..k], m);
      var before := NodeSurvive(n, node, ms, s[..k]);
      if s[k] && ms[k].ino == n && before.FileNode? {
        WritePastEnd(before.buf, before.len, ms[k].offset, ms[k].data);
      }
    }
  }

  /** Append-only runs on ext4: every legal crash state is, contents and all, the volatile tree after
      some `k` ops, no older than the last fsync or sync, even where later data persisted early. */
  lemma Ext4AppendsAreAPrefix(trace: Trace, block: nat, p: Program, point: nat, s: Persisted) returns (k: nat)
    requires Compiled(trace, Ext4Ordered, block, p) && AppendsOnly(trace, block) && Legal(p, point, s)
    ensures Shaped(p) && point <= |trace.ops| && k <= point
    ensures forall b :: 0 <= b < point && IsBarrier(trace.ops[b]) ==> b < k
    ensures Run(trace, block, k).Success? && Closed(StageOf(trace, block, k).view)
    ensures CrashTree(p, s) == ToTree(StageOf(trace, block, k).view)
  {
    hide IsProgram, Run, DataBeforeSize, DataBeforeReplace, MetaInOrder, ToTree, Replayed, AppendsOnly;
    ProgramIsShaped(trace, Ext4Ordered, block, p);
    k := MetaIsCut(trace, block, p, point, s);
    VolatileIsView(trace, Ext4Ordered, block, p, k);
    OpEndsAscend(trace, Ext4Ordered, block, p, k, point);
    CutShowsView(trace, block, p, point, s, k);
    CrashImageIsClosed(p, s);
    CrashImageIsClosed(p, Prefix(p.opEnd[k], p.opEnd[point]));
    ViewAsState(p, k, point);
    TreesEqual(CrashImage(p, s), Volatile(p, k));
    PaddedTree(StageOf(trace, block, k).view, p.base[|StageOf(trace, block, k).view|..]);
  }

  lemma CutShowsView(trace: Trace, block: nat, p: Program, point: nat, s: Persisted, k: nat)
    requires Compiled(trace, Ext4Ordered, block, p) && Shaped(p) && AppendsOnly(trace, block) && Legal(p, point, s)
    requires |p.opEnd| == |trace.ops| + 1 && k <= point && p.opEnd[k] <= p.opEnd[point] && MetaCutAt(p, s, k)
    ensures Alike(Contents, CrashImage(p, s), Volatile(p, k))
  {
    hide IsProgram, Run, Replayed, NodeSurvive, Survive, Legal, AppendsOnly, MetaCutAt;
    LegalSize(p, point, s);
    AppendsPersistWhole(trace, block, p, point, s, k);
    var ms, m := Micros(p.micro), p.opEnd[k];
    assert s[..m] == Prefix(m, m);
    SurvivePrefix(p.base, ms, m, m);
    forall n | 0 <= n < |p.base| ensures NodesAlike(Contents, CrashImage(p, s)[n], Volatile(p, k)[n]) {
      SurviveIsNodewise(p.base, ms, s, n);
      SurviveIsNodewise(p.base, ms, s[..m], n);
      assert NodeSurvive(n, p.base[n], ms, s[..m]) == Volatile(p, k)[n];
      forall j | m <= j < |s| && s[j] && ms[j].ino == n && Volatile(p, k)[n].FileNode?
        ensures Volatile(p, k)[n].len <= ms[j].offset
      {
        LaterWriteIsPastEnd(trace, block, p, k, j, n);
      }
      InvisibleTail(n, p.base[n], ms, s, m);
    }
  }

  lemma LaterWriteIsPastEnd(trace: Trace, block: nat, p: Program, k: nat, j: nat, n: Ino)
    requires Compiled(trace, Ext4Ordered, block, p) && Shaped(p) && AppendsOnly(trace, block)
    requires |p.opEnd| == |trace.ops| + 1 && k <= |trace.ops| && p.opEnd[k] <= j < |p.micro|
    requires p.micro[j].m.Write? && p.micro[j].m.ino == n < |p.base| && Volatile(p, k)[n].FileNode?
    ensures Volatile(p, k)[n].len <= p.micro[j].m.offset
  {
    hide IsProgram, Run, Replayed, AppendsOnly, Closed, AllFit;
    AppendedMicro(trace, Ext4Ordered, block, p, j);
    OwnerOf(trace, Ext4Ordered, block, p, k, j);
    var i := p.micro[j].op;
    LengthsAscend(trace, block, k, i, n);
    VolatileIsView(trace, Ext4Ordered, block, p, k);
    var v := StageOf(trace, block, k).view;
    if n >= |v| {
      NewNodesAreEmpty(trace, Ext4Ordered, block, p, n, k);
    }
  }

  /** An inode the initial snapshot does not have is padded with an empty node. */
  lemma NewNodesAreEmpty(trace: Trace, profile: Profile, block: nat, p: Program, n: Ino, k: nat)
    requires Compiled(trace, profile, block, p) && k <= |trace.ops| && Run(trace, block, k).Success?
    requires |StageOf(trace, block, k).base| <= n < |p.base|
    ensures p.base[n].FileNode? ==> p.base[n].len == 0
  {
    hide Run, FirstCover;
    BornEmpty(trace, block, k, |trace.ops|, n);
  }

  lemma {:induction false} BornEmpty(trace: Trace, block: nat, k: nat, i: nat, n: Ino)
    requires block > 0 && k <= i <= |trace.ops| && Run(trace, block, i).Success? && Run(trace, block, k).Success?
    requires |StageOf(trace, block, k).base| <= n < |StageOf(trace, block, i).base|
    ensures StageOf(trace, block, i).base[n].FileNode? ==> StageOf(trace, block, i).base[n] == FileNode([], 0)
  {
    hide Run, OutcomeOf, Replayed;
    if k < i {
      RunStep(trace, block, i - 1);
      var s := StageOf(trace, block, i - 1);
      if n < |s.base| {
        BornEmpty(trace, block, k, i - 1, n);
      } else {
        BornIsEmpty(s.view, trace.ops[i - 1], block);
        var born := OutcomeOf(s.view, trace.ops[i - 1], block).born;
        assert born[n - |s.base|] in born;
      }
    }
  }

  lemma BornIsEmpty(v: Image, op: Op, block: nat)
    requires block > 0 && OutcomeOf(v, op, block).Emits?
    ensures forall node :: node in OutcomeOf(v, op, block).born ==> node == FileNode([], 0) || node == DirNode(map[])
  {
    hide Lookup, Chunks;
  }
}
