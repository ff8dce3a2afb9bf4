/** One name of a directory: which crashes leave an fsynced directory as it was. */
module Entries {
  import opened Wrappers
  import opened Trace
  import opened Paths
  import opened FileSystem
  import opened Runs
  import opened Stages
  import opened Locality
  import opened Crash
  import opened Enumerate
  import opened Durability
  import opened Ordered
  import opened Reference

  /** What a directory lists under a name. */
  function Listed(node: Node, name: string): Option<Ino> {
    if node.DirNode? && name in node.entries then Some(node.entries[name]) else None
  }

  predicate Binds(m: Micro, d: Ino, name: string) {
    match m
    case Link(parent, x, _) => parent == d && x == name
    case Rename(_, _, to, x, _, _) => to == d && x == name
    case _ => false
  }

  predicate Frees(m: Micro, d: Ino, name: string) {
    match m
    case Unlink(parent, x) => parent == d && x == name
    case Rename(from, x, _, _, _, _) => from == d && x == name
    case _ => false
  }

  /** A rename from directory `d` into another one. */
  predicate MovesOut(m: Micro, d: Ino) {
    m.Rename? && m.from == d && m.to != d
  }

  /** What `m` does to one name of directory `d`. */
  function NameEffect(d: Ino, name: string, e: Option<Ino>, m: Micro): Option<Ino> {
    if Binds(m, d, name) then Some(m.ino)
    else if Frees(m, d, name) && (m.Rename? ==> e == Some(m.ino)) then None
    else e
  }

  lemma NamesEvolveAlone(d: Ino, node: Node, m: Micro, name: string)
    requires node.DirNode?
    ensures Effect(d, node, m).DirNode?
    ensures Listed(Effect(d, node, m), name) == NameEffect(d, name, Listed(node, name), m)
  {
  }

  /** What is listed depends on the last micro-op that binds the name, and on what came after it. */
  lemma {:induction false} SameSinceBinding(d: Ino, node: Node, ms: seq<Micro>, s: Persisted, t: Persisted,
                                            name: string, from: nat)
    requires node.DirNode? && |s| == |t| <= |ms| && from <= |s|
    requires from > 0 ==> Binds(ms[from - 1], d, name) && s[from - 1] && t[from - 1]
    requires forall j :: from <= j < |s| && (Binds(ms[j], d, name) || Frees(ms[j], d, name)) ==> s[j] == t[j]
    ensures NodeSurvive(d, node, ms, s).DirNode? && NodeSurvive(d, node, ms, t).DirNode?
    ensures Listed(NodeSurvive(d, node, ms, s), name) == Listed(NodeSurvive(d, node, ms, t), name)
  {
    hide Effect, Listed, Binds, Frees;
    SurviveKeepsKind(d, node, ms, s);
    SurviveKeepsKind(d, node, ms, t);
    if s != [] {
      var k := |s| - 1;
      SurviveKeepsKind(d, node, ms, s[..k]);
      SurviveKeepsKind(d, node, ms, t[..k]);
      NamesEvolveAlone(d, NodeSurvive(d, node, ms, s[..k]), ms[k], name);
      NamesEvolveAlone(d, NodeSurvive(d, node, ms, t[..k]), ms[k], name);
      if from <= k {
        SameSinceBinding(d, node, ms, s[..k], t[..k], name, from);
      }
    }
  }

  lemma LastBinding(p: Program, n: nat, d: Ino, name: string) returns (from: nat)
    requires n <= |p.micro|
    ensures from <= n && (from > 0 ==> Binds(p.micro[from - 1].m, d, name))
    ensures forall j :: from <= j < n ==> !Binds(p.micro[j].m, d, name)
  {
    from := n;
    while from > 0 && !Binds(p.micro[from - 1].m, d, name)
      invariant from <= n && forall j :: from <= j < n ==> !Binds(p.micro[j].m, d, name)
    {
      from := from - 1;
    }
  }

  // ------------------------------------------------- names in a compiled trace

  /** Directory `d` with the first `k` micro-ops applied. */
  function DirAfter(p: Program, d: Ino, k: nat): Node
    requires d < |p.base| && k <= |p.micro|
  {
    NodeSurvive(d, p.base[d], Micros(p.micro), Prefix(k, k))
  }

  /** What an op takes out of a directory is listed there before the op. */
  lemma FreedWasListed(trace: Trace, profile: Profile, block: nat, p: Program, l: nat, d: Ino, name: string)
    requires Compiled(trace, profile, block, p) && IsNormalTrace(trace) && l < |p.micro|
    requires Frees(p.micro[l].m, d, name) && d < |p.base|
    ensures Listed(DirAfter(p, d, l), name).Some?
    ensures p.micro[l].m.Rename? ==> Listed(DirAfter(p, d, l), name) == Some(p.micro[l].m.ino)
  {
    hide IsProgram, Run, OutcomeOf, Replayed, NodeSurvive, Survive, IsNormalTrace, Shaped, Lookup, Volatile;
    var k := p.micro[l].op;
    MicroIsEmitted(trace, profile, block, p, l);
    var v, op := StageOf(trace, block, k).view, trace.ops[k];
    assert IsNormalOp(op) by {
      NormalOpAt(trace, k);
    }
    EmitsOneThatFrees(v, op, block, p.micro[l].m, d, name);
    OpMicros(trace, profile, block, p, k);
    OwnerOf(trace, profile, block, p, k, l);
    OwnerOf(trace, profile, block, p, k + 1, l);
    assert |Micros(p.micro)[p.opEnd[k]..p.opEnd[k + 1]]| == 1;
    VolatileIsView(trace, profile, block, p, k);
    VolatileAt(p, k, d);
  }

  lemma NormalOpAt(trace: Trace, k: nat)
    requires IsNormalTrace(trace) && k < |trace.ops|
    ensures IsNormalOp(trace.ops[k])
  {
  }

  lemma VolatileAt(p: Program, k: nat, d: Ino)
    requires k < |p.opEnd| && p.opEnd[k] <= |p.micro| && d < |p.base|
    ensures DirAfter(p, d, p.opEnd[k]) == Volatile(p, k)[d]
  {
    hide Replayed, NodeSurvive, Survive;
    var n := p.opEnd[k];
    SurvivePrefix(p.base, Micros(p.micro), n, n);
    SurviveIsNodewise(p.base, Micros(p.micro), Prefix(n, n), d);
  }

  lemma EmitsOneThatFrees(v: Image, op: Op, block: nat, m: Micro, d: Ino, name: string)
    requires block > 0 && IsNormalOp(op) && OutcomeOf(v, op, block).Emits? && m in OutcomeOf(v, op, block).micros
    requires Frees(m, d, name)
    ensures OutcomeOf(v, op, block).micros == [m]
    ensures EntryAt(v, d, name).Some? && (m.Rename? ==> EntryAt(v, d, name) == Some(m.ino))
  {
    hide Lookup, Split, Normal, Chunks, EntryAt;
    if op.Write? {
      WritesAreData(v, op.path, op.offset, op.data, block);
    } else if op.Rename? {
      LookupSplits(v, op.from);
    } else if op.Unlink? || op.Rmdir? {
      LookupSplits(v, op.path);
    }
  }

  lemma WritesAreData(v: Image, path: string, offset: nat, data: seq<Byte>, block: nat)
    requires block > 0 && OutcomeOfWrite(v, path, offset, data, block).Emits?
    ensures forall m :: m in OutcomeOfWrite(v, path, offset, data, block).micros ==> m.Write? || m.SetLen?
  {
    hide Chunks, Lookup;
    if FileAt(v, path).Success? {
      ChunksAre(FileAt(v, path).value, offset, data, block);
    }
  }

  lemma LookupSplits(v: Image, path: string)
    requires Normal(path) && path != ""
    ensures var (dir, name) := Split(path);
            Lookup(v, path) == match Lookup(v, dir) case None => None case Some(d) => EntryAt(v, d, name)
  {
    hide Normal, Split;
    SplitOfNormal(path);
  }

  // ------------------------------------------------------------- the condition

  /** A later micro-op lists something else under the name that `j` moved away. */
  ghost predicate ReboundLater(p: Program, point: nat, d: Ino, j: nat)
    requires point < |p.opEnd| && p.opEnd[point] <= |p.micro| && j < |p.micro| && p.micro[j].m.Rename?
  {
    exists l :: j < l < p.opEnd[point] && Binds(p.micro[l].m, d, p.micro[j].m.fromName)
  }

  /** Every rename out of the directory is covered by a barrier, or hidden by a later entry. */
  ghost predicate NoMoveShows(trace: Trace, profile: Profile, block: nat, p: Program, point: nat, d: Ino)
    requires block > 0 && point <= |trace.ops| && point < |p.opEnd| && p.opEnd[point] <= |p.micro|
  {
    forall j :: 0 <= j < p.opEnd[point] && MovesOut(p.micro[j].m, d) ==>
      CoveredBy(trace, profile, block, p, point, j) || ReboundLater(p, point, d, j)
  }

  ghost predicate IntactEverywhere(p: Program, point: nat, d: Ino)
    requires Shaped(p) && point < |p.opEnd| && d < |p.base|
  {
    forall s :: Legal(p, point, s) ==> CrashImage(p, s)[d] == Volatile(p, point)[d]
  }

  /** A directory that was fsynced and not touched since is intact in every legal crash state exactly when
      no rename out of it, into another directory, can show: each is covered by some barrier, or a later
      entry took its name. On ext4 the fsync covers them all. */
  lemma FsyncedDirIsIntactIff(trace: Trace, profile: Profile, block: nat, p: Program, i: nat, point: nat, d: Ino)
    requires Compiled(trace, profile, block, p) && IsNormalTrace(trace) && i < point <= |trace.ops|
    requires Shaped(p) && |p.opEnd| == |trace.ops| + 1 && p.opEnd[point] <= |p.micro|
    requires Fsyncs(trace, block, i, d) && d < |p.base| && p.base[d].DirNode? && QuietSince(p, i, point, d)
    ensures IntactEverywhere(p, point, d) <==> NoMoveShows(trace, profile, block, p, point, d)
    ensures profile == Ext4Ordered ==> IntactEverywhere(p, point, d)
  {
    hide Run, IsProgram, CrashImage, Volatile, Lookup, Legal, IsNormalTrace, Fsyncs, Shaped, CoveredBy, QuietSince,
      Binds, ReboundLater;
    if profile == Ext4Ordered {
      FsyncCoversMoves(trace, block, p, i, point, d);
    }
    if NoMoveShows(trace, profile, block, p, point, d) {
      forall s | Legal(p, point, s)
        ensures |s| <= |p.micro| && CrashImage(p, s)[d] == Volatile(p, point)[d]
      {
        LegalSize(p, point, s);
        HiddenMovesKeepIntact(trace, profile, block, p, i, point, d, s);
      }
    } else {
      var j: nat :| j < p.opEnd[point] && MovesOut(p.micro[j].m, d)
                    && !CoveredBy(trace, profile, block, p, point, j) && !ReboundLater(p, point, d, j);
      UncoveredMoveShows(trace, block, p, point, d, j);
    }
  }

  lemma FsyncCoversMoves(trace: Trace, block: nat, p: Program, i: nat, point: nat, d: Ino)
    requires Compiled(trace, Ext4Ordered, block, p) && i < point <= |trace.ops|
    requires |p.opEnd| == |trace.ops| + 1 && p.opEnd[point] <= |p.micro|
    requires Fsyncs(trace, block, i, d) && d < |p.base| && p.base[d].DirNode? && QuietSince(p, i, point, d)
    ensures NoMoveShows(trace, Ext4Ordered, block, p, point, d)
  {
    hide Run, IsProgram, Lookup, ReboundLater;
    forall j | 0 <= j < p.opEnd[point] && MovesOut(p.micro[j].m, d)
      ensures CoveredBy(trace, Ext4Ordered, block, p, point, j)
    {
      OwnerOf(trace, Ext4Ordered, block, p, i, j);
      assert Touches(p.micro[j].m, d, false);
      assert CoveredAt(trace, Ext4Ordered, block, i, p.micro[j].m);
    }
  }

  lemma HiddenMovesKeepIntact(trace: Trace, profile: Profile, block: nat, p: Program, i: nat, point: nat, d: Ino,
                              s: Persisted)
    requires Compiled(trace, profile, block, p) && i < point <= |trace.ops|
    requires |p.opEnd| == |trace.ops| + 1 && Legal(p, point, s) && NoMoveShows(trace, profile, block, p, point, d)
    requires Fsyncs(trace, block, i, d) && d < |p.base| && p.base[d].DirNode? && QuietSince(p, i, point, d)
    ensures CrashImage(p, s)[d] == Volatile(p, point)[d]
  {
    hide Run, IsProgram, Volatile, Lookup, Legal, Fsyncs, QuietSince, NodeSurvive, Survive, Binds, Frees, Listed,
      NoMoveShows;
    LegalSize(p, point, s);
    var ms, n := Micros(p.micro), |s|;
    var all := Prefix(n, n);
    SurviveIsNodewise(p.base, ms, s, d);
    VolatileAt(p, point, d);
    SurviveKeepsKind(d, p.base[d], ms, s);
    SurviveKeepsKind(d, p.base[d], ms, all);
    forall name
      ensures Listed(NodeSurvive(d, p.base[d], ms, s), name) == Listed(NodeSurvive(d, p.base[d], ms, all), name)
    {
      var from := LastBinding(p, n, d, name);
      forall j: nat | j < n && from <= j + 1 && (Binds(ms[j], d, name) || Frees(ms[j], d, name)) ensures s[j] {
        LastOfNamePersists(trace, profile, block, p, i, point, d, s, name, j);
      }
      SameSinceBinding(d, p.base[d], ms, s, all, name, from);
    }
    SameListing(NodeSurvive(d, p.base[d], ms, s), NodeSurvive(d, p.base[d], ms, all));
  }

  lemma SameListing(a: Node, b: Node)
    requires a.DirNode? && b.DirNode? && forall name :: Listed(a, name) == Listed(b, name)
    ensures a == b
  {
    forall name ensures name in a.entries <==> name in b.entries {
      assert Listed(a, name) == Listed(b, name);
    }
    forall name | name in a.entries ensures a.entries[name] == b.entries[name] {
      assert Listed(a, name) == Listed(b, name);
    }
    assert a.entries == b.entries;
  }

  /** With no later entry of that name, what concerns it was flushed. */
  lemma LastOfNamePersists(trace: Trace, profile: Profile, block: nat, p: Program, i: nat, point: nat, d: Ino,
                           s: Persisted, name: string, j: nat)
    requires Compiled(trace, profile, block, p) && i < point <= |trace.ops|
    requires |p.opEnd| == |trace.ops| + 1 && Legal(p, point, s) && NoMoveShows(trace, profile, block, p, point, d)
    requires Fsyncs(trace, block, i, d) && d < |p.base| && p.base[d].DirNode? && QuietSince(p, i, point, d)
    requires j < |s| && (Binds(p.micro[j].m, d, name) || Frees(p.micro[j].m, d, name))
    requires forall l :: j < l < |s| ==> !Binds(p.micro[l].m, d, name)
    ensures s[j]
  {
    hide Run, IsProgram, Lookup, FirstCover;
    OwnerOf(trace, profile, block, p, i, j);
    assert Touches(p.micro[j].m, d, false);
    if InScope(d, p.micro[j].m) {
      CoveredIsDurable(trace, profile, block, p, i, j);
    } else {
      assert MovesOut(p.micro[j].m, d) && !ReboundLater(p, point, d, j);
      var b :| p.micro[j].op < b < point && CoveredAt(trace, profile, block, b, p.micro[j].m);
      CoveredIsDurable(trace, profile, block, p, b, j);
    }
  }

  /** A rename out that nothing flushed and nothing hides: without it the name is still listed. */
  lemma UncoveredMoveShows(trace: Trace, block: nat, p: Program, point: nat, d: Ino, j: nat)
    requires Compiled(trace, Posix, block, p) && IsNormalTrace(trace) && point <= |trace.ops|
    requires Shaped(p) && |p.opEnd| == |trace.ops| + 1 && j < p.opEnd[point] <= |p.micro|
    requires d < |p.base| && p.base[d].DirNode? && MovesOut(p.micro[j].m, d)
    requires !CoveredBy(trace, Posix, block, p, point, j) && !ReboundLater(p, point, d, j)
    ensures !IntactEverywhere(p, point, d)
  {
    hide Run, IsProgram, Volatile, NodeSurvive, Survive, IsNormalTrace, CoveredAt, Listed, NameEffect;
    ProgramIsShaped(trace, Posix, block, p);
    var ms, n, name := Micros(p.micro), p.opEnd[point], p.micro[j].m.fromName;
    var s := seq(n, k => k != j);
    if p.micro[j].durableAt < point {
      DurableIsCovered(trace, Posix, block, p, j);
    }
    assert Legal(p, point, s);
    FreedWasListed(trace, Posix, block, p, j, d, name);
    LostMoveStays(trace, block, p, d, j, name, s, n);
    SurviveIsNodewise(p.base, ms, s, d);
    VolatileAt(p, point, d);
    assert s[..n] == s;
  }

  /** From `j` on the name is gone, and without `j` it is not. */
  lemma {:induction false} LostMoveStays(trace: Trace, block: nat, p: Program, d: Ino, j: nat, name: string,
                                         s: Persisted, k: nat)
    requires Compiled(trace, Posix, block, p) && IsNormalTrace(trace) && j < k <= |s| <= |p.micro|
    requires d < |p.base| && p.base[d].DirNode? && MovesOut(p.micro[j].m, d) && p.micro[j].m.fromName == name
    requires forall l :: j < l < |s| ==> !Binds(p.micro[l].m, d, name)
    requires s == seq(|s|, l => l != j)
    ensures DirAfter(p, d, k).DirNode? && Listed(DirAfter(p, d, k), name) == None
    ensures NodeSurvive(d, p.base[d], Micros(p.micro), s[..k]).DirNode?
    ensures Listed(NodeSurvive(d, p.base[d], Micros(p.micro), s[..k]), name) == Some(p.micro[j].m.ino)
    decreases k
  {
    hide IsProgram, Run, IsNormalTrace, Listed, Effect;
    var ms, l := Micros(p.micro), k - 1;
    assert Prefix(k, k)[..l] == Prefix(l, l) && s[..k][..l] == s[..l];
    SurviveKeepsKind(d, p.base[d], ms, Prefix(l, l));
    SurviveKeepsKind(d, p.base[d], ms, s[..l]);
    if l == j {
      FreedWasListed(trace, Posix, block, p, j, d, name);
      assert s[..j] == Prefix(j, j);
      NamesEvolveAlone(d, DirAfter(p, d, j), ms[j], name);
    } else {
      LostMoveStays(trace, block, p, d, j, name, s, l);
      if Frees(ms[l], d, name) {
        FreedWasListed(trace, Posix, block, p, l, d, name);
        assert false;
      }
      NamesEvolveAlone(d, DirAfter(p, d, l), ms[l], name);
      NamesEvolveAlone(d, NodeSurvive(d, p.base[d], ms, s[..l]), ms[l], name);
    }
  }
}
