/** Every node evolves on its own: the final state of an inode is a fold over
    the micro-ops that persisted, and only those that touch it matter. */
module Locality {
  import opened Wrappers
  import opened FileSystem
  import opened Runs
  import opened Crash
  import opened Enumerate

  function NodeSurvive(n: Ino, node: Node, ms: seq<Micro>, s: Persisted): (r: Node)
    requires |s| <= |ms|
  {
    if s == [] then node else
    var before := NodeSurvive(n, node, ms, s[..|s| - 1]);
    if s[|s| - 1] then Effect(n, before, ms[|s| - 1]) else before
  }

  lemma {:induction false} SurviveIsNodewise(fs: Image, ms: seq<Micro>, s: Persisted, n: Ino)
    requires |s| <= |ms| && n < |fs|
    ensures Survive(fs, ms, s)[n] == NodeSurvive(n, fs[n], ms, s)
  {
    hide Effect;
    if s != [] {
      SurviveIsNodewise(fs, ms, s[..|s| - 1], n);
    }
  }

  /** The first `m` of `n` micro-ops persisted. */
  function Prefix(m: nat, n: nat): (s: Persisted)
    ensures |s| == n
  {
    seq(n, j => j < m)
  }

  lemma {:induction false} SurvivePrefix(fs: Image, ms: seq<Micro>, m: nat, n: nat)
    requires m <= n <= |ms|
    ensures Survive(fs, ms, Prefix(m, n)) == Replayed(fs, ms[..m])
    decreases n
  {
    hide Applied;
    if n > 0 {
      assert Prefix(m, n)[..n - 1] == Prefix(if m < n then m else n - 1, n - 1);
      if m == n {
        SurvivePrefix(fs, ms, n - 1, n - 1);
        assert ms[..n][..n - 1] == ms[..n - 1];
      } else {
        SurvivePrefix(fs, ms, m, n - 1);
      }
    }
  }

  /** What can change a node: its own data and size if it is a file, its own entries if a directory. */
  predicate Touches(m: Micro, n: Ino, isFile: bool) {
    match m
    case Write(ino, _, _) => isFile && ino == n
    case SetLen(ino, _, _) => isFile && ino == n
    case Link(parent, _, _) => !isFile && parent == n
    case Unlink(parent, _) => !isFile && parent == n
    case Rename(from, _, to, _, _, _) => !isFile && (from == n || to == n)
  }

  lemma UntouchedStays(n: Ino, node: Node, m: Micro)
    ensures Effect(n, node, m).FileNode? == node.FileNode?
    ensures !Touches(m, n, node.FileNode?) ==> Effect(n, node, m) == node
  {
  }

  lemma {:induction false} SurviveKeepsKind(n: Ino, node: Node, ms: seq<Micro>, s: Persisted)
    requires |s| <= |ms|
    ensures NodeSurvive(n, node, ms, s).FileNode? == node.FileNode?
  {
    hide Effect;
    if s != [] {
      SurviveKeepsKind(n, node, ms, s[..|s| - 1]);
      UntouchedStays(n, NodeSurvive(n, node, ms, s[..|s| - 1]), ms[|s| - 1]);
    }
  }

  /** Two persisted sets that agree on what touches a node leave it the same. */
  lemma {:induction false} NodeDependsOnTouches(n: Ino, node: Node, ms: seq<Micro>, s: Persisted, t: Persisted)
    requires |s| == |t| <= |ms|
    requires forall j :: 0 <= j < |s| && Touches(ms[j], n, node.FileNode?) ==> s[j] == t[j]
    ensures NodeSurvive(n, node, ms, s) == NodeSurvive(n, node, ms, t)
  {
    hide Effect, Touches;
    if s != [] {
      var k := |s| - 1;
      NodeDependsOnTouches(n, node, ms, s[..k], t[..k]);
      SurviveKeepsKind(n, node, ms, s[..k]);
      UntouchedStays(n, NodeSurvive(n, node, ms, s[..k]), ms[k]);
    }
  }

  // ------------------------------------------------- the entries of a directory

  /** `m` gives the name to `ino`. */
  predicate Puts(m: Micro, d: Ino, name: string, ino: Ino) {
    match m
    case Link(parent, n, i) => parent == d && n == name && i == ino
    case Rename(_, _, to, n, i, _) => to == d && n == name && i == ino
    case _ => false
  }

  /** `m` takes the name from `ino`: it is unlinked, `ino` itself is moved away, or the name goes to
      another. A rename of something else away from here leaves it. */
  predicate Takes(m: Micro, d: Ino, name: string, ino: Ino) {
    match m
    case Link(parent, n, i) => parent == d && n == name && i != ino
    case Unlink(parent, n) => parent == d && n == name
    case Rename(from, n, to, into, i, _) =>
      if to == d && into == name then i != ino else from == d && n == name && i == ino
    case _ => false
  }

  /** The name had `ino` at the start (before micro-op 0), or got it from one that persisted. */
  ghost predicate Got(fs: Image, ms: seq<Micro>, s: Persisted, d: Ino, name: string, ino: Ino, at: int)
    requires |s| <= |ms|
  {
    if at < 0 then EntryAt(fs, d, name) == Some(ino) else at < |s| && s[at] && Puts(ms[at], d, name, ino)
  }

  ghost predicate KeptSince(ms: seq<Micro>, s: Persisted, d: Ino, name: string, ino: Ino, at: int)
    requires |s| <= |ms|
  {
    forall j: nat :: at < j < |s| && s[j] ==> !Takes(ms[j], d, name, ino)
  }

  /** Whatever subset persisted: a name leads to an inode exactly if it did at the start, or a micro-op
      that persisted gave it to that inode, and none that persisted after that took it away. */
  lemma {:induction false} LastChangeWins(fs: Image, ms: seq<Micro>, s: Persisted, d: Ino, name: string, ino: Ino)
    requires |s| <= |ms| && d < |fs| && fs[d].DirNode?
    ensures Survive(fs, ms, s)[d].DirNode?
    ensures EntryAt(Survive(fs, ms, s), d, name) == Some(ino) <==>
            exists at :: Got(fs, ms, s, d, name, ino, at) && KeptSince(ms, s, d, name, ino, at)
  {
    hide Applied, Puts, Takes, EntryAt;
    if s == [] {
      assert EntryAt(fs, d, name) == Some(ino) ==> Got(fs, ms, s, d, name, ino, -1);
    } else {
      var n := |s| - 1;
      var before := Survive(fs, ms, s[..n]);
      LastChangeWins(fs, ms, s[..n], d, name, ino);
      EntryStep(before, ms[n], d, name, ino);
      forall at | Got(fs, ms, s[..n], d, name, ino, at) && KeptSince(ms, s[..n], d, name, ino, at)
        ensures Got(fs, ms, s, d, name, ino, at)
        ensures KeptSince(ms, s, d, name, ino, at) <==> !(s[n] && Takes(ms[n], d, name, ino))
      {
      }
      forall at | Got(fs, ms, s, d, name, ino, at) && KeptSince(ms, s, d, name, ino, at) && at < n
        ensures Got(fs, ms, s[..n], d, name, ino, at) && KeptSince(ms, s[..n], d, name, ino, at)
        ensures !(s[n] && Takes(ms[n], d, name, ino))
      {
      }
      if s[n] && Puts(ms[n], d, name, ino) {
        assert Got(fs, ms, s, d, name, ino, n) && KeptSince(ms, s, d, name, ino, n);
      }
    }
  }

  lemma EntryStep(fs: Image, m: Micro, d: Ino, name: string, ino: Ino)
    requires d < |fs| && fs[d].DirNode?
    ensures Applied(fs, m)[d].DirNode?
    ensures EntryAt(Applied(fs, m), d, name) == Some(ino) <==>
            Puts(m, d, name, ino) || (EntryAt(fs, d, name) == Some(ino) && !Takes(m, d, name, ino))
  {
  }

  /** The volatile view after `k` ops, on the padded initial image. */
  function Volatile(p: Program, k: nat): (fs: Image)
    requires k < |p.opEnd| && p.opEnd[k] <= |p.micro|
    ensures |fs| == |p.base|
  {
    Replayed(p.base, Micros(p.micro)[..p.opEnd[k]])
  }

  /** A node that lost nothing is as if there had been no crash. */
  lemma NothingLostNothingChanged(p: Program, point: nat, s: Persisted, n: Ino)
    requires point < |p.opEnd| && |s| == p.opEnd[point] <= |p.micro| && n < |p.base|
    requires forall j :: 0 <= j < |s| && Touches(p.micro[j].m, n, p.base[n].FileNode?) ==> s[j]
    ensures CrashImage(p, s)[n] == Volatile(p, point)[n]
  {
    hide Touches, NodeSurvive, Replayed, Survive;
    var ms := Micros(p.micro);
    SurvivePrefix(p.base, ms, |s|, |s|);
    SurviveIsNodewise(p.base, ms, s, n);
    SurviveIsNodewise(p.base, ms, Prefix(|s|, |s|), n);
    NodeDependsOnTouches(n, p.base[n], ms, s, Prefix(|s|, |s|));
  }
}
