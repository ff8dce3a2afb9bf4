/** What holds after every op of a run. */
module Stages {
  import opened Wrappers
  import opened Trace
  import opened Paths
  import opened Order
  import opened FileSystem
  import opened Snapshot
  import opened Runs

  ghost predicate AllFit(ms: seq<Micro>, size: nat) {
    forall m :: m in ms ==> Fits(m, size)
  }

  lemma ReplayedNothing(fs: Image)
    ensures Replayed(fs, []) == fs
  {
  }

  lemma ReplayedSingle(v: Image, m: Micro)
    ensures Replayed(v, [m]) == Applied(v, m)
  {
    ReplayedNothing(v);
    assert [m][..0] == [];
  }

  lemma RunStart(trace: Trace, block: nat)
    requires block > 0
    ensures Run(trace, block, 0) == Success(Start(trace))
  {
  }

  lemma StepOf(trace: Trace, block: nat, k: nat)
    requires block > 0 && k < |trace.ops| && Run(trace, block, k).Success?
    requires OutcomeOf(Run(trace, block, k).value.view, trace.ops[k], block).Emits?
    ensures var s, op := Run(trace, block, k).value, trace.ops[k];
            var out := OutcomeOf(s.view, op, block);
            Run(trace, block, k + 1) == Success(Advance(s, k, op, out.born, out.micros))
  {
    hide OutcomeOf, Advance;
  }

  lemma StepRefused(trace: Trace, block: nat, k: nat)
    requires block > 0 && k < |trace.ops| && Run(trace, block, k).Success?
    requires OutcomeOf(Run(trace, block, k).value.view, trace.ops[k], block).Refused?
    ensures Run(trace, block, k + 1) ==
            Failure(CompileError(k, OutcomeOf(Run(trace, block, k).value.view, trace.ops[k], block).reason))
  {
    hide OutcomeOf;
  }

  lemma {:induction false} LoadIsClosed(tree: Tree, keys: seq<string>)
    requires forall key :: key in keys ==> key in tree
    ensures Closed(Load(tree, keys)) && Load(tree, keys)[0].DirNode?
  {
    hide Split, Parts, Resolve, ParentListed;
    if keys != [] {
      var n := |keys| - 1;
      var fs := Load(tree, keys[..n]);
      LoadIsClosed(tree, keys[..n]);
      var dir := Split(keys[n]).0;
      ResolveInside(fs, Parts(dir));
      GrowingStaysClosed(fs, [NodeOf(tree[keys[n]])]);
      if Lookup(fs, dir).Some? {
        AppliedStaysClosed(fs + [NodeOf(tree[keys[n]])], Link(Lookup(fs, dir).value, Split(keys[n]).1, |fs|));
      }
    }
  }

  lemma {:induction false} ReplayedStaysClosed(fs: Image, ms: seq<Micro>)
    requires Closed(fs) && AllFit(ms, |fs|)
    ensures Closed(Replayed(fs, ms))
  {
    if ms != [] {
      ReplayedStaysClosed(fs, ms[..|ms| - 1]);
      AppliedStaysClosed(Replayed(fs, ms[..|ms| - 1]), ms[|ms| - 1]);
    }
  }

  lemma {:induction false} ChunksAre(ino: Ino, offset: nat, data: seq<Byte>, block: nat)
    requires block > 0
    ensures forall m :: m in Chunks(ino, offset, data, block) ==>
              m.Write? && m.ino == ino && offset <= m.offset && m.offset + |m.data| <= offset + |data|
    decreases |data|
  {
    if data != [] {
      var n := Min(Room(offset, block), |data|);
      ChunksAre(ino, offset + n, data[n..], block);
    }
  }

  /** Emitted micro-ops index the node table inside its bounds; a new inode is bare; at most the
      last of an op's micro-ops is metadata. */
  ghost predicate Proper(v: Image, out: Outcome) {
    out.Emits? ==>
      && |out.born| <= 1 && (forall node :: node in out.born ==> node.DirNode? ==> node.entries == map[])
      && AllFit(out.micros, |v| + |out.born|)
      && forall j :: 0 <= j < |out.micros| - 1 ==> !IsMeta(out.micros[j])
  }

  lemma WriteIsProper(v: Image, path: string, offset: nat, data: seq<Byte>, block: nat)
    requires block > 0 && Closed(v)
    ensures Proper(v, OutcomeOfWrite(v, path, offset, data, block))
  {
    ResolveInside(v, Parts(path));
    if FileAt(v, path).Success? {
      ChunksAre(FileAt(v, path).value, offset, data, block);
    }
  }

  lemma RenameIsProper(v: Image, from: string, to: string)
    requires Closed(v)
    ensures Proper(v, OutcomeOfRename(v, from, to))
  {
    hide Split, Parts, Resolve;
    ResolveInside(v, Parts(from));
    ResolveInside(v, Parts(Split(from).0));
  }

  lemma OutcomeIsProper(v: Image, op: Op, block: nat)
    requires block > 0 && Closed(v)
    ensures Proper(v, OutcomeOf(v, op, block))
  {
    hide Resolve, Parts, Split, Chunks, OutcomeOfWrite, OutcomeOfRename;
    match op {
      case Create(path) =>
      case Mkdir(path) =>
      case Write(path, offset, data) => WriteIsProper(v, path, offset, data, block);
      case Truncate(path, len) =>
      case Rename(from, to) => RenameIsProper(v, from, to);
      case Unlink(path) => ResolveInside(v, Parts(Split(path).0));
      case Rmdir(path) => ResolveInside(v, Parts(Split(path).0));
      case _ =>
    }
  }

  lemma GrowingStaysClosed(v: Image, born: seq<Node>)
    requires Closed(v) && forall node :: node in born ==> node.DirNode? ==> node.entries == map[]
    ensures Closed(v + born)
  {
    var grown := v + born;
    assert forall d :: |v| <= d < |grown| ==> grown[d] == born[d - |v|] && grown[d] in born;
  }

  /** The bookkeeping of a run that got past `k` ops. */
  ghost predicate Regular(s: Stage, k: nat) {
    && Closed(s.view) && s.view[0].DirNode? && Closed(s.base) && s.base[0].DirNode? && |s.view| == |s.base|
    && |s.opEnd| == k + 1 && s.opEnd[0] == 0 && s.opEnd[k] == |s.micro| == |s.owner|
    && (forall i, j :: 0 <= i <= j <= k ==> s.opEnd[i] <= s.opEnd[j])
    && (forall j :: 0 <= j < |s.micro| ==> s.owner[j] < k && s.opEnd[s.owner[j]] <= j < s.opEnd[s.owner[j] + 1])
    && AllFit(s.micro, |s.base|)
    && (forall j :: 0 <= j < |s.micro| - 1 && s.owner[j] == s.owner[j + 1] ==> !IsMeta(s.micro[j]))
    && |s.marksBefore| == k + 1 && s.marksBefore[k] == |s.marks|
    && (forall i :: 0 <= i <= k ==> s.marksBefore[i] <= |s.marks|)
  }

  lemma AdvanceIsRegular(s: Stage, k: nat, op: Op, born: seq<Node>, ms: seq<Micro>)
    requires Regular(s, k) && Proper(s.view, Emits(born, ms))
    ensures Regular(Advance(s, k, op, born, ms), k + 1)
  {
    GrowingStaysClosed(s.view, born);
    GrowingStaysClosed(s.base, born);
    ReplayedStaysClosed(s.view + born, ms);
    ReplayedKeepsKinds(s.view + born, ms, 0);
    hide Replayed, Closed, Fits;
    var t := Advance(s, k, op, born, ms);
    assert AllFit(t.micro, |t.base|) by {
      FitsMore(s.micro, |s.base|, |t.base|);
    }
    forall j | 0 <= j < |t.micro|
      ensures t.owner[j] < k + 1 && t.opEnd[t.owner[j]] <= j < t.opEnd[t.owner[j] + 1]
    {
      if j < |s.micro| {
        assert t.owner[j] == s.owner[j];
      } else {
        assert t.owner[j] == k;
      }
    }
    forall j | 0 <= j < |t.micro| - 1 && t.owner[j] == t.owner[j + 1] ensures !IsMeta(t.micro[j]) {
      assert j >= |s.micro| ==> t.micro[j] == ms[j - |s.micro|];
    }
  }

  lemma FitsMore(ms: seq<Micro>, small: nat, large: nat)
    requires AllFit(ms, small) && small <= large
    ensures AllFit(ms, large)
  {
  }

  lemma StartIsRegular(trace: Trace)
    ensures Regular(Start(trace), 0)
  {
    hide Sorted, Load, Closed;
    LoadIsClosed(trace.initial, Sorted(trace.initial.Keys));
  }

  lemma {:induction false} RunIsRegular(trace: Trace, block: nat, k: nat)
    requires block > 0 && k <= |trace.ops| && Run(trace, block, k).Success?
    ensures Regular(Run(trace, block, k).value, k)
  {
    hide OutcomeOf, Advance, Proper, AllFit, Start;
    if k == 0 {
      StartIsRegular(trace);
    } else {
      RunIsRegular(trace, block, k - 1);
      var t := Run(trace, block, k - 1).value;
      var out := OutcomeOf(t.view, trace.ops[k - 1], block);
      OutcomeIsProper(t.view, trace.ops[k - 1], block);
      AdvanceIsRegular(t, k - 1, trace.ops[k - 1], out.born, out.micros);
    }
  }

  lemma {:induction false} ReplayedKeepsKinds(fs: Image, ms: seq<Micro>, n: Ino)
    requires n < |fs|
    ensures Replayed(fs, ms)[n].DirNode? <==> fs[n].DirNode?
  {
    if ms != [] {
      ReplayedKeepsKinds(fs, ms[..|ms| - 1], n);
    }
  }

  /** What earlier stages are of later ones. */
  ghost predicate Precedes(s: Stage, t: Stage) {
    s.micro <= t.micro && s.owner <= t.owner && s.opEnd <= t.opEnd && s.base <= t.base
    && s.marks <= t.marks && s.marksBefore <= t.marksBefore
  }

  lemma {:induction false} RunPrecedes(trace: Trace, block: nat, k: nat, n: nat)
    requires block > 0 && k <= n <= |trace.ops| && Run(trace, block, n).Success?
    ensures Run(trace, block, k).Success?
    ensures Precedes(Run(trace, block, k).value, Run(trace, block, n).value)
  {
    hide OutcomeOf, Replayed;
    if k < n {
      RunPrecedes(trace, block, k, n - 1);
    }
  }
}
