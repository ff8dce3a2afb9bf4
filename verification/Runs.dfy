/** Compiling a trace into micro-ops and the barriers that make them durable. */
module Runs {
  import opened Wrappers
  import opened Trace
  import opened Paths
  import opened FileSystem
  import opened Snapshot

  datatype Profile = Posix | Ext4Ordered

  /** Stands for "no barrier": larger than any op index. */
  const NEVER: nat := 0xFFFF_FFFF_FFFF_FFFF

  datatype Refusal = NoSuchFile | IsADirectory | NoParent | IntoItself | NoTargetDir

  datatype CompileError = CompileError(op: nat, reason: Refusal)

  // ------------------------------------------------ what one op is made of

  /** Bytes from `at` to the end of its block. */
  function Room(at: nat, block: nat): (n: nat)
    requires block > 0
    ensures 1 <= n <= block
  {
    if at < block then block - at else Room(at - block, block)
  }

  /** A write, cut at every block boundary. */
  function Chunks(ino: Ino, offset: nat, data: seq<Byte>, block: nat): seq<Micro>
    requires block > 0
    decreases |data|
  {
    if data == [] then [] else
    var n := Min(Room(offset, block), |data|);
    [Micro.Write(ino, offset, data[..n])] + Chunks(ino, offset + n, data[n..], block)
  }

  /** What an op emits when replayed on the volatile view: maybe a new inode, then micro-ops. */
  datatype Outcome = Refused(reason: Refusal) | Emits(born: seq<Node>, micros: seq<Micro>)

  function OutcomeOf(v: Image, op: Op, block: nat): Outcome
    requires block > 0
  {
    match op
    case Create(path) => OutcomeOfCreate(v, path, FileNode([], 0))
    case Mkdir(path) => OutcomeOfCreate(v, path, DirNode(map[]))
    case Write(path, offset, data) => OutcomeOfWrite(v, path, offset, data, block)
    case Truncate(path, len) =>
      (match FileAt(v, path)
       case Failure(reason) => Refused(reason)
       case Success(ino) => Emits([], [SetLen(ino, len, false)]))
    case Rename(from, to) => OutcomeOfRename(v, from, to)
    case Unlink(path) => OutcomeOfUnlink(v, path)
    case Rmdir(path) => OutcomeOfUnlink(v, path)
    case Fsync(path) => if Lookup(v, path).None? then Refused(NoSuchFile) else Emits([], [])
    case Sync => Emits([], [])
    case Mark(_) => Emits([], [])
  }

  function DirAt(v: Image, path: string): Option<Ino> {
    match Lookup(v, path)
    case None => None
    case Some(ino) => if ino < |v| && v[ino].DirNode? then Some(ino) else None
  }

  function FileAt(v: Image, path: string): Result<Ino, Refusal> {
    match Lookup(v, path)
    case None => Failure(NoSuchFile)
    case Some(ino) => if ino < |v| && v[ino].FileNode? then Success(ino) else Failure(IsADirectory)
  }

  function OutcomeOfCreate(v: Image, path: string, node: Node): Outcome {
    if Lookup(v, path).Some? then Emits([], []) else
    match DirAt(v, Split(path).0)
    case None => Refused(NoParent)
    case Some(parent) => Emits([node], [Link(parent, Split(path).1, |v|)])
  }

  function OutcomeOfWrite(v: Image, path: string, offset: nat, data: seq<Byte>, block: nat): Outcome
    requires block > 0
  {
    match FileAt(v, path)
    case Failure(reason) => Refused(reason)
    case Success(ino) =>
      var end := offset + |data|;
      var growth := if ino < |v| && v[ino].FileNode? && end > v[ino].len then [SetLen(ino, end, true)] else [];
      Emits([], Chunks(ino, offset, data, block) + growth)
  }

  function OutcomeOfRename(v: Image, from: string, to: string): Outcome {
    match Lookup(v, from)
    case None => Refused(NoSuchFile)
    case Some(ino) =>
      if from == to || Lookup(v, to) == Some(ino) then Emits([], [])
      else if from + "/" <= to then Refused(IntoItself)
      else
        match DirAt(v, Split(to).0)
        case None => Refused(NoTargetDir)
        case Some(tp) =>
          match Lookup(v, Split(from).0)
          case None => Refused(NoSuchFile)
          case Some(fp) =>
            Emits([], [Micro.Rename(fp, Split(from).1, tp, Split(to).1, ino, Lookup(v, to).Some?)])
  }

  function OutcomeOfUnlink(v: Image, path: string): Outcome {
    if Lookup(v, path).None? then Refused(NoSuchFile) else
    match Lookup(v, Split(path).0)
    case None => Refused(NoSuchFile)
    case Some(parent) => Emits([], [Micro.Unlink(parent, Split(path).1)])
  }

  // ------------------------------------------------------- the reference run

  /** Micro-ops applied one after the other. */
  function Replayed(fs: Image, ms: seq<Micro>): (r: Image)
    ensures |r| == |fs|
  {
    if ms == [] then fs else Applied(Replayed(fs, ms[..|ms| - 1]), ms[|ms| - 1])
  }

  /** Everything known after some ops: the volatile view, the initial image padded with every inode
      created so far, and the micro-ops emitted. */
  datatype Stage = Stage(
    view: Image, base: Image, micro: seq<Micro>, owner: seq<nat>, opEnd: seq<nat>,
    marks: seq<string>, marksBefore: seq<nat>)

  function Start(trace: Trace): Stage {
    var image := FromTree(trace.initial);
    Stage(image, image, [], [], [0], [], [0])
  }

  function Advance(s: Stage, i: nat, op: Op, born: seq<Node>, ms: seq<Micro>): Stage {
    var marks := if op.Mark? then s.marks + [op.text] else s.marks;
    Stage(Replayed(s.view + born, ms), s.base + born, s.micro + ms, s.owner + seq(|ms|, _ => i),
          s.opEnd + [|s.micro| + |ms|], marks, s.marksBefore + [|marks|])
  }

  /** The state after the first `k` ops, or the first op that cannot apply. */
  function Run(trace: Trace, block: nat, k: nat): Result<Stage, CompileError>
    requires block > 0 && k <= |trace.ops|
  {
    if k == 0 then Success(Start(trace)) else
    match Run(trace, block, k - 1)
    case Failure(e) => Failure(e)
    case Success(s) =>
      match OutcomeOf(s.view, trace.ops[k - 1], block)
      case Refused(reason) => Failure(CompileError(k - 1, reason))
      case Emits(born, ms) => Success(Advance(s, k - 1, trace.ops[k - 1], born, ms))
  }

  // --------------------------------------------------------------- barriers

  /** What an op flushes. */
  datatype Barrier = Nothing | Everything | Inode(ino: Ino)

  function BarrierOf(v: Image, op: Op): Barrier {
    match op
    case Sync => Everything
    case Fsync(path) => (match Lookup(v, path) case None => Nothing case Some(ino) => Inode(ino))
    case _ => Nothing
  }

  /** The micro-ops a barrier on inode `ino` covers by itself: the data and size of a file, the
      entries of a directory, and renames into it. */
  predicate InScope(ino: Ino, m: Micro) {
    match m
    case Write(file, _, _) => file == ino
    case SetLen(file, _, _) => file == ino
    case Link(dir, _, _) => dir == ino
    case Unlink(dir, _) => dir == ino
    case Rename(_, _, dir, _, _, _) => dir == ino
  }

  /** The durability table. */
  predicate Covers(profile: Profile, barrier: Barrier, m: Micro) {
    match barrier
    case Nothing => false
    case Everything => true
    case Inode(ino) => InScope(ino, m) || (profile == Ext4Ordered && IsMeta(m))
  }

  ghost predicate CoveredAt(trace: Trace, profile: Profile, block: nat, i: nat, m: Micro)
    requires block > 0 && i < |trace.ops|
  {
    Run(trace, block, i).Success? && Covers(profile, BarrierOf(Run(trace, block, i).value.view, trace.ops[i]), m)
  }

  /** `d` is the first op after `owner`, among the first `k`, that covers `m`; NEVER if none does. */
  ghost predicate FirstCover(trace: Trace, profile: Profile, block: nat, k: nat, owner: nat, m: Micro, d: nat)
    requires block > 0 && k <= |trace.ops|
  {
    && (d == NEVER || (owner < d < k && CoveredAt(trace, profile, block, d, m)))
    && forall i :: owner < i < k && i < d ==> !CoveredAt(trace, profile, block, i, m)
  }

  // --------------------------------------------------------------- programs

  datatype MicroOp = MicroOp(m: Micro, op: nat, durableAt: nat)

  datatype Program = Program(
    base: Image, micro: seq<MicroOp>, opEnd: seq<nat>, profile: Profile,
    marksBefore: seq<nat>, marks: seq<string>)

  function Micros(micro: seq<MicroOp>): (ms: seq<Micro>)
    ensures |ms| == |micro|
  {
    seq(|micro|, j requires 0 <= j < |micro| => micro[j].m)
  }

  /** The micro-ops of a stage, as far as the barriers before op `k` go. */
  ghost predicate Tracks(trace: Trace, profile: Profile, block: nat, k: nat, s: Stage, micro: seq<MicroOp>)
    requires block > 0 && k <= |trace.ops|
  {
    && |micro| == |s.micro| == |s.owner|
    && forall j :: 0 <= j < |micro| ==>
         && micro[j].m == s.micro[j] && micro[j].op == s.owner[j] && s.owner[j] < |trace.ops|
         && FirstCover(trace, profile, block, k, s.owner[j], s.micro[j], micro[j].durableAt)
  }

  /** `p` is what `trace` compiles to. */
  ghost predicate IsProgram(trace: Trace, profile: Profile, block: nat, p: Program)
    requires block > 0
  {
    var n := |trace.ops|;
    && Run(trace, block, n).Success?
    && var s := Run(trace, block, n).value;
    && p.profile == profile && p.base == s.base && p.opEnd == s.opEnd
    && p.marks == s.marks && p.marksBefore == s.marksBefore
    && Tracks(trace, profile, block, n, s, p.micro)
  }
}
