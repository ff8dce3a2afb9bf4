/** The compiler itself: one pass over the trace with three maps of not yet durable micro-ops. */
module Compiler {
  import opened Wrappers
  import opened Trace
  import opened Paths
  import opened FileSystem
  import opened Snapshot
  import opened Runs
  import opened Stages
  import Bytes

  /** Indices of micro-ops by the inode whose fsync would flush them. */
  type Pending = map<Ino, seq<nat>>

  /** `pending_data` lists writes and sizes by file, `pending_dir` entries by directory. */
  datatype Kind = Data | Dirs

  function Key(kind: Kind, m: Micro): Option<Ino> {
    match m
    case Write(ino, _, _) => if kind.Data? then Some(ino) else None
    case SetLen(ino, _, _) => if kind.Data? then Some(ino) else None
    case Link(parent, _, _) => if kind.Dirs? then Some(parent) else None
    case Unlink(parent, _) => if kind.Dirs? then Some(parent) else None
    case Rename(_, _, to, _, _, _) => if kind.Dirs? then Some(to) else None
  }

  function Listed(pending: Pending, ino: Ino): seq<nat> {
    if ino in pending then pending[ino] else []
  }

  function Add(pending: Pending, ino: Ino, j: nat): Pending {
    pending[ino := Listed(pending, ino) + [j]]
  }

  ghost predicate ListsOnly(kind: Kind, micro: seq<MicroOp>, n: nat, ino: Ino, list: seq<nat>)
    requires n <= |micro|
  {
    forall k :: 0 <= k < |list| ==> list[k] < n && Key(kind, micro[list[k]].m) == Some(ino)
  }

  ghost predicate ListsMeta(micro: seq<MicroOp>, n: nat, list: seq<nat>)
    requires n <= |micro|
  {
    forall k :: 0 <= k < |list| ==> list[k] < n && IsMeta(micro[list[k]].m)
  }

  /** The lists may be stale (name micro-ops that are durable already) but never name a foreign one,
      and never miss one of the first `n` that is not durable. */
  ghost predicate Keeps(kind: Kind, micro: seq<MicroOp>, n: nat, pending: Pending)
    requires n <= |micro|
  {
    && (forall ino :: ino in pending ==> ListsOnly(kind, micro, n, ino, pending[ino]))
    && (forall j :: 0 <= j < n && micro[j].durableAt == NEVER && Key(kind, micro[j].m).Some? ==>
          j in Listed(pending, Key(kind, micro[j].m).value))
  }

  ghost predicate KeepsMeta(micro: seq<MicroOp>, n: nat, meta: seq<nat>)
    requires n <= |micro|
  {
    && ListsMeta(micro, n, meta)
    && (forall j :: 0 <= j < n && micro[j].durableAt == NEVER && IsMeta(micro[j].m) ==> j in meta)
  }

  ghost predicate Files(micro: seq<MicroOp>, n: nat, data: Pending, dirs: Pending, meta: seq<nat>)
    requires n <= |micro|
  {
    Keeps(Data, micro, n, data) && Keeps(Dirs, micro, n, dirs) && KeepsMeta(micro, n, meta)
  }

  lemma AddLists(kind: Kind, micro: seq<MicroOp>, n: nat, ino: Ino, list: seq<nat>)
    requires n < |micro| && ListsOnly(kind, micro, n, ino, list)
    ensures ListsOnly(kind, micro, n + 1, ino, list)
    ensures Key(kind, micro[n].m) == Some(ino) ==> ListsOnly(kind, micro, n + 1, ino, list + [n])
  {
  }

  lemma AddKeeps(kind: Kind, micro: seq<MicroOp>, n: nat, pending: Pending)
    requires n < |micro| && Keeps(kind, micro, n, pending)
    ensures match Key(kind, micro[n].m)
            case Some(ino) => Keeps(kind, micro, n + 1, Add(pending, ino, n))
            case None => Keeps(kind, micro, n + 1, pending)
  {
    hide ListsOnly, Key;
    forall ino ensures ino in pending ==> ListsOnly(kind, micro, n + 1, ino, pending[ino]) {
      if ino in pending {
        AddLists(kind, micro, n, ino, pending[ino]);
      }
    }
    if Key(kind, micro[n].m).Some? {
      var ino := Key(kind, micro[n].m).value;
      NothingListed(kind, micro, n, ino);
      AddLists(kind, micro, n, ino, Listed(pending, ino));
      forall j | j in Listed(pending, ino) + [n] ensures j in Listed(Add(pending, ino, n), ino) {}
    }
  }

  lemma NothingListed(kind: Kind, micro: seq<MicroOp>, n: nat, ino: Ino)
    requires n <= |micro|
    ensures ListsOnly(kind, micro, n, ino, [])
  {
  }

  lemma AddKeepsMeta(micro: seq<MicroOp>, n: nat, meta: seq<nat>)
    requires n < |micro| && KeepsMeta(micro, n, meta)
    ensures KeepsMeta(micro, n + 1, if IsMeta(micro[n].m) then meta + [n] else meta)
  {
    forall j | 0 <= j < n && j in meta ensures j in meta + [n] {}
  }

  /** Only stamps separate `micro` from `after`. */
  ghost predicate Restamped(micro: seq<MicroOp>, after: seq<MicroOp>) {
    && |after| == |micro|
    && forall j :: 0 <= j < |micro| ==>
         after[j].m == micro[j].m && (after[j].durableAt == NEVER ==> micro[j].durableAt == NEVER)
  }

  lemma FlushKeeps(kind: Kind, micro: seq<MicroOp>, after: seq<MicroOp>, pending: Pending, ino: Ino)
    requires Keeps(kind, micro, |micro|, pending) && Restamped(micro, after)
    requires forall j :: 0 <= j < |micro| && Key(kind, micro[j].m) == Some(ino) ==> after[j].durableAt != NEVER
    ensures Keeps(kind, after, |after|, pending - {ino})
  {
    forall other | other in pending - {ino} ensures ListsOnly(kind, after, |after|, other, pending[other]) {
      assert ListsOnly(kind, micro, |micro|, other, pending[other]);
    }
  }

  /** The `flush` closure: stamp every listed micro-op that is not durable yet. */
  method Flush(list: seq<nat>, i: nat, micro: seq<MicroOp>) returns (out: seq<MicroOp>)
    requires forall k :: 0 <= k < |list| ==> list[k] < |micro|
    ensures |out| == |micro|
    ensures forall j :: 0 <= j < |micro| ==>
              out[j] == if j in list && micro[j].durableAt == NEVER then micro[j].(durableAt := i) else micro[j]
  {
    out := micro;
    var k := 0;
    while k < |list|
      invariant k <= |list| && |out| == |micro|
      invariant forall j :: 0 <= j < |micro| ==>
        out[j] == if j in list[..k] && micro[j].durableAt == NEVER then micro[j].(durableAt := i) else micro[j]
    {
      var j := list[k];
      assert list[..k + 1] == list[..k] + [j];
      if out[j].durableAt == NEVER {
        out := out[j := out[j].(durableAt := i)];
      }
      k := k + 1;
    }
    assert list[..k] == list;
  }

  /** Register the micro-ops from `start` on with what would flush them. */
  method Register(micro: seq<MicroOp>, start: nat, data: Pending, dirs: Pending, meta: seq<nat>)
    returns (data': Pending, dirs': Pending, meta': seq<nat>)
    requires start <= |micro| && Files(micro, start, data, dirs, meta)
    ensures Files(micro, |micro|, data', dirs', meta')
  {
    hide Keeps, KeepsMeta;
    data', dirs', meta' := data, dirs, meta;
    var j := start;
    while j < |micro|
      invariant j <= |micro|
      invariant Files(micro, j, data', dirs', meta')
    {
      AddKeeps(Data, micro, j, data');
      AddKeeps(Dirs, micro, j, dirs');
      AddKeepsMeta(micro, j, meta');
      match micro[j].m {
        case Write(ino, _, _) => data' := Add(data', ino, j);
        case SetLen(ino, _, _) => data' := Add(data', ino, j);
        case Link(parent, _, _) => dirs' := Add(dirs', parent, j);
        case Unlink(parent, _) => dirs' := Add(dirs', parent, j);
        case Rename(_, _, to, _, _, _) => dirs' := Add(dirs', to, j);
      }
      if IsMeta(micro[j].m) {
        meta' := meta' + [j];
      }
      j := j + 1;
    }
  }

  /** `after` is `micro` with every uncovered micro-op that `barrier` covers made durable at `i`. */
  ghost predicate Stamped(profile: Profile, barrier: Barrier, i: nat, micro: seq<MicroOp>, after: seq<MicroOp>) {
    && |after| == |micro|
    && forall j :: 0 <= j < |micro| ==>
         after[j] == if micro[j].durableAt == NEVER && Covers(profile, barrier, micro[j].m)
                     then micro[j].(durableAt := i) else micro[j]
  }

  lemma InScopeIsKey(ino: Ino)
    ensures forall m :: InScope(ino, m) <==> Key(Data, m) == Some(ino) || Key(Dirs, m) == Some(ino)
  {
  }

  /** What one list flushes: exactly the uncovered micro-ops filed under `ino`. */
  lemma ListedLists(kind: Kind, micro: seq<MicroOp>, pending: Pending, ino: Ino)
    requires Keeps(kind, micro, |micro|, pending)
    ensures ListsOnly(kind, micro, |micro|, ino, Listed(pending, ino))
    ensures forall j :: 0 <= j < |micro| && micro[j].durableAt == NEVER ==>
              (j in Listed(pending, ino) <==> Key(kind, micro[j].m) == Some(ino))
  {
  }

  method FlushInode(profile: Profile, ino: Ino, i: nat, micro: seq<MicroOp>,
                    data: Pending, dirs: Pending, meta: seq<nat>)
    returns (out: seq<MicroOp>, data': Pending, dirs': Pending, meta': seq<nat>)
    requires Files(micro, |micro|, data, dirs, meta) && i < NEVER
    ensures Stamped(profile, Inode(ino), i, micro, out)
    ensures Files(out, |out|, data', dirs', meta')
  {
    InScopeIsKey(ino);
    ListedLists(Data, micro, data, ino);
    ListedLists(Dirs, micro, dirs, ino);
    out := Flush(Listed(data, ino), i, micro);
    data' := data - {ino};
    out := Flush(Listed(dirs, ino), i, out);
    dirs' := dirs - {ino};
    meta' := meta;
    if profile == Ext4Ordered {
      out := Flush(meta, i, out);
      meta' := [];
    }
    FlushKeeps(Data, micro, out, data, ino);
    FlushKeeps(Dirs, micro, out, dirs, ino);
  }

  method FlushAll(i: nat, micro: seq<MicroOp>) returns (out: seq<MicroOp>)
    requires i < NEVER
    ensures forall profile :: Stamped(profile, Everything, i, micro, out)
    ensures forall j :: 0 <= j < |out| ==> out[j].durableAt != NEVER
  {
    var all := seq(|micro|, j => j);
    forall j | 0 <= j < |micro| ensures j in all {
      assert all[j] == j;
    }
    out := Flush(all, i, micro);
  }

  // ------------------------------------------------------------ replaying ops

  /** Micro-ops of op `i`, not durable yet. */
  function Tagged(ms: seq<Micro>, i: nat): (t: seq<MicroOp>)
    ensures |t| == |ms|
  {
    seq(|ms|, j requires 0 <= j < |ms| => MicroOp(ms[j], i, NEVER))
  }

  lemma TaggedSnoc(ms: seq<Micro>, m: Micro, i: nat)
    ensures Tagged(ms + [m], i) == Tagged(ms, i) + [MicroOp(m, i, NEVER)]
  {
  }

  lemma ReplayedSnoc(fs: Image, ms: seq<Micro>, m: Micro)
    ensures Replayed(fs, ms + [m]) == Applied(Replayed(fs, ms), m)
  {
    assert (ms + [m])[..|ms|] == ms;
  }

  /** The `emit` closure. */
  method Emit(m: Micro, i: nat, v: Fs, micro: seq<MicroOp>) returns (out: seq<MicroOp>)
    requires Fits(m, |v.nodes|)
    modifies v
    ensures v.nodes == Applied(old(v.nodes), m) && out == micro + [MicroOp(m, i, NEVER)]
  {
    v.Apply(m);
    out := micro + [MicroOp(m, i, NEVER)];
  }

  lemma NextBlock(at: nat, block: nat)
    requires block > 0
    ensures (at / block + 1) * block == at + Room(at, block)
  {
    hide Room;
    var q, r := at / block, at % block;
    assert at == q * block + r;
    Bytes.RoomIs(at, q, r, block);
  }

  lemma ChunksStep(ino: Ino, at: nat, data: seq<Byte>, block: nat, n: nat)
    requires block > 0 && data != [] && n == Min(Room(at, block), |data|)
    ensures Chunks(ino, at, data, block) == [Micro.Write(ino, at, data[..n])] + Chunks(ino, at + n, data[n..], block)
  {
  }

  /** The chunk loop of a write. */
  method EmitChunks(ino: Ino, offset: nat, data: seq<Byte>, block: nat, i: nat, v: Fs, micro: seq<MicroOp>)
    returns (out: seq<MicroOp>)
    requires block > 0 && ino < |v.nodes|
    modifies v
    ensures v.nodes == Replayed(old(v.nodes), Chunks(ino, offset, data, block))
    ensures out == micro + Tagged(Chunks(ino, offset, data, block), i)
  {
    hide Applied, Chunks, Room, Replayed;
    out := micro;
    var end := offset + |data|;
    var at := offset;
    ghost var done: seq<Micro> := [];
    ReplayedNothing(v.nodes);
    assert data[0..] == data;
    while at < end
      invariant offset <= at <= end
      invariant |v.nodes| == |old(v.nodes)| && v.nodes == Replayed(old(v.nodes), done)
      invariant out == micro + Tagged(done, i)
      invariant Chunks(ino, offset, data, block) == done + Chunks(ino, at, data[at - offset..], block)
    {
      NextBlock(at, block);
      var next := Min((at / block + 1) * block, end);
      var chunk := data[at - offset..next - offset];
      ghost var left := data[at - offset..];
      ChunksStep(ino, at, left, block, next - at);
      assert chunk == left[..next - at] && left[next - at..] == data[next - offset..];
      var m := Micro.Write(ino, at, chunk);
      ReplayedSnoc(old(v.nodes), done, m);
      TaggedSnoc(done, m, i);
      out := Emit(m, i, v, out);
      done := done + [m];
      at := next;
    }
    ChunksOfNothing(ino, at, block);
    assert data[at - offset..] == [];
    assert Chunks(ino, offset, data, block) == done;
  }

  lemma ChunksOfNothing(ino: Ino, at: nat, block: nat)
    requires block > 0
    ensures Chunks(ino, at, [], block) == []
  {
  }

  /** What replaying op `i` did: the view and the padded initial image before and after, and the
      micro-op list. */
  ghost predicate Did(out: Outcome, i: nat, v: Image, v': Image, base: Image, base': Image,
                      micro: seq<MicroOp>, r: Result<seq<MicroOp>, Refusal>)
  {
    match out
    case Refused(reason) => r == Failure(reason)
    case Emits(born, ms) =>
      r == Success(micro + Tagged(ms, i)) && v' == Replayed(v + born, ms) && base' == base + born
  }

  lemma DidNothing(i: nat, v: Image, base: Image, micro: seq<MicroOp>)
    ensures Did(Emits([], []), i, v, v, base, base, micro, Success(micro))
    ensures base + [] == base
  {
    assert v + [] == v && base + [] == base;
    assert micro + Tagged([], i) == micro;
  }

  lemma TaggedOne(m: Micro, i: nat)
    ensures Tagged([m], i) == [MicroOp(m, i, NEVER)]
  {
  }

  method ReplayCreate(path: string, node: Node, i: nat, v: Fs, base: Fs, micro: seq<MicroOp>)
    returns (r: Result<seq<MicroOp>, Refusal>)
    requires Closed(v.nodes) && |v.nodes| == |base.nodes| && v != base && (node.DirNode? ==> node.entries == map[])
    modifies v, base
    ensures Did(OutcomeOfCreate(old(v.nodes), path, node), i, old(v.nodes), v.nodes, old(base.nodes), base.nodes,
            micro, r)
  {
    hide Lookup, Split, Applied, Replayed, Tagged;
    DidNothing(i, v.nodes, base.nodes, micro);
    var found := v.FindPath(path);
    if found.Some? {
      return Success(micro);
    }
    var (dir, name) := Split(path);
    var parent := v.FindPath(dir);
    if parent.None? || v.nodes[parent.value].FileNode? {
      return Failure(NoParent);
    }
    var ino := v.Push(node);
    var _ := base.Push(node);
    var m := Link(parent.value, name, ino);
    ReplayedSingle(v.nodes, m);
    TaggedOne(m, i);
    var out := Emit(m, i, v, micro);
    r := Success(out);
  }

  method ReplayWrite(path: string, offset: nat, data: seq<Byte>, block: nat, i: nat, v: Fs, base: Fs,
                     micro: seq<MicroOp>)
    returns (r: Result<seq<MicroOp>, Refusal>)
    requires Closed(v.nodes) && |v.nodes| == |base.nodes| && v != base && block > 0
    modifies v
    ensures Did(OutcomeOfWrite(old(v.nodes), path, offset, data, block), i, old(v.nodes), v.nodes, old(base.nodes),
            base.nodes, micro, r)
  {
    hide Lookup, Applied, Replayed, Tagged, Chunks;
    var found := v.FindPath(path);
    if found.None? {
      return Failure(NoSuchFile);
    }
    var ino := found.value;
    if v.nodes[ino].DirNode? {
      return Failure(IsADirectory);
    }
    var len, end := v.nodes[ino].len, offset + |data|;
    ghost var start := v.nodes;
    ghost var chunks := Chunks(ino, offset, data, block);
    var out := EmitChunks(ino, offset, data, block, i, v, micro);
    assert start + [] == start && chunks + [] == chunks && base.nodes + [] == base.nodes;
    if end > len {
      var m := SetLen(ino, end, true);
      ReplayedSnoc(start, chunks, m);
      TaggedSnoc(chunks, m, i);
      out := Emit(m, i, v, out);
      assert out == micro + Tagged(chunks + [m], i);
    }
    r := Success(out);
  }

  method ReplayOne(m: Micro, i: nat, v: Fs, micro: seq<MicroOp>) returns (r: Result<seq<MicroOp>, Refusal>)
    requires Fits(m, |v.nodes|)
    modifies v
    ensures v.nodes == Replayed(old(v.nodes) + [], [m]) && r == Success(micro + Tagged([m], i))
  {
    hide Applied, Replayed, Tagged;
    assert v.nodes + [] == v.nodes;
    ReplayedSingle(v.nodes, m);
    TaggedOne(m, i);
    var out := Emit(m, i, v, micro);
    r := Success(out);
  }

  method ReplayTruncate(path: string, len: nat, i: nat, v: Fs, base: Fs, micro: seq<MicroOp>)
    returns (r: Result<seq<MicroOp>, Refusal>)
    requires Closed(v.nodes) && |v.nodes| == |base.nodes| && v != base
    modifies v
    ensures Did(OutcomeOf(old(v.nodes), Op.Truncate(path, len), 1), i, old(v.nodes), v.nodes, old(base.nodes),
            base.nodes, micro, r)
  {
    hide Lookup, Applied, Replayed, Tagged;
    DidNothing(i, v.nodes, base.nodes, micro);
    var found := v.FindPath(path);
    if found.None? {
      return Failure(NoSuchFile);
    }
    if v.nodes[found.value].DirNode? {
      return Failure(IsADirectory);
    }
    r := ReplayOne(SetLen(found.value, len, false), i, v, micro);
  }

  method ReplayRename(from: string, to: string, i: nat, v: Fs, base: Fs, micro: seq<MicroOp>)
    returns (r: Result<seq<MicroOp>, Refusal>)
    requires Closed(v.nodes) && |v.nodes| == |base.nodes| && v != base
    modifies v
    ensures Did(OutcomeOfRename(old(v.nodes), from, to), i, old(v.nodes), v.nodes, old(base.nodes), base.nodes,
            micro, r)
  {
    hide Lookup, Split, Applied, Replayed, Tagged;
    DidNothing(i, v.nodes, base.nodes, micro);
    var found := v.FindPath(from);
    if found.None? {
      return Failure(NoSuchFile);
    }
    var target := v.FindPath(to);
    if from == to || target == found {
      return Success(micro);
    }
    if from + "/" <= to {
      return Failure(IntoItself);
    }
    var (fdir, fname) := Split(from);
    var (tdir, tname) := Split(to);
    ParentResolves(v.nodes, from);
    var fp := v.FindPath(fdir);
    assert fp.Some?;
    var tp := v.FindPath(tdir);
    if tp.None? || v.nodes[tp.value].FileNode? {
      return Failure(NoTargetDir);
    }
    r := ReplayOne(Micro.Rename(fp.value, fname, tp.value, tname, found.value, target.Some?), i, v, micro);
  }

  method ReplayUnlink(path: string, i: nat, v: Fs, base: Fs, micro: seq<MicroOp>)
    returns (r: Result<seq<MicroOp>, Refusal>)
    requires Closed(v.nodes) && |v.nodes| == |base.nodes| && v != base
    modifies v
    ensures Did(OutcomeOfUnlink(old(v.nodes), path), i, old(v.nodes), v.nodes, old(base.nodes), base.nodes, micro, r)
  {
    hide Lookup, Split, Applied, Replayed, Tagged;
    DidNothing(i, v.nodes, base.nodes, micro);
    var found := v.FindPath(path);
    if found.None? {
      return Failure(NoSuchFile);
    }
    var (dir, name) := Split(path);
    ParentResolves(v.nodes, path);
    var parent := v.FindPath(dir);
    assert parent.Some?;
    r := ReplayOne(Micro.Unlink(parent.value, name), i, v, micro);
  }

  /** The first half of the loop body: replay one op on the view. */
  method ReplayOp(op: Op, block: nat, i: nat, v: Fs, base: Fs, micro: seq<MicroOp>)
    returns (r: Result<seq<MicroOp>, Refusal>)
    requires Closed(v.nodes) && |v.nodes| == |base.nodes| && v != base && block > 0
    modifies v, base
    ensures Did(OutcomeOf(old(v.nodes), op, block), i, old(v.nodes), v.nodes, old(base.nodes), base.nodes, micro, r)
  {
    hide Lookup, Applied, Replayed, Tagged, OutcomeOfCreate, OutcomeOfRename, OutcomeOfUnlink, OutcomeOfWrite;
    DidNothing(i, v.nodes, base.nodes, micro);
    r := Success(micro);
    match op {
      case Create(path) => r := ReplayCreate(path, FileNode([], 0), i, v, base, micro);
      case Mkdir(path) => r := ReplayCreate(path, DirNode(map[]), i, v, base, micro);
      case Write(path, offset, data) => r := ReplayWrite(path, offset, data, block, i, v, base, micro);
      case Truncate(path, len) => r := ReplayTruncate(path, len, i, v, base, micro);
      case Rename(from, to) => r := ReplayRename(from, to, i, v, base, micro);
      case Unlink(path) => r := ReplayUnlink(path, i, v, base, micro);
      case Rmdir(path) => r := ReplayUnlink(path, i, v, base, micro);
      case Fsync(path) =>
        var found := v.FindPath(path);
        if found.None? {
          r := Failure(NoSuchFile);
        }
      case Sync =>
      case Mark(_) =>
    }
  }

  // --------------------------------------------------------------- durability

  lemma {:induction false} RunStaysFailed(trace: Trace, block: nat, k: nat, n: nat)
    requires block > 0 && k <= n <= |trace.ops| && Run(trace, block, k).Failure?
    ensures Run(trace, block, n) == Run(trace, block, k)
  {
    if k < n {
      RunStaysFailed(trace, block, k, n - 1);
    }
  }

  /** Nothing emitted by op `i` itself is covered by it, and its barrier stamps the rest. */
  lemma StampTracks(trace: Trace, profile: Profile, block: nat, i: nat, s: Stage, born: seq<Node>, ms: seq<Micro>,
                    micro: seq<MicroOp>, out: seq<MicroOp>)
    requires block > 0 && i < |trace.ops| < NEVER && Run(trace, block, i) == Success(s)
    requires Tracks(trace, profile, block, i, s, micro) && Regular(s, i)
    requires BarrierOf(s.view, trace.ops[i]) == Nothing || ms == []
    requires Stamped(profile, BarrierOf(s.view, trace.ops[i]), i, micro + Tagged(ms, i), out)
    ensures Tracks(trace, profile, block, i + 1, Advance(s, i, trace.ops[i], born, ms), out)
  {
    hide Run, BarrierOf, Replayed, Covers, Closed, AllFit;
    var barrier := BarrierOf(s.view, trace.ops[i]);
    var t := Advance(s, i, trace.ops[i], born, ms);
    var all := micro + Tagged(ms, i);
    forall j | 0 <= j < |out|
      ensures out[j].m == t.micro[j] && out[j].op == t.owner[j] && t.owner[j] < |trace.ops|
      ensures FirstCover(trace, profile, block, i + 1, t.owner[j], t.micro[j], out[j].durableAt)
    {
      if j < |micro| {
        assert t.micro[j] == s.micro[j] && t.owner[j] == s.owner[j] && all[j] == micro[j];
        assert CoveredAt(trace, profile, block, i, s.micro[j]) == Covers(profile, barrier, s.micro[j]);
      } else {
        assert all[j] == Tagged(ms, i)[j - |micro|];
        NothingCovers(profile, all[j].m);
      }
    }
  }

  lemma NothingCovers(profile: Profile, m: Micro)
    ensures !Covers(profile, Nothing, m)
  {
  }

  function BlockSize(block: nat): (b: nat)
    ensures b > 0 && (block > 0 ==> b == block)
  {
    if block < 1 then 1 else block
  }

  /** The barrier half of the loop body. */
  method PassBarrier(profile: Profile, op: Op, i: nat, v: Fs, micro: seq<MicroOp>,
                     data: Pending, dirs: Pending, meta: seq<nat>)
    returns (out: seq<MicroOp>, data': Pending, dirs': Pending, meta': seq<nat>)
    requires Closed(v.nodes) && i < NEVER && Files(micro, |micro|, data, dirs, meta)
    requires op.Fsync? ==> Lookup(v.nodes, op.path).Some?
    ensures Stamped(profile, BarrierOf(v.nodes, op), i, micro, out)
    ensures Files(out, |out|, data', dirs', meta')
  {
    hide Keeps, KeepsMeta, Lookup;
    out, data', dirs', meta' := micro, data, dirs, meta;
    match op {
      case Fsync(path) =>
        var ino := v.FindPath(path);
        out, data', dirs', meta' := FlushInode(profile, ino.value, i, micro, data, dirs, meta);
      case Sync =>
        out := FlushAll(i, micro);
        data', dirs', meta' := map[], map[], [];
        AllDurable(out);
      case _ =>
        forall m ensures !Covers(profile, Nothing, m) {}
    }
  }

  lemma AllDurable(micro: seq<MicroOp>)
    requires forall j :: 0 <= j < |micro| ==> micro[j].durableAt != NEVER
    ensures Files(micro, |micro|, map[], map[], [])
  {
  }

  /** Compiling refines the reference run: the same micro-ops, padding, op ends and marks, each
      micro-op durable from the first barrier that covers it; and it fails exactly when, and where,
      the run does. */
  method Compile(trace: Trace, profile: Profile, blockSize: nat) returns (r: Result<Program, CompileError>)
    requires WellFormed(trace.initial) && |trace.ops| < NEVER
    ensures r.Failure? ==> Run(trace, BlockSize(blockSize), |trace.ops|) == Failure(r.error)
    ensures r.Success? ==> IsProgram(trace, profile, BlockSize(blockSize), r.value)
  {
    hide OutcomeOf, Replayed, Tagged, Keeps, KeepsMeta, WellFormed, FirstCover, FromTree, Closed, AllFit, Lookup,
      Stamped, Files, Run, Tracks, Covers;
    var block := BlockSize(blockSize);
    var base := LoadTree(trace.initial);
    var v := new Fs(base.nodes);
    var micro: seq<MicroOp> := [];
    var opEnd, marksBefore, marks := [0], [0], [];
    var data: Pending, dirs: Pending, meta: seq<nat> := map[], map[], [];
    ghost var s := Start(trace);
    RunStart(trace, block);
    NothingTracked(trace, profile, block);
    AllDurable(micro);
    var i := 0;
    while i < |trace.ops|
      invariant i <= |trace.ops| && v != base && fresh(v) && fresh(base)
      invariant Run(trace, block, i) == Success(s)
      invariant v.nodes == s.view && base.nodes == s.base
      invariant opEnd == s.opEnd && marks == s.marks && marksBefore == s.marksBefore
      invariant Tracks(trace, profile, block, i, s, micro)
      invariant Files(micro, |micro|, data, dirs, meta)
    {
      RunIsRegular(trace, block, i);
      var op := trace.ops[i];
      var start := |micro|;
      ghost var before := micro;
      var done := ReplayOp(op, block, i, v, base, micro);
      if done.Failure? {
        StepRefused(trace, block, i);
        RunStaysFailed(trace, block, i + 1, |trace.ops|);
        return Failure(CompileError(i, done.error));
      }
      micro := done.value;
      StepOf(trace, block, i);
      ghost var out := OutcomeOf(s.view, op, block);
      RunIsRegular(trace, block, i + 1);
      BarriersEmitNothing(s.view, op, block, out.born, out.micros);
      FilesMore(before, micro, data, dirs, meta);
      data, dirs, meta := Register(micro, start, data, dirs, meta);
      micro, data, dirs, meta := PassBarrier(profile, op, i, v, micro, data, dirs, meta);
      if op.Mark? {
        marks := marks + [op.text];
      }
      StampTracks(trace, profile, block, i, s, out.born, out.micros, before, micro);
      SameLength(trace, profile, block, i + 1, Advance(s, i, op, out.born, out.micros), micro);
      opEnd := opEnd + [|micro|];
      marksBefore := marksBefore + [|marks|];
      s := Advance(s, i, op, out.born, out.micros);
      i := i + 1;
    }
    r := Success(Program(base.nodes, micro, opEnd, profile, marksBefore, marks));
  }

  lemma SameLength(trace: Trace, profile: Profile, block: nat, k: nat, s: Stage, micro: seq<MicroOp>)
    requires block > 0 && k <= |trace.ops| && Tracks(trace, profile, block, k, s, micro)
    ensures |micro| == |s.micro|
  {
  }

  lemma NothingTracked(trace: Trace, profile: Profile, block: nat)
    requires block > 0
    ensures Tracks(trace, profile, block, 0, Start(trace), [])
  {
  }

  /** A barrier emits nothing, so it sees the view that preceded it. */
  lemma BarriersEmitNothing(v: Image, op: Op, block: nat, born: seq<Node>, ms: seq<Micro>)
    requires block > 0 && OutcomeOf(v, op, block) == Emits(born, ms)
    ensures BarrierOf(v, op) == Nothing || ms == []
    ensures BarrierOf(Replayed(v + born, ms), op) == BarrierOf(v, op)
    ensures op.Fsync? ==> Lookup(Replayed(v + born, ms), op.path).Some?
  {
    hide Lookup, Applied;
    assert v + [] == v;
  }

  lemma FilesMore(micro: seq<MicroOp>, more: seq<MicroOp>, data: Pending, dirs: Pending, meta: seq<nat>)
    requires micro <= more && Files(micro, |micro|, data, dirs, meta)
    ensures Files(more, |micro|, data, dirs, meta)
  {
    forall kind, ino, list | ListsOnly(kind, micro, |micro|, ino, list) ensures ListsOnly(kind, more, |micro|, ino,
      list) {}
  }
}
