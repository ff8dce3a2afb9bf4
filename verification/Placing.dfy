/** Where the ops of a recorded log stand among each other, call by call. */
module Placing {
  import opened Trace
  import opened Paths
  import opened Reference
  import opened Kernel
  import opened Unnoticed
  import opened Recording

  /** An acknowledgement: the first `n` bytes of `data`, as text. */
  ghost predicate Says(ops: seq<Op>, data: seq<Byte>, n: nat) {
    && |ops| == 1 && ops[0].Mark? && n <= |data| && |ops[0].text| == n
    && forall b :: 0 <= b < n ==> ops[0].text[b] == data[b] as char
  }

  /** What one call leaves in the trace, if the tree before it is `tree`. */
  ghost predicate Stands(k: Machine, tree: Tree, pid: nat, call: Call, ops: seq<Op>) {
    match call
    case Sync => ops == [Op.Sync]
    case Fsync(at) => ops == (if at.Some? then [Op.Fsync(at.value)] else [])
    case Write(fd, at, data, _, n) =>
      if at.Some? then
        match DescriptionOf(k, pid, fd)
        case None => false
        case Some(d) =>
          && d < |k.open| && n <= |data| && at.value in tree && tree[at.value].File?
          && var end := |tree[at.value].data|;
          ops == if n == 0 then []
                 else [Op.Write(at.value, if k.open[d].append then end else k.open[d].offset, data[..n])]
      else if fd == 1 then Says(ops, data, n) else ops == []
    case PWrite(fd, at, data, _, n, position) =>
      if at.Some?
      then 0 <= position && n <= |data| && ops == if n == 0 then [] else [Op.Write(at.value, position, data[..n])]
      else if fd == 1 then Says(ops, data, n) else ops == []
    case Truncate(path, len) => ops == (if path.Some? then [Op.Truncate(path.value, len)] else [])
    case Open(_, path, creat, trunc, _) =>
      ops == (if path.None? || path.value == "" then []
              else if path.value !in tree then (if creat then [Op.Create(path.value)] else [])
              else if trunc && tree[path.value].File? && tree[path.value].data != [] then [Op.Truncate(path.value, 0)]
              else [])
    case Mkdir(path) => ops == (if path.Some? then [Op.Mkdir(path.value)] else [])
    case Remove(path) => ops == (if path.Some? then [Removal(tree, path.value)] else [])
    case Rename(from, to, _) =>
      ops == (if from.Some? && to.Some? then [Op.Rename(from.value, to.value)]
              else if from.Some? then [Removal(tree, from.value)]
              else [])
    case _ => ops == []
  }

  function Removal(tree: Tree, path: string): Op {
    if path in tree && tree[path] == Dir then Op.Rmdir(path) else Op.Unlink(path)
  }

  lemma RecordedStands(k: Machine, pid: nat, call: Call)
    requires IsMachine(k) && Possible(k, pid, call) && !Misses(k, pid, call) && !Unreadable(call)
    requires "" !in k.tree
    ensures Stands(k, k.tree, pid, call, Recorded(k, pid, call))
  {
    hide Normal, Split, Below, NothingBelow, IsMachine, TakesOver;
  }

  // ------------------------------------------------------------- whole logs

  /** The ops from `a` to `b` are what event `e` left, at the place where the calls before it are done. */
  ghost predicate StandsAt(k: Machine, log: seq<Event>, trace: Trace, e: nat, a: nat, b: nat)
    requires IsMachine(k) && e < |log|
  {
    && PossibleLog(k, log[..e]) && a <= b <= |trace.ops| && TreeAfter(trace, a).Success?
    && Stands(AfterLog(k, log[..e]), TreeAfter(trace, a).value, log[e].pid, log[e].call, trace.ops[a..b])
  }

  /** The trace from op `start` on is the log, call by call. */
  ghost predicate InPlaceFrom(k: Machine, log: seq<Event>, trace: Trace, start: nat, at: seq<nat>)
    requires IsMachine(k)
  {
    && |at| == |log| + 1 && at[0] == start && at[|log|] == |trace.ops|
    && forall e: nat :: e < |log| ==> StandsAt(k, log, trace, e, at[e], at[e + 1])
  }

  /** Every call has its place in the trace, in the order of the log, and there is nothing else. */
  ghost predicate InPlace(k: Machine, log: seq<Event>, trace: Trace)
    requires IsMachine(k)
  {
    exists at :: InPlaceFrom(k, log, trace, 0, at)
  }

  lemma {:induction false} TreeAfterMore(initial: Tree, ops: seq<Op>, more: seq<Op>, n: nat)
    requires n <= |ops|
    ensures TreeAfter(Trace(initial, ops + more), n) == TreeAfter(Trace(initial, ops), n)
  {
    hide Step;
    if n > 0 {
      TreeAfterMore(initial, ops, more, n - 1);
    }
  }

  lemma PlaceOfRest(k: Machine, log: seq<Event>, trace: Trace, e: nat, a: nat, b: nat)
    requires IsMachine(k) && e + 1 < |log| && Possible(k, log[0].pid, log[0].call)
    requires IsMachine(After(k, log[0].pid, log[0].call))
    requires StandsAt(After(k, log[0].pid, log[0].call), log[1..], trace, e, a, b)
    ensures StandsAt(k, log, trace, e + 1, a, b)
  {
    hide Stands, After, Possible, IsMachine;
    var upTo := log[..e + 1];
    assert upTo[0] == log[0] && upTo[1..] == log[1..][..e];
    StaysAMachine(k, log[0].pid, log[0].call);
  }

  lemma {:induction false} LogStands(initial: Tree, before: seq<Op>, k: Machine, log: seq<Event>) returns (at: seq<nat>)
    requires IsMachine(k) && PossibleLog(k, log) && OpsGive(initial, before, k.tree) && "" !in k.tree
    requires NeverMisses(k, log) && forall i :: 0 <= i < |log| ==> !Unreadable(log[i].call)
    ensures InPlaceFrom(k, log, Trace(initial, before + RecordedBy(k, log)), |before|, at)
    decreases |log|
  {
    hide OpsGive, Recorded, After, Possible, IsMachine, Astray, TakesOver, Unreadable, Stands, Confuses, MissesNoticed,
      StandsAt;
    if log == [] {
      assert before + [] == before;
      at := [|before|];
    } else {
      var pid, call := log[0].pid, log[0].call;
      StaysAMachine(k, pid, call);
      var next, first := After(k, pid, call), Recorded(k, pid, call);
      var rest := RecordedBy(next, log[1..]);
      RecordedGives(initial, before, k, pid, call);
      var later := LogStands(initial, before + first, next, log[1..]);
      assert before + RecordedBy(k, log) == before + first + rest;
      var trace := Trace(initial, before + first + rest);
      at := [|before|] + later;
      FirstStands(initial, before, k, log, rest);
      forall e: nat | e < |log| ensures StandsAt(k, log, trace, e, at[e], at[e + 1]) {
        if e > 0 {
          PlaceOfRest(k, log, trace, e - 1, at[e], at[e + 1]);
        }
      }
    }
  }

  lemma FirstStands(initial: Tree, before: seq<Op>, k: Machine, log: seq<Event>, rest: seq<Op>)
    requires IsMachine(k) && log != [] && Possible(k, log[0].pid, log[0].call) && "" !in k.tree
    requires OpsGive(initial, before, k.tree)
    requires !Misses(k, log[0].pid, log[0].call) && !Unreadable(log[0].call)
    ensures var first := Recorded(k, log[0].pid, log[0].call);
            StandsAt(k, log, Trace(initial, before + first + rest), 0, |before|, |before + first|)
  {
    hide Recorded, After, Possible, IsMachine, Misses, Unreadable, Stands;
    var first := Recorded(k, log[0].pid, log[0].call);
    RecordedStands(k, log[0].pid, log[0].call);
    assert log[..0] == [] && before + first + rest == before + (first + rest);
    TreeAfterMore(initial, before, first + rest, |before|);
    assert (before + first + rest)[|before|..|before + first|] == first;
  }
}
