/** The ops that a log of system calls amounts to. */
module Recording {
  import opened Wrappers
  import opened Trace
  import opened Paths
  import opened Reference
  import opened Kernel
  import opened Names
  import opened Unnoticed

  // ------------------------------------------------ what is to be recorded

  function Text(data: seq<Byte>): string {
    seq(|data|, i requires 0 <= i < |data| => data[i] as char)
  }

  function OpenOps(tree: Tree, path: string, creat: bool, trunc: bool): seq<Op> {
    if creat && !ExistsIn(tree, path) then [Op.Create(path)]
    else if trunc && path in tree && tree[path].File? && |tree[path].data| > 0 then [Op.Truncate(path, 0)]
    else []
  }

  /** A write under the root is itself; outside it, what goes to descriptor 1 is an acknowledgement. */
  function WriteOps(at: Option<string>, fd: int, offset: nat, sent: seq<Byte>): seq<Op> {
    if at.None? then (if fd == 1 then [Op.Mark(Text(sent))] else [])
    else if sent == [] then [] else [Op.Write(at.value, offset, sent)]
  }

  function RemoveOps(tree: Tree, path: string): seq<Op> {
    [if IsDirIn(tree, path) then Op.Rmdir(path) else Op.Unlink(path)]
  }

  /** The ops a call amounts to. */
  function Recorded(k: Machine, pid: nat, call: Call): seq<Op>
    requires IsMachine(k) && Possible(k, pid, call)
  {
    match call
    case Open(_, path, creat, trunc, _) => if path.None? then [] else OpenOps(k.tree, path.value, creat, trunc)
    case Write(fd, at, data, _, n) => WriteOps(at, fd, Cursor(k, DescriptionOf(k, pid, fd).value), Sent(data, n))
    case PWrite(fd, at, data, _, n, position) =>
      if at.Some? && position < 0 then [] else WriteOps(at, fd, if position < 0 then 0 else position, Sent(data, n))
    case Truncate(path, len) => if path.None? then [] else [Op.Truncate(path.value, len)]
    case Fsync(at) => if at.None? then [] else [Op.Fsync(at.value)]
    case Sync => [Op.Sync]
    case Rename(from, to, _) =>
      if from.None? then []
      else if to.None? then RemoveOps(k.tree, from.value) else [Op.Rename(from.value, to.value)]
    case Remove(path) => if path.None? then [] else RemoveOps(k.tree, path.value)
    case Mkdir(path) => if path.None? then [] else [Op.Mkdir(path.value)]
    case _ => []
  }

  /** The ops a whole log amounts to, in order. */
  ghost function RecordedBy(k: Machine, log: seq<Event>): seq<Op>
    requires IsMachine(k) && PossibleLog(k, log)
    decreases |log|
  {
    if log == [] then [] else
    StaysAMachine(k, log[0].pid, log[0].call);
    Recorded(k, log[0].pid, log[0].call) + RecordedBy(After(k, log[0].pid, log[0].call), log[1..])
  }

  // ----------------------------------------- a faithful recording is exact

  /** Performing the ops on the initial tree gives `tree`. */
  ghost predicate OpsGive(initial: Tree, ops: seq<Op>, tree: Tree) {
    IsNormalTrace(Trace(initial, ops)) && TreeAfter(Trace(initial, ops), |ops|) == Success(tree)
  }

  lemma OneMoreOp(initial: Tree, ops: seq<Op>, op: Op, tree: Tree, next: Tree)
    requires OpsGive(initial, ops, tree) && IsNormalOp(op) && Step(tree, op) == Success(next)
    ensures OpsGive(initial, ops + [op], next)
  {
    hide Step, IsNormalOp, WellFormed;
    TreeAfterPrefix(initial, ops, op, |ops|);
    var trace := Trace(initial, ops + [op]);
    forall i | 0 <= i < |trace.ops| ensures IsNormalOp(trace.ops[i]) {
      assert i < |ops| ==> trace.ops[i] == Trace(initial, ops).ops[i];
    }
  }

  lemma OneOpGives(initial: Tree, ops: seq<Op>, more: seq<Op>, tree: Tree, next: Tree)
    requires OpsGive(initial, ops, tree) && |more| <= 1
    requires if more == [] then next == tree else IsNormalOp(more[0]) && Step(tree, more[0]) == Success(next)
    ensures OpsGive(initial, ops + more, next)
  {
    hide OpsGive, Step, IsNormalOp;
    if more == [] {
      assert ops + more == ops;
    } else {
      assert more == [more[0]];
      OneMoreOp(initial, ops, more[0], tree, next);
    }
  }

  lemma OpenSteps(tree: Tree, rel: string)
    ensures !ExistsIn(tree, rel) && IsDirIn(tree, Split(rel).0) ==>
              Step(tree, Op.Create(rel)) == Success(tree[rel := File([])])
    ensures rel != "" && rel in tree && tree[rel].File? ==>
              Step(tree, Op.Truncate(rel, 0)) == Success(tree[rel := File([])])
  {
    hide Split;
    if rel != "" && rel in tree && tree[rel].File? {
      assert Resize(tree[rel].data, 0) == [];
    }
  }

  lemma NothingToTruncate(tree: Tree, rel: string)
    ensures rel in tree && tree[rel].File? && |tree[rel].data| == 0 ==> tree[rel := File([])] == tree
  {
  }

  /** A rename that can happen, and what it does to the tree. */
  lemma RenameSteps(k: Machine, pid: nat, from: string, to: string)
    requires IsMachine(k) && Possible(k, pid, Call.Rename(Some(from), Some(to), None))
    ensures IsEntry(k, from) && to != "" && Normal(to)
    ensures from != to ==> Apart(from, to) && NothingBelow(k.tree, to)
    ensures if from !in k.tree || (from != to && !IsDirIn(k.tree, Split(to).0))
            then Step(k.tree, Op.Rename(from, to)).Failure?
            else Step(k.tree, Op.Rename(from, to)) == Success(Renamed(k, from, to).tree)
  {
    hide Normal, Moved, Split;
  }

  lemma WriteStep(tree: Tree, rel: string, offset: nat, data: seq<Byte>)
    requires rel != "" && rel in tree && tree[rel].File?
    ensures Step(tree, Op.Write(rel, offset, data)) == Success(tree[rel := File(WriteAt(tree[rel].data, offset, data))])
    ensures SameShape(Step(tree, Op.Write(rel, offset, data)).value, tree)
    ensures TreeWritten(tree, Some(rel), offset, data) ==
            (if data == [] then tree else tree[rel := File(WriteAt(tree[rel].data, offset, data))])
  {
    hide WriteAt;
  }

  lemma RootStays(tree: Tree, path: string)
    requires "" !in tree
    ensures "" !in Without(tree, path)
  {
  }

  ghost predicate StepsAsRecorded(k: Machine, pid: nat, call: Call)
    requires IsMachine(k) && Possible(k, pid, call)
  {
    var ops, next := Recorded(k, pid, call), After(k, pid, call).tree;
    && |ops| <= 1 && "" !in next
    && if ops == [] then !Astray(k, pid, call) && next == k.tree
       else
         && IsNormalOp(ops[0]) && (Step(k.tree, ops[0]).Success? <==> !Astray(k, pid, call))
         && (!Astray(k, pid, call) ==> SameShape(Step(k.tree, ops[0]).value, next))
         && (!Astray(k, pid, call) && !TakesOver(k, pid, call) ==> Step(k.tree, ops[0]) == Success(next))
  }

  lemma OpenStepsAsRecorded(k: Machine, pid: nat, call: Call)
    requires IsMachine(k) && Possible(k, pid, call) && "" !in k.tree && call.Open?
    ensures StepsAsRecorded(k, pid, call)
  {
    hide Normal, Split, Resize, IsMachine, Unseen;
    if call.path.Some? {
      OpenSteps(k.tree, call.path.value);
      NothingToTruncate(k.tree, call.path.value);
    }
  }

  lemma WriteOpSteps(tree: Tree, at: Option<string>, fd: int, offset: nat, sent: seq<Byte>)
    requires "" !in tree && (at.Some? ==> Normal(at.value) && at.value != "")
    requires at.Some? && at.value in tree ==> tree[at.value].File?
    ensures var ops, next := WriteOps(at, fd, offset, sent), TreeWritten(tree, at, offset, sent);
            var astray := at.Some? && at.value !in tree && sent != [];
            && |ops| <= 1 && "" !in next && (ops == [] ==> !astray && next == tree)
            && (ops != [] ==> IsNormalOp(ops[0]) && if astray then Step(tree, ops[0]).Failure?
                                                    else Step(tree, ops[0]) == Success(next))
  {
    hide Normal, WriteAt;
  }

  lemma FileIsKnown(k: Machine, at: Option<string>)
    requires IsFileAt(k, at)
    ensures at.Some? ==> Normal(at.value) && at.value != "" && (at.value in k.tree ==> k.tree[at.value].File?)
  {
    hide Normal, Below;
  }

  lemma WriteStepsAsRecorded(k: Machine, pid: nat, call: Call)
    requires IsMachine(k) && Possible(k, pid, call) && "" !in k.tree && (call.Write? || call.PWrite?)
    ensures StepsAsRecorded(k, pid, call)
  {
    hide Normal, WriteAt, IsMachine, Cursor, IsFileAt, WriteOps, TreeWritten, Step, SameShape;
    FileIsKnown(k, call.at);
    var sent := Sent(call.data, call.n);
    if call.Write? {
      var at := Cursor(k, DescriptionOf(k, pid, call.fd).value);
      WriteOpSteps(k.tree, call.at, call.fd, at, sent);
      SentNothing(k.tree, call.at, at, sent);
    } else {
      var at := if call.position < 0 then 0 else call.position;
      WriteOpSteps(k.tree, call.at, call.fd, at, sent);
      SentNothing(k.tree, call.at, at, sent);
    }
    SameShapeAsItself(After(k, pid, call).tree);
  }

  lemma SentNothing(tree: Tree, at: Option<string>, offset: nat, sent: seq<Byte>)
    ensures sent == [] || at.None? ==> TreeWritten(tree, at, offset, sent) == tree
  {
  }

  lemma RenameStepsAsRecorded(k: Machine, pid: nat, call: Call)
    requires IsMachine(k) && Possible(k, pid, call) && "" !in k.tree && call.Rename?
    ensures StepsAsRecorded(k, pid, call)
  {
    hide Normal, Split, Moved, Below, NothingBelow, IsMachine, Unseen, HiddenRenamed;
    if call.from.Some? && call.to.Some? {
      RenameSteps(k, pid, call.from.value, call.to.value);
      RootIsAbove(call.from.value, call.to.value);
    } else if call.from.Some? {
      RootStays(k.tree, call.from.value);
    }
  }

  lemma NameStepsAsRecorded(k: Machine, pid: nat, call: Call)
    requires IsMachine(k) && Possible(k, pid, call) && "" !in k.tree && (call.Truncate? || call.Remove? || call.Mkdir?)
    ensures StepsAsRecorded(k, pid, call)
  {
    hide Normal, Split, Resize, Below, IsMachine, Without;
    if call.path.Some? {
      RootStays(k.tree, call.path.value);
    }
  }

  lemma RecordedStep(k: Machine, pid: nat, call: Call)
    requires IsMachine(k) && Possible(k, pid, call) && "" !in k.tree
    ensures StepsAsRecorded(k, pid, call)
  {
    hide Normal, Split, WriteAt, Resize, Moved, Below, NothingBelow, IsMachine, Cursor, OpenOps, WriteOps, RemoveOps,
      TreeRenamed, HiddenRenamed, TreeWritten, TreeOpened, DescriptionOf;
    if call.Open? {
      OpenStepsAsRecorded(k, pid, call);
    } else if call.Write? || call.PWrite? {
      WriteStepsAsRecorded(k, pid, call);
    } else if call.Rename? {
      RenameStepsAsRecorded(k, pid, call);
    } else if call.Truncate? || call.Remove? || call.Mkdir? {
      NameStepsAsRecorded(k, pid, call);
    }
  }

  /** Each call does to the tree what its ops do, if those can be performed. */
  lemma RecordedGives(initial: Tree, ops: seq<Op>, k: Machine, pid: nat, call: Call)
    requires IsMachine(k) && Possible(k, pid, call) && OpsGive(initial, ops, k.tree) && "" !in k.tree
    requires !Astray(k, pid, call) && !TakesOver(k, pid, call)
    ensures OpsGive(initial, ops + Recorded(k, pid, call), After(k, pid, call).tree)
    ensures "" !in After(k, pid, call).tree
  {
    hide OpsGive, Astray, TakesOver;
    RecordedStep(k, pid, call);
    OneOpGives(initial, ops, Recorded(k, pid, call), k.tree, After(k, pid, call).tree);
  }

  /** A log recorded call by call replays to exactly the tree the calls left, unless unnoticed entries get
      in the way. */
  lemma {:induction false} RecordedLogGives(initial: Tree, ops: seq<Op>, k: Machine, log: seq<Event>)
    requires IsMachine(k) && PossibleLog(k, log) && OpsGive(initial, ops, k.tree) && "" !in k.tree
    requires NeverAstray(k, log) && NeverTakesOver(k, log)
    ensures OpsGive(initial, ops + RecordedBy(k, log), AfterLog(k, log).tree)
    decreases |log|
  {
    hide OpsGive, Recorded, After, Possible, IsMachine, Astray, TakesOver;
    if log == [] {
      assert ops + [] == ops;
    } else {
      var first := Recorded(k, log[0].pid, log[0].call);
      StaysAMachine(k, log[0].pid, log[0].call);
      RecordedGives(initial, ops, k, log[0].pid, log[0].call);
      RecordedLogGives(initial, ops + first, After(k, log[0].pid, log[0].call), log[1..]);
      assert ops + RecordedBy(k, log) == ops + first + RecordedBy(After(k, log[0].pid, log[0].call), log[1..]);
    }
  }

  lemma OneCallRuns(initial: Tree, ops: seq<Op>, k: Machine, pid: nat, call: Call)
    requires IsMachine(k) && Possible(k, pid, call) && OpsRun(initial, ops, k.tree) && "" !in k.tree
    ensures "" !in After(k, pid, call).tree
    ensures !Astray(k, pid, call) ==> OpsRun(initial, ops + Recorded(k, pid, call), After(k, pid, call).tree)
    ensures Astray(k, pid, call) ==> !Replays(initial, ops + Recorded(k, pid, call))
  {
    hide OpsRun, Step, IsNormalOp, Astray, TakesOver, After, Recorded, Possible, IsMachine, SameShape, Replays;
    RecordedStep(k, pid, call);
    var more := Recorded(k, pid, call);
    if more == [] {
      assert ops + more == ops;
    } else {
      assert more == [more[0]];
      if Astray(k, pid, call) {
        FailureShows(initial, ops, more[0], k.tree);
      } else {
        OneMoreRuns(initial, ops, more[0], k.tree, After(k, pid, call).tree);
      }
    }
  }

  /** The ops that a log amounts to can be performed exactly if no call goes astray. */
  lemma {:induction false} RecordedLogRunsIff(initial: Tree, ops: seq<Op>, k: Machine, log: seq<Event>)
    requires IsMachine(k) && PossibleLog(k, log) && OpsRun(initial, ops, k.tree) && "" !in k.tree
    ensures Replays(initial, ops + RecordedBy(k, log)) <==> NeverAstray(k, log)
    ensures NeverAstray(k, log) ==> OpsRun(initial, ops + RecordedBy(k, log), AfterLog(k, log).tree)
    decreases |log|
  {
    hide OpsRun, Recorded, After, Possible, IsMachine, Astray, Replays;
    if log == [] {
      assert ops + [] == ops;
      RunsOrNot(initial, ops, k.tree);
    } else {
      var pid, call := log[0].pid, log[0].call;
      var first := Recorded(k, pid, call);
      StaysAMachine(k, pid, call);
      OneCallRuns(initial, ops, k, pid, call);
      var next := After(k, pid, call);
      assert ops + RecordedBy(k, log) == ops + first + RecordedBy(next, log[1..]);
      if Astray(k, pid, call) {
        RefusedStays(initial, ops + first, RecordedBy(next, log[1..]));
      } else {
        RecordedLogRunsIff(initial, ops + first, next, log[1..]);
      }
    }
  }

  // ------------------------------------------ where the tracker goes wrong

  /** The calls after which what is tracked is no longer what is there: those that unnoticed entries get in
      the way of, a write of no bytes past the end of its file, a rename of a path to itself, switching
      O_APPEND on or off, moving a cursor unnoticed, and giving up a shared table. */
  ghost predicate Misses(k: Machine, pid: nat, call: Call) {
    Astray(k, pid, call) || Confuses(k, pid, call) || TakesOver(k, pid, call) || MissesNoticed(k, pid, call)
  }

  ghost predicate MissesNoticed(k: Machine, pid: nat, call: Call) {
    match call
    case Write(fd, at, data, _, n) =>
      && at.Some? && at.value in k.tree && k.tree[at.value].File? && (n == 0 || data == [])
      && DescriptionOf(k, pid, fd).Some? && DescriptionOf(k, pid, fd).value < |k.open|
      && Cursor(k, DescriptionOf(k, pid, fd).value) > |k.tree[at.value].data|
    case PWrite(_, at, data, _, n, position) =>
      && at.Some? && at.value in k.tree && k.tree[at.value].File? && (n == 0 || data == [])
      && position > |k.tree[at.value].data|
    case Rename(from, to, _) => from.Some? && from == to
    case SetAppend(fd, at, append) =>
      && at.Some? && DescriptionOf(k, pid, fd).Some? && DescriptionOf(k, pid, fd).value < |k.open|
      && k.open[DescriptionOf(k, pid, fd).value].append != append
    case Skips(fd, at, offset) =>
      && at.Some? && DescriptionOf(k, pid, fd).Some? && DescriptionOf(k, pid, fd).value < |k.open|
      && !k.open[DescriptionOf(k, pid, fd).value].append && k.open[DescriptionOf(k, pid, fd).value].offset != offset
    case Unshares => exists q :: q in k.tableOf && pid in k.tableOf && q != pid && k.tableOf[q] == k.tableOf[pid]
    case _ => false
  }

  /** The calls the tracker gives up on: data the log does not have in full, or an offset it cannot read. */
  predicate Unreadable(call: Call) {
    match call
    case Write(_, _, data, cut, n) => cut || |data| < n
    case PWrite(_, at, data, cut, n, position) => cut || |data| < n || (at.Some? && position < 0)
    case _ => false
  }

  ghost predicate NeverMisses(k: Machine, log: seq<Event>)
    requires IsMachine(k) && PossibleLog(k, log)
    decreases |log|
  {
    log == [] ||
    (StaysAMachine(k, log[0].pid, log[0].call);
     !Misses(k, log[0].pid, log[0].call) && NeverMisses(After(k, log[0].pid, log[0].call), log[1..]))
  }

  // ---------------------------------------------------------- single calls

  /** A path that can be opened, and whose directory is noticed if it is to be created. */
  ghost predicate CanOpen(tree: Tree, path: string, creat: bool, trunc: bool) {
    && Normal(path) && (creat ==> ExistsIn(tree, path) || IsDirIn(tree, Split(path).0))
    && (creat || trunc ==> !IsDirIn(tree, path))
  }

  lemma OpenEffect(k: Machine, pid: nat, call: Call)
    requires IsMachine(k) && Possible(k, pid, call) && call.Open?
    ensures After(k, pid, call).tree ==
            TreeOpened(k.tree, call.path, call.creat, call.trunc, Holds(k, call.path, call.trunc))
    ensures call.path.None? ==> After(k, pid, call).tree == k.tree
    ensures call.path.Some? ==> Normal(call.path.value)
    ensures call.path.Some? && !Astray(k, pid, call) ==> CanOpen(k.tree, call.path.value, call.creat, call.trunc)
  {
    hide Normal, Split, Unseen;
  }

  lemma OpenKinds(sizes: map<string, nat>, dirs: set<string>, tree: Tree, rel: string, creat: bool, trunc: bool,
                  holds: seq<Byte>)
    requires Normal(rel)
    ensures IsNormalOp(Op.Create(rel)) && IsNormalOp(Op.Truncate(rel, 0))
    ensures CanOpen(tree, rel, creat, trunc) ==>
              !(creat && !ExistsIn(tree, rel) && !IsDirIn(tree, Split(rel).0))
    ensures NamesAgree(sizes, dirs, tree) && CanOpen(tree, rel, creat, trunc) ==>
              (ComesIn(tree, Some(rel), creat) <==> creat && !(rel in sizes || rel in dirs))
  {
    hide Split;
  }

  /** Opening, by what the tracker knows of the path. */
  lemma OpenWithin(sizes: map<string, nat>, dirs: set<string>, tree: Tree, rel: string, creat: bool, trunc: bool,
                   holds: seq<Byte>)
    requires NamesWithin(sizes, dirs, tree) && CanOpen(tree, rel, creat, trunc)
    ensures var next := TreeOpened(tree, Some(rel), creat, trunc, holds);
            && (creat && !(rel in sizes || rel in dirs) ==>
                  && NamesWithin(sizes[rel := 0], dirs, next) && Step(tree, Op.Create(rel)).Success?
                  && SameShape(Step(tree, Op.Create(rel)).value, next))
            && (trunc && rel in sizes ==>
                  && NamesWithin(sizes[rel := 0], dirs, next) && Step(tree, Op.Truncate(rel, 0)).Success?
                  && SameShape(Step(tree, Op.Truncate(rel, 0)).value, next))
            && ((creat && !(rel in sizes || rel in dirs)) || SameShape(tree, next))
  {
    hide Normal, Split, Resize;
  }

  /** In an unnoticed directory, the tracker takes the file for a new one. */
  lemma OpenAstray(sizes: map<string, nat>, dirs: set<string>, tree: Tree, rel: string)
    requires NamesWithin(sizes, dirs, tree) && !ExistsIn(tree, rel) && !IsDirIn(tree, Split(rel).0)
    ensures !(rel in sizes || rel in dirs) && Step(tree, Op.Create(rel)).Failure?
  {
    hide Split;
    NeedsParent(tree, rel);
  }

  lemma OpenIsRecorded(sizes: map<string, nat>, dirs: set<string>, tree: Tree, rel: string, creat: bool, trunc: bool,
                       holds: seq<Byte>)
    requires NamesAgree(sizes, dirs, tree)
    ensures if creat && !(rel in sizes || rel in dirs) then OpenOps(tree, rel, creat, trunc) == [Op.Create(rel)]
            else if trunc && rel in sizes && sizes[rel] > 0
            then OpenOps(tree, rel, creat, trunc) == [Op.Truncate(rel, 0)]
            else OpenOps(tree, rel, creat, trunc) == []
    ensures CanOpen(tree, rel, creat, trunc) ==>
              var next := TreeOpened(tree, Some(rel), creat, trunc, holds);
              if creat && !(rel in sizes || rel in dirs) then NamesAgree(sizes[rel := 0], dirs, next) <==> holds == []
              else if trunc && rel in sizes && sizes[rel] > 0 then NamesAgree(sizes[rel := 0], dirs, next)
              else NamesAgree(sizes, dirs, next)
  {
    hide NamesAgree, Normal, Split;
    KnownIsThere(sizes, dirs, tree, rel);
    SizeIsLength(sizes, dirs, tree, rel);
    NothingToTruncate(tree, rel);
    if rel != "" && (rel in tree ==> tree[rel].File?) {
      FileIsSet(sizes, dirs, tree, rel, []);
      FileIsSet(sizes, dirs, tree, rel, holds);
      if ComesIn(tree, Some(rel), creat) {
        LengthIsOther(sizes, dirs, tree, rel, holds);
      }
    }
  }

  lemma LengthIsOther(sizes: map<string, nat>, dirs: set<string>, tree: Tree, rel: string, holds: seq<Byte>)
    requires NamesAgree(sizes[rel := |holds|], dirs, tree[rel := File(holds)])
    ensures NamesAgree(sizes[rel := 0], dirs, tree[rel := File(holds)]) <==> holds == []
  {
    var t := tree[rel := File(holds)];
    LengthIsWrong(sizes[rel := |holds|], dirs, t, rel, 0);
    assert sizes[rel := |holds|][rel := 0] == sizes[rel := 0];
  }

  lemma TruncateEffect(sizes: map<string, nat>, dirs: set<string>, k: Machine, pid: nat, path: Option<string>, len: nat)
    requires IsMachine(k) && Possible(k, pid, Call.Truncate(path, len))
    ensures var next := After(k, pid, Call.Truncate(path, len)).tree;
            && (path.None? ==> next == k.tree)
            && (path.Some? ==> IsNormalOp(Op.Truncate(path.value, len)))
            && (path.Some? && path.value in k.tree ==>
                  && k.tree[path.value].File?
                  && next == k.tree[path.value := File(Resize(k.tree[path.value].data, len))]
                  && Step(k.tree, Op.Truncate(path.value, len)) == Success(next)
                  && (NamesWithin(sizes, dirs, k.tree) ==> NamesWithin(sizes[path.value := len], dirs, next)))
            && (path.Some? && path.value !in k.tree ==> Step(k.tree, Op.Truncate(path.value, len)).Failure?)
  {
    hide Normal, Resize, Below;
  }

  lemma WriteEffect(k: Machine, pid: nat, call: Call, sent: seq<Byte>)
    requires IsMachine(k) && Possible(k, pid, call) && call.Write? && call.n <= |call.data|
             && sent == call.data[..call.n]
    ensures DescriptionOf(k, pid, call.fd).Some? && DescriptionOf(k, pid, call.fd).value < |k.open|
    ensures IsFileAt(k, call.at) && SameShape(k.tree, After(k, pid, call).tree) && Sent(call.data, call.n) == sent
    ensures var d := DescriptionOf(k, pid, call.fd).value;
            && k.open[d].at == call.at && After(k, pid, call).tree == TreeWritten(k.tree, call.at, Cursor(k, d), sent)
            && Recorded(k, pid, call) == WriteOps(call.at, call.fd, Cursor(k, d), sent)
            && (Misses(k, pid, call) <==>
                  call.at.Some? && (call.at.value !in k.tree
                                    || (sent == [] && Cursor(k, d) > LengthOf(k.tree, call.at.value))))
    ensures call.at.None? ==> After(k, pid, call).tree == k.tree
  {
    hide WriteAt, Normal, Below;
  }

  lemma PWriteEffect(k: Machine, pid: nat, call: Call, sent: seq<Byte>)
    requires IsMachine(k) && Possible(k, pid, call) && call.PWrite? && call.n <= |call.data|
             && sent == call.data[..call.n]
    ensures IsFileAt(k, call.at) && SameShape(k.tree, After(k, pid, call).tree) && Sent(call.data, call.n) == sent
    ensures call.at.None? ==> After(k, pid, call).tree == k.tree
    ensures call.at.Some? && call.position >= 0 ==>
              After(k, pid, call).tree == TreeWritten(k.tree, call.at, call.position, sent)
    ensures call.at.None? || call.position >= 0 ==>
              Recorded(k, pid, call) ==
              WriteOps(call.at, call.fd, if call.position < 0 then 0 else call.position, sent)
    ensures call.at.None? || call.position >= 0 ==>
              (Misses(k, pid, call) <==>
                 call.at.Some? && (call.at.value !in k.tree
                                   || (sent == [] && call.position > LengthOf(k.tree, call.at.value))))
  {
    hide WriteAt, Normal, Below;
  }
}
