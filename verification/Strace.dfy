/** Turning a system-call log into ops: a tracker of names, lengths and open file
    descriptions that records what the calls amount to. */
module Strace {
  import opened Wrappers
  import opened Trace
  import opened Paths
  import opened Runs
  import opened Bytes
  import opened Reference
  import opened Replay
  import opened Kernel
  import opened Names
  import opened Unnoticed
  import opened Recording
  import opened Placing
  import opened Descriptors

  /** Why a log cannot be used. */
  datatype Complaint = WriteWasCut | ShortCapture | BadOffset

  /** What is said of a write that cannot be used. */
  predicate Complains(call: Call, c: Complaint) {
    (call.Write? || call.PWrite?)
    && c == if call.cut then WriteWasCut else if |call.data| < call.n then ShortCapture else BadOffset
  }

  /** The tracker. */
  class State {
    ghost const initial: Tree
    var ops: seq<Op>
    var ofds: seq<Ofd>
    var tables: seq<map<int, nat>>
    var tableOf: map<nat, nat>
    var sizes: map<string, nat>
    var dirs: set<string>
    // What is being tracked, and which of its descriptions each of ours stands for.
    ghost var kernel: Machine
    ghost var link: map<nat, nat>

    ghost function View(): Fds
      reads this
    {
      Fds(ofds, tables, tableOf)
    }

    /** What no call can spoil. */
    ghost predicate Sane()
      reads this
    {
      AreFds(View()) && IsMachine(kernel) && IsNormalTrace(Trace(initial, ops))
    }

    /** The recorded ops can be performed and give the right names, and nothing is tracked that is not
        there. */
    ghost predicate Clean()
      reads this
    {
      Sane() && NamesWithin(sizes, dirs, kernel.tree) && OpsRun(initial, ops, kernel.tree)
    }

    /** Names, lengths, descriptors and offsets are the real ones. */
    ghost predicate Valid()
      reads this
    {
      Clean() && FdsAgree(View(), link, kernel) && NamesAgree(sizes, dirs, kernel.tree)
    }

    /** What a call does to a tracker that followed `k` and had recorded `before`. Unless unnoticed entries
        get in the way, the ops still can be performed and give the right names; if they do, the trace will
        be refused. While everything tracked is right, exactly the ops that the call amounts to are
        recorded; and it stays right exactly if the call is not one of those that are missed. */
    ghost predicate Followed(k: Machine, pid: nat, call: Call, before: seq<Op>, clean: bool, valid: bool)
      requires IsMachine(k) && Possible(k, pid, call)
      reads this
    {
      && Sane() && kernel == After(k, pid, call) && before <= ops
      && (clean && !Astray(k, pid, call) && !Confuses(k, pid, call) ==> Clean())
      && (clean && Astray(k, pid, call) ==> !Replays(initial, ops))
      && (valid ==> ops == before + Recorded(k, pid, call) && (Valid() <==> !Misses(k, pid, call)))
    }

    constructor (tree: Tree, ghost k: Machine)
      requires WellFormed(tree) && StartsAfresh(k, tree)
      ensures Valid() && kernel == k && initial == tree && ops == []
    {
      hide WellFormed, IsNormalOp, SameShape;
      SameShapeAsItself(tree);
      initial, ops, ofds, tables, tableOf := tree, [], [], [], map[];
      sizes := map p | p in tree && tree[p].File? :: |tree[p].data|;
      dirs := {""} + set p | p in tree && tree[p].Dir?;
      kernel, link := k, map[];
      new;
      assert TreeAfter(Trace(initial, ops), 0) == Success(tree);
      NoEmptyName(tree);
    }

    /** Every op goes on record through this. */
    method Emit(op: Op, ghost next: Tree)
      requires IsNormalTrace(Trace(initial, ops)) && IsNormalOp(op)
      modifies this`ops
      ensures ops == old(ops) + [op] && IsNormalTrace(Trace(initial, ops))
      ensures old(OpsRun(initial, ops, kernel.tree)) ==>
                if Step(kernel.tree, op).Failure? then !Replays(initial, ops)
                else SameShape(Step(kernel.tree, op).value, next) ==> OpsRun(initial, ops, next)
    {
      hide OpsRun, Step, SameShape, IsNormalTrace, IsNormalOp, Replays;
      NormalGrows(initial, ops, op);
      if OpsRun(initial, ops, kernel.tree) {
        if Step(kernel.tree, op).Failure? {
          FailureShows(initial, ops, op, kernel.tree);
        } else if SameShape(Step(kernel.tree, op).value, next) {
          OneMoreRuns(initial, ops, op, kernel.tree, next);
        }
      }
      ops := ops + [op];
    }

    // ------------------------------------------------------------ descriptors

    /** The table of a process, made on first use. */
    method Table(pid: nat) returns (t: nat)
      requires AreFds(View())
      modifies this`tables, this`tableOf
      ensures AreFds(View()) && pid in tableOf && t == tableOf[pid] < |tables|
      ensures View() == WithTable(old(View()), pid)
    {
      if pid in tableOf {
        return tableOf[pid];
      }
      tables := tables + [map[]];
      tableOf := tableOf[pid := |tables| - 1];
      t := |tables| - 1;
    }

    /** The description behind a descriptor; one never seen open is a new one, taken to stand at the end
        of its file. */
    method Description(pid: nat, fd: int, rel: string) returns (o: nat)
      requires AreFds(View())
      modifies this`tables, this`tableOf, this`ofds
      ensures AreFds(View()) && o < |ofds| && OfdOf(View(), pid, fd) == Some(o)
      ensures OfdOf(old(View()), pid, fd).Some? ==> View() == old(View()) && Some(o) == OfdOf(old(View()), pid, fd)
      ensures OfdOf(old(View()), pid, fd).None? ==>
                && View() == EnterNew(WithTable(old(View()), pid), pid, fd,
                                      Ofd(if rel in sizes then sizes[rel] else 0, false))
                && o == |old(ofds)|
    {
      var t := Table(pid);
      if fd in tables[t] {
        return tables[t][fd];
      }
      var offset := if rel in sizes then sizes[rel] else 0;
      ofds := ofds + [Ofd(offset, false)];
      o := |ofds| - 1;
      var table: map<int, nat> := tables[t][fd := o];
      tables := tables[t := table];
    }

    // ------------------------------------------------------------------- open

    method OpenNames(rel: string, creat: bool, trunc: bool, ghost holds: seq<Byte>)
      requires IsNormalTrace(Trace(initial, ops)) && Normal(rel)
      modifies this`ops, this`sizes
      ensures IsNormalTrace(Trace(initial, ops)) && old(ops) <= ops
      ensures old(NamesWithin(sizes, dirs, kernel.tree) && OpsRun(initial, ops, kernel.tree)) ==>
                var next := TreeOpened(kernel.tree, Some(rel), creat, trunc, holds);
                if CanOpen(kernel.tree, rel, creat, trunc)
                then NamesWithin(sizes, dirs, next) && OpsRun(initial, ops, next)
                else creat && !ExistsIn(kernel.tree, rel) && !IsDirIn(kernel.tree, Split(rel).0) ==>
                       !Replays(initial, ops)
      ensures old(NamesAgree(sizes, dirs, kernel.tree)) ==>
                && ops == old(ops) + OpenOps(kernel.tree, rel, creat, trunc)
                && (CanOpen(kernel.tree, rel, creat, trunc) ==>
                      (NamesAgree(sizes, dirs, TreeOpened(kernel.tree, Some(rel), creat, trunc, holds)) <==>
                         holds == [] || !ComesIn(kernel.tree, Some(rel), creat)))
    {
      hide OpsRun, NamesWithin, NamesAgree, CanOpen, TreeOpened, OpenOps, SameShape, Step, IsNormalTrace, Replays,
        Split, ComesIn;
      ghost var next := TreeOpened(kernel.tree, Some(rel), creat, trunc, holds);
      ghost var can, clean := CanOpen(kernel.tree, rel, creat, trunc),
        NamesWithin(sizes, dirs, kernel.tree) && OpsRun(initial, ops, kernel.tree);
      OpenKinds(sizes, dirs, kernel.tree, rel, creat, trunc, holds);
      if clean && can {
        OpenWithin(sizes, dirs, kernel.tree, rel, creat, trunc, holds);
      }
      if clean && creat && !ExistsIn(kernel.tree, rel) && !IsDirIn(kernel.tree, Split(rel).0) {
        OpenAstray(sizes, dirs, kernel.tree, rel);
      }
      if NamesAgree(sizes, dirs, kernel.tree) {
        OpenIsRecorded(sizes, dirs, kernel.tree, rel, creat, trunc, holds);
      }
      assert ops + [] == ops;
      if creat && !(rel in sizes || rel in dirs) {
        Emit(Op.Create(rel), next);
        sizes := sizes[rel := 0];
      } else if trunc && rel in sizes && sizes[rel] > 0 {
        Emit(Op.Truncate(rel, 0), next);
        sizes := sizes[rel := 0];
      } else if clean && can {
        OnlyShapeMatters(sizes, dirs, initial, ops, kernel.tree, next);
      }
    }

    method OpenFd(pid: nat, fd: int, append: bool)
      requires AreFds(View())
      modifies this`tables, this`tableOf, this`ofds
      ensures AreFds(View()) && View() == EnterNew(WithTable(old(View()), pid), pid, fd, Ofd(0, append))
    {
      var t := Table(pid);
      ofds := ofds + [Ofd(0, append)];
      var table: map<int, nat> := tables[t][fd := |ofds| - 1];
      tables := tables[t := table];
    }

    method OpenCall(pid: nat, fd: int, path: Option<string>, creat: bool, trunc: bool, append: bool)
      requires Sane() && Possible(kernel, pid, Call.Open(fd, path, creat, trunc, append))
      modifies this
      ensures Followed(old(kernel), pid, Call.Open(fd, path, creat, trunc, append), old(ops), old(Clean()),
                       old(Valid()))
    {
      hide OpsRun, NamesWithin, NamesAgree, FdsAgree, Possible, TreeOpened, IsMachine, AreFds, EnterNew, WithTable,
        After, OpenOps, CanOpen, Replays, IsNormalTrace, Split, Holds;
      ghost var k, f, ok, call := kernel, View(), Valid(), Call.Open(fd, path, creat, trunc, append);
      StaysAMachine(k, pid, call);
      OpenEffect(k, pid, call);
      if ok {
        OpenAgrees(f, link, k, pid, fd, path, creat, trunc, append);
        link := if path.Some? then link[|k.open| := |ofds|] else link;
      }
      if path.None? {
        kernel := After(k, pid, call);
        assert ops == ops + [];
        return;
      }
      OpenKinds(sizes, dirs, k.tree, path.value, creat, trunc, Holds(k, path, trunc));
      OpenNames(path.value, creat, trunc, Holds(k, path, trunc));
      OpenFd(pid, fd, append);
      kernel := After(k, pid, call);
      RunsOrNot(initial, ops, kernel.tree);
    }

    // ------------------------------------------------------------------ writes

    /** The end of every kind of write: the length grows to cover it, and unless it is empty it is
        recorded. Lengths stay right exactly if it was not an empty write past the end. */
    method Record(rel: string, offset: nat, data: seq<Byte>)
      requires IsNormalTrace(Trace(initial, ops)) && Normal(rel) && rel != ""
      requires rel in kernel.tree ==> kernel.tree[rel].File?
      modifies this`ops, this`sizes
      ensures IsNormalTrace(Trace(initial, ops))
      ensures ops == old(ops) + (if data == [] then [] else [Op.Write(rel, offset, data)])
      ensures old(NamesWithin(sizes, dirs, kernel.tree) && OpsRun(initial, ops, kernel.tree)) ==>
                if rel in kernel.tree then NamesWithin(sizes, dirs, kernel.tree) && OpsRun(initial, ops, kernel.tree)
                else data != [] ==> !Replays(initial, ops)
      ensures old(NamesAgree(sizes, dirs, kernel.tree)) ==>
                (NamesAgree(sizes, dirs, TreeWritten(kernel.tree, Some(rel), offset, data)) <==>
                   rel in kernel.tree && !(data == [] && offset > LengthOf(kernel.tree, rel)))
    {
      hide OpsRun, NamesWithin, NamesAgree, Normal, WriteAt, SameShape, Step, IsNormalTrace, Replays, WellFormed;
      ghost var ok := NamesAgree(sizes, dirs, kernel.tree);
      ghost var clean := NamesWithin(sizes, dirs, kernel.tree) && OpsRun(initial, ops, kernel.tree);
      var size := if rel in sizes then sizes[rel] else 0;
      var end := offset + |data|;
      if rel in kernel.tree {
        WriteStep(kernel.tree, rel, offset, data);
        if clean {
          FileStaysWithin(sizes, dirs, kernel.tree, rel, Max(size, end));
        }
        if ok {
          SizeIsLength(sizes, dirs, kernel.tree, rel);
          if data != [] {
            FileIsSet(sizes, dirs, kernel.tree, rel, WriteAt(kernel.tree[rel].data, offset, data));
          } else {
            LengthIsWrong(sizes, dirs, kernel.tree, rel, Max(size, end));
          }
        }
      } else {
        NeedsEntry(kernel.tree, rel, offset, data, 0, "");
        NotThere(sizes[rel := Max(size, end)], dirs, kernel.tree, rel);
      }
      sizes := sizes[rel := if size < end then end else size];
      if |data| > 0 {
        Emit(Op.Write(rel, offset, data), kernel.tree);
      }
    }

    /** What is written to descriptor 1 outside the root. */
    method Acknowledge(data: seq<Byte>)
      requires IsNormalTrace(Trace(initial, ops))
      modifies this`ops
      ensures IsNormalTrace(Trace(initial, ops)) && ops == old(ops) + [Op.Mark(Text(data))]
      ensures old(OpsRun(initial, ops, kernel.tree)) ==> OpsRun(initial, ops, kernel.tree)
    {
      hide OpsRun, IsNormalTrace, SameShape;
      SameShapeAsItself(kernel.tree);
      Emit(Op.Mark(Text(data)), kernel.tree);
    }

    /** Where a write of `n` bytes starts; the cursor moves past it, as the real one does. */
    method TakeOffset(pid: nat, fd: int, rel: string, sent: seq<Byte>, ghost call: Call) returns (start: nat)
      requires AreFds(View()) && IsMachine(kernel) && Possible(kernel, pid, call)
      requires call.Write? && call.fd == fd && call.at == Some(rel)
      requires call.n <= |call.data| && sent == call.data[..call.n]
      modifies this`tables, this`tableOf, this`ofds
      ensures AreFds(View())
      ensures DescriptionOf(kernel, pid, fd).Some? && DescriptionOf(kernel, pid, fd).value < |kernel.open|
      ensures old(FdsAgree(View(), link, kernel)) && NamesAgree(sizes, dirs, kernel.tree) ==>
                && start == Cursor(kernel, DescriptionOf(kernel, pid, fd).value)
                && FdsAgree(View(), link, After(kernel, pid, call))
    {
      hide NamesAgree, FdsAgree, Possible, IsMachine, AreFds, After, TreeWritten, Cursor, Misses, SameShape, IsFileAt,
        Recorded, LengthOf, EnterNew, WithTable;
      ghost var ok := FdsAgree(View(), link, kernel) && NamesAgree(sizes, dirs, kernel.tree);
      WriteEffect(kernel, pid, call, sent);
      ghost var d := DescriptionOf(kernel, pid, fd).value;
      if ok {
        CursorIsKnown(View(), link, kernel, pid, fd, d, rel);
        LengthIsTracked(sizes, dirs, kernel.tree, rel);
      }
      var o := Description(pid, fd, rel);
      var size := if rel in sizes then sizes[rel] else 0;
      start := if ofds[o].append then size else ofds[o].offset;
      if ok {
        CursorIsHere(View(), link, kernel, d, rel, start);
        WriteAgrees(View(), link, kernel, pid, call, sent, d);
      }
      OffsetIsFree(View(), o, start + |sent|);
      ofds := ofds[o := ofds[o].(offset := start + |sent|)];
    }

    /** A write through a descriptor of a file under the root. */
    method WriteInside(pid: nat, fd: int, rel: string, sent: seq<Byte>, ghost call: Call)
      requires Sane() && Possible(kernel, pid, call) && call.Write? && call.fd == fd && call.at == Some(rel)
      requires call.n <= |call.data| && sent == call.data[..call.n]
      modifies this
      ensures Followed(old(kernel), pid, call, old(ops), old(Clean()), old(Valid()))
    {
      hide OpsRun, NamesWithin, NamesAgree, FdsAgree, Possible, IsMachine, AreFds, After, TreeWritten, Cursor, Misses,
        SameShape, IsFileAt, Recorded, Replays, IsNormalTrace, LengthOf, DescriptionOf;
      ghost var k, clean := kernel, Clean();
      StaysAMachine(k, pid, call);
      WriteEffect(k, pid, call, sent);
      FileIsKnown(k, call.at);
      var start := TakeOffset(pid, fd, rel, sent, call);
      Record(rel, start, sent);
      if clean && rel in k.tree {
        OnlyShapeMatters(sizes, dirs, initial, ops, k.tree, After(k, pid, call).tree);
      }
      kernel := After(k, pid, call);
      assert ops == old(ops) + WriteOps(Some(rel), fd, start, sent);
      RunsOrNot(initial, ops, kernel.tree);
    }

    /** A write elsewhere: to descriptor 1, it acknowledges something. */
    method WriteOutside(pid: nat, fd: int, sent: seq<Byte>, ghost call: Call)
      requires Sane() && Possible(kernel, pid, call) && call.Write? && call.fd == fd && call.at.None?
      requires call.n <= |call.data| && sent == call.data[..call.n]
      modifies this
      ensures Followed(old(kernel), pid, call, old(ops), old(Clean()), old(Valid()))
    {
      hide OpsRun, NamesWithin, NamesAgree, FdsAgree, Possible, IsMachine, AreFds, After, TreeWritten, Cursor,
        SameShape, IsFileAt, Recorded, Misses, IsNormalTrace;
      ghost var k, ok := kernel, Valid();
      StaysAMachine(k, pid, call);
      WriteEffect(k, pid, call, sent);
      if ok {
        WriteOutsideAgrees(View(), link, k, pid, call, sent);
      }
      if fd == 1 {
        Acknowledge(sent);
      }
      kernel := After(k, pid, call);
      assert ops == old(ops) + WriteOps(None, fd, 0, sent);
    }

    method WriteCall(pid: nat, fd: int, at: Option<string>, data: seq<Byte>, cut: bool, n: nat)
      returns (r: Option<Complaint>)
      requires Sane() && Possible(kernel, pid, Call.Write(fd, at, data, cut, n))
      modifies this
      ensures r.Some? <==> Unreadable(Call.Write(fd, at, data, cut, n))
      ensures r.Some? ==> r.value == if cut then WriteWasCut else ShortCapture
      ensures r.None? ==>
                Followed(old(kernel), pid, Call.Write(fd, at, data, cut, n), old(ops), old(Clean()), old(Valid()))
    {
      hide OpsRun, NamesWithin, NamesAgree, FdsAgree, Possible, IsMachine, AreFds, After, Cursor, Recorded;
      if cut {
        return Some(WriteWasCut);
      }
      if |data| < n {
        return Some(ShortCapture);
      }
      r := None;
      if at.None? {
        WriteOutside(pid, fd, data[..n], Call.Write(fd, at, data, cut, n));
      } else {
        WriteInside(pid, fd, at.value, data[..n], Call.Write(fd, at, data, cut, n));
      }
    }

    method PWriteCall(pid: nat, fd: int, at: Option<string>, data: seq<Byte>, cut: bool, n: nat, position: int)
      returns (r: Option<Complaint>)
      requires Sane() && Possible(kernel, pid, Call.PWrite(fd, at, data, cut, n, position))
      modifies this
      ensures r.Some? <==> Unreadable(Call.PWrite(fd, at, data, cut, n, position))
      ensures r.Some? ==> r.value == if cut then WriteWasCut else if |data| < n then ShortCapture else BadOffset
      ensures r.None? ==>
                Followed(old(kernel), pid, Call.PWrite(fd, at, data, cut, n, position), old(ops), old(Clean()),
                         old(Valid()))
    {
      hide OpsRun, NamesWithin, NamesAgree, FdsAgree, Possible, IsMachine, AreFds, After, TreeWritten, SameShape,
        IsFileAt, Recorded, Misses, Replays, IsNormalTrace, LengthOf;
      ghost var k, clean, ok, call := kernel, Clean(), Valid(), Call.PWrite(fd, at, data, cut, n, position);
      if cut {
        return Some(WriteWasCut);
      }
      if |data| < n {
        return Some(ShortCapture);
      }
      var sent := data[..n];
      StaysAMachine(k, pid, call);
      PWriteEffect(k, pid, call, sent);
      FileIsKnown(k, at);
      if ok {
        PWriteAgrees(View(), link, k, pid, call);
      }
      r := None;
      if at.None? {
        if fd == 1 {
          Acknowledge(sent);
        }
      } else if position < 0 {
        return Some(BadOffset);
      } else {
        Record(at.value, position, sent);
      }
      if clean && (at.Some? ==> at.value in k.tree) {
        OnlyShapeMatters(sizes, dirs, initial, ops, k.tree, After(k, pid, call).tree);
      }
      kernel := After(k, pid, call);
      assert ops == old(ops) + WriteOps(at, fd, if position < 0 then 0 else position, sent);
      RunsOrNot(initial, ops, kernel.tree);
    }

    // ----------------------------------------------------------- descriptors again

    /** Reads and seeks: the cursor follows the real one. */
    method MoveTo(pid: nat, fd: int, rel: string, offset: nat, relative: bool)
      requires AreFds(View())
      modifies this`tables, this`tableOf, this`ofds
      ensures AreFds(View())
      ensures OfdOf(old(View()), pid, fd).Some? ==>
                var f, o := old(View()), OfdOf(old(View()), pid, fd).value;
                o < |f.ofds| && View() == f.(ofds := f.ofds[o := f.ofds[o].(offset :=
                                                 if relative then f.ofds[o].offset + offset else offset)])
    {
      var o := Description(pid, fd, rel);
      ofds := ofds[o := ofds[o].(offset := if relative then ofds[o].offset + offset else offset)];
    }

    method ReadCall(pid: nat, fd: int, at: Option<string>, n: nat)
      requires Sane() && Possible(kernel, pid, Call.Read(fd, at, n))
      modifies this
      ensures Sane() && kernel == After(old(kernel), pid, Call.Read(fd, at, n)) && ops == old(ops)
      ensures (old(Clean()) ==> Clean()) && (old(Valid()) ==> Valid())
    {
      hide OpsRun, NamesWithin, NamesAgree, FdsAgree, IsMachine, AreFds;
      ghost var k, ok := kernel, Valid();
      ghost var d := DescriptionOf(k, pid, fd).value;
      StaysAMachine(k, pid, Call.Read(fd, at, n));
      if ok && at.Some? {
        CursorIsKnown(View(), link, k, pid, fd, d, at.value);
        MoveAgrees(View(), link, k, d, k.open[d].offset + n, ofds[link[d]].offset + n);
      } else if ok {
        MoveOutsideAgrees(View(), link, k, d, k.open[d].offset + n);
      }
      if at.Some? {
        MoveTo(pid, fd, at.value, n, true);
      }
      kernel := After(k, pid, Call.Read(fd, at, n));
    }

    method SeekCall(pid: nat, fd: int, at: Option<string>, offset: nat)
      requires Sane() && Possible(kernel, pid, Call.Seek(fd, at, offset))
      modifies this
      ensures Sane() && kernel == After(old(kernel), pid, Call.Seek(fd, at, offset)) && ops == old(ops)
      ensures (old(Clean()) ==> Clean()) && (old(Valid()) ==> Valid())
    {
      hide OpsRun, NamesWithin, NamesAgree, FdsAgree, IsMachine, AreFds;
      ghost var k, ok := kernel, Valid();
      ghost var d := DescriptionOf(k, pid, fd).value;
      StaysAMachine(k, pid, Call.Seek(fd, at, offset));
      if ok && at.Some? {
        CursorIsKnown(View(), link, k, pid, fd, d, at.value);
        MoveAgrees(View(), link, k, d, offset, offset);
      } else if ok {
        MoveOutsideAgrees(View(), link, k, d, offset);
      }
      if at.Some? {
        MoveTo(pid, fd, at.value, offset, false);
      }
      kernel := After(k, pid, Call.Seek(fd, at, offset));
    }

    method CloseCall(pid: nat, fd: int)
      requires Sane() && Possible(kernel, pid, Call.Close(fd))
      modifies this
      ensures Sane() && kernel == After(old(kernel), pid, Call.Close(fd)) && ops == old(ops)
      ensures (old(Clean()) ==> Clean()) && (old(Valid()) ==> Valid())
    {
      hide OpsRun, NamesWithin, NamesAgree, FdsAgree, IsMachine;
      ghost var k, ok := kernel, Valid();
      StaysAMachine(k, pid, Call.Close(fd));
      if ok {
        TableAgrees(View(), link, k, pid);
      }
      var t := Table(pid);
      if ok {
        DropAgrees(View(), link, k, pid, fd);
      }
      tables := tables[t := tables[t] - {fd}];
      kernel := After(k, pid, Call.Close(fd));
    }

    method DupCall(pid: nat, fd: int, copy: int)
      requires Sane() && Possible(kernel, pid, Call.Dup(fd, copy))
      modifies this
      ensures Sane() && kernel == After(old(kernel), pid, Call.Dup(fd, copy)) && ops == old(ops)
      ensures (old(Clean()) ==> Clean()) && (old(Valid()) ==> Valid())
    {
      hide OpsRun, NamesWithin, NamesAgree, FdsAgree, IsMachine, SetEntry;
      ghost var k, ok := kernel, Valid();
      StaysAMachine(k, pid, Call.Dup(fd, copy));
      PossiblePid(k, pid, Call.Dup(fd, copy));
      EntryKeepsTree(k, pid, copy, DescriptionOf(k, pid, fd).value);
      if ok {
        TableAgrees(View(), link, k, pid);
      }
      var t := Table(pid);
      if ok {
        DupAgrees(View(), link, k, pid, fd, copy);
      }
      if fd in tables[t] {
        var table: map<int, nat> := tables[t][copy := tables[t][fd]];
        tables := tables[t := table];
      }
      kernel := After(k, pid, Call.Dup(fd, copy));
    }

    /** The child's table: its parent's own, or a copy. */
    method Fork(pid: nat, child: nat, shared: bool)
      requires AreFds(View()) && child != pid
      modifies this`tables, this`tableOf
      ensures AreFds(View())
      ensures child !in old(tableOf) ==>
                var f := WithTable(old(View()), pid);
                pid in f.tableOf && f.tableOf[pid] < |f.tables| && View() == Forked(f, pid, child, shared)
    {
      var parent := Table(pid);
      ghost var f := View();
      if shared && child !in tableOf {
        tableOf := tableOf[child := parent];
      } else {
        // The child may already have been seen, and opened things of its own.
        var copy := tables[parent];
        var t := Table(child);
        assert copy + map[] == copy;
        tables := tables[t := copy + tables[t]];
        assert child !in old(tableOf) ==> tables == f.tables + [f.tables[parent]];
      }
    }

    method CloneCall(pid: nat, child: nat, shared: bool)
      requires Sane() && Possible(kernel, pid, Call.Clone(child, shared))
      modifies this
      ensures Sane() && kernel == After(old(kernel), pid, Call.Clone(child, shared)) && ops == old(ops)
      ensures (old(Clean()) ==> Clean()) && (old(Valid()) ==> Valid())
    {
      hide OpsRun, NamesWithin, NamesAgree, FdsAgree, IsMachine, Cloned, AreFds, Forked, WithTable;
      ghost var k, ok, f := kernel, Valid(), WithTable(View(), pid);
      StaysAMachine(k, pid, Call.Clone(child, shared));
      PossiblePid(k, pid, Call.Clone(child, shared));
      if ok {
        TableAgrees(View(), link, k, pid);
        NotSeenYet(View(), link, k, child);
      }
      if child != 0 {
        ClonedTree(k, pid, child, shared);
        if ok {
          CloneAgrees(f, link, k, pid, child, shared);
        }
        Fork(pid, child, shared);
      }
      kernel := After(k, pid, Call.Clone(child, shared));
    }

    /** Calls the tracker does not look at. */
    method OtherCall(pid: nat, call: Call)
      requires Sane() && Possible(kernel, pid, call) && IsOther(call)
      modifies this
      ensures Followed(old(kernel), pid, call, old(ops), old(Clean()), old(Valid())) && ops == old(ops)
    {
      hide OpsRun, NamesWithin, NamesAgree, FdsAgree, IsMachine, Possible, After, Misses, Astray, Confuses, Recorded,
        IsNormalTrace;
      ghost var k, ok := kernel, Valid();
      StaysAMachine(k, pid, call);
      OtherKeepsTree(k, pid, call);
      if ok {
        OtherAgrees(View(), link, k, pid, call);
      }
      kernel := After(k, pid, call);
      assert ops + [] == ops;
    }

    // ------------------------------------------------------------------- names

    method TruncateCall(pid: nat, path: Option<string>, len: nat)
      requires Sane() && Possible(kernel, pid, Call.Truncate(path, len))
      modifies this
      ensures Followed(old(kernel), pid, Call.Truncate(path, len), old(ops), old(Clean()), old(Valid()))
    {
      hide OpsRun, NamesWithin, NamesAgree, FdsAgree, Normal, Resize, IsMachine, SameShape, Replays, IsNormalTrace,
        Unseen, Step;
      ghost var next, ok := After(kernel, pid, Call.Truncate(path, len)), Valid();
      StaysAMachine(kernel, pid, Call.Truncate(path, len));
      TruncateEffect(sizes, dirs, kernel, pid, path, len);
      SameShapeAsItself(next.tree);
      if ok {
        EntriesDoNotMatter(View(), link, kernel, next.tree, next.hidden);
      }
      assert ops + [] == ops;
      if path.Some? {
        if ok && path.value in kernel.tree {
          FileIsSet(sizes, dirs, kernel.tree, path.value, Resize(kernel.tree[path.value].data, len));
        }
        Emit(Op.Truncate(path.value, len), next.tree);
        sizes := sizes[path.value := len];
      }
      kernel := next;
      RunsOrNot(initial, ops, kernel.tree);
    }

    method SyncCall(pid: nat, call: Call)
      requires Sane() && Possible(kernel, pid, call) && (call.Fsync? || call.Sync?)
      modifies this
      ensures Followed(old(kernel), pid, call, old(ops), old(Clean()), old(Valid()))
      ensures ops == old(ops) + Recorded(old(kernel), pid, call)
    {
      hide OpsRun, NamesWithin, NamesAgree, FdsAgree, Normal, IsMachine, SameShape, Replays, IsNormalTrace, Unseen;
      SameShapeAsItself(kernel.tree);
      var op := if call.Fsync? && call.at.Some? then Op.Fsync(call.at.value) else Op.Sync;
      assert ops + [] == ops;
      if call.Sync? || call.at.Some? {
        Emit(op, kernel.tree);
      }
      RunsOrNot(initial, ops, kernel.tree);
    }

    method MkdirCall(pid: nat, path: Option<string>)
      requires Sane() && Possible(kernel, pid, Call.Mkdir(path))
      modifies this
      ensures Followed(old(kernel), pid, Call.Mkdir(path), old(ops), old(Clean()), old(Valid()))
    {
      hide OpsRun, NamesWithin, NamesAgree, FdsAgree, Normal, Split, IsMachine, SameShape, Replays, IsNormalTrace,
        Unseen;
      ghost var next, clean, ok := After(kernel, pid, Call.Mkdir(path)), Clean(), Valid();
      StaysAMachine(kernel, pid, Call.Mkdir(path));
      SameShapeAsItself(next.tree);
      if ok {
        EntriesDoNotMatter(View(), link, kernel, next.tree, next.hidden);
      }
      assert ops + [] == ops;
      if path.Some? {
        if clean {
          DirStaysWithin(sizes, dirs, kernel.tree, path.value);
        }
        if ok {
          DirIsMade(sizes, dirs, kernel.tree, path.value);
        }
        Emit(Op.Mkdir(path.value), next.tree);
        dirs := dirs + {path.value};
      }
      kernel := next;
      RunsOrNot(initial, ops, kernel.tree);
    }

    /** Forget `rel` and everything below it. */
    method Remove(rel: string)
      requires IsNormalTrace(Trace(initial, ops)) && Normal(rel) && rel != ""
      modifies this`sizes, this`dirs, this`ops
      ensures IsNormalTrace(Trace(initial, ops)) && old(ops) <= ops
      ensures old(NamesWithin(sizes, dirs, kernel.tree) && OpsRun(initial, ops, kernel.tree)) ==>
                if rel in kernel.tree
                then NamesWithin(sizes, dirs, Without(kernel.tree, rel))
                     && OpsRun(initial, ops, Without(kernel.tree, rel))
                else !Replays(initial, ops)
      ensures old(NamesAgree(sizes, dirs, kernel.tree)) ==>
                NamesAgree(sizes, dirs, Without(kernel.tree, rel)) && ops == old(ops) + RemoveOps(kernel.tree, rel)
    {
      hide OpsRun, NamesWithin, NamesAgree, Normal, Below, Without, SameShape, IsNormalTrace, Replays;
      var op := if rel in dirs then Op.Rmdir(rel) else Op.Unlink(rel);
      if NamesWithin(sizes, dirs, kernel.tree) {
        EntriesGoWithin(sizes, dirs, kernel.tree, rel);
      }
      if NamesAgree(sizes, dirs, kernel.tree) {
        EntriesGo(sizes, dirs, kernel.tree, rel);
        SizeIsLength(sizes, dirs, kernel.tree, rel);
      }
      SameShapeAsItself(Without(kernel.tree, rel));
      Emit(op, Without(kernel.tree, rel));
      sizes := map p | p in sizes && !Below(rel, p) :: sizes[p];
      dirs := set p | p in dirs && !Below(rel, p);
    }

    method RemoveCall(pid: nat, path: Option<string>)
      requires Sane() && Possible(kernel, pid, Call.Remove(path))
      modifies this
      ensures Followed(old(kernel), pid, Call.Remove(path), old(ops), old(Clean()), old(Valid()))
    {
      hide OpsRun, NamesWithin, NamesAgree, FdsAgree, Normal, Without, IsMachine, Relocated, RemoveOps, Unseen, Replays,
        IsNormalTrace;
      ghost var next, ok := After(kernel, pid, Call.Remove(path)), Valid();
      StaysAMachine(kernel, pid, Call.Remove(path));
      assert ops + [] == ops;
      if path.Some? {
        if ok {
          RemovalAgrees(View(), link, kernel, path.value);
        }
        Remove(path.value);
      }
      kernel := next;
      RunsOrNot(initial, ops, kernel.tree);
    }

    method MoveTree(from: string, to: string)
      requires from == to || Apart(from, to)
      modifies this`sizes, this`dirs
      ensures from in kernel.tree && from != "" && to != "" && (from == to || NothingBelow(kernel.tree, to))
              && old(NamesWithin(sizes, dirs, kernel.tree)) ==>
                NamesWithin(sizes, dirs, if from == to then kernel.tree else Moved(kernel.tree, from, to))
      ensures from in kernel.tree && from != "" && to != "" && NothingBelow(kernel.tree, to)
              && old(NamesAgree(sizes, dirs, kernel.tree)) && from != to ==>
                NamesAgree(sizes, dirs, Moved(kernel.tree, from, to))
      ensures from == to && from in kernel.tree && from != "" ==> !NamesAgree(sizes, dirs, kernel.tree)
    {
      hide NamesAgree, NamesWithin, Moved, IsHeld, NothingBelow, Normal, Below;
      var known := map d | d in dirs :: true;
      assert known.Keys == dirs;
      var sizes' := MoveKeys(sizes, from, to);
      var known' := MoveKeys(known, from, to);
      if from in kernel.tree && from != "" && to != "" {
        if from == to {
          MovedOntoItself(sizes', known'.Keys, kernel.tree, from);
          if NamesWithin(sizes, dirs, kernel.tree) {
            FewerStayWithin(sizes, dirs, kernel.tree, sizes', known'.Keys);
          }
        } else if NothingBelow(kernel.tree, to) {
          if NamesWithin(sizes, dirs, kernel.tree) {
            TreeMovesWithin(sizes, known, kernel.tree, from, to, sizes', known');
          }
          if NamesAgree(sizes, dirs, kernel.tree) {
            TreeMoves(sizes, known, kernel.tree, from, to, sizes', known');
          }
        }
      }
      sizes := sizes';
      dirs := known'.Keys;
    }

    /** Both names are under the root. */
    method RenameInside(pid: nat, from: string, to: string)
      requires Sane() && Possible(kernel, pid, Call.Rename(Some(from), Some(to), None))
      modifies this
      ensures Followed(old(kernel), pid, Call.Rename(Some(from), Some(to), None), old(ops), old(Clean()), old(Valid()))
    {
      hide OpsRun, NamesWithin, NamesAgree, FdsAgree, Normal, Without, IsMachine, Relocated, Moved, NothingBelow, Below,
        Split, RemoveOps, SameShape, Step, Unseen, HiddenRenamed, Replays, IsNormalTrace, Apart;
      ghost var next, ok := After(kernel, pid, Call.Rename(Some(from), Some(to), None)), Valid();
      StaysAMachine(kernel, pid, Call.Rename(Some(from), Some(to), None));
      SameShapeAsItself(next.tree);
      RenameSteps(kernel, pid, from, to);
      if ok {
        MovedAgrees(View(), link, kernel, from, to);
      }
      MoveTree(from, to);
      Emit(Op.Rename(from, to), next.tree);
      kernel := next;
      RunsOrNot(initial, ops, kernel.tree);
    }

    method RenameCall(pid: nat, from: Option<string>, to: Option<string>, ghost hiding: Option<string>)
      requires Sane() && Possible(kernel, pid, Call.Rename(from, to, hiding))
      modifies this
      ensures Followed(old(kernel), pid, Call.Rename(from, to, hiding), old(ops), old(Clean()), old(Valid()))
    {
      hide OpsRun, NamesWithin, NamesAgree, FdsAgree, Normal, Without, IsMachine, Relocated, RemoveOps, Unseen, Replays,
        IsNormalTrace, Renamed;
      if from.Some? && to.Some? {
        RenameInside(pid, from.value, to.value);
      } else {
        ghost var next, ok := After(kernel, pid, Call.Rename(from, to, hiding)), Valid();
        StaysAMachine(kernel, pid, Call.Rename(from, to, hiding));
        assert ops + [] == ops;
        if from.Some? {
          if ok && hiding.Some? {
            HidAgrees(View(), link, kernel, from.value, hiding.value);
          } else if ok {
            RemovalAgrees(View(), link, kernel, from.value);
          }
          Remove(from.value);
        }
        kernel := next;
        RunsOrNot(initial, ops, kernel.tree);
      }
    }

    // --------------------------------------------------------------- one call

    /** One call of the log. */
    method Apply(pid: nat, call: Call) returns (r: Option<Complaint>)
      requires Sane() && Possible(kernel, pid, call)
      modifies this
      ensures r.Some? <==> Unreadable(call)
      ensures r.Some? ==> Complains(call, r.value)
      ensures r.None? ==> Followed(old(kernel), pid, call, old(ops), old(Clean()), old(Valid()))
    {
      hide OpsRun, NamesWithin, NamesAgree, FdsAgree, IsMachine, AreFds, After, Possible, Cursor, OpenOps, WriteOps,
        RemoveOps, DescriptionOf, IsNormalTrace, Replays;
      r := None;
      assert ops + [] == ops;
      match call {
        case Open(fd, path, creat, trunc, append) => OpenCall(pid, fd, path, creat, trunc, append);
        case Write(fd, at, data, cut, n) => r := WriteCall(pid, fd, at, data, cut, n);
        case PWrite(fd, at, data, cut, n, position) => r := PWriteCall(pid, fd, at, data, cut, n, position);
        case Read(fd, at, n) => ReadCall(pid, fd, at, n);
        case Seek(fd, at, offset) => SeekCall(pid, fd, at, offset);
        case Close(fd) => CloseCall(pid, fd);
        case Dup(fd, copy) => DupCall(pid, fd, copy);
        case SetAppend(_, _, _) => OtherCall(pid, call);
        case Truncate(path, len) => TruncateCall(pid, path, len);
        case Fsync(_) => SyncCall(pid, call);
        case Sync => SyncCall(pid, call);
        case Rename(from, to, hiding) => RenameCall(pid, from, to, hiding);
        case Remove(path) => RemoveCall(pid, path);
        case Mkdir(path) => MkdirCall(pid, path);
        case Clone(child, shared) => CloneCall(pid, child, shared);
        case Comes(_) => OtherCall(pid, call);
        case Goes(_) => OtherCall(pid, call);
        case Appears(_, _) => OtherCall(pid, call);
        case Vanishes(_) => OtherCall(pid, call);
        case Slips(_, _) => OtherCall(pid, call);
        case Skips(_, _, _) => OtherCall(pid, call);
        case Unshares => OtherCall(pid, call);
      }
    }
  }

  /** The tracker on a whole log. It gives up exactly on a log that is incomplete or has an unreadable
      offset. Whether the compiler then refuses the trace depends on what went unnoticed: for every block
      size it does exactly if some call goes astray, as long as no empty write to an unnoticed file
      confuses the tracker; if not, its names are those the traced processes left. And if no call was
      missed, the trace is exactly what the calls amount to, in order: every write at its true offset,
      every fsync, sync and acknowledgement, and nothing else. It then replays to exactly the tree that
      was left. */
  method Parse(tree: Tree, log: seq<Event>, ghost k: Machine) returns (r: Result<Trace, Complaint>)
    requires WellFormed(tree) && StartsAfresh(k, tree) && PossibleLog(k, log)
    ensures r.Failure? <==> exists i :: 0 <= i < |log| && Unreadable(log[i].call)
    ensures r.Failure? ==> exists i :: 0 <= i < |log| && Complains(log[i].call, r.error) && Unreadable(log[i].call)
                                       && forall j :: 0 <= j < i ==> !Unreadable(log[j].call)
    ensures r.Success? ==> r.value.initial == tree && IsNormalTrace(r.value)
    ensures r.Success? && NeverConfuses(k, log) ==> forall block: nat :: block > 0 ==>
              (Run(r.value, block, |r.value.ops|).Success? <==> NeverAstray(k, log))
    ensures r.Success? && NeverConfuses(k, log) && NeverAstray(k, log) ==>
              && TreeAfter(r.value, |r.value.ops|).Success?
              && SameShape(TreeAfter(r.value, |r.value.ops|).value, AfterLog(k, log).tree)
    ensures r.Success? && NeverMisses(k, log) ==>
              && r.value.ops == RecordedBy(k, log) && InPlace(k, log, r.value)
              && TreeAfter(r.value, |r.value.ops|) == Success(AfterLog(k, log).tree)
  {
    hide OpsRun, OpsGive, FdsAgree, AreFds, IsMachine, NamesAgree, NamesWithin, After, Possible, Misses, Run,
      Unreadable, WellFormed, Recorded, SameShape, Astray, Confuses, Replays, IsNormalTrace, InPlace;
    MachineOf(k, tree);
    var st := new State(tree, k);
    ghost var kept, sure, good := NeverMisses(k, log), NeverConfuses(k, log), true;
    var i := 0;
    assert log[0..] == log && [] + RecordedBy(k, log) == RecordedBy(k, log);
    while i < |log|
      invariant i <= |log| && st.Sane() && fresh(st) && st.initial == tree && IsMachine(st.kernel)
      invariant PossibleLog(st.kernel, log[i..])
      invariant AfterLog(st.kernel, log[i..]) == AfterLog(k, log)
      invariant sure ==> NeverConfuses(st.kernel, log[i..]) && if good then st.Clean() else !Replays(tree, st.ops)
      invariant NeverAstray(k, log) <==> good && NeverAstray(st.kernel, log[i..])
      invariant kept ==> st.Valid() && NeverMisses(st.kernel, log[i..])
                         && st.ops + RecordedBy(st.kernel, log[i..]) == RecordedBy(k, log)
      invariant forall j :: 0 <= j < i ==> !Unreadable(log[j].call)
    {
      assert log[i..][0] == log[i] && log[i..][1..] == log[i + 1..];
      StaysAMachine(st.kernel, log[i].pid, log[i].call);
      ghost var before, was := st.ops, st.kernel;
      ghost var first, rest := Recorded(was, log[i].pid, log[i].call),
        RecordedBy(After(was, log[i].pid, log[i].call), log[i + 1..]);
      assert before + (first + rest) == (before + first) + rest;
      var complaint := st.Apply(log[i].pid, log[i].call);
      if complaint.Some? {
        return Failure(complaint.value);
      }
      if sure && !good {
        RefusedGrows(tree, before, st.ops);
      }
      good := good && !Astray(was, log[i].pid, log[i].call);
      i := i + 1;
    }
    r := Success(Trace(tree, st.ops));
    assert st.kernel == AfterLog(k, log) && st.ops + [] == st.ops;
    if sure && good {
      OpsRunTree(tree, st.ops, st.kernel.tree);
      RunsOrNot(tree, st.ops, st.kernel.tree);
    }
    if kept {
      RecordingIsExact(tree, k, log);
      RecordingIsInPlace(tree, k, log);
    }
    forall block: nat | block > 0 ensures Run(r.value, block, |r.value.ops|).Success? <==> Replays(tree, st.ops) {
      CompilesIfItReplays(tree, st.ops, block);
    }
  }

  lemma RefusedGrows(tree: Tree, before: seq<Op>, ops: seq<Op>)
    requires !Replays(tree, before) && before <= ops
    ensures !Replays(tree, ops)
  {
    hide Replays;
    RefusedStays(tree, before, ops[|before|..]);
    assert before + ops[|before|..] == ops;
  }

  lemma CompilesIfItReplays(tree: Tree, ops: seq<Op>, block: nat)
    requires IsNormalTrace(Trace(tree, ops)) && block > 0
    ensures Run(Trace(tree, ops), block, |ops|).Success? <==> Replays(tree, ops)
  {
    hide Run, IsNormalTrace;
    RunRefines(Trace(tree, ops), block, |ops|);
  }

  lemma RecordingIsExact(tree: Tree, k: Machine, log: seq<Event>)
    requires WellFormed(tree) && StartsAfresh(k, tree) && IsMachine(k) && PossibleLog(k, log) && NeverMisses(k, log)
    ensures TreeAfter(Trace(tree, RecordedBy(k, log)), |RecordedBy(k, log)|) == Success(AfterLog(k, log).tree)
    ensures NeverAstray(k, log) && NeverConfuses(k, log)
  {
    hide WellFormed, Recorded, After, Possible, IsMachine, Misses;
    NoEmptyName(tree);
    MissesIncludes(k, log);
    RecordedLogGives(tree, [], k, log);
    assert [] + RecordedBy(k, log) == RecordedBy(k, log);
  }

  lemma RecordingIsInPlace(tree: Tree, k: Machine, log: seq<Event>)
    requires WellFormed(tree) && StartsAfresh(k, tree) && IsMachine(k) && PossibleLog(k, log) && NeverMisses(k, log)
    requires forall i :: 0 <= i < |log| ==> !Unreadable(log[i].call)
    ensures InPlace(k, log, Trace(tree, RecordedBy(k, log)))
  {
    hide WellFormed, Recorded, After, Possible, IsMachine, Misses, StandsAt, Unreadable;
    NoEmptyName(tree);
    var at := LogStands(tree, [], k, log);
    assert [] + RecordedBy(k, log) == RecordedBy(k, log);
  }

  lemma {:induction false} MissesIncludes(k: Machine, log: seq<Event>)
    requires IsMachine(k) && PossibleLog(k, log) && NeverMisses(k, log)
    ensures NeverAstray(k, log) && NeverConfuses(k, log) && NeverTakesOver(k, log)
    decreases |log|
  {
    hide After, Possible, IsMachine, Astray, Confuses, TakesOver, MissesNoticed;
    if log != [] {
      StaysAMachine(k, log[0].pid, log[0].call);
      MissesIncludes(After(k, log[0].pid, log[0].call), log[1..]);
    }
  }
}
