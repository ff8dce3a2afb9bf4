/** A tracker's open file descriptions and descriptor tables, against the real ones. */
module Descriptors {
  import opened Wrappers
  import opened Trace
  import opened Paths
  import opened Reference
  import opened Kernel
  import opened Unnoticed
  import opened Recording

  // ----------------------------------------------- tables and descriptions

  datatype Ofd = Ofd(offset: nat, append: bool)

  /** The tracker's open file descriptions and descriptor tables. */
  datatype Fds = Fds(ofds: seq<Ofd>, tables: seq<map<int, nat>>, tableOf: map<nat, nat>)

  ghost predicate AreFds(f: Fds) {
    && (forall pid :: pid in f.tableOf ==> f.tableOf[pid] < |f.tables|)
    && (forall t, fd :: 0 <= t < |f.tables| && fd in f.tables[t] ==> f.tables[t][fd] < |f.ofds|)
  }

  function OfdOf(f: Fds, pid: nat, fd: int): Option<nat> {
    if pid in f.tableOf && f.tableOf[pid] < |f.tables| && fd in f.tables[f.tableOf[pid]]
    then Some(f.tables[f.tableOf[pid]][fd]) else None
  }

  /** Processes share a table there exactly when they do here; one not seen here yet shares with none. */
  ghost predicate SharingAgrees(f: Fds, k: Machine) {
    && (forall a :: a in f.tableOf ==> a in k.tableOf)
    && (forall a, b :: a in f.tableOf && b in f.tableOf ==>
          (f.tableOf[a] == f.tableOf[b] <==> k.tableOf[a] == k.tableOf[b]))
    && (forall a, b :: a in k.tableOf && b in k.tableOf && a != b && k.tableOf[a] == k.tableOf[b] ==> a in f.tableOf)
  }

  ghost predicate IsOpenUnderRoot(k: Machine, d: nat) {
    d < |k.open| && k.open[d].at.Some?
  }

  /** A descriptor of a file under the root leads to the same description here, by `link`. */
  ghost predicate DescriptorsAgree(f: Fds, link: map<nat, nat>, k: Machine) {
    forall pid, fd {:trigger DescriptionOf(k, pid, fd)} ::
      DescriptionOf(k, pid, fd).Some? && IsOpenUnderRoot(k, DescriptionOf(k, pid, fd).value) ==>
      DescriptionOf(k, pid, fd).value in link && OfdOf(f, pid, fd) == Some(link[DescriptionOf(k, pid, fd).value])
  }

  ghost predicate SameCursor(o: Ofd, d: Description) {
    o.append == d.append && (!d.append ==> o.offset == d.offset)
  }

  /** Linked descriptions are different here if they are there, and stand at the same offset. */
  ghost predicate OffsetsAgree(f: Fds, link: map<nat, nat>, k: Machine) {
    && (forall d :: d in link ==> d < |k.open| && link[d] < |f.ofds|)
    && (forall d, e :: d in link && e in link && d != e ==> link[d] != link[e])
    && (forall d :: d in link && IsOpenUnderRoot(k, d) ==> SameCursor(f.ofds[link[d]], k.open[d]))
  }

  ghost predicate FdsAgree(f: Fds, link: map<nat, nat>, k: Machine) {
    AreFds(f) && IsMachine(k) && SharingAgrees(f, k) && DescriptorsAgree(f, link, k) && OffsetsAgree(f, link, k)
  }

  lemma AgreeBasics(f: Fds, link: map<nat, nat>, k: Machine)
    requires FdsAgree(f, link, k)
    ensures AreFds(f) && IsMachine(k)
  {
  }

  /** The descriptor side of a machine is all that matters. */
  lemma EntriesDoNotMatter(f: Fds, link: map<nat, nat>, k: Machine, tree: Tree, hidden: Tree)
    requires FdsAgree(f, link, k)
    ensures FdsAgree(f, link, k.(tree := tree, hidden := hidden))
  {
    var k' := k.(tree := tree, hidden := hidden);
    assert forall pid, fd :: DescriptionOf(k', pid, fd) == DescriptionOf(k, pid, fd);
  }

  /** One process that inherited nothing under the root. */
  ghost predicate StartsAfresh(k: Machine, tree: Tree) {
    && IsMachine(k) && k.tree == tree && (forall d :: 0 <= d < |k.open| ==> k.open[d].at.None?)
    && forall a, b :: a in k.tableOf && b in k.tableOf && k.tableOf[a] == k.tableOf[b] ==> a == b
  }

  lemma MachineOf(k: Machine, tree: Tree)
    requires StartsAfresh(k, tree)
    ensures IsMachine(k)
  {
  }

  // ----------------------------------------------------- a process's table

  function NewTable(f: Fds, pid: nat): Fds {
    Fds(f.ofds, f.tables + [map[]], f.tableOf[pid := |f.tables|])
  }

  /** A process gets its table the first time it is seen. */
  lemma NewTableAgrees(f: Fds, link: map<nat, nat>, k: Machine, pid: nat)
    requires FdsAgree(f, link, k) && pid in k.tableOf && pid !in f.tableOf
    ensures FdsAgree(NewTable(f, pid), link, k)
  {
    hide SameCursor;
    var f' := NewTable(f, pid);
    forall a, fd | DescriptionOf(k, a, fd).Some? && IsOpenUnderRoot(k, DescriptionOf(k, a, fd).value)
      ensures OfdOf(f', a, fd) == Some(link[DescriptionOf(k, a, fd).value])
    {
      assert OfdOf(f, a, fd).Some?;
    }
  }

  function WithTable(f: Fds, pid: nat): Fds {
    if pid in f.tableOf then f else NewTable(f, pid)
  }

  lemma TableAgrees(f: Fds, link: map<nat, nat>, k: Machine, pid: nat)
    requires FdsAgree(f, link, k) && pid in k.tableOf
    ensures FdsAgree(WithTable(f, pid), link, k) && pid in WithTable(f, pid).tableOf && WithTable(f, pid).ofds == f.ofds
  {
    hide FdsAgree;
    if pid !in f.tableOf {
      NewTableAgrees(f, link, k, pid);
    }
  }

  lemma TableIsThere(f: Fds, pid: nat)
    requires AreFds(f) && pid in f.tableOf
    ensures f.tableOf[pid] < |f.tables|
  {
  }

  lemma PossiblePid(k: Machine, pid: nat, call: Call)
    requires IsMachine(k) && Possible(k, pid, call)
    ensures pid in k.tableOf && k.tableOf[pid] < |k.tables|
  {
  }

  // ----------------------------------------- opening, duplicating, closing

  lemma SameDescriptors(k: Machine, o: Description)
    requires IsMachine(k)
    ensures IsMachine(AddDescription(k, o))
    ensures forall pid, fd :: DescriptionOf(AddDescription(k, o), pid, fd) == DescriptionOf(k, pid, fd)
    ensures forall pid, fd :: DescriptionOf(k, pid, fd).Some? ==> DescriptionOf(k, pid, fd).value < |k.open|
    ensures forall d :: 0 <= d < |k.open| ==> AddDescription(k, o).open[d] == k.open[d]
  {
  }

  lemma SameTables(k: Machine, o: Description)
    ensures AddDescription(k, o).tableOf == k.tableOf && |AddDescription(k, o).open| == |k.open| + 1
    ensures AddDescription(k, o).open[|k.open|] == o
  {
  }

  lemma GrownBasics(k: Machine, o: Kernel.Description)
    requires IsMachine(k)
    ensures IsMachine(AddDescription(k, o)) && AddDescription(k, o).tableOf == k.tableOf
    ensures |AddDescription(k, o).open| == |k.open| + 1 && AddDescription(k, o).open[|k.open|] == o
    ensures AddDescription(k, o).tables == k.tables && AddDescription(k, o).tree == k.tree
  {
  }

  lemma LinksAreOld(f: Fds, link: map<nat, nat>, k: Machine)
    requires OffsetsAgree(f, link, k)
    ensures forall d :: d in link ==> d < |k.open|
  {
  }

  lemma OneMoreOfd(f: Fds, o: Ofd)
    requires AreFds(f)
    ensures AreFds(f.(ofds := f.ofds + [o]))
  {
  }

  lemma OpenedCursor(f: Fds, link: map<nat, nat>, k: Machine, o: Description)
    requires OffsetsAgree(f, link, k) && o.offset == 0
    ensures OffsetsAgree(f.(ofds := f.ofds + [Ofd(0, o.append)]), link[|k.open| := |f.ofds|], AddDescription(k, o))
  {
  }

  /** A new description outside the root is of no interest. */
  lemma OpenedOutsideAgrees(f: Fds, link: map<nat, nat>, k: Machine, o: Description)
    requires FdsAgree(f, link, k) && o.at.None?
    ensures FdsAgree(f, link, AddDescription(k, o))
  {
    hide SameCursor, DescriptionOf, OfdOf, AddDescription, IsMachine;
    SameDescriptors(k, o);
    SameTables(k, o);
  }

  /** A new description under the root is new here too. */
  lemma OpenedAgrees(f: Fds, link: map<nat, nat>, k: Machine, o: Description)
    requires FdsAgree(f, link, k) && o.offset == 0
    ensures FdsAgree(f.(ofds := f.ofds + [Ofd(0, o.append)]), link[|k.open| := |f.ofds|], AddDescription(k, o))
  {
    hide DescriptionOf, AddDescription, IsMachine, OffsetsAgree, AreFds, SameCursor;
    SameDescriptors(k, o);
    SameTables(k, o);
    var f', link', k' := f.(ofds := f.ofds + [Ofd(0, o.append)]), link[|k.open| := |f.ofds|], AddDescription(k, o);
    OneMoreOfd(f, Ofd(0, o.append));
    assert forall pid, fd :: OfdOf(f', pid, fd) == OfdOf(f, pid, fd);
    OpenedCursor(f, link, k, o);
    LinksAreOld(f, link, k);
  }

  function SetOfd(f: Fds, pid: nat, fd: int, o: nat): Fds
    requires pid in f.tableOf && f.tableOf[pid] < |f.tables|
  {
    var t := f.tableOf[pid];
    var table: map<int, nat> := f.tables[t][fd := o];
    f.(tables := f.tables[t := table])
  }

  lemma EntryAfterSet(f: Fds, k: Machine, pid: nat, fd: int, o: nat, d: nat, a: nat, x: int)
    requires AreFds(f) && IsMachine(k) && SharingAgrees(f, k) && pid in f.tableOf && o < |f.ofds| && d < |k.open|
    ensures var same := a in k.tableOf && k.tableOf[a] == k.tableOf[pid] && x == fd;
            && DescriptionOf(SetEntry(k, pid, fd, d), a, x) == (if same then Some(d) else DescriptionOf(k, a, x))
            && OfdOf(SetOfd(f, pid, fd, o), a, x) == (if same then Some(o) else OfdOf(f, a, x))
  {
  }

  /** Both tables learn the same descriptor. */
  lemma SetAgrees(f: Fds, link: map<nat, nat>, k: Machine, pid: nat, fd: int, o: nat, d: nat)
    requires FdsAgree(f, link, k) && pid in f.tableOf && o < |f.ofds| && d < |k.open|
    requires IsOpenUnderRoot(k, d) ==> d in link && link[d] == o
    ensures FdsAgree(SetOfd(f, pid, fd, o), link, SetEntry(k, pid, fd, d))
  {
    hide SameCursor;
    forall a, x ensures DescriptionOf(SetEntry(k, pid, fd, d), a, x).Some? ==>
      DescriptionOf(SetEntry(k, pid, fd, d), a, x).value < |k.open|
    {
      EntryAfterSet(f, k, pid, fd, o, d, a, x);
    }
    var f', k' := SetOfd(f, pid, fd, o), SetEntry(k, pid, fd, d);
    forall a, x | DescriptionOf(k', a, x).Some? && IsOpenUnderRoot(k', DescriptionOf(k', a, x).value)
      ensures DescriptionOf(k', a, x).value in link && OfdOf(f', a, x) == Some(link[DescriptionOf(k', a, x).value])
    {
      EntryAfterSet(f, k, pid, fd, o, d, a, x);
    }
  }

  /** A descriptor that leads outside the root needs no entry here. */
  lemma SetOutsideAgrees(f: Fds, link: map<nat, nat>, k: Machine, pid: nat, fd: int, d: nat)
    requires FdsAgree(f, link, k) && pid in k.tableOf && d < |k.open| && !IsOpenUnderRoot(k, d)
    ensures FdsAgree(f, link, SetEntry(k, pid, fd, d))
  {
    hide SameCursor;
    var k' := SetEntry(k, pid, fd, d);
    forall a, x | DescriptionOf(k', a, x).Some? && IsOpenUnderRoot(k', DescriptionOf(k', a, x).value)
      ensures DescriptionOf(k', a, x) == DescriptionOf(k, a, x)
    {
    }
  }

  lemma EntryKeepsTree(k: Machine, pid: nat, fd: int, d: nat)
    requires pid in k.tableOf && k.tableOf[pid] < |k.tables|
    ensures SetEntry(k, pid, fd, d).tree == k.tree
  {
  }

  lemma EntryAfterDrop(k: Machine, pid: nat, fd: int)
    requires IsMachine(k) && pid in k.tableOf
    ensures IsMachine(DropEntry(k, pid, fd)) && DropEntry(k, pid, fd).open == k.open
    ensures forall a, x :: DescriptionOf(DropEntry(k, pid, fd), a, x).Some? ==>
              DescriptionOf(DropEntry(k, pid, fd), a, x) == DescriptionOf(k, a, x)
              && (k.tableOf[a] == k.tableOf[pid] ==> x != fd)
    ensures DropEntry(k, pid, fd).tableOf == k.tableOf
  {
  }

  /** A descriptor that went away may linger here. */
  lemma GoneAgrees(f: Fds, link: map<nat, nat>, k: Machine, pid: nat, fd: int)
    requires FdsAgree(f, link, k) && pid in k.tableOf
    ensures FdsAgree(f, link, DropEntry(k, pid, fd))
  {
    hide SameCursor, DescriptionOf, OfdOf, DropEntry, IsMachine, AreFds;
    EntryAfterDrop(k, pid, fd);
  }

  function WithoutFd(f: Fds, pid: nat, fd: int): Fds
    requires pid in f.tableOf && f.tableOf[pid] < |f.tables|
  {
    var t := f.tableOf[pid];
    f.(tables := f.tables[t := f.tables[t] - {fd}])
  }

  lemma DropAgrees(f: Fds, link: map<nat, nat>, k: Machine, pid: nat, fd: int)
    requires FdsAgree(f, link, k) && pid in f.tableOf
    ensures FdsAgree(WithoutFd(f, pid, fd), link, DropEntry(k, pid, fd))
  {
    hide SameCursor, DescriptionOf, DropEntry, IsMachine;
    EntryAfterDrop(k, pid, fd);
  }

  /** A new description under a descriptor. */
  function EnterNew(f: Fds, pid: nat, fd: int, o: Ofd): Fds {
    if pid in f.tableOf && f.tableOf[pid] < |f.tables|
    then SetOfd(f.(ofds := f.ofds + [o]), pid, fd, |f.ofds|) else f
  }

  lemma NotUnderRoot(k: Machine, d: nat)
    requires d < |k.open| && k.open[d].at.None?
    ensures !IsOpenUnderRoot(k, d)
  {
  }

  lemma OpenAgrees(f: Fds, link: map<nat, nat>, k: Machine, pid: nat, fd: int, path: Option<string>,
                   creat: bool, trunc: bool, append: bool)
    requires FdsAgree(f, link, k) && IsMachine(k) && AreFds(f)
    requires Possible(k, pid, Call.Open(fd, path, creat, trunc, append))
    ensures var after := After(k, pid, Call.Open(fd, path, creat, trunc, append));
            && after.tree == TreeOpened(k.tree, path, creat, trunc, Holds(k, path, trunc))
            && (path.None? ==> FdsAgree(f, link, after))
            && (path.Some? ==>
              FdsAgree(EnterNew(WithTable(f, pid), pid, fd, Ofd(0, append)), link[|k.open| := |f.ofds|], after))
  {
    hide FdsAgree, TreeOpened, Holds, IsMachine, AreFds, AddDescription, SetEntry, Possible, WithTable,
      IsOpenUnderRoot;
    var k', o := Opened(k, path, creat, trunc), Kernel.Description(path, 0, append);
    PossiblePid(k, pid, Call.Open(fd, path, creat, trunc, append));
    EntriesDoNotMatter(f, link, k, k'.tree, k'.hidden);
    AgreeBasics(f, link, k');
    GrownBasics(k', o);
    var grown := AddDescription(k', o);
    EntryKeepsTree(grown, pid, fd, |k.open|);
    if path.None? {
      OpenedOutsideAgrees(f, link, k', o);
      NotUnderRoot(grown, |k.open|);
      SetOutsideAgrees(f, link, grown, pid, fd, |k.open|);
    } else {
      TableAgrees(f, link, k', pid);
      var here := WithTable(f, pid);
      OpenedAgrees(here, link, k', o);
      AgreeBasics(here, link, k');
      TableIsThere(here, pid);
      SetAgrees(here.(ofds := here.ofds + [Ofd(0, append)]), link[|k.open| := |f.ofds|], grown, pid, fd, |f.ofds|,
        |k.open|);
    }
  }

  lemma DupAgrees(f: Fds, link: map<nat, nat>, k: Machine, pid: nat, fd: int, copy: int)
    requires FdsAgree(f, link, k) && IsMachine(k) && AreFds(f) && Possible(k, pid, Call.Dup(fd, copy))
             && pid in f.tableOf
    ensures var o, after := OfdOf(f, pid, fd), After(k, pid, Call.Dup(fd, copy));
            after.tree == k.tree && FdsAgree(if o.Some? then SetOfd(f, pid, copy, o.value) else f, link, after)
  {
    hide FdsAgree;
    var d := DescriptionOf(k, pid, fd).value;
    if IsOpenUnderRoot(k, d) {
      CursorIsKnown(f, link, k, pid, fd, d, k.open[d].at.value);
    }
    if OfdOf(f, pid, fd).Some? {
      SetAgrees(f, link, k, pid, copy, OfdOf(f, pid, fd).value, d);
    } else {
      SetOutsideAgrees(f, link, k, pid, copy, d);
    }
  }

  // --------------------------------------------------------------- cursors

  /** Both cursors move to the same place. */
  lemma MoveAgrees(f: Fds, link: map<nat, nat>, k: Machine, d: nat, offset: nat, here: nat)
    requires FdsAgree(f, link, k) && d in link && link[d] < |f.ofds| && d < |k.open|
    requires k.open[d].append || here == offset
    ensures FdsAgree(f.(ofds := f.ofds[link[d] := f.ofds[link[d]].(offset := here)]), link, MoveCursor(k, d, offset))
  {
    var k' := MoveCursor(k, d, offset);
    assert forall pid, fd :: DescriptionOf(k', pid, fd) == DescriptionOf(k, pid, fd);
    assert forall e :: IsOpenUnderRoot(k', e) <==> IsOpenUnderRoot(k, e);
  }

  /** Cursors of files outside the root are not followed. */
  lemma MoveOutsideAgrees(f: Fds, link: map<nat, nat>, k: Machine, d: nat, offset: nat)
    requires FdsAgree(f, link, k) && d < |k.open| && k.open[d].at.None?
    ensures FdsAgree(f, link, MoveCursor(k, d, offset))
  {
    var k' := MoveCursor(k, d, offset);
    assert forall pid, fd :: DescriptionOf(k', pid, fd) == DescriptionOf(k, pid, fd);
    assert forall e :: IsOpenUnderRoot(k', e) <==> IsOpenUnderRoot(k, e);
  }

  lemma OffsetIsFree(f: Fds, o: nat, offset: nat)
    requires AreFds(f) && o < |f.ofds|
    ensures AreFds(f.(ofds := f.ofds[o := f.ofds[o].(offset := offset)]))
  {
  }

  /** A descriptor under the root is known here, and leads to the linked description. */
  lemma CursorIsKnown(f: Fds, link: map<nat, nat>, k: Machine, pid: nat, fd: int, d: nat, path: string)
    requires FdsAgree(f, link, k) && DescriptionOf(k, pid, fd) == Some(d) && d < |k.open| && k.open[d].at == Some(path)
    ensures d in link && link[d] < |f.ofds| && OfdOf(f, pid, fd) == Some(link[d])
    ensures SameCursor(f.ofds[link[d]], k.open[d])
  {
    assert IsOpenUnderRoot(k, d);
  }

  lemma CursorIsHere(f: Fds, link: map<nat, nat>, k: Machine, d: nat, path: string, start: nat)
    requires d in link && link[d] < |f.ofds| && d < |k.open| && SameCursor(f.ofds[link[d]], k.open[d])
    requires k.open[d].at == Some(path)
    requires start == if f.ofds[link[d]].append then LengthOf(k.tree, path) else f.ofds[link[d]].offset
    ensures start == Cursor(k, d)
  {
  }

  lemma WriteOutsideAgrees(f: Fds, link: map<nat, nat>, k: Machine, pid: nat, call: Call, sent: seq<Byte>)
    requires FdsAgree(f, link, k) && IsMachine(k) && Possible(k, pid, call) && call.Write? && call.at.None?
    requires call.n <= |call.data| && sent == call.data[..call.n]
    ensures FdsAgree(f, link, After(k, pid, call)) && After(k, pid, call).tree == k.tree
  {
    hide FdsAgree;
    var d := DescriptionOf(k, pid, call.fd).value;
    MoveOutsideAgrees(f, link, k, d, Cursor(k, d) + |sent|);
  }

  lemma WriteAgrees(f: Fds, link: map<nat, nat>, k: Machine, pid: nat, call: Call, sent: seq<Byte>, d: nat)
    requires FdsAgree(f, link, k) && IsMachine(k) && Possible(k, pid, call) && call.Write?
    requires call.n <= |call.data| && sent == call.data[..call.n] && DescriptionOf(k, pid, call.fd) == Some(d)
    requires d < |k.open| && d in link && link[d] < |f.ofds|
             && (sent == [] ==> k.open[d].append || Cursor(k, d) == k.open[d].offset)
    ensures FdsAgree(f.(ofds := f.ofds[link[d] := f.ofds[link[d]].(offset := Cursor(k, d) + |sent|)]), link, After(k,
            pid, call))
  {
    hide FdsAgree, IsMachine, Possible, TreeWritten, Cursor;
    if sent == [] {
      assert MoveCursor(k, d, k.open[d].offset) == k;
      MoveAgrees(f, link, k, d, k.open[d].offset, Cursor(k, d));
    } else {
      var k' := k.(tree := TreeWritten(k.tree, call.at, Cursor(k, d), sent));
      EntriesDoNotMatter(f, link, k, k'.tree, k.hidden);
      MoveAgrees(f, link, k', d, Cursor(k, d) + |sent|, Cursor(k, d) + |sent|);
    }
  }

  lemma PWriteAgrees(f: Fds, link: map<nat, nat>, k: Machine, pid: nat, call: Call)
    requires FdsAgree(f, link, k) && IsMachine(k) && Possible(k, pid, call) && call.PWrite?
    ensures FdsAgree(f, link, After(k, pid, call))
  {
    hide FdsAgree, WriteAt, Normal;
    EntriesDoNotMatter(f, link, k, After(k, pid, call).tree, k.hidden);
  }

  lemma WrongAppend(f: Fds, link: map<nat, nat>, k: Machine, d: nat, append: bool)
    requires d in link && link[d] < |f.ofds| && d < |k.open| && k.open[d].at.Some? && k.open[d].append != append
    requires SameCursor(f.ofds[link[d]], k.open[d])
    ensures !FdsAgree(f, link, k.(open := k.open[d := k.open[d].(append := append)]))
  {
    hide IsMachine, SharingAgrees, DescriptorsAgree;
    var k' := k.(open := k.open[d := k.open[d].(append := append)]);
    assert IsOpenUnderRoot(k', d) && !SameCursor(f.ofds[link[d]], k'.open[d]);
  }

  /** A cursor that moved unnoticed. */
  lemma SkipAgrees(f: Fds, link: map<nat, nat>, k: Machine, pid: nat, call: Call, d: nat)
    requires FdsAgree(f, link, k) && IsMachine(k) && Possible(k, pid, call) && call.Skips?
    requires DescriptionOf(k, pid, call.fd) == Some(d)
    ensures FdsAgree(f, link, After(k, pid, call)) <==> !Misses(k, pid, call)
  {
    hide FdsAgree, IsMachine, DescriptionOf;
    if call.at.None? {
      MoveOutsideAgrees(f, link, k, d, call.offset);
    } else {
      CursorIsKnown(f, link, k, pid, call.fd, d, call.at.value);
      if k.open[d].append || k.open[d].offset == call.offset {
        MoveAgrees(f, link, k, d, call.offset, f.ofds[link[d]].offset);
        assert f.ofds[link[d] := f.ofds[link[d]]] == f.ofds;
      } else {
        WrongCursor(f, link, k, d, call.offset);
      }
    }
  }

  lemma WrongCursor(f: Fds, link: map<nat, nat>, k: Machine, d: nat, offset: nat)
    requires d in link && link[d] < |f.ofds| && d < |k.open| && k.open[d].at.Some?
    requires !k.open[d].append && k.open[d].offset != offset && SameCursor(f.ofds[link[d]], k.open[d])
    ensures !FdsAgree(f, link, MoveCursor(k, d, offset))
  {
    hide IsMachine, SharingAgrees, DescriptorsAgree;
    var k' := MoveCursor(k, d, offset);
    assert IsOpenUnderRoot(k', d) && !SameCursor(f.ofds[link[d]], k'.open[d]);
  }

  lemma OwnTable(k: Machine, pid: nat)
    requires IsMachine(k) && pid in k.tableOf
    ensures var k' := Cloned(k, pid, pid, false);
            && IsMachine(k') && k'.open == k.open && k'.tableOf.Keys == k.tableOf.Keys
            && (forall a, fd :: DescriptionOf(k', a, fd) == DescriptionOf(k, a, fd))
            && forall a, b :: a in k.tableOf && b in k.tableOf && a != b ==>
                 (k'.tableOf[a] == k'.tableOf[b] <==> a != pid && b != pid && k.tableOf[a] == k.tableOf[b])
  {
  }

  /** A process that gives up a shared table goes on sharing it here. */
  lemma UnshareAgrees(f: Fds, link: map<nat, nat>, k: Machine, pid: nat)
    requires FdsAgree(f, link, k) && IsMachine(k) && Possible(k, pid, Unshares)
    ensures FdsAgree(f, link, After(k, pid, Unshares)) <==> !Misses(k, pid, Unshares)
  {
    hide SameCursor, DescriptionOf, OfdOf, Cloned, AreFds, IsMachine, OffsetsAgree;
    PossiblePid(k, pid, Unshares);
    OwnTable(k, pid);
    SameOpen(f, link, k, Cloned(k, pid, pid, false));
    if q :| q in k.tableOf && q != pid && k.tableOf[q] == k.tableOf[pid] {
      assert q in f.tableOf && pid in f.tableOf && f.tableOf[q] == f.tableOf[pid];
    }
  }

  lemma SameOpen(f: Fds, link: map<nat, nat>, k: Machine, k': Machine)
    requires OffsetsAgree(f, link, k) && k'.open == k.open
    ensures OffsetsAgree(f, link, k')
  {
    hide SameCursor;
  }

  lemma AppendOutside(f: Fds, link: map<nat, nat>, k: Machine, d: nat, append: bool)
    requires FdsAgree(f, link, k) && d < |k.open| && k.open[d].at.None?
    ensures FdsAgree(f, link, k.(open := k.open[d := k.open[d].(append := append)]))
  {
    hide SameCursor;
    var k' := k.(open := k.open[d := k.open[d].(append := append)]);
    assert forall a, fd :: DescriptionOf(k', a, fd) == DescriptionOf(k, a, fd);
    assert forall e :: IsOpenUnderRoot(k', e) <==> IsOpenUnderRoot(k, e);
  }

  /** Switching O_APPEND goes unnoticed. */
  lemma AppendAgrees(f: Fds, link: map<nat, nat>, k: Machine, pid: nat, call: Call, d: nat)
    requires FdsAgree(f, link, k) && IsMachine(k) && Possible(k, pid, call) && call.SetAppend?
    requires DescriptionOf(k, pid, call.fd) == Some(d)
    ensures FdsAgree(f, link, After(k, pid, call)) <==> !Misses(k, pid, call)
  {
    hide FdsAgree, IsMachine, DescriptionOf;
    if call.at.Some? {
      CursorIsKnown(f, link, k, pid, call.fd, d, call.at.value);
      if k.open[d].append == call.append {
        assert After(k, pid, call).open == k.open;
      } else {
        WrongAppend(f, link, k, d, call.append);
      }
    } else {
      AppendOutside(f, link, k, d, call.append);
    }
  }

  /** What the tracker does not look at. */
  predicate IsOther(call: Call) {
    || call.Comes? || call.Goes? || call.SetAppend? || call.Appears? || call.Vanishes?
    || call.Slips? || call.Skips? || call.Unshares?
  }

  lemma OtherKeepsTree(k: Machine, pid: nat, call: Call)
    requires IsMachine(k) && Possible(k, pid, call) && IsOther(call)
    ensures After(k, pid, call).tree == k.tree && Recorded(k, pid, call) == []
    ensures !Astray(k, pid, call) && !Confuses(k, pid, call)
  {
  }

  lemma OtherAgrees(f: Fds, link: map<nat, nat>, k: Machine, pid: nat, call: Call)
    requires FdsAgree(f, link, k) && IsMachine(k) && Possible(k, pid, call)
    requires IsOther(call)
    ensures FdsAgree(f, link, After(k, pid, call)) <==> !Misses(k, pid, call)
  {
    hide FdsAgree, IsMachine, SetEntry, DropEntry, AddDescription, Unseen, Without;
    PossiblePid(k, pid, call);
    if call.Comes? {
      var o := Kernel.Description(None, 0, false);
      OpenedOutsideAgrees(f, link, k, o);
      GrownBasics(k, o);
      SetOutsideAgrees(f, link, AddDescription(k, o), pid, call.fd, |k.open|);
    } else if call.Goes? {
      GoneAgrees(f, link, k, pid, call.fd);
    } else if call.Appears? || call.Vanishes? {
      EntriesDoNotMatter(f, link, k, k.tree, After(k, pid, call).hidden);
    } else if call.Slips? {
      HidAgrees(f, link, k, call.name, call.into);
      var hid := Hid(k, call.name, call.into);
      EntriesDoNotMatter(f, link, hid, k.tree, hid.hidden);
    } else if call.Skips? {
      SkipAgrees(f, link, k, pid, call, DescriptionOf(k, pid, call.fd).value);
    } else if call.Unshares? {
      UnshareAgrees(f, link, k, pid);
    } else {
      AppendAgrees(f, link, k, pid, call, DescriptionOf(k, pid, call.fd).value);
    }
  }

  // ---------------------------------------------------- moves and removals

  /** Renames and removals only change where files are. */
  lemma RelocatedAgrees(f: Fds, link: map<nat, nat>, k: Machine, to: string -> Option<string>)
    requires FdsAgree(f, link, k)
    ensures FdsAgree(f, link, k.(open := Relocated(k.open, to)))
  {
    var k' := k.(open := Relocated(k.open, to));
    assert forall pid, fd :: DescriptionOf(k', pid, fd) == DescriptionOf(k, pid, fd);
    assert forall e :: IsOpenUnderRoot(k', e) ==> IsOpenUnderRoot(k, e);
  }

  lemma RemovalAgrees(f: Fds, link: map<nat, nat>, k: Machine, path: string)
    requires FdsAgree(f, link, k)
    ensures FdsAgree(f, link, Removed(k, path))
  {
    hide FdsAgree, Relocated, Without;
    RelocatedAgrees(f, link, k, AfterRemoval(path));
    EntriesDoNotMatter(f, link, k.(open := Relocated(k.open, AfterRemoval(path))), Without(k.tree, path),
      Without(k.hidden, path));
  }

  lemma HidAgrees(f: Fds, link: map<nat, nat>, k: Machine, from: string, name: string)
    requires FdsAgree(f, link, k)
    ensures FdsAgree(f, link, Hid(k, from, name)) && Hid(k, from, name).tree == Without(k.tree, from)
  {
    hide FdsAgree, Relocated, Moved, Without, EntryThere, Shown;
    RelocatedAgrees(f, link, k, AfterHiding(from, name));
    EntriesDoNotMatter(f, link, k.(open := Relocated(k.open, AfterHiding(from, name))), Hid(k, from, name).tree,
      Hid(k, from, name).hidden);
  }

  lemma MovedAgrees(f: Fds, link: map<nat, nat>, k: Machine, from: string, to: string)
    requires FdsAgree(f, link, k)
    ensures FdsAgree(f, link, Renamed(k, from, to))
  {
    hide FdsAgree, Relocated, TreeRenamed, HiddenRenamed;
    RelocatedAgrees(f, link, k, AfterMove(from, to));
    EntriesDoNotMatter(f, link, k.(open := Relocated(k.open, AfterMove(from, to))), TreeRenamed(k, from, to),
      HiddenRenamed(k, from, to));
  }

  // --------------------------------------------------------------- forking

  function Forked(f: Fds, pid: nat, child: nat, shared: bool): Fds
    requires pid in f.tableOf && f.tableOf[pid] < |f.tables|
  {
    if shared then f.(tableOf := f.tableOf[child := f.tableOf[pid]])
    else f.(tables := f.tables + [f.tables[f.tableOf[pid]]], tableOf := f.tableOf[child := |f.tables|])
  }

  lemma CloneShape(f: Fds, k: Machine, pid: nat, child: nat, shared: bool)
    requires AreFds(f) && IsMachine(k) && pid in f.tableOf && pid in k.tableOf
    ensures AreFds(Forked(f, pid, child, shared)) && Forked(f, pid, child, shared).ofds == f.ofds
    ensures IsMachine(Cloned(k, pid, child, shared)) && Cloned(k, pid, child, shared).open == k.open
  {
  }

  lemma ForkedEntries(f: Fds, k: Machine, pid: nat, child: nat, shared: bool, a: nat, fd: int)
    requires AreFds(f) && IsMachine(k) && SharingAgrees(f, k) && pid in f.tableOf && child !in k.tableOf
    ensures DescriptionOf(Cloned(k, pid, child, shared), a, fd) == DescriptionOf(k, if a == child then pid else a, fd)
    ensures OfdOf(Forked(f, pid, child, shared), a, fd) == OfdOf(f, if a == child then pid else a, fd)
  {
  }

  lemma CloneSharing(f: Fds, k: Machine, pid: nat, child: nat, shared: bool)
    requires AreFds(f) && IsMachine(k) && SharingAgrees(f, k) && pid in f.tableOf && child !in k.tableOf
    ensures SharingAgrees(Forked(f, pid, child, shared), Cloned(k, pid, child, shared))
  {
  }

  lemma CloneAgrees(f: Fds, link: map<nat, nat>, k: Machine, pid: nat, child: nat, shared: bool)
    requires FdsAgree(f, link, k) && pid in f.tableOf && pid in k.tableOf && child !in k.tableOf
    ensures FdsAgree(Forked(f, pid, child, shared), link, Cloned(k, pid, child, shared))
  {
    hide SameCursor, DescriptionOf, OfdOf, Forked, Cloned, SharingAgrees;
    var f', k' := Forked(f, pid, child, shared), Cloned(k, pid, child, shared);
    CloneShape(f, k, pid, child, shared);
    forall a, fd ensures DescriptionOf(k', a, fd) == DescriptionOf(k, if a == child then pid else a, fd)
                 ensures OfdOf(f', a, fd) == OfdOf(f, if a == child then pid else a, fd) {
      ForkedEntries(f, k, pid, child, shared, a, fd);
    }
    CloneSharing(f, k, pid, child, shared);
  }

  lemma NotSeenYet(f: Fds, link: map<nat, nat>, k: Machine, child: nat)
    requires FdsAgree(f, link, k)
    ensures child !in k.tableOf ==> child !in f.tableOf
  {
  }

  lemma ClonedTree(k: Machine, pid: nat, child: nat, shared: bool)
    requires pid in k.tableOf && k.tableOf[pid] < |k.tables|
    ensures Cloned(k, pid, child, shared).tree == k.tree
  {
  }
}
