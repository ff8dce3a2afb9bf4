/** What a traced program's system calls do: a tree, open file descriptions and
    the descriptor tables that share them. */
module Kernel {
  import opened Wrappers
  import opened Trace
  import opened Paths
  import opened Reference
  import Absolute

  /** An open file description. `at` is where its file is now, as `strace -y` prints it, if that is
      under the root; a deleted file, or one elsewhere, has none. */
  datatype Description = Description(at: Option<string>, offset: nat, append: bool)

  /** `tree`: the entries under the root whose making the log shows, or that were there at the start.
      `hidden`: entries that are there and that nobody took notice of: links, sockets and other special
      files, what was moved in from outside, and names that end like that of a deleted file; what lies
      below them goes unnoticed too. Descriptor tables hold indices of descriptions; processes hold indices
      of tables. */
  datatype Machine = Machine(tree: Tree, hidden: Tree, open: seq<Description>, tables: seq<map<int, nat>>,
    tableOf: map<nat, nat>)

  /** A successful call as the log shows it, with paths already made relative to the root. */
  datatype Call =
    | Open(fd: int, path: Option<string>, creat: bool, trunc: bool, append: bool)
    // `cut`: the log shows only part of the data; `n`: how many bytes went through.
    | Write(fd: int, at: Option<string>, data: seq<Byte>, cut: bool, n: nat)
    | PWrite(fd: int, at: Option<string>, data: seq<Byte>, cut: bool, n: nat, position: int)
    | Read(fd: int, at: Option<string>, n: nat)
    | Seek(fd: int, at: Option<string>, offset: nat)
    | Close(fd: int)
    | Dup(fd: int, copy: int)
    // `fcntl(F_SETFL)`, as far as O_APPEND goes.
    | SetAppend(fd: int, at: Option<string>, append: bool)
    | Truncate(path: Option<string>, len: nat)
    | Fsync(at: Option<string>)
    | Sync
    // `hiding`: the unnoticed name under the root that it goes to, if it goes to one.
    | Rename(from: Option<string>, to: Option<string>, hiding: Option<string>)
    | Remove(path: Option<string>)
    | Mkdir(path: Option<string>)
    | Clone(child: nat, shared: bool)
    // A descriptor that comes from, or goes by, something the tracker does not look at: a pipe, a
    // socket, close-on-exec.
    | Comes(fd: int)
    | Goes(fd: int)
    // An entry under the root that is made, or goes, unnoticed.
    | Appears(name: string, entry: Entry)
    | Vanishes(name: string)
    // An unnoticed entry takes another name under the root.
    | Slips(name: string, into: string)
    // A cursor moves unnoticed: `preadv2` at the cursor, `sendfile`, `splice`.
    | Skips(fd: int, at: Option<string>, offset: nat)
    // `unshare(CLONE_FILES)`: the process gets a table of its own.
    | Unshares

  ghost predicate IsMachine(k: Machine) {
    && (forall pid :: pid in k.tableOf ==> k.tableOf[pid] < |k.tables|)
    && (forall t, fd :: 0 <= t < |k.tables| && fd in k.tables[t] ==> k.tables[t][fd] < |k.open|)
  }

  /** The description behind a descriptor. */
  function DescriptionOf(k: Machine, pid: nat, fd: int): Option<nat> {
    if pid in k.tableOf && k.tableOf[pid] < |k.tables| && fd in k.tables[k.tableOf[pid]]
    then Some(k.tables[k.tableOf[pid]][fd]) else None
  }

  /** There, but unnoticed. */
  ghost predicate Unseen(k: Machine, path: string) {
    path != "" && path !in k.tree && exists h :: h in k.hidden && Below(h, path)
  }

  // ---------------------------------------------------------------- the calls

  /** The length of a file; one that is not seen counts as empty. */
  function LengthOf(tree: Tree, path: string): nat {
    if path in tree && tree[path].File? then |tree[path].data| else 0
  }

  /** Where a write through description `d` lands. */
  function Cursor(k: Machine, d: nat): nat
    requires d < |k.open|
  {
    var o := k.open[d];
    if o.append && o.at.Some? then LengthOf(k.tree, o.at.value) else o.offset
  }

  /** The bytes that went through. */
  function Sent(data: seq<Byte>, n: nat): seq<Byte> {
    data[..if n < |data| then n else |data|]
  }

  function TreeWritten(tree: Tree, at: Option<string>, offset: nat, data: seq<Byte>): Tree {
    if at.None? || data == [] || at.value !in tree || !tree[at.value].File? then tree
    else tree[at.value := File(WriteAt(tree[at.value].data, offset, data))]
  }

  /** Opened to be created, a path comes into the tree, even if there was an unnoticed file of that name;
      not if its directory is unnoticed. */
  predicate ComesIn(tree: Tree, path: Option<string>, creat: bool) {
    path.Some? && creat && !ExistsIn(tree, path.value) && IsDirIn(tree, Split(path.value).0)
  }

  /** What an unnoticed file holds when it is opened. */
  function Holds(k: Machine, path: Option<string>, trunc: bool): seq<Byte> {
    if path.Some? && !trunc && path.value in k.hidden && k.hidden[path.value].File? then k.hidden[path.value].data
    else []
  }

  function TreeOpened(tree: Tree, path: Option<string>, creat: bool, trunc: bool, holds: seq<Byte>): Tree {
    if path.None? then tree
    else if ComesIn(tree, path, creat) then tree[path.value := File(holds)]
    else if trunc && path.value in tree && tree[path.value].File? then tree[path.value := File([])]
    else tree
  }

  function Opened(k: Machine, path: Option<string>, creat: bool, trunc: bool): Machine {
    k.(tree := TreeOpened(k.tree, path, creat, trunc, Holds(k, path, trunc)),
       hidden := if ComesIn(k.tree, path, creat) then k.hidden - {path.value} else k.hidden)
  }

  function SetEntry(k: Machine, pid: nat, fd: int, d: nat): Machine
    requires pid in k.tableOf && k.tableOf[pid] < |k.tables|
  {
    var t := k.tableOf[pid];
    var table: map<int, nat> := k.tables[t][fd := d];
    k.(tables := k.tables[t := table])
  }

  function DropEntry(k: Machine, pid: nat, fd: int): Machine
    requires pid in k.tableOf && k.tableOf[pid] < |k.tables|
  {
    var t := k.tableOf[pid];
    k.(tables := k.tables[t := k.tables[t] - {fd}])
  }

  function AddDescription(k: Machine, o: Description): Machine {
    k.(open := k.open + [o])
  }

  function MoveCursor(k: Machine, d: nat, offset: nat): Machine
    requires d < |k.open|
  {
    k.(open := k.open[d := k.open[d].(offset := offset)])
  }

  /** Every description whose file moved, follows it; those whose file went have none left. */
  function Relocated(open: seq<Description>, to: string -> Option<string>): (r: seq<Description>)
    ensures |r| == |open|
  {
    seq(|open|, d requires 0 <= d < |open| =>
      if open[d].at.Some? then open[d].(at := to(open[d].at.value)) else open[d])
  }

  function AfterMove(from: string, to: string): string -> Option<string> {
    path => if Below(from, path) then Some(Origin(to, from, path)) else if Below(to, path) then None else Some(path)
  }

  function AfterRemoval(gone: string): string -> Option<string> {
    path => if Below(gone, path) then None else Some(path)
  }

  /** What the log shows of a path under the root; one that ends like that of a deleted file has none. */
  function Shown(path: string): Option<string> {
    if Absolute.EndsWith(path, Absolute.DELETED) then None else Some(path)
  }

  function AfterHiding(from: string, name: string): string -> Option<string> {
    path =>
      if Below(from, path) then Shown(Origin(name, from, path)) else if Below(name, path) then None else Some(path)
  }

  /** What is there under a name, as far as that is known. */
  function EntryThere(k: Machine, path: string): Entry {
    if path in k.tree then k.tree[path] else if path in k.hidden then k.hidden[path] else File([])
  }

  /** An entry takes an unnoticed name, and all that is below it with it. */
  function Hid(k: Machine, from: string, name: string): Machine {
    k.(tree := Without(k.tree, from), hidden := Moved(k.hidden, from, name)[name := EntryThere(k, from)],
       open := Relocated(k.open, AfterHiding(from, name)))
  }

  function Removed(k: Machine, path: string): Machine {
    k.(tree := Without(k.tree, path), hidden := Without(k.hidden, path), open := Relocated(k.open, AfterRemoval(path)))
  }

  /** Both names are noticed. */
  predicate MovesInSight(k: Machine, from: string, to: string) {
    from in k.tree && IsDirIn(k.tree, Split(to).0)
  }

  /** What goes to an unnoticed directory leaves the tree; what comes from one stays unnoticed. */
  function TreeRenamed(k: Machine, from: string, to: string): Tree {
    if MovesInSight(k, from, to) then Moved(k.tree, from, to) else Without(Without(k.tree, from), to)
  }

  function HiddenRenamed(k: Machine, from: string, to: string): Tree {
    var moved := Moved(k.hidden, from, to);
    if from in k.tree then moved else moved[to := EntryThere(k, from)]
  }

  function Renamed(k: Machine, from: string, to: string): Machine {
    if from == to then k
    else k.(tree := TreeRenamed(k, from, to), hidden := HiddenRenamed(k, from, to),
            open := Relocated(k.open, AfterMove(from, to)))
  }

  function Cloned(k: Machine, pid: nat, child: nat, shared: bool): Machine
    requires pid in k.tableOf && k.tableOf[pid] < |k.tables|
  {
    if shared then k.(tableOf := k.tableOf[child := k.tableOf[pid]])
    else k.(tables := k.tables + [k.tables[k.tableOf[pid]]], tableOf := k.tableOf[child := |k.tables|])
  }

  /** The machine after a call that succeeded. */
  function After(k: Machine, pid: nat, call: Call): Machine
    requires IsMachine(k) && Possible(k, pid, call)
  {
    match call
    case Open(fd, path, creat, trunc, append) =>
      var grown := AddDescription(Opened(k, path, creat, trunc), Description(path, 0, append));
      SetEntry(grown, pid, fd, |k.open|)
    case Write(fd, at, data, _, n) =>
      var d := DescriptionOf(k, pid, fd).value;
      var sent := Sent(data, n);
      if sent == [] then k
      else MoveCursor(k.(tree := TreeWritten(k.tree, at, Cursor(k, d), sent)), d, Cursor(k, d) + |sent|)
    case PWrite(_, at, data, _, n, position) =>
      var sent := Sent(data, n);
      if position < 0 then k else k.(tree := TreeWritten(k.tree, at, position, sent))
    case Read(fd, _, n) => var d := DescriptionOf(k, pid, fd).value; MoveCursor(k, d, k.open[d].offset + n)
    case Seek(fd, _, offset) => MoveCursor(k, DescriptionOf(k, pid, fd).value, offset)
    case Close(fd) => DropEntry(k, pid, fd)
    case Dup(fd, copy) => SetEntry(k, pid, copy, DescriptionOf(k, pid, fd).value)
    case SetAppend(fd, _, append) =>
      var d := DescriptionOf(k, pid, fd).value;
      k.(open := k.open[d := k.open[d].(append := append)])
    case Truncate(path, len) =>
      if path.Some? && path.value in k.tree && k.tree[path.value].File?
      then k.(tree := k.tree[path.value := File(Resize(k.tree[path.value].data, len))]) else k
    case Rename(from, to, hiding) =>
      if from.None? then k
      else if hiding.Some? then Hid(k, from.value, hiding.value)
      else if to.None? then Removed(k, from.value) else Renamed(k, from.value, to.value)
    case Remove(path) => if path.None? then k else Removed(k, path.value)
    case Mkdir(path) =>
      if path.None? || !IsDirIn(k.tree, Split(path.value).0) then k else k.(tree := k.tree[path.value := Dir])
    case Clone(child, shared) => if child == 0 then k else Cloned(k, pid, child, shared)
    case Comes(fd) => SetEntry(AddDescription(k, Description(None, 0, false)), pid, fd, |k.open|)
    case Goes(fd) => DropEntry(k, pid, fd)
    case Appears(name, entry) => k.(hidden := k.hidden[name := entry])
    case Vanishes(name) => k.(hidden := Without(k.hidden, name))
    case Slips(name, into) => Hid(k, name, into).(tree := k.tree)
    case Skips(fd, _, offset) => MoveCursor(k, DescriptionOf(k, pid, fd).value, offset)
    case Unshares => Cloned(k, pid, pid, false)
    case Fsync(_) => k
    case Sync => k
  }

  // ------------------------------------------------------- what can succeed

  ghost predicate Named(k: Machine, pid: nat, fd: int, at: Option<string>) {
    DescriptionOf(k, pid, fd).Some? && DescriptionOf(k, pid, fd).value < |k.open|
    && k.open[DescriptionOf(k, pid, fd).value].at == at
  }

  ghost predicate IsFileAt(k: Machine, at: Option<string>) {
    at.Some? ==>
      Normal(at.value) && at.value != "" && ((at.value in k.tree && k.tree[at.value].File?) || Unseen(k, at.value))
  }

  ghost predicate CanExist(k: Machine, path: string) {
    Normal(path) && (IsDirIn(k.tree, Split(path).0) || Unseen(k, Split(path).0))
  }

  /** A name that is there, other than the root's own. */
  ghost predicate IsEntry(k: Machine, path: string) {
    Normal(path) && path != "" && (path in k.tree || Unseen(k, path))
  }

  ghost predicate NothingBelow(tree: Tree, path: string) {
    forall q :: q in tree && Below(path, q) ==> q == path
  }

  /** An entry can take this name without taking a noticed one's place. */
  ghost predicate CanHide(k: Machine, from: string, name: string) {
    && name != "" && CanExist(k, name) && !ExistsIn(k.tree, name)
    && name != from && !(from + "/" <= name) && !Below(name, from)
  }

  /** Calls that POSIX lets succeed, from a process whose clone was seen. What takes the place of a noticed
      file unnoticed is not among them. */
  ghost predicate Possible(k: Machine, pid: nat, call: Call) {
    pid in k.tableOf &&
    match call
    case Open(_, path, creat, trunc, _) =>
      path.Some? ==>
        && Normal(path.value)
        && (ExistsIn(k.tree, path.value) || Unseen(k, path.value) || (creat && CanExist(k, path.value)))
        && (creat || trunc ==> !IsDirIn(k.tree, path.value))
    case Write(fd, at, _, _, _) => Named(k, pid, fd, at) && IsFileAt(k, at)
    case PWrite(fd, at, _, _, _, _) => Named(k, pid, fd, at) && IsFileAt(k, at)
    case Read(fd, at, _) => Named(k, pid, fd, at)
    case Seek(fd, at, _) => Named(k, pid, fd, at)
    case Close(_) => true
    case Dup(fd, _) => DescriptionOf(k, pid, fd).Some?
    case SetAppend(fd, at, _) => Named(k, pid, fd, at)
    case Truncate(path, _) => IsFileAt(k, path)
    case Fsync(at) => at.Some? ==> Normal(at.value) && (ExistsIn(k.tree, at.value) || Unseen(k, at.value))
    case Sync => true
    case Rename(from, to, hiding) =>
      && (hiding.Some? ==> from.Some? && to.None? && CanHide(k, from.value, hiding.value) && Shown(hiding.value).None?)
      && (to.Some? ==> from.Some?) && (from.Some? ==> IsEntry(k, from.value))
      && (to.Some? ==> to.value != "" && CanExist(k, to.value) && !(from.value + "/" <= to.value)
                       && (from != to ==> NothingBelow(k.tree, to.value) && !Below(to.value, from.value)))
    case Remove(path) => path.Some? ==> IsEntry(k, path.value)
    case Mkdir(path) =>
      path.Some? ==> CanExist(k, path.value) && !ExistsIn(k.tree, path.value) && path.value !in k.hidden
    case Clone(child, _) => child == 0 || child !in k.tableOf
    case Comes(_) => true
    case Goes(_) => true
    case Appears(name, _) => CanExist(k, name) && !ExistsIn(k.tree, name) && name !in k.hidden
    case Vanishes(name) => Unseen(k, name)
    case Slips(name, into) => Unseen(k, name) && Shown(name).None? && CanHide(k, name, into)
    case Skips(fd, at, _) => Named(k, pid, fd, at)
    case Unshares => true
  }

  lemma StaysAMachine(k: Machine, pid: nat, call: Call)
    requires IsMachine(k) && Possible(k, pid, call)
    ensures IsMachine(After(k, pid, call))
  {
    hide Moved, Without, WriteAt, Resize, Normal, Split, Below, NothingBelow, ExistsIn, IsDirIn, TreeRenamed,
      HiddenRenamed, Unseen, Shown, EntryThere;
  }

  // ---------------------------------------------- descriptors, seen from outside

  /** Two processes with one table between them. */
  predicate Share(k: Machine, a: nat, b: nat) {
    a in k.tableOf && b in k.tableOf && k.tableOf[a] == k.tableOf[b]
  }

  lemma PossibleFacts(k: Machine, pid: nat, call: Call)
    requires Possible(k, pid, call)
    ensures pid in k.tableOf && (call.Clone? ==> call.child == 0 || call.child !in k.tableOf)
    ensures call.Dup? ==> DescriptionOf(k, pid, call.fd).Some?
    ensures call.Write? || call.PWrite? || call.Read? || call.Seek? || call.SetAppend? || call.Skips? ==>
              DescriptionOf(k, pid, call.fd).Some? && DescriptionOf(k, pid, call.fd).value < |k.open|
  {
    hide Normal, Split, Below, NothingBelow, ExistsIn, IsDirIn, Unseen, Shown, DescriptionOf;
  }

  /** What every descriptor of every process leads to after a call: a new description where one was opened,
      the same one where it was copied, nothing where it was closed, for all that share the table; what
      the parent had, in a child. */
  lemma SeenAfter(k: Machine, pid: nat, call: Call, q: nat, fd: int)
    requires IsMachine(k) && Possible(k, pid, call)
    ensures DescriptionOf(After(k, pid, call), q, fd) ==
            match call
            case Open(f, _, _, _, _) => if Share(k, pid, q) && fd == f then Some(|k.open|) else DescriptionOf(k, q, fd)
            case Comes(f) => if Share(k, pid, q) && fd == f then Some(|k.open|) else DescriptionOf(k, q, fd)
            case Close(f) => if Share(k, pid, q) && fd == f then None else DescriptionOf(k, q, fd)
            case Goes(f) => if Share(k, pid, q) && fd == f then None else DescriptionOf(k, q, fd)
            case Dup(f, copy) =>
              if Share(k, pid, q) && fd == copy then DescriptionOf(k, pid, f) else DescriptionOf(k, q, fd)
            case Clone(child, _) => DescriptionOf(k, if child != 0 && q == child then pid else q, fd)
            case _ => DescriptionOf(k, q, fd)
  {
    hide Possible, Moved, Without, TreeRenamed, HiddenRenamed, EntryThere, TreeWritten, Relocated, TreeOpened, ComesIn;
    PossibleFacts(k, pid, call);
  }

  /** Who shares a table after a call: a thread with its parent and all that share with it, a forked child
      with nobody, and nobody any more with a process that gave its table up. */
  lemma SharedAfter(k: Machine, pid: nat, call: Call, a: nat, b: nat)
    requires IsMachine(k) && Possible(k, pid, call) && a != b
    ensures Share(After(k, pid, call), a, b) <==>
            match call
            case Clone(child, shared) =>
              if child != 0 && child in {a, b} then shared && Share(k, if a == child then b else a, pid)
              else Share(k, a, b)
            case Unshares => pid !in {a, b} && Share(k, a, b)
            case _ => Share(k, a, b)
  {
    hide Possible, Moved, Without, TreeRenamed, HiddenRenamed, EntryThere, TreeWritten, Relocated, TreeOpened, ComesIn;
    PossibleFacts(k, pid, call);
  }

  /** What is at the cursor of every description after a call. */
  lemma CursorAfter(k: Machine, pid: nat, call: Call, d: nat)
    requires IsMachine(k) && Possible(k, pid, call) && d < |k.open|
    ensures d < |After(k, pid, call).open|
    ensures After(k, pid, call).open[d].offset ==
            match call
            case Write(fd, at, data, _, n) =>
              if DescriptionOf(k, pid, fd) == Some(d) && n > 0 && data != []
              then Cursor(k, d) + (if n < |data| then n else |data|) else k.open[d].offset
            case Read(fd, _, n) =>
              if DescriptionOf(k, pid, fd) == Some(d) then k.open[d].offset + n else k.open[d].offset
            case Seek(fd, _, to) => if DescriptionOf(k, pid, fd) == Some(d) then to else k.open[d].offset
            case Skips(fd, _, to) => if DescriptionOf(k, pid, fd) == Some(d) then to else k.open[d].offset
            case _ => k.open[d].offset
    ensures After(k, pid, call).open[d].append ==
            if call.SetAppend? && DescriptionOf(k, pid, call.fd) == Some(d) then call.append else k.open[d].append
    ensures call.Open? ==>
              && |After(k, pid, call).open| == |k.open| + 1
              && After(k, pid, call).open[|k.open|] == Description(call.path, 0, call.append)
  {
    hide Possible, Moved, Without, TreeRenamed, HiddenRenamed, EntryThere, TreeWritten, TreeOpened, ComesIn;
    PossibleFacts(k, pid, call);
  }

  // ---------------------------------------------------------------- whole logs

  datatype Event = Event(pid: nat, call: Call)

  ghost predicate PossibleLog(k: Machine, log: seq<Event>)
    requires IsMachine(k)
    decreases |log|
  {
    log == [] || (Possible(k, log[0].pid, log[0].call)
                  && (StaysAMachine(k, log[0].pid, log[0].call); PossibleLog(After(k, log[0].pid, log[0].call),
                    log[1..])))
  }

  ghost function AfterLog(k: Machine, log: seq<Event>): (r: Machine)
    requires IsMachine(k) && PossibleLog(k, log)
    ensures IsMachine(r)
    decreases |log|
  {
    if log == [] then k else
    StaysAMachine(k, log[0].pid, log[0].call);
    AfterLog(After(k, log[0].pid, log[0].call), log[1..])
  }
}
