/** Names that end like that of a deleted file: what of them is recorded, and what comes of the rest. */
module Deleted {
  import opened Absolute
  import opened Wrappers
  import opened Trace
  import opened Paths
  import opened Reference
  import opened Kernel
  import opened Unnoticed
  import opened Recording
  import opened Descriptors

  /** What an absolute path is to the tracker. */
  function SeenAs(root: seq<string>, inside: seq<string>): Option<string> {
    Rel("/" + JoinAll(root), "/" + JoinAll(root + inside))
  }

  /** A new file is recorded exactly if its path does not end in ` (deleted)`: the log has no other sign
      of a file that is gone. */
  lemma NewFileIsRecordedIff(root: seq<string>, inside: seq<string>, k: Machine, pid: nat, fd: int, append: bool)
    requires AllPlain(root) && AllPlain(inside) && IsMachine(k) && pid in k.tableOf
    requires CanExist(k, JoinAll(inside)) && !ExistsIn(k.tree, JoinAll(inside))
    ensures var path := "/" + JoinAll(root + inside);
            var call := Call.Open(fd, Rel("/" + JoinAll(root), path), true, false, append);
            && Possible(k, pid, call)
            && Recorded(k, pid, call) ==
               if EndsWith(path, DELETED) then [] else [Op.Create(JoinAll(inside))]
  {
    hide Normal, Split, JoinAll, EndsWith, Rel;
    RelOfInside(root, inside);
  }

  /** What making a directory below the root is: the tracker notices it, or it appears unnoticed. */
  function Made(root: seq<string>, inside: seq<string>): Call {
    if SeenAs(root, inside).Some? then Call.Mkdir(SeenAs(root, inside)) else Call.Appears(JoinAll(inside), Dir)
  }

  ghost predicate LooksDeleted(root: seq<string>, inside: seq<string>) {
    EndsWith("/" + JoinAll(root + inside), DELETED)
  }

  /** A directory whose name ends in ` (deleted)` goes unnoticed, but not a file made in it: its creation is
      recorded, and cannot be performed. */
  lemma FileInUnnoticedDir(root: seq<string>, inside: seq<string>, name: string, k: Machine, pid: nat, fd: int)
    requires AllPlain(root) && AllPlain(inside) && inside != [] && PlainName(name)
    requires LooksDeleted(root, inside) && !LooksDeleted(root, inside + [name])
    requires IsMachine(k) && pid in k.tableOf && WellFormed(k.tree) && CanExist(k, JoinAll(inside))
    requires JoinAll(inside) !in k.tree && JoinAll(inside) !in k.hidden
    ensures var made := Made(root, inside);
            var open := Call.Open(fd, SeenAs(root, inside + [name]), true, false, false);
            && Possible(k, pid, made) && Recorded(k, pid, made) == []
            && IsMachine(After(k, pid, made)) && Possible(After(k, pid, made), pid, open)
            && Recorded(After(k, pid, made), pid, open) == [Op.Create(JoinAll(inside + [name]))]
            && Astray(After(k, pid, made), pid, open)
  {
    hide Normal, Split, JoinAll, EndsWith, Rel, WellFormed, Parts;
    RelOfInside(root, inside);
    assert AllPlain(inside + [name]);
    RelOfInside(root, inside + [name]);
    JoinedParts(inside);
    var dir, path := JoinAll(inside), JoinAll(inside + [name]);
    assert (inside + [name])[..|inside|] == inside;
    OneJoined(inside + [name]);
    JoinedParts(inside + [name]);
    JoinSplits(dir, name);
    NotInMissing(k.tree, path);
    var next := k.(hidden := k.hidden[dir := Dir]);
    assert Unseen(next, dir) by { BelowItself(dir); }
    assert Unseen(next, path) by { assert Below(dir, path); }
  }

  lemma NotInMissing(tree: Tree, path: string)
    requires WellFormed(tree) && Normal(path) && path != "" && Split(path).0 != "" && Split(path).0 !in tree
    ensures path !in tree
  {
    hide Normal, Split;
    assert path in tree ==> ParentListed(tree, path);
  }

  /** So a possible log is refused by the compiler, whatever the block size. */
  lemma UnnoticedDirIsRefused(root: seq<string>, inside: seq<string>, name: string, k: Machine, pid: nat, fd: int)
    requires AllPlain(root) && AllPlain(inside) && inside != [] && PlainName(name)
    requires LooksDeleted(root, inside) && !LooksDeleted(root, inside + [name])
    requires IsMachine(k) && pid in k.tableOf && WellFormed(k.tree) && CanExist(k, JoinAll(inside))
    requires JoinAll(inside) !in k.tree && JoinAll(inside) !in k.hidden
    ensures var log := [Event(pid, Made(root, inside)),
                        Event(pid, Call.Open(fd, SeenAs(root, inside + [name]), true, false, false))];
            PossibleLog(k, log) && NeverConfuses(k, log) && !NeverAstray(k, log)
  {
    hide Normal, Split, JoinAll, EndsWith, WellFormed, Possible, After, Astray, IsMachine, Confuses, Recorded, CanExist,
      SeenAs, Made, AllPlain, LooksDeleted;
    FileInUnnoticedDir(root, inside, name, k, pid, fd);
    var made, open := Made(root, inside), Call.Open(fd, SeenAs(root, inside + [name]), true, false, false);
    NothingWritten(k, pid, made, root, inside);
    NothingWritten(After(k, pid, made), pid, open, root, inside);
    TwoCalls(k, pid, made, open);
  }

  lemma NothingWritten(k: Machine, pid: nat, call: Call, root: seq<string>, inside: seq<string>)
    requires call == Made(root, inside) || call.Open?
    ensures !Confuses(k, pid, call)
  {
  }

  lemma TwoCalls(k: Machine, pid: nat, a: Call, b: Call)
    requires IsMachine(k) && Possible(k, pid, a) && IsMachine(After(k, pid, a)) && Possible(After(k, pid, a), pid, b)
    requires !Confuses(k, pid, a) && !Confuses(After(k, pid, a), pid, b)
    ensures var log := [Event(pid, a), Event(pid, b)];
            && PossibleLog(k, log) && NeverConfuses(k, log)
            && (NeverAstray(k, log) <==> !Astray(k, pid, a) && !Astray(After(k, pid, a), pid, b))
  {
    hide Possible, After, IsMachine, Confuses, Astray;
    var log, next := [Event(pid, a), Event(pid, b)], After(k, pid, a);
    assert log[1..] == [Event(pid, b)] && log[1..][1..] == [];
    StaysAMachine(next, pid, b);
    var last := After(next, pid, b);
    assert PossibleLog(last, []) && NeverConfuses(last, []) && NeverAstray(last, []);
    assert PossibleLog(next, log[1..]);
  }

  /** And the same for anything made unnoticed and then removed, such as a socket. */
  lemma UnnoticedRemovalIsRefused(k: Machine, pid: nat, name: string, entry: Entry)
    requires IsMachine(k) && pid in k.tableOf && CanExist(k, name) && name != "" && name !in k.tree && name !in k.hidden
    ensures var log := [Event(pid, Call.Appears(name, entry)), Event(pid, Call.Remove(Some(name)))];
            PossibleLog(k, log) && NeverConfuses(k, log) && !NeverAstray(k, log)
  {
    hide Normal, Split;
    BelowItself(name);
    var next := k.(hidden := k.hidden[name := entry]);
    assert name in next.hidden && Unseen(next, name);
    TwoCalls(k, pid, Call.Appears(name, entry), Call.Remove(Some(name)));
  }

  /** A directory that is renamed so that it looks deleted takes the open files in it along: a write to one
      is recorded under the new name, and cannot be performed. */
  lemma WriteBelowHiddenDir(k: Machine, pid: nat, fd: int, d: nat, from: string, name: string, file: string,
                            data: seq<Byte>)
    requires IsMachine(k) && Possible(k, pid, Call.Rename(Some(from), None, Some(name))) && data != []
    requires DescriptionOf(k, pid, fd) == Some(d) && d < |k.open| && k.open[d].at == Some(file) && Below(from, file)
    requires Normal(Origin(name, from, file)) && Shown(Origin(name, from, file)).Some?
    requires forall q :: q in k.tree ==> !Below(name, q)
    ensures var next := After(k, pid, Call.Rename(Some(from), None, Some(name)));
            var write := Call.Write(fd, Some(Origin(name, from, file)), data, false, |data|);
            IsMachine(next) && Possible(next, pid, write) && Astray(next, pid, write) && !Confuses(next, pid, write)
  {
    hide Normal, Split, Hid, IsMachine, Below, Origin, Unseen, DescriptionOf, NothingBelow;
    var rename, now := Call.Rename(Some(from), None, Some(name)), Origin(name, from, file);
    HiddenNameIsThere(k, from, name);
    StaysAMachine(k, pid, rename);
    OriginBelow(name, from, file);
    FileFollows(k, pid, fd, d, from, name, file);
    assert data[..|data|] == data;
    WriteIsPossible(Hid(k, from, name), pid, fd, d, now, data);
  }

  lemma OriginBelow(name: string, from: string, file: string)
    requires Below(from, file)
    ensures Below(name, Origin(name, from, file))
  {
    if file != from {
      assert file[|from|] == '/';
      assert Origin(name, from, file)[..|name| + 1] == name + "/";
    }
  }

  lemma FileFollows(k: Machine, pid: nat, fd: int, d: nat, from: string, name: string, file: string)
    requires DescriptionOf(k, pid, fd) == Some(d) && d < |k.open| && k.open[d].at == Some(file) && Below(from, file)
    ensures DescriptionOf(Hid(k, from, name), pid, fd) == Some(d) && d < |Hid(k, from, name).open|
    ensures Hid(k, from, name).open[d].at == Shown(Origin(name, from, file))
    ensures Hid(k, from, name).tableOf == k.tableOf
  {
    hide Below, Origin, Shown, Moved, Without;
  }

  lemma WriteIsPossible(k: Machine, pid: nat, fd: int, d: nat, path: string, data: seq<Byte>)
    requires pid in k.tableOf && DescriptionOf(k, pid, fd) == Some(d) && d < |k.open| && k.open[d].at == Some(path)
    requires Normal(path) && Unseen(k, path) && data != []
    ensures Possible(k, pid, Call.Write(fd, Some(path), data, false, |data|))
    ensures path !in k.tree && path != ""
  {
    hide Normal, Below;
  }

  lemma HiddenNameIsThere(k: Machine, from: string, name: string)
    requires name != "" && forall q :: q in k.tree ==> !Below(name, q)
    ensures name in Hid(k, from, name).hidden
    ensures forall q :: Below(name, q) ==> Unseen(Hid(k, from, name), q)
  {
    hide Moved;
  }

  /** An input: nothing under `/r`, then `/r/d (deleted)` and a file in it. */
  lemma UnnoticedDirInput(k: Machine, pid: nat)
    requires StartsAfresh(k, map[]) && pid in k.tableOf && k.hidden == map[]
    ensures var log := [Event(pid, Made(["r"], ["d (deleted)"])),
                        Event(pid, Call.Open(3, SeenAs(["r"], ["d (deleted)", "f"]), true, false, false))];
            PossibleLog(k, log) && NeverConfuses(k, log) && !NeverAstray(k, log)
  {
    hide Normal, Split, PossibleLog, NeverConfuses, NeverAstray, SeenAs, Made, JoinAll, EndsWith;
    var root, inside := ["r"], ["d (deleted)"];
    JoinedOne("d (deleted)");
    JoinedOne("r");
    JoinedTwice(root, inside);
    assert root + inside == ["r", "d (deleted)"] && root + (inside + ["f"]) == ["r", "d (deleted)", "f"];
    assert inside + ["f"] == ["d (deleted)", "f"] && ["r", "d (deleted)", "f"][..2] == root + inside;
    OneJoined(["r", "d (deleted)", "f"]);
    NameAtRoot(k, "d (deleted)");
    Endings();
    UnnoticedDirIsRefused(root, inside, "f", k, pid, 3);
  }

  lemma Endings()
    ensures EndsWith("/" + ("r" + "/" + "d (deleted)"), DELETED)
    ensures !EndsWith("/" + ("r" + "/" + "d (deleted)" + "/" + "f"), DELETED)
  {
    assert "/" + ("r" + "/" + "d (deleted)") == "/r/d" + DELETED;
    var file := "/" + ("r" + "/" + "d (deleted)" + "/" + "f");
    assert file[|file| - 1] == 'f' && DELETED[|DELETED| - 1] == ')';
    if EndsWith(file, DELETED) {
      LastOf(file, DELETED);
    }
  }

  lemma LastOf(s: string, end: string)
    requires EndsWith(s, end) && end != ""
    ensures s[|s| - 1] == end[|end| - 1]
  {
    assert s[|s| - |end|..][|end| - 1] == s[|s| - 1];
  }

  lemma JoinedOne(name: string)
    ensures JoinAll([name]) == name
  {
    assert [name][..0] == [];
    assert JoinAll([]) == "";
  }

  lemma NameAtRoot(k: Machine, name: string)
    requires ValidName(name)
    ensures CanExist(k, name)
  {
    hide Normal;
    JoinSplits("", name);
    EmptyHasNoPieces();
  }
}
