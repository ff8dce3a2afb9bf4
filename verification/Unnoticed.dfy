/** Entries under the root that nobody took notice of, and the calls they get in the way of. */
module Unnoticed {
  import opened Trace
  import opened Paths
  import opened Reference
  import opened Kernel

  /** The calls whose op cannot be performed on what was recorded: it needs an entry, or a directory to put
      one in, that is there and was not noticed. */
  predicate Astray(k: Machine, pid: nat, call: Call) {
    match call
    case Open(_, path, creat, _, _) =>
      path.Some? && creat && !ExistsIn(k.tree, path.value) && !IsDirIn(k.tree, Split(path.value).0)
    case Write(_, at, data, _, n) => at.Some? && at.value !in k.tree && Sent(data, n) != []
    case PWrite(_, at, data, _, n, position) =>
      at.Some? && at.value !in k.tree && Sent(data, n) != [] && position >= 0
    case Truncate(path, _) => path.Some? && path.value !in k.tree
    case Fsync(at) => at.Some? && !ExistsIn(k.tree, at.value)
    case Rename(from, to, _) =>
      from.Some? && (from.value !in k.tree || (to.Some? && from != to && !IsDirIn(k.tree, Split(to.value).0)))
    case Remove(path) => path.Some? && path.value !in k.tree
    case Mkdir(path) => path.Some? && !IsDirIn(k.tree, Split(path.value).0)
    case _ => false
  }

  /** A write of no bytes to an unnoticed file: nothing is recorded, and yet the tracker has its name. */
  predicate Confuses(k: Machine, pid: nat, call: Call) {
    match call
    case Write(_, at, data, _, n) => at.Some? && at.value !in k.tree && Sent(data, n) == []
    case PWrite(_, at, data, _, n, position) =>
      at.Some? && at.value !in k.tree && Sent(data, n) == [] && position >= 0
    case _ => false
  }

  /** An unnoticed file is taken for a new one, and was not empty. */
  predicate TakesOver(k: Machine, pid: nat, call: Call) {
    call.Open? && ComesIn(k.tree, call.path, call.creat) && Holds(k, call.path, call.trunc) != []
  }

  ghost predicate NeverAstray(k: Machine, log: seq<Event>)
    requires IsMachine(k) && PossibleLog(k, log)
    decreases |log|
  {
    log == [] ||
    (StaysAMachine(k, log[0].pid, log[0].call);
     !Astray(k, log[0].pid, log[0].call) && NeverAstray(After(k, log[0].pid, log[0].call), log[1..]))
  }

  ghost predicate NeverConfuses(k: Machine, log: seq<Event>)
    requires IsMachine(k) && PossibleLog(k, log)
    decreases |log|
  {
    log == [] ||
    (StaysAMachine(k, log[0].pid, log[0].call);
     !Confuses(k, log[0].pid, log[0].call) && NeverConfuses(After(k, log[0].pid, log[0].call), log[1..]))
  }

  ghost predicate NeverTakesOver(k: Machine, log: seq<Event>)
    requires IsMachine(k) && PossibleLog(k, log)
    decreases |log|
  {
    log == [] ||
    (StaysAMachine(k, log[0].pid, log[0].call);
     !TakesOver(k, log[0].pid, log[0].call) && NeverTakesOver(After(k, log[0].pid, log[0].call), log[1..]))
  }

  /** Something goes to an unnoticed name. */
  predicate Hides(call: Call) {
    call.Rename? && call.hiding.Some?
  }

  /** Where everything is noticed, none of this happens. */
  lemma {:induction false} NoticedNeverAstray(k: Machine, log: seq<Event>)
    requires IsMachine(k) && PossibleLog(k, log) && k.hidden == map[]
    requires forall i :: 0 <= i < |log| ==> !log[i].call.Appears? && !Hides(log[i].call)
    ensures NeverAstray(k, log) && NeverConfuses(k, log) && NeverTakesOver(k, log)
    decreases |log|
  {
    hide After, Possible, IsMachine, Astray, Confuses, TakesOver;
    if log != [] {
      var pid, call := log[0].pid, log[0].call;
      StaysAMachine(k, pid, call);
      NoticedStays(k, pid, call);
      NoticedNeverAstray(After(k, pid, call), log[1..]);
    }
  }

  lemma NoticedStays(k: Machine, pid: nat, call: Call)
    requires IsMachine(k) && Possible(k, pid, call) && k.hidden == map[] && !call.Appears? && !Hides(call)
    ensures After(k, pid, call).hidden == map[]
    ensures !Astray(k, pid, call) && !Confuses(k, pid, call) && !TakesOver(k, pid, call)
  {
    hide Normal, Split, Below, IsMachine, WriteAt, Resize, NothingBelow;
  }

  lemma NeedsEntry(tree: Tree, path: string, offset: nat, data: seq<Byte>, len: nat, to: string)
    requires path != "" && path !in tree
    ensures Step(tree, Op.Write(path, offset, data)).Failure? && Step(tree, Op.Truncate(path, len)).Failure?
    ensures Step(tree, Op.Unlink(path)).Failure? && Step(tree, Op.Rmdir(path)).Failure?
    ensures Step(tree, Op.Fsync(path)).Failure? && Step(tree, Op.Rename(path, to)).Failure?
  {
  }

  lemma NeedsParent(tree: Tree, path: string)
    requires !ExistsIn(tree, path) && !IsDirIn(tree, Split(path).0)
    ensures Step(tree, Op.Create(path)).Failure? && Step(tree, Op.Mkdir(path)).Failure?
  {
  }
}
