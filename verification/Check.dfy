/** The engine: cached verdicts, minimization, classification and grouping. */
module Check {
  import opened Wrappers
  import opened Trace
  import opened Order
  import opened Sorting
  import opened Runs
  import opened Crash
  import opened Enumerate
  import opened Explorer

  datatype BugKind = TornWrite | Reordering | Unsynced | NonAtomic

  /** Failing states attributed to one cause: the kind of bug and the files whose lost ops trigger it. */
  datatype Group = Group(kind: BugKind, files: seq<string>, occurrences: nat, causes: seq<seq<nat>>)

  datatype Report = Report(states: nat, truncated: bool, failures: nat, groups: seq<Group>)

  // ------------------------------------------------------------- lost and kept

  /** The ops that lost something, in order. */
  ghost predicate IsLost(p: Program, s: Persisted, op: nat)
    requires |s| <= |p.micro|
  {
    exists j :: 0 <= j < |s| && !s[j] && p.micro[j].op == op
  }

  ghost predicate IsFirstLost(s: Persisted, j: int) {
    0 <= j < |s| && !s[j] && forall i :: 0 <= i < j ==> s[i]
  }

  method LostOps(p: Program, s: Persisted) returns (ops: seq<nat>)
    requires |s| <= |p.micro|
    ensures forall op :: op in ops <==> IsLost(p, s, op)
    ensures ops == [] <==> forall j :: 0 <= j < |s| ==> s[j]
    ensures Ascends(Owners(p)) ==> StrictlyAscends(ops)
    ensures forall j :: IsFirstLost(s, j) ==> ops != [] && ops[0] == p.micro[j].op
  {
    var lost: seq<nat> := [];
    for j := 0 to |s|
      invariant Ascends(Owners(p)) ==>
        Ascends(lost) && forall k :: 0 <= k < |lost| ==> j > 0 && lost[k] <= p.micro[j - 1].op
      invariant forall op :: op in lost <==> exists i :: 0 <= i < j && !s[i] && p.micro[i].op == op
      invariant lost == [] <==> forall i :: 0 <= i < j ==> s[i]
      invariant forall i :: IsFirstLost(s, i) && i < j ==> lost != [] && lost[0] == p.micro[i].op
    {
      assert Ascends(Owners(p)) && j > 0 ==> Owners(p)[j - 1] <= Owners(p)[j];
      if !s[j] {
        lost := lost + [p.micro[j].op];
      }
    }
    ops := Dedup(lost);
    assert lost != [] ==> lost[0] in ops;
    assert ops != [] ==> ops[0] in lost;
  }

  // -------------------------------------------------------------- acceptance

  /** Persisting more never turns an accepted state into a rejected one. */
  ghost predicate UpwardClosed(p: Program, checker: Checker, point: nat)
    requires Shaped(p)
  {
    forall a, b :: Legal(p, point, a) && Legal(p, point, b) && Subset(a, b) ==>
      Judge(p, checker, point, a, true) == Accepted ==> Judge(p, checker, point, b, true) == Accepted
  }

  /** Every strictly larger legal state passes. */
  ghost predicate Maximal(p: Program, checker: Checker, point: nat, s: Persisted)
    requires Shaped(p)
  {
    forall q :: Legal(p, point, q) && Subset(s, q) && q != s ==> Judge(p, checker, point, q, true) == Accepted
  }

  /** Every legal state above `s` that persisted micro-op `j` passes. */
  ghost predicate Settled(p: Program, checker: Checker, point: nat, s: Persisted, j: nat)
    requires Shaped(p)
  {
    forall q :: Legal(p, point, q) && Subset(s, q) && j < |q| && q[j] ==> Judge(p, checker, point, q, true) == Accepted
  }

  /** `s` with the micro-ops that `add` picks. */
  ghost function Plus(s: Persisted, add: nat -> bool): (r: Persisted)
    ensures |r| == |s|
  {
    seq(|s|, j requires 0 <= j < |s| => s[j] || add(j))
  }

  function WholeOp(p: Program, op: nat): nat -> bool {
    (j: nat) => j < |p.micro| && p.micro[j].op == op
  }

  ghost function Trial(p: Program, point: nat, s: Persisted, add: nat -> bool): (r: Persisted)
    requires |s| <= |p.micro|
    ensures |r| == |s|
  {
    Closure(p, point, Plus(s, add))
  }

  lemma TrialIsLegal(p: Program, point: nat, s: Persisted, add: nat -> bool)
    requires Legal(p, point, s)
    ensures Legal(p, point, Trial(p, point, s, add)) && Subset(s, Trial(p, point, s, add))
    ensures forall j :: 0 <= j < |s| && add(j) ==> Trial(p, point, s, add)[j]
    ensures forall q :: Legal(p, point, q) && Subset(s, q) && (forall j :: 0 <= j < |s| && add(j) ==> q[j]) ==>
              Subset(Trial(p, point, s, add), q)
  {
    hide Closure, Legal;
    LegalSize(p, point, s);
    ClosureIsLeast(p, point, Plus(s, add));
    forall q | Legal(p, point, q) && Subset(s, q) && (forall j :: 0 <= j < |s| && add(j) ==> q[j])
      ensures Subset(Plus(s, add), q)
    {
    }
  }

  /** If the state still fails with the first op that lost something re-persisted whole, then that op lost
      nothing in `s`. */
  ghost predicate KeepsFirst(p: Program, checker: Checker, point: nat, start: Persisted, s: Persisted)
    requires Shaped(p) && Legal(p, point, start) && |s| == |start|
  {
    forall j, i :: IsFirstLost(start, j) && 0 <= i < |s| && p.micro[i].op == p.micro[j].op && !s[i] ==>
      var trial := Trial(p, point, start, WholeOp(p, p.micro[j].op));
      LegalFits(p, point, trial) && Judge(p, checker, point, trial, true) == Accepted
  }

  lemma FirstWasTried(p: Program, checker: Checker, point: nat, start: Persisted, op: nat, s: Persisted)
    requires Shaped(p) && Legal(p, point, start) && |s| == |start| <= |p.micro|
    requires forall j :: IsFirstLost(start, j) ==> op == p.micro[j].op
    requires var trial := Trial(p, point, start, WholeOp(p, op));
             || s == trial || trial == start
             || (LegalFits(p, point, trial) && Judge(p, checker, point, trial, true) == Accepted)
    ensures KeepsFirst(p, checker, point, start, s)
  {
    hide Closure, Legal, Judge, Trial, Shaped;
    LegalSize(p, point, start);
    TrialIsLegal(p, point, start, WholeOp(p, op));
  }

  lemma FirstStaysKept(p: Program, checker: Checker, point: nat, start: Persisted, s: Persisted, t: Persisted)
    requires Shaped(p) && Legal(p, point, start) && |s| == |start| && Subset(s, t)
    requires KeepsFirst(p, checker, point, start, s)
    ensures KeepsFirst(p, checker, point, start, t)
  {
    hide Closure, Legal, Judge, Trial, Shaped;
    LegalSize(p, point, start);
  }

  /** A passing trial settles the micro-op it re-persisted. */
  lemma PassingTrialSettles(p: Program, checker: Checker, point: nat, s: Persisted, j: nat, add: nat -> bool)
    requires Shaped(p) && Legal(p, point, s) && j < |s| && UpwardClosed(p, checker, point)
    requires forall k :: add(k) <==> k == j
    requires LegalFits(p, point, s) && Judge(p, checker, point, Trial(p, point, s, add), true) == Accepted
    ensures Settled(p, checker, point, s, j)
  {
    hide Closure, Legal, Judge, Trial;
    TrialIsLegal(p, point, s, add);
    var t := Trial(p, point, s, add);
    forall q | Legal(p, point, q) && Subset(s, q) && j < |q| && q[j]
      ensures Judge(p, checker, point, q, true) == Accepted
    {
      assert forall k :: 0 <= k < |s| && add(k) ==> q[k];
      assert Subset(t, q);
    }
  }

  ghost predicate LegalFits(p: Program, point: nat, s: Persisted) {
    point < |p.opEnd| && |s| <= |p.micro|
  }

  lemma SubsetTrans(a: Persisted, b: Persisted, c: Persisted)
    requires Subset(a, b) && Subset(b, c)
    ensures Subset(a, c)
  {
  }

  lemma SettledGrows(p: Program, checker: Checker, point: nat, s: Persisted, t: Persisted, j: nat)
    requires Shaped(p) && Settled(p, checker, point, s, j) && Subset(s, t)
    ensures Settled(p, checker, point, t, j)
  {
    hide Judge, KeepsDurable, MetaInOrder, DataBeforeSize, DataBeforeReplace, Shaped;
    forall q | Legal(p, point, q) && Subset(t, q) && j < |q| && q[j]
      ensures Judge(p, checker, point, q, true) == Accepted
    {
      SubsetTrans(s, t, q);
    }
  }

  /** One single-micro-op trial: afterwards `j` is persisted or settled, and nothing is unsettled. */
  lemma SettleNext(p: Program, checker: Checker, point: nat, s: Persisted, t: Persisted, j: nat, add: nat -> bool)
    requires Shaped(p) && Legal(p, point, s) && Legal(p, point, t) && Subset(s, t) && LegalFits(p, point, s)
    requires j < |s| && !s[j] && (forall k :: add(k) <==> k == j) && UpwardClosed(p, checker, point)
    requires t == s || t == Trial(p, point, s, add)
    requires t != s || Trial(p, point, s, add) == s
             || Judge(p, checker, point, Trial(p, point, s, add), true) == Accepted
    requires forall i :: 0 <= i < j && !s[i] ==> Settled(p, checker, point, s, i)
    ensures forall i :: 0 <= i <= j && !t[i] ==> Settled(p, checker, point, t, i)
  {
    hide Closure, Legal, Judge, Trial, Shaped, Settled, UpwardClosed;
    TrialIsLegal(p, point, s, add);
    if t == s {
      PassingTrialSettles(p, checker, point, s, j, add);
    }
    forall i | 0 <= i < j && !t[i] ensures Settled(p, checker, point, t, i) {
      SettledGrows(p, checker, point, s, t, i);
    }
  }

  lemma AllSettledIsMaximal(p: Program, checker: Checker, point: nat, s: Persisted)
    requires Shaped(p) && Legal(p, point, s)
    requires forall j :: 0 <= j < |s| && !s[j] ==> Settled(p, checker, point, s, j)
    ensures Maximal(p, checker, point, s)
  {
    hide Judge, KeepsDurable, MetaInOrder, DataBeforeSize, DataBeforeReplace;
    forall q | Legal(p, point, q) && Subset(s, q) && q != s ensures Judge(p, checker, point, q, true) == Accepted {
      if forall j :: 0 <= j < |s| && !s[j] ==> !q[j] {
        assert Subset(q, s);
        SubsetsAgree(q, s);
      }
      var j :| 0 <= j < |s| && !s[j] && q[j];
      assert Settled(p, checker, point, s, j);
    }
  }

  /** The state with everything persisted is the largest legal one. */
  ghost function FullyPersisted(p: Program, point: nat): (s: Persisted)
    requires Shaped(p) && point < |p.opEnd|
    ensures |s| == p.opEnd[point]
  {
    seq(p.opEnd[point], j => true)
  }

  lemma FullyPersistedIsLegal(p: Program, point: nat)
    requires Shaped(p) && point < |p.opEnd|
    ensures Legal(p, point, FullyPersisted(p, point))
    ensures forall q :: Legal(p, point, q) ==> Subset(q, FullyPersisted(p, point))
  {
  }

  /** What minimization finds when acceptance only grows with what persisted: nothing is left to
      re-persist exactly when even the fully persisted state is rejected. */
  lemma NonAtomicIffWorkloadIsRejected(p: Program, checker: Checker, point: nat, s: Persisted)
    requires Shaped(p) && Fails(p, checker, point, s) && Maximal(p, checker, point, s)
    ensures point < |p.opEnd|
    ensures (forall j :: 0 <= j < |s| ==> s[j]) <==> Fails(p, checker, point, FullyPersisted(p, point))
  {
    hide Judge, KeepsDurable, MetaInOrder, DataBeforeSize, DataBeforeReplace;
    var all := FullyPersisted(p, point);
    FullyPersistedIsLegal(p, point);
    if forall j :: 0 <= j < |s| ==> s[j] {
      assert Subset(all, s);
      SubsetsAgree(s, all);
    }
  }

  // ---------------------------------------------------------- classification

  /** A later op, with nothing lost and not yet durable, that nevertheless persisted. */
  ghost predicate Survived(p: Program, point: nat, s: Persisted)
    requires |s| <= |p.micro|
  {
    exists i, j :: 0 <= i < j < |s| && !s[i] && s[j] && p.micro[j].durableAt >= point && !IsLost(p, s, p.micro[j].op)
  }

  /** Part of one write op persisted, and part of the op did not. */
  ghost predicate Torn(p: Program, ops: seq<Op>, s: Persisted)
    requires |s| <= |p.micro|
  {
    exists j :: 0 <= j < |s| && s[j] && p.micro[j].m.Write? && IsLost(p, s, p.micro[j].op)
      && p.micro[j].op < |ops| && ops[p.micro[j].op].Write?
  }

  ghost function Classify(p: Program, ops: seq<Op>, point: nat, s: Persisted, durability: bool): BugKind
    requires |s| <= |p.micro|
  {
    if forall j :: 0 <= j < |s| ==> s[j] then NonAtomic
    else if durability then Unsynced
    else if Torn(p, ops, s) then TornWrite
    else if Survived(p, point, s) then Reordering
    else Unsynced
  }

  /** What persisted after the first lost micro-op, and whether part of a write did. */
  method LookAround(p: Program, ops: seq<Op>, point: nat, s: Persisted, lost: seq<nat>)
    returns (survived: bool, torn: bool)
    requires |s| <= |p.micro| && forall j :: 0 <= j < |p.micro| ==> p.micro[j].op < |ops|
    requires (forall op :: op in lost <==> IsLost(p, s, op)) && exists j :: 0 <= j < |s| && !s[j]
    ensures (survived <==> Survived(p, point, s)) && (torn <==> Torn(p, ops, s))
  {
    hide IsLost;
    var firstLost := 0;
    while firstLost < |s| && s[firstLost]
      invariant firstLost <= |s| && forall j :: 0 <= j < firstLost ==> s[j]
    {
      firstLost := firstLost + 1;
    }
    survived, torn := false, false;
    for j := 0 to |s|
      invariant survived <==> exists k :: firstLost <= k < j && s[k] && p.micro[k].durableAt >= point
                                          && !IsLost(p, s, p.micro[k].op)
      invariant torn <==> exists k :: 0 <= k < j && s[k] && p.micro[k].m.Write? && IsLost(p, s, p.micro[k].op)
                                      && ops[p.micro[k].op].Write?
    {
      if j >= firstLost && s[j] && p.micro[j].durableAt >= point && p.micro[j].op !in lost {
        survived := true;
      }
      if s[j] && p.micro[j].m.Write? && p.micro[j].op in lost && ops[p.micro[j].op].Write? {
        torn := true;
      }
    }
    SurvivedFromFirst(p, point, s, firstLost);
  }

  /** `explain`, as far as the kind goes. */
  method Explain(p: Program, ops: seq<Op>, point: nat, s: Persisted, durability: bool) returns (kind: BugKind)
    requires |s| <= |p.micro| && forall j :: 0 <= j < |p.micro| ==> p.micro[j].op < |ops|
    ensures kind == Classify(p, ops, point, s, durability)
    ensures kind == NonAtomic <==> forall j :: 0 <= j < |s| ==> s[j]
    ensures kind == TornWrite <==>
            !durability && exists a, b :: 0 <= a < |s| && 0 <= b < |s| && !s[a] && s[b] && p.micro[b].m.Write?
                                          && p.micro[a].op == p.micro[b].op && ops[p.micro[b].op].Write?
    ensures kind == Reordering <==>
            !durability && kind != TornWrite &&
            exists a, b :: 0 <= a < b < |s| && !s[a] && s[b] && p.micro[b].durableAt >= point
                           && forall c :: 0 <= c < |s| && p.micro[c].op == p.micro[b].op ==> s[c]
  {
    hide Torn, Survived, IsLost;
    SpelledOut(p, ops, point, s);
    var lost := LostOps(p, s);
    if lost == [] {
      return NonAtomic;
    }
    var survived, torn := LookAround(p, ops, point, s, lost);
    kind := if durability then Unsynced else if torn then TornWrite else if survived then Reordering else Unsynced;
  }

  lemma SpelledOut(p: Program, ops: seq<Op>, point: nat, s: Persisted)
    requires |s| <= |p.micro| && forall j :: 0 <= j < |p.micro| ==> p.micro[j].op < |ops|
    ensures Torn(p, ops, s) <==>
            exists a, b :: 0 <= a < |s| && 0 <= b < |s| && !s[a] && s[b] && p.micro[b].m.Write?
                           && p.micro[a].op == p.micro[b].op && ops[p.micro[b].op].Write?
    ensures Survived(p, point, s) <==>
            exists a, b :: 0 <= a < b < |s| && !s[a] && s[b] && p.micro[b].durableAt >= point
                           && forall c :: 0 <= c < |s| && p.micro[c].op == p.micro[b].op ==> s[c]
  {
    if Torn(p, ops, s) {
      var b :| 0 <= b < |s| && s[b] && p.micro[b].m.Write? && IsLost(p, s, p.micro[b].op)
               && ops[p.micro[b].op].Write?;
      var a :| 0 <= a < |s| && !s[a] && p.micro[a].op == p.micro[b].op;
    }
    forall a, b | 0 <= a < |s| && 0 <= b < |s| && !s[a] && p.micro[a].op == p.micro[b].op
      ensures IsLost(p, s, p.micro[b].op)
    {
    }
  }

  lemma SurvivedFromFirst(p: Program, point: nat, s: Persisted, first: nat)
    requires first < |s| <= |p.micro| && !s[first] && forall j :: 0 <= j < first ==> s[j]
    ensures Survived(p, point, s) <==> exists k :: first <= k < |s| && s[k] && p.micro[k].durableAt >= point
                                                   && !IsLost(p, s, p.micro[k].op)
  {
    hide IsLost;
  }

  // -------------------------------------------------------------- the engine

  ghost predicate CacheAgrees(p: Program, checker: Checker, cache: map<Key, Verdict>) {
    forall key :: key in cache ==>
      key.marks <= |p.marks| && cache[key] == checker(key.tree, p.marks[..key.marks])
  }

  function OpPath(op: Op): Option<string> {
    match op
    case Rename(from, _) => Some(from)
    case Sync => None
    case Mark(_) => None
    case _ => Some(op.path)
  }

  /** The files whose lost ops make up a cause. */
  function FilesOf(ops: seq<Op>, cause: seq<nat>): seq<string>
    requires forall o :: o in cause ==> o < |ops|
  {
    Sorted(set o | o in cause && OpPath(ops[o]).Some? :: OpPath(ops[o]).value)
  }

  /** The failure disappears once nothing counts as acknowledged. */
  ghost predicate Durability(p: Program, checker: Checker, point: nat, s: Persisted)
    requires Shaped(p) && LegalFits(p, point, s)
  {
    p.marksBefore[point] > 0 && Judge(p, checker, point, s, false) == Accepted
  }

  /** `s` is a legal failing state that loses exactly the ops of `cause`, of that kind and files. */
  ghost predicate Explains(p: Program, ops: seq<Op>, checker: Checker, point: nat, s: Persisted,
                           kind: BugKind, files: seq<string>, cause: seq<nat>)
    requires Shaped(p)
  {
    && Fails(p, checker, point, s) && (forall op :: op in cause <==> IsLost(p, s, op))
    && kind == Classify(p, ops, point, s, Durability(p, checker, point, s))
    && (forall o :: o in cause ==> o < |ops|) && files == FilesOf(ops, cause)
  }

  /** What a group's kind and causes say, in full: `s` is legal and rejected with the marks before it;
      the cause is the ops that lost something; and the kind depends on what was lost, on whether the
      rejection goes away once nothing counts as acknowledged, and on what persisted beside and after it. */
  lemma KindMeans(p: Program, ops: seq<Op>, checker: Checker, point: nat, s: Persisted, kind: BugKind,
                  files: seq<string>, cause: seq<nat>)
    requires Shaped(p) && Explains(p, ops, checker, point, s, kind, files, cause)
    requires forall j :: 0 <= j < |p.micro| ==> p.micro[j].op < |ops|
    ensures Legal(p, point, s) && point < |p.marksBefore| && p.marksBefore[point] <= |p.marks|
    ensures checker(CrashTree(p, s), p.marks[..p.marksBefore[point]]).Rejected?
    ensures forall o :: o in cause <==> exists j :: 0 <= j < |s| && !s[j] && p.micro[j].op == o
    ensures var excused := p.marksBefore[point] > 0 && checker(CrashTree(p, s), []) == Accepted;
            && (kind == NonAtomic <==> forall j :: 0 <= j < |s| ==> s[j])
            && (kind == TornWrite <==>
                  !excused && exists a, b :: 0 <= a < |s| && 0 <= b < |s| && !s[a] && s[b] && p.micro[b].m.Write?
                                             && p.micro[a].op == p.micro[b].op && ops[p.micro[b].op].Write?)
            && (kind == Reordering <==>
                  !excused && kind != TornWrite
                  && exists a, b :: 0 <= a < b < |s| && !s[a] && s[b] && p.micro[b].durableAt >= point
                       && forall c :: 0 <= c < |s| && p.micro[c].op == p.micro[b].op ==> s[c])
  {
    hide CrashTree, KeepsDurable, MetaInOrder, DataBeforeSize, DataBeforeReplace, Torn, Survived;
    SpelledOut(p, ops, point, s);
  }

  /** The files of a cause: the paths its ops are about, a rename's being its source, each once, in order. */
  lemma FilesAre(ops: seq<Op>, cause: seq<nat>)
    requires forall o :: o in cause ==> o < |ops|
    ensures forall f :: f in FilesOf(ops, cause) <==>
              exists o ::
                && o in cause && 0 <= o < |ops|
                && match ops[o]
                   case Create(path) => path == f
                   case Write(path, _, _) => path == f
                   case Truncate(path, _) => path == f
                   case Rename(from, _) => from == f
                   case Unlink(path) => path == f
                   case Mkdir(path) => path == f
                   case Rmdir(path) => path == f
                   case Fsync(path) => path == f
                   case Sync => false
                   case Mark(_) => false
    ensures forall i, j :: 0 <= i < j < |FilesOf(ops, cause)| ==> Less(FilesOf(ops, cause)[i], FilesOf(ops, cause)[j])
  {
    var keys := set o | o in cause && OpPath(ops[o]).Some? :: OpPath(ops[o]).value;
    forall i: nat, j: nat | i < j < |Sorted(keys)| ensures Less(Sorted(keys)[i], Sorted(keys)[j]) {
      SortedIncreases(keys, i, j);
    }
  }

  ghost predicate Explained(p: Program, ops: seq<Op>, checker: Checker,
                            kind: BugKind, files: seq<string>, cause: seq<nat>)
    requires Shaped(p)
  {
    exists point, s :: Explains(p, ops, checker, point, s, kind, files, cause)
  }

  /** Every cause on record was seen, and no two groups are about the same thing. */
  ghost predicate GroupsAreSound(p: Program, ops: seq<Op>, checker: Checker, groups: seq<Group>)
    requires Shaped(p)
  {
    && (forall g :: g in groups ==> 0 < |g.causes| <= g.occurrences)
    && (forall g, c :: g in groups && c in g.causes ==> Explained(p, ops, checker, g.kind, g.files, c))
    && (forall i, j :: 0 <= i < j < |groups| ==> (groups[i].kind, groups[i].files) != (groups[j].kind, groups[j].files))
  }

  ghost predicate OnRecord(groups: seq<Group>, kind: BugKind, files: seq<string>, cause: seq<nat>) {
    exists i :: 0 <= i < |groups| && groups[i].kind == kind && groups[i].files == files && cause in groups[i].causes
  }

  /** No cause on record is dropped or moved to another kind or other files. */
  ghost predicate KeepsRecord(groups: seq<Group>, out: seq<Group>) {
    forall kind, files, cause :: OnRecord(groups, kind, files, cause) ==> OnRecord(out, kind, files, cause)
  }

  /** Some cause on record lost nothing that this state did not lose too; a cause that lost nothing at all
      accounts for a state only if with everything persisted its own point is rejected. */
  ghost predicate IsAttributed(p: Program, checker: Checker, groups: seq<Group>, point: nat, s: Persisted)
    requires Shaped(p) && point < |p.opEnd| && |s| <= |p.micro|
  {
    exists kind, files, cause ::
      && OnRecord(groups, kind, files, cause) && (forall o :: o in cause ==> IsLost(p, s, o))
      && (cause == [] ==> Fails(p, checker, point, FullyPersisted(p, point)))
  }

  /** The same, with a cause on record under this kind. */
  ghost predicate IsFiledAs(p: Program, groups: seq<Group>, s: Persisted, kind: BugKind)
    requires |s| <= |p.micro|
  {
    exists files, cause :: OnRecord(groups, kind, files, cause) && forall o :: o in cause ==> IsLost(p, s, o)
  }

  /** What is left after minimization is classified by whether anything is lost at all. */
  lemma KindTells(p: Program, ops: seq<Op>, checker: Checker, point: nat, s: Persisted, kind: BugKind)
    requires Shaped(p) && Fails(p, checker, point, s) && LegalFits(p, point, s)
    requires kind == Classify(p, ops, point, s, Durability(p, checker, point, s))
    ensures kind == NonAtomic ==> Fails(p, checker, point, FullyPersisted(p, point))
    ensures Maximal(p, checker, point, s) ==>
              (kind == NonAtomic <==> Fails(p, checker, point, FullyPersisted(p, point)))
  {
    hide Judge, KeepsDurable, MetaInOrder, DataBeforeSize, DataBeforeReplace, Torn, Survived, Durability, Maximal;
    if forall j :: 0 <= j < |s| ==> s[j] {
      assert s == FullyPersisted(p, point);
    }
    if Maximal(p, checker, point, s) {
      NonAtomicIffWorkloadIsRejected(p, checker, point, s);
    }
  }

  lemma RecordAfterCount(groups: seq<Group>, i: nat, g: Group)
    requires i < |groups| && g.kind == groups[i].kind && g.files == groups[i].files && groups[i].causes <= g.causes
    ensures KeepsRecord(groups, groups[i := g])
    ensures forall c :: c in g.causes ==> OnRecord(groups[i := g], g.kind, g.files, c)
  {
    var out := groups[i := g];
    forall kind, files, cause | OnRecord(groups, kind, files, cause) ensures OnRecord(out, kind, files, cause) {
      var k :| 0 <= k < |groups| && groups[k].kind == kind && groups[k].files == files && cause in groups[k].causes;
      assert out[k].kind == kind && cause in out[k].causes;
    }
    assert out[i] == g;
  }

  lemma RecordAfterMore(groups: seq<Group>, g: Group)
    ensures KeepsRecord(groups, groups + [g])
    ensures forall c :: c in g.causes ==> OnRecord(groups + [g], g.kind, g.files, c)
  {
    var out := groups + [g];
    forall kind, files, cause | OnRecord(groups, kind, files, cause) ensures OnRecord(out, kind, files, cause) {
      var k :| 0 <= k < |groups| && groups[k].kind == kind && groups[k].files == files && cause in groups[k].causes;
      assert out[k] == groups[k];
    }
    assert out[|groups|] == g;
  }

  lemma CoveredIsAttributed(p: Program, checker: Checker, groups: seq<Group>, i: nat, point: nat, s: Persisted,
                            lost: seq<nat>)
    requires Shaped(p) && point < |p.opEnd| && |s| <= |p.micro| && i < |groups| && MayExplain(groups[i], lost)
    requires forall op :: op in lost <==> IsLost(p, s, op)
    ensures IsAttributed(p, checker, groups, point, s)
  {
    hide IsLost, Fails, Shaped;
    var c :| c in groups[i].causes && Covers(c, lost);
    assert OnRecord(groups, groups[i].kind, groups[i].files, c);
  }

  lemma StillAttributed(p: Program, checker: Checker, groups: seq<Group>, out: seq<Group>, point: nat, s: Persisted)
    requires Shaped(p) && point < |p.opEnd| && |s| <= |p.micro| && KeepsRecord(groups, out)
    requires IsAttributed(p, checker, groups, point, s)
    ensures IsAttributed(p, checker, out, point, s)
  {
    hide IsLost, OnRecord, Fails, Shaped;
  }

  /** A larger state lost fewer ops. */
  lemma LargerLosesLess(p: Program, s: Persisted, t: Persisted, op: nat)
    requires |s| <= |p.micro| && Subset(s, t) && IsLost(p, t, op)
    ensures IsLost(p, s, op)
  {
  }

  /** A cause on record accounts for the state it was found in. */
  lemma CauseAccounts(p: Program, checker: Checker, groups: seq<Group>, point: nat, start: Persisted, s: Persisted,
                      kind: BugKind, files: seq<string>, cause: seq<nat>)
    requires Shaped(p) && point < |p.opEnd| && |s| <= |p.micro| && Subset(start, s)
    requires OnRecord(groups, kind, files, cause) && forall op :: op in cause <==> IsLost(p, s, op)
    requires cause == [] ==> Fails(p, checker, point, FullyPersisted(p, point))
    ensures IsAttributed(p, checker, groups, point, start) && IsFiledAs(p, groups, start, kind)
  {
    hide Shaped, Fails, OnRecord, IsLost;
    forall o | o in cause ensures IsLost(p, start, o) {
      LargerLosesLess(p, start, s, o);
    }
  }

  function Total(groups: seq<Group>): nat {
    if groups == [] then 0 else Total(groups[..|groups| - 1]) + groups[|groups| - 1].occurrences
  }

  lemma {:induction false} TotalOfChange(groups: seq<Group>, i: nat, g: Group)
    requires i < |groups|
    ensures Total(groups[i := g]) + groups[i].occurrences == Total(groups) + g.occurrences
  {
    var n := |groups| - 1;
    if i < n {
      TotalOfChange(groups[..n], i, g);
      assert groups[i := g][..n] == groups[..n][i := g];
    } else {
      assert groups[i := g][..n] == groups[..n];
    }
  }

  lemma TotalOfMore(groups: seq<Group>, g: Group)
    ensures Total(groups + [g]) == Total(groups) + g.occurrences
  {
    assert (groups + [g])[..|groups|] == groups;
  }

  predicate Covers(cause: seq<nat>, lost: seq<nat>) {
    cause != [] && forall o :: o in cause ==> o in lost
  }

  predicate MayExplain(g: Group, lost: seq<nat>) {
    exists c :: c in g.causes && Covers(c, lost)
  }

  /** The first group one of whose causes is among the lost ops. */
  method FindCovering(groups: seq<Group>, lost: seq<nat>) returns (i: nat)
    ensures i <= |groups| && forall k :: 0 <= k < i ==> !MayExplain(groups[k], lost)
    ensures i < |groups| ==> MayExplain(groups[i], lost)
  {
    i := 0;
    while i < |groups|
      invariant i <= |groups| && forall k :: 0 <= k < i ==> !MayExplain(groups[k], lost)
    {
      if exists c :: c in groups[i].causes && Covers(c, lost) {
        return;
      }
      i := i + 1;
    }
  }

  method FindGroup(groups: seq<Group>, kind: BugKind, files: seq<string>) returns (i: nat)
    ensures i <= |groups|
    ensures i < |groups| ==> groups[i].kind == kind && groups[i].files == files
    ensures i == |groups| ==> forall g :: g in groups ==> (g.kind, g.files) != (kind, files)
  {
    i := 0;
    while i < |groups|
      invariant i <= |groups|
      invariant forall k :: 0 <= k < i ==> (groups[k].kind, groups[k].files) != (kind, files)
    {
      if groups[i].kind == kind && groups[i].files == files {
        return;
      }
      i := i + 1;
    }
  }

  /** One more occurrence, filed under its kind and files. */
  method FileCause(groups: seq<Group>, kind: BugKind, files: seq<string>, cause: seq<nat>,
                   ghost p: Program, ghost ops: seq<Op>, ghost checker: Checker)
    returns (out: seq<Group>)
    requires Shaped(p) && GroupsAreSound(p, ops, checker, groups) && Explained(p, ops, checker, kind, files, cause)
    ensures GroupsAreSound(p, ops, checker, out) && Total(out) == Total(groups) + 1
    ensures out != [] && |out| <= |groups| + 1 && KeepsRecord(groups, out) && OnRecord(out, kind, files, cause)
  {
    hide Shaped, GroupsAreSound, Explained, Total, KeepsRecord, OnRecord;
    var i := FindGroup(groups, kind, files);
    if i < |groups| {
      var g := groups[i].(occurrences := groups[i].occurrences + 1, causes := groups[i].causes + [cause]);
      CountKeepsSound(p, ops, checker, groups, i, g);
      RecordAfterCount(groups, i, g);
      assert g.causes[|g.causes| - 1] == cause && cause in g.causes;
      out := groups[i := g];
    } else {
      var g := Group(kind, files, 1, [cause]);
      NewGroupKeepsSound(p, ops, checker, groups, g);
      RecordAfterMore(groups, g);
      assert g.causes[0] == cause;
      out := groups + [g];
    }
  }

  lemma CountKeepsSound(p: Program, ops: seq<Op>, checker: Checker, groups: seq<Group>, i: nat, g: Group)
    requires Shaped(p) && GroupsAreSound(p, ops, checker, groups) && i < |groups|
    requires g == groups[i].(occurrences := groups[i].occurrences + 1)
             || exists c :: Explained(p, ops, checker, groups[i].kind, groups[i].files, c)
                  && g == groups[i].(occurrences := groups[i].occurrences + 1, causes := groups[i].causes + [c])
    ensures GroupsAreSound(p, ops, checker, groups[i := g])
    ensures Total(groups[i := g]) == Total(groups) + 1
  {
    hide Shaped, Explained;
    TotalOfChange(groups, i, g);
    assert groups[i] in groups;
    assert forall h :: h in groups[i := g] ==> h == g || h in groups;
  }

  lemma NewGroupKeepsSound(p: Program, ops: seq<Op>, checker: Checker, groups: seq<Group>, g: Group)
    requires Shaped(p) && GroupsAreSound(p, ops, checker, groups)
    requires g.occurrences == 1 && |g.causes| == 1 && Explained(p, ops, checker, g.kind, g.files, g.causes[0])
    requires forall h :: h in groups ==> (h.kind, h.files) != (g.kind, g.files)
    ensures GroupsAreSound(p, ops, checker, groups + [g])
    ensures Total(groups + [g]) == Total(groups) + 1
  {
    hide Shaped, Explained;
    TotalOfMore(groups, g);
    forall i | 0 <= i < |groups| ensures groups[i] in groups {}
  }

  // ------------------------------------------------------ what a clean run means

  /** The verdict on a state is a function of its key. */
  lemma JudgeByKey(p: Program, checker: Checker, point: nat, s: Persisted, point': nat, s': Persisted)
    requires Shaped(p) && LegalFits(p, point, s) && LegalFits(p, point', s')
    requires KeyOf(p, point, s, true) == KeyOf(p, point', s', true)
    ensures Judge(p, checker, point, s, true) == Judge(p, checker, point', s', true)
  {
    hide CrashTree;
  }

  lemma NoFailureIffAllAccepted(p: Program, checker: Checker, jobs: seq<Job>, failing: seq<Job>)
    requires Shaped(p) && EveryStateHasJob(p, jobs) && forall job :: job in jobs ==> JobIsSound(p, job)
    requires forall job :: job in failing <==> job in jobs && Fails(p, checker, job.point, job.persisted)
    ensures failing == [] <==> AllAccepted(p, checker)
  {
    hide Shaped, KeyOf, Judge, KeepsDurable, MetaInOrder, DataBeforeSize, DataBeforeReplace;
    if failing == [] {
      forall point, s | Legal(p, point, s) ensures Judge(p, checker, point, s, true) == Accepted {
        assert HasJobBy(jobs, KeyOf(p, point, s, true), point);
        var i :| 0 <= i < |jobs| && jobs[i].key == KeyOf(p, point, s, true);
        assert jobs[i] in jobs;
        JudgeByKey(p, checker, point, s, jobs[i].point, jobs[i].persisted);
      }
    } else {
      assert failing[0] in failing;
    }
  }

  // ---------------------------------------------------------------- counting

  ghost function FailingJobs(p: Program, checker: Checker, jobs: seq<Job>): seq<Job>
    requires Shaped(p)
  {
    if jobs == [] then [] else
    var n := |jobs| - 1;
    FailingJobs(p, checker, jobs[..n]) + (if Fails(p, checker, jobs[n].point, jobs[n].persisted) then [jobs[n]] else [])
  }

  ghost function KeysOf(jobs: seq<Job>): set<Key> {
    set job | job in jobs :: job.key
  }

  lemma {:induction false} FailingAre(p: Program, checker: Checker, jobs: seq<Job>)
    requires Shaped(p)
    ensures forall job :: job in FailingJobs(p, checker, jobs) <==>
              job in jobs && Fails(p, checker, job.point, job.persisted)
  {
    hide Shaped, Fails;
    if jobs != [] {
      var n := |jobs| - 1;
      FailingAre(p, checker, jobs[..n]);
      assert jobs == jobs[..n] + [jobs[n]];
    }
  }

  ghost predicate KeysDiffer(jobs: seq<Job>) {
    forall i, j :: 0 <= i < j < |jobs| ==> jobs[i].key != jobs[j].key
  }

  lemma {:induction false} FailingKeysDiffer(p: Program, checker: Checker, jobs: seq<Job>)
    requires Shaped(p) && KeysDiffer(jobs)
    ensures |KeysOf(FailingJobs(p, checker, jobs))| == |FailingJobs(p, checker, jobs)|
  {
    hide Shaped, Fails, KeysOf;
    if jobs == [] {
      OneMoreKey([], None);
    } else {
      var n := |jobs| - 1;
      FailingKeysDiffer(p, checker, jobs[..n]);
      FailingAre(p, checker, jobs[..n]);
      var before := FailingJobs(p, checker, jobs[..n]);
      forall job | job in before ensures job.key != jobs[n].key {
        var i :| 0 <= i < n && jobs[..n][i] == job;
      }
      OneMoreKey(before, Some(jobs[n]));
      assert before + [] == before;
    }
  }

  lemma OneMoreKey(jobs: seq<Job>, job: Option<Job>)
    ensures KeysOf([]) == {}
    ensures job.Some? ==> KeysOf(jobs + [job.value]) == KeysOf(jobs) + {job.value.key}
    ensures job.Some? && (forall j :: j in jobs ==> j.key != job.value.key) ==> job.value.key !in KeysOf(jobs)
  {
    if job.Some? {
      var more := jobs + [job.value];
      assert forall j :: j in more <==> j in jobs || j == job.value;
      assert job.value in more;
      assert KeysOf(more) == KeysOf(jobs) + {job.value.key};
    }
  }

  /** A checker that does not look at the point. */
  function Forgetting(checker: Checker): PointChecker {
    (tree: Tree, _: nat, marks: seq<string>) => checker(tree, marks)
  }

  lemma ForgetsThePoint(p: Program, checker: Checker, point: nat, s: Persisted)
    requires Shaped(p) && Legal(p, point, s)
    ensures LegalFits(p, point, s) && |p.marksBefore| == |p.opEnd| && p.marksBefore[point] <= |p.marks|
    ensures JudgeAt(p, Forgetting(checker), point, s) == checker(CrashTree(p, s), p.marks[..p.marksBefore[point]])
  {
    hide CrashTree, KeepsDurable, MetaInOrder, DataBeforeSize, DataBeforeReplace;
  }

  /** The workers: each job's state is materialized and shown, with its point and the marks before it. */
  method JudgeJobs(p: Program, jobs: seq<Job>, reader: PointChecker) returns (verdicts: seq<Verdict>)
    requires Shaped(p) && forall job :: job in jobs ==> JobIsSound(p, job)
    ensures |verdicts| == |jobs| && forall i :: 0 <= i < |jobs| ==>
              LegalFits(p, jobs[i].point, jobs[i].persisted)
              && verdicts[i] == JudgeAt(p, reader, jobs[i].point, jobs[i].persisted)
  {
    hide CrashTree, KeepsDurable, MetaInOrder, DataBeforeSize, DataBeforeReplace;
    verdicts := [];
    for i := 0 to |jobs|
      invariant |verdicts| == i && forall j :: 0 <= j < i ==>
        LegalFits(p, jobs[j].point, jobs[j].persisted)
        && verdicts[j] == JudgeAt(p, reader, jobs[j].point, jobs[j].persisted)
    {
      var job := jobs[i];
      assert job in jobs;
      LegalSize(p, job.point, job.persisted);
      var tree := Materialize(p, job.persisted);
      verdicts := verdicts + [reader(tree, job.point, p.marks[..p.marksBefore[job.point]])];
    }
  }

  /** `keys` are distinct contents and acknowledgements of failing states; of all of them, if `complete`. */
  ghost predicate AreFailing(p: Program, checker: Checker, keys: set<Key>, complete: bool)
    requires Shaped(p)
  {
    && (forall key :: key in keys ==> exists point, s :: Fails(p, checker, point, s) && key == KeyOf(p, point, s, true))
    && (complete ==> forall point: nat, s :: Fails(p, checker, point, s) ==> KeyOf(p, point, s, true) in keys)
  }

  /** A failure for each distinct (tree, marks) that is rejected. */
  ghost predicate Counts(p: Program, checker: Checker, failures: nat, complete: bool)
    requires Shaped(p)
  {
    exists keys :: |keys| == failures && AreFailing(p, checker, keys, complete)
  }

  lemma FailuresAreCounted(p: Program, checker: Checker, jobs: seq<Job>, complete: bool)
    requires Shaped(p) && JobsAreSound(p, jobs) && (complete ==> EveryStateHasJob(p, jobs))
    ensures Counts(p, checker, |FailingJobs(p, checker, jobs)|, complete)
  {
    hide Shaped, KeyOf, Judge, KeepsDurable, MetaInOrder, DataBeforeSize, DataBeforeReplace, FailingJobs;
    FailingAre(p, checker, jobs);
    FailingKeysDiffer(p, checker, jobs);
    var failing := FailingJobs(p, checker, jobs);
    var keys := KeysOf(failing);
    forall key | key in keys
      ensures exists point, s :: Fails(p, checker, point, s) && key == KeyOf(p, point, s, true)
    {
      var job :| job in failing && job.key == key;
      assert JobIsSound(p, job);
    }
    if complete {
      forall point: nat, s | Fails(p, checker, point, s) ensures KeyOf(p, point, s, true) in keys {
        assert HasJobBy(jobs, KeyOf(p, point, s, true), point);
        var i :| 0 <= i < |jobs| && jobs[i].key == KeyOf(p, point, s, true);
        assert JobIsSound(p, jobs[i]);
        JudgeByKey(p, checker, point, s, jobs[i].point, jobs[i].persisted);
        assert jobs[i] in failing;
      }
    }
    assert AreFailing(p, checker, keys, complete);
  }

  // ------------------------------------------------------------------- order

  function CountLost(s: Persisted): nat {
    if s == [] then 0 else CountLost(s[..|s| - 1]) + (if s[|s| - 1] then 0 else 1)
  }

  /** Simplest first: earliest point, then fewest lost micro-ops. */
  predicate NoLater(a: Job, b: Job) {
    a.point < b.point || (a.point == b.point && CountLost(a.persisted) <= CountLost(b.persisted))
  }

  lemma NoLaterIsOrder()
    ensures IsOrder(NoLater)
  {
  }

  method SortFailing(failing: seq<Job>) returns (out: seq<Job>)
    ensures multiset(out) == multiset(failing) && InOrder(out, NoLater)
    ensures forall i, j :: 0 <= i < j < |out| && out[i].point >= out[j].point ==>
              out[i].point == out[j].point && |LostIn(out[i].persisted)| <= |LostIn(out[j].persisted)|
  {
    hide NoLater;
    NoLaterIsOrder();
    out := Sort(failing, NoLater);
    forall i, j | 0 <= i < j < |out| && out[i].point >= out[j].point
      ensures out[i].point == out[j].point && |LostIn(out[i].persisted)| <= |LostIn(out[j].persisted)|
    {
      assert NoLater(out[i], out[j]);
      FewerLost(out[i], out[j]);
    }
  }

  function LostIn(s: Persisted): set<nat> {
    set j | 0 <= j < |s| && !s[j]
  }

  lemma {:induction false} CountsLost(s: Persisted)
    ensures CountLost(s) == |LostIn(s)|
  {
    if s != [] {
      var n := |s| - 1;
      CountsLost(s[..n]);
      assert LostIn(s) == LostIn(s[..n]) + (if s[n] then {} else {n});
    }
  }

  lemma FewerLost(a: Job, b: Job)
    requires NoLater(a, b) && a.point >= b.point
    ensures a.point == b.point && |LostIn(a.persisted)| <= |LostIn(b.persisted)|
  {
    CountsLost(a.persisted);
    CountsLost(b.persisted);
  }

  // ------------------------------------------------------------------- calls

  /** What the checker was called with. */
  datatype Call = Call(point: nat, tree: Tree, marks: seq<string>)

  /** The checker was shown a legal crash state and the marks before it. */
  ghost predicate IsOwnCall(p: Program, call: Call)
    requires Shaped(p)
  {
    exists s :: Legal(p, call.point, s) && call.tree == CrashTree(p, s)
                && call.marks == p.marks[..p.marksBefore[call.point]]
  }

  ghost predicate IsShown(calls: seq<Call>, tree: Tree) {
    exists i :: 0 <= i < |calls| && calls[i].tree == tree
  }

  /** Every call is that, or shows a tree again, with no marks, that was shown before. */
  ghost predicate AreReal(p: Program, calls: seq<Call>)
    requires Shaped(p)
  {
    forall i :: 0 <= i < |calls| ==>
      IsOwnCall(p, calls[i]) || (calls[i].marks == [] && IsShown(calls[..i], calls[i].tree))
  }

  /** The first `n` calls show crash states as they are; they are those of the jobs. */
  ghost predicate StartsWithJobs(p: Program, calls: seq<Call>, n: nat)
    requires Shaped(p)
  {
    n <= |calls| && forall i :: 0 <= i < n ==> IsOwnCall(p, calls[i])
  }

  ghost predicate CacheWasShown(cache: map<Key, Verdict>, calls: seq<Call>) {
    forall key :: key in cache ==> IsShown(calls, key.tree)
  }

  lemma OneMoreCall(p: Program, calls: seq<Call>, call: Call, s: Persisted)
    requires Shaped(p) && AreReal(p, calls) && Legal(p, call.point, s) && call.tree == CrashTree(p, s)
    requires call.marks == p.marks[..p.marksBefore[call.point]] || (call.marks == [] && IsShown(calls, call.tree))
    ensures AreReal(p, calls + [call]) && IsShown(calls + [call], call.tree)
  {
    hide CrashTree, KeepsDurable, MetaInOrder, DataBeforeSize, DataBeforeReplace;
    var more := calls + [call];
    assert more[|calls|] == call && more[..|calls|] == calls;
    forall i | 0 <= i < |calls|
      ensures IsOwnCall(p, more[i]) || (more[i].marks == [] && IsShown(more[..i], more[i].tree))
    {
      assert more[..i] == calls[..i];
    }
  }

  lemma StillShown(calls: seq<Call>, more: seq<Call>, cache: map<Key, Verdict>, key: Key, v: Verdict)
    requires calls <= more && CacheWasShown(cache, calls)
    ensures forall tree :: IsShown(calls, tree) ==> IsShown(more, tree)
    ensures CacheWasShown(cache, more) && (IsShown(more, key.tree) ==> CacheWasShown(cache[key := v], more))
  {
    forall tree | IsShown(calls, tree) ensures IsShown(more, tree) {
      var i :| 0 <= i < |calls| && calls[i].tree == tree;
      assert more[i].tree == tree;
    }
  }

  /** Call `i` shows this state with the marks before it, for a crash no later; and no call before that is
      for a later crash. */
  ghost predicate ShowsFirst(p: Program, calls: seq<Call>, point: nat, s: Persisted, i: nat)
    requires Shaped(p) && LegalFits(p, point, s) && |p.marksBefore| == |p.opEnd|
  {
    && i < |calls| && calls[i].tree == CrashTree(p, s) && calls[i].marks == p.marks[..p.marksBefore[point]]
    && calls[i].point <= point && forall j :: 0 <= j < i ==> calls[j].point <= calls[i].point
  }

  /** The checker saw every legal crash state with the marks before it, earlier crashes first. */
  ghost predicate SawEverything(p: Program, calls: seq<Call>)
    requires Shaped(p)
  {
    forall point: nat, s :: Legal(p, point, s) ==> exists i :: ShowsFirst(p, calls, point, s, i)
  }

  /** The calls of the jobs, in order. */
  ghost predicate CalledInOrder(p: Program, jobs: seq<Job>, calls: seq<Call>)
    requires Shaped(p)
  {
    |jobs| == |calls| && forall i :: 0 <= i < |jobs| ==>
      && LegalFits(p, jobs[i].point, jobs[i].persisted)
      && calls[i] == Call(jobs[i].point, CrashTree(p, jobs[i].persisted), p.marks[..p.marksBefore[jobs[i].point]])
  }

  lemma JobsShowEverything(p: Program, jobs: seq<Job>, calls: seq<Call>, last: nat)
    requires Shaped(p) && EveryStateHasJob(p, jobs) && forall job :: job in jobs ==> JobIsSound(p, job)
    requires CalledInOrder(p, jobs, calls) && JobsAscend(jobs, last)
    ensures SawEverything(p, calls)
  {
    hide CrashTree, KeepsDurable, MetaInOrder, DataBeforeSize, DataBeforeReplace;
    forall point: nat, s | Legal(p, point, s) ensures exists i :: ShowsFirst(p, calls, point, s, i) {
      assert HasJobBy(jobs, KeyOf(p, point, s, true), point);
      var i :| 0 <= i < |jobs| && jobs[i].key == KeyOf(p, point, s, true) && jobs[i].point <= point;
      assert jobs[i] in jobs;
      SameMarksSameCount(p, point, jobs[i].point);
      assert ShowsFirst(p, calls, point, s, i);
    }
  }

  lemma JobsAreShown(p: Program, jobs: seq<Job>, calls: seq<Call>)
    requires Shaped(p) && CalledInOrder(p, jobs, calls) && forall job :: job in jobs ==> JobIsSound(p, job)
    ensures |calls| == |jobs| && forall i :: 0 <= i < |calls| ==> IsOwnCall(p, calls[i])
  {
    hide CrashTree, KeepsDurable, MetaInOrder, DataBeforeSize, DataBeforeReplace;
    forall i | 0 <= i < |calls| ensures IsOwnCall(p, calls[i]) {
      assert jobs[i] in jobs;
      assert Legal(p, calls[i].point, jobs[i].persisted);
    }
  }

  lemma SameMarksSameCount(p: Program, a: nat, b: nat)
    requires Shaped(p) && a < |p.marksBefore| && b < |p.marksBefore| && p.marksBefore[a] == p.marksBefore[b]
    ensures p.marksBefore[a] <= |p.marks| && p.marks[..p.marksBefore[a]] == p.marks[..p.marksBefore[b]]
  {
  }

  lemma ShownStays(calls: seq<Call>, more: seq<Call>, tree: Tree)
    requires calls <= more && IsShown(calls, tree)
    ensures IsShown(more, tree)
  {
    var i :| 0 <= i < |calls| && calls[i].tree == tree;
    assert more[i].tree == tree;
  }

  lemma CachedWasShown(calls: seq<Call>, cache: map<Key, Verdict>)
    requires CacheWasShown(cache, calls)
    ensures forall key :: key in cache ==> IsShown(calls, key.tree)
  {
    hide IsShown;
  }

  lemma NoneFail(p: Program, checker: Checker)
    requires Shaped(p)
    ensures FailingJobs(p, checker, []) == []
  {
  }

  lemma JobIsJudged(p: Program, checker: Checker, jobs: seq<Job>, i: nat, v: Verdict)
    requires Shaped(p) && i < |jobs| && JobIsSound(p, jobs[i]) && LegalFits(p, jobs[i].point, jobs[i].persisted)
    requires v == Judge(p, checker, jobs[i].point, jobs[i].persisted, true)
    ensures FailingJobs(p, checker, jobs[..i + 1]) ==
            FailingJobs(p, checker, jobs[..i]) + (if v.Rejected? then [jobs[i]] else [])
  {
    hide Shaped, Judge;
    assert jobs[..i + 1][..i] == jobs[..i];
  }

  lemma OneMoreCached(p: Program, checker: Checker, cache: map<Key, Verdict>, job: Job, v: Verdict)
    requires Shaped(p) && CacheAgrees(p, checker, cache) && JobIsSound(p, job) && LegalFits(p, job.point, job.persisted)
    requires v == Judge(p, checker, job.point, job.persisted, true)
    ensures CacheAgrees(p, checker, cache[job.key := v])
  {
    hide CrashTree;
  }

  class Engine {
    const program: Program
    const ops: seq<Op>
    const checker: Checker
    var cache: map<Key, Verdict>
    var calls: seq<Call>

    constructor (program: Program, ops: seq<Op>, checker: Checker)
      requires Shaped(program) && forall j :: 0 <= j < |program.micro| ==> program.micro[j].op < |ops|
      ensures Valid() && this.program == program && this.ops == ops && this.checker == checker && calls == []
    {
      this.program, this.ops, this.checker, cache, calls := program, ops, checker, map[], [];
    }

    /** Every cached verdict is the checker's own. */
    ghost predicate Valid()
      reads this
    {
      && Shaped(program) && (forall j :: 0 <= j < |program.micro| ==> program.micro[j].op < |ops|)
      && CacheAgrees(program, checker, cache) && AreReal(program, calls) && CacheWasShown(cache, calls)
    }

    /** The verdict on one state, asked for once per contents and marks. */
    method VerdictOf(point: nat, s: Persisted, withMarks: bool) returns (v: Verdict)
      requires Valid() && Legal(program, point, s) && (!withMarks ==> IsShown(calls, CrashTree(program, s)))
      modifies this
      ensures Valid() && LegalFits(program, point, s) && v == Judge(program, checker, point, s, withMarks)
      ensures old(calls) <= calls && IsShown(calls, CrashTree(program, s))
    {
      hide CrashTree, KeepsDurable, MetaInOrder, DataBeforeSize, DataBeforeReplace, AreReal, IsShown, CacheWasShown;
      CachedWasShown(calls, cache);
      ShapedBounds(program, point);
      var tree := Materialize(program, s);
      var n := if withMarks then program.marksBefore[point] else 0;
      var key := Key(tree, n);
      assert withMarks || program.marks[..0] == [];
      if key in cache {
        return cache[key];
      }
      var marks := if withMarks then program.marks[..n] else [];
      v := checker(tree, marks);
      OneMoreCall(program, calls, Call(point, tree, marks), s);
      StillShown(calls, calls + [Call(point, tree, marks)], cache, key, v);
      calls := calls + [Call(point, tree, marks)];
      cache := cache[key := v];
    }

    /** Re-persist what `add` picks if the state then still fails. */
    method TryAdd(point: nat, s: Persisted, add: nat -> bool, message: string)
      returns (out: Persisted, message': string)
      requires Valid() && Legal(program, point, s) && Judge(program, checker, point, s, true) == Rejected(message)
      requires IsShown(calls, CrashTree(program, s))
      modifies this
      ensures Valid() && Legal(program, point, out) && Subset(s, out)
      ensures Judge(program, checker, point, out, true) == Rejected(message')
      ensures out == s || out == Trial(program, point, s, add)
      ensures out != s || Trial(program, point, s, add) == s
              || Judge(program, checker, point, Trial(program, point, s, add), true) == Accepted
      ensures old(calls) <= calls && IsShown(calls, CrashTree(program, out))
    {
      hide Closure, Legal, Judge, Shaped, CacheAgrees, AreReal, IsShown, CacheWasShown, CrashTree;
      LegalSize(program, point, s);
      TrialIsLegal(program, point, s, add);
      ShapedBounds(program, point);
      var trial := new bool[|s|](j requires 0 <= j < |s| => s[j] || add(j));
      assert trial[..] == Plus(s, add);
      Close(program, point, trial);
      var closed := trial[..];
      out, message' := s, message;
      if closed != s {
        var v := VerdictOf(point, closed, true);
        ShownStays(old(calls), calls, CrashTree(program, s));
        if v.Rejected? {
          out, message' := closed, v.message;
        }
      }
    }

    /** Greedily re-persist lost ops, then single micro-ops, while the state keeps failing: a legal
        failing superset of the start, and a maximal one if acceptance is upward closed. */
    method Minimize(point: nat, start: Persisted) returns (s: Persisted, message: string)
      requires Valid() && Fails(program, checker, point, start)
      modifies this
      ensures Valid() && Legal(program, point, s) && Subset(start, s)
      ensures Judge(program, checker, point, s, true) == Rejected(message)
      ensures UpwardClosed(program, checker, point) ==> Maximal(program, checker, point, s)
      ensures KeepsFirst(program, checker, point, start, s)
      ensures old(calls) <= calls && IsShown(calls, CrashTree(program, s))
    {
      hide Closure, Legal, Judge, Shaped, CacheAgrees, AreReal, IsShown, CacheWasShown, CrashTree, Trial, Settled,
        UpwardClosed, Maximal;
      LegalSize(program, point, start);
      var first := VerdictOf(point, start, true);
      s, message := start, first.message;
      var lost := LostOps(program, start);
      for k := 0 to |lost|
        invariant Valid() && Legal(program, point, s) && Subset(start, s) && old(calls) <= calls
        invariant |s| <= |program.micro| && IsShown(calls, CrashTree(program, s))
        invariant Judge(program, checker, point, s, true) == Rejected(message)
        invariant if k == 0 then s == start else KeepsFirst(program, checker, point, start, s)
      {
        var op := lost[k];
        ghost var before := s;
        s, message := TryAdd(point, s, WholeOp(program, op), message);
        if k == 0 {
          FirstWasTried(program, checker, point, start, op, s);
        } else {
          FirstStaysKept(program, checker, point, start, before, s);
        }
      }
      if lost == [] {
        assert KeepsFirst(program, checker, point, start, s);
      }
      ghost var upward := UpwardClosed(program, checker, point);
      for j := 0 to |s|
        invariant Valid() && Legal(program, point, s) && Subset(start, s) && old(calls) <= calls
        invariant |s| <= |program.micro| && IsShown(calls, CrashTree(program, s))
        invariant Judge(program, checker, point, s, true) == Rejected(message)
        invariant upward ==> forall i :: 0 <= i < j && !s[i] ==> Settled(program, checker, point, s, i)
        invariant KeepsFirst(program, checker, point, start, s)
      {
        if !s[j] {
          var add := (k: nat) => k == j;
          var t, m := TryAdd(point, s, add, message);
          FirstStaysKept(program, checker, point, start, s, t);
          if upward {
            SettleNext(program, checker, point, s, t, j, add);
          }
          s, message := t, m;
        }
      }
      if upward {
        AllSettledIsMaximal(program, checker, point, s);
      }
    }

    /** Step 2: check every job, remember the verdicts, collect the failures in job order. */
    method CheckJobs(jobs: seq<Job>) returns (failing: seq<Job>)
      requires Valid() && calls == [] && forall job :: job in jobs ==> JobIsSound(program, job)
      modifies this
      ensures Valid() && failing == FailingJobs(program, checker, jobs) && |failing| <= |jobs|
      ensures CalledInOrder(program, jobs, calls)
    {
      hide Shaped, CrashTree, Legal, AreReal, CacheAgrees, IsShown, CacheWasShown, FailingJobs, Fails;
      failing := [];
      assert jobs[..0] == [];
      NoneFail(program, checker);
      var verdicts := JudgeJobs(program, jobs, Forgetting(checker));
      for i := 0 to |jobs|
        invariant Valid() && |failing| <= i && failing == FailingJobs(program, checker, jobs[..i])
        invariant CalledInOrder(program, jobs[..i], calls)
      {
        var job := jobs[i];
        assert job in jobs && jobs[..i + 1] == jobs[..i] + [job];
        LegalSize(program, job.point, job.persisted);
        ShapedBounds(program, job.point);
        var tree := Materialize(program, job.persisted);
        var marks := program.marks[..program.marksBefore[job.point]];
        var v := verdicts[i];
        ForgetsThePoint(program, checker, job.point, job.persisted);
        OneMoreCall(program, calls, Call(job.point, tree, marks), job.persisted);
        StillShown(calls, calls + [Call(job.point, tree, marks)], cache, job.key, v);
        calls := calls + [Call(job.point, tree, marks)];
        JobIsJudged(program, checker, jobs, i, v);
        if v.Rejected? {
          failing := failing + [job];
        }
        OneMoreCached(program, checker, cache, job, v);
        cache := cache[job.key := v];
      }
      assert jobs[..|jobs|] == jobs;
    }

    /** Explore, check, minimize, group. */
    method Run(search: Search, maxStates: nat, explain: nat, coin: (nat, nat) -> (nat, nat) -> bool)
      returns (report: Report)
      requires Valid() && calls == [] && search.exhaustiveLimit < 64
      modifies this
      ensures Valid() && report.states <= maxStates && report.failures <= report.states
      ensures Counts(program, checker, report.failures, !report.truncated && Exhaustive(program, search))
      ensures report.failures > 0 ==> exists point, s :: Fails(program, checker, point, s)
      ensures !report.truncated && Exhaustive(program, search) ==>
                (report.failures == 0 <==> AllAccepted(program, checker))
      ensures GroupsAreSound(program, ops, checker, report.groups) && Total(report.groups) <= report.failures
      ensures report.failures <= explain ==> Total(report.groups) == report.failures
      ensures report.failures > 0 && explain > 0 ==> report.groups != []
      ensures StartsWithJobs(program, calls, report.states)
      ensures !report.truncated && Exhaustive(program, search) ==>
                SawEverything(program, calls) && SawEverything(program, calls[..report.states])
    {
      hide Counts, FailingJobs, AreReal, IsShown, CacheWasShown, SawEverything, CalledInOrder, Shaped, CacheAgrees,
        JobIsSound, Fails, EveryStateHasJob, GroupsAreSound, Exhaustive, AllAccepted, IsOwnCall;
      var jobs, truncated := Jobs(program, search, maxStates, coin);
      assert forall job :: job in jobs ==> JobIsSound(program, job);
      var failing := CheckJobs(jobs);
      FailingAre(program, checker, jobs);
      FailuresAreCounted(program, checker, jobs, !truncated && Exhaustive(program, search));
      if !truncated && Exhaustive(program, search) {
        NoFailureIffAllAccepted(program, checker, jobs, failing);
        JobsShowEverything(program, jobs, calls, |program.opEnd|);
      }
      ghost var seen := calls;
      JobsAreShown(program, jobs, seen);
      var ordered := SortFailing(failing);
      SameElements(ordered, failing);
      assert failing != [] ==> failing[0] in failing;
      var groups, skipped := GroupFailures(ordered, explain);
      assert calls[..|jobs|] == seen;
      if !truncated && Exhaustive(program, search) {
        StillSawEverything(program, seen, calls);
      }
      report := Report(|jobs|, truncated, |failing|, groups);
    }

    /** Step 3: attribute every failing state to a group, minimizing at most `explain` of them. Each
        is counted once, unless the limit was reached and it matches no cause on record. */
    method GroupFailures(failing: seq<Job>, explain: nat) returns (groups: seq<Group>, skipped: nat)
      requires Valid() && forall job :: job in failing ==> Fails(program, checker, job.point, job.persisted)
      modifies this
      ensures Valid() && GroupsAreSound(program, ops, checker, groups)
      ensures Total(groups) + skipped == |failing| && |groups| <= explain
      ensures failing != [] && explain > 0 ==> groups != []
      ensures |failing| <= explain ==> skipped == 0 && forall job :: job in failing ==>
                job.point < |program.opEnd| && |job.persisted| <= |program.micro|
                && IsAttributed(program, checker, groups, job.point, job.persisted)
      ensures old(calls) <= calls
    {
      hide AreReal, IsShown, CacheWasShown, Shaped, CacheAgrees, GroupsAreSound, Fails, Explained, Total,
        IsAttributed, KeepsRecord, IsLost, MayExplain;
      groups, skipped := [], 0;
      var minimized := 0;
      NoGroups(program, ops, checker);
      for n := 0 to |failing|
        invariant Valid() && GroupsAreSound(program, ops, checker, groups) && old(calls) <= calls
        invariant Total(groups) + skipped == n && |groups| <= minimized <= explain && minimized <= n
        invariant n > 0 && explain > 0 ==> groups != []
        invariant |failing| <= explain ==> skipped == 0 && forall k :: 0 <= k < n ==>
                    failing[k].point < |program.opEnd| && |failing[k].persisted| <= |program.micro|
                    && IsAttributed(program, checker, groups, failing[k].point, failing[k].persisted)
      {
        ghost var before := groups;
        var job := failing[n];
        assert job in failing;
        FailsFits(program, checker, job.point, job.persisted);
        var lost := LostOps(program, job.persisted);
        var i := FindCovering(groups, lost);
        if i < |groups| {
          var g := groups[i].(occurrences := groups[i].occurrences + 1);
          CountKeepsSound(program, ops, checker, groups, i, g);
          CoveredIsAttributed(program, checker, groups, i, job.point, job.persisted, lost);
          RecordAfterCount(groups, i, g);
          groups := groups[i := g];
          StillAttributed(program, checker, before, groups, job.point, job.persisted);
        } else if minimized == explain {
          skipped := skipped + 1;
        } else {
          minimized := minimized + 1;
          ghost var kind: BugKind;
          groups, kind := Attribute(job, groups);
        }
        if |failing| <= explain {
          forall k | 0 <= k < n
            ensures IsAttributed(program, checker, groups, failing[k].point, failing[k].persisted)
          {
            StillAttributed(program, checker, before, groups, failing[k].point, failing[k].persisted);
          }
        }
      }
    }

    /** Minimize one failing state, classify it and file it. A state filed as not atomic is rejected even
        with everything persisted; where acceptance is upward closed, every such state is filed so. */
    method Attribute(job: Job, groups: seq<Group>) returns (out: seq<Group>, ghost kind: BugKind)
      requires Valid() && Fails(program, checker, job.point, job.persisted)
               && GroupsAreSound(program, ops, checker, groups)
      modifies this
      ensures Valid() && GroupsAreSound(program, ops, checker, out)
      ensures Total(out) == Total(groups) + 1 && out != [] && |out| <= |groups| + 1
      ensures KeepsRecord(groups, out)
      ensures |job.persisted| <= |program.micro| && job.point < |program.opEnd|
      ensures IsAttributed(program, checker, out, job.point, job.persisted)
      ensures IsFiledAs(program, out, job.persisted, kind)
      ensures kind == NonAtomic ==> Fails(program, checker, job.point, FullyPersisted(program, job.point))
      ensures UpwardClosed(program, checker, job.point) ==>
                (kind == NonAtomic <==> Fails(program, checker, job.point, FullyPersisted(program, job.point)))
      ensures old(calls) <= calls
    {
      hide AreReal, IsShown, CacheWasShown, CrashTree, Shaped, CacheAgrees, GroupsAreSound, Explained, Total, Judge,
        Legal, Classify, KeepsRecord, IsLost, OnRecord, Maximal, UpwardClosed, IsAttributed, IsFiledAs;
      FailsFits(program, checker, job.point, job.persisted);
      var point := job.point;
      var s, message := Minimize(point, job.persisted);
      FailsFits(program, checker, point, s);
      var durability := false;
      if program.marksBefore[point] > 0 {
        var v := VerdictOf(point, s, false);
        durability := v.Accepted?;
      }
      assert durability <==> Durability(program, checker, point, s);
      var found := Explain(program, ops, point, s, durability);
      kind := found;
      KindTells(program, ops, checker, point, s, kind);
      var cause := LostOps(program, s);
      LostAreOps(program, ops, s, cause);
      var files := FilesOf(ops, cause);
      assert Explains(program, ops, checker, point, s, kind, files, cause);
      ItIsExplained(program, ops, checker, point, s, kind, files, cause);
      out := FileCause(groups, found, files, cause, program, ops, checker);
      CauseAccounts(program, checker, out, point, job.persisted, s, kind, files, cause);
    }
  }

  lemma StillSawEverything(p: Program, before: seq<Call>, calls: seq<Call>)
    requires Shaped(p) && SawEverything(p, before) && before <= calls
    ensures SawEverything(p, calls)
  {
    hide CrashTree, KeepsDurable, MetaInOrder, DataBeforeSize, DataBeforeReplace;
    forall point: nat, s | Legal(p, point, s) ensures exists i :: ShowsFirst(p, calls, point, s, i) {
      var i :| ShowsFirst(p, before, point, s, i);
      assert ShowsFirst(p, calls, point, s, i);
    }
  }

  lemma NoGroups(p: Program, ops: seq<Op>, checker: Checker)
    requires Shaped(p)
    ensures GroupsAreSound(p, ops, checker, []) && Total([]) == 0
  {
  }

  lemma FailsFits(p: Program, checker: Checker, point: nat, s: Persisted)
    requires Shaped(p) && Fails(p, checker, point, s)
    ensures LegalFits(p, point, s) && |p.marksBefore| == |p.opEnd| && Legal(p, point, s)
    ensures Judge(p, checker, point, s, true).Rejected?
  {
  }

  lemma LostAreOps(p: Program, ops: seq<Op>, s: Persisted, cause: seq<nat>)
    requires |s| <= |p.micro| && (forall j :: 0 <= j < |p.micro| ==> p.micro[j].op < |ops|)
    requires forall op :: op in cause <==> IsLost(p, s, op)
    ensures forall o :: o in cause ==> o < |ops|
  {
  }

  lemma ItIsExplained(p: Program, ops: seq<Op>, checker: Checker, point: nat, s: Persisted,
                      kind: BugKind, files: seq<string>, cause: seq<nat>)
    requires Shaped(p) && Explains(p, ops, checker, point, s, kind, files, cause)
    ensures Explained(p, ops, checker, kind, files, cause)
  {
    hide Explains;
  }
}
