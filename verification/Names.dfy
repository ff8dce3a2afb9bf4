/** What a tracker knows of names and lengths, against the tree there is. */
module Names {
  import opened Wrappers
  import opened Trace
  import opened Paths
  import opened Reference
  import opened Kernel

  // ---------------------------------------------- what is tracked of names

  /** The tracked files, lengths and directories are those of `tree`. */
  ghost predicate NamesAgree(sizes: map<string, nat>, dirs: set<string>, tree: Tree) {
    && (forall p :: p in sizes <==> p in tree && tree[p].File?)
    && (forall p :: p in sizes && p in tree && tree[p].File? ==> sizes[p] == |tree[p].data|)
    && (forall p :: p in dirs <==> p == "" || (p in tree && tree[p].Dir?))
    && "" !in tree
  }

  lemma FileIsSet(sizes: map<string, nat>, dirs: set<string>, tree: Tree, path: string, data: seq<Byte>)
    requires NamesAgree(sizes, dirs, tree) && path != "" && (path in tree ==> tree[path].File?)
    ensures NamesAgree(sizes[path := |data|], dirs, tree[path := File(data)])
  {
  }

  lemma DirIsMade(sizes: map<string, nat>, dirs: set<string>, tree: Tree, path: string)
    requires NamesAgree(sizes, dirs, tree) && path !in tree && path != ""
    ensures NamesAgree(sizes, dirs + {path}, tree[path := Dir])
  {
  }

  lemma EntriesGo(sizes: map<string, nat>, dirs: set<string>, tree: Tree, path: string)
    requires NamesAgree(sizes, dirs, tree) && path != ""
    ensures NamesAgree((map p | p in sizes && !Below(path, p) :: sizes[p]), (set p | p in dirs
            && !Below(path, p)), Without(tree, path))
  {
  }

  lemma KnownIsThere(sizes: map<string, nat>, dirs: set<string>, tree: Tree, path: string)
    requires NamesAgree(sizes, dirs, tree)
    ensures ExistsIn(tree, path) <==> path in sizes || path in dirs
  {
  }

  lemma SizeIsLength(sizes: map<string, nat>, dirs: set<string>, tree: Tree, rel: string)
    requires NamesAgree(sizes, dirs, tree)
    ensures rel in sizes <==> rel in tree && tree[rel].File?
    ensures rel in sizes && rel in tree && tree[rel].File? ==> sizes[rel] == |tree[rel].data|
    ensures "" in dirs && "" !in tree && (rel in dirs <==> rel == "" || (rel in tree && tree[rel].Dir?))
  {
  }

  /** A length is wrong when it is not the file's. */
  lemma LengthIsWrong(sizes: map<string, nat>, dirs: set<string>, tree: Tree, rel: string, size: nat)
    requires NamesAgree(sizes, dirs, tree) && rel in tree && tree[rel].File?
    ensures NamesAgree(sizes[rel := size], dirs, tree) <==> size == |tree[rel].data|
  {
  }

  lemma LengthIsTracked(sizes: map<string, nat>, dirs: set<string>, tree: Tree, rel: string)
    requires NamesAgree(sizes, dirs, tree)
    ensures (if rel in sizes then sizes[rel] else 0) == LengthOf(tree, rel)
  {
  }

  /** A name that is not there is one too many. */
  lemma NotThere(sizes: map<string, nat>, dirs: set<string>, tree: Tree, rel: string)
    requires rel in sizes && rel !in tree
    ensures !NamesAgree(sizes, dirs, tree)
  {
  }

  lemma NoEmptyName(tree: Tree)
    requires WellFormed(tree)
    ensures "" !in tree
  {
    hide Normal;
  }

  // ------------------------------------------------------ moving a subtree

  /** Two paths above one are above one another. */
  lemma AboveTheSame(a: string, b: string, path: string)
    requires Below(a, path) && Below(b, path)
    ensures Below(a, b) || Below(b, a)
  {
    if |a| < |b| {
      assert path[|a|] == '/';
      assert b == path[..|b|] && (a + "/") == path[..|a| + 1] == b[..|a| + 1];
    } else if |b| < |a| {
      assert path[|b|] == '/';
      assert a == path[..|a|] && (b + "/") == path[..|b| + 1] == a[..|b| + 1];
    } else {
      assert a == path[..|a|] && b == path[..|b|];
    }
  }

  /** Neither of two names is at or below the other. */
  predicate Apart(from: string, to: string) {
    !Below(from, to) && !Below(to, from)
  }

  /** What a table of paths holds at `q` while the entries below `from` move to `to`, with those in
      `moving` still to go. */
  function Held<V>(m: map<string, V>, from: string, to: string, moving: set<string>, q: string): Option<V> {
    if Below(from, q) then (if q in moving && q in m then Some(m[q]) else None)
    else if Below(to, q) && Origin(from, to, q) in m && Origin(from, to, q) !in moving then Some(m[Origin(from, to, q)])
    else if q in m && q != to then Some(m[q]) else None
  }

  ghost predicate IsHeld<V>(out: map<string, V>, m: map<string, V>, from: string, to: string, moving: set<string>) {
    && (forall q :: q in out <==> Held(m, from, to, moving, q).Some?)
    && (forall q :: q in out && Held(m, from, to, moving, q).Some? ==> out[q] == Held(m, from, to, moving, q).value)
  }

  lemma OneMoves<V>(out: map<string, V>, m: map<string, V>, from: string, to: string, moving: set<string>, was: string)
    requires Apart(from, to) && IsHeld(out, m, from, to, moving) && was in moving && was in m && Below(from, was)
    ensures was in out && out[was] == m[was]
    ensures IsHeld((out - {was})[Origin(to, from, was) := m[was]], m, from, to, moving - {was})
  {
    hide Below, Origin;
    var now := Origin(to, from, was);
    OriginTwice(to, from, was);
    if Below(from, now) {
      AboveTheSame(from, to, now);
    }
    forall q | Below(to, q) && Origin(from, to, q) == was ensures q == now {
      OriginTwice(from, to, q);
    }
  }

  /** Drop `to`, then take every entry at or below `from` to the same place below `to`. */
  method MoveKeys<V>(m: map<string, V>, from: string, to: string) returns (out: map<string, V>)
    requires from == to || Apart(from, to)
    ensures from == to ==> out == m - {to}
    ensures from != to ==> IsHeld(out, m, from, to, {})
  {
    hide Apart, IsHeld;
    out := m - {to};
    var moving := set p | p in out && Below(from, p);
    if from != to {
      BeforeMoving(m, from, to);
    }
    while moving != {}
      invariant from == to ==> out == m - {to} && forall p :: p in moving ==> p in out && Below(from, p)
      invariant from != to ==> IsHeld(out, m, from, to, moving) && forall p :: p in moving ==> p in m && Below(from, p)
    {
      var was :| was in moving;
      if from != to {
        OneMoves(out, m, from, to, moving, was);
      } else {
        OriginOfItself(from, was);
      }
      var value := out[was];
      out := (out - {was})[Origin(to, from, was) := value];
      moving := moving - {was};
    }
  }

  lemma OriginOfItself(from: string, path: string)
    requires Below(from, path)
    ensures Origin(from, from, path) == path
  {
    if path != from {
      assert from == path[..|from|];
    }
    assert path == path[..|from|] + path[|from|..];
  }

  lemma BeforeMoving<V>(m: map<string, V>, from: string, to: string)
    requires from != to && Apart(from, to)
    ensures IsHeld(m - {to}, m, from, to, (set p | p in m - {to} && Below(from, p)))
  {
    hide Below, Origin;
    forall q | Below(to, q) ensures !Below(from, q) && Below(from, Origin(from, to, q)) {
      OriginTwice(from, to, q);
      if Below(from, q) {
        AboveTheSame(from, to, q);
      }
    }
    assert Below(to, to) by { BelowItself(to); }
    var moving := set p | p in m - {to} && Below(from, p);
    forall q | Below(to, q) && Origin(from, to, q) in m ensures Origin(from, to, q) in moving {
      assert Origin(from, to, q) != to;
    }
  }

  lemma RootIsAbove(from: string, to: string)
    requires from != "" && to != ""
    ensures !Below(from, "") && !Below(to, "")
    ensures forall q :: Below(to, q) ==> Origin(from, to, q) != ""
  {
  }

  lemma TreeMoves(sizes: map<string, nat>, dirs: map<string, bool>, tree: Tree, from: string, to: string,
                  sizes': map<string, nat>, dirs': map<string, bool>)
    requires NamesAgree(sizes, dirs.Keys, tree) && Apart(from, to) && NothingBelow(tree, to) && from != "" && to != ""
    requires IsHeld(sizes', sizes, from, to, {}) && IsHeld(dirs', dirs, from, to, {})
    ensures NamesAgree(sizes', dirs'.Keys, Moved(tree, from, to))
  {
    hide Below, Origin, Moved;
    var moved := Moved(tree, from, to);
    RootIsAbove(from, to);
    assert "" !in moved;
    forall p ensures p in sizes' <==> p in moved && moved[p].File?
             ensures p in sizes' && p in moved && moved[p].File? ==> sizes'[p] == |moved[p].data|
             ensures p in dirs' <==> p == "" || (p in moved && moved[p].Dir?)
    {
      PathMoves(sizes, dirs, tree, from, to, p);
    }
  }

  /** One path, before and after. */
  lemma PathMoves(sizes: map<string, nat>, dirs: map<string, bool>, tree: Tree, from: string, to: string, p: string)
    requires NamesAgree(sizes, dirs.Keys, tree) && Apart(from, to) && NothingBelow(tree, to) && from != "" && to != ""
    ensures WasThere(tree, from, to, p) ==>
              (var e := EntryBefore(tree, from, to, p);
               && Held(sizes, from, to, {}, p) == (if e.File? then Some(|e.data|) else None)
               && (Held(dirs, from, to, {}, p).Some? <==> e.Dir? || p == ""))
    ensures !WasThere(tree, from, to, p) ==>
              Held(sizes, from, to, {}, p) == None && (Held(dirs, from, to, {}, p).Some? <==> p == "")
  {
    hide Below, Origin;
    RootIsAbove(from, to);
    BelowItself(to);
    if Below(to, p) && Below(from, p) {
      AboveTheSame(from, to, p);
    }
  }

  lemma MovedOntoItself(sizes: map<string, nat>, dirs: set<string>, tree: Tree, path: string)
    requires path in tree && path != "" && path !in sizes && path !in dirs
    ensures !NamesAgree(sizes, dirs, tree)
  {
  }

  // ------------------------------------------ what holds even after a miss

  /** The same paths, each with the same kind of entry. */
  ghost predicate SameShape(a: Tree, b: Tree) {
    && (forall p :: p in a <==> p in b)
    && (forall p :: p in a && p in b ==> a[p].Dir? == b[p].Dir?)
  }

  /** The tracker knows of no file or directory that is not there. */
  ghost predicate NamesWithin(sizes: map<string, nat>, dirs: set<string>, tree: Tree) {
    && (forall p :: p in sizes ==> p in tree && tree[p].File?)
    && (forall p :: p in dirs ==> p == "" || (p in tree && tree[p].Dir?))
    && "" !in tree
  }

  lemma FileStaysWithin(sizes: map<string, nat>, dirs: set<string>, tree: Tree, rel: string, size: nat)
    requires NamesWithin(sizes, dirs, tree) && rel in tree && tree[rel].File?
    ensures NamesWithin(sizes[rel := size], dirs, tree)
  {
  }

  lemma DirStaysWithin(sizes: map<string, nat>, dirs: set<string>, tree: Tree, path: string)
    requires NamesWithin(sizes, dirs, tree) && path !in tree && path != ""
    ensures NamesWithin(sizes, dirs + {path}, tree[path := Dir])
  {
  }

  lemma EntriesGoWithin(sizes: map<string, nat>, dirs: set<string>, tree: Tree, path: string)
    requires NamesWithin(sizes, dirs, tree)
    ensures NamesWithin((map p | p in sizes && !Below(path, p) :: sizes[p]),
                        (set p | p in dirs && !Below(path, p)), Without(tree, path))
  {
  }

  lemma FewerStayWithin(sizes: map<string, nat>, dirs: set<string>, tree: Tree,
                        fewer: map<string, nat>, less: set<string>)
    requires NamesWithin(sizes, dirs, tree) && fewer.Keys <= sizes.Keys && less <= dirs
    ensures NamesWithin(fewer, less, tree)
  {
  }

  lemma TreeMovesWithin(sizes: map<string, nat>, dirs: map<string, bool>, tree: Tree, from: string, to: string,
                        sizes': map<string, nat>, dirs': map<string, bool>)
    requires NamesWithin(sizes, dirs.Keys, tree) && Apart(from, to) && from != "" && to != ""
    requires NothingBelow(tree, to)
    requires IsHeld(sizes', sizes, from, to, {}) && IsHeld(dirs', dirs, from, to, {})
    ensures NamesWithin(sizes', dirs'.Keys, Moved(tree, from, to))
  {
    hide Below, Origin, Moved;
    var moved := Moved(tree, from, to);
    RootIsAbove(from, to);
    BelowItself(to);
    assert "" !in moved;
    forall p ensures p in sizes' ==> p in moved && moved[p].File?
             ensures p in dirs' ==> p == "" || (p in moved && moved[p].Dir?)
    {
      if Below(to, p) && Below(from, p) {
        AboveTheSame(from, to, p);
      }
      assert WasThere(tree, from, to, p) ==> p in moved && moved[p] == EntryBefore(tree, from, to, p);
    }
  }

  lemma ShapeMoves(a: Tree, b: Tree, from: string, to: string)
    requires SameShape(a, b)
    ensures SameShape(Moved(a, from, to), Moved(b, from, to))
  {
    hide Below, Origin, Moved;
    var x, y := Moved(a, from, to), Moved(b, from, to);
    forall p ensures p in x <==> p in y {
      assert WasThere(a, from, to, p) <==> WasThere(b, from, to, p);
    }
  }

  /** An op that can be performed on one tree can be on another of the same shape. */
  lemma ShapeSteps(a: Tree, b: Tree, op: Op)
    requires SameShape(a, b) && Step(b, op).Success?
    ensures Step(a, op).Success? && SameShape(Step(a, op).value, Step(b, op).value)
  {
    hide Below, Moved, WriteAt, Resize, Split;
    if op.Rename? {
      ShapeMoves(a, b, op.from, op.to);
    }
  }

  lemma ShapesChain(a: Tree, b: Tree, c: Tree)
    requires SameShape(a, b) && SameShape(b, c)
    ensures SameShape(a, c)
  {
  }

  lemma SameShapeAsItself(tree: Tree)
    ensures SameShape(tree, tree)
  {
  }

  // --------------------------------------------- performing the ops so far

  /** Performing the ops on the initial tree works, and gives the names of `tree`. */
  ghost predicate OpsRun(initial: Tree, ops: seq<Op>, tree: Tree) {
    && IsNormalTrace(Trace(initial, ops))
    && TreeAfter(Trace(initial, ops), |ops|).Success?
    && SameShape(TreeAfter(Trace(initial, ops), |ops|).value, tree)
  }

  lemma {:induction false} TreeAfterPrefix(initial: Tree, ops: seq<Op>, op: Op, k: nat)
    requires k <= |ops|
    ensures TreeAfter(Trace(initial, ops + [op]), k) == TreeAfter(Trace(initial, ops), k)
  {
    hide Step;
    if k > 0 {
      TreeAfterPrefix(initial, ops, op, k - 1);
    }
  }

  lemma OneMoreRuns(initial: Tree, ops: seq<Op>, op: Op, tree: Tree, next: Tree)
    requires OpsRun(initial, ops, tree) && IsNormalOp(op) && Step(tree, op).Success?
    requires SameShape(Step(tree, op).value, next)
    ensures OpsRun(initial, ops + [op], next)
  {
    hide Step, IsNormalOp, WellFormed, SameShape;
    var was := TreeAfter(Trace(initial, ops), |ops|).value;
    ShapeSteps(was, tree, op);
    TreeAfterPrefix(initial, ops, op, |ops|);
    ShapesChain(Step(was, op).value, Step(tree, op).value, next);
    var trace := Trace(initial, ops + [op]);
    forall i | 0 <= i < |trace.ops| ensures IsNormalOp(trace.ops[i]) {
      assert i < |ops| ==> trace.ops[i] == Trace(initial, ops).ops[i];
    }
  }

  /** The ops can be performed on the initial tree. */
  predicate Replays(initial: Tree, ops: seq<Op>) {
    TreeAfter(Trace(initial, ops), |ops|).Success?
  }

  lemma NormalGrows(initial: Tree, ops: seq<Op>, op: Op)
    requires IsNormalTrace(Trace(initial, ops)) && IsNormalOp(op)
    ensures IsNormalTrace(Trace(initial, ops + [op]))
  {
    hide IsNormalOp, WellFormed;
    var trace := Trace(initial, ops + [op]);
    forall i | 0 <= i < |trace.ops| ensures IsNormalOp(trace.ops[i]) {
      assert i < |ops| ==> trace.ops[i] == Trace(initial, ops).ops[i];
    }
  }

  /** An op that cannot be performed on the tree there is, cannot be performed on the recorded one. */
  lemma FailureShows(initial: Tree, ops: seq<Op>, op: Op, tree: Tree)
    requires OpsRun(initial, ops, tree) && Step(tree, op).Failure?
    ensures !Replays(initial, ops + [op])
  {
    hide Step, WellFormed, IsNormalOp;
    var was := TreeAfter(Trace(initial, ops), |ops|).value;
    TreeAfterPrefix(initial, ops, op, |ops|);
    if Step(was, op).Success? {
      SameShapeBack(was, tree);
      ShapeSteps(tree, was, op);
    }
  }

  lemma SameShapeBack(a: Tree, b: Tree)
    requires SameShape(a, b)
    ensures SameShape(b, a)
  {
  }

  /** What was refused stays refused. */
  lemma {:induction false} RefusedStays(initial: Tree, ops: seq<Op>, more: seq<Op>)
    requires !Replays(initial, ops)
    ensures !Replays(initial, ops + more)
    decreases |more|
  {
    hide Step;
    if more == [] {
      assert ops + more == ops;
    } else {
      var n := |more| - 1;
      RefusedStays(initial, ops, more[..n]);
      assert ops + more == (ops + more[..n]) + [more[n]];
      TreeAfterPrefix(initial, ops + more[..n], more[n], |ops| + n);
    }
  }

  lemma RunsOrNot(initial: Tree, ops: seq<Op>, tree: Tree)
    ensures OpsRun(initial, ops, tree) ==> Replays(initial, ops)
  {
  }

  lemma OnlyShapeMatters(sizes: map<string, nat>, dirs: set<string>, initial: Tree, ops: seq<Op>,
                         tree: Tree, next: Tree)
    requires NamesWithin(sizes, dirs, tree) && OpsRun(initial, ops, tree) && SameShape(tree, next)
    ensures NamesWithin(sizes, dirs, next) && OpsRun(initial, ops, next)
  {
    hide TreeAfter, IsNormalTrace;
  }

  lemma OpsRunTree(initial: Tree, ops: seq<Op>, tree: Tree)
    requires OpsRun(initial, ops, tree)
    ensures IsNormalTrace(Trace(initial, ops)) && TreeAfter(Trace(initial, ops), |ops|).Success?
    ensures SameShape(TreeAfter(Trace(initial, ops), |ops|).value, tree)
  {
  }
}
