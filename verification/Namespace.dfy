/** Names, walks and tree shape: when the inode table is a tree of directories,
    the visible tree is exactly what `lookup` finds. */
module Namespace {
  import opened Wrappers
  import opened Trace
  import opened Paths
  import opened Order
  import opened FileSystem
  import opened Walk

  ghost predicate NamesAreValid(fs: Image) {
    forall d, name :: 0 <= d < |fs| && fs[d].DirNode? && name in fs[d].entries ==> ValidName(name)
  }

  /** At most one walk from the root ends at any inode: one parent entry each, and no cycles. */
  ghost predicate UniquePaths(fs: Image) {
    forall p, q :: Resolve(fs, p).Some? && Resolve(fs, p) == Resolve(fs, q) ==> p == q
  }

  ghost predicate Tidy(fs: Image) {
    Closed(fs) && fs[0].DirNode? && NamesAreValid(fs) && UniquePaths(fs)
  }

  // --------------------------------------------------- soundness of the walk

  /** `path` is listed with what `lookup` finds there. */
  ghost predicate ListedRightly(fs: Image, tree: Tree, path: string)
    requires path in tree
  {
    && Lookup(fs, path).Some? && Lookup(fs, path).value < |fs|
    && tree[path] == EntryOf(fs[Lookup(fs, path).value])
  }

  ghost predicate Sound(fs: Image, tree: Tree) {
    WellFormed(tree) && forall path :: path in tree ==> ListedRightly(fs, tree, path)
  }

  lemma LookupJoin(fs: Image, prefix: string, name: string)
    requires ValidName(name)
    ensures Lookup(fs, Join(prefix, name)) ==
            match Lookup(fs, prefix) case None => None case Some(d) => EntryAt(fs, d, name)
  {
    JoinSplits(prefix, name);
    var parts := Parts(prefix) + [name];
    assert parts[..|parts| - 1] == Parts(prefix);
  }

  ghost predicate At(fs: Image, d: Ino, prefix: string, tree: Tree) {
    && Normal(prefix) && Lookup(fs, prefix) == Some(d)
    && (prefix == "" || (prefix in tree && tree[prefix] == Dir))
  }

  lemma {:induction false} WalkDirSound(fs: Image, d: Ino, prefix: string, w: Walked)
    requires Closed(fs) && NamesAreValid(fs) && d < |fs|
    requires At(fs, d, prefix, w.tree) && Sound(fs, w.tree)
    ensures Sound(fs, WalkDir(fs, d, prefix, w).tree)
    ensures w.tree.Keys <= WalkDir(fs, d, prefix, w).tree.Keys
    decreases Unseen(fs, w.seen), 0
  {
    if d !in w.seen && fs[d].DirNode? {
      var here := Walked(w.tree, w.seen + {d});
      assert d in Unseen(fs, w.seen) && d !in Unseen(fs, here.seen);
      WalkNamesSound(fs, d, Sorted(fs[d].entries.Keys), prefix, here);
    }
  }

  lemma {:induction false} WalkNamesSound(fs: Image, d: Ino, names: seq<string>, prefix: string, w: Walked)
    requires Closed(fs) && NamesAreValid(fs) && d < |fs| && fs[d].DirNode?
    requires forall name :: name in names ==> name in fs[d].entries
    requires At(fs, d, prefix, w.tree) && Sound(fs, w.tree)
    ensures Sound(fs, WalkNames(fs, d, names, prefix, w).tree)
    ensures w.tree.Keys <= WalkNames(fs, d, names, prefix, w).tree.Keys
    decreases Unseen(fs, w.seen), 2, |names|
  {
    if names != [] {
      var n := |names| - 1;
      var before := WalkNames(fs, d, names[..n], prefix, w);
      WalkNamesSound(fs, d, names[..n], prefix, w);
      assert Unseen(fs, before.seen) <= Unseen(fs, w.seen);
      assert prefix != "" ==> ListedRightly(fs, before.tree, prefix);
      WalkEntrySound(fs, d, names[n], prefix, before);
    }
  }

  lemma {:induction false} WalkEntrySound(fs: Image, d: Ino, name: string, prefix: string, w: Walked)
    requires Closed(fs) && NamesAreValid(fs) && d < |fs| && fs[d].DirNode? && name in fs[d].entries
    requires At(fs, d, prefix, w.tree) && Sound(fs, w.tree)
    ensures Sound(fs, WalkEntry(fs, d, name, prefix, w).tree)
    ensures w.tree.Keys + {Join(prefix, name)} <= WalkEntry(fs, d, name, prefix, w).tree.Keys
    decreases Unseen(fs, w.seen), 1
  {
    var child := fs[d].entries[name];
    var path := Join(prefix, name);
    var listed := Walked(w.tree[path := EntryOf(fs[child])], w.seen);
    JoinSplits(prefix, name);
    LookupJoin(fs, prefix, name);
    ListingStaysSound(fs, w.tree, path, child);
    if fs[child].DirNode? {
      WalkDirSound(fs, child, path, listed);
    }
  }

  lemma ListingStaysSound(fs: Image, tree: Tree, path: string, child: Ino)
    requires Sound(fs, tree) && child < |fs|
    requires Normal(path) && path != "" && Lookup(fs, path) == Some(child)
    requires ParentListed(tree, path)
    ensures Sound(fs, tree[path := EntryOf(fs[child])])
  {
    hide Normal, Lookup, Split, EntryOf, Parts;
    var after := tree[path := EntryOf(fs[child])];
    SplitOfNormal(path);
    forall q | q in after ensures ListedRightly(fs, after, q) && ParentListed(after, q) {
      assert q != path ==> ParentListed(tree, q);
    }
  }

  /** Whatever subset of micro-ops produced the image, the tree it shows is a tree: every entry's
      parent is listed, as a directory, and every entry is what its path leads to. */
  lemma ToTreeIsSound(fs: Image)
    requires Closed(fs) && NamesAreValid(fs)
    ensures Sound(fs, ToTree(fs))
  {
    WalkDirSound(fs, 0, "", Walked(map[], {}));
  }

  // ------------------------------------------------ completeness of the walk

  /** `path` resolves, and lies at or below the pieces `top`. */
  ghost predicate Reaches(fs: Image, top: seq<string>, path: string) {
    Normal(path) && top <= Parts(path) && Lookup(fs, path).Some?
  }

  ghost predicate FreshBelow(fs: Image, top: seq<string>, seen: set<Ino>) {
    forall path :: Reaches(fs, top, path) ==> Lookup(fs, path).value !in seen
  }

  ghost predicate MarksOnly(fs: Image, top: seq<string>, before: set<Ino>, after: set<Ino>) {
    forall i :: i in after ==> i in before || exists path :: Reaches(fs, top, path) && Lookup(fs, path) == Some(i)
  }

  ghost predicate ReachesVia(fs: Image, top: seq<string>, names: seq<string>, path: string) {
    Reaches(fs, top, path) && |top| < |Parts(path)| && Parts(path)[|top|] in names
  }

  ghost predicate Distinct(names: seq<string>) {
    forall i, j :: 0 <= i < j < |names| ==> names[i] != names[j]
  }

  lemma SortedDistinct(keys: set<string>)
    ensures Distinct(Sorted(keys))
  {
    forall i, j | 0 <= i < j < |Sorted(keys)| ensures Sorted(keys)[i] != Sorted(keys)[j] {
      SortedIncreases(keys, i, j);
      LessTotal(Sorted(keys)[i], Sorted(keys)[i]);
    }
  }

  lemma {:induction false} WalkDirComplete(fs: Image, d: Ino, prefix: string, w: Walked)
    requires Tidy(fs) && d < |fs| && fs[d].DirNode?
    requires Normal(prefix) && Lookup(fs, prefix) == Some(d) && FreshBelow(fs, Parts(prefix), w.seen)
    ensures forall path :: Reaches(fs, Parts(prefix), path) && path != prefix ==>
              path in WalkDir(fs, d, prefix, w).tree
    ensures MarksOnly(fs, Parts(prefix), w.seen, WalkDir(fs, d, prefix, w).seen)
    ensures w.tree.Keys <= WalkDir(fs, d, prefix, w).tree.Keys
    decreases Unseen(fs, w.seen), 0
  {
    assert Reaches(fs, Parts(prefix), prefix);
    var here := Walked(w.tree, w.seen + {d});
    var names := Sorted(fs[d].entries.Keys);
    assert d in Unseen(fs, w.seen) && d !in Unseen(fs, here.seen);
    SortedDistinct(fs[d].entries.Keys);
    forall path | ReachesVia(fs, Parts(prefix), names, path)
      ensures Lookup(fs, path).value !in here.seen
    {
      assert Parts(path) != Parts(prefix);
    }
    WalkNamesComplete(fs, d, names, prefix, here);
    forall path | Reaches(fs, Parts(prefix), path) && path != prefix
      ensures ReachesVia(fs, Parts(prefix), names, path)
    {
      NextStep(fs, prefix, d, path);
    }
  }

  /** A longer walk through directory `d` goes on with one of its entries. */
  lemma NextStep(fs: Image, prefix: string, d: Ino, path: string)
    requires Normal(prefix) && Lookup(fs, prefix) == Some(d)
    requires Reaches(fs, Parts(prefix), path) && path != prefix
    ensures |Parts(prefix)| < |Parts(path)|
    ensures d < |fs| && fs[d].DirNode? && Parts(path)[|Parts(prefix)|] in fs[d].entries
  {
    hide Parts, Normal;
    var top, parts := Parts(prefix), Parts(path);
    if |parts| == |top| {
      assert top == parts;
      NormalPathsDiffer(prefix, path);
    }
    var step := parts[..|top| + 1];
    if Resolve(fs, step).None? {
      ResolvePrefix(fs, parts, step);
    }
    assert step[..|top|] == top;
  }

  ghost predicate FreshVia(fs: Image, top: seq<string>, names: seq<string>, seen: set<Ino>) {
    forall path :: ReachesVia(fs, top, names, path) ==> Lookup(fs, path).value !in seen
  }

  ghost predicate MarksVia(fs: Image, top: seq<string>, names: seq<string>, before: set<Ino>, after: set<Ino>) {
    forall i :: i in after ==>
      i in before || exists path :: ReachesVia(fs, top, names, path) && Lookup(fs, path) == Some(i)
  }

  lemma {:induction false} WalkNamesComplete(fs: Image, d: Ino, names: seq<string>, prefix: string, w: Walked)
    requires Tidy(fs) && d < |fs| && fs[d].DirNode? && Distinct(names)
    requires forall name :: name in names ==> name in fs[d].entries
    requires Normal(prefix) && Lookup(fs, prefix) == Some(d) && FreshVia(fs, Parts(prefix), names, w.seen)
    ensures forall path :: ReachesVia(fs, Parts(prefix), names, path) ==>
              path in WalkNames(fs, d, names, prefix, w).tree
    ensures MarksVia(fs, Parts(prefix), names, w.seen, WalkNames(fs, d, names, prefix, w).seen)
    ensures w.tree.Keys <= WalkNames(fs, d, names, prefix, w).tree.Keys
    decreases Unseen(fs, w.seen), 2, |names|
  {
    hide Parts, Normal, Lookup, UniquePaths, Closed, NamesAreValid, WalkEntry;
    if names != [] {
      var n := |names| - 1;
      var top := Parts(prefix);
      var before := WalkNames(fs, d, names[..n], prefix, w);
      forall path | ReachesVia(fs, top, names[..n], path) ensures ReachesVia(fs, top, names, path) {}
      WalkNamesComplete(fs, d, names[..n], prefix, w);
      assert Unseen(fs, before.seen) <= Unseen(fs, w.seen);
      StillFresh(fs, top, names, w.seen, before.seen);
      WalkEntryComplete(fs, d, names[n], prefix, before);
      var after := WalkEntry(fs, d, names[n], prefix, before);
      forall path | ReachesVia(fs, top, [names[n]], path) ensures ReachesVia(fs, top, names, path) {}
      forall path | ReachesVia(fs, top, names, path) ensures path in after.tree {
        if Parts(path)[|top|] in names[..n] {
          assert ReachesVia(fs, top, names[..n], path);
        } else {
          assert ReachesVia(fs, top, [names[n]], path);
        }
      }
    }
  }

  lemma StillFresh(fs: Image, top: seq<string>, names: seq<string>, start: set<Ino>, seen: set<Ino>)
    requires UniquePaths(fs) && Distinct(names) && names != []
    requires FreshVia(fs, top, names, start) && MarksVia(fs, top, names[..|names| - 1], start, seen)
    ensures FreshVia(fs, top, [names[|names| - 1]], seen)
  {
    var last := names[|names| - 1];
    forall path | ReachesVia(fs, top, [last], path) ensures Lookup(fs, path).value !in seen {
      assert ReachesVia(fs, top, names, path);
      assert forall other | ReachesVia(fs, top, names[..|names| - 1], other) :: Parts(other) != Parts(path);
    }
  }

  lemma OneMore<T>(top: seq<T>, x: T, parts: seq<T>)
    ensures top + [x] <= parts <==> top <= parts && |top| < |parts| && parts[|top|] in [x]
  {
    if top <= parts && |top| < |parts| {
      assert parts[..|top| + 1] == top + [parts[|top|]];
    }
    if top + [x] <= parts {
      assert parts[|top|] == (top + [x])[|top|];
      assert top == (top + [x])[..|top|] == parts[..|top|];
    }
  }

  lemma {:induction false} WalkEntryComplete(fs: Image, d: Ino, name: string, prefix: string, w: Walked)
    requires Tidy(fs) && d < |fs| && fs[d].DirNode? && name in fs[d].entries
    requires Normal(prefix) && Lookup(fs, prefix) == Some(d) && FreshVia(fs, Parts(prefix), [name], w.seen)
    ensures forall path :: ReachesVia(fs, Parts(prefix), [name], path) ==>
              path in WalkEntry(fs, d, name, prefix, w).tree
    ensures MarksVia(fs, Parts(prefix), [name], w.seen, WalkEntry(fs, d, name, prefix, w).seen)
    ensures w.tree.Keys <= WalkEntry(fs, d, name, prefix, w).tree.Keys
    decreases Unseen(fs, w.seen), 1
  {
    hide LastSlash, Parts, Lookup;
    var top := Parts(prefix);
    var child := fs[d].entries[name];
    var path := Join(prefix, name);
    var listed := Walked(w.tree[path := EntryOf(fs[child])], w.seen);
    JoinSplits(prefix, name);
    LookupJoin(fs, prefix, name);
    forall q ensures ReachesVia(fs, top, [name], q) <==> Reaches(fs, Parts(path), q) {
      OneMore(top, name, Parts(q));
    }
    if fs[child].DirNode? {
      WalkDirComplete(fs, child, path, listed);
    } else {
      forall q | Reaches(fs, Parts(path), q) ensures q == path {
        if q != path {
          NextStep(fs, path, child, q);
        }
      }
    }
  }

  /** In a tidy image the visible tree lists exactly the normal paths that resolve, each with the
      node found there. */
  lemma ToTreeIsLookup(fs: Image)
    requires Tidy(fs)
    ensures forall path :: path in ToTree(fs) <==> Normal(path) && path != "" && Lookup(fs, path).Some?
    ensures forall path :: path in ToTree(fs) ==>
              Lookup(fs, path).value < |fs| && ToTree(fs)[path] == EntryOf(fs[Lookup(fs, path).value])
    ensures Sound(fs, ToTree(fs))
  {
    ToTreeIsSound(fs);
    WalkDirComplete(fs, 0, "", Walked(map[], {}));
    forall path | path in ToTree(fs) ensures ListedRightly(fs, ToTree(fs), path) {}
    forall path | Normal(path) && path != "" && Lookup(fs, path).Some? ensures path in ToTree(fs) {
      assert Reaches(fs, Parts(""), path);
    }
  }
}
