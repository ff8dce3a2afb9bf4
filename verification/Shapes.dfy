/** Images that look alike show trees that look alike. */
module Shapes {
  import opened Trace
  import opened Paths
  import opened Order
  import opened FileSystem
  import opened Walk

  /** How much of a file to look at. */
  datatype Sight = Contents | LengthsOnly

  function See(sight: Sight, entry: Entry): Entry {
    if sight.LengthsOnly? && entry.File? then File(Zeros(|entry.data|)) else entry
  }

  function SeeTree(sight: Sight, tree: Tree): Tree {
    map path | path in tree :: See(sight, tree[path])
  }

  /** The names of a tree and the lengths of its files. */
  function Shape(tree: Tree): Tree {
    SeeTree(LengthsOnly, tree)
  }

  ghost predicate NodesAlike(sight: Sight, a: Node, b: Node) {
    match (a, b)
    case (DirNode(e), DirNode(f)) => e == f
    case (FileNode(_, _), FileNode(_, _)) => See(sight, EntryOf(a)) == See(sight, EntryOf(b))
    case _ => false
  }

  /** `a` looks like the beginning of `b`. */
  ghost predicate Alike(sight: Sight, a: Image, b: Image) {
    |a| <= |b| && forall n :: 0 <= n < |a| ==> NodesAlike(sight, a[n], b[n])
  }

  function SeeWalked(sight: Sight, w: Walked): Walked {
    Walked(SeeTree(sight, w.tree), w.seen)
  }

  lemma SeeListed(sight: Sight, t: Tree, u: Tree, path: string, e: Entry, f: Entry)
    requires SeeTree(sight, t) == SeeTree(sight, u) && See(sight, e) == See(sight, f)
    ensures SeeTree(sight, t[path := e]) == SeeTree(sight, u[path := f])
  {
    hide See;
    var x, y := SeeTree(sight, t[path := e]), SeeTree(sight, u[path := f]);
    assert SeeTree(sight, t).Keys == t.Keys && SeeTree(sight, u).Keys == u.Keys;
    assert x.Keys == y.Keys;
    forall q | q in x ensures x[q] == y[q] {
      assert q != path ==> x[q] == SeeTree(sight, t)[q] && y[q] == SeeTree(sight, u)[q];
    }
  }

  lemma {:induction false} WalkDirAlike(sight: Sight, a: Image, b: Image, d: Ino, prefix: string, w: Walked, x: Walked)
    requires Closed(a) && Closed(b) && Alike(sight, a, b) && d < |a| && SeeWalked(sight, w) == SeeWalked(sight, x)
    ensures SeeWalked(sight, WalkDir(a, d, prefix, w)) == SeeWalked(sight, WalkDir(b, d, prefix, x))
    decreases Unseen(a, w.seen), 0
  {
    hide See, SeeTree, Sorted, EntryOf, Closed;
    assert NodesAlike(sight, a[d], b[d]);
    if d !in w.seen && a[d].DirNode? {
      var here, there := Walked(w.tree, w.seen + {d}), Walked(x.tree, x.seen + {d});
      assert d in Unseen(a, w.seen) && d !in Unseen(a, here.seen);
      WalkNamesAlike(sight, a, b, d, Sorted(a[d].entries.Keys), prefix, here, there);
    }
  }

  lemma {:induction false} WalkNamesAlike(sight: Sight, a: Image, b: Image, d: Ino, names: seq<string>, prefix: string,
                                          w: Walked, x: Walked)
    requires Closed(a) && Closed(b) && Alike(sight, a, b) && d < |a| && a[d].DirNode? && b[d] == a[d]
    requires forall name :: name in names ==> name in a[d].entries
    requires SeeWalked(sight, w) == SeeWalked(sight, x)
    ensures SeeWalked(sight, WalkNames(a, d, names, prefix, w)) == SeeWalked(sight, WalkNames(b, d, names, prefix, x))
    decreases Unseen(a, w.seen), 2, |names|
  {
    hide See, SeeTree, EntryOf, WalkEntry, Closed, NodesAlike;
    if names != [] {
      var n := |names| - 1;
      WalkNamesAlike(sight, a, b, d, names[..n], prefix, w, x);
      var before := WalkNames(a, d, names[..n], prefix, w);
      assert Unseen(a, before.seen) <= Unseen(a, w.seen);
      WalkEntryAlike(sight, a, b, d, names[n], prefix, before, WalkNames(b, d, names[..n], prefix, x));
    }
  }

  lemma {:induction false} WalkEntryAlike(sight: Sight, a: Image, b: Image, d: Ino, name: string, prefix: string,
                                          w: Walked, x: Walked)
    requires Closed(a) && Closed(b) && Alike(sight, a, b) && d < |a| && a[d].DirNode? && b[d] == a[d]
    requires name in a[d].entries && SeeWalked(sight, w) == SeeWalked(sight, x)
    ensures SeeWalked(sight, WalkEntry(a, d, name, prefix, w)) == SeeWalked(sight, WalkEntry(b, d, name, prefix, x))
    decreases Unseen(a, w.seen), 1
  {
    hide SeeTree, WalkDir, Content, Join;
    var child := a[d].entries[name];
    assert NodesAlike(sight, a[child], b[child]);
    SeeListed(sight, w.tree, x.tree, Join(prefix, name), EntryOf(a[child]), EntryOf(b[child]));
    var path := Join(prefix, name);
    var here := Walked(w.tree[path := EntryOf(a[child])], w.seen);
    var there := Walked(x.tree[path := EntryOf(b[child])], x.seen);
    if a[child].DirNode? {
      WalkDirAlike(sight, a, b, child, path, here, there);
    }
  }

  /** Alike images show alike trees; extra inodes nothing refers to do not matter. */
  lemma TreesAlike(sight: Sight, a: Image, b: Image)
    requires Closed(a) && Closed(b) && Alike(sight, a, b)
    ensures SeeTree(sight, ToTree(a)) == SeeTree(sight, ToTree(b))
  {
    hide SeeTree, WalkDir;
    var start := Walked(map[], {});
    WalkDirAlike(sight, a, b, 0, "", start, start);
  }

  lemma SeeingContents(tree: Tree)
    ensures SeeTree(Contents, tree) == tree
  {
    assert SeeTree(Contents, tree).Keys == tree.Keys;
  }

  /** The same visible contents node by node: the same tree. */
  lemma TreesEqual(a: Image, b: Image)
    requires Closed(a) && Closed(b) && Alike(Contents, a, b)
    ensures ToTree(a) == ToTree(b)
  {
    hide SeeTree, WalkDir, ToTree;
    TreesAlike(Contents, a, b);
    SeeingContents(ToTree(a));
    SeeingContents(ToTree(b));
  }

  lemma PaddedTree(a: Image, extra: Image)
    requires Closed(a) && Closed(a + extra)
    ensures ToTree(a + extra) == ToTree(a)
  {
    hide ToTree, EntryOf, Closed;
    TreesEqual(a, a + extra);
  }
}
