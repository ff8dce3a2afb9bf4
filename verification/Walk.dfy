/** The tree visible from the root of an image.

    A crash state can lose a rename's removal or persist it twice over, so a
    directory may be reachable along two paths, or along a cycle; the walk
    visits every directory once, the first time it is met in name order. */
module Walk {
  import opened Trace
  import opened Paths
  import opened Order
  import opened FileSystem

  /** A file's bytes: its buffer cut, or zero-extended, to its length. */
  function Content(node: Node): seq<Byte>
    requires node.FileNode?
  {
    Resize(node.buf, node.len)
  }

  function EntryOf(node: Node): Entry {
    if node.DirNode? then Dir else File(Content(node))
  }

  datatype Walked = Walked(tree: Tree, seen: set<Ino>)

  function Inodes(n: nat): (all: set<Ino>)
    ensures forall i: Ino :: i in all <==> i < n
  {
    if n == 0 then {} else Inodes(n - 1) + {n - 1}
  }

  function Unseen(fs: Image, seen: set<Ino>): set<Ino> {
    Inodes(|fs|) - seen
  }

  function WalkDir(fs: Image, d: Ino, prefix: string, w: Walked): (r: Walked)
    requires Closed(fs) && d < |fs|
    ensures w.seen <= r.seen
    decreases Unseen(fs, w.seen), 0
  {
    if d in w.seen then w else
    var here := Walked(w.tree, w.seen + {d});
    assert d in Unseen(fs, w.seen) && d !in Unseen(fs, here.seen);
    if fs[d].DirNode? then WalkNames(fs, d, Sorted(fs[d].entries.Keys), prefix, here) else here
  }

  /** The first entries of directory `d`, in order. */
  function WalkNames(fs: Image, d: Ino, names: seq<string>, prefix: string, w: Walked): (r: Walked)
    requires Closed(fs) && d < |fs| && fs[d].DirNode?
    requires forall name :: name in names ==> name in fs[d].entries
    ensures w.seen <= r.seen
    decreases Unseen(fs, w.seen), 2, |names|
  {
    if names == [] then w else
    var n := |names| - 1;
    var before := WalkNames(fs, d, names[..n], prefix, w);
    assert Unseen(fs, before.seen) <= Unseen(fs, w.seen);
    WalkEntry(fs, d, names[n], prefix, before)
  }

  function WalkEntry(fs: Image, d: Ino, name: string, prefix: string, w: Walked): (r: Walked)
    requires Closed(fs) && d < |fs| && fs[d].DirNode? && name in fs[d].entries
    ensures w.seen <= r.seen
    decreases Unseen(fs, w.seen), 1
  {
    var child := fs[d].entries[name];
    var path := Join(prefix, name);
    var listed := Walked(w.tree[path := EntryOf(fs[child])], w.seen);
    if fs[child].DirNode? then WalkDir(fs, child, path, listed) else listed
  }

  /** The visible tree. */
  function ToTree(fs: Image): Tree
    requires Closed(fs)
  {
    WalkDir(fs, 0, "", Walked(map[], {})).tree
  }

  // ------------------------------------------------------------- the program

  ghost function Marked(flags: seq<bool>): set<Ino> {
    set i: Ino | i < |flags| && flags[i]
  }

  method BuildTree(fs: Image) returns (tree: Tree)
    requires Closed(fs)
    ensures tree == ToTree(fs)
  {
    var seen := new bool[|fs|](i => false);
    assert Marked(seen[..]) == {};
    tree := WalkInto(fs, 0, "", map[], seen);
  }

  /** The recursive walk over shared `tree` and `seen`; it stays inside the node table and stops. */
  method WalkInto(fs: Image, d: Ino, prefix: string, tree: Tree, seen: array<bool>) returns (out: Tree)
    requires Closed(fs) && d < |fs| == seen.Length
    modifies seen
    ensures Walked(out, Marked(seen[..])) == WalkDir(fs, d, prefix, Walked(tree, Marked(old(seen[..]))))
    decreases Unseen(fs, Marked(seen[..]))
  {
    hide Sorted, Join, Resize;
    out := tree;
    ghost var start := Marked(seen[..]);
    if seen[d] {
      return;
    }
    seen[d] := true;
    assert Marked(seen[..]) == start + {d};
    if fs[d].FileNode? {
      return;
    }
    var names := Sorted(fs[d].entries.Keys);
    ghost var here := Walked(tree, start + {d});
    assert names[..0] == [];
    var i := 0;
    while i < |names|
      invariant i <= |names|
      invariant start + {d} <= Marked(seen[..])
      invariant Walked(out, Marked(seen[..])) == WalkNames(fs, d, names[..i], prefix, here)
    {
      var child := fs[d].entries[names[i]];
      var path := Join(prefix, names[i]);
      assert names[..i + 1][..i] == names[..i];
      assert d in Unseen(fs, start) && d !in Unseen(fs, Marked(seen[..]));
      if fs[child].DirNode? {
        out := out[path := Dir];
        out := WalkInto(fs, child, path, out, seen);
      } else {
        out := out[path := File(Resize(fs[child].buf, fs[child].len))];
      }
      i := i + 1;
    }
    assert names[..i] == names;
  }
}
