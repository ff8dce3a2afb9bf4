/** Images with a single directory: what they show, and how appends build files. */
module Flat {
  import opened Wrappers
  import opened Trace
  import opened Paths
  import opened Order
  import opened FileSystem
  import opened Walk

  /** The root holds nothing but files. */
  ghost predicate IsFlat(fs: Image) {
    && Closed(fs) && fs[0].DirNode?
    && forall name :: name in fs[0].entries ==> fs[fs[0].entries[name]].FileNode?
  }

  function FlatEntry(fs: Image, name: string): Entry
    requires Closed(fs) && fs[0].DirNode? && name in fs[0].entries
  {
    EntryOf(fs[fs[0].entries[name]])
  }

  lemma {:induction false} FlatNames(fs: Image, names: seq<string>, w: Walked)
    requires IsFlat(fs) && w == Walked(map[], {0}) && forall name :: name in names ==> name in fs[0].entries
    ensures var tree := WalkNames(fs, 0, names, "", w).tree;
            && WalkNames(fs, 0, names, "", w).seen == w.seen
            && (forall name :: name in tree <==> name in names)
            && forall name :: name in tree ==> tree[name] == FlatEntry(fs, name)
  {
    if names != [] {
      var n := |names| - 1;
      FlatNames(fs, names[..n], w);
      assert names == names[..n] + [names[n]];
    }
  }

  /** A flat image shows each root entry under its name. */
  lemma FlatTree(fs: Image)
    requires IsFlat(fs)
    ensures ToTree(fs).Keys == fs[0].entries.Keys
    ensures forall name :: name in fs[0].entries ==> ToTree(fs)[name] == FlatEntry(fs, name)
  {
    hide EntryOf;
    FlatNames(fs, Sorted(fs[0].entries.Keys), Walked(map[], {0}));
    assert {} + {0} == {0};
  }

  lemma NameAlone(fs: Image, name: string)
    requires ValidName(name)
    ensures Parts(name) == [name] && Split(name) == ("", name) && Normal(name)
    ensures Lookup(fs, name) == EntryAt(fs, 0, name)
    ensures Lookup(fs, "") == Some(0)
  {
    JoinSplits("", name);
    var parts := [name];
    assert parts[..0] == [];
    assert Resolve(fs, []) == Some(0);
  }
}
