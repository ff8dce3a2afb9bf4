/** Loading a directory snapshot into the inode table. */
module Snapshot {
  import opened Wrappers
  import opened Trace
  import opened Paths
  import opened Order
  import opened FileSystem
  import opened Walk
  import opened Namespace
  import opened Reshape

  function NodeOf(entry: Entry): Node {
    match entry
    case Dir => DirNode(map[])
    case File(data) => FileNode(data, |data|)
  }

  /** The image after loading the first entries, in key order. */
  function Load(tree: Tree, keys: seq<string>): (fs: Image)
    requires forall key :: key in keys ==> key in tree
    ensures |fs| == |keys| + 1
  {
    if keys == [] then [DirNode(map[])] else
    var n := |keys| - 1;
    var fs := Load(tree, keys[..n]);
    LoadNext(fs, keys[n], tree[keys[n]])
  }

  function LoadNext(fs: Image, path: string, entry: Entry): (r: Image)
    ensures |r| == |fs| + 1
  {
    var grown := fs + [NodeOf(entry)];
    match Lookup(fs, Split(path).0)
    case Some(parent) => Applied(grown, Link(parent, Split(path).1, |fs|))
    case None => grown
  }

  function FromTree(tree: Tree): Image {
    Load(tree, Sorted(tree.Keys))
  }

  /** No file holds bytes past its length. */
  ghost predicate Settled(fs: Image) {
    forall n :: 0 <= n < |fs| && fs[n].FileNode? ==> |fs[n].buf| <= fs[n].len
  }

  ghost predicate Shows(fs: Image, path: string, entry: Entry) {
    Lookup(fs, path).Some? && Lookup(fs, path).value < |fs| && EntryOf(fs[Lookup(fs, path).value]) == entry
  }

  /** `fs` holds exactly the entries of `tree`. */
  ghost predicate Holds(fs: Image, tree: Tree) {
    && Tidy(fs) && Settled(fs)
    && (forall path :: Normal(path) && path != "" && Lookup(fs, path).Some? ==> path in tree)
    && (forall path :: path in tree ==> Normal(path) && path != "" && Shows(fs, path, tree[path]))
  }

  lemma HeldTreeIsShown(fs: Image, tree: Tree)
    requires Holds(fs, tree)
    ensures ToTree(fs) == tree
  {
    hide Lookup, Normal, Settled, EntryOf, Sound, ToTree, UniquePaths, NamesAreValid, Closed;
    ToTreeIsLookup(fs);
    assert ToTree(fs).Keys == tree.Keys;
  }

  lemma LoadNextLookup(fs: Image, path: string, entry: Entry)
    requires Tidy(fs) && Normal(path) && path != "" && Lookup(fs, path).None?
    requires Lookup(fs, Split(path).0).Some? && fs[Lookup(fs, Split(path).0).value].DirNode?
    ensures Tidy(LoadNext(fs, path, entry))
    ensures forall q :: Normal(q) ==>
              Lookup(LoadNext(fs, path, entry), q) == (if q == path then Some(|fs|) else Lookup(fs, q))
  {
    hide Resolve, Split, Normal, Parts, Applied, Tidy;
    SplitOfNormal(path);
    LinkNext(fs, Split(path).0, Split(path).1, NodeOf(entry));
    forall q | Normal(q) ensures Parts(q) == Parts(path) <==> q == path {
      SameParts(q, path);
    }
  }

  /** A new inode linked under a new name. */
  lemma LinkNext(fs: Image, dir: string, name: string, node: Node)
    requires Tidy(fs) && ValidName(name) && IsBare(node) && Lookup(fs, Join(dir, name)).None?
    requires Lookup(fs, dir).Some? && fs[Lookup(fs, dir).value].DirNode?
    ensures var after := Applied(fs + [node], Link(Lookup(fs, dir).value, name, |fs|));
            && Tidy(after)
            && forall q :: Resolve(after, q) ==
                 (if q == Parts(dir) + [name] then Some(|fs|) else Resolve(fs, q))
  {
    hide Resolve, Parts, Join, Applied, UniquePaths;
    var parent := Lookup(fs, dir).value;
    ResolveInside(fs, Parts(dir));
    LookupJoin(fs, dir, name);
    PushKeepsTidy(fs, node);
    LinkKeepsTidy(fs + [node], Parts(dir), parent, name, |fs|);
  }

  lemma LoadNextNodes(fs: Image, path: string, entry: Entry)
    ensures forall n :: 0 <= n < |fs| ==> EntryOf(LoadNext(fs, path, entry)[n]) == EntryOf(fs[n])
    ensures EntryOf(LoadNext(fs, path, entry)[|fs|]) == entry
    ensures Settled(fs) ==> Settled(LoadNext(fs, path, entry))
  {
    hide Resolve, Parts, LastSlash;
    var after := LoadNext(fs, path, entry);
    assert forall n :: 0 <= n < |after| && after[n].FileNode? ==> after[n] == (fs + [NodeOf(entry)])[n];
  }

  lemma LoadNextHolds(fs: Image, tree: Tree, path: string, entry: Entry)
    requires Holds(fs, tree) && Normal(path) && path != "" && path !in tree && ParentListed(tree, path)
    ensures Holds(LoadNext(fs, path, entry), tree[path := entry])
  {
    hide Lookup, Normal, Split, Tidy, Settled, LoadNext, EntryOf, ParentListed;
    EmptyPathIsRoot(fs);
    ListedParentIsDir(fs, tree, path);
    LoadNextLookup(fs, path, entry);
    LoadNextNodes(fs, path, entry);
  }

  ghost predicate HasDirAt(fs: Image, path: string) {
    Closed(fs) && Lookup(fs, path).Some? && Lookup(fs, path).value < |fs| && fs[Lookup(fs, path).value].DirNode?
  }

  lemma ListedParentIsDir(fs: Image, tree: Tree, path: string)
    requires Holds(fs, tree) && ParentListed(tree, path)
    ensures HasDirAt(fs, Split(path).0)
  {
    hide Lookup, Normal, Split, UniquePaths, Settled, Content;
    EmptyPathIsRoot(fs);
    assert Split(path).0 != "" ==> Shows(fs, Split(path).0, Dir);
  }

  lemma EmptyPathIsRoot(fs: Image)
    ensures Lookup(fs, "") == Some(0)
  {
  }

  lemma LoadSnoc(tree: Tree, keys: seq<string>, i: nat)
    requires i < |keys| && forall key :: key in keys ==> key in tree
    ensures Load(tree, keys[..i + 1]) == LoadNext(Load(tree, keys[..i]), keys[i], tree[keys[i]])
  {
    hide LoadNext;
    assert keys[..i + 1][..i] == keys[..i];
  }

  /** The part of a tree named by `keys`. */
  ghost function Part(tree: Tree, keys: seq<string>): (part: Tree)
  {
    map path | path in keys && path in tree :: tree[path]
  }

  lemma {:induction false} LoadHolds(tree: Tree, i: nat)
    requires WellFormed(tree) && i <= |Sorted(tree.Keys)|
    ensures Holds(Load(tree, Sorted(tree.Keys)[..i]), Part(tree, Sorted(tree.Keys)[..i]))
  {
    hide *;
    if i == 0 {
      LoadNone(tree, Sorted(tree.Keys));
    } else {
      LoadHolds(tree, i - 1);
      LoadStep(tree, Sorted(tree.Keys), i - 1);
    }
  }

  lemma LoadNone(tree: Tree, keys: seq<string>)
    requires forall key :: key in keys ==> key in tree
    ensures Holds(Load(tree, keys[..0]), Part(tree, keys[..0]))
  {
    hide Holds;
    EmptyHolds();
    assert Part(tree, keys[..0]) == map[];
  }

  lemma LoadStep(tree: Tree, keys: seq<string>, i: nat)
    requires WellFormed(tree) && keys == Sorted(tree.Keys) && i < |keys|
    requires Holds(Load(tree, keys[..i]), Part(tree, keys[..i]))
    ensures Holds(Load(tree, keys[..i + 1]), Part(tree, keys[..i + 1]))
  {
    hide Holds, Load, LoadNext, ParentListed, Sorted, Normal, Split;
    var path := keys[i];
    assert path in keys;
    ParentIsEarlier(tree, i);
    LoadNextHolds(Load(tree, keys[..i]), Part(tree, keys[..i]), path, tree[path]);
    LoadSnoc(tree, keys, i);
    PartSnoc(tree, keys, i);
  }

  lemma PartSnoc(tree: Tree, keys: seq<string>, i: nat)
    requires i < |keys| && keys[i] in tree
    ensures Part(tree, keys[..i + 1]) == Part(tree, keys[..i])[keys[i] := tree[keys[i]]]
  {
    assert keys[..i + 1] == keys[..i] + [keys[i]];
  }

  lemma EmptyHolds()
    ensures Holds([DirNode(map[])], map[])
  {
    hide Normal, Parts, ValidName;
    var fs: Image := [DirNode(map[])];
    forall p ensures Resolve(fs, p) == if p == [] then Some(0) else None {
      if p != [] {
        ResolvePrefix(fs, p, p[..1]);
      }
    }
    forall path | Normal(path) && path != "" ensures Lookup(fs, path).None? {
      NormalPartsAreNames(path);
    }
  }

  /** Key order lists a directory before its children, so the parent is always loaded already. */
  lemma ParentIsEarlier(tree: Tree, i: nat)
    requires WellFormed(tree) && i < |Sorted(tree.Keys)|
    ensures var keys := Sorted(tree.Keys);
            keys[i] !in Part(tree, keys[..i]) && ParentListed(Part(tree, keys[..i]), keys[i])
  {
    var keys := Sorted(tree.Keys);
    var path := keys[i];
    assert path in keys;
    SortedDistinct(tree.Keys);
    assert ParentListed(tree, path);
    var dir := Split(path).0;
    if dir != "" {
      SplitOfNormal(path);
      assert dir <= path && dir != path;
      PrefixLess(dir, path);
      var at := SortedFinds(tree.Keys, dir, i);
      assert keys[..i][at] == dir;
    }
  }

  lemma FromTreeHolds(tree: Tree)
    requires WellFormed(tree)
    ensures Holds(FromTree(tree), tree)
  {
    hide Holds, Load, Sorted;
    var keys := Sorted(tree.Keys);
    LoadHolds(tree, |keys|);
    assert keys[..|keys|] == keys;
    assert Part(tree, keys) == tree;
  }

  /** Loading a snapshot and reading the tree back gives the snapshot. */
  lemma RoundTrip(tree: Tree)
    requires WellFormed(tree)
    ensures Closed(FromTree(tree)) && ToTree(FromTree(tree)) == tree
  {
    FromTreeHolds(tree);
    HeldTreeIsShown(FromTree(tree), tree);
  }

  /** Every tree a crash can leave is well formed, so it can be taken as a snapshot again. */
  lemma RoundTripOfShown(fs: Image)
    requires Closed(fs) && NamesAreValid(fs)
    ensures WellFormed(ToTree(fs))
    ensures Closed(FromTree(ToTree(fs))) && ToTree(FromTree(ToTree(fs))) == ToTree(fs)
  {
    ToTreeIsSound(fs);
    RoundTrip(ToTree(fs));
  }

  // ------------------------------------------------------------- the program

  lemma ParentIsThere(tree: Tree, i: nat)
    requires WellFormed(tree) && i < |Sorted(tree.Keys)|
    ensures HasDirAt(Load(tree, Sorted(tree.Keys)[..i]), Split(Sorted(tree.Keys)[i]).0)
  {
    hide Sorted, Split, Lookup, Load, ParentListed;
    LoadHolds(tree, i);
    ParentIsEarlier(tree, i);
    ListedParentIsDir(Load(tree, Sorted(tree.Keys)[..i]), Part(tree, Sorted(tree.Keys)[..i]), Sorted(tree.Keys)[i]);
  }

  /** `from_tree`: neither of its two assumptions about the snapshot can fail on a well-formed one. */
  method LoadTree(tree: Tree) returns (fs: Fs)
    requires WellFormed(tree)
    ensures fresh(fs) && fs.nodes == FromTree(tree)
  {
    hide Lookup, Split, Sorted, Closed, Holds, WellFormed;
    fs := new Fs([DirNode(map[])]);
    var keys := Sorted(tree.Keys);
    assert keys[..0] == [];
    var i := 0;
    while i < |keys|
      invariant i <= |keys|
      invariant fs.nodes == Load(tree, keys[..i])
    {
      ParentIsThere(tree, i);
      LoadSnoc(tree, keys, i);
      var (dir, name) := Split(keys[i]);
      var parent := fs.FindPath(dir);
      assert parent.Some? && fs.nodes[parent.value].DirNode?;
      var ino := fs.Push(NodeOf(tree[keys[i]]));
      fs.Insert(parent.value, name, ino);
      i := i + 1;
    }
    assert keys[..i] == keys;
  }
}
