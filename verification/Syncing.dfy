/** Writing a tree to disk: in full, or by changing only what differs. */
module Syncing {
  import opened Trace
  import opened Paths
  import opened Order
  import opened Reference

  /** A directory on disk. Each call needs what the operating system needs of it. */
  class Disk {
    var tree: Tree

    constructor (tree: Tree)
      ensures this.tree == tree
    {
      this.tree := tree;
    }

    method RemoveFile(path: string)
      requires path in tree && tree[path].File?
      modifies this
      ensures tree == old(tree) - {path}
    {
      tree := tree - {path};
    }

    method RemoveDirAll(path: string)
      requires path in tree && tree[path].Dir?
      modifies this
      ensures tree == Without(old(tree), path)
    {
      tree := map p | p in tree && !Below(path, p) :: tree[p];
    }

    method CreateDir(path: string)
      requires ParentListed(tree, path) && path !in tree
      modifies this
      ensures tree == old(tree)[path := Dir]
    {
      tree := tree[path := Dir];
    }

    method WriteFile(path: string, data: seq<Byte>)
      requires ParentListed(tree, path) && (path in tree ==> tree[path].File?)
      modifies this
      ensures tree == old(tree)[path := File(data)]
    {
      tree := tree[path := File(data)];
    }
  }

  // ------------------------------------------------------------- parents first

  /** Everything above an entry of a well-formed tree is listed, as a directory. */
  lemma {:induction false} AboveIsListed(tree: Tree, path: string, below: string)
    requires WellFormed(tree) && below in tree && Normal(path) && path != "" && Below(path, below) && path != below
    ensures path in tree && tree[path].Dir?
    decreases |below|
  {
    hide Normal, Split, Below;
    SplitOfNormal(below);
    var (dir, name) := Split(below);
    assert ParentListed(tree, below);
    BelowParent(path, dir, name);
    if dir != path {
      AboveIsListed(tree, path, dir);
    }
  }

  lemma BelowComesLater(path: string, below: string)
    requires Below(path, below) && path != below
    ensures Less(path, below)
  {
    assert path <= below;
    PrefixLess(path, below);
  }

  lemma ParentComesEarlier(path: string)
    requires Normal(path) && path != "" && Split(path).0 != ""
    ensures Less(Split(path).0, path)
  {
    SplitOfNormal(path);
    PrefixLess(Split(path).0, path);
  }

  /** The keys from index `i` on. */
  function From(keys: seq<string>, i: nat): (s: set<string>)
    requires i <= |keys|
  {
    set k | k in keys[i..]
  }

  function Until(keys: seq<string>, i: nat): (s: set<string>)
    requires i <= |keys|
  {
    set k | k in keys[..i]
  }

  lemma FromGrows(keys: seq<string>, i: nat)
    requires 0 < i <= |keys|
    ensures From(keys, i - 1) == From(keys, i) + {keys[i - 1]}
  {
    assert keys[i - 1..] == [keys[i - 1]] + keys[i..];
  }

  lemma UntilGrows(keys: seq<string>, i: nat)
    requires i < |keys|
    ensures Until(keys, i + 1) == Until(keys, i) + {keys[i]}
  {
    assert keys[..i + 1] == keys[..i] + [keys[i]];
  }

  lemma LaterIsFrom(keys: set<string>, i: nat, k: string)
    requires 0 < i <= |Sorted(keys)| && k in keys && Less(Sorted(keys)[i - 1], k)
    ensures k in From(Sorted(keys), i)
  {
    var j :| 0 <= j < |Sorted(keys)| && Sorted(keys)[j] == k;
    if j < i {
      LessTotal(Sorted(keys)[i - 1], k);
      if j < i - 1 {
        SortedIncreases(keys, j, i - 1);
      }
    }
    assert Sorted(keys)[i..][j - i] == k;
  }

  lemma EarlierIsUntil(keys: set<string>, i: nat, k: string)
    requires i < |Sorted(keys)| && k in keys && Less(k, Sorted(keys)[i])
    ensures k in Until(Sorted(keys), i)
  {
    var j := SortedFinds(keys, k, i);
    assert Sorted(keys)[..i][j] == k;
  }

  lemma SortedOnce(keys: set<string>, i: nat)
    requires 0 < i <= |Sorted(keys)|
    ensures Sorted(keys)[i - 1] !in From(Sorted(keys), i)
  {
    var s := Sorted(keys);
    if s[i - 1] in s[i..] {
      var j :| 0 <= j < |s[i..]| && s[i..][j] == s[i - 1];
      SortedIncreases(keys, i - 1, i + j);
      LessTotal(s[i - 1], s[i - 1]);
    }
  }

  // ------------------------------------------------------------------ syncing

  /** What the first pass leaves: entries that are wanted with the same kind. */
  predicate Kept(current: Tree, wanted: Tree, path: string) {
    path in current && path in wanted && current[path].Dir? == wanted[path].Dir?
  }

  ghost predicate Cleared(tree: Tree, current: Tree, wanted: Tree, done: set<string>) {
    && (forall p :: p in tree <==> p in current && (p in done ==> Kept(current, wanted, p)))
    && (forall p :: p in tree && p in current ==> tree[p] == current[p])
  }

  ghost predicate Written(tree: Tree, current: Tree, wanted: Tree, done: set<string>) {
    && (forall p :: p in tree <==> p in done || Kept(current, wanted, p))
    && (forall p :: p in tree ==> if p in done then p in wanted && tree[p] == wanted[p] else tree[p] == current[p])
  }

  /** When an unwanted directory's turn comes, nothing is left below it. */
  lemma NothingLeftBelow(tree: Tree, current: Tree, wanted: Tree, i: nat)
    requires WellFormed(current) && WellFormed(wanted) && 0 < i <= |Sorted(current.Keys)|
    requires Cleared(tree, current, wanted, From(Sorted(current.Keys), i))
    requires !Kept(current, wanted, Sorted(current.Keys)[i - 1]) && current[Sorted(current.Keys)[i - 1]].Dir?
    ensures Without(tree, Sorted(current.Keys)[i - 1]) == tree - {Sorted(current.Keys)[i - 1]}
  {
    hide Normal, Below, Sorted, From, Split;
    var path := Sorted(current.Keys)[i - 1];
    assert path in Sorted(current.Keys);
    BelowItself(path);
    forall p | p in tree && p != path ensures !Below(path, p) {
      if Below(path, p) {
        BelowComesLater(path, p);
        LaterIsFrom(current.Keys, i, p);
        AboveIsListed(wanted, path, p);
      }
    }
  }

  /** First pass: children before parents, remove what is not wanted with that kind. */
  method Clear(disk: Disk, current: Tree, wanted: Tree)
    requires WellFormed(current) && WellFormed(wanted) && disk.tree == current
    modifies disk
    ensures Cleared(disk.tree, current, wanted, current.Keys)
  {
    hide WellFormed, Sorted, Without, From;
    var keys := Sorted(current.Keys);
    var i := |keys|;
    NothingFrom(keys);
    while i > 0
      invariant 0 <= i <= |keys| && Cleared(disk.tree, current, wanted, From(keys, i))
    {
      var path := keys[i - 1];
      assert path in keys;
      FromGrows(keys, i);
      SortedOnce(current.Keys, i);
      if path in wanted && current[path].Dir? == wanted[path].Dir? {
      } else if current[path].Dir? {
        NothingLeftBelow(disk.tree, current, wanted, i);
        disk.RemoveDirAll(path);
      } else {
        disk.RemoveFile(path);
      }
      i := i - 1;
    }
    EverythingFrom(current.Keys);
  }

  lemma NothingFrom(keys: seq<string>)
    ensures From(keys, |keys|) == {} && Until(keys, 0) == {}
  {
  }

  lemma EverythingFrom(keys: set<string>)
    ensures From(Sorted(keys), 0) == keys && Until(Sorted(keys), |Sorted(keys)|) == keys
  {
    var s := Sorted(keys);
    assert s[0..] == s && s[..|s|] == s;
  }

  /** The parent of the next path to write is already there. */
  lemma ParentIsWritten(tree: Tree, current: Tree, wanted: Tree, i: nat)
    requires WellFormed(wanted) && i < |Sorted(wanted.Keys)|
    requires Written(tree, current, wanted, Until(Sorted(wanted.Keys), i))
    ensures ParentListed(tree, Sorted(wanted.Keys)[i])
  {
    hide Normal, Sorted, Until, Split, Kept;
    var path := Sorted(wanted.Keys)[i];
    assert path in Sorted(wanted.Keys);
    assert ParentListed(wanted, path);
    if Split(path).0 != "" {
      ParentComesEarlier(path);
      EarlierIsUntil(wanted.Keys, i, Split(path).0);
    }
  }

  /** Second pass: parents before children, write what is missing or different. */
  method Fill(disk: Disk, current: Tree, wanted: Tree)
    requires WellFormed(wanted) && Cleared(disk.tree, current, wanted, current.Keys)
    modifies disk
    ensures disk.tree == wanted
  {
    hide WellFormed, Sorted, Until, ParentListed, Written, Cleared;
    FirstPassLeaves(disk.tree, current, wanted);
    var keys := Sorted(wanted.Keys);
    var i := 0;
    NothingFrom(keys);
    while i < |keys|
      invariant i <= |keys| && Written(disk.tree, current, wanted, Until(keys, i))
    {
      var path := keys[i];
      assert path in keys;
      UntilGrows(keys, i);
      ParentIsWritten(disk.tree, current, wanted, i);
      NotWrittenYet(wanted.Keys, i);
      OneMoreWritten(disk.tree, current, wanted, Until(keys, i), path);
      if path in current && wanted[path] == current[path] {
      } else if wanted[path].Dir? {
        disk.CreateDir(path);
      } else {
        disk.WriteFile(path, wanted[path].data);
      }
      i := i + 1;
    }
    EverythingFrom(wanted.Keys);
    AllWritten(disk.tree, current, wanted);
  }

  lemma FirstPassLeaves(tree: Tree, current: Tree, wanted: Tree)
    requires Cleared(tree, current, wanted, current.Keys)
    ensures Written(tree, current, wanted, {})
  {
  }

  lemma AllWritten(tree: Tree, current: Tree, wanted: Tree)
    requires Written(tree, current, wanted, wanted.Keys)
    ensures tree == wanted
  {
  }

  lemma OneMoreWritten(tree: Tree, current: Tree, wanted: Tree, done: set<string>, path: string)
    requires Written(tree, current, wanted, done) && path in wanted && path !in done
    ensures path in current && wanted[path] == current[path] ==> Written(tree, current, wanted, done + {path})
    ensures path in tree && (path in current ==> wanted[path] != current[path]) ==>
              tree[path].File? && wanted[path].File?
    ensures Written(tree[path := wanted[path]], current, wanted, done + {path})
  {
  }

  lemma NotWrittenYet(keys: set<string>, i: nat)
    requires i < |Sorted(keys)|
    ensures Sorted(keys)[i] !in Until(Sorted(keys), i)
  {
    var s := Sorted(keys);
    if s[i] in s[..i] {
      var j :| 0 <= j < i && s[..i][j] == s[i];
      SortedIncreases(keys, j, i);
      LessTotal(s[i], s[i]);
    }
  }

  /** `write_to`: into an empty directory. */
  method WriteTo(disk: Disk, wanted: Tree)
    requires WellFormed(wanted) && disk.tree == map[]
    modifies disk
    ensures disk.tree == wanted
  {
    Fill(disk, map[], wanted);
  }

  /** `sync_to`: from whatever is there to exactly what is wanted, the same as clearing everything and
      writing it out, though entries that are already right are not touched; every removal and every
      write on the way finds what it needs. */
  method SyncTo(disk: Disk, wanted: Tree)
    requires WellFormed(disk.tree) && WellFormed(wanted)
    modifies disk
    ensures disk.tree == wanted
  {
    var current := disk.tree;
    Clear(disk, current, wanted);
    Fill(disk, current, wanted);
  }
}
