/** What each namespace change does to every walk from the root at once, and
    that all of them keep the directory structure a tree. */
module Reshape {
  import opened Wrappers
  import opened Paths
  import opened FileSystem
  import opened Namespace

  predicate IsBare(node: Node) {
    node.DirNode? ==> node.entries == map[]
  }

  ghost predicate Unreachable(fs: Image, ino: Ino) {
    forall p :: Resolve(fs, p) != Some(ino)
  }

  // -------------------------------------------------------------- new inode

  lemma {:induction false} PushKeepsWalks(fs: Image, node: Node, p: seq<string>)
    requires Closed(fs) && IsBare(node)
    ensures Resolve(fs + [node], p) == Resolve(fs, p)
    ensures Resolve(fs, p) != Some(|fs|)
    decreases |p|
  {
    if p != [] {
      PushKeepsWalks(fs, node, p[..|p| - 1]);
    }
  }

  lemma PushKeepsTidy(fs: Image, node: Node)
    requires Tidy(fs) && IsBare(node)
    ensures Tidy(fs + [node]) && Unreachable(fs + [node], |fs|)
    ensures forall p :: Resolve(fs + [node], p) == Resolve(fs, p)
  {
    forall p ensures Resolve(fs + [node], p) == Resolve(fs, p) && Resolve(fs, p) != Some(|fs|) {
      PushKeepsWalks(fs, node, p);
    }
    var grown := fs + [node];
    forall d, name | 0 <= d < |grown| && grown[d].DirNode? && name in grown[d].entries
      ensures grown[d].entries[name] < |grown| && ValidName(name)
    {
      assert d < |fs|;
    }
  }

  // -------------------------------------------------------------------- link

  /** A bare, unreachable inode linked under a new name of directory `at`. */
  ghost predicate CanLink(fs: Image, at: seq<string>, parent: Ino, name: string, ino: Ino) {
    && Tidy(fs) && Resolve(fs, at) == Some(parent) && parent < |fs| && fs[parent].DirNode?
    && ValidName(name) && name !in fs[parent].entries
    && ino < |fs| && IsBare(fs[ino]) && Unreachable(fs, ino)
  }

  lemma {:induction false} LinkWalks(fs: Image, at: seq<string>, parent: Ino, name: string, ino: Ino, q: seq<string>)
    requires CanLink(fs, at, parent, name, ino)
    ensures Resolve(Applied(fs, Link(parent, name, ino)), q) ==
            if q == at + [name] then Some(ino) else Resolve(fs, q)
    decreases |q|
  {
    if q != [] {
      var n := |q| - 1;
      LinkWalks(fs, at, parent, name, ino, q[..n]);
      assert q == q[..n] + [q[n]];
      if q[..n] == at + [name] {
        assert Resolve(fs, q[..n]).None? by {
          assert q[..n][..|at|] == at;
        }
      } else if Resolve(fs, q[..n]) == Some(parent) {
        assert q[..n] == at;
      }
    }
  }

  lemma LinkKeepsTidy(fs: Image, at: seq<string>, parent: Ino, name: string, ino: Ino)
    requires CanLink(fs, at, parent, name, ino)
    ensures Tidy(Applied(fs, Link(parent, name, ino)))
    ensures forall q :: Resolve(Applied(fs, Link(parent, name, ino)), q) ==
              if q == at + [name] then Some(ino) else Resolve(fs, q)
  {
    forall q ensures Resolve(Applied(fs, Link(parent, name, ino)), q) ==
              if q == at + [name] then Some(ino) else Resolve(fs, q)
    {
      LinkWalks(fs, at, parent, name, ino, q);
    }
    AppliedStaysClosed(fs, Link(parent, name, ino));
  }

  // ------------------------------------------------------------------ unlink

  ghost predicate CanUnlink(fs: Image, at: seq<string>, parent: Ino) {
    Tidy(fs) && Resolve(fs, at) == Some(parent) && parent < |fs|
  }

  lemma {:induction false} UnlinkWalks(fs: Image, at: seq<string>, parent: Ino, name: string, q: seq<string>)
    requires CanUnlink(fs, at, parent)
    ensures Resolve(Applied(fs, Micro.Unlink(parent, name)), q) ==
            if at + [name] <= q then None else Resolve(fs, q)
    decreases |q|
  {
    if q != [] {
      var n := |q| - 1;
      UnlinkWalks(fs, at, parent, name, q[..n]);
      assert q == q[..n] + [q[n]];
      PrefixOfSnoc(at + [name], q[..n], q[n]);
      if at + [name] == q {
        SnocInjective(at, name, q[..n], q[n]);
      }
    }
  }

  lemma UnlinkKeepsTidy(fs: Image, at: seq<string>, parent: Ino, name: string)
    requires CanUnlink(fs, at, parent)
    ensures Tidy(Applied(fs, Micro.Unlink(parent, name)))
    ensures forall q :: Resolve(Applied(fs, Micro.Unlink(parent, name)), q) ==
              if at + [name] <= q then None else Resolve(fs, q)
  {
    forall q ensures Resolve(Applied(fs, Micro.Unlink(parent, name)), q) ==
              if at + [name] <= q then None else Resolve(fs, q)
    {
      UnlinkWalks(fs, at, parent, name, q);
    }
    AppliedStaysClosed(fs, Micro.Unlink(parent, name));
  }

  // ------------------------------------------------------------------ rename

  /** Inode `ino`, found at `source + [a]`, is to appear at `target + [b]`, not inside itself. */
  ghost predicate CanMove(fs: Image, source: seq<string>, a: string, target: seq<string>, b: string, m: Micro) {
    && Tidy(fs) && m.Rename? && Fits(m, |fs|) && m.fromName == a && m.toName == b && ValidName(b)
    && Resolve(fs, source) == Some(m.from) && Resolve(fs, source + [a]) == Some(m.ino)
    && Resolve(fs, target) == Some(m.to) && fs[m.to].DirNode?
    && !(source + [a] <= target) && source + [a] != target + [b]
  }

  /** Where the walk `q` led before the move. */
  function Before(from: seq<string>, to: seq<string>, q: seq<string>): Option<seq<string>> {
    if to <= q then Some(from + q[|to|..]) else if from <= q then None else Some(q)
  }

  function ResolveOpt(fs: Image, p: Option<seq<string>>): Option<Ino> {
    if p.None? then None else Resolve(fs, p.value)
  }

  lemma {:induction false} RenameWalks(fs: Image, source: seq<string>, a: string, target: seq<string>, b: string,
                                       m: Micro, q: seq<string>)
    requires CanMove(fs, source, a, target, b, m)
    ensures Resolve(Applied(fs, m), q) == ResolveOpt(fs, Before(source + [a], target + [b], q))
    decreases |q|
  {
    if q != [] {
      var n := |q| - 1;
      RenameWalks(fs, source, a, target, b, m, q[..n]);
      assert q == q[..n] + [q[n]];
      RenameStep(fs, source, a, target, b, m, q[..n], q[n]);
    }
  }

  /** The two entries a rename changes, and all the others. */
  lemma RenamedEntries(fs: Image, m: Micro, d: Ino, x: string)
    requires m.Rename? && Fits(m, |fs|) && fs[m.to].DirNode?
    requires EntryAt(fs, m.from, m.fromName) == Some(m.ino)
    ensures EntryAt(Applied(fs, m), d, x) ==
            if d == m.to && x == m.toName then Some(m.ino)
            else if d == m.from && x == m.fromName then None
            else EntryAt(fs, d, x)
  {
  }

  lemma ResolveSnoc(fs: Image, p: seq<string>, x: string)
    ensures Resolve(fs, p + [x]) ==
            match Resolve(fs, p) case None => None case Some(d) => EntryAt(fs, d, x)
  {
    assert (p + [x])[..|p|] == p;
  }

  lemma RenameStep(fs: Image, source: seq<string>, a: string, target: seq<string>, b: string,
                   m: Micro, p: seq<string>, x: string)
    requires CanMove(fs, source, a, target, b, m)
    requires Resolve(Applied(fs, m), p) == ResolveOpt(fs, Before(source + [a], target + [b], p))
    ensures Resolve(Applied(fs, m), p + [x]) == ResolveOpt(fs, Before(source + [a], target + [b], p + [x]))
  {
    var from, to := source + [a], target + [b];
    ResolveSnoc(Applied(fs, m), p, x);
    ResolveSnoc(fs, p, x);
    ResolveSnoc(fs, source, a);
    hide Resolve, Applied, EntryAt;
    PrefixOfSnoc(to, p, x);
    PrefixOfSnoc(from, p, x);
    var was := Before(from, to, p);
    if was.Some? && Resolve(fs, was.value).Some? {
      RenamedEntries(fs, m, Resolve(fs, was.value).value, x);
    }
    if to <= p {
      var before := from + p[|to|..];
      ResolveSnoc(fs, before, x);
      RebaseParts(before, from, to, p, x);
      assert |before| > |source|;
      assert from <= before;
    } else if p + [x] == to {
      SnocInjective(p, x, target, b);
      assert from + (p + [x])[|to|..] == from;
    } else if from <= p {
    } else if p + [x] == from {
      SnocInjective(p, x, source, a);
    } else {
      assert p == source ==> x != a;
      assert p == target ==> x != b;
    }
  }

  lemma RenameKeepsTidy(fs: Image, source: seq<string>, a: string, target: seq<string>, b: string, m: Micro)
    requires CanMove(fs, source, a, target, b, m)
    ensures Tidy(Applied(fs, m))
    ensures forall q :: Resolve(Applied(fs, m), q) == ResolveOpt(fs, Before(source + [a], target + [b], q))
  {
    var from, to := source + [a], target + [b];
    forall q ensures Resolve(Applied(fs, m), q) == ResolveOpt(fs, Before(from, to, q)) {
      RenameWalks(fs, source, a, target, b, m, q);
    }
    RenameKeepsTable(fs, m);
    MovedPathsUnique(fs, Applied(fs, m), from, to);
  }

  lemma RenameKeepsTable(fs: Image, m: Micro)
    requires Closed(fs) && NamesAreValid(fs) && fs[0].DirNode? && m.Rename? && Fits(m, |fs|) && ValidName(m.toName)
    ensures Closed(Applied(fs, m)) && NamesAreValid(Applied(fs, m)) && Applied(fs, m)[0].DirNode?
  {
    AppliedStaysClosed(fs, m);
  }

  lemma MovedPathsUnique(fs: Image, after: Image, from: seq<string>, to: seq<string>)
    requires UniquePaths(fs) && forall q :: Resolve(after, q) == ResolveOpt(fs, Before(from, to, q))
    ensures UniquePaths(after)
  {
    hide Resolve;
    forall p, q | Resolve(after, p).Some? && Resolve(after, p) == Resolve(after, q)
      ensures p == q
    {
      BeforeInjective(from, to, p, q);
    }
  }

  lemma BeforeInjective(from: seq<string>, to: seq<string>, p: seq<string>, q: seq<string>)
    requires Before(from, to, p).Some? && Before(from, to, p) == Before(from, to, q)
    ensures p == q
  {
    if to <= p && to <= q {
      assert p[|to|..] == (from + p[|to|..])[|from|..] == q[|to|..];
      assert p == to + p[|to|..] && q == to + q[|to|..];
    }
  }
}
