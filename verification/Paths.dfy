/** Slash-separated relative paths.

    The program keeps paths as strings and cuts them up where it needs to:
    `lookup` walks the non-empty pieces, `split` takes off the last piece,
    `join` adds one, and a subtree is "everything starting with `d/`".  This
    module says what each of these means for the sequence of pieces. */
module Paths {

  predicate ValidName(name: string) {
    name != "" && '/' !in name
  }

  /** Where the last slash of `s` is; -1 if there is none. */
  function LastSlash(s: string): (i: int)
    ensures -1 <= i < |s|
    ensures 0 <= i ==> s[i] == '/'
  {
    LastSlashIn(s, |s|)
  }

  /** The same for the first `n` characters. */
  function LastSlashIn(s: string, n: nat): (i: int)
    requires n <= |s|
    ensures -1 <= i < n
    ensures 0 <= i ==> s[i] == '/'
  {
    if n == 0 then -1 else if s[n - 1] == '/' then n - 1 else LastSlashIn(s, n - 1)
  }

  lemma {:induction false} NoSlashIn(s: string, n: nat)
    requires n <= |s|
    ensures forall j :: LastSlashIn(s, n) < j < n ==> s[j] != '/'
  {
    if n > 0 {
      NoSlashIn(s, n - 1);
    }
  }

  lemma NoSlashAfter(s: string)
    ensures forall j :: LastSlash(s) < j < |s| ==> s[j] != '/'
  {
    NoSlashIn(s, |s|);
  }

  /** Everything before the last slash, and everything after it. */
  function Split(path: string): (string, string) {
    var i := LastSlash(path);
    if i < 0 then ("", path) else (path[..i], path[i + 1..])
  }

  /** The non-empty pieces of `path`, in order. */
  function Parts(path: string): seq<string> {
    Pieces(path, |path|, |path|)
  }

  /** The pieces of the first `end` characters, of which the last was scanned from `end` down to `n`. */
  function Pieces(path: string, n: nat, end: nat): seq<string>
    requires n <= end <= |path|
  {
    if n == 0 then (if end == 0 then [] else [path[..end]])
    else if path[n - 1] != '/' then Pieces(path, n - 1, end)
    else Pieces(path, n - 1, n - 1) + (if n == end then [] else [path[n..end]])
  }

  function Join(prefix: string, name: string): string {
    if prefix == "" then name else prefix + "/" + name
  }

  /** No leading, trailing or doubled slash. */
  predicate Normal(path: string)
    decreases |path|
  {
    var i := LastSlash(path);
    path == "" || (i + 1 < |path| && i != 0 && (i > 0 ==> Normal(path[..i])))
  }

  /** `path` is `dir` or lies beneath it. */
  predicate Below(dir: string, path: string) {
    path == dir || dir + "/" <= path
  }

  // ---------------------------------------------------------------- pieces

  lemma {:induction false} ScannedPieces(path: string, n: nat, end: nat)
    requires n <= end <= |path|
    ensures var i := LastSlashIn(path, n);
            Pieces(path, n, end) == (if i < 0 then [] else Pieces(path, i, i))
                                    + (if i + 1 == end then [] else [path[i + 1..end]])
  {
    if n > 0 && path[n - 1] != '/' {
      ScannedPieces(path, n - 1, end);
    }
  }

  lemma {:induction false} PiecesOfPrefix(path: string, m: nat, n: nat, end: nat)
    requires n <= end <= m <= |path|
    ensures Pieces(path[..m], n, end) == Pieces(path, n, end)
    decreases n
  {
    assert path[..m][n..end] == path[n..end] && path[..m][..end] == path[..end];
    if n > 0 {
      PiecesOfPrefix(path, m, n - 1, if path[n - 1] != '/' then end else n - 1);
    }
  }

  lemma NoPieces(path: string)
    requires path == ""
    ensures Pieces(path, 0, 0) == []
  {
  }

  /** The pieces before the last slash, and the one after it. */
  lemma PartsAre(path: string)
    ensures path == "" ==> Parts(path) == []
    ensures path != "" ==>
              var i := LastSlash(path);
              Parts(path) == (if i < 0 then [] else Parts(path[..i]))
                             + (if i + 1 == |path| then [] else [path[i + 1..]])
  {
    hide Pieces;
    ScannedPieces(path, |path|, |path|);
    var i := LastSlash(path);
    if i >= 0 {
      PiecesOfPrefix(path, i, i, i);
      assert |path[..i]| == i;
    }
    if path == "" {
      NoPieces(path);
    }
    assert path[..|path|] == path;
  }

  lemma EmptyHasNoPieces()
    ensures Parts("") == [] && Normal("")
  {
  }

  lemma LastSlashIs(s: string, i: int)
    requires -1 <= i < |s| && (0 <= i ==> s[i] == '/')
    requires forall j :: i < j < |s| ==> s[j] != '/'
    ensures LastSlash(s) == i
  {
    NoSlashAfter(s);
    var k := LastSlash(s);
    assert !(i < k) && !(k < i);
  }

  /** What `join` builds, taken apart again. */
  lemma JoinSplits(prefix: string, name: string)
    requires ValidName(name)
    ensures Split(Join(prefix, name)) == (prefix, name)
    ensures Parts(Join(prefix, name)) == Parts(prefix) + [name]
    ensures Normal(Join(prefix, name)) <==> Normal(prefix)
  {
    PartsAre(Join(prefix, name));
    hide LastSlash;
    var path := Join(prefix, name);
    if prefix == "" {
      assert name[0..] == name;
      LastSlashIs(path, -1);
    } else {
      assert path[|prefix| + 1..] == name && path[..|prefix|] == prefix;
      forall j | |prefix| < j < |path| ensures path[j] != '/' {
        assert path[j] == name[j - |prefix| - 1];
      }
      LastSlashIs(path, |prefix|);
    }
  }

  lemma CutAt(s: string, i: nat)
    requires i < |s| && s[i] == '/'
    ensures s == s[..i] + "/" + s[i + 1..]
  {
  }

  lemma SplitJoins(path: string)
    requires path != "" && LastSlash(path) != 0 && LastSlash(path) + 1 < |path|
    ensures var (dir, name) := Split(path); ValidName(name) && path == Join(dir, name) && |dir| < |path|
  {
    hide LastSlash;
    NoSlashAfter(path);
    var i := LastSlash(path);
    NoSlashFrom(path, i + 1);
    if i >= 0 {
      CutAt(path, i);
      assert path[..i] != "";
    }
  }

  lemma NoSlashFrom(s: string, from: nat)
    requires from <= |s| && forall j :: from <= j < |s| ==> s[j] != '/'
    ensures '/' !in s[from..]
  {
  }

  /** On a normal path `split` takes off exactly the last piece. */
  lemma SplitOfNormal(path: string)
    requires Normal(path) && path != ""
    ensures var (dir, name) := Split(path);
            Normal(dir) && ValidName(name) && path == Join(dir, name) && Parts(path) == Parts(dir) + [name]
    ensures |Split(path).0| < |path|
  {
    SplitJoins(path);
    var (dir, name) := Split(path);
    JoinSplits(dir, name);
  }

  lemma {:induction false} NormalPartsAreNames(path: string)
    requires Normal(path)
    ensures forall name :: name in Parts(path) ==> ValidName(name)
    ensures path != "" ==> Parts(path) != []
    decreases |path|
  {
    if path != "" {
      SplitOfNormal(path);
      NormalPartsAreNames(Split(path).0);
    }
  }

  /** A normal path is determined by its pieces. */
  lemma {:induction false} NormalPathsDiffer(a: string, b: string)
    requires Normal(a) && Normal(b) && Parts(a) == Parts(b)
    ensures a == b
    decreases |a|
  {
    NormalPartsAreNames(a);
    NormalPartsAreNames(b);
    if a != "" && b != "" {
      SplitOfNormal(a);
      SplitOfNormal(b);
      var (da, na) := Split(a);
      var (db, nb) := Split(b);
      SnocInjective(Parts(da), na, Parts(db), nb);
      NormalPathsDiffer(da, db);
    }
  }

  lemma SameParts(a: string, b: string)
    requires Normal(a) && Normal(b)
    ensures Parts(a) == Parts(b) <==> a == b
  {
    if Parts(a) == Parts(b) {
      NormalPathsDiffer(a, b);
    }
  }

  lemma SnocInjective<T>(a: seq<T>, x: T, b: seq<T>, y: T)
    requires a + [x] == b + [y]
    ensures a == b && x == y
  {
    assert (a + [x])[..|a|] == a && (b + [y])[..|b|] == b;
    assert (a + [x])[|a|] == x && (b + [y])[|b|] == y;
  }

  /** What `split` leaves on the left names a prefix of the walk `lookup` makes, for every string:
      so whenever the whole path resolves, its parent does. */
  lemma SplitIsPrefix(path: string)
    ensures Parts(Split(path).0) <= Parts(path)
  {
    PartsAre(path);
  }

  // --------------------------------------------------------------- subtree

  lemma BelowItself(path: string)
    ensures Below(path, path)
  {
  }

  lemma NoSlashInside(dir: string, prefix: string, name: string)
    requires ValidName(name) && dir != Join(prefix, name) && dir + "/" <= Join(prefix, name)
    ensures prefix != "" && |dir| <= |prefix|
  {
    var path := Join(prefix, name);
    var i := LastSlash(path);
    JoinSplits(prefix, name);
    NoSlashAfter(path);
    assert path[|dir|] == '/';
  }

  /** One step down: being below `dir` is decided by the parent. */
  lemma BelowParent(dir: string, prefix: string, name: string)
    requires ValidName(name) && dir != ""
    ensures dir != Join(prefix, name) ==>
              (Below(dir, Join(prefix, name)) <==> prefix != "" && Below(dir, prefix))
  {
    var path := Join(prefix, name);
    if dir != path && dir + "/" <= path {
      assert path[|dir|] == '/';
      NoSlashInside(dir, prefix, name);
      assert path[..|prefix|] == prefix;
      if |dir| < |prefix| {
        assert prefix[..|dir| + 1] == path[..|dir| + 1];
      }
    }
  }

  lemma PrefixOfSnoc<T>(d: seq<T>, p: seq<T>, x: T)
    ensures d <= p + [x] <==> d == p + [x] || d <= p
  {
    if d <= p + [x] && |d| <= |p| {
      assert d == (p + [x])[..|d|] == p[..|d|];
    }
  }

  /** "Starts with `dir/`" is exactly "the pieces of `dir` are a prefix". */
  lemma {:induction false} BelowIsPrefix(dir: string, path: string)
    requires Normal(dir) && Normal(path) && dir != ""
    ensures Below(dir, path) <==> Parts(dir) <= Parts(path)
    decreases |path|
  {
    if path == "" {
      NormalPartsAreNames(dir);
    } else if path != dir {
      SplitOfNormal(path);
      var (prefix, name) := Split(path);
      BelowParent(dir, prefix, name);
      PrefixOfSnoc(Parts(dir), Parts(prefix), name);
      if Parts(dir) == Parts(path) {
        NormalPathsDiffer(dir, path);
      }
      BelowIsPrefix(dir, prefix);
      if prefix == "" {
        NormalPartsAreNames(dir);
      }
    }
  }

  /** `path`, which lies below `to`, before `from` was moved to `to`. */
  function Origin(from: string, to: string, path: string): string
    requires Below(to, path)
  {
    from + path[|to|..]
  }

  /** Moving a path from below `from` to below `to`, on strings and on pieces. */
  lemma {:induction false} Rebase(from: string, to: string, path: string)
    requires Normal(from) && Normal(to) && Normal(path) && from != "" && to != "" && Below(to, path)
    ensures Normal(Origin(from, to, path)) && Below(from, Origin(from, to, path))
    ensures Parts(to) <= Parts(path)
    ensures Parts(Origin(from, to, path)) == Parts(from) + Parts(path)[|Parts(to)|..]
    decreases |path|
  {
    if path == to {
      assert Origin(from, to, path) == from;
    } else {
      SplitOfNormal(path);
      hide Normal, Parts, LastSlash, Split, Below, Origin;
      var (prefix, name) := Split(path);
      BelowParent(to, prefix, name);
      Rebase(from, to, prefix);
      RebaseStep(from, to, prefix, name);
      var before := Origin(from, to, prefix);
      JoinSplits(before, name);
      BelowParent(from, before, name);
      RebaseParts(Parts(before), Parts(from), Parts(to), Parts(prefix), name);
    }
  }

  lemma RebaseParts<T>(before: seq<T>, from: seq<T>, to: seq<T>, prefix: seq<T>, name: T)
    requires to <= prefix && before == from + prefix[|to|..]
    ensures to <= prefix + [name] && before + [name] == from + (prefix + [name])[|to|..]
  {
  }

  lemma RebaseStep(from: string, to: string, prefix: string, name: string)
    requires from != "" && prefix != "" && Below(to, prefix)
    ensures Below(to, Join(prefix, name))
    ensures Origin(from, to, Join(prefix, name)) == Join(Origin(from, to, prefix), name)
  {
    var path := prefix + "/" + name;
    assert path[|to|..] == prefix[|to|..] + "/" + name;
    if prefix == to {
      assert to + "/" <= path;
    } else {
      assert (to + "/") == prefix[..|to| + 1] == path[..|to| + 1];
    }
  }
}
