/** Absolute paths as a log prints them, and which of them lie under the root. */
module Absolute {
  import opened Wrappers
  import opened Paths

  /** One more piece of a path: `.` stays, `..` goes up, as far as that is possible. */
  function Put(stack: seq<string>, piece: string): seq<string> {
    if piece == "" || piece == "." then stack
    else if piece == ".." then (if stack == [] then [] else stack[..|stack| - 1])
    else stack + [piece]
  }

  function Stack(pieces: seq<string>): seq<string> {
    if pieces == [] then [] else Put(Stack(pieces[..|pieces| - 1]), pieces[|pieces| - 1])
  }

  predicate IsAbsolute(path: string) {
    path != "" && path[0] == '/'
  }

  function JoinAll(parts: seq<string>): string {
    if parts == [] then "" else Join(JoinAll(parts[..|parts| - 1]), parts[|parts| - 1])
  }

  function Normalized(path: string): string {
    (if IsAbsolute(path) then "/" else "") + JoinAll(Stack(Parts(path)))
  }

  /** A name that means itself. */
  predicate PlainName(name: string) {
    ValidName(name) && name != "." && name != ".."
  }

  ghost predicate AllPlain(parts: seq<string>) {
    forall i :: 0 <= i < |parts| ==> PlainName(parts[i])
  }

  // ------------------------------------------------------------------ pieces

  lemma {:induction false} PartsAreNames(path: string)
    ensures forall i :: 0 <= i < |Parts(path)| ==> ValidName(Parts(path)[i])
    decreases |path|
  {
    hide Parts, LastSlash;
    PartsAre(path);
    if path != "" {
      NoSlashAfter(path);
      var i := LastSlash(path);
      if i >= 0 {
        PartsAreNames(path[..i]);
      }
    }
  }

  lemma {:induction false} StackIsPlain(pieces: seq<string>)
    requires forall i :: 0 <= i < |pieces| ==> ValidName(pieces[i])
    ensures AllPlain(Stack(pieces))
  {
    if pieces != [] {
      StackIsPlain(pieces[..|pieces| - 1]);
    }
  }

  lemma {:induction false} PlainStacks(parts: seq<string>)
    requires AllPlain(parts)
    ensures Stack(parts) == parts
  {
    if parts != [] {
      PlainStacks(parts[..|parts| - 1]);
    }
  }

  lemma OneJoined(parts: seq<string>)
    requires parts != []
    ensures JoinAll(parts) == Join(JoinAll(parts[..|parts| - 1]), parts[|parts| - 1])
  {
  }

  lemma NothingJoined(parts: seq<string>)
    ensures parts == [] ==> JoinAll(parts) == ""
  {
  }

  lemma {:induction false} JoinedParts(parts: seq<string>)
    requires AllPlain(parts)
    ensures Parts(JoinAll(parts)) == parts && Normal(JoinAll(parts))
    ensures parts != [] ==> JoinAll(parts) != "" && JoinAll(parts)[0] != '/'
  {
    hide Parts, Normal, LastSlash, JoinAll;
    if parts != [] {
      var prefix, name := JoinAll(parts[..|parts| - 1]), parts[|parts| - 1];
      JoinedParts(parts[..|parts| - 1]);
      JoinSplits(prefix, name);
      OneJoined(parts);
      NothingJoined(parts[..|parts| - 1]);
      assert parts[..|parts| - 1] + [name] == parts;
      assert JoinAll(parts) == if prefix == "" then name else prefix + "/" + name;
    } else {
      EmptyHasNoPieces();
      NothingJoined(parts);
    }
  }

  lemma PartsAt(path: string, i: int)
    requires path != "" && -1 <= i < |path| && (0 <= i ==> path[i] == '/')
             && forall j :: i < j < |path| ==> path[j] != '/'
    ensures Parts(path) == (if i < 0 then [] else Parts(path[..i])) + (if i + 1 == |path| then [] else [path[i + 1..]])
  {
    hide LastSlash, Parts;
    LastSlashIs(path, i);
    PartsAre(path);
  }

  lemma {:induction false} LeadingSlash(path: string)
    ensures Parts("/" + path) == Parts(path)
    decreases |path|
  {
    hide Parts, LastSlash;
    var with := "/" + path;
    NoSlashAfter(path);
    var i := LastSlash(path);
    assert forall j :: 0 <= j < |path| ==> with[j + 1] == path[j];
    PartsAt(with, i + 1);
    EmptyHasNoPieces();
    assert with[..0] == "" && with[1..] == path;
    if path != "" {
      PartsAt(path, i);
      if i >= 0 {
        assert with[..i + 1] == "/" + path[..i] && with[i + 2..] == path[i + 1..];
        LeadingSlash(path[..i]);
      }
    }
  }

  /** The pieces of a normalized path. */
  lemma NormalizedParts(path: string)
    ensures AllPlain(Stack(Parts(path))) && Parts(Normalized(path)) == Stack(Parts(path))
    ensures IsAbsolute(Normalized(path)) <==> IsAbsolute(path)
  {
    hide Parts, Normal, Stack, JoinAll;
    var parts := Stack(Parts(path));
    PartsAreNames(path);
    StackIsPlain(Parts(path));
    JoinedParts(parts);
    LeadingSlash(JoinAll(parts));
    if parts == [] {
      NothingJoined(parts);
    }
    assert "" + JoinAll(parts) == JoinAll(parts);
  }

  lemma NormalizeTwice(path: string)
    ensures Normalized(Normalized(path)) == Normalized(path)
  {
    hide Parts, Stack, JoinAll;
    NormalizedParts(path);
    PlainStacks(Stack(Parts(path)));
  }

  lemma SlicesOfBoth(a: string, b: string, i: nat)
    requires i <= |b|
    ensures var path := a + "/" + b;
            && path[|a|] == '/' && path[..|a|] == a && path[|a| + 1..] == b
            && path[..|a| + 1 + i] == a + "/" + b[..i] && path[|a| + 1 + i..] == b[i..]
            && forall j :: 0 <= j < |b| ==> path[|a| + 1 + j] == b[j]
  {
  }

  lemma Regrouped(a: seq<string>, b: seq<string>, c: seq<string>)
    ensures (a + b) + c == a + (b + c) && a + [] == a
  {
  }

  lemma {:induction false} PartsOfBoth(a: string, b: string)
    ensures Parts(a + "/" + b) == Parts(a) + Parts(b)
    decreases |b|
  {
    hide Parts, LastSlash;
    var path, n := a + "/" + b, |a| + 1;
    NoSlashAfter(b);
    var i := LastSlash(b);
    SlicesOfBoth(a, b, 0);
    EmptyHasNoPieces();
    if b == "" {
      PartsAt(path, |a|);
      Regrouped(Parts(a), [], []);
    } else {
      PartsAt(b, i);
      if i < 0 {
        PartsAfterSlash(a, b);
      } else {
        SlicesOfBoth(a, b, i);
        SlicesOfBoth(a, b, i + 1);
        AfterLastSlash(a, b, i);
        PartsAt(path, n + i);
        PartsOfBoth(a, b[..i]);
        Regrouped(Parts(a), Parts(b[..i]), if i + 1 == |b| then [] else [b[i + 1..]]);
      }
    }
  }

  lemma AfterLastSlash(a: string, b: string, i: nat)
    requires i < |b| && forall j :: i < j < |b| ==> b[j] != '/'
    ensures forall j :: |a| + 1 + i < j < |a + "/" + b| ==> (a + "/" + b)[j] != '/'
  {
    forall j | |a| + 1 + i < j < |a + "/" + b| ensures (a + "/" + b)[j] != '/' {
      assert (a + "/" + b)[j] == b[j - |a| - 1];
    }
  }

  lemma PartsAfterSlash(a: string, b: string)
    requires b != "" && forall j :: 0 <= j < |b| ==> b[j] != '/'
    ensures Parts(a + "/" + b) == Parts(a) + [b] && Parts(b) == [b]
  {
    hide Parts, LastSlash;
    var path := a + "/" + b;
    SlicesOfBoth(a, b, 0);
    forall j | |a| < j < |path| ensures path[j] != '/' {
      assert path[j] == b[j - |a| - 1];
    }
    PartsAt(path, |a|);
    PartsAt(b, -1);
    assert b[0..] == b && [] + [b] == [b];
  }

  lemma {:induction false} StackOfBoth(a: seq<string>, b: seq<string>, more: seq<string>)
    requires Stack(a) == Stack(b)
    ensures Stack(a + more) == Stack(b + more)
    decreases |more|
  {
    hide Put, Stack;
    if more == [] {
      assert a + more == a && b + more == b;
    } else {
      var n := |more| - 1;
      StackOfBoth(a, b, more[..n]);
      StackSnoc(a + more[..n], more[n]);
      StackSnoc(b + more[..n], more[n]);
      assert a + more == a + more[..n] + [more[n]] && b + more == b + more[..n] + [more[n]];
    }
  }

  lemma PartOfName(name: string)
    requires ValidName(name)
    ensures Parts(name) == [name]
  {
    hide Parts, LastSlash;
    PartsAt(name, -1);
  }

  lemma PutUp(stack: seq<string>, name: string)
    requires PlainName(name)
    ensures Put(Put(stack, name), "..") == stack && Put(stack, ".") == stack && Put([], "..") == []
  {
  }

  lemma SamePiecesSameNormal(a: string, b: string, more: string)
    requires Stack(Parts(a)) == Stack(Parts(b)) && (IsAbsolute(a) <==> IsAbsolute(b)) && a != "" && b != ""
    requires more == "" || more[0] == '/'
    ensures Normalized(a + more) == Normalized(b + more)
  {
    hide Parts, Stack, JoinAll;
    if more == "" {
      assert a + more == a && b + more == b;
    } else {
      assert more == "/" + more[1..] && a + more == a + "/" + more[1..] && b + more == b + "/" + more[1..];
      PartsOfBoth(a, more[1..]);
      PartsOfBoth(b, more[1..]);
      StackOfBoth(Parts(a), Parts(b), Parts(more[1..]));
    }
  }

  /** In any path, wherever it goes on: a plain name followed by `..` drops out, `.` and doubled slashes
      mean nothing, and there is nothing above `/`. */
  lemma NormalizeDrops(path: string, name: string, more: string)
    requires path != "" && PlainName(name) && (more == "" || more[0] == '/')
    ensures Normalized(path + "/" + name + "/.." + more) == Normalized(path + more)
    ensures Normalized(path + "/." + more) == Normalized(path + more)
    ensures Normalized(path + "/" + more) == Normalized(path + more)
    ensures Normalized("/.." + more) == Normalized("/" + more)
  {
    hide Parts, Stack, JoinAll, Normalized, Put;
    PartOfName(name);
    PartOfName("..");
    PartOfName(".");
    PutUp(Stack(Parts(path)), name);
    PartsOfBoth(path, name);
    PartsOfBoth(path + "/" + name, "..");
    PartsOfBoth(path, ".");
    PartsOfBoth(path, "");
    EmptyHasNoPieces();
    StackSnoc(Parts(path), name);
    StackSnoc(Parts(path) + [name], "..");
    StackSnoc(Parts(path), ".");
    LeadingSlash("..");
    LeadingSlash("");
    StackSnoc([], "..");
    StackOfNothing();
    assert path + "/" + name + "/" + ".." == path + "/" + name + "/.." && path + "/" + "." == path + "/.";
    assert path + "/" + "" == path + "/" && Parts(path) + [] == Parts(path) && [] + [".."] == [".."];
    assert "/" + ".." == "/.." && "/" + "" == "/";
    SamePiecesSameNormal(path + "/" + name + "/..", path, more);
    SamePiecesSameNormal(path + "/.", path, more);
    SamePiecesSameNormal(path + "/", path, more);
    SamePiecesSameNormal("/..", "/", more);
  }

  lemma StackOfNothing()
    ensures Stack([]) == []
  {
  }

  /** `normalize`: piece by piece, with a stack. */
  method Normalize(path: string) returns (out: string)
    ensures out == Normalized(path)
  {
    hide Normal, JoinAll, Parts, LastSlash, Put;
    var parts: seq<string> := [];
    var start, i := 0, 0;
    EmptyHasNoPieces();
    assert path[..0] == "";
    while i < |path|
      invariant start <= i <= |path| && (forall j :: start <= j < i ==> path[j] != '/')
      invariant start == 0 || path[start - 1] == '/'
      invariant parts == Stack(Parts(path[..start]))
    {
      if path[i] == '/' {
        NextPiece(path, start, i);
        parts := Put(parts, path[start..i]);
        start := i + 1;
      }
      i := i + 1;
    }
    LastPiece(path, start);
    parts := Put(parts, path[start..]);
    out := (if IsAbsolute(path) then "/" else "") + JoinAll(parts);
  }

  lemma StackSnoc(pieces: seq<string>, piece: string)
    ensures Stack(pieces + [piece]) == Put(Stack(pieces), piece)
  {
    assert (pieces + [piece])[..|pieces|] == pieces;
  }

  /** The pieces up to `end`, when there is no slash from `start` to there. */
  lemma LastPiece(path: string, start: nat)
    requires start <= |path| && (start == 0 || path[start - 1] == '/')
             && forall j :: start <= j < |path| ==> path[j] != '/'
    ensures Stack(Parts(path)) == Put(Stack(Parts(path[..start])), path[start..])
  {
    hide Stack, Parts, LastSlash, Put;
    DirParts(path, start);
    if start == |path| {
      assert path[..start] == path && path[start..] == "";
      PutNothing(Stack(Parts(path)));
    } else {
      PartsAt(path, start - 1);
      StackSnoc(Parts(path[..start]), path[start..]);
      if start == 0 {
        assert path[0..] == path && [] + [path] == [path];
      }
    }
  }

  lemma PutNothing(stack: seq<string>)
    ensures Put(stack, "") == stack
  {
  }

  /** A trailing slash adds no piece. */
  lemma DirParts(path: string, start: nat)
    requires start <= |path| && (start == 0 || path[start - 1] == '/')
    ensures start == 0 ==> Parts(path[..start]) == []
    ensures start > 0 ==> Parts(path[..start]) == Parts(path[..start - 1])
  {
    hide Parts, LastSlash;
    EmptyHasNoPieces();
    if start > 0 {
      var dir := path[..start];
      PartsAt(dir, start - 1);
      assert dir[..start - 1] == path[..start - 1];
    } else {
      assert path[..0] == "";
    }
  }

  lemma NextPiece(path: string, start: nat, end: nat)
    requires start <= end < |path| && path[end] == '/'
    requires (start == 0 || path[start - 1] == '/') && forall j :: start <= j < end ==> path[j] != '/'
    ensures Stack(Parts(path[..end + 1])) == Put(Stack(Parts(path[..start])), path[start..end])
  {
    hide Stack, Parts, LastSlash, Put;
    DirParts(path, end + 1);
    assert path[..end][..start] == path[..start] && path[..end][start..] == path[start..end];
    LastPiece(path[..end], start);
  }

  // ------------------------------------------------------------ under the root

  const DELETED := " (deleted)"

  predicate EndsWith(s: string, end: string) {
    |end| <= |s| && s[|s| - |end|..] == end
  }

  lemma EndsWithIs(s: string, end: string)
    ensures EndsWith(s, end) <==> exists before :: s == before + end
  {
    if EndsWith(s, end) {
      assert s == s[..|s| - |end|] + end;
    }
  }

  function TrimmedRoot(root: string): string {
    if root == "/" then "" else root
  }

  /** `rel`: where an absolute path is below the root, if it is. */
  function Rel(root: string, path: string): Option<string> {
    if EndsWith(path, DELETED) then None else
    var abs := Normalized(path);
    if abs == root then Some("")
    else if TrimmedRoot(root) + "/" <= abs then Some(abs[|TrimmedRoot(root)| + 1..]) else None
  }

  lemma {:induction false} JoinedTwice(a: seq<string>, b: seq<string>)
    requires a != [] && b != [] && AllPlain(a) && AllPlain(b)
    ensures JoinAll(a + b) == JoinAll(a) + "/" + JoinAll(b)
    decreases |b|
  {
    hide Parts, Normal, LastSlash, JoinAll, PlainName;
    var n := |b| - 1;
    assert (a + b)[..|a| + n] == a + b[..n];
    JoinedParts(a);
    OneJoined(a + b);
    OneJoined(b);
    if n > 0 {
      JoinedTwice(a, b[..n]);
      JoinedParts(b[..n]);
      Regroup(JoinAll(a), JoinAll(b[..n]), b[n]);
    } else {
      assert a + b[..0] == a;
      NothingJoined(b[..0]);
    }
  }

  lemma Regroup(a: string, b: string, c: string)
    ensures (a + "/" + b) + "/" + c == a + "/" + (b + "/" + c)
  {
  }

  lemma SuffixOf(a: string, b: string)
    ensures (a + "/" + b)[|a| + 1..] == b && a + "/" <= a + "/" + b
  {
  }

  /** On pieces: a path is under the root exactly if the root's pieces come first, and what is left
      of it is a normal path made of the remaining ones; but a path that ends like that of a deleted
      file is taken for one. */
  lemma RelIsRest(root: seq<string>, path: string)
    requires AllPlain(root) && IsAbsolute(path)
    ensures var parts := Stack(Parts(path));
            Rel("/" + JoinAll(root), path) ==
            if root <= parts && !EndsWith(path, DELETED) then Some(JoinAll(parts[|root|..])) else None
  {
    hide Parts, Normal, Stack, JoinAll, EndsWith;
    var parts := Stack(Parts(path));
    NormalizedParts(path);
    JoinedParts(parts);
    JoinedParts(root);
    if root == [] {
      UnderSlash(parts);
    } else {
      UnderRoot(root, parts);
    }
  }

  lemma UnderSlash(parts: seq<string>)
    requires AllPlain(parts)
    ensures parts[0..] == parts
    ensures ("/" + JoinAll(parts) == "/" <==> parts == []) && "/" <= "/" + JoinAll(parts)
    ensures ("/" + JoinAll(parts))[1..] == JoinAll(parts) && JoinAll([]) == ""
  {
    hide Parts, Normal;
    JoinedParts(parts);
  }

  lemma UnderRoot(root: seq<string>, parts: seq<string>)
    requires root != [] && AllPlain(root) && AllPlain(parts)
    ensures var r, abs := "/" + JoinAll(root), "/" + JoinAll(parts);
            && r != "/" && (abs == r <==> parts == root)
            && (abs != r ==> (r + "/" <= abs <==> root <= parts))
            && (root <= parts && parts != root ==> abs[|r| + 1..] == JoinAll(parts[|root|..]))
            && (parts == root ==> JoinAll(parts[|root|..]) == "")
  {
    hide Parts, Normal, LastSlash, JoinAll, AllPlain, Below, Split;
    JoinedParts(root);
    JoinedParts(parts);
    var r, abs := JoinAll(root), JoinAll(parts);
    BelowIsPrefix(r, abs);
    BelowIs(r, abs);
    SlashBefore(r, abs);
    NothingJoined(parts[|parts|..]);
    if root <= parts && parts != root {
      RestJoined(root, parts);
    }
  }

  lemma BelowIs(dir: string, path: string)
    ensures dir != path ==> (Below(dir, path) <==> dir + "/" <= path)
  {
  }

  lemma RestJoined(root: seq<string>, parts: seq<string>)
    requires root != [] && root < parts && AllPlain(root) && AllPlain(parts)
    ensures |JoinAll(root)| + 2 <= |"/" + JoinAll(parts)|
    ensures ("/" + JoinAll(parts))[|JoinAll(root)| + 2..] == JoinAll(parts[|root|..])
  {
    hide Parts, Normal, LastSlash, JoinAll;
    var rest := parts[|root|..];
    assert parts == root + rest;
    JoinedTwice(root, rest);
    assert "/" + JoinAll(parts) == ("/" + JoinAll(root)) + "/" + JoinAll(rest);
    SuffixOf("/" + JoinAll(root), JoinAll(rest));
  }

  lemma SlashBefore(a: string, b: string)
    ensures "/" + a == "/" + b <==> a == b
    ensures "/" + a + "/" <= "/" + b <==> a + "/" <= b
  {
    assert ("/" + a)[1..] == a && ("/" + b)[1..] == b;
    if "/" + a + "/" <= "/" + b {
      assert ("/" + a + "/")[1..] == a + "/";
      assert ("/" + b)[..|a| + 2] == "/" + a + "/";
      assert b[..|a| + 1] == ("/" + b)[1..|a| + 2];
    }
    if a + "/" <= b {
      assert b[..|a| + 1] == a + "/";
      assert ("/" + b)[..|a| + 2] == "/" + b[..|a| + 1];
    }
  }

  /** So every path the tracker records is normal, as the compiler needs. */
  lemma RelIsNormal(root: seq<string>, path: string)
    requires AllPlain(root) && IsAbsolute(path) && Rel("/" + JoinAll(root), path).Some?
    ensures Normal(Rel("/" + JoinAll(root), path).value)
  {
    hide Parts, Normal, Stack, JoinAll, EndsWith;
    RelIsRest(root, path);
    NormalizedParts(path);
    JoinedParts(Stack(Parts(path))[|root|..]);
  }

  /** A plain path below the root is seen as itself exactly if it does not end like that of a deleted
      file; otherwise it is not seen to be under the root at all. */
  lemma RelOfInside(root: seq<string>, inside: seq<string>)
    requires AllPlain(root) && AllPlain(inside)
    ensures var path := "/" + JoinAll(root + inside);
            Rel("/" + JoinAll(root), path) == if EndsWith(path, DELETED) then None else Some(JoinAll(inside))
  {
    hide Parts, Normal, Stack, JoinAll, EndsWith;
    var all := root + inside;
    LeadingSlash(JoinAll(all));
    JoinedParts(all);
    PlainStacks(all);
    RelIsRest(root, "/" + JoinAll(all));
    assert all[|root|..] == inside;
  }
}
