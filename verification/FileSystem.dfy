/** The inode-level file system and the micro-ops it is changed by. */
module FileSystem {
  import opened Wrappers
  import opened Trace
  import opened Paths

  type Ino = nat

  datatype Node =
    | DirNode(entries: map<string, Ino>)
    // Bytes of `buf` at or after `len` were written by data whose size change is missing.
    | FileNode(buf: seq<Byte>, len: nat)

  /** The node table, indexed by inode; the root comes first. */
  type Image = seq<Node>

  datatype Micro =
    | Link(parent: Ino, name: string, ino: Ino)
    | Unlink(parent: Ino, name: string)
    // `replacing`: there was something at the target.
    | Rename(from: Ino, fromName: string, to: Ino, toName: string, ino: Ino, replacing: bool)
    | Write(ino: Ino, offset: nat, data: seq<Byte>)
    // `keepTail`: an extension caused by a write, as opposed to a truncate.
    | SetLen(ino: Ino, len: nat, keepTail: bool)

  predicate IsMeta(m: Micro) {
    !m.Write?
  }

  // ------------------------------------------------- what one micro-op does

  function Overlay(buf: seq<Byte>, offset: nat, data: seq<Byte>): (r: seq<Byte>)
  {
    var grown := if |buf| < offset + |data| then Resize(buf, offset + |data|) else buf;
    grown[..offset] + data + grown[offset + |data|..]
  }

  function Min(a: nat, b: nat): nat { if a < b then a else b }

  function ResizeNode(node: Node, len: nat, keepTail: bool): Node
    requires node.FileNode?
  {
    var cut := Min(len, node.len);
    var buf := if (len < node.len || !keepTail) && cut < |node.buf| then node.buf[..cut] else node.buf;
    FileNode(buf, len)
  }

  function RemoveEntry(node: Node, name: string, ino: Ino): Node {
    if node.DirNode? && name in node.entries && node.entries[name] == ino
    then DirNode(node.entries - {name}) else node
  }

  function InsertEntry(node: Node, name: string, ino: Ino): Node {
    if node.DirNode? then DirNode(node.entries[name := ino]) else node
  }

  /** What `m` does to node `n`, looking at nothing but that node. */
  function Effect(n: Ino, node: Node, m: Micro): Node {
    match m
    case Link(parent, name, ino) =>
      if n == parent then InsertEntry(node, name, ino) else node
    case Unlink(parent, name) =>
      if n == parent && node.DirNode? then DirNode(node.entries - {name}) else node
    case Rename(from, fromName, to, toName, ino, _) =>
      var left := if n == from then RemoveEntry(node, fromName, ino) else node;
      if n == to then InsertEntry(left, toName, ino) else left
    case Write(ino, offset, data) =>
      if n == ino && node.FileNode? then FileNode(Overlay(node.buf, offset, data), node.len) else node
    case SetLen(ino, len, keepTail) =>
      if n == ino && node.FileNode? then ResizeNode(node, len, keepTail) else node
  }

  /** A micro-op applied to a whole image: every node changes by its own effect. */
  function Applied(fs: Image, m: Micro): (r: Image)
    ensures |r| == |fs|
  {
    seq(|fs|, n requires 0 <= n < |fs| => Effect(n, fs[n], m))
  }

  /** The inodes a micro-op indexes the node table with. */
  predicate Fits(m: Micro, size: nat) {
    match m
    case Link(parent, _, ino) => parent < size && ino < size
    case Unlink(parent, _) => parent < size
    case Rename(from, _, to, _, ino, _) => from < size && to < size && ino < size
    case Write(ino, _, _) => ino < size
    case SetLen(ino, _, _) => ino < size
  }

  /** The node table never points outside itself. */
  ghost predicate Closed(fs: Image) {
    && 0 < |fs|
    && forall d, name :: 0 <= d < |fs| && fs[d].DirNode? && name in fs[d].entries ==> fs[d].entries[name] < |fs|
  }

  lemma AppliedStaysClosed(fs: Image, m: Micro)
    requires Closed(fs) && Fits(m, |fs|)
    ensures Closed(Applied(fs, m))
  {
  }

  // ------------------------------------------------------------------ lookup

  function EntryAt(fs: Image, d: Ino, name: string): Option<Ino> {
    if d < |fs| && fs[d].DirNode? && name in fs[d].entries then Some(fs[d].entries[name]) else None
  }

  /** The inode at the end of a walk from the root. */
  function Resolve(fs: Image, parts: seq<string>): Option<Ino> {
    if parts == [] then Some(0) else
    match Resolve(fs, parts[..|parts| - 1])
    case None => None
    case Some(d) => EntryAt(fs, d, parts[|parts| - 1])
  }

  function Lookup(fs: Image, path: string): Option<Ino> {
    Resolve(fs, Parts(path))
  }

  lemma {:induction false} ResolvePrefix(fs: Image, parts: seq<string>, prefix: seq<string>)
    requires prefix <= parts && Resolve(fs, prefix).None?
    ensures Resolve(fs, parts).None?
    decreases |parts|
  {
    if prefix != parts {
      ResolvePrefix(fs, parts[..|parts| - 1], prefix);
    }
  }

  lemma {:induction false} ResolveInside(fs: Image, parts: seq<string>)
    requires Closed(fs)
    ensures Resolve(fs, parts).Some? ==> Resolve(fs, parts).value < |fs|
    decreases |parts|
  {
    if parts != [] {
      ResolveInside(fs, parts[..|parts| - 1]);
    }
  }

  /** Whenever a path resolves, so does what `split` leaves of it: the unguarded parent lookups of
      rename and unlink cannot fail, whatever the string looks like. */
  lemma ParentResolves(fs: Image, path: string)
    requires Lookup(fs, path).Some?
    ensures Lookup(fs, Split(path).0).Some?
  {
    SplitIsPrefix(path);
    if Lookup(fs, Split(path).0).None? {
      ResolvePrefix(fs, Parts(path), Parts(Split(path).0));
    }
  }

  // -------------------------------------------------------- the live object

  /** The mutable file system that a replay edits in place. */
  class Fs {
    var nodes: Image

    constructor (image: Image)
      ensures nodes == image
    {
      nodes := image;
    }

    method Push(node: Node) returns (ino: Ino)
      modifies this
      ensures ino == |old(nodes)| && nodes == old(nodes) + [node]
    {
      ino := |nodes|;
      nodes := nodes + [node];
    }

    method FindPath(path: string) returns (found: Option<Ino>)
      requires Closed(nodes)
      ensures found == Lookup(nodes, path)
      ensures found.Some? ==> found.value < |nodes|
    {
      var parts := Parts(path);
      var ino := 0;
      var i := 0;
      while i < |parts|
        invariant i <= |parts| && ino < |nodes|
        invariant Resolve(nodes, parts[..i]) == Some(ino)
      {
        assert parts[..i + 1][..i] == parts[..i];
        if nodes[ino].DirNode? && parts[i] in nodes[ino].entries {
          ino := nodes[ino].entries[parts[i]];
        } else {
          ResolvePrefix(nodes, parts, parts[..i + 1]);
          return None;
        }
        i := i + 1;
      }
      assert parts[..i] == parts;
      found := Some(ino);
    }

    method Insert(d: Ino, name: string, ino: Ino)
      requires d < |nodes|
      modifies this
      ensures nodes == old(nodes)[d := InsertEntry(old(nodes)[d], name, ino)]
    {
      if nodes[d].DirNode? {
        nodes := nodes[d := DirNode(nodes[d].entries[name := ino])];
      }
    }

    /** One micro-op, branch by branch; the node-wise effect is what it amounts to. */
    method Apply(m: Micro)
      requires Fits(m, |nodes|)
      modifies this
      ensures nodes == Applied(old(nodes), m)
    {
      match m {
        case Link(parent, name, ino) =>
          Insert(parent, name, ino);
        case Unlink(parent, name) =>
          if nodes[parent].DirNode? {
            nodes := nodes[parent := DirNode(nodes[parent].entries - {name})];
          }
        case Rename(from, fromName, to, toName, ino, _) =>
          if nodes[from].DirNode? && fromName in nodes[from].entries && nodes[from].entries[fromName] == ino {
            nodes := nodes[from := DirNode(nodes[from].entries - {fromName})];
          }
          Insert(to, toName, ino);
        case Write(ino, offset, data) =>
          if nodes[ino].FileNode? {
            var buf, end := nodes[ino].buf, offset + |data|;
            if |buf| < end {
              buf := Resize(buf, end);
            }
            nodes := nodes[ino := FileNode(buf[..offset] + data + buf[end..], nodes[ino].len)];
          }
        case SetLen(ino, len, keepTail) =>
          if nodes[ino].FileNode? {
            var buf := nodes[ino].buf;
            if len < nodes[ino].len || !keepTail {
              var cut := Min(len, nodes[ino].len);
              if cut < |buf| {
                buf := buf[..cut];
              }
            }
            nodes := nodes[ino := FileNode(buf, len)];
          }
      }
    }
  }
}
