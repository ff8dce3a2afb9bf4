/** Traces: an initial directory snapshot and the operations performed on it. */
module Trace {
  import opened Paths

  type Byte = b: int | 0 <= b < 256

  datatype Entry = Dir | File(data: seq<Byte>)

  /** Relative path to entry; the root itself is implicit. */
  type Tree = map<string, Entry>

  /** `path` is an entry of the root, or of a listed directory. */
  predicate ParentListed(tree: Tree, path: string) {
    var dir := Split(path).0;
    dir == "" || (dir in tree && tree[dir] == Dir)
  }

  /** Every entry has a normal path, and its parent is there, as a directory. */
  ghost predicate WellFormed(tree: Tree) {
    && (forall path :: path in tree ==> Normal(path) && path != "")
    && (forall path {:trigger ParentListed(tree, path)} :: path in tree ==> ParentListed(tree, path))
  }

  datatype Op =
    | Create(path: string)
    | Mkdir(path: string)
    | Write(path: string, offset: nat, data: seq<Byte>)
    | Truncate(path: string, len: nat)
    | Rename(from: string, to: string)
    | Unlink(path: string)
    | Rmdir(path: string)
    | Fsync(path: string)
    | Sync
    | Mark(text: string)

  datatype Trace = Trace(initial: Tree, ops: seq<Op>)

  function Zeros(n: nat): (z: seq<Byte>)
    ensures |z| == n
  {
    seq(n, i => 0)
  }

  /** `Vec::resize(len, 0)`. */
  function Resize(data: seq<Byte>, len: nat): (r: seq<Byte>)
    ensures |r| == len
  {
    if len <= |data| then data[..len] else data + Zeros(len - |data|)
  }
}
