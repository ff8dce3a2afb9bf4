/** File contents byte by byte, and what a torn write means. */
module Bytes {
  import opened Trace
  import opened FileSystem
  import opened Walk
  import opened Runs
  import opened Enumerate
  import opened Locality

  /** The byte a read at `x` sees: zero past the end of the buffer. */
  function ByteAt(buf: seq<Byte>, x: nat): Byte {
    if x < |buf| then buf[x] else 0
  }

  function Max(a: nat, b: nat): nat { if a < b then b else a }

  lemma OverlayBytes(buf: seq<Byte>, offset: nat, data: seq<Byte>)
    ensures |Overlay(buf, offset, data)| == Max(|buf|, offset + |data|)
    ensures forall x: nat :: ByteAt(Overlay(buf, offset, data), x) ==
              (if offset <= x < offset + |data| then data[x - offset] else ByteAt(buf, x))
  {
    var end := offset + |data|;
    var grown := if |buf| < end then Resize(buf, end) else buf;
    assert forall x: nat :: ByteAt(grown, x) == ByteAt(buf, x);
    var out := Overlay(buf, offset, data);
    forall x: nat | x < |out|
      ensures out[x] == (if offset <= x < end then data[x - offset] else ByteAt(buf, x))
    {
    }
  }

  lemma SameBytesSameContent(a: seq<Byte>, b: seq<Byte>, len: nat)
    requires forall x: nat :: x < len ==> ByteAt(a, x) == ByteAt(b, x)
    ensures Resize(a, len) == Resize(b, len)
  {
    ResizeBytes(a, len);
    ResizeBytes(b, len);
  }

  lemma ResizeBytes(a: seq<Byte>, len: nat)
    ensures forall x: nat :: x < len ==> Resize(a, len)[x] == ByteAt(a, x)
  {
  }

  // ------------------------------------------------------------- size changes

  /** A truncation of any file node, whatever was left in its buffer: what is visible is cut, or extended by
      zeros. */
  lemma TruncationShows(ino: Ino, node: Node, len: nat)
    requires node.FileNode?
    ensures var after := Effect(ino, node, SetLen(ino, len, false));
            after.FileNode? && after.len == len && Content(after) == Resize(Content(node), len)
  {
    hide Resize;
    var after := Effect(ino, node, SetLen(ino, len, false));
    ResizeBytes(after.buf, len);
    ResizeBytes(node.buf, node.len);
    ResizeBytes(Content(node), len);
    forall x: nat | x < len ensures Content(after)[x] == Resize(Content(node), len)[x] {
    }
  }

  /** An extension by a write leaves the whole buffer, and so exposes what was written past the old end. */
  lemma ExtensionExposes(ino: Ino, node: Node, len: nat)
    requires node.FileNode? && node.len <= len
    ensures var after := Effect(ino, node, SetLen(ino, len, true));
            && after.FileNode? && after.len == len
            && forall x: nat :: x < len ==> Content(after)[x] == ByteAt(node.buf, x)
  {
    ResizeBytes(node.buf, len);
  }

  /** Shrinking leaves nothing to be exposed later; nor does a truncation that does not shrink. */
  lemma NothingIsLeftPast(ino: Ino, node: Node, len: nat, keepTail: bool)
    requires node.FileNode?
    ensures var after := Effect(ino, node, SetLen(ino, len, keepTail));
            && after.FileNode?
            && (len < node.len ==> |after.buf| <= len && Content(after) == Content(node)[..len])
            && (!keepTail && node.len <= len ==> |after.buf| <= node.len)
  {
    var after := Effect(ino, node, SetLen(ino, len, keepTail));
    if len < node.len {
      ResizeBytes(after.buf, len);
      ResizeBytes(node.buf, node.len);
      forall x: nat | x < len ensures Content(after)[x] == Content(node)[..len][x] {
      }
    }
  }

  // ------------------------------------------------------------------ blocks

  lemma {:induction false} Multiples(a: nat, b: nat, block: nat)
    requires a < b
    ensures a * block + block <= b * block
    decreases b
  {
    assert (b - 1) * block + block == b * block;
    if a < b - 1 {
      Multiples(a, b - 1, block);
    }
  }

  lemma DivIs(x: nat, q: nat, r: nat, block: nat)
    requires block > 0 && r < block && x == q * block + r
    ensures x / block == q
  {
    var q' := x / block;
    assert x == q' * block + x % block;
    if q' > q {
      Multiples(q, q', block);
    } else if q' < q {
      Multiples(q', q, block);
    }
  }

  /** The room left goes up to the next multiple of the block size. */
  lemma {:induction false} RoomIs(at: nat, q: nat, r: nat, block: nat)
    requires r < block && at == q * block + r
    ensures Room(at, block) == block - r
    decreases q
  {
    if q > 0 {
      assert q * block == (q - 1) * block + block;
      Multiples(0, q, block);
      RoomIs(at - block, q - 1, r, block);
    }
  }

  /** Positions up to the end of the block of `offset` share its block; the next one starts another. */
  lemma SameBlock(offset: nat, x: nat, block: nat)
    requires block > 0 && offset <= x <= offset + Room(offset, block)
    ensures x / block == offset / block + (if x < offset + Room(offset, block) then 0 else 1)
  {
    hide Room;
    var q, r := offset / block, offset % block;
    assert offset == q * block + r;
    RoomIs(offset, q, r, block);
    if x < offset + Room(offset, block) {
      DivIs(x, q, r + (x - offset), block);
    } else {
      assert x == (q + 1) * block;
      DivIs(x, q + 1, 0, block);
    }
  }

  /** Which chunk of a write at `offset` holds position `x`: one chunk per block. */
  function ChunkOf(offset: nat, x: nat, block: nat): int
    requires block > 0
  {
    x / block - offset / block
  }

  // -------------------------------------------------------------- torn writes

  /** The chunks of a write tile it: consecutive, non-empty, one per block and none across a block
      boundary, and together exactly the data. */
  ghost predicate Tiles(chunks: seq<Micro>, ino: Ino, offset: nat, data: seq<Byte>, block: nat)
    requires block > 0
  {
    && (forall c :: 0 <= c < |chunks| ==> ChunkFits(chunks[c], c, ino, offset, data, block))
    && (forall c :: 0 <= c < |chunks| - 1 ==> EndOf(chunks[c]) == StartOf(chunks[c + 1]))
    && (if data == [] then chunks == [] else
          chunks != [] && StartOf(chunks[0]) == offset && EndOf(chunks[|chunks| - 1]) == offset + |data|)
  }

  function StartOf(m: Micro): nat { if m.Write? then m.offset else 0 }

  function EndOf(m: Micro): nat { if m.Write? then m.offset + |m.data| else 0 }

  ghost predicate ChunkFits(m: Micro, c: nat, ino: Ino, offset: nat, data: seq<Byte>, block: nat)
    requires block > 0
  {
    && m.Write? && m.ino == ino && m.data != [] && offset <= m.offset && EndOf(m) <= offset + |data|
    && m.data == data[m.offset - offset..EndOf(m) - offset]
    && ChunkOf(offset, m.offset, block) == c && ChunkOf(offset, EndOf(m) - 1, block) == c
  }

  lemma {:induction false} ChunksTile(ino: Ino, offset: nat, data: seq<Byte>, block: nat)
    requires block > 0
    ensures Tiles(Chunks(ino, offset, data, block), ino, offset, data, block)
    decreases |data|
  {
    hide Room, ChunkFits, Tiles;
    if data == [] {
      NothingTiles(ino, offset, block);
    } else {
      var n := Min(Room(offset, block), |data|);
      ChunksTile(ino, offset + n, data[n..], block);
      TilesCons(ino, offset, data, n, Chunks(ino, offset + n, data[n..], block), block);
    }
  }

  lemma NothingTiles(ino: Ino, offset: nat, block: nat)
    requires block > 0
    ensures Tiles([], ino, offset, [], block)
  {
  }

  lemma TilesCons(ino: Ino, offset: nat, data: seq<Byte>, n: nat, rest: seq<Micro>, block: nat)
    requires block > 0 && data != [] && n == Min(Room(offset, block), |data|)
    requires Tiles(rest, ino, offset + n, data[n..], block)
    ensures Tiles([Micro.Write(ino, offset, data[..n])] + rest, ino, offset, data, block)
  {
    hide Room, ChunkFits, Min, EndOf, StartOf;
    RoomIsPositive(offset, data, n, block);
    var m := Micro.Write(ino, offset, data[..n]);
    var chunks := [m] + rest;
    EndsOf(m);
    FirstChunkFits(ino, offset, data, n, block);
    forall c | 0 <= c < |chunks| ensures ChunkFits(chunks[c], c, ino, offset, data, block) {
      if c > 0 {
        LaterChunkFits(rest[c - 1], c - 1, ino, offset, data, n, block);
      }
    }
    ChainCons(m, rest);
    assert |data[n..]| == |data| - n && EndOf(m) == offset + n;
    assert data[n..] == [] <==> n == |data|;
    assert chunks[|chunks| - 1] == if rest == [] then m else rest[|rest| - 1];
  }

  lemma EndsOf(m: Micro)
    ensures m.Write? ==> StartOf(m) == m.offset && EndOf(m) == m.offset + |m.data|
  {
  }

  lemma RoomIsPositive(offset: nat, data: seq<Byte>, n: nat, block: nat)
    requires block > 0 && data != [] && n == Min(Room(offset, block), |data|)
    ensures 0 < n <= |data|
  {
  }

  lemma ChainCons(m: Micro, rest: seq<Micro>)
    requires forall c :: 0 <= c < |rest| - 1 ==> EndOf(rest[c]) == StartOf(rest[c + 1])
    requires rest != [] ==> EndOf(m) == StartOf(rest[0])
    ensures forall c :: 0 <= c < |[m] + rest| - 1 ==> EndOf(([m] + rest)[c]) == StartOf(([m] + rest)[c + 1])
  {
    hide EndOf, StartOf;
    var chunks := [m] + rest;
    forall c | 0 <= c < |chunks| - 1 ensures EndOf(chunks[c]) == StartOf(chunks[c + 1]) {
      if c > 0 {
        assert chunks[c] == rest[c - 1] && chunks[c + 1] == rest[c];
      }
    }
  }

  lemma FirstChunkFits(ino: Ino, offset: nat, data: seq<Byte>, n: nat, block: nat)
    requires block > 0 && data != [] && n == Min(Room(offset, block), |data|)
    ensures ChunkFits(Micro.Write(ino, offset, data[..n]), 0, ino, offset, data, block)
  {
    SameBlock(offset, offset + n - 1, block);
  }

  lemma LaterChunkFits(m: Micro, c: nat, ino: Ino, offset: nat, data: seq<Byte>, n: nat, block: nat)
    requires block > 0 && n == Min(Room(offset, block), |data|)
    requires ChunkFits(m, c, ino, offset + n, data[n..], block)
    ensures ChunkFits(m, c + 1, ino, offset, data, block)
  {
    assert n == Room(offset, block);
    SameBlock(offset, offset + n, block);
    var from, to := m.offset - offset, EndOf(m) - offset;
    assert data[n..][from - n..to - n] == data[from..to];
  }

  /** The byte at `x` after the chunks that `kept` picks were written over `buf`. */
  function TornByte(buf: seq<Byte>, offset: nat, data: seq<Byte>, block: nat, kept: seq<bool>, x: nat): Byte
    requires block > 0
  {
    if offset <= x < offset + |data| && 0 <= ChunkOf(offset, x, block) < |kept| && kept[ChunkOf(offset, x, block)]
    then data[x - offset] else ByteAt(buf, x)
  }

  lemma {:induction false} SurviveFromFront(n: Ino, node: Node, m: Micro, ms: seq<Micro>, b: bool, s: seq<bool>)
    requires |s| <= |ms|
    ensures NodeSurvive(n, node, [m] + ms, [b] + s) == NodeSurvive(n, if b then Effect(n, node, m) else node, ms, s)
    decreases |s|
  {
    hide Effect;
    var all, kept := [m] + ms, [b] + s;
    if s == [] {
      assert kept[..0] == [];
    } else {
      assert kept[..|s|] == [b] + s[..|s| - 1];
      SurviveFromFront(n, node, m, ms, b, s[..|s| - 1]);
    }
  }

  /** A torn write: whichever chunks persisted, every byte is the new one if the chunk of its block
      persisted, and what was there before (or zero) if not; the length is untouched. */
  lemma {:induction false} TornWrite(ino: Ino, buf: seq<Byte>, len: nat, offset: nat, data: seq<Byte>, block: nat,
                                     kept: seq<bool>)
    requires block > 0 && |kept| == |Chunks(ino, offset, data, block)|
    ensures var after := NodeSurvive(ino, FileNode(buf, len), Chunks(ino, offset, data, block), kept);
            && after.FileNode? && after.len == len
            && forall x: nat :: ByteAt(after.buf, x) == TornByte(buf, offset, data, block, kept, x)
    decreases |data|
  {
    hide Room, Overlay, ChunkOf;
    if data != [] {
      var n := Min(Room(offset, block), |data|);
      var m := Micro.Write(ino, offset, data[..n]);
      var chunks := Chunks(ino, offset, data, block);
      var rest := Chunks(ino, offset + n, data[n..], block);
      assert chunks == [m] + rest && kept == [kept[0]] + kept[1..];
      SurviveFromFront(ino, FileNode(buf, len), m, rest, kept[0], kept[1..]);
      var mid := if kept[0] then Overlay(buf, offset, data[..n]) else buf;
      OverlayBytes(buf, offset, data[..n]);
      TornWrite(ino, mid, len, offset + n, data[n..], block, kept[1..]);
      forall x: nat
        ensures TornByte(mid, offset + n, data[n..], block, kept[1..], x) == TornByte(buf, offset, data, block, kept, x)
      {
        TornStep(buf, mid, offset, data, n, block, kept, x);
      }
    }
  }

  lemma TornStep(buf: seq<Byte>, mid: seq<Byte>, offset: nat, data: seq<Byte>, n: nat, block: nat, kept: seq<bool>,
                 x: nat)
    requires block > 0 && data != [] && n == Min(Room(offset, block), |data|) && kept != []
    requires ByteAt(mid, x) == if kept[0] && offset <= x < offset + n then data[x - offset] else ByteAt(buf, x)
    ensures TornByte(mid, offset + n, data[n..], block, kept[1..], x) == TornByte(buf, offset, data, block, kept, x)
  {
    hide Room;
    if offset <= x < offset + n {
      SameBlock(offset, x, block);
    } else if offset + n <= x < offset + |data| {
      assert n == Room(offset, block);
      SameBlock(offset, offset + n, block);
    }
  }

  lemma OverlayTwice(buf: seq<Byte>, offset: nat, data: seq<Byte>, n: nat)
    requires 0 < n < |data|
    ensures Overlay(Overlay(buf, offset, data[..n]), offset + n, data[n..]) == Overlay(buf, offset, data)
  {
    hide Overlay;
    OverlayBytes(buf, offset, data);
    OverlayBytes(buf, offset, data[..n]);
    OverlayBytes(Overlay(buf, offset, data[..n]), offset + n, data[n..]);
    SameBytes(Overlay(Overlay(buf, offset, data[..n]), offset + n, data[n..]), Overlay(buf, offset, data));
  }

  lemma SameBytes(a: seq<Byte>, b: seq<Byte>)
    requires |a| == |b| && forall x: nat :: ByteAt(a, x) == ByteAt(b, x)
    ensures a == b
  {
    forall x: nat | x < |a| ensures a[x] == b[x] {
      assert ByteAt(a, x) == ByteAt(b, x);
    }
  }

  /** All chunks together are the one write they were cut from. */
  lemma {:induction false} WholeWrite(ino: Ino, buf: seq<Byte>, len: nat, offset: nat, data: seq<Byte>, block: nat)
    requires block > 0 && data != []
    ensures var chunks := Chunks(ino, offset, data, block);
            NodeSurvive(ino, FileNode(buf, len), chunks, Prefix(|chunks|, |chunks|)) ==
            FileNode(Overlay(buf, offset, data), len)
    decreases |data|
  {
    hide Room, Overlay;
    var n := Min(Room(offset, block), |data|);
    var m := Micro.Write(ino, offset, data[..n]);
    var rest := Chunks(ino, offset + n, data[n..], block);
    var chunks := [m] + rest;
    var kept := Prefix(|chunks|, |chunks|);
    var mid := Overlay(buf, offset, data[..n]);
    assert kept == [true] + Prefix(|rest|, |rest|);
    SurviveFromFront(ino, FileNode(buf, len), m, rest, true, Prefix(|rest|, |rest|));
    if n < |data| {
      WholeWrite(ino, mid, len, offset + n, data[n..], block);
      OverlayTwice(buf, offset, data, n);
    } else {
      assert data[..n] == data;
    }
  }

  lemma ReplayedNode(fs: Image, ms: seq<Micro>, n: Ino)
    requires n < |fs|
    ensures Replayed(fs, ms)[n] == NodeSurvive(n, fs[n], ms, Prefix(|ms|, |ms|))
  {
    hide Replayed, NodeSurvive, Survive;
    assert ms[..|ms|] == ms;
    SurvivePrefix(fs, ms, |ms|, |ms|);
    SurviveIsNodewise(fs, ms, Prefix(|ms|, |ms|), n);
  }
}
