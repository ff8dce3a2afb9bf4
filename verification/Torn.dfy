/** When a torn record is read back as garbage: on posix, with the directory fsynced or not. */
module Torn {
  import opened Wrappers
  import opened Trace
  import opened FileSystem
  import opened Walk
  import opened Bytes
  import opened Locality
  import opened Runs
  import opened Stages
  import opened Crash
  import opened Enumerate
  import opened Durability
  import opened Ordered
  import opened Flat
  import opened LogFormat
  import opened Wal
  import opened Naive

  // ------------------------------------------------------------- torn records

  /** `rec`, written at `offset`, with only the blocks that `keep` picks; zeros in place of the rest. */
  function Masked(rec: seq<Byte>, offset: nat, block: nat, keep: nat -> bool): (got: seq<Byte>)
    requires block > 0
    ensures |got| == |rec|
  {
    seq(|rec|, x requires 0 <= x < |rec| => if keep((offset + x) / block) then rec[x] else 0)
  }

  /** What is not zero lies within one block. */
  ghost predicate FitsOneBlock(rec: seq<Byte>, offset: nat, block: nat)
    requires block > 0
  {
    forall x, y :: 0 <= x < |rec| && 0 <= y < |rec| && rec[x] != 0 && rec[y] != 0 ==>
      (offset + x) / block == (offset + y) / block
  }

  lemma OneBlockIsAllOrNothing(rec: seq<Byte>, offset: nat, block: nat, keep: nat -> bool)
    requires block > 0 && FitsOneBlock(rec, offset, block)
    ensures Masked(rec, offset, block, keep) == rec || Masked(rec, offset, block, keep) == Zeros(|rec|)
  {
    var got := Masked(rec, offset, block, keep);
    if x :| 0 <= x < |rec| && got[x] != rec[x] {
      forall y | 0 <= y < |rec| ensures got[y] == 0 {
        if rec[y] != 0 {
          assert (offset + y) / block == (offset + x) / block;
        }
      }
    }
  }

  lemma Le32IsNotZero(b: seq<Byte>, c: seq<Byte>)
    requires |b| == |c| == 4 && forall x :: 0 <= x < 4 ==> c[x] == b[x] || c[x] == 0
    ensures FromLe32(c) <= FromLe32(b)
    ensures FromLe32(c) == FromLe32(b) ==> c == b
    ensures FromLe32(c) == 0 <==> c == Zeros(4)
  {
  }

  /** The length field of a record without a checksum. */
  lemma LengthField(crc: Checksum, payload: seq<Byte>)
    requires CanStore(payload)
    ensures var rec := Encode(crc, false, payload); FromLe32(rec[..4]) == |payload| && rec[4..] == payload
  {
    hide Le32, FromLe32;
    RecordParts(crc, false, payload);
    Le32RoundTrip(|payload|);
  }

  /** A torn record at the end of a log is none, or it is some record. */
  lemma TornRecord(crc: Checksum, log: seq<Byte>, at: nat, got: seq<Byte>)
    requires at <= |log| && log[at..] == got && |got| >= 4 && FromLe32(got[..4]) + 4 <= |got|
    ensures var len := FromLe32(got[..4]);
            RecordAt(crc, false, log, at) == if len == 0 then None else Some(got[4..4 + len])
  {
    hide FromLe32;
    SliceOfTail(log, at, 0, 4);
    SliceOfTail(log, at, 4, 4 + FromLe32(got[..4]));
  }

  lemma SliceOfTail(s: seq<Byte>, at: nat, from: nat, to: nat)
    requires at <= |s| && from <= to <= |s| - at
    ensures s[at..][from..to] == s[at + from..at + to]
  {
  }

  /** A non-zero byte of the length field, and a non-zero byte in another block. */
  lemma BytesApart(crc: Checksum, payload: seq<Byte>, offset: nat, block: nat) returns (h: nat, y: nat)
    requires block > 0 && CanStore(payload) && !FitsOneBlock(Encode(crc, false, payload), offset, block)
    ensures var rec := Encode(crc, false, payload);
            h < 4 && y < |rec| && rec[h] != 0 && rec[y] != 0 && (offset + h) / block != (offset + y) / block
  {
    hide FromLe32, Encode;
    var rec := Encode(crc, false, payload);
    LengthField(crc, payload);
    Le32IsNotZero(rec[..4], rec[..4]);
    h :| h < 4 && rec[..4][h] != 0;
    y :| y < |rec| && rec[y] != 0 && (offset + y) / block != (offset + h) / block;
  }

  /** The one persisted and the other lost: a record is read, and it is not the one written. */
  lemma LostBlockIsGarbage(crc: Checksum, payload: seq<Byte>, rec: seq<Byte>, offset: nat, block: nat,
                           keep: nat -> bool, h: nat, y: nat, log: seq<Byte>)
    requires block > 0 && CanStore(payload) && rec == Encode(crc, false, payload) && h < 4 <= |rec| && y < |rec|
    requires rec[h] != 0 && rec[y] != 0 && keep((offset + h) / block) && !keep((offset + y) / block)
    requires offset <= |log| && log[offset..] == Masked(rec, offset, block, keep)
    ensures RecordAt(crc, false, log, offset).Some? && RecordAt(crc, false, log, offset) != Some(payload)
  {
    hide FromLe32, Encode, RecordAt;
    var got := Masked(rec, offset, block, keep);
    LengthField(crc, payload);
    Le32IsNotZero(rec[..4], got[..4]);
    assert got[..4][h] == rec[h];
    if y < 4 {
      assert got[..4][y] == 0 && rec[..4][y] != 0;
    }
    TornRecord(crc, log, offset, got);
    var len := FromLe32(got[..4]);
    if len == |payload| {
      assert got[4..4 + len][y - 4] == got[y] == 0 && payload[y - 4] == rec[y];
    }
  }

  lemma MonotoneDiv(a: nat, b: nat, block: nat)
    requires block > 0 && a <= b
    ensures a / block <= b / block
  {
    if a / block > b / block {
      Multiples(b / block, a / block, block);
    }
  }

  // ------------------------------------------------------------ a torn append

  lemma {:induction false} SurviveSplit(n: Ino, node: Node, ms: seq<Micro>, s: Persisted, m: nat)
    requires m <= |s| <= |ms|
    ensures NodeSurvive(n, node, ms, s) == NodeSurvive(n, NodeSurvive(n, node, ms, s[..m]), ms[m..], s[m..])
    decreases |s|
  {
    hide Effect;
    if m == |s| {
      assert s[..m] == s && s[m..] == [];
    } else {
      var k := |s| - 1;
      SurviveSplit(n, node, ms, s[..k], m);
      assert s[..k][..m] == s[..m] && s[..k][m..] == s[m..][..k - m];
    }
  }

  /** The blocks of a write at `offset` whose chunks persisted. */
  function KeptBlocks(offset: nat, block: nat, kept: seq<bool>): nat -> bool
    requires block > 0
  {
    b => offset / block <= b && b - offset / block < |kept| && kept[b - offset / block]
  }

  /** An append of which only some chunks persisted, and perhaps not the new length. */
  lemma TornAppend(content: seq<Byte>, data: seq<Byte>, block: nat, s: Persisted)
    requires block > 0 && data != [] && |s| == |AppendMicros(content, data, block)|
    ensures |s| > 0
    ensures var after := NodeSurvive(1, FileNode(content, |content|), AppendMicros(content, data, block), s);
            && after.FileNode?
            && Content(after) == content + if s[|s| - 1]
                 then Masked(data, |content|, block, KeptBlocks(|content|, block, s[..|s| - 1])) else []
  {
    hide Chunks, NodeSurvive, Masked, TornByte, KeptBlocks, Resize, AppendMicros;
    var chunks, offset := Chunks(1, |content|, data, block), |content|;
    var ms, k := AppendMicros(content, data, block), |chunks|;
    AppendIs(content, data, block);
    SurviveSplit(1, FileNode(content, offset), ms, s, k);
    assert ms[k..] == [SetLen(1, offset + |data|, true)] && s[k..] == [s[k]];
    OfPrefix(1, FileNode(content, offset), ms, chunks, s[..k]);
    TornWrite(1, content, offset, offset, data, block, s[..k]);
    var mid := NodeSurvive(1, FileNode(content, offset), chunks, s[..k]);
    OneSurvives(1, mid, ms[k], s[k]);
    TornContent(content, data, block, s[..k], mid);
  }

  lemma AppendIs(content: seq<Byte>, data: seq<Byte>, block: nat)
    requires block > 0 && data != []
    ensures AppendMicros(content, data, block) ==
            Chunks(1, |content|, data, block) + [SetLen(1, |content| + |data|, true)]
  {
    hide Chunks;
  }

  lemma {:induction false} OfPrefix(n: Ino, node: Node, ms: seq<Micro>, first: seq<Micro>, s: Persisted)
    requires |s| <= |first| && first <= ms
    ensures NodeSurvive(n, node, ms, s) == NodeSurvive(n, node, first, s)
    decreases |s|
  {
    hide Effect;
    if s != [] {
      OfPrefix(n, node, ms, first, s[..|s| - 1]);
    }
  }

  lemma OneSurvives(n: Ino, node: Node, m: Micro, b: bool)
    ensures NodeSurvive(n, node, [m], [b]) == if b then Effect(n, node, m) else node
  {
    hide Effect;
    assert [b][..0] == [];
    assert NodeSurvive(n, node, [m], []) == node;
  }

  /** The contents of a torn append, with the new length and with the old one. */
  lemma TornContent(content: seq<Byte>, data: seq<Byte>, block: nat, kept: seq<bool>, mid: Node)
    requires block > 0 && mid.FileNode? && mid.len == |content|
    requires forall x: nat :: ByteAt(mid.buf, x) == TornByte(content, |content|, data, block, kept, x)
    ensures Content(mid) == content
    ensures var keep := KeptBlocks(|content|, block, kept);
            Resize(mid.buf, |content| + |data|) == content + Masked(data, |content|, block, keep)
  {
    hide ChunkOf, Resize;
    var offset, end := |content|, |content| + |data|;
    var whole := content + Masked(data, offset, block, KeptBlocks(offset, block, kept));
    ResizeBytes(mid.buf, end);
    forall x: nat | x < end ensures Resize(mid.buf, end)[x] == whole[x] {
      assert ByteAt(mid.buf, x) == TornByte(content, offset, data, block, kept, x);
      if offset <= x {
        BlockIsKept(offset, x, block, kept);
      }
    }
    ResizeBytes(mid.buf, offset);
    forall x: nat | x < offset ensures Resize(mid.buf, offset)[x] == content[x] {
      assert ByteAt(mid.buf, x) == TornByte(content, offset, data, block, kept, x);
    }
  }

  lemma BlockIsKept(offset: nat, x: nat, block: nat, kept: seq<bool>)
    requires block > 0 && offset <= x
    ensures KeptBlocks(offset, block, kept)(x / block) <==>
              0 <= ChunkOf(offset, x, block) < |kept| && kept[ChunkOf(offset, x, block)]
  {
    MonotoneDiv(offset, x, block);
  }

  // ------------------------------------------- the last record of a crash state

  /** The op that writes record `i`. */
  function WriteOf(w: Workload, i: nat): nat {
    3 * i + 2 - Gap(w)
  }

  lemma WriteEmits(w: Workload, block: nat, p: Program, i: nat)
    requires IsWal(w, Posix, block, p) && i < |w.payloads|
    ensures Shaped(p) && |p.opEnd| == OpCount(w) + 1
    ensures 0 < p.opEnd[WriteOf(w, i)] <= p.opEnd[WriteOf(w, i) + 1] <= |p.micro|
    ensures Micros(p.micro)[p.opEnd[WriteOf(w, i)]..p.opEnd[WriteOf(w, i) + 1]] ==
            AppendMicros(LogAfter(w, i), Encode(w.crc, w.checked, w.payloads[i]), block)
  {
    hide IsProgram, Run, LogAfter, Encode, OutcomeOf, AppendMicros;
    var k := WriteOf(w, i);
    WalRuns(w, block, k);
    OpMicros(WalTrace(w), Posix, block, p, k);
    assert WalTrace(w).ops[k] == FullOp(w, 3 * i + 2);
    AppendOutcome(w.name, LogAfter(w, i), Encode(w.crc, w.checked, w.payloads[i]), block);
    FirstOpLinks(w, block, p);
    OpEndsAscend(WalTrace(w), Posix, block, p, 1, k);
  }

  lemma FirstOpLinks(w: Workload, block: nat, p: Program)
    requires IsWal(w, Posix, block, p)
    ensures |p.opEnd| > 1 && p.opEnd[0] == 0 && p.opEnd[1] == 1
  {
    hide Run, OutcomeOf, IsProgram, Replayed, Shaped, Chunks, AppendMicros, Encode;
    var trace := WalTrace(w);
    assert trace.ops[0] == Op.Create(w.name);
    StartsEmpty(trace, block);
    CreateStep(w.name, block);
    ProgramStages(trace, Posix, block, p, 0);
    OpMicros(trace, Posix, block, p, 0);
    OneMicro(p, Link(0, w.name, 1));
  }

  lemma StartsEmpty(trace: Trace, block: nat)
    requires block > 0 && trace.initial == map[]
    ensures Run(trace, block, 0).Success? && StageOf(trace, block, 0).view == EMPTY_ROOT
    ensures StageOf(trace, block, 0).opEnd == [0]
  {
    RunStart(trace, block);
    StartIsEmpty();
  }

  lemma OneMicro(p: Program, m: Micro)
    requires |p.opEnd| > 1 && p.opEnd[0] == 0 && p.opEnd[0] <= p.opEnd[1] <= |p.micro|
    requires Micros(p.micro)[p.opEnd[0]..p.opEnd[1]] == [m]
    ensures p.opEnd[1] == 1
  {
    assert |Micros(p.micro)[p.opEnd[0]..p.opEnd[1]]| == p.opEnd[1];
  }

  /** Barriers and marks emit nothing. */
  lemma QuietEmits(w: Workload, block: nat, p: Program, k: nat)
    requires IsWal(w, Posix, block, p) && 1 <= k < OpCount(w) && FullAt(w, k) % 3 != 2
    ensures |p.opEnd| == OpCount(w) + 1 && p.opEnd[k + 1] == p.opEnd[k] <= |p.micro|
  {
    hide IsProgram, Run, LogAfter, Encode, OutcomeOf;
    WalRuns(w, block, k);
    assert WalTrace(w).ops[k] == FullOp(w, FullAt(w, k));
    QuietStep(w.name, LogAfter(w, Written(w, k)), WalTrace(w).ops[k], block);
    OpMicros(WalTrace(w), Posix, block, p, k);
    assert |Micros(p.micro)[p.opEnd[k]..p.opEnd[k + 1]]| == 0;
  }

  lemma EndOfWrite(w: Workload, block: nat, p: Program, i: nat, point: nat)
    requires IsWal(w, Posix, block, p) && i < |w.payloads| && WriteOf(w, i) < point <= WriteOf(w, i) + 3
    ensures |p.opEnd| == OpCount(w) + 1 && p.opEnd[point] == p.opEnd[WriteOf(w, i) + 1]
  {
    hide IsProgram;
    WalFacts(w, Posix, block, p, 0);
    var k := WriteOf(w, i);
    if point > k + 1 {
      QuietEmits(w, block, p, k + 1);
    }
    if point > k + 2 {
      QuietEmits(w, block, p, k + 2);
    }
  }

  /** Before the first record there is only the link. */
  lemma FirstWriteIsSecond(w: Workload, block: nat, p: Program, k: nat)
    requires IsWal(w, Posix, block, p) && 1 <= k <= WriteOf(w, 0) && k <= OpCount(w)
    ensures |p.opEnd| == OpCount(w) + 1 && p.opEnd[k] == 1
  {
    hide IsProgram;
    WalFacts(w, Posix, block, p, 0);
    FirstOpLinks(w, block, p);
    if k == 2 {
      QuietEmits(w, block, p, 1);
    }
  }

  /** Everything about the log written before record `i` was flushed before it. */
  lemma EarlierIsDurable(w: Workload, block: nat, p: Program, i: nat, point: nat, s: Persisted, j: nat)
    requires IsWal(w, Posix, block, p) && i < |w.payloads| && WriteOf(w, i) < point && Legal(p, point, s)
    requires |p.opEnd| == OpCount(w) + 1 && j < p.opEnd[WriteOf(w, i)] && j < |s| && Touches(p.micro[j].m, 1, true)
    ensures s[j]
  {
    hide Run, IsProgram, LogAfter, FirstCover, Lookup, Encode;
    var k := WriteOf(w, i);
    WalFacts(w, Posix, block, p, 0);
    assert j > 0;
    if i == 0 {
      FirstWriteIsSecond(w, block, p, k);
      assert false;
    }
    var f := k - 2;
    QuietEmits(w, block, p, f);
    QuietEmits(w, block, p, f + 1);
    OwnerOf(WalTrace(w), Posix, block, p, f, j);
    WalRuns(w, block, f);
    LogLookup(w.name, LogAfter(w, i));
    assert WalTrace(w).ops[f] == FullOp(w, 3 * i);
    CoveredIsDurable(WalTrace(w), Posix, block, p, f, j);
  }

  lemma LogBefore(w: Workload, block: nat, p: Program, i: nat, s: Persisted)
    requires IsWal(w, Posix, block, p) && i < |w.payloads| && |p.opEnd| == OpCount(w) + 1
    requires p.opEnd[WriteOf(w, i)] == |s| <= |p.micro| && |p.base| == 2 && p.base == PaddedRoot()
    requires forall j :: 0 <= j < |s| && Touches(p.micro[j].m, 1, true) ==> s[j]
    ensures NodeSurvive(1, p.base[1], Micros(p.micro), s) == FileNode(LogAfter(w, i), |LogAfter(w, i)|)
  {
    hide Run, IsProgram, LogAfter, NodeSurvive, Survive, Replayed, Shaped;
    var ms, m, k := Micros(p.micro), |s|, WriteOf(w, i);
    NodeDependsOnTouches(1, p.base[1], ms, s, Prefix(m, m));
    SurvivePrefix(p.base, ms, m, m);
    SurviveIsNodewise(p.base, ms, Prefix(m, m), 1);
    WalFacts(w, Posix, block, p, k);
    assert Written(w, k) == i;
  }

  /** The log after a crash once record `i` was written and not yet the next: what was there before, and
      of the record, if its length persisted, the blocks that did. */
  ghost predicate IsTornLog(w: Workload, block: nat, i: nat, log: seq<Byte>, grown: bool, keep: nat -> bool)
    requires IsWorkload(w) && block > 0 && i < |w.payloads|
  {
    var before, rec := LogAfter(w, i), Encode(w.crc, w.checked, w.payloads[i]);
    log == before + if grown then Masked(rec, |before|, block, keep) else []
  }

  lemma LinkedLog(w: Workload, block: nat, p: Program, point: nat, s: Persisted)
    requires IsWal(w, Posix, block, p) && Legal(p, point, s) && 0 < point && 0 < |s| && s[0]
    ensures Shaped(p) && |CrashImage(p, s)| == 2 && CrashImage(p, s)[0] == DirNode(map[w.name := 1])
  {
    hide Run, IsProgram, LogAfter, CrashImage, Volatile, KeepsDurable, Touches;
    WalFacts(w, Posix, block, p, 0);
    LegalSize(p, point, s);
    forall j | 0 <= j < |s| && Touches(p.micro[j].m, 0, false) ensures s[j] {
      assert j == 0;
    }
    NothingLostNothingChanged(p, point, s, 0);
    WalFacts(w, Posix, block, p, point);
  }

  lemma LogAfterCrash(w: Workload, block: nat, p: Program, i: nat, point: nat, s: Persisted)
    returns (grown: bool, kept: seq<bool>)
    requires IsWal(w, Posix, block, p) && i < |w.payloads| && Legal(p, point, s)
    requires WriteOf(w, i) < point <= WriteOf(w, i) + 3 && 0 < |s| && s[0]
    ensures Shaped(p) && |p.opEnd| == OpCount(w) + 1 && |s| == p.opEnd[WriteOf(w, i) + 1] <= |p.micro|
    ensures 0 < p.opEnd[WriteOf(w, i)] < |s| && kept == s[p.opEnd[WriteOf(w, i)]..|s| - 1] && grown == s[|s| - 1]
    ensures IsTornLog(w, block, i, LogIn(CrashTree(p, s), w.name), grown, KeptBlocks(|LogAfter(w, i)|, block, kept))
  {
    hide Run, IsProgram, LogAfter, CrashImage, CrashTree, NodeSurvive, AppendMicros, Encode, Touches, Content,
      KeepsDurable, Masked, KeptBlocks, Survive;
    WalFacts(w, Posix, block, p, 0);
    WriteEmits(w, block, p, i);
    EndOfWrite(w, block, p, i, point);
    var ms, m := Micros(p.micro), p.opEnd[WriteOf(w, i)];
    forall j | 0 <= j < m && Touches(p.micro[j].m, 1, true) ensures s[..m][j] {
      EarlierIsDurable(w, block, p, i, point, s, j);
    }
    LogBefore(w, block, p, i, s[..m]);
    SurviveSplit(1, p.base[1], ms, s, m);
    var data := Encode(w.crc, w.checked, w.payloads[i]);
    OfPrefix(1, FileNode(LogAfter(w, i), |LogAfter(w, i)|), ms[m..], ms[m..|s|], s[m..]);
    TornAppend(LogAfter(w, i), data, block, s[m..]);
    SurviveIsNodewise(p.base, ms, s, 1);
    CrashIsSurvival(p, s);
    LinkedLog(w, block, p, point, s);
    LogInCrash(p, s, w.name);
    grown, kept := s[|s| - 1], s[m..|s| - 1];
    assert s[m..][..|s| - m - 1] == kept;
  }

  lemma CrashIsSurvival(p: Program, s: Persisted)
    requires |s| <= |p.micro|
    ensures CrashImage(p, s) == Survive(p.base, Micros(p.micro), s)
  {
  }

  // --------------------------------------------------------- when it is garbage

  /** Whatever is read back is what was written. */
  ghost predicate NeverGarbage(w: Workload, p: Program)
    requires Shaped(p)
  {
    forall point: nat, s :: Legal(p, point, s) ==>
      ReadFrom(w.crc, w.checked, LogIn(CrashTree(p, s), w.name), 0).0 <= w.payloads
  }

  /** Of record `i`, with these blocks persisted, nothing is read or what was written. */
  ghost predicate ReadsRight(w: Workload, block: nat, i: nat, keep: nat -> bool)
    requires IsWorkload(w) && block > 0 && i < |w.payloads|
  {
    var before, rec := LogAfter(w, i), Encode(w.crc, w.checked, w.payloads[i]);
    var got := RecordAt(w.crc, w.checked, before + Masked(rec, |before|, block, keep), |before|);
    got == None || got == Some(w.payloads[i])
  }

  ghost predicate AlwaysReadsRight(w: Workload, block: nat, i: nat)
    requires IsWorkload(w) && block > 0 && i < |w.payloads|
  {
    forall keep: nat -> bool :: ReadsRight(w, block, i, keep)
  }

  lemma ReadsBefore(w: Workload, i: nat, log: seq<Byte>)
    requires IsWorkload(w) && i <= |w.payloads| && LogAfter(w, i) <= log
    ensures var rest := ReadFrom(w.crc, w.checked, log, |LogAfter(w, i)|);
            ReadFrom(w.crc, w.checked, log, 0) == (w.payloads[..i] + rest.0, rest.1)
  {
    hide ReadFrom, Encodings;
    assert log[0..] == log;
    ReadsPast(w.crc, w.checked, log, 0, w.payloads[..i]);
  }

  /** What is read is right exactly if the last record is. */
  lemma TornLogReads(w: Workload, block: nat, i: nat, log: seq<Byte>, grown: bool, keep: nat -> bool)
    requires IsWorkload(w) && block > 0 && i < |w.payloads| && IsTornLog(w, block, i, log, grown, keep)
    ensures ReadFrom(w.crc, w.checked, log, 0).0 <= w.payloads <==> !grown || ReadsRight(w, block, i, keep)
  {
    hide Encode, Masked, RecordAt, LogAfter, ReadFrom;
    var at := |LogAfter(w, i)|;
    ReadsBefore(w, i, log);
    ReadsOneMore(w.crc, w.checked, log, at);
    NothingToRead(w.crc, w.checked, log);
    if RecordAt(w.crc, w.checked, log, at).Some? {
      assert ReadFrom(w.crc, w.checked, log, 0).0[i] == RecordAt(w.crc, w.checked, log, at).value;
    }
  }

  lemma NothingSurvived(fs: Image, ms: seq<Micro>, s: Persisted)
    requires s == []
    ensures Survive(fs, ms, s) == fs
  {
  }

  lemma NoLogAtFirst(w: Workload, block: nat, p: Program, s: Persisted)
    requires IsWal(w, Posix, block, p) && Legal(p, 0, s)
    ensures Shaped(p) && |s| <= |p.micro| && LogIn(CrashTree(p, s), w.name) == []
  {
    hide Run, IsProgram, CrashTree, KeepsDurable, CrashImage;
    WalFacts(w, Posix, block, p, 0);
    FirstOpLinks(w, block, p);
    CrashIsSurvival(p, s);
    NothingSurvived(p.base, Micros(p.micro), s);
    RootIsEmpty(p, s);
  }

  lemma NewLogIsEmpty(w: Workload, block: nat, p: Program, point: nat, s: Persisted)
    requires IsWal(w, Posix, block, p) && Legal(p, point, s) && 1 <= point <= WriteOf(w, 0) && |s| > 0 && s[0]
    ensures Shaped(p) && |s| <= |p.micro| && LogIn(CrashTree(p, s), w.name) == []
  {
    hide Run, IsProgram, CrashTree, KeepsDurable, CrashImage, NodeSurvive, Survive, Replayed, LogAfter;
    WalFacts(w, Posix, block, p, 0);
    FirstWriteIsSecond(w, block, p, point);
    LinkedLog(w, block, p, point, s);
    CrashIsSurvival(p, s);
    SurviveIsNodewise(p.base, Micros(p.micro), s, 1);
    NodeDependsOnTouches(1, p.base[1], Micros(p.micro), s, Prefix(0, |s|));
    SurvivePrefix(p.base, Micros(p.micro), 0, |s|);
    SurviveIsNodewise(p.base, Micros(p.micro), Prefix(0, |s|), 1);
    ReplayedNothing(p.base);
    assert Micros(p.micro)[..0] == [];
    LogInCrash(p, s, w.name);
  }

  lemma RootIsEmpty(p: Program, s: Persisted)
    requires Shaped(p) && |s| <= |p.micro| && CrashImage(p, s) == PaddedRoot()
    ensures CrashTree(p, s) == map[]
  {
    hide CrashImage, ToTree;
    CrashImageIsClosed(p, s);
    FlatTree(CrashImage(p, s));
    assert CrashTree(p, s).Keys == {};
  }

  lemma LastChunk(offset: nat, data: seq<Byte>, block: nat, x: nat)
    requires block > 0 && offset <= x < offset + |data|
    ensures 0 <= ChunkOf(offset, x, block) < |Chunks(1, offset, data, block)|
  {
    hide Chunks;
    ChunksTile(1, offset, data, block);
    var chunks := Chunks(1, offset, data, block);
    var c := |chunks| - 1;
    assert ChunkFits(chunks[c], c, 1, offset, data, block);
    MonotoneDiv(offset, x, block);
    MonotoneDiv(x, offset + |data| - 1, block);
  }

  /** The state in which of record `i` only the blocks that `keep` picks persisted, and its length. */
  lemma SomeBlocksPersist(w: Workload, block: nat, p: Program, i: nat, keep: nat -> bool) returns (s: Persisted)
    requires IsWal(w, Posix, block, p) && i < |w.payloads|
    ensures Shaped(p) && |p.opEnd| == OpCount(w) + 1 && Legal(p, WriteOf(w, i) + 1, s) && |s| <= |p.micro|
    ensures 0 < p.opEnd[WriteOf(w, i)] < |s| && s[0] && s[|s| - 1] && |s| == p.opEnd[WriteOf(w, i) + 1]
    ensures forall j :: p.opEnd[WriteOf(w, i)] <= j < |s| - 1 ==>
              (s[j] <==> keep(FirstBlock(w, block, i) + (j - p.opEnd[WriteOf(w, i)])))
  {
    hide Run, IsProgram, LogAfter, Encode, CoveredAt, Chunks;
    WalFacts(w, Posix, block, p, 0);
    ProgramIsShaped(WalTrace(w), Posix, block, p);
    WriteEmits(w, block, p, i);
    var k := WriteOf(w, i);
    var m, n, b := p.opEnd[k], p.opEnd[k + 1], FirstBlock(w, block, i);
    assert |Micros(p.micro)[m..n]| == n - m > 0;
    s := seq(n, j requires 0 <= j < n => j < m || j == n - 1 || keep(b + (j - m)));
    forall j | 0 <= j < n && p.micro[j].durableAt < k + 1 ensures s[j] {
      DurableIsCovered(WalTrace(w), Posix, block, p, j);
      if p.micro[j].durableAt == k {
        assert WalTrace(w).ops[k] == FullOp(w, 3 * i + 2);
        OnlyBarriersCover(WalTrace(w), Posix, block, k, p.micro[j].m);
      }
      OwnerOf(WalTrace(w), Posix, block, p, k, j);
    }
  }

  ghost function FirstBlock(w: Workload, block: nat, i: nat): nat
    requires IsWorkload(w) && block > 0 && i < |w.payloads|
  {
    |LogAfter(w, i)| / block
  }

  lemma KeptSize(w: Workload, block: nat, p: Program, i: nat)
    requires IsWal(w, Posix, block, p) && i < |w.payloads|
    ensures Shaped(p) && |p.opEnd| == OpCount(w) + 1
    ensures p.opEnd[WriteOf(w, i) + 1] == p.opEnd[WriteOf(w, i)] + 1
            + |Chunks(1, |LogAfter(w, i)|, Encode(w.crc, w.checked, w.payloads[i]), block)|
  {
    hide IsProgram, LogAfter, Encode, Chunks;
    WriteEmits(w, block, p, i);
    var k := WriteOf(w, i);
    assert |Micros(p.micro)[p.opEnd[k]..p.opEnd[k + 1]]| == p.opEnd[k + 1] - p.opEnd[k];
  }

  lemma ChunkIsBlock(offset: nat, x: nat, block: nat)
    requires block > 0
    ensures offset / block + ChunkOf(offset, x, block) == x / block
  {
  }

  lemma SameMask(rec: seq<Byte>, offset: nat, block: nat, kept: seq<bool>, keep: nat -> bool)
    requires block > 0 && |kept| == |Chunks(1, offset, rec, block)|
    requires forall c :: 0 <= c < |kept| ==> (kept[c] <==> keep(offset / block + c))
    ensures Masked(rec, offset, block, KeptBlocks(offset, block, kept)) == Masked(rec, offset, block, keep)
  {
    hide Chunks, KeptBlocks, ChunkOf;
    var a, b := Masked(rec, offset, block, KeptBlocks(offset, block, kept)), Masked(rec, offset, block, keep);
    forall x | 0 <= x < |rec| ensures a[x] == b[x] {
      LastChunk(offset, rec, block, offset + x);
      BlockIsKept(offset, offset + x, block, kept);
      ChunkIsBlock(offset, offset + x, block);
    }
  }

  /** A crash right after record `i` was written: its length persisted, and the blocks that `keep` picks. */
  ghost predicate IsTornState(w: Workload, block: nat, p: Program, i: nat, s: Persisted, keep: nat -> bool)
    requires IsWorkload(w) && block > 0 && i < |w.payloads|
  {
    && Shaped(p) && Legal(p, WriteOf(w, i) + 1, s)
    && IsTornLog(w, block, i, LogIn(CrashTree(p, s), w.name), true, keep)
  }

  /** Any choice of blocks of a record is what some crash leaves of it. */
  lemma AnyBlocksCanBeLeft(w: Workload, block: nat, p: Program, i: nat, keep: nat -> bool) returns (s: Persisted)
    requires IsWorkload(w) && block > 0 && i < |w.payloads| && IsWal(w, Posix, block, p)
    ensures IsTornState(w, block, p, i, s, keep)
  {
    hide Run, IsProgram, LogAfter, Encode, CrashTree, KeepsDurable, Masked, KeptBlocks, Chunks;
    s := SomeBlocksPersist(w, block, p, i, keep);
    var grown, kept := LogAfterCrash(w, block, p, i, WriteOf(w, i) + 1, s);
    KeptSize(w, block, p, i);
    var m := p.opEnd[WriteOf(w, i)];
    forall c | 0 <= c < |kept| ensures kept[c] <==> keep(FirstBlock(w, block, i) + c) {
      assert kept[c] == s[m + c];
    }
    SameMask(Encode(w.crc, w.checked, w.payloads[i]), |LogAfter(w, i)|, block, kept, keep);
  }

  /** On posix a crash can leave a record that was never written exactly when some choice of blocks of a
      record reads, length and checksum included, as another one. */
  lemma NeverGarbageIff(w: Workload, block: nat, p: Program)
    requires IsWal(w, Posix, block, p)
    ensures Shaped(p)
    ensures NeverGarbage(w, p) <==> forall i :: 0 <= i < |w.payloads| ==> AlwaysReadsRight(w, block, i)
  {
    hide Run, IsProgram, CrashTree, KeepsDurable, ReadFrom, IsTornLog, ReadsRight;
    WalFacts(w, Posix, block, p, 0);
    if i: nat, keep: nat -> bool :| i < |w.payloads| && !ReadsRight(w, block, i, keep) {
      var s := AnyBlocksCanBeLeft(w, block, p, i, keep);
      LegalSize(p, WriteOf(w, i) + 1, s);
      TornLogReads(w, block, i, LogIn(CrashTree(p, s), w.name), true, keep);
      assert !AlwaysReadsRight(w, block, i) && Legal(p, WriteOf(w, i) + 1, s);
    } else {
      forall point: nat, s | Legal(p, point, s)
        ensures |s| <= |p.micro| && ReadFrom(w.crc, w.checked, LogIn(CrashTree(p, s), w.name), 0).0 <= w.payloads
      {
        CrashReadsBack(w, block, p, point, s);
      }
    }
  }

  lemma CrashReadsBack(w: Workload, block: nat, p: Program, point: nat, s: Persisted)
    requires IsWal(w, Posix, block, p) && Shaped(p) && Legal(p, point, s)
    requires forall i :: 0 <= i < |w.payloads| ==> AlwaysReadsRight(w, block, i)
    ensures ReadFrom(w.crc, w.checked, LogIn(CrashTree(p, s), w.name), 0).0 <= w.payloads
  {
    hide Run, IsProgram, CrashTree, KeepsDurable, ReadFrom, IsTornLog, KeptBlocks, LogAfter, ReadsRight;
    WalFacts(w, Posix, block, p, 0);
    FirstEnds(w, block, p, point, s);
    NothingToRead(w.crc, w.checked, []);
    if point == 0 {
      NoLogAtFirst(w, block, p, s);
    } else if !s[0] {
      UnlinkedLogIsGone(p, s);
    } else if point <= WriteOf(w, 0) {
      NewLogIsEmpty(w, block, p, point, s);
    } else {
      var i := Written(w, point) - 1;
      assert AlwaysReadsRight(w, block, i);
      var grown, kept := LogAfterCrash(w, block, p, i, point, s);
      TornLogReads(w, block, i, LogIn(CrashTree(p, s), w.name), grown, KeptBlocks(|LogAfter(w, i)|, block, kept));
    }
  }

  lemma FirstEnds(w: Workload, block: nat, p: Program, point: nat, s: Persisted)
    requires IsWal(w, Posix, block, p) && Legal(p, point, s)
    ensures point > 0 ==> |s| > 0
  {
    hide IsProgram, KeepsDurable;
    WalFacts(w, Posix, block, p, 0);
    FirstOpLinks(w, block, p);
    if point > 0 {
      OpEndsAscend(WalTrace(w), Posix, block, p, 1, point);
    }
  }

  // ------------------------------------------------------- without checksums

  ghost predicate FitsAtItsPlace(w: Workload, block: nat, i: nat)
    requires IsWorkload(w) && block > 0 && i < |w.payloads|
  {
    FitsOneBlock(Encode(w.crc, w.checked, w.payloads[i]), |LogAfter(w, i)|, block)
  }

  /** Without a checksum every choice of blocks reads right exactly if there is no choice to make: the
      non-zero bytes of the record lie in one block. */
  lemma UncheckedReadsRightIff(w: Workload, block: nat, i: nat)
    requires IsWorkload(w) && block > 0 && i < |w.payloads| && !w.checked
    ensures AlwaysReadsRight(w, block, i) <==> FitsAtItsPlace(w, block, i)
  {
    hide Encode, Masked, FitsOneBlock, LogAfter, ReadsRight;
    if FitsAtItsPlace(w, block, i) {
      forall keep: nat -> bool ensures ReadsRight(w, block, i, keep) {
        AllOrNothingReads(w, block, i, keep);
      }
    } else {
      var h, y := BytesApart(w.crc, w.payloads[i], |LogAfter(w, i)|, block);
      var b := (|LogAfter(w, i)| + h) / block;
      var keep := c => c == b;
      LostBlockReads(w, block, i, keep, h, y);
    }
  }

  lemma AllOrNothingReads(w: Workload, block: nat, i: nat, keep: nat -> bool)
    requires IsWorkload(w) && block > 0 && i < |w.payloads| && !w.checked && FitsAtItsPlace(w, block, i)
    ensures ReadsRight(w, block, i, keep)
  {
    hide Encode, Masked, FitsOneBlock, RecordAt, FromLe32, LogAfter;
    var before, rec := LogAfter(w, i), Encode(w.crc, w.checked, w.payloads[i]);
    OneBlockIsAllOrNothing(rec, |before|, block, keep);
    var log := before + Masked(rec, |before|, block, keep);
    assert log[|before|..] == Masked(rec, |before|, block, keep);
    if Masked(rec, |before|, block, keep) == rec {
      assert log[|before|..|before| + |rec|] == rec;
      EncodedReads(w.crc, w.checked, log, |before|, w.payloads[i]);
    } else {
      Le32IsNotZero(rec[..4], Zeros(|rec|)[..4]);
      TornRecord(w.crc, log, |before|, Zeros(|rec|));
    }
  }

  lemma LostBlockReads(w: Workload, block: nat, i: nat, keep: nat -> bool, h: nat, y: nat)
    requires IsWorkload(w) && block > 0 && i < |w.payloads| && !w.checked
    requires var rec := Encode(w.crc, false, w.payloads[i]); h < 4 <= |rec| && y < |rec| && rec[h] != 0 && rec[y] != 0
    requires Separates(keep, |LogAfter(w, i)| + h, |LogAfter(w, i)| + y, block)
    ensures !ReadsRight(w, block, i, keep)
  {
    hide Encode, Masked, RecordAt, LogAfter;
    var before, rec := LogAfter(w, i), Encode(w.crc, w.checked, w.payloads[i]);
    var log := before + Masked(rec, |before|, block, keep);
    assert log[|before|..] == Masked(rec, |before|, block, keep);
    LostBlockIsGarbage(w.crc, w.payloads[i], rec, |before|, block, keep, h, y, log);
  }

  /** The block of `x` persisted, and that of `y` did not. */
  predicate Separates(keep: nat -> bool, x: nat, y: nat, block: nat)
    requires block > 0
  {
    keep(x / block) && !keep(y / block)
  }

  /** Without checksums, on posix, a crash can leave a record that was never written exactly when some
      record has non-zero bytes in two blocks. */
  lemma UncheckedNeverGarbageIff(w: Workload, block: nat, p: Program)
    requires IsWal(w, Posix, block, p) && !w.checked
    ensures Shaped(p)
    ensures NeverGarbage(w, p) <==> forall i :: 0 <= i < |w.payloads| ==> FitsAtItsPlace(w, block, i)
  {
    hide Run, IsProgram, CrashTree, KeepsDurable, FitsAtItsPlace, AlwaysReadsRight, NeverGarbage;
    NeverGarbageIff(w, block, p);
    forall i | 0 <= i < |w.payloads| ensures AlwaysReadsRight(w, block, i) <==> FitsAtItsPlace(w, block, i) {
      UncheckedReadsRightIff(w, block, i);
    }
  }
}
