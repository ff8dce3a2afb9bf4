/** What leaving out the fsync of its directory does to the log. */
module Naive {
  import opened FileSystem
  import opened Walk
  import opened Locality
  import opened Runs
  import opened Stages
  import opened Crash
  import opened Enumerate
  import opened Durability
  import opened Flat
  import opened LogFormat
  import opened Wal

  /** An fsync of the log does not cover its directory entry. */
  lemma EntryIsNeverCovered(w: Workload, block: nat, i: nat)
    requires IsWorkload(w) && block > 0 && !w.synced && 1 <= i < OpCount(w)
    ensures !CoveredAt(WalTrace(w), Posix, block, i, Link(0, w.name, 1))
  {
    hide Run, LogAfter, Lookup, Encode;
    WalRuns(w, block, i);
    LogLookup(w.name, LogAfter(w, Written(w, i)));
    assert WalTrace(w).ops[i] == FullOp(w, i + 1);
  }

  lemma UnlinkedLogIsGone(p: Program, s: Persisted)
    requires Shaped(p) && 0 < |s| <= |p.micro| && !s[0] && p.base == PaddedRoot()
    requires forall j :: 1 <= j < |p.micro| ==> !Touches(p.micro[j].m, 0, false)
    ensures CrashTree(p, s) == map[]
  {
    hide NodeSurvive, Survive, ToTree, Touches;
    var ms := Micros(p.micro);
    SurviveIsNodewise(p.base, ms, s, 0);
    SurviveIsNodewise(p.base, ms, Prefix(0, |s|), 0);
    NodeDependsOnTouches(0, p.base[0], ms, s, Prefix(0, |s|));
    SurvivePrefix(p.base, ms, 0, |s|);
    ReplayedNothing(p.base);
    assert ms[..0] == [];
    CrashImageIsClosed(p, s);
    FlatTree(CrashImage(p, s));
    assert CrashTree(p, s).Keys == {};
  }

  /** However many records were written, fsynced and acknowledged, posix allows a crash after which
      there is no log at all. */
  lemma AcknowledgedRecordsCanVanish(w: Workload, block: nat, p: Program) returns (s: Persisted)
    requires IsWal(w, Posix, block, p) && !w.synced
    ensures Shaped(p) && Legal(p, OpCount(w), s) && p.marksBefore[OpCount(w)] == |w.payloads|
    ensures CrashTree(p, s) == map[]
  {
    hide Run, IsProgram, CoveredAt, KeepsDurable, CrashTree, Touches, LogAfter;
    var point := OpCount(w);
    WalFacts(w, Posix, block, p, point);
    forall i | 0 < i < point ensures !CoveredAt(WalTrace(w), Posix, block, i, p.micro[0].m) {
      EntryIsNeverCovered(w, block, i);
    }
    OwnerOf(WalTrace(w), Posix, block, p, 0, 0);
    LosableIffUncovered(WalTrace(w), block, p, point, 0);
    s :| Legal(p, point, s) && 0 < |s| && !s[0];
    UnlinkedLogIsGone(p, s);
  }

  /** Every legal crash state reads back as a sequence that begins with every acknowledged record. */
  ghost predicate KeepsAcknowledged(w: Workload, p: Program)
    requires Shaped(p)
  {
    forall point: nat, s :: Legal(p, point, s) ==>
      && p.marksBefore[point] <= |w.payloads|
      && w.payloads[..p.marksBefore[point]] <= ReadFrom(w.crc, w.checked, LogIn(CrashTree(p, s), w.name), 0).0
  }

  /** Acknowledged records survive exactly if the directory is fsynced, on ext4, or if there are none. */
  lemma AcknowledgedSurviveIff(w: Workload, profile: Profile, block: nat, p: Program)
    requires IsWal(w, profile, block, p)
    ensures Shaped(p)
    ensures KeepsAcknowledged(w, p) <==> w.synced || profile == Ext4Ordered || w.payloads == []
  {
    hide IsProgram, Legal, CrashTree, ReadFrom, LogAfter;
    WalFacts(w, profile, block, p, 0);
    if w.synced || profile == Ext4Ordered || w.payloads == [] {
      forall point: nat, s | Legal(p, point, s)
        ensures point < |p.marksBefore| && p.marksBefore[point] <= |w.payloads| && |s| <= |p.micro|
        ensures w.payloads[..p.marksBefore[point]] <= ReadFrom(w.crc, w.checked, LogIn(CrashTree(p, s), w.name), 0).0
      {
        LegalSize(p, point, s);
        WalFacts(w, profile, block, p, point);
        if w.synced {
          AcknowledgedRecordsSurvive(w, profile, block, p, point, s);
        } else if profile == Ext4Ordered {
          var i := Ext4ReadsAPrefix(w, block, p, point, s);
        }
      }
    } else {
      var s := AcknowledgedRecordsCanVanish(w, block, p);
      LegalSize(p, OpCount(w), s);
      NothingToRead(w.crc, w.checked, []);
    }
  }
}
