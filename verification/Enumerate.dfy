/** Enumerating candidate crash states, closing them, and the tree each leaves behind. */
module Enumerate {
  import opened Trace
  import opened FileSystem
  import opened Walk
  import opened Runs
  import opened Crash

  // ------------------------------------------------------------------ close

  /** The first pass: what is durable before the crash point persisted. */
  method CloseDurable(p: Program, point: nat, persisted: array<bool>)
    requires Shaped(p) && persisted.Length <= |p.micro|
    modifies persisted
    ensures persisted[..] == WithDurable(p, point, old(persisted[..]))
  {
    for j := 0 to persisted.Length
      invariant forall i :: 0 <= i < j ==> persisted[i] == (old(persisted[i]) || p.micro[i].durableAt < point)
      invariant forall i :: j <= i < persisted.Length ==> persisted[i] == old(persisted[i])
    {
      persisted[j] := persisted[j] || p.micro[j].durableAt < point;
    }
  }

  /** The second: persisted metadata is a prefix of the metadata. */
  method CloseMeta(p: Program, persisted: array<bool>)
    requires Shaped(p) && persisted.Length <= |p.micro|
    modifies persisted
    ensures persisted[..] == WithEarlierMeta(p, old(persisted[..]))
  {
    var last := persisted.Length;
    while last > 0 && !(persisted[last - 1] && IsMeta(p.micro[last - 1].m))
      invariant 0 <= last <= persisted.Length
      invariant forall l :: last <= l < persisted.Length ==> !(persisted[l] && IsMeta(p.micro[l].m))
    {
      last := last - 1;
    }
    ghost var was := persisted[..];
    forall j | 0 <= j < |was| ensures LaterMeta(p, was, j) <==> j + 1 < last {
      if j + 1 < last {
        assert was[last - 1];
      }
    }
    for j := 0 to last
      invariant forall i :: 0 <= i < j ==> persisted[i] == (was[i] || IsMeta(p.micro[i].m))
      invariant forall i :: j <= i < persisted.Length ==> persisted[i] == was[i]
    {
      persisted[j] := persisted[j] || IsMeta(p.micro[j].m);
    }
  }

  /** For each inode, the last persisted micro-op among the first `n` that waited for its data. */
  ghost predicate LastWaits(p: Program, s: Persisted, n: nat, until: map<Ino, nat>)
    requires n <= |s| <= |p.micro|
  {
    && (forall ino :: ino in until ==> until[ino] < n && s[until[ino]] && Waits(p.micro[until[ino]].m, ino))
    && (forall l, ino :: 0 <= l < n && s[l] && Waits(p.micro[l].m, ino) ==> ino in until && l <= until[ino])
  }

  method FindWaits(p: Program, persisted: array<bool>) returns (until: map<Ino, nat>)
    requires Shaped(p) && persisted.Length <= |p.micro|
    ensures LastWaits(p, persisted[..], persisted.Length, until)
  {
    until := map[];
    for j := 0 to persisted.Length
      invariant LastWaits(p, persisted[..], j, until)
    {
      if persisted[j] {
        match p.micro[j].m {
          case SetLen(ino, _, true) => until := until[ino := j];
          case Rename(_, _, _, _, ino, true) => until := until[ino := j];
          case _ =>
        }
      }
    }
  }

  /** The third: data that had to be flushed first. */
  method CloseData(p: Program, persisted: array<bool>)
    requires Shaped(p) && persisted.Length <= |p.micro|
    modifies persisted
    ensures persisted[..] == WithFlushedData(p, old(persisted[..]))
  {
    var until := FindWaits(p, persisted);
    ghost var was := persisted[..];
    for j := 0 to persisted.Length
      invariant forall i :: 0 <= i < j ==> persisted[i] == WithFlushedData(p, was)[i]
      invariant forall i :: j <= i < persisted.Length ==> persisted[i] == was[i]
    {
      if p.micro[j].m.Write? {
        var ino := p.micro[j].m.ino;
        assert LaterWaits(p, was, j, ino) <==> ino in until && j < until[ino];
        if ino in until && j < until[ino] {
          persisted[j] := true;
        }
      }
    }
  }

  /** `close` leaves the least legal superset of what it is given. */
  method Close(p: Program, point: nat, persisted: array<bool>)
    requires Shaped(p) && point < |p.opEnd| && persisted.Length == p.opEnd[point]
    modifies persisted
    ensures persisted[..] == Closure(p, point, old(persisted[..]))
    ensures LeastLegal(p, point, old(persisted[..]), persisted[..])
  {
    hide Shaped, LeastLegal, WithDurable, WithEarlierMeta, WithFlushedData;
    ShapedBounds(p, point);
    ClosureIsLeast(p, point, persisted[..]);
    CloseDurable(p, point, persisted);
    if p.profile != Ext4Ordered {
      return;
    }
    CloseMeta(p, persisted);
    CloseData(p, persisted);
  }

  lemma ShapedBounds(p: Program, point: nat)
    requires Shaped(p) && point < |p.opEnd|
    ensures p.opEnd[point] <= |p.micro| && |p.marksBefore| == |p.opEnd| && p.marksBefore[point] <= |p.marks|
    ensures Closed(p.base)
  {
  }

  // ------------------------------------------------------------- in flight

  /** How many of the first `n` micro-ops are in flight. */
  function Flight(p: Program, point: nat, n: nat): (f: seq<nat>)
    requires n <= |p.micro|
  {
    if n == 0 then [] else Flight(p, point, n - 1) + (if p.micro[n - 1].durableAt >= point then [n - 1] else [])
  }

  method InFlight(p: Program, point: nat) returns (flight: seq<nat>)
    requires Shaped(p) && point < |p.opEnd|
    ensures flight == Flight(p, point, p.opEnd[point])
  {
    flight := [];
    for j := 0 to p.opEnd[point]
      invariant flight == Flight(p, point, j)
    {
      if p.micro[j].durableAt >= point {
        flight := flight + [j];
      }
    }
  }

  /** `flight` lists exactly the in-flight micro-ops, and each knows its own position. */
  lemma {:induction false} FlightIs(p: Program, point: nat, n: nat)
    requires n <= |p.micro|
    ensures |Flight(p, point, n)| <= n
    ensures forall pos :: 0 <= pos < |Flight(p, point, n)| ==>
              && Flight(p, point, n)[pos] < n && p.micro[Flight(p, point, n)[pos]].durableAt >= point
              && |Flight(p, point, Flight(p, point, n)[pos])| == pos
    ensures forall j :: 0 <= j < n && p.micro[j].durableAt >= point ==>
              |Flight(p, point, j)| < |Flight(p, point, n)| && Flight(p, point, n)[|Flight(p, point, j)|] == j
  {
    if n > 0 {
      FlightIs(p, point, n - 1);
    }
  }

  // ------------------------------------------------------------- candidates

  /** The persisted set that keeps everything durable and the in-flight micro-ops `keep` picks, by
      position in flight and index. */
  ghost function Chosen(p: Program, point: nat, keep: (nat, nat) -> bool): (s: Persisted)
    requires Shaped(p) && point < |p.opEnd|
    ensures |s| == p.opEnd[point]
  {
    seq(p.opEnd[point], j requires 0 <= j < p.opEnd[point] =>
      p.micro[j].durableAt < point || keep(|Flight(p, point, j)|, j))
  }

  /** The `with` closure. */
  method With(p: Program, point: nat, flight: seq<nat>, keep: (nat, nat) -> bool) returns (s: Persisted)
    requires Shaped(p) && point < |p.opEnd| && flight == Flight(p, point, p.opEnd[point])
    ensures s == Chosen(p, point, keep)
  {
    var n := p.opEnd[point];
    FlightIs(p, point, n);
    s := seq(n, j requires 0 <= j < n => p.micro[j].durableAt < point);
    for pos := 0 to |flight|
      invariant |s| == n
      invariant forall j :: 0 <= j < n ==>
        s[j] == (p.micro[j].durableAt < point || (|Flight(p, point, j)| < pos && keep(|Flight(p, point, j)|, j)))
    {
      s := s[flight[pos] := keep(pos, flight[pos])];
    }
  }

  /** `mask >> pos & 1 == 1`. */
  predicate Bit(mask: nat, pos: nat) {
    if pos == 0 then mask % 2 == 1 else Bit(mask / 2, pos - 1)
  }

  function Pow2(m: nat): (n: nat)
    ensures n > 0
  {
    if m == 0 then 1 else 2 * Pow2(m - 1)
  }

  function MaskOf(bits: seq<bool>): nat {
    if bits == [] then 0 else (if bits[0] then 1 else 0) + 2 * MaskOf(bits[1..])
  }

  /** Every choice of `m` bits is some mask below two to the `m`. */
  lemma {:induction false} MasksCoverAll(bits: seq<bool>)
    ensures MaskOf(bits) < Pow2(|bits|)
    ensures forall pos :: 0 <= pos < |bits| ==> Bit(MaskOf(bits), pos) == bits[pos]
  {
    if bits != [] {
      MasksCoverAll(bits[1..]);
      forall pos | 0 <= pos < |bits| ensures Bit(MaskOf(bits), pos) == bits[pos] {
        assert pos > 0 ==> bits[pos] == bits[1..][pos - 1];
        assert MaskOf(bits) / 2 == MaskOf(bits[1..]);
      }
    }
  }

  ghost predicate IsCandidate(p: Program, point: nat, s: Persisted)
    requires Shaped(p) && point < |p.opEnd|
  {
    |s| == p.opEnd[point] && KeepsDurable(p, point, s)
  }

  lemma ChosenIsCandidate(p: Program, point: nat, keep: (nat, nat) -> bool)
    requires Shaped(p) && point < |p.opEnd|
    ensures IsCandidate(p, point, Chosen(p, point, keep))
  {
  }

  /** Every superset of what is durable is picked by some mask. */
  lemma CandidateHasMask(p: Program, point: nat, s: Persisted) returns (mask: nat)
    requires Shaped(p) && point < |p.opEnd| && IsCandidate(p, point, s)
    ensures mask < Pow2(|Flight(p, point, p.opEnd[point])|)
    ensures s == Chosen(p, point, (pos: nat, j: nat) => Bit(mask, pos))
  {
    var n := p.opEnd[point];
    var flight := Flight(p, point, n);
    FlightIs(p, point, n);
    var bits := seq(|flight|, pos requires 0 <= pos < |flight| => s[flight[pos]]);
    MasksCoverAll(bits);
    mask := MaskOf(bits);
    var c := Chosen(p, point, (pos: nat, j: nat) => Bit(mask, pos));
    forall j | 0 <= j < n ensures s[j] == c[j] {
      if p.micro[j].durableAt >= point {
        assert bits[|Flight(p, point, j)|] == s[j];
      }
    }
  }

  /** The exhaustive branch: one candidate per mask, so every superset of what is durable. */
  method AllSubsets(p: Program, point: nat, flight: seq<nat>) returns (out: seq<Persisted>)
    requires Shaped(p) && point < |p.opEnd| && flight == Flight(p, point, p.opEnd[point])
    ensures |out| == Pow2(|flight|)
    ensures forall s :: s in out <==> IsCandidate(p, point, s)
  {
    hide Shaped, IsCandidate, Chosen, Flight;
    out := [];
    for mask := 0 to Pow2(|flight|)
      invariant |out| == mask
      invariant forall k :: 0 <= k < mask ==> out[k] == Chosen(p, point, (pos: nat, j: nat) => Bit(k, pos))
    {
      var s := With(p, point, flight, (pos: nat, j: nat) => Bit(mask, pos));
      out := out + [s];
    }
    forall s ensures s in out <==> IsCandidate(p, point, s) {
      if IsCandidate(p, point, s) {
        var mask := CandidateHasMask(p, point, s);
        assert out[mask] == s;
      }
      if s in out {
        var k :| 0 <= k < |out| && out[k] == s;
        ChosenIsCandidate(p, point, (pos: nat, j: nat) => Bit(k, pos));
      }
    }
  }

  datatype Search = Search(exhaustiveLimit: nat, samples: nat)

  function KeepAll(): (nat, nat) -> bool { (pos: nat, j: nat) => true }

  function KeepNone(): (nat, nat) -> bool { (pos: nat, j: nat) => false }

  function LoseOne(skip: nat): (nat, nat) -> bool { (pos: nat, j: nat) => pos != skip }

  function CutAt(skip: nat): (nat, nat) -> bool { (pos: nat, j: nat) => pos < skip }

  function LoseOp(owners: seq<nat>, op: nat): (nat, nat) -> bool {
    (pos: nat, j: nat) => j < |owners| ==> owners[j] != op
  }

  function Owners(p: Program): seq<nat> {
    seq(|p.micro|, j requires 0 <= j < |p.micro| => p.micro[j].op)
  }

  /** The fixed strategies: everything, nothing, each micro-op lost, each in-order prefix, and each
      op with something in flight lost whole. */
  ghost predicate HasBattery(p: Program, point: nat, out: seq<Persisted>)
    requires Shaped(p) && point < |p.opEnd|
  {
    var flight := Flight(p, point, p.opEnd[point]);
    && Chosen(p, point, KeepAll()) in out && Chosen(p, point, KeepNone()) in out
    && (forall skip :: 0 <= skip < |flight| ==>
          Chosen(p, point, LoseOne(skip)) in out && Chosen(p, point, CutAt(skip)) in out)
    && (forall pos :: 0 <= pos < |flight| && flight[pos] < |p.micro| ==>
          Chosen(p, point, LoseOp(Owners(p), p.micro[flight[pos]].op)) in out)
  }

  lemma FlightOrder(p: Program, point: nat, j: nat, k: nat)
    requires j < |p.micro| && k < |p.micro| && p.micro[j].durableAt >= point && p.micro[k].durableAt >= point
    ensures |Flight(p, point, j)| < |Flight(p, point, k)| <==> j < k
    ensures |Flight(p, point, j)| == |Flight(p, point, k)| <==> j == k
  {
    hide Flight;
    FlightIs(p, point, j);
    FlightIs(p, point, k);
  }

  /** The fixed strategies, micro-op by micro-op: all persisted; only the durable ones; and for each one in
      flight, all but it, all durable ones and those before it, and all but those of its op. */
  lemma BatteryIs(p: Program, point: nat, out: seq<Persisted>)
    requires Shaped(p) && point < |p.opEnd| && p.opEnd[point] <= |p.micro| && HasBattery(p, point, out)
    ensures var n, ms := p.opEnd[point], p.micro;
            && seq(n, j => true) in out
            && seq(n, j requires 0 <= j < n => ms[j].durableAt < point) in out
            && forall k: nat :: k < n && ms[k].durableAt >= point ==>
                 && seq(n, j => j != k) in out
                 && seq(n, j requires 0 <= j < n => ms[j].durableAt < point || j < k) in out
                 && seq(n, j requires 0 <= j < n => ms[j].durableAt < point || ms[j].op != ms[k].op) in out
  {
    hide Shaped, Flight;
    var n := p.opEnd[point];
    assert Chosen(p, point, KeepAll()) == seq(n, j => true);
    assert Chosen(p, point, KeepNone()) == seq(n, j requires 0 <= j < n => p.micro[j].durableAt < point);
    FlightIs(p, point, n);
    forall k: nat | k < n && p.micro[k].durableAt >= point
      ensures seq(n, j => j != k) in out
      ensures seq(n, j requires 0 <= j < n => p.micro[j].durableAt < point || j < k) in out
      ensures seq(n, j requires 0 <= j < n => p.micro[j].durableAt < point || p.micro[j].op != p.micro[k].op) in out
    {
      var at := |Flight(p, point, k)|;
      assert Flight(p, point, n)[at] == k;
      forall j: nat | j < n && p.micro[j].durableAt >= point
        ensures |Flight(p, point, j)| < at <==> j < k
        ensures |Flight(p, point, j)| == at <==> j == k
      {
        FlightOrder(p, point, j, k);
      }
      assert Chosen(p, point, LoseOne(at)) == seq(n, j => j != k);
      assert Chosen(p, point, CutAt(at)) == seq(n, j requires 0 <= j < n => p.micro[j].durableAt < point || j < k);
      assert Chosen(p, point, LoseOp(Owners(p), p.micro[k].op)) ==
             seq(n, j requires 0 <= j < n => p.micro[j].durableAt < point || p.micro[j].op != p.micro[k].op);
    }
  }

  ghost predicate Ascends(list: seq<nat>) {
    forall i, j :: 0 <= i < j < |list| ==> list[i] <= list[j]
  }

  ghost predicate StrictlyAscends(list: seq<nat>) {
    forall i, j :: 0 <= i < j < |list| ==> list[i] < list[j]
  }

  lemma AscendsStill(list: seq<nat>, out: seq<nat>, i: nat)
    requires i < |list| && (Ascends(list) ==> StrictlyAscends(out))
    requires i > 0 ==> out != [] && out[|out| - 1] == list[i - 1] != list[i]
    requires i == 0 ==> out == []
    ensures Ascends(list) ==> StrictlyAscends(out + [list[i]])
  {
    if Ascends(list) && i > 0 {
      assert list[i - 1] < list[i];
      forall k | 0 <= k < |out| ensures out[k] < list[i] {
        assert k < |out| - 1 ==> out[k] < out[|out| - 1];
      }
    }
  }

  /** `dedup`: drop repeats of the previous element; each element once if equal ones stood together. */
  method Dedup(list: seq<nat>) returns (out: seq<nat>)
    ensures forall x :: x in out <==> x in list
    ensures Ascends(list) ==> StrictlyAscends(out)
    ensures list != [] ==> out != [] && out[0] == list[0]
  {
    out := [];
    for i := 0 to |list|
      invariant forall x :: x in out <==> x in list[..i]
      invariant out != [] ==> list != [] && out[0] == list[0]
      invariant i > 0 ==> out != [] && out[|out| - 1] == list[i - 1]
      invariant i == 0 ==> out == []
      invariant Ascends(list) ==> StrictlyAscends(out)
    {
      assert list[..i + 1] == list[..i] + [list[i]];
      if out == [] || out[|out| - 1] != list[i] {
        AscendsStill(list, out, i);
        out := out + [list[i]];
      }
    }
    assert list[..|list|] == list;
  }

  ghost predicate AllCandidates(p: Program, point: nat, out: seq<Persisted>)
    requires Shaped(p) && point < |p.opEnd|
  {
    forall s :: s in out ==> IsCandidate(p, point, s)
  }

  lemma OneMoreCandidate(p: Program, point: nat, out: seq<Persisted>, keep: (nat, nat) -> bool)
    requires Shaped(p) && point < |p.opEnd| && AllCandidates(p, point, out)
    ensures AllCandidates(p, point, out + [Chosen(p, point, keep)])
  {
    ChosenIsCandidate(p, point, keep);
  }

  method Samples(p: Program, point: nat, flight: seq<nat>, samples: nat, coin: nat -> (nat, nat) -> bool)
    returns (out: seq<Persisted>)
    requires Shaped(p) && point < |p.opEnd| && flight == Flight(p, point, p.opEnd[point])
    ensures AllCandidates(p, point, out) && |out| == samples
    ensures forall i :: 0 <= i < samples ==> Chosen(p, point, coin(i)) in out
  {
    hide Shaped, IsCandidate, Chosen, Flight;
    out := [];
    for i := 0 to samples
      invariant AllCandidates(p, point, out) && |out| == i
      invariant forall k :: 0 <= k < i ==> Chosen(p, point, coin(k)) in out
    {
      OneMoreCandidate(p, point, out, coin(i));
      var s := With(p, point, flight, coin(i));
      out := out + [s];
    }
  }

  /** The sampled branch; `coin` stands for the random bits. */
  method SomeSubsets(p: Program, point: nat, flight: seq<nat>, samples: nat, coin: nat -> (nat, nat) -> bool)
    returns (out: seq<Persisted>)
    requires Shaped(p) && point < |p.opEnd| && flight == Flight(p, point, p.opEnd[point])
    ensures AllCandidates(p, point, out) && HasBattery(p, point, out)
    ensures forall i :: 0 <= i < samples ==> Chosen(p, point, coin(i)) in out
  {
    hide Shaped, IsCandidate, Chosen, Flight;
    ShapedBounds(p, point);
    FlightIs(p, point, p.opEnd[point]);
    OneMoreCandidate(p, point, [], KeepAll());
    var all := With(p, point, flight, KeepAll());
    OneMoreCandidate(p, point, [all], KeepNone());
    var none := With(p, point, flight, KeepNone());
    out := [all, none];
    assert [] + [all] == [all] && [all] + [none] == out;
    for skip := 0 to |flight|
      invariant AllCandidates(p, point, out) && all in out && none in out
      invariant forall k :: 0 <= k < skip ==>
        Chosen(p, point, LoseOne(k)) in out && Chosen(p, point, CutAt(k)) in out
    {
      OneMoreCandidate(p, point, out, LoseOne(skip));
      var one := With(p, point, flight, LoseOne(skip));
      out := out + [one];
      OneMoreCandidate(p, point, out, CutAt(skip));
      var cut := With(p, point, flight, CutAt(skip));
      out := out + [cut];
    }
    var ops := Dedup(seq(|flight|, pos requires 0 <= pos < |flight| => p.micro[flight[pos]].op));
    ghost var so := out;
    for i := 0 to |ops|
      invariant AllCandidates(p, point, out) && forall s :: s in so ==> s in out
      invariant forall k :: 0 <= k < i ==> Chosen(p, point, LoseOp(Owners(p), ops[k])) in out
    {
      OneMoreCandidate(p, point, out, LoseOp(Owners(p), ops[i]));
      var lost := With(p, point, flight, LoseOp(Owners(p), ops[i]));
      out := out + [lost];
    }
    var sampled := Samples(p, point, flight, samples, coin);
    ghost var battery := out;
    out := out + sampled;
    assert forall s :: s in out <==> s in battery || s in sampled;
    OwnersFound(p, flight, ops);
  }

  lemma OwnersFound(p: Program, flight: seq<nat>, ops: seq<nat>)
    requires forall pos :: 0 <= pos < |flight| ==> flight[pos] < |p.micro|
    requires forall x :: x in ops <==> x in seq(|flight|, pos requires 0 <= pos < |flight| => p.micro[flight[pos]].op)
    ensures forall pos :: 0 <= pos < |flight| ==> p.micro[flight[pos]].op in ops
  {
    var owners := seq(|flight|, pos requires 0 <= pos < |flight| => p.micro[flight[pos]].op);
    forall pos | 0 <= pos < |flight| ensures p.micro[flight[pos]].op in ops {
      assert owners[pos] == p.micro[flight[pos]].op;
    }
  }

  /** Candidate persisted sets: never without something durable; all of them, when few enough
      micro-ops are in flight. */
  method Candidates(p: Program, point: nat, search: Search, coin: nat -> (nat, nat) -> bool)
    returns (out: seq<Persisted>)
    requires Shaped(p) && point < |p.opEnd| && search.exhaustiveLimit < 64
    ensures AllCandidates(p, point, out)
    ensures if |Flight(p, point, p.opEnd[point])| <= search.exhaustiveLimit
            then forall s :: IsCandidate(p, point, s) ==> s in out
            else HasBattery(p, point, out)
  {
    hide Shaped, IsCandidate, HasBattery, Flight;
    var flight := InFlight(p, point);
    if |flight| <= search.exhaustiveLimit {
      out := AllSubsets(p, point, flight);
    } else {
      out := SomeSubsets(p, point, flight, search.samples, coin);
    }
  }

  // ------------------------------------------------------------ materialize

  /** The image left by the micro-ops that persisted, applied in program order. */
  function Survive(fs: Image, ms: seq<Micro>, s: Persisted): (r: Image)
    requires |s| <= |ms|
    ensures |r| == |fs|
  {
    if s == [] then fs else
    var n := |s| - 1;
    var before := Survive(fs, ms, s[..n]);
    if s[n] then Applied(before, ms[n]) else before
  }

  lemma {:induction false} SurviveStaysClosed(fs: Image, ms: seq<Micro>, s: Persisted)
    requires |s| <= |ms| && Closed(fs) && forall j :: 0 <= j < |s| ==> Fits(ms[j], |fs|)
    ensures Closed(Survive(fs, ms, s))
  {
    if s != [] {
      var n := |s| - 1;
      SurviveStaysClosed(fs, ms, s[..n]);
      AppliedStaysClosed(Survive(fs, ms, s[..n]), ms[n]);
    }
  }

  function CrashImage(p: Program, s: Persisted): (fs: Image)
    requires |s| <= |p.micro|
    ensures |fs| == |p.base|
  {
    Survive(p.base, Micros(p.micro), s)
  }

  lemma CrashImageIsClosed(p: Program, s: Persisted)
    requires Shaped(p) && |s| <= |p.micro|
    ensures Closed(CrashImage(p, s))
  {
    SurviveStaysClosed(p.base, Micros(p.micro), s);
  }

  ghost function CrashTree(p: Program, s: Persisted): Tree
    requires Shaped(p) && |s| <= |p.micro|
  {
    CrashImageIsClosed(p, s);
    ToTree(CrashImage(p, s))
  }

  /** Apply what persisted to a copy of the initial image, and walk the result. */
  method Materialize(p: Program, s: Persisted) returns (tree: Tree)
    requires Shaped(p) && |s| <= |p.micro|
    ensures tree == CrashTree(p, s)
  {
    hide Applied, Fits, Closed;
    var fs := new Fs(p.base);
    for j := 0 to |s|
      invariant fs.nodes == Survive(p.base, Micros(p.micro), s[..j])
    {
      assert s[..j + 1][..j] == s[..j];
      if s[j] {
        fs.Apply(p.micro[j].m);
      }
    }
    assert s[..|s|] == s;
    CrashImageIsClosed(p, s);
    tree := BuildTree(fs.nodes);
  }
}
