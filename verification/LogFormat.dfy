/** The record format of the example log: encoding, reading, and cutting a torn tail. */
module LogFormat {
  import opened Wrappers
  import opened Trace

  type U32 = x: int | 0 <= x < 0x1_0000_0000

  /** The checksum is left uninterpreted: nothing below depends on which function it is. */
  type Checksum = seq<Byte> -> U32

  function Le32(x: U32): (b: seq<Byte>)
    ensures |b| == 4
  {
    var (x1, b0) := Digit(x);
    var (x2, b1) := Digit(x1);
    var (x3, b2) := Digit(x2);
    [b0, b1, b2, x3]
  }

  function Digit(x: nat): (r: (nat, Byte))
    ensures x == 256 * r.0 + r.1
  {
    (x / 256, x % 256)
  }

  function FromLe32(b: seq<Byte>): U32
    requires |b| == 4
  {
    (b[0] as int) + 256 * (b[1] as int) + 65536 * (b[2] as int) + 16777216 * (b[3] as int)
  }

  lemma Le32RoundTrip(x: U32)
    ensures FromLe32(Le32(x)) == x
  {
    hide Digit;
  }

  /** Four bytes are those of the number they decode to. */
  lemma Le32OfBytes(b: seq<Byte>)
    requires |b| == 4
    ensures Le32(FromLe32(b)) == b
  {
    var x := FromLe32(b);
    assert x == (b[0] as int) + 256 * ((b[1] as int) + 256 * ((b[2] as int) + 256 * (b[3] as int)));
    LowByte(b[0], (b[1] as int) + 256 * ((b[2] as int) + 256 * (b[3] as int)));
    LowByte(b[1], (b[2] as int) + 256 * (b[3] as int));
    LowByte(b[2], b[3] as int);
  }

  lemma LowByte(low: Byte, rest: nat)
    ensures Digit((low as int) + 256 * rest) == (rest, low)
  {
  }

  /** A record can hold it: its length fits the length field, and is not zero. */
  predicate CanStore(payload: seq<Byte>) {
    0 < |payload| < 0x1_0000_0000
  }

  ghost predicate AllStorable(payloads: seq<seq<Byte>>) {
    forall i :: 0 <= i < |payloads| ==> CanStore(payloads[i])
  }

  function HeaderSize(checked: bool): nat { if checked then 8 else 4 }

  function Header(crc: Checksum, checked: bool, payload: seq<Byte>): (h: seq<Byte>)
    requires CanStore(payload)
    ensures |h| == HeaderSize(checked)
  {
    Le32(|payload|) + (if checked then Le32(crc(payload)) else [])
  }

  /** A length, a checksum if the log has them, and the payload. */
  function Encode(crc: Checksum, checked: bool, payload: seq<Byte>): (rec: seq<Byte>)
    requires CanStore(payload)
    ensures |rec| == HeaderSize(checked) + |payload|
  {
    Header(crc, checked, payload) + payload
  }

  /** The bytes of a record: the length, lowest byte first; the checksum likewise, if there is one; then
      the payload. */
  lemma EncodingIs(crc: Checksum, checked: bool, payload: seq<Byte>)
    requires CanStore(payload)
    ensures var rec := Encode(crc, checked, payload);
            && |rec| == (if checked then 8 else 4) + |payload|
            && |payload| == (rec[0] as int) + 256 * (rec[1] as int) + 65536 * (rec[2] as int)
                            + 16777216 * (rec[3] as int)
            && (checked ==> crc(payload) == (rec[4] as int) + 256 * (rec[5] as int) + 65536 * (rec[6] as int)
                                            + 16777216 * (rec[7] as int))
            && rec[if checked then 8 else 4..] == payload
  {
    hide Digit, Le32;
    Le32RoundTrip(|payload|);
    Le32RoundTrip(crc(payload));
  }

  /** The log after appending all of `payloads`. */
  function Encodings(crc: Checksum, checked: bool, payloads: seq<seq<Byte>>): seq<Byte>
    requires AllStorable(payloads)
  {
    if payloads == [] then [] else
    var n := |payloads| - 1;
    Encodings(crc, checked, payloads[..n]) + Encode(crc, checked, payloads[n])
  }

  // ------------------------------------------------------------------ reading

  /** The record that starts at `at`, if a complete and valid one does. */
  function RecordAt(crc: Checksum, checked: bool, log: seq<Byte>, at: nat): (r: Option<seq<Byte>>)
    requires at <= |log|
    ensures r.Some? ==> CanStore(r.value) && at + HeaderSize(checked) + |r.value| <= |log|
  {
    var header := HeaderSize(checked);
    if |log| - at < header then None else
    var len := FromLe32(log[at..at + 4]);
    if len == 0 || |log| - at < header + len then None else
    var payload := log[at + header..at + header + len];
    if checked && crc(payload) != FromLe32(log[at + 4..at + 8]) then None else Some(payload)
  }

  /** Where the record after `payload` at `at` starts. */
  function After(checked: bool, at: nat, payload: seq<Byte>): nat {
    at + HeaderSize(checked) + |payload|
  }

  /** The records from `at` on, up to the first incomplete or invalid one, and where that is. */
  function ReadFrom(crc: Checksum, checked: bool, log: seq<Byte>, at: nat): (r: (seq<seq<Byte>>, nat))
    requires at <= |log|
    ensures at <= r.1 <= |log|
    decreases |log| - at
  {
    match RecordAt(crc, checked, log, at)
    case None => ([], at)
    case Some(payload) =>
      var rest := ReadFrom(crc, checked, log, After(checked, at, payload));
      ([payload] + rest.0, rest.1)
  }

  lemma AppendRecord(records: seq<seq<Byte>>, payload: seq<Byte>, rest: seq<seq<Byte>>)
    ensures records + ([payload] + rest) == (records + [payload]) + rest
  {
  }

  method ReadLog(crc: Checksum, checked: bool, log: seq<Byte>) returns (records: seq<seq<Byte>>, valid: nat)
    ensures (records, valid) == ReadFrom(crc, checked, log, 0)
    ensures valid <= |log| && AllStorable(records) && log[..valid] == Encodings(crc, checked, records)
    ensures forall payload :: CanStore(payload) ==> !(Encode(crc, checked, payload) <= log[valid..])
  {
    hide FromLe32, ReadFrom, Encode, Encodings;
    var header := HeaderSize(checked);
    records, valid := [], 0;
    assert [] + ReadFrom(crc, checked, log, 0).0 == ReadFrom(crc, checked, log, 0).0;
    while |log| - valid >= header
      invariant valid <= |log|
      invariant ReadFrom(crc, checked, log, 0) ==
                (records + ReadFrom(crc, checked, log, valid).0, ReadFrom(crc, checked, log, valid).1)
    {
      var len := FromLe32(log[valid..valid + 4]);
      ReadsOneMore(crc, checked, log, valid);
      if len == 0 || |log| - valid < header + len {
        break;
      }
      var payload := log[valid + header..valid + header + len];
      if checked && crc(payload) != FromLe32(log[valid + 4..valid + 8]) {
        break;
      }
      assert RecordAt(crc, checked, log, valid) == Some(payload);
      AppendRecord(records, payload, ReadFrom(crc, checked, log, After(checked, valid, payload)).0);
      records := records + [payload];
      valid := valid + header + len;
    }
    ReadsOneMore(crc, checked, log, valid);
    assert records + [] == records;
    ReadsOnlyRecords(crc, checked, log, 0);
    assert log[0..valid] == log[..valid];
  }

  lemma ReadsOneMore(crc: Checksum, checked: bool, log: seq<Byte>, at: nat)
    requires at <= |log|
    ensures match RecordAt(crc, checked, log, at)
            case None => ReadFrom(crc, checked, log, at) == ([], at)
            case Some(payload) =>
              var rest := ReadFrom(crc, checked, log, After(checked, at, payload));
              ReadFrom(crc, checked, log, at) == ([payload] + rest.0, rest.1)
  {
    hide RecordAt;
  }

  // ------------------------------------------------- what is a record, and what is not

  /** A record is read exactly where its whole encoding stands: length, checksum if there is one, payload. */
  lemma RecordAtIff(crc: Checksum, checked: bool, log: seq<Byte>, at: nat, payload: seq<Byte>)
    requires at <= |log|
    ensures RecordAt(crc, checked, log, at) == Some(payload) <==>
              CanStore(payload) && Encode(crc, checked, payload) <= log[at..]
  {
    hide Le32, FromLe32, Encode;
    var n := HeaderSize(checked) + |payload|;
    if RecordAt(crc, checked, log, at) == Some(payload) {
      RecordIsEncoded(crc, checked, log, at, payload);
      SliceOfSlice(log, at, |log| - at, 0, n);
      assert log[at..|log|] == log[at..];
    }
    if CanStore(payload) && Encode(crc, checked, payload) <= log[at..] {
      assert log[at..][..n] == log[at..at + n];
      EncodedReads(crc, checked, log, at, payload);
    }
  }

  lemma RecordIsEncoded(crc: Checksum, checked: bool, log: seq<Byte>, at: nat, payload: seq<Byte>)
    requires at <= |log| && RecordAt(crc, checked, log, at) == Some(payload)
    ensures CanStore(payload) && at + HeaderSize(checked) + |payload| <= |log|
    ensures log[at..at + HeaderSize(checked) + |payload|] == Encode(crc, checked, payload)
  {
    hide Le32, FromLe32;
    var header := HeaderSize(checked);
    Le32OfBytes(log[at..at + 4]);
    if checked {
      Le32OfBytes(log[at + 4..at + 8]);
      assert log[at..at + 8] == log[at..at + 4] + log[at + 4..at + 8];
    }
    assert log[at..at + header] == Header(crc, checked, payload);
    assert log[at..at + header + |payload|] == log[at..at + header] + log[at + header..at + header + |payload|];
  }

  /** The valid part of any log is exactly the encodings of the records read from it, and what follows it
      does not begin with a record. */
  lemma {:induction false} ReadsOnlyRecords(crc: Checksum, checked: bool, log: seq<Byte>, at: nat)
    requires at <= |log|
    ensures var (records, valid) := ReadFrom(crc, checked, log, at);
            && AllStorable(records) && log[at..valid] == Encodings(crc, checked, records)
            && forall payload :: CanStore(payload) ==> !(Encode(crc, checked, payload) <= log[valid..])
    decreases |log| - at
  {
    hide RecordAt, Encode, Encodings;
    ReadsOneMore(crc, checked, log, at);
    match RecordAt(crc, checked, log, at)
    case None =>
      NothingToRead(crc, checked, log);
      forall payload | CanStore(payload) ensures !(Encode(crc, checked, payload) <= log[at..]) {
        RecordAtIff(crc, checked, log, at, payload);
      }
    case Some(payload) =>
      var next := After(checked, at, payload);
      ReadsOnlyRecords(crc, checked, log, next);
      RecordIsEncoded(crc, checked, log, at, payload);
      var (rest, valid) := ReadFrom(crc, checked, log, next);
      EncodingsSplit(crc, checked, [payload] + rest);
      assert ([payload] + rest)[1..] == rest;
      assert log[at..valid] == log[at..next] + log[next..valid];
  }

  // ------------------------------------------------------------- round trips

  /** A record written at `at` reads back, whatever follows it. */
  lemma EncodedReads(crc: Checksum, checked: bool, log: seq<Byte>, at: nat, payload: seq<Byte>)
    requires CanStore(payload) && at + HeaderSize(checked) + |payload| <= |log|
    requires log[at..at + HeaderSize(checked) + |payload|] == Encode(crc, checked, payload)
    ensures RecordAt(crc, checked, log, at) == Some(payload)
  {
    hide Le32, FromLe32;
    var header := HeaderSize(checked);
    var rec := log[at..at + header + |payload|];
    Le32RoundTrip(|payload|);
    Le32RoundTrip(crc(payload));
    RecordParts(crc, checked, payload);
    SliceOfSlice(log, at, |rec|, 0, 4);
    SliceOfSlice(log, at, |rec|, header, |rec|);
    if checked {
      SliceOfSlice(log, at, |rec|, 4, 8);
    }
  }

  lemma SliceOfSlice(s: seq<Byte>, at: nat, n: nat, from: nat, to: nat)
    requires at + n <= |s| && from <= to <= n
    ensures s[at..at + n][from..to] == s[at + from..at + to]
  {
    var a, b := s[at..at + n], s[at + from..at + to];
    assert forall k :: 0 <= k < to - from ==> a[from..to][k] == a[from + k] && b[k] == s[at + from + k];
    assert a[from..to] == b;
  }

  lemma RecordParts(crc: Checksum, checked: bool, payload: seq<Byte>)
    requires CanStore(payload)
    ensures var rec := Encode(crc, checked, payload);
            && rec[..4] == Le32(|payload|) && rec[HeaderSize(checked)..] == payload
            && (checked ==> rec[4..8] == Le32(crc(payload)))
  {
    hide Le32;
    var size := Le32(|payload|);
    if checked {
      var sum := Le32(crc(payload));
      assert Encode(crc, checked, payload) == size + sum + payload;
    } else {
      assert Encode(crc, checked, payload) == size + payload;
    }
  }

  lemma {:induction false} EncodingsSplit(crc: Checksum, checked: bool, payloads: seq<seq<Byte>>)
    requires AllStorable(payloads) && payloads != []
    ensures AllStorable(payloads[1..])
    ensures Encodings(crc, checked, payloads) ==
            Encode(crc, checked, payloads[0]) + Encodings(crc, checked, payloads[1..])
    decreases |payloads|
  {
    var n := |payloads| - 1;
    assert AllStorable(payloads[1..]);
    if n == 0 {
      assert payloads[..0] == [] && payloads[1..] == [];
    } else {
      EncodingsSplit(crc, checked, payloads[..n]);
      assert payloads[..n][1..] == payloads[1..][..n - 1];
      assert payloads[1..][n - 1] == payloads[n];
    }
  }

  lemma NothingToRead(crc: Checksum, checked: bool, log: seq<Byte>)
    ensures Encodings(crc, checked, []) == []
    ensures ReadFrom(crc, checked, log, |log|) == ([], |log|)
  {
  }

  /** Encoded records are read first, then whatever follows them. */
  lemma {:induction false} ReadsPast(crc: Checksum, checked: bool, log: seq<Byte>, at: nat, payloads: seq<seq<Byte>>)
    requires AllStorable(payloads) && at <= |log| && Encodings(crc, checked, payloads) <= log[at..]
    ensures var rest := ReadFrom(crc, checked, log, at + |Encodings(crc, checked, payloads)|);
            ReadFrom(crc, checked, log, at) == (payloads + rest.0, rest.1)
    decreases |payloads|
  {
    hide Encode, RecordAt, Encodings;
    if payloads == [] {
      NothingToRead(crc, checked, log);
      assert [] + ReadFrom(crc, checked, log, at).0 == ReadFrom(crc, checked, log, at).0;
    } else {
      EncodingsSplit(crc, checked, payloads);
      var first := Encode(crc, checked, payloads[0]);
      var next := After(checked, at, payloads[0]);
      assert log[at..][..|first|] == first;
      assert log[at..at + |first|] == first;
      EncodedReads(crc, checked, log, at, payloads[0]);
      assert log[at..][|first|..] == log[next..];
      ReadsPast(crc, checked, log, next, payloads[1..]);
      var rest := ReadFrom(crc, checked, log, next + |Encodings(crc, checked, payloads[1..])|);
      assert at + |Encodings(crc, checked, payloads)| == next + |Encodings(crc, checked, payloads[1..])|;
      assert [payloads[0]] + (payloads[1..] + rest.0) == payloads + rest.0;
    }
  }

  /** A log that begins with encoded records reads back as a sequence that begins with them. */
  lemma ReadsWhatWasWritten(crc: Checksum, checked: bool, log: seq<Byte>, at: nat, payloads: seq<seq<Byte>>)
    requires AllStorable(payloads) && at <= |log| && Encodings(crc, checked, payloads) <= log[at..]
    ensures payloads <= ReadFrom(crc, checked, log, at).0
  {
    hide ReadFrom, Encodings;
    ReadsPast(crc, checked, log, at, payloads);
  }

  /** An exact log reads back exactly. */
  lemma ReadsExactly(crc: Checksum, checked: bool, log: seq<Byte>, at: nat, payloads: seq<seq<Byte>>)
    requires AllStorable(payloads) && at <= |log| && log[at..] == Encodings(crc, checked, payloads)
    ensures ReadFrom(crc, checked, log, at) == (payloads, |log|)
  {
    hide ReadFrom, Encodings;
    ReadsPast(crc, checked, log, at, payloads);
    NothingToRead(crc, checked, log);
    assert payloads + [] == payloads;
  }

  // -------------------------------------------------------------- torn tails

  /** Cutting the log after the last valid record changes no record. */
  lemma {:induction false} CutKeepsRecords(crc: Checksum, checked: bool, log: seq<Byte>, at: nat, cut: nat)
    requires at <= |log| && cut == ReadFrom(crc, checked, log, at).1
    ensures ReadFrom(crc, checked, log[..cut], at) == ReadFrom(crc, checked, log, at)
    decreases |log| - at
  {
    if RecordAt(crc, checked, log, at).Some? {
      var payload := RecordAt(crc, checked, log, at).value;
      var next := After(checked, at, payload);
      CutKeepsRecords(crc, checked, log, next, cut);
      CutKeepsRecord(crc, checked, log, at, cut);
    }
  }

  lemma CutKeepsRecord(crc: Checksum, checked: bool, log: seq<Byte>, at: nat, cut: nat)
    requires at <= |log| && RecordAt(crc, checked, log, at).Some?
    requires After(checked, at, RecordAt(crc, checked, log, at).value) <= cut <= |log|
    ensures RecordAt(crc, checked, log[..cut], at) == RecordAt(crc, checked, log, at)
  {
    hide FromLe32;
    var header, payload := HeaderSize(checked), RecordAt(crc, checked, log, at).value;
    assert log[..cut][at..at + 4] == log[at..at + 4];
    assert log[..cut][at + header..at + header + |payload|] == log[at + header..at + header + |payload|];
    if checked {
      assert log[..cut][at + 4..at + 8] == log[at + 4..at + 8];
    }
  }
}
