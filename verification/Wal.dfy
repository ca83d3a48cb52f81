/** The write-ahead log (src/storage/wal.cpp): framed, checksummed records in a
    byte file that is only ever appended to or truncated. */
module Wal {
  import opened Bytes
  import opened Codec
  import Crc32

  const PUT: Byte := 0x01
  const DELETE: Byte := 0x02
  const HEADER_SIZE: nat := 13
  const MAX_KEY: nat := 10 * 1024 * 1024
  const MAX_VALUE: nat := 100 * 1024 * 1024

  datatype Record = Record(op: Byte, key: Bytes, val: Bytes)
  datatype Parsed = Parsed(rec: Record, size: nat)

  /** Sizes that `recover` accepts; `append` itself has no such limit. */
  predicate Recoverable(r: Record) {
    |r.key| <= MAX_KEY && |r.val| <= MAX_VALUE
  }

  /** The sizes fit their four-byte fields. */
  predicate Framable(r: Record) {
    |r.key| < U32_SIZE && |r.val| < U32_SIZE
  }

  /** What `append` keeps of a record: as many bytes as the low 32 bits of each length say. */
  function Cut(op: Byte, key: Bytes, val: Bytes): (r: Record)
    ensures Framable(r)
  {
    Record(op, key[..|key| % U32_SIZE], val[..|val| % U32_SIZE])
  }

  // ---- The format. ----

  function PayloadOf(op: Byte, keySize: nat, valSize: nat, data: Bytes): Bytes {
    [op] + Le(keySize, 4) + Le(valSize, 4) + data
  }

  function Payload(r: Record): Bytes {
    PayloadOf(r.op, |r.key|, |r.val|, r.key + r.val)
  }

  function Checksum(payload: Bytes): (b: Bytes)
    ensures |b| == 4
  {
    Crc32.CrcBytes(Crc32.Crc(payload))
  }

  function Encode(r: Record): (b: Bytes)
    ensures |b| == HEADER_SIZE + |r.key| + |r.val|
  {
    Checksum(Payload(r)) + Payload(r)
  }

  function EncodeAll(rs: seq<Record>): Bytes {
    if rs == [] then [] else Encode(rs[0]) + EncodeAll(rs[1..])
  }

  /** One turn of the recovery loop: the record at the front and its length, if it is sound. */
  function Parse(log: Bytes): (r: Option<Parsed>)
    ensures r.Some? ==> HEADER_SIZE <= r.value.size <= |log|
  {
    if |log| < HEADER_SIZE then None
    else
      var ks, vs := FromLe(log[5..9]), FromLe(log[9..13]);
      if ks > MAX_KEY || vs > MAX_VALUE || |log| < 13 + ks + vs then None
      else
        var data := log[13..13 + ks + vs];
        if FromLe(Checksum(PayloadOf(log[4], ks, vs, data))) != FromLe(log[..4]) then None
        else Some(Parsed(Record(log[4], data[..ks], data[ks..]), 13 + ks + vs))
  }

  /** What `recover` returns: the records up to the first unsound one. */
  function Recovered(log: Bytes): seq<Record>
    decreases |log|
  {
    match Parse(log)
    case None => []
    case Some(Parsed(r, n)) => [r] + Recovered(log[n..])
  }

  // ---- Whole records are read back. ----

  lemma Layout(r: Record, rest: Bytes)
    ensures var log := Encode(r) + rest;
      && log[..4] == Checksum(Payload(r))
      && log[4] == r.op
      && log[5..9] == Le(|r.key|, 4)
      && log[9..13] == Le(|r.val|, 4)
      && log[13..13 + |r.key| + |r.val|] == r.key + r.val
  {
    var c, k, v := Checksum(Payload(r)), Le(|r.key|, 4), Le(|r.val|, 4);
    var log := c + ([r.op] + k + v + (r.key + r.val)) + rest;
    assert log == Encode(r) + rest;
    assert log[5..9] == k;
    assert log[9..13] == v;
  }

  lemma ParseEncoded(r: Record, rest: Bytes)
    requires Recoverable(r)
    ensures Parse(Encode(r) + rest) == Some(Parsed(r, |Encode(r)|))
  {
    Layout(r, rest);
    U32RoundTrip(|r.key|);
    U32RoundTrip(|r.val|);
  }

  lemma RecoveredFirst(r: Record, rest: Bytes)
    requires Recoverable(r)
    ensures Recovered(Encode(r) + rest) == [r] + Recovered(rest)
  {
    hide Parse;
    hide Encode;
    ParseEncoded(r, rest);
    assert (Encode(r) + rest)[|Encode(r)|..] == rest;
  }

  lemma {:induction false} RecoveredAppend(rs: seq<Record>, rest: Bytes)
    requires forall r :: r in rs ==> Recoverable(r)
    ensures Recovered(EncodeAll(rs) + rest) == rs + Recovered(rest)
  {
    hide Recovered;
    hide Encode;
    if rs == [] {
      assert EncodeAll(rs) + rest == rest;
    } else {
      var more := EncodeAll(rs[1..]) + rest;
      assert EncodeAll(rs) + rest == Encode(rs[0]) + more;
      RecoveredFirst(rs[0], more);
      RecoveredAppend(rs[1..], rest);
    }
  }

  /** The limits of recovery, in bytes: a record at the front of a log is returned if and only if its key has at
      most 10,485,760 and its value at most 104,857,600; a longer one hides whatever stands behind it. */
  lemma RecoveredWithinLimits(r: Record, rest: Bytes)
    requires Framable(r)
    ensures Recovered(Encode(r) + rest) ==
      if |r.key| <= 10_485_760 && |r.val| <= 104_857_600 then [r] + Recovered(rest) else []
  {
    hide Encode;
    hide Le;
    hide FromLe;
    hide Checksum;
    if Recoverable(r) {
      hide Recovered;
      RecoveredFirst(r, rest);
    } else {
      Layout(r, rest);
      U32RoundTrip(|r.key|);
      U32RoundTrip(|r.val|);
    }
  }

  // ---- Torn tails. ----

  /** A record cut short anywhere is not taken for a record, whatever its checksum. */
  lemma TornNotParsed(r: Record, n: nat)
    requires Framable(r) && n < |Encode(r)|
    ensures Parse(Encode(r)[..n]) == None
  {
    hide Checksum;
    if n >= HEADER_SIZE {
      var torn := Encode(r)[..n];
      Layout(r, []);
      assert Encode(r) + [] == Encode(r);
      SliceOfPrefix(Encode(r), n, 5, 9);
      SliceOfPrefix(Encode(r), n, 9, 13);
      U32RoundTrip(|r.key|);
      U32RoundTrip(|r.val|);
    }
  }

  /** Whole records followed by a strict prefix of one more: exactly the whole ones come back. */
  lemma TornTailIgnored(rs: seq<Record>, r: Record, n: nat)
    requires forall q :: q in rs ==> Recoverable(q)
    requires Framable(r) && n < |Encode(r)|
    ensures Recovered(EncodeAll(rs) + Encode(r)[..n]) == rs
  {
    hide *;
    RecoveredAppend(rs, Encode(r)[..n]);
    TornNotParsed(r, n);
    NothingParsed(Encode(r)[..n]);
  }

  /** Behind a tail torn after its checksum, the next record is read with its op byte
      as the top byte of a key size above the limit, so nothing behind it comes back. */
  lemma LostBehindTornChecksum(rs: seq<Record>, torn: Bytes, next: Record, rest: Bytes)
    requires forall q :: q in rs ==> Recoverable(q)
    requires |torn| == 4
    requires next.op == PUT || next.op == DELETE
    ensures Recovered(EncodeAll(rs) + (torn + Encode(next) + rest)) == rs
  {
    hide *;
    var tail := torn + Encode(next) + rest;
    RecoveredAppend(rs, tail);
    assert tail == torn + (Encode(next) + rest);
    OpByteInKeySize(torn, next, rest);
    TopByte(tail[5..9]);
    TooLargeNotParsed(tail);
    NothingParsed(tail);
  }

  // ---- Which logs can be appended to. ----

  /** The log ends with a whole record. */
  predicate Clean(log: Bytes) {
    log == EncodeAll(Recovered(log))
  }

  /** What recovery leaves unread. */
  function Tail(log: Bytes): Bytes
    decreases |log|
  {
    match Parse(log)
    case None => log
    case Some(Parsed(_, n)) => Tail(log[n..])
  }

  lemma ParsedRecord(log: Bytes)
    requires Parse(log).Some?
    ensures Recoverable(Parse(log).value.rec)
    ensures Parse(log).value.size == 13 + |Parse(log).value.rec.key| + |Parse(log).value.rec.val|
  {
    hide Checksum;
    hide FromLe;
  }

  /** A parsed record stands in the log exactly as `append` writes it. */
  lemma ParseSound(log: Bytes)
    requires Parse(log).Some?
    ensures log[..Parse(log).value.size] == Encode(Parse(log).value.rec)
  {
    hide Checksum;
    hide FromLe;
    hide Le;
    var r, n := Parse(log).value.rec, Parse(log).value.size;
    var ks, vs := |r.key|, |r.val|;
    ParsedRecord(log);
    FromLeRoundTrip(log[5..9]);
    FromLeRoundTrip(log[9..13]);
    assert r.key + r.val == log[13..n];
    var p := log[4..n];
    SliceOfSlice(log, 4, n, 1, 5);
    SliceOfSlice(log, 4, n, 5, 9);
    Reframe(p, ks, vs);
    assert p[9..] == log[13..n];
    FromLeInjective(Checksum(p), log[..4]);
    assert log[..n] == log[..4] + p;
  }

  /** Every log is the records it recovers to, followed by its tail. */
  lemma {:induction false} LogSplit(log: Bytes)
    ensures log == EncodeAll(Recovered(log)) + Tail(log) && Parse(Tail(log)) == None
    ensures forall r :: r in Recovered(log) ==> Recoverable(r)
    decreases |log|
  {
    hide Parse;
    hide Encode;
    var p := Parse(log);
    if p.Some? {
      var n := p.value.size;
      ParseSound(log);
      ParsedRecord(log);
      LogSplit(log[n..]);
      assert log == log[..n] + log[n..];
    }
  }

  lemma CleanIsNoTail(log: Bytes)
    ensures Clean(log) <==> Tail(log) == []
  {
    hide Recovered;
    hide Tail;
    LogSplit(log);
    var whole := EncodeAll(Recovered(log));
    assert |log| == |whole| + |Tail(log)|;
  }

  lemma AppendToClean(log: Bytes, r: Record)
    requires Clean(log) && Recoverable(r)
    ensures Recovered(log + Encode(r)) == Recovered(log) + [r]
  {
    hide Recovered;
    hide Encode;
    hide Recoverable;
    LogSplit(log);
    RecoveredAppend(Recovered(log), Encode(r));
    assert Encode(r) + [] == Encode(r);
    RecoveredFirst(r, []);
    assert Recovered([]) == [] by { EmptyLog(); }
  }

  lemma EmptyLog()
    ensures Recovered([]) == []
  {
  }

  /** If a record appended behind a tail came back, the log would start its tail with that record. */
  lemma ReadFromTail(log: Bytes, r: Record)
    requires Recovered(log + Encode(r)) == Recovered(log) + [r]
    ensures (Tail(log) + Encode(r))[..|Encode(r)|] == Encode(r)
  {
    hide Parse;
    hide Encode;
    hide Tail;
    LogSplit(log);
    var t := Tail(log) + Encode(r);
    assert log + Encode(r) == EncodeAll(Recovered(log)) + t;
    RecoveredAppend(Recovered(log), t);
    assert (Recovered(log) + Recovered(t))[|Recovered(log)|..] == Recovered(t);
    assert (Recovered(log) + [r])[|Recovered(log)|..] == [r];
    assert Recovered(t) == [r];
    FirstRecovered(t, r);
  }

  lemma FirstRecovered(t: Bytes, r: Record)
    requires Recovered(t) == [r]
    ensures |Encode(r)| <= |t| && t[..|Encode(r)|] == Encode(r)
  {
    hide Parse;
    hide Encode;
    var p := Parse(t);
    assert p.Some?;
    assert Recovered(t) == [p.value.rec] + Recovered(t[p.value.size..]);
    assert p.value.rec == Recovered(t)[0];
    ParseSound(t);
    ParsedRecord(t);
  }

  /** The header of a removal of the one-byte key 0, and of a put of it with an empty value. */
  function Probe(op: Byte): Record { Record(op, [0], []) }

  lemma ProbeLayout(op: Byte)
    ensures var e := Encode(Probe(op));
      |e| == 14 && e[4] == op && e[5] == 1 && e[6] == 0 && e[7] == 0 && e[8] == 0
  {
    hide Checksum;
    var e := Encode(Probe(op));
    Layout(Probe(op), []);
    assert e + [] == e;
    assert Le(1, 4) == [1, 0, 0, 0];
    assert e[5] == e[5..9][0] && e[6] == e[5..9][1] && e[7] == e[5..9][2] && e[8] == e[5..9][3];
  }

  /** Behind a non-empty tail a put and a removal of the same key cannot both be read back. */
  lemma TailLosesOne(tail: Bytes)
    requires tail != []
    ensures (tail + Encode(Probe(PUT)))[..14] != Encode(Probe(PUT)) ||
      (tail + Encode(Probe(DELETE)))[..14] != Encode(Probe(DELETE))
  {
    hide Encode;
    ProbeLayout(PUT);
    ProbeLayout(DELETE);
    var p, d := Encode(Probe(PUT)), Encode(Probe(DELETE));
    var n := |tail|;
    if n >= 5 {
      assert (tail + p)[..14][4] == tail[4] == (tail + d)[..14][4];
    } else {
      assert (tail + d)[..14][4 + n] == d[4];
    }
  }

  /** A log can be appended to, without losing the record, exactly when it ends with a whole record. */
  lemma AppendIsRecovered(log: Bytes)
    ensures Clean(log) <==>
      forall r :: Recoverable(r) && (r.op == PUT || r.op == DELETE) ==>
        Recovered(log + Encode(r)) == Recovered(log) + [r]
  {
    hide Recovered;
    hide Encode;
    hide Tail;
    hide Clean;
    hide Recoverable;
    if Clean(log) {
      forall r | Recoverable(r) ensures Recovered(log + Encode(r)) == Recovered(log) + [r] { AppendToClean(log, r); }
    } else {
      CleanIsNoTail(log);
      TailLosesOne(Tail(log));
      ProbesFit();
      forall op: Byte | Recovered(log + Encode(Probe(op))) == Recovered(log) + [Probe(op)]
        ensures (Tail(log) + Encode(Probe(op)))[..14] == Encode(Probe(op))
      {
        ReadFromTail(log, Probe(op));
        ProbeLayout(op);
      }
      assert Probe(PUT).op == PUT && Probe(DELETE).op == DELETE;
    }
  }

  lemma ProbesFit()
    ensures Recoverable(Probe(PUT)) && Recoverable(Probe(DELETE))
  {
  }

  lemma OpByteInKeySize(torn: Bytes, next: Record, rest: Bytes)
    requires |torn| == 4 && (next.op == PUT || next.op == DELETE)
    ensures var tail := torn + (Encode(next) + rest); |tail| >= 13 && tail[5..9][3] > 0
  {
    hide Checksum;
    hide Le;
    var tail := torn + (Encode(next) + rest);
    Layout(next, rest);
    assert tail[8] == (Encode(next) + rest)[4];
  }

  lemma TooLargeNotParsed(log: Bytes)
    requires |log| >= 13 && FromLe(log[5..9]) > MAX_KEY
    ensures Parse(log) == None
  {
    hide Checksum;
    hide FromLe;
  }

  lemma NothingParsed(log: Bytes)
    requires Parse(log) == None
    ensures Recovered(log) == []
  {
    hide Parse;
  }

  lemma TopByte(b: Bytes)
    requires |b| == 4 && b[3] > 0
    ensures FromLe(b) > MAX_KEY
  {
    FromLeAppend(b[..3], b[3]);
    assert b[..3] + [b[3]] == b;
    assert Pow256(3) == 256 * Pow256(2) == 0x100_0000;
  }

  // ---- Corruption. ----

  /** Changing one byte of a record outside its two length fields makes it unsound. */
  lemma CorruptNotParsed(r: Record, rest: Bytes, i: nat, b: Byte)
    requires Recoverable(r)
    requires i < |Encode(r)| && !(5 <= i < 13) && Encode(r)[i] != b
    ensures Parse(Encode(r)[i := b] + rest) == None
  {
    hide Checksum;
    var good, bad := Encode(r), Encode(r)[i := b];
    Layout(r, []);
    assert good + [] == good;
    assert bad[5..9] == good[5..9] && bad[9..13] == good[9..13];
    CorruptChecksum(r, i, b);
    MismatchNotParsed(bad, rest, |r.key|, |r.val|);
  }

  lemma CorruptChecksum(r: Record, i: nat, b: Byte)
    requires i < |Encode(r)| && Encode(r)[i] != b
    ensures var bad := Encode(r)[i := b]; bad[..4] != Checksum(bad[4..])
  {
    var p := Payload(r);
    var bad := Encode(r)[i := b];
    if i < 4 {
      assert bad[4..] == p;
      assert bad[i] != Encode(r)[i] == Checksum(p)[i];
    } else {
      assert bad[4..] == p[i - 4 := b];
      assert bad[..4] == Checksum(p);
      Crc32.SingleByteChangeDetected(p, i - 4, b);
      ChecksumInjective(p, p[i - 4 := b]);
    }
  }

  lemma ChecksumInjective(p: Bytes, q: Bytes)
    requires Crc32.Crc(p) != Crc32.Crc(q)
    ensures Checksum(p) != Checksum(q)
  {
    if Checksum(p) == Checksum(q) {
      Crc32.CrcBytesInjective(Crc32.Crc(p), Crc32.Crc(q));
    }
  }

  /** A frame with sane sizes and the wrong checksum is rejected. */
  lemma MismatchNotParsed(bad: Bytes, rest: Bytes, ks: nat, vs: nat)
    requires ks <= MAX_KEY && vs <= MAX_VALUE && |bad| == 13 + ks + vs
    requires bad[5..9] == Le(ks, 4) && bad[9..13] == Le(vs, 4)
    requires bad[..4] != Checksum(bad[4..])
    ensures Parse(bad + rest) == None
  {
    hide Checksum;
    var log := bad + rest;
    U32RoundTrip(ks);
    U32RoundTrip(vs);
    SliceLeft(bad, rest, 0, 4);
    SliceLeft(bad, rest, 5, 9);
    SliceLeft(bad, rest, 9, 13);
    SliceLeft(bad, rest, 13, |bad|);
    SliceOfSuffix(bad, 4, 1, 5);
    SliceOfSuffix(bad, 4, 5, 9);
    SliceOfSuffix(bad, 4, 9, |bad| - 4);
    Reframe(bad[4..], ks, vs);
    if FromLe(Checksum(bad[4..])) == FromLe(log[..4]) {
      FromLeInjective(Checksum(bad[4..]), log[..4]);
    }
  }

  /** A payload whose length fields are right is the frame of its own parts. */
  lemma Reframe(p: Bytes, ks: nat, vs: nat)
    requires |p| == 9 + ks + vs && p[1..5] == Le(ks, 4) && p[5..9] == Le(vs, 4)
    ensures PayloadOf(p[0], ks, vs, p[9..]) == p
  {
    assert p == [p[0]] + p[1..5] + p[5..9] + p[9..];
  }

  /** In a log of sound records, such a change makes recovery return exactly the records before it. */
  lemma CorruptionStopsRecovery(before: seq<Record>, r: Record, rest: Bytes, i: nat, b: Byte)
    requires forall q :: q in before ==> Recoverable(q)
    requires Recoverable(r)
    requires i < |Encode(r)| && !(5 <= i < 13) && Encode(r)[i] != b
    ensures Recovered(EncodeAll(before) + (Encode(r)[i := b] + rest)) == before
  {
    hide *;
    CorruptNotParsed(r, rest, i, b);
    RecoveredAppend(before, Encode(r)[i := b] + rest);
    NothingParsed(Encode(r)[i := b] + rest);
  }

  // ---- The log file. ----

  method ComputeChecksum(payload: Bytes) returns (b: Bytes)
    ensures b == Checksum(payload)
  {
    hide Crc32.CrcBytes;
    var crc := Crc32.Compute(payload);
    b := Crc32.CrcBytes(crc);
  }

  class WriteAheadLog {
    var log: Bytes

    constructor (contents: Bytes)
      ensures log == contents
    {
      log := contents;
    }

    /** `append`: checksum and frame the record at the end of the file. Lengths are cut to 32 bits and
        with them key and value; the 32-bit payload size must not wrap, or the code writes past its buffer. */
    method Append(op: Byte, key: Bytes, val: Bytes)
      requires 9 + |key| % U32_SIZE + |val| % U32_SIZE < U32_SIZE
      modifies this
      ensures log == old(log) + Encode(Cut(op, key, val))
      ensures Framable(Record(op, key, val)) ==> log == old(log) + Encode(Record(op, key, val))
    {
      hide Checksum;
      var ks, vs := |key| % U32_SIZE, |val| % U32_SIZE;
      assert Framable(Record(op, key, val)) ==> key[..ks] == key && val[..vs] == val;
      var keySize := EncodeU32(ks);
      var valSize := EncodeU32(vs);
      var payload := [op] + keySize + valSize + (key[..ks] + val[..vs]);
      var crc := ComputeChecksum(payload);
      log := log + (crc + payload);
    }

    /** `recover`: read records from the start until one is unsound. */
    method Recover() returns (records: seq<Record>)
      ensures records == Recovered(log)
    {
      hide Parse;
      records := [];
      var pos := 0;
      while true
        invariant pos <= |log|
        invariant Recovered(log) == records + Recovered(log[pos..])
        decreases |log| - pos
      {
        var r := ParseAt(pos);
        if r.None? {
          return;
        }
        assert log[pos..][r.value.size..] == log[pos + r.value.size..];
        records, pos := records + [r.value.rec], pos + r.value.size;
      }
    }

    /** The body of the recovery loop. */
    method ParseAt(pos: nat) returns (r: Option<Parsed>)
      requires pos <= |log|
      ensures r == Parse(log[pos..])
    {
      hide Checksum;
      hide FromLe;
      var rest := log[pos..];
      if |rest| < HEADER_SIZE {
        return None;
      }
      var stored := DecodeU32(rest[..4]);
      var ks := DecodeU32(rest[5..9]);
      var vs := DecodeU32(rest[9..13]);
      if ks > MAX_KEY || vs > MAX_VALUE || |rest| < 13 + ks + vs {
        return None;
      }
      var data := rest[13..13 + ks + vs];
      var computed := ComputedCrc(rest[4], ks, vs, data);
      if computed != stored {
        return None;
      }
      return Some(Parsed(Record(rest[4], data[..ks], data[ks..]), 13 + ks + vs));
    }

    /** Rebuilds the payload of a record read back and checksums it. */
    static method ComputedCrc(op: Byte, ks: nat, vs: nat, data: Bytes) returns (crc: nat)
      requires ks < U32_SIZE && vs < U32_SIZE
      ensures crc == FromLe(Checksum(PayloadOf(op, ks, vs, data)))
    {
      hide Checksum;
      var keySize := EncodeU32(ks);
      var valSize := EncodeU32(vs);
      var bytes := ComputeChecksum([op] + keySize + valSize + data);
      crc := DecodeU32(bytes);
    }

    /** `clear`: truncate the file. */
    method Clear()
      modifies this
      ensures log == []
    {
      log := [];
    }
  }
}
