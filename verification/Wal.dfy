/** The write-ahead log: record layout, append, and replay of logs whole, torn or truncated. */
module Wal {
  import opened Bytes
  import opened Versions

  const HEADER_SIZE := 21
  const MAX_REASONABLE_LEN := 512 * 1024 * 1024

  /** The checksum: an arbitrary deterministic function, reduced to 32 bits. */
  type Checksum = Bytes -> nat

  function Crc(crc: Checksum, b: Bytes): nat {
    crc(b) % UINT32
  }

  // ---------- Layout ----------

  /** Everything the checksum covers. */
  function Covered(r: Record): Bytes {
    [r.typ] + PutUint(r.seqNo, 8) + PutUint(|r.key|, 4) + PutUint(|r.value|, 4) + r.key + r.value
  }

  function Encode(crc: Checksum, r: Record): Bytes {
    PutUint(Crc(crc, Covered(r)), 4) + Covered(r)
  }

  function EncodeAll(crc: Checksum, rs: seq<Record>): Bytes {
    if rs == [] then [] else EncodeAll(crc, rs[..|rs| - 1]) + Encode(crc, rs[|rs| - 1])
  }

  /** Field widths: what the layout can represent. */
  predicate Representable(r: Record) {
    r.seqNo < UINT64 && |r.key| < UINT32 && |r.value| < UINT32
  }

  /** Within the length bound that replay enforces. */
  predicate Reasonable(r: Record) {
    |r.key| <= MAX_REASONABLE_LEN && |r.value| <= MAX_REASONABLE_LEN
  }

  /** Overwrite `buf[off..]` with `src`. */
  method Fill(buf: array<byte>, off: nat, src: Bytes)
    requires off + |src| <= buf.Length
    modifies buf
    ensures buf[..off + |src|] == old(buf[..off]) + src
    ensures buf[off + |src|..] == old(buf[off + |src|..])
  {
    for i := 0 to |src|
      invariant forall k :: 0 <= k < off ==> buf[k] == old(buf[k])
      invariant forall k :: 0 <= k < i ==> buf[off + k] == src[k]
      invariant forall k :: off + i <= k < buf.Length ==> buf[k] == old(buf[k])
    {
      buf[off + i] := src[i];
    }
    assert buf[..off] == old(buf[..off]);
    assert buf[off..off + |src|] == src;
    assert buf[..off + |src|] == buf[..off] + buf[off..off + |src|];
  }

  lemma CoveredAfter(z: Bytes, r: Record)
    requires |z| == 4
    ensures (z + [r.typ] + PutUint(r.seqNo, 8) + PutUint(|r.key|, 4) + PutUint(|r.value|, 4) + r.key + r.value)[4..] == Covered(r)
  {
    hide PutUint;
    assert z + [r.typ] + PutUint(r.seqNo, 8) + PutUint(|r.key|, 4) + PutUint(|r.value|, 4) + r.key + r.value == z + Covered(r);
  }

  /** The buffer `Append` fills: the fields first, the checksum last. */
  method Build(crc: Checksum, r: Record) returns (out: Bytes)
    ensures out == Encode(crc, r)
  {
    hide PutUint, Covered;
    var total := HEADER_SIZE + |r.key| + |r.value|;
    var buf := new byte[total](_ => 0);
    BuildFields(buf, r);
    assert buf[4..] == buf[..][4..];
    Fill(buf, 0, PutUint(Crc(crc, buf[4..]), 4));
    assert buf[..] == buf[..4] + buf[4..];
    out := buf[..];
  }

  method BuildFields(buf: array<byte>, r: Record)
    requires buf.Length == HEADER_SIZE + |r.key| + |r.value|
    modifies buf
    ensures buf[4..] == Covered(r)
  {
    hide PutUint, Covered;
    ghost var z := buf[..4];
    Fill(buf, 4, [r.typ]);
    ghost var a := z + [r.typ];
    assert buf[..5] == a;
    Fill(buf, 5, PutUint(r.seqNo, 8));
    ghost var b := a + PutUint(r.seqNo, 8);
    assert buf[..13] == b;
    Fill(buf, 13, PutUint(|r.key|, 4));
    ghost var c := b + PutUint(|r.key|, 4);
    assert buf[..17] == c;
    Fill(buf, 17, PutUint(|r.value|, 4));
    ghost var d := c + PutUint(|r.value|, 4);
    assert buf[..HEADER_SIZE] == d;
    Fill(buf, HEADER_SIZE, r.key);
    assert buf[..HEADER_SIZE + |r.key|] == d + r.key;
    Fill(buf, HEADER_SIZE + |r.key|, r.value);
    assert buf[..buf.Length] == d + r.key + r.value;
    CoveredAfter(z, r);
    assert buf[4..] == buf[..buf.Length][4..];
  }

  class Log {
    var bytes: Bytes

    constructor ()
      ensures bytes == []
    {
      bytes := [];
    }

    /** `Append`: build the record in a buffer, then write it out. */
    method Append(crc: Checksum, r: Record)
      modifies this
      ensures bytes == old(bytes) + Encode(crc, r)
    {
      var buf := Build(crc, r);
      bytes := bytes + buf;
    }
  }

  // ---------- Replay ----------

  datatype Step = Step(rec: Record, size: nat)

  /** The well-formed record at the front of the bytes, if there is one. */
  function Front(crc: Checksum, data: Bytes): (r: Option<Step>)
    ensures r.Some? ==> HEADER_SIZE <= r.value.size <= |data|
  {
    if |data| < HEADER_SIZE then None
    else
      var keyLen, valLen := GetUint(data[13..17]), GetUint(data[17..21]);
      if keyLen > MAX_REASONABLE_LEN || valLen > MAX_REASONABLE_LEN then None
      else if |data| < HEADER_SIZE + keyLen + valLen then None
      else
        var body := data[HEADER_SIZE..HEADER_SIZE + keyLen + valLen];
        var check := [data[4]] + PutUint(GetUint(data[5..13]), 8) + PutUint(keyLen, 4) + PutUint(valLen, 4) + body;
        if Crc(crc, check) != GetUint(data[0..4]) then None
        else Some(Step(Record(body[..keyLen], body[keyLen..], data[4], GetUint(data[5..13])), HEADER_SIZE + keyLen + valLen))
  }

  /** Every record up to the first torn or corrupt one. */
  function Replayed(crc: Checksum, data: Bytes): seq<Record>
    decreases |data|
  {
    var f := Front(crc, data);
    if f.None? then [] else [f.value.rec] + Replayed(crc, data[f.value.size..])
  }

  /** `Replay`: a consuming loop that stops silently at the first record it cannot read. */
  method Replay(crc: Checksum, data: Bytes) returns (recs: seq<Record>)
    ensures recs == Replayed(crc, data)
  {
    hide Front;
    recs := [];
    var rest := data;
    while true
      invariant recs + Replayed(crc, rest) == Replayed(crc, data)
      decreases |rest|
    {
      var f := Front(crc, rest);
      FrontSize(crc, rest);
      if f.None? {
        return;
      }
      recs := recs + [f.value.rec];
      rest := rest[f.value.size..];
    }
  }

  lemma FrontSize(crc: Checksum, data: Bytes)
    ensures Front(crc, data).Some? ==> HEADER_SIZE <= Front(crc, data).value.size <= |data|
  {
  }

  // ---------- What replay finds ----------

  /** The header fields of an encoded record, wherever the bytes end after them. */
  lemma HeaderFields(crc: Checksum, r: Record, data: Bytes)
    requires Representable(r) && |data| >= HEADER_SIZE && data[..HEADER_SIZE] == Encode(crc, r)[..HEADER_SIZE]
    ensures GetUint(data[13..17]) == |r.key| && GetUint(data[17..21]) == |r.value|
    ensures GetUint(data[5..13]) == r.seqNo && data[4] == r.typ
    ensures GetUint(data[0..4]) == Crc(crc, Covered(r))
  {
    hide PutUint, GetUint;
    var e := Encode(crc, r);
    assert data[13..17] == data[..HEADER_SIZE][13..17] == e[13..17] == PutUint(|r.key|, 4);
    assert data[17..21] == data[..HEADER_SIZE][17..21] == e[17..21] == PutUint(|r.value|, 4);
    assert data[5..13] == data[..HEADER_SIZE][5..13] == e[5..13] == PutUint(r.seqNo, 8);
    assert data[0..4] == data[..HEADER_SIZE][0..4] == e[0..4] == PutUint(Crc(crc, Covered(r)), 4);
    assert data[4] == data[..HEADER_SIZE][4];
    GetPutUint32(|r.key|);
    GetPutUint32(|r.value|);
    GetPutUint64(r.seqNo);
    GetPutUint32(Crc(crc, Covered(r)));
  }

  /** A whole record at the front is read back, unless it breaks the length bound, which ends the replay. */
  lemma FrontOfEncoded(crc: Checksum, r: Record, tail: Bytes)
    requires Representable(r)
    ensures Front(crc, Encode(crc, r) + tail) ==
            if Reasonable(r) then Some(Step(r, HEADER_SIZE + |r.key| + |r.value|)) else None
  {
    hide PutUint, GetUint;
    var e := Encode(crc, r);
    var data := e + tail;
    assert data[..HEADER_SIZE] == e[..HEADER_SIZE];
    HeaderFields(crc, r, data);
    if Reasonable(r) {
      var body := data[HEADER_SIZE..HEADER_SIZE + |r.key| + |r.value|];
      assert body == r.key + r.value;
      assert [data[4]] + PutUint(r.seqNo, 8) + PutUint(|r.key|, 4) + PutUint(|r.value|, 4) + body == Covered(r);
      assert body[..|r.key|] == r.key && body[|r.key|..] == r.value;
    }
  }

  /** A strict prefix of one record is no record: a torn append disappears. */
  lemma TornAppendIsIgnored(crc: Checksum, r: Record, torn: Bytes)
    requires Representable(r) && torn < Encode(crc, r)
    ensures Front(crc, torn) == None
  {
    hide PutUint, GetUint;
    if |torn| >= HEADER_SIZE {
      assert torn[..HEADER_SIZE] == Encode(crc, r)[..HEADER_SIZE];
      HeaderFields(crc, r, torn);
    }
  }

  ghost predicate AllRepresentable(rs: seq<Record>) {
    forall i :: 0 <= i < |rs| ==> Representable(rs[i])
  }

  lemma EncodeAllLast(crc: Checksum, rs: seq<Record>, r: Record)
    ensures EncodeAll(crc, rs + [r]) == EncodeAll(crc, rs) + Encode(crc, r)
  {
    hide Encode;
    assert (rs + [r])[..|rs|] == rs;
  }

  lemma {:induction false} EncodeAllFront(crc: Checksum, rs: seq<Record>)
    requires rs != []
    ensures EncodeAll(crc, rs) == Encode(crc, rs[0]) + EncodeAll(crc, rs[1..])
  {
    hide Encode, EncodeAll;
    var n := |rs| - 1;
    var first, last := rs[0], rs[n];
    if n == 0 {
      EncodeAllLast(crc, [], first);
      assert rs == [] + [first] && rs[1..] == [];
      assert EncodeAll(crc, []) == [] by { NothingEncoded(crc); }
    } else {
      var mid := rs[1..n];
      assert rs[..n] == [first] + mid && rs[..n][1..] == mid && rs[1..] == mid + [last] && rs == rs[..n] + [last];
      EncodeAllFront(crc, rs[..n]);
      EncodeAllLast(crc, rs[..n], last);
      EncodeAllLast(crc, mid, last);
      assert Encode(crc, first) + EncodeAll(crc, mid) + Encode(crc, last) == Encode(crc, first) + (EncodeAll(crc, mid) + Encode(crc, last));
    }
  }

  lemma NothingEncoded(crc: Checksum)
    ensures EncodeAll(crc, []) == []
  {
  }

  /** The number of leading records within the length bound. */
  function ReasonablePrefix(rs: seq<Record>): (n: nat)
    ensures n <= |rs|
    ensures n == |rs| <==> forall i :: 0 <= i < |rs| ==> Reasonable(rs[i])
  {
    if rs == [] || !Reasonable(rs[0]) then 0 else 1 + ReasonablePrefix(rs[1..])
  }

  /**
   Replay of a log in which every append completed and then one more was torn:
   it delivers, in order, the records before the first that breaks the length
   bound; all of them exactly when none does.
   */
  lemma {:induction false} ReplayOfLog(crc: Checksum, rs: seq<Record>, last: Record, torn: Bytes)
    requires AllRepresentable(rs) && Representable(last) && torn < Encode(crc, last)
    ensures Replayed(crc, EncodeAll(crc, rs) + torn) == rs[..ReasonablePrefix(rs)]
  {
    hide Front, Encode;
    if rs == [] {
      TornAppendIsIgnored(crc, last, torn);
      assert EncodeAll(crc, rs) + torn == torn;
    } else {
      var rest := EncodeAll(crc, rs[1..]) + torn;
      EncodeAllFront(crc, rs);
      assert EncodeAll(crc, rs) + torn == Encode(crc, rs[0]) + rest;
      FrontOfEncoded(crc, rs[0], rest);
      if Reasonable(rs[0]) {
        ReplayOfLog(crc, rs[1..], last, torn);
        var size := HEADER_SIZE + |rs[0].key| + |rs[0].value|;
        assert |Encode(crc, rs[0])| == size by { EncodeSize(crc, rs[0]); }
        assert (Encode(crc, rs[0]) + rest)[size..] == rest;
        assert rs[..1 + ReasonablePrefix(rs[1..])] == [rs[0]] + rs[1..][..ReasonablePrefix(rs[1..])];
      }
    }
  }

  lemma EncodeSize(crc: Checksum, r: Record)
    ensures |Encode(crc, r)| == HEADER_SIZE + |r.key| + |r.value|
  {
  }

  /** A record too long to be replayed takes every later record of its log with it. */
  lemma OversizedRecordHidesTheRest(crc: Checksum, big: Record, rs: seq<Record>)
    requires Representable(big) && !Reasonable(big)
    ensures Replayed(crc, Encode(crc, big) + EncodeAll(crc, rs)) == []
  {
    FrontOfEncoded(crc, big, EncodeAll(crc, rs));
  }

  /** More bytes never change a record already readable. */
  lemma FrontMonotone(crc: Checksum, a: Bytes, b: Bytes)
    requires a <= b && Front(crc, a).Some?
    ensures Front(crc, b) == Front(crc, a)
  {
    hide PutUint, GetUint, Crc;
    var n := Front(crc, a).value.size;
    assert a[0..4] == b[0..4] && a[5..13] == b[5..13] && a[13..17] == b[13..17] && a[17..21] == b[17..21];
    assert a[HEADER_SIZE..n] == b[HEADER_SIZE..n];
  }

  /** For arbitrary bytes, replaying any truncation delivers a prefix of what replaying the whole delivers. */
  lemma {:induction false} TruncationReplaysPrefix(crc: Checksum, data: Bytes, n: nat)
    requires n <= |data|
    ensures Replayed(crc, data[..n]) <= Replayed(crc, data)
    decreases n
  {
    hide Front;
    var cut := data[..n];
    var f := Front(crc, cut);
    FrontSize(crc, cut);
    if f.Some? {
      FrontMonotone(crc, cut, data);
      var size := f.value.size;
      assert cut[size..] == data[size..][..n - size];
      TruncationReplaysPrefix(crc, data[size..], n - size);
    }
  }

  // ---------- Only what was encoded is delivered ----------

  /** A record read from the front of arbitrary bytes stands there byte for byte, checksum included. */
  lemma FrontIsEncoding(crc: Checksum, data: Bytes)
    requires Front(crc, data).Some?
    ensures var f := Front(crc, data).value;
            f.size == |Encode(crc, f.rec)| && Encode(crc, f.rec) == data[..f.size] && Representable(f.rec) && Reasonable(f.rec)
  {
    hide PutUint, GetUint, Crc;
    var f := Front(crc, data).value;
    var n := f.size;
    var body := data[HEADER_SIZE..n];
    FieldsStand(data);
    var fields := [data[4]] + data[5..13] + data[13..17] + data[17..21];
    assert body == f.rec.key + f.rec.value;
    assert Covered(f.rec) == fields + body by {
      assert (fields + f.rec.key) + f.rec.value == fields + (f.rec.key + f.rec.value);
    }
    HeaderStands(data, n);
    assert data[..n] == data[0..4] + data[4..n];
  }

  /** Reading a field and writing it again gives its bytes. */
  lemma FieldsStand(data: Bytes)
    requires |data| >= HEADER_SIZE
    ensures PutUint(GetUint(data[0..4]), 4) == data[0..4] && PutUint(GetUint(data[5..13]), 8) == data[5..13]
    ensures PutUint(GetUint(data[13..17]), 4) == data[13..17] && PutUint(GetUint(data[17..21]), 4) == data[17..21]
    ensures GetUint(data[5..13]) < UINT64 && GetUint(data[13..17]) < UINT32 && GetUint(data[17..21]) < UINT32
  {
    hide PutUint, GetUint;
    PutGetUint(data[0..4]);
    PutGetUint(data[5..13]);
    PutGetUint(data[13..17]);
    PutGetUint(data[17..21]);
    Pow256Values();
  }

  lemma HeaderStands(data: Bytes, n: nat)
    requires HEADER_SIZE <= n <= |data|
    ensures data[4..n] == [data[4]] + data[5..13] + data[13..17] + data[17..21] + data[HEADER_SIZE..n]
  {
  }

  /** For arbitrary bytes, the encodings of the records replayed are a prefix of the log: nothing corrupt is delivered. */
  lemma {:induction false} ReplayedStandsInLog(crc: Checksum, data: Bytes)
    ensures EncodeAll(crc, Replayed(crc, data)) <= data
    decreases |data|
  {
    hide Front, Encode, EncodeAll;
    var f := Front(crc, data);
    FrontSize(crc, data);
    if f.None? {
      NothingEncoded(crc);
    } else {
      FrontIsEncoding(crc, data);
      var size, rs := f.value.size, Replayed(crc, data);
      ReplayedStandsInLog(crc, data[size..]);
      assert rs[0] == f.value.rec && rs[1..] == Replayed(crc, data[size..]);
      EncodeAllFront(crc, rs);
      assert data == data[..size] + data[size..];
    }
  }

  lemma EncodedFrontIsRead(crc: Checksum, r: Record, data: Bytes)
    requires Representable(r) && Reasonable(r)
    ensures Encode(crc, r) <= data ==> Front(crc, data).Some?
  {
    hide Front, Encode;
    if Encode(crc, r) <= data {
      var n := |Encode(crc, r)|;
      FrontOfEncoded(crc, r, data[n..]);
      assert data == Encode(crc, r) + data[n..];
    }
  }

  /** Where replay stops, no record within the length bound stands encoded: it delivers all there is up to the first damage. */
  lemma {:induction false} ReplayStopsExactly(crc: Checksum, data: Bytes, r: Record)
    requires Representable(r) && |r.key| <= 536870912 && |r.value| <= 536870912
    ensures var n := |EncodeAll(crc, Replayed(crc, data))|;
            n <= |data| && !(Encode(crc, r) <= data[n..])
    decreases |data|
  {
    hide Front, Encode, EncodeAll;
    var f := Front(crc, data);
    FrontSize(crc, data);
    ReplayedStandsInLog(crc, data);
    if f.None? {
      NothingEncoded(crc);
      assert data[0..] == data;
      EncodedFrontIsRead(crc, r, data);
    } else {
      FrontIsEncoding(crc, data);
      var size, rs := f.value.size, Replayed(crc, data);
      ReplayStopsExactly(crc, data[size..], r);
      assert rs[0] == f.value.rec && rs[1..] == Replayed(crc, data[size..]);
      EncodeAllFront(crc, rs);
      var n := |EncodeAll(crc, rs[1..])|;
      assert data[size + n..] == data[size..][n..];
    }
  }

  /** One record alone in a log: replayed exactly up to 512 MiB of key and of value. */
  lemma LengthBoundExact(crc: Checksum, r: Record)
    requires Representable(r)
    ensures Replayed(crc, Encode(crc, r)) == if |r.key| <= 536870912 && |r.value| <= 536870912 then [r] else []
  {
    hide Front, Encode;
    FrontOfEncoded(crc, r, []);
    assert Encode(crc, r) + [] == Encode(crc, r);
    EncodeSize(crc, r);
    if Reasonable(r) {
      TornAppendIsIgnored(crc, r, []);
    }
  }

  /** Where the fields of a record lie, byte for byte. */
  lemma RecordLayout(crc: Checksum, r: Record)
    ensures var e := Encode(crc, r);
            && |e| == 21 + |r.key| + |r.value|
            && e[0..4] == PutUint(Crc(crc, e[4..]), 4)
            && e[4] == r.typ
            && e[5..13] == PutUint(r.seqNo, 8)
            && e[13..17] == PutUint(|r.key|, 4)
            && e[17..21] == PutUint(|r.value|, 4)
            && e[21..21 + |r.key|] == r.key
            && e[21 + |r.key|..] == r.value
  {
    hide PutUint;
    var e := Encode(crc, r);
    assert e[4..] == Covered(r);
  }
}
