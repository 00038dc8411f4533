/** The table file: data block, index, Bloom filter, footer; writing, opening and reading it back. */
module SSTables {
  import opened Bytes
  import opened Versions
  import B = Bloom

  const MAGIC: nat := 0x4B565353
  const DATA_HEADER_SIZE := 17
  const FOOTER_SIZE := 44
  const COMPRESSED_FLAG := 128

  /** The value codec: any pair in which decompression undoes compression. */
  datatype Codec = Codec(compress: Bytes -> Bytes, decompress: Bytes -> Option<Bytes>)

  ghost predicate Lawful(c: Codec) {
    forall v :: c.decompress(c.compress(v)) == Some(v)
  }

  // ---------- One data record ----------

  /** `compressValue` succeeds: the value shrinks. */
  predicate Shrinks(c: Codec, compress: bool, r: Record) {
    compress && r.typ == TYPE_VALUE && r.value != [] && |c.compress(r.value)| < |r.value|
  }

  function StoredValue(c: Codec, compress: bool, r: Record): Bytes {
    if Shrinks(c, compress, r) then c.compress(r.value) else r.value
  }

  /** The type byte, with the compressed flag or-ed in. */
  function RawType(c: Codec, compress: bool, r: Record): byte {
    if Shrinks(c, compress, r) then r.typ % COMPRESSED_FLAG + COMPRESSED_FLAG else r.typ
  }

  function Header(c: Codec, compress: bool, r: Record): (h: Bytes)
    ensures |h| == DATA_HEADER_SIZE
  {
    PutUint(|r.key|, 4) + PutUint(r.seqNo, 8) + [RawType(c, compress, r)] + PutUint(|StoredValue(c, compress, r)|, 4)
  }

  function EncodeRecord(c: Codec, compress: bool, r: Record): Bytes {
    Header(c, compress, r) + r.key + StoredValue(c, compress, r)
  }

  /** What the field widths and the flag bit can represent. */
  predicate Representable(r: Record) {
    r.seqNo < UINT64 && |r.key| < UINT32 && |r.value| < UINT32 && r.typ < COMPRESSED_FLAG
  }

  // ---------- The blocks ----------

  function DataBlock(c: Codec, compress: bool, rs: seq<Record>): Bytes {
    if rs == [] then [] else DataBlock(c, compress, rs[..|rs| - 1]) + EncodeRecord(c, compress, rs[|rs| - 1])
  }

  function Offset(c: Codec, compress: bool, rs: seq<Record>, i: nat): nat
    requires i <= |rs|
  {
    |DataBlock(c, compress, rs[..i])|
  }

  datatype IndexEntry = IndexEntry(key: Key, offset: nat)

  function EncodeEntry(e: IndexEntry): Bytes {
    PutUint(|e.key|, 4) + e.key + PutUint(e.offset, 8)
  }

  function IndexOf(c: Codec, compress: bool, rs: seq<Record>): (ix: seq<IndexEntry>)
    ensures |ix| == |rs|
    ensures forall i :: 0 <= i < |rs| ==> ix[i] == IndexEntry(rs[i].key, Offset(c, compress, rs, i))
  {
    seq(|rs|, i requires 0 <= i < |rs| => IndexEntry(rs[i].key, Offset(c, compress, rs, i)))
  }

  function IndexBlock(ix: seq<IndexEntry>): Bytes {
    if ix == [] then [] else IndexBlock(ix[..|ix| - 1]) + EncodeEntry(ix[|ix| - 1])
  }

  function Footer(indexOffset: nat, indexLen: nat, bloomOffset: nat, bloomLen: nat, n: nat): (f: Bytes)
    ensures |f| == FOOTER_SIZE
  {
    PutUint(indexOffset, 8) + PutUint(indexLen, 8) + PutUint(bloomOffset, 8) + PutUint(bloomLen, 8) + PutUint(n, 8) + PutUint(MAGIC, 4)
  }

  /** The whole file for these records and this encoded filter. */
  function Layout(c: Codec, compress: bool, rs: seq<Record>, bloom: Bytes): Bytes {
    var data := DataBlock(c, compress, rs);
    var index := IndexBlock(IndexOf(c, compress, rs));
    data + index + bloom + Footer(|data|, |index|, |data| + |index|, |bloom|, |rs|)
  }

  // ---------- Write ----------

  /** The filter made of exactly the records' keys. */
  ghost predicate HoldsKeys(h: B.Hash, f: B.Contents, rs: seq<Record>) {
    && B.Sized(f) && (forall i :: 0 <= i < |rs| ==> B.MayHold(h, f, rs[i].key))
    && forall idx :: 0 <= idx < f.numBits && B.BitSet(f.bits, idx) ==> HitBySome(h, f, rs, idx)
  }

  ghost predicate HitBySome(h: B.Hash, f: B.Contents, rs: seq<Record>, idx: nat)
    requires f.numBits > 0
  {
    exists i :: 0 <= i < |rs| && B.Hits(h, f, rs[i].key, idx, f.numHash)
  }

  lemma {:induction false} StrictAppend(rs: seq<Record>, r: Record)
    requires StrictlyOrdered(rs)
    ensures StrictlyOrdered(rs + [r]) <==> (rs != [] ==> Before(rs[|rs| - 1], r))
  {
    if rs != [] && Before(rs[|rs| - 1], r) {
      var w := rs + [r];
      forall i, j | 0 <= i < j < |w| ensures Before(w[i], w[j]) {
        if j == |rs| && i < |rs| - 1 {
          BeforeTransitive(rs[i], rs[|rs| - 1], r);
        }
      }
    } else if rs != [] {
      var w := rs + [r];
      assert w[|rs| - 1] == rs[|rs| - 1] && w[|rs|] == r;
    }
  }

  lemma OutOfOrder(prev: Record, r: Record)
    ensures (Less(r.key, prev.key) || (prev.key == r.key && r.seqNo >= prev.seqNo)) <==> !Before(prev, r)
  {
    LessTotal(prev.key, r.key);
    LessIrreflexive(r.key);
    if Less(r.key, prev.key) && Less(prev.key, r.key) {
      LessTransitive(r.key, prev.key, r.key);
    }
  }

  /** Whether a key slice is nil. Only an empty one can be; it is after a copy by append, not after make. */
  predicate IsNil(key: Key, nilEmpty: bool) {
    key == [] && nilEmpty
  }

  /**
   The order check as `Write` makes it: each record against the one before,
   but not where the one before has a nil key.
   */
  ghost predicate Accepted(rs: seq<Record>, nilEmpty: bool) {
    forall i :: 0 <= i < |rs| - 1 && !IsNil(rs[i].key, nilEmpty) ==> Before(rs[i], rs[i + 1])
  }

  lemma AcceptedAppend(rs: seq<Record>, r: Record, nilEmpty: bool)
    ensures Accepted(rs + [r], nilEmpty) <==>
            Accepted(rs, nilEmpty) && (rs != [] && !IsNil(rs[|rs| - 1].key, nilEmpty) ==> Before(rs[|rs| - 1], r))
  {
    hide Before, IsNil;
    var w, n := rs + [r], |rs|;
    assert forall i :: 0 <= i < n ==> w[i] == rs[i];
    if Accepted(w, nilEmpty) && n > 0 && !IsNil(rs[n - 1].key, nilEmpty) {
      assert Before(w[n - 1], w[n - 1 + 1]);
    }
    if Accepted(w, nilEmpty) {
      forall i | 0 <= i < n - 1 && !IsNil(rs[i].key, nilEmpty) ensures Before(rs[i], rs[i + 1]) {
        assert Before(w[i], w[i + 1]);
      }
    }
  }

  lemma AcceptedPrefix(rs: seq<Record>, i: nat, nilEmpty: bool)
    requires i <= |rs|
    ensures Accepted(rs, nilEmpty) ==> Accepted(rs[..i], nilEmpty)
  {
    hide Before, IsNil;
  }

  /** The number of leading records with a nil key. */
  function LeadingNil(rs: seq<Record>, nilEmpty: bool): (n: nat)
    ensures n <= |rs| && forall i :: 0 <= i < n ==> IsNil(rs[i].key, nilEmpty)
    ensures n < |rs| ==> !IsNil(rs[n].key, nilEmpty)
  {
    if rs == [] || !IsNil(rs[0].key, nilEmpty) then 0 else 1 + LeadingNil(rs[1..], nilEmpty)
  }

  /** Exactly what the check accepts: strict order from the first record whose key is not nil. */
  lemma {:induction false} AcceptedExact(rs: seq<Record>, nilEmpty: bool)
    ensures Accepted(rs, nilEmpty) <==> StrictlyOrdered(rs[LeadingNil(rs, nilEmpty)..])
  {
    hide Accepted, StrictlyOrdered, Before, LeadingNil, IsNil;
    if rs == [] {
      assert rs[LeadingNil(rs, nilEmpty)..] == [];
      NothingToCompare([], nilEmpty);
    } else {
      var m := |rs| - 1;
      var init, r := rs[..m], rs[m];
      var n := LeadingNil(init, nilEmpty);
      assert rs == init + [r];
      AcceptedExact(init, nilEmpty);
      AcceptedAppend(init, r, nilEmpty);
      if n == m {
        assert |rs[LeadingNil(rs, nilEmpty)..]| <= 1 by { assert forall i :: 0 <= i < m ==> rs[i] == init[i]; }
        NothingToCompare(rs[LeadingNil(rs, nilEmpty)..], nilEmpty);
        assert init[n..] == [];
        NothingToCompare([], nilEmpty);
      } else {
        assert LeadingNil(rs, nilEmpty) == n by { assert rs[n] == init[n]; }
        assert rs[n..] == init[n..] + [r];
        LaterKeys(init[n..], nilEmpty);
        assert init[n..][|init[n..]| - 1] == init[m - 1];
        StrictAppendIff(init[n..], r);
      }
    }
  }

  lemma NothingToCompare(rs: seq<Record>, nilEmpty: bool)
    requires |rs| <= 1
    ensures Accepted(rs, nilEmpty) && StrictlyOrdered(rs)
  {
  }

  lemma StrictAppendIff(rs: seq<Record>, r: Record)
    requires rs != []
    ensures StrictlyOrdered(rs + [r]) <==> StrictlyOrdered(rs) && Before(rs[|rs| - 1], r)
  {
    var w := rs + [r];
    if StrictlyOrdered(w) {
      forall i, j | 0 <= i < j < |rs| ensures Before(rs[i], rs[j]) {
        assert w[i] == rs[i] && w[j] == rs[j];
      }
    }
    if StrictlyOrdered(rs) {
      StrictAppend(rs, r);
    }
  }

  lemma LaterKeys(rs: seq<Record>, nilEmpty: bool)
    requires rs != [] && !IsNil(rs[0].key, nilEmpty)
    ensures StrictlyOrdered(rs) ==> !IsNil(rs[|rs| - 1].key, nilEmpty)
  {
  }

  /** Two versions under a nil key, the older first, pass the check. */
  lemma MisorderedIsAccepted(a: Record, b: Record)
    requires a.key == b.key == [] && a.seqNo < b.seqNo
    ensures Accepted([a, b], true) && !StrictlyOrdered([a, b])
  {
    assert [a, b][0] == a && [a, b][1] == b;
    assert !Before(a, b);
  }

  /** One step of the data loop keeps what the prefix established. */
  lemma DataBlockAppend(c: Codec, compress: bool, rs: seq<Record>, i: nat)
    requires i < |rs|
    ensures DataBlock(c, compress, rs[..i + 1]) == DataBlock(c, compress, rs[..i]) + EncodeRecord(c, compress, rs[i])
  {
    assert rs[..i + 1][..i] == rs[..i];
  }

  lemma HoldsOneMore(h: B.Hash, f: B.Contents, g: B.Contents, rs: seq<Record>, i: nat)
    requires i < |rs| && HoldsKeys(h, f, rs[..i]) && B.Adds(h, f, g, rs[i].key)
    ensures HoldsKeys(h, g, rs[..i + 1]) && g.numBits == f.numBits && g.numHash == f.numHash
  {
    hide B.MayHold, B.BitSet, B.Hits;
    B.AddKeeps(h, f, g, rs[i].key);
    forall j | 0 <= j <= i ensures B.MayHold(h, g, rs[j].key) {
      if j < i {
        assert rs[..i][j] == rs[j];
      }
    }
    forall idx | 0 <= idx < g.numBits && B.BitSet(g.bits, idx) ensures HitBySome(h, g, rs[..i + 1], idx) {
      if B.Hits(h, f, rs[i].key, idx, f.numHash) {
        B.SameHits(h, f, g, rs[i].key, idx);
        assert rs[..i + 1][i] == rs[i];
      } else {
        assert HitBySome(h, f, rs[..i], idx);
        var j :| 0 <= j < i && B.Hits(h, f, rs[..i][j].key, idx, f.numHash);
        B.SameHits(h, f, g, rs[j].key, idx);
        assert rs[..i + 1][j] == rs[j];
      }
    }
  }

  /** The data loop: order check, filter, index, bytes. */
  method WriteRecords(c: Codec, h: B.Hash, rs: seq<Record>, compress: bool, nilEmpty: bool, f: B.Filter)
      returns (ok: bool, out: Bytes, index: seq<IndexEntry>)
    requires f.Valid() && f.hash == h && B.IsEmpty(f.Value())
    modifies f.bits
    ensures f.Valid() && (ok <==> Accepted(rs, nilEmpty))
    ensures ok ==> HoldsKeys(h, f.Value(), rs) && out == DataBlock(c, compress, rs) && index == IndexOf(c, compress, rs)
  {
    hide Accepted, IsNil, B.Sized, B.Adds, B.MayHold, B.Filter.Valid, EncodeRecord, DataBlock, Before, Less, HoldsKeys, B.Filter.Value, B.IsEmpty;
    ok, out, index := true, [], [];
    var offset := 0;
    assert rs[..0] == [];
    assert HoldsKeys(h, f.Value(), rs[..0]) by { HoldsNone(h, f); }
    assert Accepted(rs[..0], nilEmpty) && DataBlock(c, compress, []) == [] by { EmptyBlocks(c, compress, nilEmpty); }
    for i := 0 to |rs|
      invariant f.Valid() && HoldsKeys(h, f.Value(), rs[..i])
      invariant out == DataBlock(c, compress, rs[..i]) && offset == |out|
      invariant |index| == i && forall j :: 0 <= j < i ==> index[j] == IndexEntry(rs[j].key, Offset(c, compress, rs, j))
      invariant Accepted(rs[..i], nilEmpty)
    {
      var r := rs[i];
      assert rs[..i + 1] == rs[..i] + [r];
      AcceptedAppend(rs[..i], r, nilEmpty);
      if i > 0 && !IsNil(rs[i - 1].key, nilEmpty) {
        var prev := rs[i - 1];
        OutOfOrder(prev, r);
        if Less(r.key, prev.key) || (prev.key == r.key && r.seqNo >= prev.seqNo) {
          AcceptedPrefix(rs, i + 1, nilEmpty);
          return false, [], [];
        }
      }
      ghost var before := f.Value();
      f.Add(r.key);
      HoldsOneMore(h, before, f.Value(), rs, i);
      index := index + [IndexEntry(r.key, offset)];
      DataBlockAppend(c, compress, rs, i);
      out := out + EncodeRecord(c, compress, r);
      offset := |out|;
    }
    assert rs[..|rs|] == rs;
  }

  method WriteIndex(index: seq<IndexEntry>) returns (block: Bytes)
    ensures block == IndexBlock(index)
  {
    hide EncodeEntry;
    block := [];
    for i := 0 to |index|
      invariant block == IndexBlock(index[..i])
    {
      assert index[..i + 1][..i] == index[..i];
      block := block + EncodeEntry(index[i]);
    }
    assert index[..|index|] == index;
  }

  /**
   `Write`: rejects an empty list or one its order check does not accept; else
   lays the file out, with a filter that holds every key.
   */
  method Write(c: Codec, h: B.Hash, rs: seq<Record>, compress: bool, nilEmpty: bool, numBits: nat, numHash: nat)
      returns (file: Result<Bytes>, ghost filter: B.Contents)
    requires 0 < numBits <= UINT32 - 8 && 1 <= numHash < UINT32
    ensures file.Ok? <==> rs != [] && Accepted(rs, nilEmpty)
    ensures file.Ok? ==> filter.numBits == numBits && filter.numHash == numHash
    ensures file.Ok? ==> HoldsKeys(h, filter, rs) && file.value == Layout(c, compress, rs, B.Encoded(filter))
  {
    hide Accepted, HoldsKeys, B.Filter.Valid, B.IsEmpty, B.Encoded, DataBlock, IndexBlock, Footer, IndexOf;
    var f := new B.Filter(h, numBits, numHash);
    filter := f.Value();
    if rs == [] {
      return Err("sstable: refusing to write an empty table"), filter;
    }
    var ok, data, index := WriteRecords(c, h, rs, compress, nilEmpty, f);
    filter := f.Value();
    if !ok {
      return Err("sstable: records passed to Write must be sorted"), filter;
    }
    var block := WriteIndex(index);
    var bloom := f.Encode();
    file := Ok(data + block + bloom + Footer(|data|, |block|, |data| + |block|, |bloom|, |rs|));
  }

  lemma HoldsNone(h: B.Hash, f: B.Filter)
    requires f.Valid() && B.IsEmpty(f.Value())
    ensures HoldsKeys(h, f.Value(), [])
  {
  }

  lemma EmptyBlocks(c: Codec, compress: bool, nilEmpty: bool)
    ensures Accepted([], nilEmpty) && DataBlock(c, compress, []) == []
  {
  }

  // ---------- Where the bytes lie ----------

  /** A data record, byte for byte: a value is stored compressed, and flagged so, exactly if that makes it shorter. */
  lemma RecordLayout(c: Codec, compress: bool, r: Record)
    requires r.typ == 1 || r.typ == 2
    ensures var e := EncodeRecord(c, compress, r);
            var packed := compress && r.typ == 1 && r.value != [] && |c.compress(r.value)| < |r.value|;
            var stored := if packed then c.compress(r.value) else r.value;
            && |e| == 17 + |r.key| + |stored|
            && e[0..4] == PutUint(|r.key|, 4)
            && e[4..12] == PutUint(r.seqNo, 8)
            && e[12] == (if packed then r.typ + 128 else r.typ)
            && e[13..17] == PutUint(|stored|, 4)
            && e[17..17 + |r.key|] == r.key
            && e[17 + |r.key|..] == stored
  {
    hide PutUint;
  }

  lemma EntryLayout(e: IndexEntry)
    ensures var b := EncodeEntry(e);
            && |b| == 12 + |e.key|
            && b[0..4] == PutUint(|e.key|, 4) && b[4..4 + |e.key|] == e.key && b[4 + |e.key|..] == PutUint(e.offset, 8)
  {
    hide PutUint;
  }

  /** The last 44 bytes of a table file say where everything else lies; the last four are the magic number. */
  lemma FileLayout(c: Codec, compress: bool, rs: seq<Record>, bloom: Bytes)
    ensures var file := Layout(c, compress, rs, bloom);
            var d, i, n := |DataBlock(c, compress, rs)|, |IndexBlock(IndexOf(c, compress, rs))|, |file|;
            && n == d + i + |bloom| + 44
            && file[..d] == DataBlock(c, compress, rs)
            && file[d..d + i] == IndexBlock(IndexOf(c, compress, rs))
            && file[d + i..n - 44] == bloom
            && file[n - 44..n - 36] == PutUint(d, 8) && file[n - 36..n - 28] == PutUint(i, 8)
            && file[n - 28..n - 20] == PutUint(d + i, 8) && file[n - 20..n - 12] == PutUint(|bloom|, 8)
            && file[n - 12..n - 4] == PutUint(|rs|, 8) && file[n - 4..] == [0x53, 0x53, 0x56, 0x4B]
  {
    hide DataBlock, IndexBlock, IndexOf, PutUint;
    var file := Layout(c, compress, rs, bloom);
    var d, i, n := |DataBlock(c, compress, rs)|, |IndexBlock(IndexOf(c, compress, rs))|, |file|;
    var f := Footer(d, i, d + i, |bloom|, |rs|);
    assert file[n - 44..] == f;
    FooterLayout(d, i, d + i, |bloom|, |rs|);
    assert forall a, b :: 0 <= a <= b <= 44 ==> file[n - 44 + a..n - 44 + b] == f[a..b];
    assert file[n - 4..] == f[40..44];
  }

  lemma FooterLayout(a: nat, b: nat, c: nat, d: nat, n: nat)
    ensures var f := Footer(a, b, c, d, n);
            && f[0..8] == PutUint(a, 8) && f[8..16] == PutUint(b, 8) && f[16..24] == PutUint(c, 8)
            && f[24..32] == PutUint(d, 8) && f[32..40] == PutUint(n, 8) && f[40..44] == [0x53, 0x53, 0x56, 0x4B]
  {
    hide PutUint;
    MagicBytes();
  }

  lemma MagicBytes()
    ensures PutUint(MAGIC, 4) == [0x53, 0x53, 0x56, 0x4B]
  {
    assert PutUint(0x4B, 1) == [0x4B] + PutUint(0, 0);
    assert PutUint(0x4B56, 2) == [0x56] + PutUint(0x4B, 1);
    assert PutUint(0x4B5653, 3) == [0x53] + PutUint(0x4B56, 2);
  }
}
