/** Opening a table file and reading its records back, by offset and in sequence. */
module TableFiles {
  import opened Bytes
  import opened Versions
  import opened SSTables
  import B = Bloom

  // ---------- Reading one record ----------

  /** `file.ReadAt`: a full read or an error. */
  function ReadAt(file: Bytes, off: nat, n: nat): Option<Bytes> {
    if off + n <= |file| then Some(file[off..off + n]) else None
  }

  /** The lengths and fields of the data record at an offset, before decompression. */
  datatype Raw = Raw(key: Key, seqNo: nat, typ: byte, stored: Bytes)

  function ReadRaw(file: Bytes, off: nat): Option<Raw> {
    var h := ReadAt(file, off, DATA_HEADER_SIZE);
    if h.None? then None
    else
      var keyLen, valLen := GetUint(h.value[0..4]), GetUint(h.value[13..17]);
      var body := ReadAt(file, off + DATA_HEADER_SIZE, keyLen + valLen);
      if body.None? then None
      else Some(Raw(body.value[..keyLen], GetUint(h.value[4..12]), h.value[12], body.value[keyLen..]))
  }

  function Unpack(c: Codec, raw: Raw): Result<Record> {
    if raw.typ >= COMPRESSED_FLAG then
      var v := c.decompress(raw.stored);
      if v.None? then Err("decompressing value")
      else Ok(Record(raw.key, v.value, raw.typ - COMPRESSED_FLAG, raw.seqNo))
    else Ok(Record(raw.key, raw.stored, raw.typ, raw.seqNo))
  }

  /** `readRecordAt`. */
  function ReadRecordAt(c: Codec, file: Bytes, off: nat): Result<Record> {
    var raw := ReadRaw(file, off);
    if raw.None? then Err("short read") else Unpack(c, raw.value)
  }

  /** The raw form `Write` gives a record. */
  function RawOf(c: Codec, compress: bool, r: Record): Raw {
    Raw(r.key, r.seqNo, RawType(c, compress, r), StoredValue(c, compress, r))
  }

  lemma UnpackRawOf(c: Codec, compress: bool, r: Record)
    requires Lawful(c) && Representable(r)
    ensures Unpack(c, RawOf(c, compress, r)) == Ok(r)
  {
    assert c.decompress(c.compress(r.value)) == Some(r.value);
  }

  lemma {:induction false} ReadEncodedRecord(c: Codec, compress: bool, r: Record, pre: Bytes, post: Bytes)
    requires Representable(r)
    ensures ReadRaw(pre + EncodeRecord(c, compress, r) + post, |pre|) == Some(RawOf(c, compress, r))
  {
    hide PutUint, GetUint, StoredValue, RawType;
    var e := EncodeRecord(c, compress, r);
    var file := pre + e + post;
    var v := StoredValue(c, compress, r);
    var h := file[|pre|..|pre| + DATA_HEADER_SIZE];
    assert |v| < UINT32 by { StoredIsShort(c, compress, r); }
    assert h == Header(c, compress, r);
    assert h[0..4] == PutUint(|r.key|, 4) && h[4..12] == PutUint(r.seqNo, 8) && h[13..17] == PutUint(|v|, 4);
    GetPutUint32(|r.key|);
    GetPutUint32(|v|);
    GetPutUint64(r.seqNo);
    var body := file[|pre| + DATA_HEADER_SIZE..|pre| + DATA_HEADER_SIZE + (|r.key| + |v|)];
    assert body == r.key + v;
    assert body[..|r.key|] == r.key && body[|r.key|..] == v;
  }

  lemma StoredIsShort(c: Codec, compress: bool, r: Record)
    requires Representable(r)
    ensures |StoredValue(c, compress, r)| < UINT32
  {
  }

  // ---------- The data block ----------

  lemma {:induction false} DataBlockSplits(c: Codec, compress: bool, rs: seq<Record>, i: nat)
    requires i < |rs|
    ensures DataBlock(c, compress, rs[..i]) + EncodeRecord(c, compress, rs[i]) <= DataBlock(c, compress, rs)
    ensures Offset(c, compress, rs, i) + |EncodeRecord(c, compress, rs[i])| == Offset(c, compress, rs, i + 1)
  {
    hide EncodeRecord;
    DataBlockAppend(c, compress, rs, i);
    var n := |rs| - 1;
    if i < n {
      DataBlockSplits(c, compress, rs[..n], i);
      assert rs[..n][..i] == rs[..i] && rs[..n][i] == rs[i];
    } else {
      assert rs[..n + 1] == rs;
    }
  }

  /** `readRecordAt` at the offset the index gives for entry `i` returns record `i`. */
  lemma ReadAtIndexedOffset(c: Codec, compress: bool, rs: seq<Record>, tail: Bytes, i: nat)
    requires Lawful(c) && i < |rs| && Representable(rs[i])
    ensures ReadRaw(DataBlock(c, compress, rs) + tail, Offset(c, compress, rs, i)) == Some(RawOf(c, compress, rs[i]))
    ensures ReadRecordAt(c, DataBlock(c, compress, rs) + tail, Offset(c, compress, rs, i)) == Ok(rs[i])
  {
    hide ReadRaw, EncodeRecord, DataBlock, Lawful, Unpack;
    var data := DataBlock(c, compress, rs);
    var pre := DataBlock(c, compress, rs[..i]);
    var e := EncodeRecord(c, compress, rs[i]);
    DataBlockSplits(c, compress, rs, i);
    var post := data[|pre| + |e|..] + tail;
    assert data + tail == pre + e + post;
    ReadEncodedRecord(c, compress, rs[i], pre, post);
    UnpackRawOf(c, compress, rs[i]);
  }

  // ---------- The index ----------

  /** The index parse of `Open`. */
  function ParseIndex(buf: Bytes): Option<seq<IndexEntry>>
    decreases |buf|
  {
    if buf == [] then Some([])
    else if |buf| < 4 then None
    else
      var klen := GetUint(buf[0..4]);
      if |buf| < 4 + klen + 8 then None
      else
        var e := IndexEntry(buf[4..4 + klen], GetUint(buf[4 + klen..4 + klen + 8]));
        var rest := ParseIndex(buf[4 + klen + 8..]);
        if rest.None? then None else Some([e] + rest.value)
  }

  lemma IndexBlockLast(ix: seq<IndexEntry>, e: IndexEntry)
    ensures IndexBlock(ix + [e]) == IndexBlock(ix) + EncodeEntry(e)
  {
    hide EncodeEntry;
    assert (ix + [e])[..|ix|] == ix;
  }

  lemma {:induction false} IndexBlockFront(ix: seq<IndexEntry>)
    requires ix != []
    ensures IndexBlock(ix) == EncodeEntry(ix[0]) + IndexBlock(ix[1..])
  {
    hide EncodeEntry, IndexBlock;
    var n := |ix| - 1;
    var first, last := ix[0], ix[n];
    if n == 0 {
      IndexBlockLast([], first);
      assert ix == [] + [first] && ix[1..] == [];
      assert IndexBlock([]) == [] by { NoEntries(); }
    } else {
      var mid := ix[1..n];
      assert ix[..n] == [first] + mid && ix[..n][1..] == mid && ix[1..] == mid + [last] && ix == ix[..n] + [last];
      IndexBlockFront(ix[..n]);
      IndexBlockLast(ix[..n], last);
      IndexBlockLast(mid, last);
      assert EncodeEntry(first) + IndexBlock(mid) + EncodeEntry(last) == EncodeEntry(first) + (IndexBlock(mid) + EncodeEntry(last));
    }
  }

  lemma NoEntries()
    ensures IndexBlock([]) == []
  {
  }

  function Prepend(out: seq<IndexEntry>, p: Option<seq<IndexEntry>>): Option<seq<IndexEntry>> {
    if p.None? then None else Some(out + p.value)
  }

  lemma ParseEntry(e: IndexEntry, rest: Bytes)
    requires |e.key| < UINT32 && e.offset < UINT64
    ensures ParseIndex(EncodeEntry(e) + rest) == Prepend([e], ParseIndex(rest))
  {
    hide PutUint, GetUint;
    var buf, k := EncodeEntry(e) + rest, |e.key|;
    assert |buf| >= 12 + k;
    assert buf[0..4] == PutUint(k, 4);
    assert buf[4..4 + k] == e.key;
    assert buf[4 + k..4 + k + 8] == PutUint(e.offset, 8);
    assert buf[4 + k + 8..] == rest;
    GetPutUint32(k);
    GetPutUint64(e.offset);
  }

  /** The parse recovers one entry per record with its key and offset. */
  lemma {:induction false} ParseWrittenIndex(ix: seq<IndexEntry>)
    requires forall i :: 0 <= i < |ix| ==> |ix[i].key| < UINT32 && ix[i].offset < UINT64
    ensures ParseIndex(IndexBlock(ix)) == Some(ix)
  {
    hide EncodeEntry, GetUint;
    if ix != [] {
      IndexBlockFront(ix);
      ParseWrittenIndex(ix[1..]);
      ParseEntry(ix[0], IndexBlock(ix[1..]));
      assert ix == [ix[0]] + ix[1..];
    }
  }

  method ParseIndexLoop(buf: Bytes) returns (index: Option<seq<IndexEntry>>)
    ensures index == ParseIndex(buf)
  {
    hide GetUint;
    var out: seq<IndexEntry> := [];
    var pos := 0;
    assert buf[0..] == buf;
    PrependNothing(ParseIndex(buf));
    while pos < |buf|
      invariant pos <= |buf|
      invariant ParseIndex(buf) == Prepend(out, ParseIndex(buf[pos..]))
    {
      ghost var rest := buf[pos..];
      if pos + 4 > |buf| {
        return None;
      }
      var klen := GetUint(buf[pos..pos + 4]);
      assert rest[0..4] == buf[pos..pos + 4];
      var at := pos + 4;
      if at + klen + 8 > |buf| {
        return None;
      }
      var e := IndexEntry(buf[at..at + klen], GetUint(buf[at + klen..at + klen + 8]));
      assert rest[4..4 + klen] == e.key;
      assert rest[4 + klen..12 + klen] == buf[at + klen..at + klen + 8];
      assert rest[12 + klen..] == buf[at + klen + 8..];
      ParseStep(rest);
      assert ParseIndex(rest) == Prepend([e], ParseIndex(buf[at + klen + 8..]));
      PrependTwice(out, e, ParseIndex(buf[at + klen + 8..]));
      out := out + [e];
      pos := at + klen + 8;
    }
    assert buf[pos..] == [] && out + [] == out;
    return Some(out);
  }

  lemma PrependNothing(p: Option<seq<IndexEntry>>)
    ensures Prepend([], p) == p
  {
    if p.Some? {
      assert [] + p.value == p.value;
    }
  }

  lemma ParseStep(rest: Bytes)
    requires |rest| >= 4 && |rest| >= 12 + GetUint(rest[0..4])
    ensures var k := GetUint(rest[0..4]);
            ParseIndex(rest) == Prepend([IndexEntry(rest[4..4 + k], GetUint(rest[4 + k..12 + k]))], ParseIndex(rest[12 + k..]))
  {
    hide GetUint;
    var k := GetUint(rest[0..4]);
    assert 4 + k + 8 == 12 + k;
  }

  lemma PrependTwice(out: seq<IndexEntry>, e: IndexEntry, p: Option<seq<IndexEntry>>)
    ensures Prepend(out, Prepend([e], p)) == Prepend(out + [e], p)
  {
    if p.Some? {
      assert out + ([e] + p.value) == out + [e] + p.value;
    }
  }

  // ---------- Open ----------

  datatype Opened = Opened(file: Bytes, index: seq<IndexEntry>, filter: B.Contents, numEntries: nat, dataSize: nat)

  function FooterField(footer: Bytes, i: nat): nat
    requires |footer| == FOOTER_SIZE && i < 5
  {
    GetUint(footer[8 * i..8 * i + 8])
  }

  function OpenSpec(file: Bytes): Result<Opened> {
    if |file| < FOOTER_SIZE then Err("too small")
    else
      var footer := file[|file| - FOOTER_SIZE..];
      if GetUint(footer[40..44]) != MAGIC then Err("magic")
      else
        var io, il, bo, bl := FooterField(footer, 0), FooterField(footer, 1), FooterField(footer, 2), FooterField(footer, 3);
        // the sums wrap at 64 bits; a block that then lies outside the file fails to be read
        if (io + il) % UINT64 > |file| || (bo + bl) % UINT64 > |file| then Err("offsets beyond end of file")
        else if io + il > |file| then Err("reading index block")
        else
          var index := ParseIndex(file[io..io + il]);
          if index.None? then Err("truncated index entry")
          else if bo + bl > |file| then Err("reading bloom filter block")
          else
            var filter := B.Decode(file[bo..bo + bl]);
            if filter.Err? then Err(filter.error)
            else Ok(Opened(file, index.value, filter.value, FooterField(footer, 4), io))
  }

  /** `Open`. */
  method Open(file: Bytes) returns (t: Result<Opened>)
    ensures t == OpenSpec(file)
  {
    hide ParseIndex, B.Decode, GetUint;
    if |file| < FOOTER_SIZE {
      return Err("too small");
    }
    var footer := file[|file| - FOOTER_SIZE..];
    if GetUint(footer[40..44]) != MAGIC {
      return Err("magic");
    }
    var io, il, bo, bl := FooterField(footer, 0), FooterField(footer, 1), FooterField(footer, 2), FooterField(footer, 3);
    if (io + il) % UINT64 > |file| || (bo + bl) % UINT64 > |file| {
      return Err("offsets beyond end of file");
    }
    if io + il > |file| {
      return Err("reading index block");
    }
    var index := ParseIndexLoop(file[io..io + il]);
    if index.None? {
      return Err("truncated index entry");
    }
    if bo + bl > |file| {
      return Err("reading bloom filter block");
    }
    var filter := B.Decode(file[bo..bo + bl]);
    if filter.Err? {
      return Err(filter.error);
    }
    return Ok(Opened(file, index.value, filter.value, FooterField(footer, 4), io));
  }

  lemma FieldAt(f: Bytes, pre: Bytes, v: nat, post: Bytes, i: nat)
    requires v < UINT64 && f == pre + PutUint(v, 8) + post && |pre| == 8 * i && i < 5 && |f| == FOOTER_SIZE
    ensures FooterField(f, i) == v
  {
    hide PutUint, GetUint;
    assert f[8 * i..8 * i + 8] == PutUint(v, 8);
    GetPutUint64(v);
  }

  lemma FooterHead(a: nat, b: nat, c: nat, d: nat, n: nat)
    requires a < UINT64 && b < UINT64
    ensures FooterField(Footer(a, b, c, d, n), 0) == a && FooterField(Footer(a, b, c, d, n), 1) == b
  {
    hide PutUint, FooterField;
    var f, tail := Footer(a, b, c, d, n), PutUint(c, 8) + PutUint(d, 8) + PutUint(n, 8) + PutUint(MAGIC, 4);
    assert f == [] + PutUint(a, 8) + (PutUint(b, 8) + tail);
    FieldAt(f, [], a, PutUint(b, 8) + tail, 0);
    assert f == PutUint(a, 8) + PutUint(b, 8) + tail;
    FieldAt(f, PutUint(a, 8), b, tail, 1);
  }

  lemma FooterMiddle(a: nat, b: nat, c: nat, d: nat, n: nat)
    requires c < UINT64 && d < UINT64
    ensures FooterField(Footer(a, b, c, d, n), 2) == c && FooterField(Footer(a, b, c, d, n), 3) == d
  {
    hide PutUint, FooterField;
    var f, pre, tail := Footer(a, b, c, d, n), PutUint(a, 8) + PutUint(b, 8), PutUint(n, 8) + PutUint(MAGIC, 4);
    assert f == pre + PutUint(c, 8) + (PutUint(d, 8) + tail);
    FieldAt(f, pre, c, PutUint(d, 8) + tail, 2);
    assert f == pre + PutUint(c, 8) + PutUint(d, 8) + tail;
    FieldAt(f, pre + PutUint(c, 8), d, tail, 3);
  }

  lemma FooterTail(a: nat, b: nat, c: nat, d: nat, n: nat)
    requires n < UINT64
    ensures FooterField(Footer(a, b, c, d, n), 4) == n && GetUint(Footer(a, b, c, d, n)[40..44]) == MAGIC
  {
    hide PutUint, GetUint, FooterField;
    var f, pre := Footer(a, b, c, d, n), PutUint(a, 8) + PutUint(b, 8) + PutUint(c, 8) + PutUint(d, 8);
    FieldAt(f, pre, n, PutUint(MAGIC, 4), 4);
    assert f[40..44] == PutUint(MAGIC, 4);
    GetPutUint32(MAGIC);
  }

  lemma FooterFields(a: nat, b: nat, c: nat, d: nat, n: nat)
    requires a < UINT64 && b < UINT64 && c < UINT64 && d < UINT64 && n < UINT64
    ensures var f := Footer(a, b, c, d, n);
            FooterField(f, 0) == a && FooterField(f, 1) == b && FooterField(f, 2) == c && FooterField(f, 3) == d
            && FooterField(f, 4) == n && GetUint(f[40..44]) == MAGIC
  {
    hide Footer, FooterField, GetUint;
    FooterHead(a, b, c, d, n);
    FooterMiddle(a, b, c, d, n);
    FooterTail(a, b, c, d, n);
  }

  lemma {:induction false} OffsetBound(c: Codec, compress: bool, rs: seq<Record>, i: nat)
    requires i <= |rs|
    ensures Offset(c, compress, rs, i) <= |DataBlock(c, compress, rs)|
    ensures |rs| <= |DataBlock(c, compress, rs)|
    decreases |rs|
  {
    hide Header, StoredValue;
    if rs != [] {
      var n := |rs| - 1;
      OffsetBound(c, compress, rs[..n], if i <= n then i else 0);
      if i <= n {
        assert rs[..n][..i] == rs[..i];
      } else {
        assert rs[..i] == rs;
      }
      assert |EncodeRecord(c, compress, rs[n])| >= DATA_HEADER_SIZE;
    }
  }

  /** Opening a written file recovers the index entry of every record, the filter, and where the data ends. */
  lemma OpenWritten(c: Codec, compress: bool, rs: seq<Record>, f: B.Contents)
    requires B.Sized(f) && |Layout(c, compress, rs, B.Encoded(f))| < UINT64
    requires forall i :: 0 <= i < |rs| ==> Representable(rs[i])
    ensures OpenSpec(Layout(c, compress, rs, B.Encoded(f))) ==
            Ok(Opened(Layout(c, compress, rs, B.Encoded(f)), IndexOf(c, compress, rs), f, |rs|, |DataBlock(c, compress, rs)|))
  {
    hide DataBlock, IndexBlock, B.Encoded, B.Decode, Footer, FooterField, ParseIndex, GetUint, B.Sized, Offset;
    var data, ix, bloom := DataBlock(c, compress, rs), IndexOf(c, compress, rs), B.Encoded(f);
    var index := IndexBlock(ix);
    var file := Layout(c, compress, rs, bloom);
    var footer := Footer(|data|, |index|, |data| + |index|, |bloom|, |rs|);
    OffsetBound(c, compress, rs, 0);
    FooterFields(|data|, |index|, |data| + |index|, |bloom|, |rs|);
    assert file == data + index + bloom + footer;
    assert file[|file| - FOOTER_SIZE..] == footer;
    assert file[|data|..|data| + |index|] == index;
    assert file[|data| + |index|..|data| + |index| + |bloom|] == bloom;
    forall i | 0 <= i < |ix| ensures |ix[i].key| < UINT32 && ix[i].offset < UINT64 {
      assert Representable(rs[i]);
      OffsetBound(c, compress, rs, i);
    }
    ParseWrittenIndex(ix);
    B.DecodeEncoded(f);
  }

  // ---------- Sequential reading ----------

  /** `Iterator`: reads the data block front to back. */
  class Iterator {
    const file: Bytes
    const limit: nat
    var pos: nat

    constructor (t: Opened)
      ensures file == t.file && limit == t.dataSize && pos == 0
    {
      file, limit, pos := t.file, t.dataSize, 0;
    }

    method Next(c: Codec) returns (r: Result<Option<Record>>)
      modifies this
      ensures old(pos) >= limit ==> r == Ok(None) && pos == old(pos)
      ensures old(pos) < limit && ReadRaw(file, old(pos)).Some? && ReadRecordAt(c, file, old(pos)).Ok? ==>
                var raw := ReadRaw(file, old(pos)).value;
                && r == Ok(Some(ReadRecordAt(c, file, old(pos)).value))
                && pos == old(pos) + DATA_HEADER_SIZE + |raw.key| + |raw.stored|
      ensures old(pos) < limit && ReadRecordAt(c, file, old(pos)).Err? ==> r.Err?
    {
      hide GetUint;
      if pos >= limit {
        return Ok(None);
      }
      var raw := ReadRaw(file, pos);
      if raw.None? {
        return Err("sstable: iterator read");
      }
      var rec := Unpack(c, raw.value);
      if rec.Err? {
        return Err(rec.error);
      }
      pos := pos + DATA_HEADER_SIZE + |raw.value.key| + |raw.value.stored|;
      return Ok(Some(rec.value));
    }
  }

  /** The iterator returns the whole list and stops exactly at the end of the data block. */
  method ReadAll(c: Codec, t: Opened, ghost compress: bool, ghost rs: seq<Record>, ghost tail: Bytes) returns (out: seq<Record>, end: nat)
    requires Lawful(c) && forall i :: 0 <= i < |rs| ==> Representable(rs[i])
    requires t.file == DataBlock(c, compress, rs) + tail && t.dataSize == |DataBlock(c, compress, rs)|
    ensures out == rs && end == t.dataSize
  {
    hide DataBlock, ReadRecordAt, ReadRaw, Lawful, EncodeRecord, Unpack;
    var it := new Iterator(t);
    out := [];
    assert Offset(c, compress, rs, 0) == 0 by { EmptyBlocks(c, compress, false); }
    assert rs[..|rs|] == rs;
    var more := true;
    ghost var n := 0;
    while more
      invariant n <= |rs| && out == rs[..n] && it.pos == Offset(c, compress, rs, n)
      invariant it.file == t.file && it.limit == t.dataSize
      invariant !more ==> n == |rs|
      decreases |rs| - n, more
    {
      if n < |rs| {
        ReadAtIndexedOffset(c, compress, rs, tail, n);
        DataBlockSplits(c, compress, rs, n);
        RecordSize(c, compress, rs[n]);
      }
      var r := it.Next(c);
      assert n == |rs| ==> r == Ok(None);
      if r.Ok? && r.value.Some? {
        out := out + [r.value.value];
        n := n + 1;
      } else {
        more := false;
      }
    }
    end := it.pos;
  }

  lemma RecordSize(c: Codec, compress: bool, r: Record)
    ensures var raw := RawOf(c, compress, r);
            |EncodeRecord(c, compress, r)| == DATA_HEADER_SIZE + |raw.key| + |raw.stored| >= 1
  {
    hide Header;
  }

  // ---------- What an accepted file must be ----------

  /** A parsed index stands in the bytes, entry by entry. */
  lemma {:induction false} ParsedIndexStands(buf: Bytes)
    ensures ParseIndex(buf).Some? ==> IndexBlock(ParseIndex(buf).value) == buf
    decreases |buf|
  {
    hide GetUint, PutUint, IndexBlock, EncodeEntry;
    if ParseIndex(buf).Some? {
      if buf == [] {
        NoEntries();
      } else {
        var k := GetUint(buf[0..4]);
        var e := IndexEntry(buf[4..4 + k], GetUint(buf[4 + k..12 + k]));
        var rest := buf[12 + k..];
        ParsedIndexStands(rest);
        ParseStep(buf);
        var ix := ParseIndex(buf).value;
        assert ix == [e] + ParseIndex(rest).value;
        assert ix[0] == e && ix[1..] == ParseIndex(rest).value;
        IndexBlockFront(ix);
        EntryStands(buf, k, e);
        assert buf == buf[..12 + k] + rest;
      }
    }
  }

  lemma EntryStands(buf: Bytes, k: nat, e: IndexEntry)
    requires |buf| >= 12 + k && k == GetUint(buf[0..4]) && e == IndexEntry(buf[4..4 + k], GetUint(buf[4 + k..12 + k]))
    ensures EncodeEntry(e) == buf[..12 + k]
  {
    hide GetUint, PutUint;
    PutGetUint(buf[0..4]);
    PutGetUint(buf[4 + k..12 + k]);
    assert buf[..12 + k] == buf[0..4] + buf[4..4 + k] + buf[4 + k..12 + k];
  }

  /** The 8-byte number `back` bytes before the end of a file. */
  function FromEnd(file: Bytes, back: nat): nat
    requires 8 <= back <= |file|
  {
    GetUint(file[|file| - back..|file| - back + 8])
  }

  /**
   What `Open` accepts: at least a footer, ending in the magic number, whose
   index is the bytes it points to, and whose filter is too.
   */
  lemma OpenedStands(file: Bytes)
    requires OpenSpec(file).Ok?
    ensures var t := OpenSpec(file).value; var n := |file|;
            && n >= 44 && file[n - 4..] == [0x53, 0x53, 0x56, 0x4B] && t.file == file
            && var io, il, bo, bl := FromEnd(file, 44), FromEnd(file, 36), FromEnd(file, 28), FromEnd(file, 20);
               && io + il <= n && bo + bl <= n && t.dataSize == io && t.numEntries == FromEnd(file, 12)
               && IndexBlock(t.index) == file[io..io + il] && B.Stands(t.filter, file[bo..bo + bl])
  {
    hide GetUint, PutUint, ParseIndex, IndexBlock, B.Decode, B.Stands;
    var n := |file|;
    var footer := file[n - FOOTER_SIZE..];
    assert footer[40..44] == file[n - 4..];
    MagicStands(footer[40..44]);
    assert footer[0..8] == file[n - 44..n - 36] && footer[8..16] == file[n - 36..n - 28];
    assert footer[16..24] == file[n - 28..n - 20] && footer[24..32] == file[n - 20..n - 12] && footer[32..40] == file[n - 12..n - 4];
    var io, il, bo, bl := FooterField(footer, 0), FooterField(footer, 1), FooterField(footer, 2), FooterField(footer, 3);
    ParsedIndexStands(file[io..io + il]);
    B.DecodedStands(file[bo..bo + bl]);
  }

  /** Only the four magic bytes read as the magic number. */
  lemma MagicStands(b: Bytes)
    requires |b| == 4
    ensures GetUint(b) == MAGIC <==> b == [0x53, 0x53, 0x56, 0x4B]
  {
    hide GetUint, PutUint;
    MagicBytes();
    PutGetUint(b);
    GetPutUint32(MAGIC);
  }

  /** Files too short for a footer, or not ending in the magic number, are rejected. */
  lemma ForeignFilesAreRejected(file: Bytes)
    ensures |file| < 44 || file[|file| - 4..] != [0x53, 0x53, 0x56, 0x4B] ==> OpenSpec(file).Err?
  {
    hide GetUint, ParseIndex, B.Decode;
    if |file| >= 44 {
      assert file[|file| - FOOTER_SIZE..][40..44] == file[|file| - 4..];
      MagicStands(file[|file| - 4..]);
    }
  }

  /** The parse succeeds exactly on the concatenation of some entries. */
  lemma ParseIndexExact(buf: Bytes)
    ensures ParseIndex(buf).Some? <==>
            exists ix: seq<IndexEntry> :: IndexBlock(ix) == buf && forall e :: e in ix ==> EntryFits(e)
  {
    hide IndexBlock;
    ParsedIndexStands(buf);
    ParsedFits(buf);
    if ix: seq<IndexEntry> :| IndexBlock(ix) == buf && forall e :: e in ix ==> EntryFits(e) {
      assert forall i :: 0 <= i < |ix| ==> EntryFits(ix[i]);
      ParseWrittenIndex(ix);
    }
  }

  predicate EntryFits(e: IndexEntry) {
    |e.key| < UINT32 && e.offset < UINT64
  }

  lemma {:induction false} ParsedFits(buf: Bytes)
    ensures ParseIndex(buf).Some? ==> forall e :: e in ParseIndex(buf).value ==> EntryFits(e)
    decreases |buf|
  {
    hide GetUint;
    if ParseIndex(buf).Some? && buf != [] {
      var k := GetUint(buf[0..4]);
      FirstEntryFits(buf, k);
      ParseStep(buf);
      ParsedFits(buf[12 + k..]);
    }
  }

  lemma FirstEntryFits(buf: Bytes, k: nat)
    requires |buf| >= 12 + k && k == GetUint(buf[0..4])
    ensures EntryFits(IndexEntry(buf[4..4 + k], GetUint(buf[4 + k..12 + k])))
  {
    hide GetUint;
    PutGetUint(buf[0..4]);
    PutGetUint(buf[4 + k..12 + k]);
    Pow256Values();
  }

  /** `Open` accepts a file exactly if it ends in a footer with the magic number whose two blocks lie inside the file and are an index and a filter. */
  lemma OpenExact(file: Bytes)
    ensures OpenSpec(file).Ok? <==>
            var n := |file|;
            && n >= 44 && file[n - 4..] == [0x53, 0x53, 0x56, 0x4B]
            && var io, il, bo, bl := FromEnd(file, 44), FromEnd(file, 36), FromEnd(file, 28), FromEnd(file, 20);
               && io + il <= n && bo + bl <= n && ParseIndex(file[io..io + il]).Some? && B.Decode(file[bo..bo + bl]).Ok?
  {
    hide GetUint, PutUint, ParseIndex, B.Decode;
    if |file| >= 44 {
      var n := |file|;
      var footer := file[n - FOOTER_SIZE..];
      assert footer[40..44] == file[n - 4..];
      MagicStands(footer[40..44]);
      assert footer[0..8] == file[n - 44..n - 36] && footer[8..16] == file[n - 36..n - 28];
      assert footer[16..24] == file[n - 28..n - 20] && footer[24..32] == file[n - 20..n - 12];
      var io, il, bo, bl := FooterField(footer, 0), FooterField(footer, 1), FooterField(footer, 2), FooterField(footer, 3);
      NoWrapInside(io + il, n);
      NoWrapInside(bo + bl, n);
    }
  }

  lemma NoWrapInside(sum: nat, n: nat)
    ensures sum <= n ==> sum % UINT64 <= n
  {
  }
}
