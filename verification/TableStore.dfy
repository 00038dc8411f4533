/** From a record list to an opened table file and back: what the engine relies on. */
module TableStore {
  import opened Bytes
  import opened Versions
  import opened SSTables
  import opened TableFiles
  import opened TableReads
  import B = Bloom

  /** Records the engine writes: they fit the format and their key is not empty. */
  predicate Writable(r: Record) {
    Representable(r) && r.key != []
  }

  /** `t` was opened from the bytes that writing `rs` produced. */
  ghost predicate IsFileOf(c: Codec, h: B.Hash, t: Opened, rs: seq<Record>) {
    && rs != [] && StrictlyOrdered(rs) && (forall i :: 0 <= i < |rs| ==> Writable(rs[i]))
    && exists compress, f :: WrittenAs(c, h, t, rs, compress, f)
  }

  ghost predicate WrittenAs(c: Codec, h: B.Hash, t: Opened, rs: seq<Record>, compress: bool, f: B.Contents) {
    && HoldsKeys(h, f, rs)
    && |Layout(c, compress, rs, B.Encoded(f))| < UINT64
    && OpenSpec(Layout(c, compress, rs, B.Encoded(f))) == Ok(t)
  }

  lemma FileRepresents(c: Codec, h: B.Hash, t: Opened, rs: seq<Record>)
    requires Lawful(c) && IsFileOf(c, h, t, rs)
    ensures Represents(c, h, t, rs)
  {
    hide Lawful, StrictlyOrdered, HoldsKeys, Layout, OpenSpec, B.Encoded, Represents;
    var compress, f :| WrittenAs(c, h, t, rs, compress, f);
    WrittenRepresents(c, h, compress, rs, f, t);
  }

  /** Every file a table can be written to is shorter than 2^64 bytes. */
  ghost predicate FileFits(c: Codec, compress: bool, rs: seq<Record>) {
    forall f :: B.Sized(f) ==> |Layout(c, compress, rs, B.Encoded(f))| < UINT64
  }

  /** `sstable.Write` followed by `sstable.Open`: fails exactly on an empty or misordered list. */
  method WriteAndOpen(c: Codec, h: B.Hash, rs: seq<Record>, compress: bool, nilEmpty: bool, numBits: nat, numHash: nat) returns (t: Result<Opened>)
    requires 0 < numBits <= UINT32 - 8 && 1 <= numHash < UINT32
    requires (forall i :: 0 <= i < |rs| ==> Writable(rs[i])) && FileFits(c, compress, rs)
    ensures t.Ok? <==> rs != [] && StrictlyOrdered(rs)
    ensures t.Ok? ==> IsFileOf(c, h, t.value, rs)
  {
    hide StrictlyOrdered, Accepted, B.Sized, Layout, OpenSpec, B.Encoded, B.MayHold;
    AcceptedExact(rs, nilEmpty);
    assert rs != [] ==> Writable(rs[0]);
    assert rs[0..] == rs;
    var file, f := Write(c, h, rs, compress, nilEmpty, numBits, numHash);
    if file.Err? {
      return Err(file.error);
    }
    OpenWritten(c, compress, rs, f);
    t := Open(file.value);
    assert WrittenAs(c, h, t.value, rs, compress, f);
  }

  /** Opening the same bytes again, in a later session, gives the same table. */
  lemma ReopenIsSame(c: Codec, h: B.Hash, t: Opened, rs: seq<Record>)
    requires IsFileOf(c, h, t, rs)
    ensures OpenSpec(t.file) == Ok(t)
  {
    hide StrictlyOrdered, HoldsKeys, Layout, B.Encoded, ParseIndex, B.Decode, GetUint;
    var compress, f :| WrittenAs(c, h, t, rs, compress, f);
  }

  /** A table iterator over such a file returns exactly the records written. */
  method ReadBack(c: Codec, t: Opened, ghost h: B.Hash, ghost rs: seq<Record>) returns (out: seq<Record>)
    requires Lawful(c) && IsFileOf(c, h, t, rs)
    ensures out == rs
  {
    hide Lawful, StrictlyOrdered, HoldsKeys, Layout, OpenSpec, B.Encoded, B.Sized, DataBlock;
    ghost var compress, f :| WrittenAs(c, h, t, rs, compress, f);
    assert B.Sized(f) by { FilterSized(h, f, rs); }
    OpenWritten(c, compress, rs, f);
    ghost var n := |DataBlock(c, compress, rs)|;
    LayoutStartsWithData(c, compress, rs, B.Encoded(f));
    ghost var tail := t.file[n..];
    assert t.file == t.file[..n] + tail;
    var end;
    out, end := ReadAll(c, t, compress, rs, tail);
  }

  lemma FilterSized(h: B.Hash, f: B.Contents, rs: seq<Record>)
    requires HoldsKeys(h, f, rs)
    ensures B.Sized(f)
  {
  }

  lemma LayoutStartsWithData(c: Codec, compress: bool, rs: seq<Record>, bloom: Bytes)
    ensures DataBlock(c, compress, rs) <= Layout(c, compress, rs, bloom)
  {
    hide DataBlock, IndexBlock, IndexOf, Footer;
  }
}
