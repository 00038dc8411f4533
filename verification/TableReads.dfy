/** Lookups through an opened table's index and filter, and range iteration over it. */
module TableReads {
  import opened Bytes
  import opened Versions
  import opened SSTables
  import opened TableFiles
  import opened Retention
  import B = Bloom
  import Scan

  /** What `OpenWritten` and `ReadAtIndexedOffset` establish of an opened table file. */
  ghost predicate Represents(c: Codec, h: B.Hash, t: Opened, rs: seq<Record>) {
    && rs != [] && StrictlyOrdered(rs)
    && |t.index| == |rs|
    && (forall i :: 0 <= i < |rs| ==> t.index[i].key == rs[i].key)
    && (forall i :: 0 <= i < |rs| ==> ReadRecordAt(c, t.file, t.index[i].offset) == Ok(rs[i]))
    && HoldsKeys(h, t.filter, rs)
  }

  /** A file that Write produced represents its records once opened. */
  lemma WrittenRepresents(c: Codec, h: B.Hash, compress: bool, rs: seq<Record>, f: B.Contents, t: Opened)
    requires Lawful(c) && rs != [] && StrictlyOrdered(rs) && HoldsKeys(h, f, rs)
    requires forall i :: 0 <= i < |rs| ==> Representable(rs[i])
    requires |Layout(c, compress, rs, B.Encoded(f))| < UINT64
    requires OpenSpec(Layout(c, compress, rs, B.Encoded(f))) == Ok(t)
    ensures Represents(c, h, t, rs)
  {
    hide Lawful, StrictlyOrdered, B.Encoded, ReadRecordAt, DataBlock, IndexBlock, Footer, OpenSpec, B.MayHold, B.Sized, Offset;
    OpenWritten(c, compress, rs, f);
    var file, data := t.file, DataBlock(c, compress, rs);
    assert file == data + file[|data|..];
    forall i | 0 <= i < |rs| ensures ReadRecordAt(c, file, t.index[i].offset) == Ok(rs[i]) {
      ReadAtIndexedOffset(c, compress, rs, file[|data|..], i);
    }
  }

  // ---------- Binary search ----------

  ghost predicate KeysAscend(index: seq<IndexEntry>) {
    forall i, j :: 0 <= i < j < |index| ==> LessEq(index[i].key, index[j].key)
  }

  /** `sort.Search`: the first entry whose key is not smaller. */
  method LowerBound(index: seq<IndexEntry>, key: Key) returns (i: nat)
    requires KeysAscend(index)
    ensures i <= |index|
    ensures forall j :: 0 <= j < i ==> Less(index[j].key, key)
    ensures forall j :: i <= j < |index| ==> !Less(index[j].key, key)
  {
    hide Less;
    var lo, hi := 0, |index|;
    while lo < hi
      invariant 0 <= lo <= hi <= |index|
      invariant forall j :: 0 <= j < lo ==> Less(index[j].key, key)
      invariant forall j :: hi <= j < |index| ==> !Less(index[j].key, key)
    {
      var mid := (lo + hi) / 2;
      if Less(index[mid].key, key) {
        forall j | lo <= j <= mid ensures Less(index[j].key, key) {
          if j < mid && index[j].key != index[mid].key {
            LessTransitive(index[j].key, index[mid].key, key);
          }
        }
        lo := mid + 1;
      } else {
        forall j | mid <= j < hi ensures !Less(index[j].key, key) {
          if j > mid && index[j].key != index[mid].key && Less(index[j].key, key) {
            LessTransitive(index[mid].key, index[j].key, key);
          }
        }
        hi := mid;
      }
    }
    i := lo;
  }

  lemma IndexAscends(c: Codec, h: B.Hash, t: Opened, rs: seq<Record>)
    requires Represents(c, h, t, rs)
    ensures KeysAscend(t.index)
  {
    hide ReadRecordAt, HoldsKeys;
    forall i, j | 0 <= i < j < |t.index| ensures LessEq(t.index[i].key, t.index[j].key) {
      assert Before(rs[i], rs[j]);
    }
  }

  lemma RepresentsKeys(c: Codec, h: B.Hash, t: Opened, rs: seq<Record>)
    requires Represents(c, h, t, rs)
    ensures |t.index| == |rs| && StrictlyOrdered(rs) && forall j :: 0 <= j < |rs| ==> t.index[j].key == rs[j].key
  {
  }

  // ---------- Point lookup ----------

  /** `MayContainRange`. `Open` copies the least key so that an empty one becomes nil, which counts as an empty table. */
  predicate MayContainRange(t: Opened, key: Key) {
    t.index != [] && t.index[0].key != [] && !Less(key, t.index[0].key) && !Less(t.index[|t.index| - 1].key, key)
  }

  lemma OutsideRange(rs: seq<Record>, key: Key)
    requires rs != [] && StrictlyOrdered(rs)
    requires Less(key, rs[0].key) || Less(rs[|rs| - 1].key, key)
    ensures forall r :: r in rs ==> r.key != key
  {
    hide Less;
    forall r | r in rs ensures r.key != key {
      var i :| 0 <= i < |rs| && rs[i] == r;
      LessIrreflexive(key);
      var n := |rs| - 1;
      assert i > 0 ==> Before(rs[0], rs[i]);
      assert i < n ==> Before(rs[i], rs[n]);
      if r.key == key {
        if Less(key, rs[0].key) {
          assert i > 0;
          if Less(rs[0].key, key) { LessTransitive(key, rs[0].key, key); }
        } else {
          assert i < n;
          if Less(key, rs[n].key) { LessTransitive(key, rs[n].key, key); }
        }
      }
    }
  }

  /** The first entry of a key's run that is old enough is its newest visible version. */
  lemma FirstVisibleIsNewest(rs: seq<Record>, key: Key, m: nat, i: nat)
    requires StrictlyOrdered(rs) && i < |rs| && rs[i].key == key && rs[i].seqNo <= m
    requires forall j :: 0 <= j < i && rs[j].key == key ==> rs[j].seqNo > m
    ensures IsNewest(ToSet(rs), key, m, rs[i])
  {
    forall q | q in ToSet(rs) && q.key == key && q.seqNo <= m ensures q.seqNo <= rs[i].seqNo {
      var j :| 0 <= j < |rs| && rs[j] == q;
      LessIrreflexive(key);
      if i < j {
        assert Before(rs[i], rs[j]);
      }
    }
  }

  lemma NoEarlierTwin(rs: seq<Record>, i: nat, j: nat)
    requires StrictlyOrdered(rs) && i < |rs| && j < |rs| && rs[i].key == rs[j].key && rs[i].seqNo == rs[j].seqNo
    ensures !(i < j)
  {
    LessIrreflexive(rs[i].key);
  }

  lemma StrictOneVersion(rs: seq<Record>)
    requires StrictlyOrdered(rs)
    ensures OneVersion(ToSet(rs))
  {
    forall a, b | a in ToSet(rs) && b in ToSet(rs) && a.key == b.key && a.seqNo == b.seqNo ensures a == b {
      var i :| 0 <= i < |rs| && rs[i] == a;
      var j :| 0 <= j < |rs| && rs[j] == b;
      NoEarlierTwin(rs, i, j);
      NoEarlierTwin(rs, j, i);
    }
  }

  lemma NoneVisible(rs: seq<Record>, key: Key, m: nat)
    requires forall r :: r in rs && r.key == key ==> r.seqNo > m
    ensures Newest(ToSet(rs), key, m) == None
  {
  }

  /**
   `Table.Get`: range check, Bloom filter, binary search and version walk
   together are the linear search for the newest version with Seq <= m. A
   table that holds the empty key finds nothing at all.
   */
  method Get(c: Codec, h: B.Hash, t: Opened, key: Key, m: nat, ghost rs: seq<Record>) returns (r: Result<Option<Record>>)
    requires Represents(c, h, t, rs)
    ensures rs[0].key != [] ==> r == Ok(Newest(ToSet(rs), key, m))
    ensures rs[0].key == [] ==> r == Ok(None)
  {
    hide Less, StrictlyOrdered, ReadRecordAt, B.MayHold, B.Sized, Newest, IsNewest, OneVersion, Before, ToSet;
    if !MayContainRange(t, key) {
      if rs[0].key != [] {
        OutsideRange(rs, key);
        NoneVisible(rs, key, m);
      }
      return Ok(None);
    }
    var maybe := B.MayContain(h, t.filter, key);
    if !maybe {
      assert forall x :: x in rs ==> x.key != key;
      NoneVisible(rs, key, m);
      return Ok(None);
    }
    IndexAscends(c, h, t, rs);
    var i := LowerBound(t.index, key);
    assert forall j :: 0 <= j < i ==> rs[j].key != key by { BelowIsOther(t.index, rs, key, i); }
    while i < |t.index| && t.index[i].key == key
      invariant i <= |rs|
      invariant forall j :: 0 <= j < i && rs[j].key == key ==> rs[j].seqNo > m
      invariant forall j :: i <= j < |rs| ==> !Less(rs[j].key, key)
    {
      var rec := ReadRecordAt(c, t.file, t.index[i].offset);
      if rec.value.seqNo <= m {
        FirstVisibleIsNewest(rs, key, m, i);
        StrictOneVersion(rs);
        NewestIs(ToSet(rs), key, m, rs[i]);
        return Ok(Some(rec.value));
      }
      i := i + 1;
    }
    RunEnds(rs, key, m, i);
    NoneVisible(rs, key, m);
    return Ok(None);
  }

  lemma BelowIsOther(index: seq<IndexEntry>, rs: seq<Record>, key: Key, i: nat)
    requires |index| == |rs| && i <= |rs| && forall j :: 0 <= j < |rs| ==> index[j].key == rs[j].key
    requires forall j :: 0 <= j < i ==> Less(index[j].key, key)
    ensures forall j :: 0 <= j < i ==> rs[j].key != key
  {
    LessIrreflexive(key);
  }

  lemma NotAfterRun(rs: seq<Record>, i: nat, j: nat)
    requires StrictlyOrdered(rs) && i <= j < |rs| && !Less(rs[i].key, rs[j].key)
    ensures rs[i].key == rs[j].key
  {
  }

  /** Past the run of the key nothing of it can follow. */
  lemma RunEnds(rs: seq<Record>, key: Key, m: nat, i: nat)
    requires StrictlyOrdered(rs) && i <= |rs| && (i < |rs| ==> rs[i].key != key)
    requires forall j :: 0 <= j < i && rs[j].key == key ==> rs[j].seqNo > m
    requires forall j :: i <= j < |rs| ==> !Less(rs[j].key, key)
    ensures forall r :: r in rs && r.key == key ==> r.seqNo > m
  {
    forall r | r in rs && r.key == key ensures r.seqNo > m {
      var j :| 0 <= j < |rs| && rs[j] == r;
      if j >= i {
        NotAfterRun(rs, i, j);
      }
    }
  }

  // ---------- Range iteration ----------

  /** The first version in a key's group with Seq <= m, if any. */
  function FirstVisible(g: seq<Record>, m: nat): seq<Record> {
    if g == [] then [] else if g[0].seqNo <= m then [g[0]] else FirstVisible(g[1..], m)
  }

  /** What a range iterator standing at the front of `rs` will deliver. */
  function RangeList(rs: seq<Record>, end: Option<Key>, m: nat): seq<Record>
    decreases |rs|
  {
    if rs == [] || (end.Some? && !Less(rs[0].key, end.value)) then []
    else
      var n := GroupLen(rs);
      FirstVisible(rs[..n], m) + RangeList(rs[n..], end, m)
  }

  class RangeIterator {
    const t: Opened
    const end: Option<Key>
    const m: nat
    var idx: nat

    constructor (t: Opened, start: Option<Key>, end: Option<Key>, m: nat)
      requires KeysAscend(t.index)
      ensures this.t == t && this.end == end && this.m == m && idx <= |t.index|
      ensures start.None? ==> idx == 0
      ensures start.Some? ==> forall j :: 0 <= j < idx ==> Less(t.index[j].key, start.value)
      ensures start.Some? ==> forall j :: idx <= j < |t.index| ==> !Less(t.index[j].key, start.value)
    {
      var i := 0;
      if start.Some? {
        i := LowerBound(t.index, start.value);
      }
      this.t, this.end, this.m, this.idx := t, end, m, i;
    }

    /** `Next`: the next key's newest visible version, skipping keys with none. */
    method Next(c: Codec, ghost h: B.Hash, ghost rs: seq<Record>) returns (r: Result<Option<Record>>)
      requires Represents(c, h, t, rs) && idx <= |rs|
      modifies this
      ensures old(idx) <= idx <= |rs| && r.Ok?
      ensures r.value.Some? ==> RangeList(rs[old(idx)..], end, m) == [r.value.value] + RangeList(rs[idx..], end, m) && idx > old(idx)
      ensures r.value.None? ==> RangeList(rs[old(idx)..], end, m) == []
    {
      hide Less, StrictlyOrdered, ReadRecordAt, HoldsKeys, RangeList, FirstVisible, GroupLen;
      ghost var all := RangeList(rs[idx..], end, m);
      while idx < |t.index|
        invariant old(idx) <= idx <= |rs|
        invariant RangeList(rs[idx..], end, m) == all
        decreases |rs| - idx
      {
        var key := t.index[idx].key;
        ghost var i0 := idx;
        if end.Some? && !Less(key, end.value) {
          RangeStops(rs, i0, end, m);
          return Ok(None);
        }
        RangeStep(rs, i0, end, m);
        ghost var stop := i0 + GroupLen(rs[i0..]);
        var found: Option<Record> := None;
        while idx < |t.index| && t.index[idx].key == key
          invariant i0 <= idx <= stop
          invariant found.Some? ==> FirstVisible(rs[i0..stop], m) == [found.value]
          invariant found.None? ==> FirstVisible(rs[i0..stop], m) == FirstVisible(rs[idx..stop], m)
        {
          FirstVisibleStep(rs, idx, stop, m);
          if found.None? {
            var rec := ReadRecordAt(c, t.file, t.index[idx].offset);
            if rec.value.seqNo <= m {
              found := Some(rec.value);
            }
          }
          idx := idx + 1;
        }
        if found.Some? {
          return Ok(found);
        }
        assert FirstVisible(rs[stop..stop], m) == [] by { NothingVisible(rs, stop, m); }
      }
      RangeOver(rs, end, m);
      return Ok(None);
    }
  }

  lemma RangeStops(rs: seq<Record>, i: nat, end: Option<Key>, m: nat)
    requires i < |rs| && end.Some? && !Less(rs[i].key, end.value)
    ensures RangeList(rs[i..], end, m) == []
  {
  }

  lemma RangeOver(rs: seq<Record>, end: Option<Key>, m: nat)
    ensures RangeList(rs[|rs|..], end, m) == []
  {
  }

  lemma RangeStep(rs: seq<Record>, i: nat, end: Option<Key>, m: nat)
    requires i < |rs| && (end.Some? ==> Less(rs[i].key, end.value))
    ensures var stop := i + GroupLen(rs[i..]);
            && i < stop <= |rs| && (forall j :: i <= j < stop ==> rs[j].key == rs[i].key)
            && (stop < |rs| ==> rs[stop].key != rs[i].key)
            && RangeList(rs[i..], end, m) == FirstVisible(rs[i..stop], m) + RangeList(rs[stop..], end, m)
  {
    hide GroupLen, FirstVisible;
    var rest := rs[i..];
    var n := GroupLen(rest);
    assert rest[..n] == rs[i..i + n] && rest[n..] == rs[i + n..];
    assert forall j :: i <= j < |rs| ==> rs[j] == rest[j - i];
  }

  lemma FirstVisibleStep(rs: seq<Record>, a: nat, b: nat, m: nat)
    requires a < b <= |rs|
    ensures FirstVisible(rs[a..b], m) == if rs[a].seqNo <= m then [rs[a]] else FirstVisible(rs[a + 1..b], m)
  {
    assert rs[a..b][1..] == rs[a + 1..b];
  }

  lemma NothingVisible(rs: seq<Record>, a: nat, m: nat)
    requires a <= |rs|
    ensures FirstVisible(rs[a..a], m) == []
  {
  }

  /** Draining the iterator: its whole list. */
  method DrainRange(c: Codec, ghost h: B.Hash, t: Opened, start: Option<Key>, end: Option<Key>, m: nat, ghost rs: seq<Record>)
      returns (out: seq<Record>)
    requires Represents(c, h, t, rs)
    ensures Scan.Serves(out, ToSet(rs), start, end, m)
  {
    hide Represents, RangeList, Less, Scan.Serves;
    IndexAscends(c, h, t, rs);
    RepresentsKeys(c, h, t, rs);
    var it := new RangeIterator(t, start, end, m);
    ghost var lo := it.idx;
    assert StartsAt(rs, start, lo);
    out := [];
    var more := true;
    while more
      invariant it.t == t && it.end == end && it.m == m && it.idx <= |rs|
      invariant out + (if more then RangeList(rs[it.idx..], end, m) else []) == RangeList(rs[lo..], end, m)
      decreases |rs| - it.idx, more
    {
      var r := it.Next(c, h, rs);
      if r.value.Some? {
        out := out + [r.value.value];
      } else {
        more := false;
      }
    }
    assert out + [] == out;
    RangeListServes(rs, start, end, m, lo);
  }

  ghost predicate StartsAt(rs: seq<Record>, start: Option<Key>, lo: nat) {
    && lo <= |rs|
    && (start.None? ==> lo == 0)
    && (start.Some? ==> forall j :: 0 <= j < lo ==> Less(rs[j].key, start.value))
    && (start.Some? ==> forall j :: lo <= j < |rs| ==> !Less(rs[j].key, start.value))
  }

  // ---------- What the range list contains ----------

  lemma {:induction false} FirstVisibleMembers(g: seq<Record>, m: nat)
    requires Descending(g)
    ensures |FirstVisible(g, m)| <= 1
    ensures forall r :: r in FirstVisible(g, m) ==> r in g && r.seqNo <= m
    ensures forall r, q :: r in FirstVisible(g, m) && q in g && q.seqNo <= m ==> q.seqNo <= r.seqNo
    ensures forall q :: q in g && q.seqNo <= m ==> FirstVisible(g, m) != []
  {
    if g != [] && g[0].seqNo > m {
      FirstVisibleMembers(g[1..], m);
      assert g == [g[0]] + g[1..];
    }
  }

  /** The list has ascending keys and each is the newest visible version of its key among the records listed. */
  lemma {:induction false} RangeListSound(rs: seq<Record>, end: Option<Key>, m: nat)
    requires Ordered(rs)
    ensures Scan.KeysAscend(RangeList(rs, end, m))
    ensures forall r :: r in RangeList(rs, end, m) ==> r in rs && IsNewest(ToSet(rs), r.key, m, r) && (end.Some? ==> Less(r.key, end.value))
    decreases |rs|
  {
    hide Less, FirstVisible, GroupLen, Ordered;
    if !(rs == [] || (end.Some? && !Less(rs[0].key, end.value))) {
      var n := GroupLen(rs);
      var g, t := rs[..n], rs[n..];
      FirstGroup(rs);
      RangeListSound(t, end, m);
      FirstVisibleMembers(g, m);
      var a, b := FirstVisible(g, m), RangeList(t, end, m);
      AscendConcat(a, b, g, t);
      forall r | r in a ensures IsNewest(ToSet(rs), r.key, m, r) && (end.Some? ==> Less(r.key, end.value)) {
        assert r in g && r.key == rs[0].key;
        NewestInFront(g, t, m, r);
      }
      forall r | r in b ensures IsNewest(ToSet(rs), r.key, m, r) {
        NewestInTail(g, t, m, r);
      }
    }
  }

  lemma AscendConcat(a: seq<Record>, b: seq<Record>, g: seq<Record>, t: seq<Record>)
    requires |a| <= 1 && Scan.KeysAscend(b)
    requires forall r :: r in a ==> r in g
    requires forall r :: r in b ==> r in t
    requires forall r, q :: r in g && q in t ==> Less(r.key, q.key)
    ensures Scan.KeysAscend(a + b)
  {
  }

  lemma NewestInFront(g: seq<Record>, t: seq<Record>, m: nat, r: Record)
    requires r in g && r.seqNo <= m && forall q :: q in g && q.seqNo <= m ==> q.seqNo <= r.seqNo
    requires forall a, b :: a in g && b in t ==> Less(a.key, b.key)
    ensures IsNewest(ToSet(g + t), r.key, m, r)
  {
    forall q | q in ToSet(g + t) && q.key == r.key ensures q in g {
      LessIrreflexive(r.key);
    }
  }

  lemma NewestInTail(g: seq<Record>, t: seq<Record>, m: nat, r: Record)
    requires r in t && IsNewest(ToSet(t), r.key, m, r)
    requires forall a, b :: a in g && b in t ==> Less(a.key, b.key)
    ensures IsNewest(ToSet(g + t), r.key, m, r)
  {
    forall q | q in ToSet(g + t) && q.key == r.key ensures q in t {
      LessIrreflexive(r.key);
    }
  }

  /** Every visible key before the end is listed. */
  lemma {:induction false} RangeListComplete(rs: seq<Record>, end: Option<Key>, m: nat, r: Record)
    requires Ordered(rs) && r in rs && r.seqNo <= m && (end.Some? ==> Less(r.key, end.value))
    ensures exists q :: q in RangeList(rs, end, m) && q.key == r.key
    decreases |rs|
  {
    hide FirstVisible, GroupLen, Ordered, Less;
    var n := GroupLen(rs);
    var g, t := rs[..n], rs[n..];
    FirstGroup(rs);
    assert end.Some? ==> Less(rs[0].key, end.value) by {
      if r in t {
        assert rs[0] in g;
        if end.Some? { LessTransitive(rs[0].key, r.key, end.value); }
      }
    }
    FirstVisibleMembers(g, m);
    if r in g {
      var q := FirstVisible(g, m)[0];
      assert q in FirstVisible(g, m) && q in g;
      assert q in RangeList(rs, end, m) && q.key == r.key;
    } else {
      RangeListComplete(t, end, m, r);
      var q :| q in RangeList(t, end, m) && q.key == r.key;
      assert q in RangeList(rs, end, m);
    }
  }

  /** A drained range iterator serves the scan: once per key, the newest visible version. */
  lemma RangeListServes(rs: seq<Record>, start: Option<Key>, end: Option<Key>, m: nat, lo: nat)
    requires StrictlyOrdered(rs) && StartsAt(rs, start, lo)
    ensures Scan.Serves(RangeList(rs[lo..], end, m), ToSet(rs), start, end, m)
  {
    hide RangeList, Less, StrictlyOrdered, Ordered;
    var tail := rs[lo..];
    var out := RangeList(tail, end, m);
    assert Ordered(tail) && OneVersion(ToSet(rs)) by {
      StrictIsOrdered(rs, lo);
      StrictOneVersion(rs);
    }
    RangeListSound(tail, end, m);
    forall r ensures r in out <==> InRange(r.key, start, end) && IsNewest(ToSet(rs), r.key, m, r) {
      if r in out {
        TailNewest(rs, start, lo, m, r);
      }
      if InRange(r.key, start, end) && IsNewest(ToSet(rs), r.key, m, r) {
        assert r in tail by { InTail(rs, start, lo, r); }
        RangeListComplete(tail, end, m, r);
        var q :| q in out && q.key == r.key;
        TailNewest(rs, start, lo, m, q);
        assert q.seqNo == r.seqNo;
      }
    }
  }

  lemma StrictIsOrdered(rs: seq<Record>, lo: nat)
    requires StrictlyOrdered(rs) && lo <= |rs|
    ensures Ordered(rs[lo..])
  {
    var t := rs[lo..];
    forall i, j | 0 <= i < j < |t| ensures !Before(t[j], t[i]) {
      assert Before(rs[lo + i], rs[lo + j]);
      LessIrreflexive(t[i].key);
      if Less(t[j].key, t[i].key) && Less(t[i].key, t[j].key) {
        LessTransitive(t[i].key, t[j].key, t[i].key);
      }
    }
  }

  lemma InTail(rs: seq<Record>, start: Option<Key>, lo: nat, r: Record)
    requires StartsAt(rs, start, lo) && r in rs && (start.Some? ==> !Less(r.key, start.value))
    ensures r in rs[lo..]
  {
    var i :| 0 <= i < |rs| && rs[i] == r;
    assert rs[lo..][i - lo] == r;
  }

  lemma TailNewest(rs: seq<Record>, start: Option<Key>, lo: nat, m: nat, r: Record)
    requires StartsAt(rs, start, lo) && r in rs[lo..] && IsNewest(ToSet(rs[lo..]), r.key, m, r)
    ensures IsNewest(ToSet(rs), r.key, m, r) && (start.Some? ==> !Less(r.key, start.value))
  {
    var i :| 0 <= i < |rs[lo..]| && rs[lo..][i] == r;
    assert rs[lo + i] == r;
    forall q | q in ToSet(rs) && q.key == r.key ensures q in ToSet(rs[lo..]) {
      InTail(rs, start, lo, q);
    }
  }
}
