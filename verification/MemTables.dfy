/** The memtable over its skip list: one version per key, and what flushing or scanning it lists. */
module MemTables {
  import opened Bytes
  import opened Versions
  import opened History
  import opened SortedMaps
  import opened SkipLists
  import opened Store
  import Scan

  const ENTRY_OVERHEAD := 48

  /** Entries in the list are stored under their record's own key. */
  ghost predicate OwnKeys(es: seq<Entry<Record>>) {
    forall i :: 0 <= i < |es| ==> es[i].value.key == es[i].key
  }

  function RecordsOf(es: seq<Entry<Record>>): (rs: seq<Record>)
    ensures |rs| == |es|
    ensures forall i :: 0 <= i < |es| ==> rs[i] == es[i].value
  {
    seq(|es|, i requires 0 <= i < |es| => es[i].value)
  }

  lemma {:induction false} PutKeepsOwnKeys(es: seq<Entry<Record>>, r: Record)
    requires OwnKeys(es)
    ensures OwnKeys(PutEntry(es, r.key, r))
  {
    if es != [] && es[0].key != r.key && !Less(r.key, es[0].key) {
      PutKeepsOwnKeys(es[1..], r);
    }
  }

  lemma {:induction false} MapValues(es: seq<Entry<Record>>)
    requires Sorted(es)
    ensures ToMap(es).Values == ToSet(RecordsOf(es))
    ensures forall e :: e in es ==> e.key in ToMap(es)
  {
    var m := ToMap(es);
    if es == [] {
      assert m.Values == {};
    } else {
      var t := es[1..];
      SortedTail(es);
      MapValues(t);
      FirstKeyIsNew(es);
      assert RecordsOf(es) == [es[0].value] + RecordsOf(t);
      assert ToSet(RecordsOf(es)) == {es[0].value} + ToSet(RecordsOf(t));
      assert m.Values == {es[0].value} + ToMap(t).Values by {
        assert m[es[0].key] == es[0].value;
        forall k | k in ToMap(t) ensures ToMap(t)[k] in m.Values {
          assert m[k] == ToMap(t)[k];
        }
      }
    }
  }

  lemma FirstKeyIsNew(es: seq<Entry<Record>>)
    requires Sorted(es) && es != []
    ensures es[0].key !in ToMap(es[1..])
  {
    SortedTail(es);
    if |es| > 1 {
      assert es[1..][0] in es[1..];
    }
    NoLookupAbove(es[1..], es[0].key);
    LookupIsMap(es[1..], es[0].key);
  }

  /** Listing a memtable gives records in table-file order, exactly its contents. */
  lemma ListingIsFlush(es: seq<Entry<Record>>)
    requires Sorted(es) && OwnKeys(es)
    ensures IsFlushOf(RecordsOf(es), ToMap(es))
  {
    MapValues(es);
  }

  lemma PutIsNotEmpty(es: seq<Entry<Record>>, r: Record)
    ensures PutEntry(es, r.key, r) != []
  {
  }

  lemma FullIsNotEmpty(mt: MemTable)
    requires mt.Valid() && mt.size > 0
    ensures mt.Contents() != map[]
  {
    var es := mt.skl.Entries();
    assert es[0].key in ToMap(es);
  }

  class MemTable {
    const skl: SkipList<Record>
    var size: nat

    ghost predicate Valid()
      reads this, skl, skl.nodes
    {
      skl.Valid() && OwnKeys(skl.Entries()) && (size > 0 ==> skl.Entries() != [])
    }

    ghost function Repr(): set<object>
      reads skl
    {
      {this, skl} + set n | n in skl.nodes
    }

    ghost function Contents(): History.MemTable
      requires Valid()
      reads this, skl, skl.nodes
    {
      ToMap(skl.Entries())
    }

    constructor ()
      ensures Valid() && Contents() == map[] && size == 0 && fresh(Repr())
    {
      skl := new SkipList<Record>();
      size := 0;
    }

    /** `Put` and `Delete`: the newest write simply replaces whatever the key held. */
    method Write(r: Record, height: nat)
      requires Valid() && 1 <= height <= MAX_LEVEL
      modifies Repr()
      ensures Valid() && fresh(Repr() - old(Repr()))
      ensures Contents() == old(Contents())[r.key := r]
      ensures size == old(size) + |r.key| + |r.value| + 48
    {
      hide SkipList.Valid, SkipList.Entries, ToMap, PutEntry, OwnKeys;
      ghost var es := skl.Entries();
      PutKeepsOwnKeys(es, r);
      PutUpdatesMap(es, r.key, r);
      assert PutEntry(es, r.key, r) != [] by { PutIsNotEmpty(es, r); }
      skl.Put(r.key, r, height);
      size := size + |r.key| + |r.value| + ENTRY_OVERHEAD;
    }

    method Get(key: Key) returns (r: Option<Record>)
      requires Valid()
      ensures r == if key in Contents() then Some(Contents()[key]) else None
    {
      r := skl.Get(key);
      LookupIsMap(skl.Entries(), key);
    }

    /** `buildRecords`: what a flush writes. */
    method BuildRecords() returns (recs: seq<Record>)
      requires Valid()
      ensures IsFlushOf(recs, Contents())
    {
      var es := skl.All();
      skl.EntriesSorted();
      ListingIsFlush(es);
      recs := RecordsOf(es);
    }

    /** `Range`, as the scan source made of it: it serves the read at any bound. */
    method RangeSource(start: Option<Key>, end: Option<Key>, m: nat) returns (src: seq<Record>)
      requires Valid()
      ensures Scan.Serves(src, Contents().Values, start, end, m)
    {
      hide SkipList.Valid, SkipList.Entries, InRange, Less, InRangeOnly, ToMap, Scan.Serves, Sorted;
      ghost var all := skl.Entries();
      var es := skl.Range(start, end);
      skl.EntriesSorted();
      src := Scan.Visible(RecordsOf(es), m);
      RangeServes(all, es, start, end, m);
    }
  }

  lemma RangeServes(all: seq<Entry<Record>>, es: seq<Entry<Record>>, start: Option<Key>, end: Option<Key>, m: nat)
    requires Sorted(all) && OwnKeys(all) && es == InRangeOnly(all, start, end)
    ensures Scan.Serves(Scan.Visible(RecordsOf(es), m), ToMap(all).Values, start, end, m)
  {
    hide InRange, Less, InRangeOnly, ToMap, Scan.Serves, Scan.Visible;
    RangeSorted(all, start, end);
    forall e ensures e in es <==> e in all && InRange(e.key, start, end) {
      RangeMember(all, start, end, e);
    }
    MapValues(all);
    var S, recs := ToMap(all).Values, RecordsOf(es);
    assert OwnKeys(es) by {
      forall i | 0 <= i < |es| ensures es[i].value.key == es[i].key {
        assert es[i] in all;
      }
    }
    assert Scan.KeysAscend(recs);
    forall r ensures r in recs <==> r in S && InRange(r.key, start, end) {
      if r in recs {
        var i :| 0 <= i < |recs| && recs[i] == r;
        assert es[i] in es;
        assert es[i] in all;
        var j :| 0 <= j < |all| && all[j] == es[i];
        assert RecordsOf(all)[j] == r;
      }
      if r in S && InRange(r.key, start, end) {
        assert r in RecordsOf(all);
        var j :| 0 <= j < |all| && RecordsOf(all)[j] == r;
        assert all[j] in all;
        assert all[j] in es;
        var i :| 0 <= i < |es| && es[i] == all[j];
        assert recs[i] == r;
      }
    }
    OnePerKey(all);
    Scan.MemtableServes(recs, S, start, end, m);
  }

  lemma OnePerKey(es: seq<Entry<Record>>)
    requires Sorted(es) && OwnKeys(es)
    ensures forall a, b :: a in ToSet(RecordsOf(es)) && b in ToSet(RecordsOf(es)) && a.key == b.key ==> a == b
  {
    forall a, b | a in RecordsOf(es) && b in RecordsOf(es) && a.key == b.key ensures a == b {
      var i :| 0 <= i < |es| && RecordsOf(es)[i] == a;
      var j :| 0 <= j < |es| && RecordsOf(es)[j] == b;
      LessIrreflexive(a.key);
    }
  }
}
