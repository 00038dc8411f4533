/** The simple form a skip list refines: a key-sorted list of entries. */
module SortedMaps {
  import opened Bytes

  datatype Entry<V> = Entry(key: Key, value: V)

  ghost predicate Sorted<V>(es: seq<Entry<V>>) {
    forall i, j :: 0 <= i < j < |es| ==> Less(es[i].key, es[j].key)
  }

  function PutEntry<V>(es: seq<Entry<V>>, k: Key, v: V): seq<Entry<V>> {
    if es == [] then [Entry(k, v)]
    else if es[0].key == k then [Entry(k, v)] + es[1..]
    else if Less(k, es[0].key) then [Entry(k, v)] + es
    else [es[0]] + PutEntry(es[1..], k, v)
  }

  function Lookup<V>(es: seq<Entry<V>>, k: Key): Option<V> {
    if es == [] then None
    else if es[0].key == k then Some(es[0].value)
    else Lookup(es[1..], k)
  }

  /** The entries with keys in [start, end). */
  function InRangeOnly<V>(es: seq<Entry<V>>, start: Option<Key>, end: Option<Key>): seq<Entry<V>> {
    if es == [] then []
    else (if InRange(es[0].key, start, end) then [es[0]] else []) + InRangeOnly(es[1..], start, end)
  }

  /** The map the list stands for. */
  function ToMap<V>(es: seq<Entry<V>>): map<Key, V> {
    if es == [] then map[] else ToMap(es[1..])[es[0].key := es[0].value]
  }

  lemma {:induction false} LookupIsMap<V>(es: seq<Entry<V>>, k: Key)
    ensures Lookup(es, k) == if k in ToMap(es) then Some(ToMap(es)[k]) else None
  {
    if es != [] {
      LookupIsMap(es[1..], k);
    }
  }

  /** Put updates the map at the key and nowhere else. */
  lemma {:induction false} PutUpdatesMap<V>(es: seq<Entry<V>>, k: Key, v: V)
    ensures ToMap(PutEntry(es, k, v)) == ToMap(es)[k := v]
  {
    if es != [] && es[0].key != k && !Less(k, es[0].key) {
      PutUpdatesMap(es[1..], k, v);
      assert PutEntry(es, k, v)[1..] == PutEntry(es[1..], k, v);
    } else if es != [] && es[0].key != k {
      assert PutEntry(es, k, v)[1..] == es;
    } else if es != [] {
      assert PutEntry(es, k, v)[1..] == es[1..];
    }
  }

  lemma SortedTail<V>(es: seq<Entry<V>>)
    requires Sorted(es) && es != []
    ensures Sorted(es[1..])
    ensures forall e :: e in es[1..] ==> Less(es[0].key, e.key)
  {
    forall i, j | 0 <= i < j < |es[1..]| ensures Less(es[1..][i].key, es[1..][j].key) {
      assert es[1..][i] == es[i + 1] && es[1..][j] == es[j + 1];
    }
    forall e | e in es[1..] ensures Less(es[0].key, e.key) {
      var i :| 0 <= i < |es[1..]| && es[1..][i] == e;
      assert es[i + 1] == e;
    }
  }

  lemma SortedFront<V>(e: Entry<V>, es: seq<Entry<V>>)
    requires Sorted(es) && forall f :: f in es ==> Less(e.key, f.key)
    ensures Sorted([e] + es)
  {
  }

  /** Where Put lands: at the first position whose key is not smaller, replacing an equal key. */
  lemma {:induction false} PutLands<V>(es: seq<Entry<V>>, k: Key, v: V, p: nat)
    requires Sorted(es) && p <= |es|
    requires forall i :: 0 <= i < p ==> Less(es[i].key, k)
    requires p < |es| ==> !Less(es[p].key, k)
    ensures PutEntry(es, k, v) ==
            if p < |es| && es[p].key == k then es[p := Entry(k, v)] else es[..p] + [Entry(k, v)] + es[p..]
  {
    if p == 0 {
      if es != [] {
        LessTotal(es[0].key, k);
      }
    } else {
      LessIrreflexive(k);
      if Less(k, es[0].key) {
        LessTransitive(k, es[0].key, k);
      }
      SortedTail(es);
      forall i | 0 <= i < p - 1 ensures Less(es[1..][i].key, k) {
        assert es[1..][i] == es[i + 1];
      }
      PutLands(es[1..], k, v, p - 1);
      InsertOrReplace(es, Entry(k, v), p);
    }
  }

  lemma InsertOrReplace<V>(es: seq<Entry<V>>, e: Entry<V>, p: nat)
    requires 0 < p <= |es|
    ensures [es[0]] + (es[1..][..p - 1] + [e] + es[1..][p - 1..]) == es[..p] + [e] + es[p..]
    ensures p < |es| ==> [es[0]] + es[1..][p - 1 := e] == es[p := e]
  {
    assert es[..p] == [es[0]] + es[1..][..p - 1];
    assert es[1..][p - 1..] == es[p..];
  }

  /** A lookup stops at the same position. */
  lemma {:induction false} LookupLands<V>(es: seq<Entry<V>>, k: Key, p: nat)
    requires Sorted(es) && p <= |es|
    requires forall i :: 0 <= i < p ==> Less(es[i].key, k)
    requires p < |es| ==> !Less(es[p].key, k)
    ensures Lookup(es, k) == if p < |es| && es[p].key == k then Some(es[p].value) else None
  {
    if es != [] {
      SortedTail(es);
      if p == 0 {
        if es[0].key != k {
          LessTotal(es[0].key, k);
          NoLookupAbove(es, k);
        }
      } else {
        LessIrreflexive(k);
        forall i | 0 <= i < p - 1 ensures Less(es[1..][i].key, k) {
          assert es[1..][i] == es[i + 1];
        }
        LookupLands(es[1..], k, p - 1);
      }
    }
  }

  lemma {:induction false} NoLookupAbove<V>(es: seq<Entry<V>>, k: Key)
    requires Sorted(es) && (es != [] ==> Less(k, es[0].key))
    ensures Lookup(es, k) == None
  {
    if es != [] {
      LessIrreflexive(k);
      SortedTail(es);
      if |es| > 1 {
        assert es[1] in es[1..];
        LessTransitive(k, es[0].key, es[1].key);
      }
      NoLookupAbove(es[1..], k);
    }
  }

  lemma {:induction false} RangeMember<V>(es: seq<Entry<V>>, start: Option<Key>, end: Option<Key>, e: Entry<V>)
    ensures e in InRangeOnly(es, start, end) <==> e in es && InRange(e.key, start, end)
  {
    hide InRange;
    if es != [] {
      RangeMember(es[1..], start, end, e);
      assert es == [es[0]] + es[1..];
    }
  }

  lemma {:induction false} RangeSorted<V>(es: seq<Entry<V>>, start: Option<Key>, end: Option<Key>)
    requires Sorted(es)
    ensures Sorted(InRangeOnly(es, start, end))
  {
    hide Less, InRange;
    if es != [] {
      SortedTail(es);
      RangeSorted(es[1..], start, end);
      var t := InRangeOnly(es[1..], start, end);
      forall f | f in t ensures Less(es[0].key, f.key) {
        RangeMember(es[1..], start, end, f);
      }
      SortedFront(es[0], t);
    }
  }

  lemma {:induction false} RangeOfConcat<V>(a: seq<Entry<V>>, b: seq<Entry<V>>, start: Option<Key>, end: Option<Key>)
    ensures InRangeOnly(a + b, start, end) == InRangeOnly(a, start, end) + InRangeOnly(b, start, end)
  {
    hide InRange;
    if a == [] {
      assert a + b == b;
    } else {
      assert (a + b)[1..] == a[1..] + b;
      RangeOfConcat(a[1..], b, start, end);
    }
  }

  lemma {:induction false} RangeAll<V>(es: seq<Entry<V>>, start: Option<Key>, end: Option<Key>, inside: bool)
    requires forall e :: e in es ==> InRange(e.key, start, end) == inside
    ensures InRangeOnly(es, start, end) == if inside then es else []
  {
    hide InRange;
    if es != [] {
      RangeAll(es[1..], start, end, inside);
      assert es == [es[0]] + es[1..];
    }
  }
}
