/** The k-way merge of compaction: heap of table iterators, key groups, retention walk. */
module Merge {
  import opened Bytes
  import opened Versions
  import opened Streams
  import opened Retention

  const ERR_NO_TABLES := "sstable: cannot merge zero tables"
  const ERR_EMPTY_MERGE := "sstable: merge produced no live records"

  /** Every record of every input, with multiplicity. */
  function Union(inputs: seq<seq<Record>>): multiset<Record> {
    if inputs == [] then multiset{} else Union(inputs[..|inputs| - 1]) + multiset(inputs[|inputs| - 1])
  }

  lemma {:induction false} UnionMembers(lists: seq<seq<Record>>, r: Record)
    ensures r in Union(lists) <==> exists i :: 0 <= i < |lists| && r in lists[i]
  {
    if lists != [] {
      var n := |lists| - 1;
      UnionMembers(lists[..n], r);
      if i :| 0 <= i < |lists[..n]| && r in lists[..n][i] {
        assert r in lists[i];
      }
      if i :| 0 <= i < |lists| && r in lists[i] {
        if i < n {
          assert r in lists[..n][i];
        }
      }
    }
  }

  // ---------- What a merge writes out, from its inputs ----------

  ghost predicate InSome(inputs: seq<seq<Record>>, r: Record) {
    exists i :: 0 <= i < |inputs| && r in inputs[i]
  }

  ghost predicate OneRecordPerVersion(inputs: seq<seq<Record>>) {
    forall r, q :: InSome(inputs, r) && InSome(inputs, q) && r.key == q.key && r.seqNo == q.seqNo ==> r == q
  }

  /** The newest input version of `k` is a tombstone that every reader may see. */
  ghost predicate DeletedForAll(inputs: seq<seq<Record>>, k: Key, minKeep: nat) {
    exists t :: InSome(inputs, t) && t.key == k && t.typ == TYPE_TOMBSTONE && t.seqNo <= minKeep
                && forall q :: InSome(inputs, q) && q.key == k ==> q.seqNo <= t.seqNo
  }

  /** A newer input version of the same key is itself visible to every reader. */
  ghost predicate Overtaken(inputs: seq<seq<Record>>, r: Record, minKeep: nat) {
    exists q :: InSome(inputs, q) && q.key == r.key && r.seqNo < q.seqNo <= minKeep
  }

  ghost predicate HasKey(out: seq<Record>, k: Key) {
    exists q :: q in out && q.key == k
  }

  lemma {:induction false} TopOfKey(l: seq<Record>, r: Record) returns (t: Record)
    requires r in l
    ensures t in l && t.key == r.key && forall q :: q in l && q.key == r.key ==> q.seqNo <= t.seqNo
  {
    var n := |l| - 1;
    assert l == l[..n] + [l[n]];
    if q :| q in l[..n] && q.key == r.key {
      t := TopOfKey(l[..n], q);
      if l[n].key == r.key && l[n].seqNo > t.seqNo {
        t := l[n];
      }
    } else {
      t := r;
    }
  }

  lemma UnionIsInSome(inputs: seq<seq<Record>>, r: Record)
    ensures r in Union(inputs) <==> InSome(inputs, r)
  {
    hide Union;
    UnionMembers(inputs, r);
  }

  // ---------- One key's versions ----------

  function Insert(r: Record, g: seq<Record>): seq<Record> {
    if g == [] then [r]
    else if r.seqNo >= g[0].seqNo then [r] + g
    else [g[0]] + Insert(r, g[1..])
  }

  /** `sort.Slice` by Seq descending. */
  function NewestFirst(g: seq<Record>): seq<Record> {
    if g == [] then [] else Insert(g[0], NewestFirst(g[1..]))
  }

  lemma {:induction false} InsertMembers(r: Record, g: seq<Record>)
    ensures multiset(Insert(r, g)) == multiset{r} + multiset(g)
  {
    if g != [] && r.seqNo < g[0].seqNo {
      var t := Insert(r, g[1..]);
      InsertMembers(r, g[1..]);
      assert multiset([g[0]] + t) == multiset{g[0]} + multiset(t);
      assert g == [g[0]] + g[1..];
      assert multiset(g) == multiset{g[0]} + multiset(g[1..]);
    } else {
      assert multiset([r] + g) == multiset{r} + multiset(g);
    }
  }

  lemma DescendingFront(r: Record, t: seq<Record>)
    requires Descending(t) && forall q :: q in t ==> r.seqNo >= q.seqNo
    ensures Descending([r] + t)
  {
  }

  lemma {:induction false} InsertSorts(r: Record, g: seq<Record>)
    requires Descending(g)
    ensures Descending(Insert(r, g))
  {
    if g == [] {
    } else if r.seqNo >= g[0].seqNo {
      DescendingFront(r, g);
    } else {
      InsertSorts(r, g[1..]);
      InsertMembers(r, g[1..]);
      var t := Insert(r, g[1..]);
      forall q | q in t ensures g[0].seqNo >= q.seqNo {
        assert q in multiset(t);
        assert q == r || q in g[1..];
      }
      DescendingFront(g[0], t);
    }
  }

  lemma {:induction false} NewestFirstSorts(g: seq<Record>)
    ensures Descending(NewestFirst(g))
    ensures multiset(NewestFirst(g)) == multiset(g)
  {
    if g != [] {
      NewestFirstSorts(g[1..]);
      InsertSorts(g[0], NewestFirst(g[1..]));
      InsertMembers(g[0], NewestFirst(g[1..]));
      assert g == [g[0]] + g[1..];
    }
  }

  /** The walk over one key's versions, newest to oldest, with its early exits. */
  method WalkGroup(group: seq<Record>, minKeep: nat, bottom: bool) returns (kept: seq<Record>)
    ensures kept == Walk(group, minKeep, bottom)
  {
    hide WalkFrom;
    kept := [];
    var i := 0;
    assert group[0..] == group;
    while i < |group|
      invariant i <= |group|
      invariant i > 0 ==> !DropsGroup(group, minKeep, bottom)
      invariant kept + WalkFrom(group[i..], minKeep) == WalkFrom(group, minKeep)
    {
      var rec := group[i];
      if i == 0 && bottom && rec.typ == TYPE_TOMBSTONE && rec.seqNo <= minKeep {
        return [];
      }
      WalkStep(group, i, minKeep);
      kept := kept + [rec];
      if rec.seqNo <= minKeep {
        return;
      }
      i := i + 1;
    }
    assert group[i..] == [];
    assert WalkFrom([], minKeep) == [] by { EmptyWalk(minKeep); }
  }

  lemma WalkStep(group: seq<Record>, i: nat, minKeep: nat)
    requires i < |group|
    ensures WalkFrom(group[i..], minKeep) == [group[i]] + if group[i].seqNo <= minKeep then [] else WalkFrom(group[i + 1..], minKeep)
  {
    assert group[i..][1..] == group[i + 1..];
  }

  lemma EmptyWalk(minKeep: nat)
    ensures WalkFrom([], minKeep) == []
  {
  }

  lemma GroupLenOfOneKey(g: seq<Record>)
    requires g != [] && OneKey(g)
    ensures GroupLen(g) == |g|
  {
  }

  lemma GroupLenAppend(l: seq<Record>, g: seq<Record>)
    requires l != [] && g != []
    requires forall r :: r in l ==> r.key != g[0].key
    ensures GroupLen(l + g) == GroupLen(l)
  {
    hide GroupLen;
    var n, w := GroupLen(l), l + g;
    assert forall i :: 0 <= i < |l| ==> w[i] == l[i];
    assert w[|l|] == g[0] && l[0] in l;
  }

  lemma RetainStep(l: seq<Record>, minKeep: nat, bottom: bool)
    requires l != []
    ensures var n := GroupLen(l);
            Retain(l, minKeep, bottom) == Walk(l[..n], minKeep, bottom) + Retain(l[n..], minKeep, bottom)
  {
    hide Walk, GroupLen;
  }

  lemma {:induction false} RetainAppend(l: seq<Record>, g: seq<Record>, minKeep: nat, bottom: bool)
    requires g != [] && OneKey(g)
    requires forall r :: r in l ==> r.key != g[0].key
    ensures Retain(l + g, minKeep, bottom) == Retain(l, minKeep, bottom) + Walk(g, minKeep, bottom)
  {
    hide Walk, GroupLen, Retain;
    var w := l + g;
    RetainStep(w, minKeep, bottom);
    EmptyRetain(minKeep, bottom);
    if l == [] {
      GroupLenOfOneKey(g);
      assert w == g;
      assert w[..|g|] == g && w[|g|..] == [];
    } else {
      var n := GroupLen(l);
      GroupLenAppend(l, g);
      RetainStep(l, minKeep, bottom);
      assert w[..n] == l[..n] && w[n..] == l[n..] + g;
      RetainAppend(l[n..], g, minKeep, bottom);
    }
  }

  lemma OrderedAppend(l: seq<Record>, g: seq<Record>)
    requires Ordered(l) && OneKey(g) && Descending(g)
    requires forall r, q :: r in l && q in g ==> Less(r.key, q.key)
    ensures Ordered(l + g)
  {
    var w := l + g;
    forall i, j | 0 <= i < j < |w| ensures !Before(w[j], w[i]) {
      if j < |l| {
        assert w[i] == l[i] && w[j] == l[j];
      } else if i >= |l| {
        LessIrreflexive(w[i].key);
      } else {
        assert w[i] in l && w[j] in g;
        LessIrreflexive(w[i].key);
        if Less(w[j].key, w[i].key) {
          LessTransitive(w[i].key, w[j].key, w[i].key);
        }
      }
    }
  }

  /** Pop every version of the least key, refilling each source as it is consumed. */
  method PopGroup(h0: seq<Stream>) returns (group: seq<Record>, h: seq<Stream>)
    requires h0 != [] && SortedStreams(h0)
    ensures group != [] && OneKey(group) && SortedStreams(h)
    ensures multiset(group) + Remaining(h) == Remaining(h0)
    ensures forall q :: q in Remaining(h) ==> Less(group[0].key, q.key)
  {
    hide Remaining, SortedStreams, Advance, Less, Before;
    var m := MinIndex(h0);
    MinIsLeast(h0, m);
    AdvanceRemaining(h0, m);
    AdvanceSorted(h0, m);
    var key := h0[m].rec.key;
    group, h := [h0[m].rec], Advance(h0, m);
    var more := true;
    while more
      invariant group != [] && group[0].key == key && OneKey(group) && SortedStreams(h)
      invariant multiset(group) + Remaining(h) == Remaining(h0)
      invariant forall q :: q in Remaining(h) ==> !Less(q.key, key)
      invariant !more ==> forall q :: q in Remaining(h) ==> Less(key, q.key)
      decreases |Remaining(h)|, more
    {
      if h == [] {
        more := false;
        NothingRemains();
      } else {
        m := MinIndex(h);
        MinIsLeast(h, m);
        FrontRemains(h, m);
        AdvanceRemaining(h, m);
        if h[m].rec.key == key {
          AdvanceSorted(h, m);
          group, h := group + [h[m].rec], Advance(h, m);
        } else {
          more := false;
          forall q | q in Remaining(h) ensures Less(key, q.key) {
            LessTotal(key, h[m].rec.key);
            LessTotal(h[m].rec.key, q.key);
            if Less(h[m].rec.key, q.key) {
              LessTransitive(key, h[m].rec.key, q.key);
            }
          }
        }
      }
    }
  }

  lemma NothingRemains()
    ensures Remaining([]) == multiset{}
  {
  }

  lemma FrontRemains(h: seq<Stream>, m: nat)
    requires m < |h|
    ensures h[m].rec in Remaining(h)
  {
    assert h[m].rec in Records(h[m]);
    RemainingMember(h, h[m].rec);
  }

  /** A version is written exactly if no newer one serves every reader and its key is not deleted for all at the bottom. */
  ghost predicate WritesExactly(inputs: seq<seq<Record>>, minKeep: nat, bottom: bool, out: seq<Record>) {
    forall r :: r in out <==>
      InSome(inputs, r) && !Overtaken(inputs, r, minKeep) && !(bottom && DeletedForAll(inputs, r.key, minKeep))
  }

  /** A key vanishes exactly if it is deleted for all at the bottom. */
  ghost predicate DropsExactly(inputs: seq<seq<Record>>, minKeep: nat, bottom: bool, out: seq<Record>) {
    forall r :: InSome(inputs, r) ==> (!HasKey(out, r.key) <==> bottom && DeletedForAll(inputs, r.key, minKeep))
  }

  /** Every key is deleted for all, at the bottom. */
  ghost predicate AllDeleted(inputs: seq<seq<Record>>, minKeep: nat, bottom: bool) {
    forall r :: InSome(inputs, r) ==> bottom && DeletedForAll(inputs, r.key, minKeep)
  }

  /** What was written, nothing for an error. */
  function Written(out: Result<seq<Record>>): seq<Record> {
    if out.Ok? then out.value else []
  }

  /** What is retained, in terms of the inputs alone. */
  lemma RetainedExact(inputs: seq<seq<Record>>, all: seq<Record>, minKeep: nat, bottom: bool)
    requires multiset(all) == Union(inputs) && Ordered(all) && OneRecordPerVersion(inputs)
    ensures WritesExactly(inputs, minKeep, bottom, Retain(all, minKeep, bottom))
    ensures DropsExactly(inputs, minKeep, bottom, Retain(all, minKeep, bottom))
  {
    hide Union, Retain, Ordered, InSome;
    var S, out := ToSet(all), Retain(all, minKeep, bottom);
    forall r ensures r in S <==> InSome(inputs, r) {
      assert r in all <==> r in multiset(all);
      UnionIsInSome(inputs, r);
    }
    RetainIsKept(all, minKeep, bottom);
    forall r ensures r in out <==>
                     InSome(inputs, r) && !Overtaken(inputs, r, minKeep) && !(bottom && DeletedForAll(inputs, r.key, minKeep))
    {
      assert r in out <==> r in ToSet(out);
      assert Superseded(S, r, minKeep) <==> Overtaken(inputs, r, minKeep);
      assert Dropped(S, r.key, minKeep, bottom) <==> bottom && DeletedForAll(inputs, r.key, minKeep);
    }
    forall r | InSome(inputs, r) ensures !HasKey(out, r.key) <==> bottom && DeletedForAll(inputs, r.key, minKeep) {
      assert r in all;
      var t := TopOfKey(all, r);
      assert t in S && !Overtaken(inputs, t, minKeep);
    }
  }

  /** The first record of every table goes on the heap. */
  method FillHeap(inputs: seq<seq<Record>>) returns (h: seq<Stream>)
    requires forall i :: 0 <= i < |inputs| ==> Ordered(inputs[i])
    ensures Remaining(h) == Union(inputs) && SortedStreams(h)
  {
    hide Remaining, SortedStreams, Ordered;
    h := [];
    NothingRemains();
    EmptySorted();
    for i := 0 to |inputs|
      invariant Remaining(h) == Union(inputs[..i]) && SortedStreams(h)
    {
      PushRemaining(h, inputs[i]);
      h := Push(h, inputs[i]);
      assert inputs[..i + 1][..i] == inputs[..i];
    }
    assert inputs[..|inputs|] == inputs;
  }

  /** The heap loop: every input record exactly once in (key ascending, Seq descending) order, group by group through the walk. */
  method MergeRecords(inputs: seq<seq<Record>>, minKeep: nat, bottom: bool) returns (merged: seq<Record>, ghost all: seq<Record>)
    requires forall i :: 0 <= i < |inputs| ==> Ordered(inputs[i])
    ensures multiset(all) == Union(inputs) && Ordered(all)
    ensures merged == Retain(all, minKeep, bottom)
  {
    hide Remaining, SortedStreams, Retain, Walk, Ordered, OneKey, Descending, Less, NewestFirst, Union;
    all := [];
    assert Ordered(all) by { EmptyOrdered(); }
    var h := FillHeap(inputs);
    merged := [];
    assert Retain(all, minKeep, bottom) == [] by { EmptyRetain(minKeep, bottom); }
    while h != []
      invariant SortedStreams(h) && Ordered(all)
      invariant multiset(all) + Remaining(h) == Union(inputs)
      invariant forall r, q :: r in all && q in Remaining(h) ==> Less(r.key, q.key)
      invariant merged == Retain(all, minKeep, bottom)
      decreases |Remaining(h)|
    {
      ghost var h0 := h;
      var group;
      group, h := PopGroup(h);
      NewestFirstSorts(group);
      var sorted := NewestFirst(group);
      SameKeys(group, sorted);
      GroupFollows(all, sorted, Remaining(h0));
      var kept := WalkGroup(sorted, minKeep, bottom);
      RetainAppend(all, sorted, minKeep, bottom);
      OrderedAppend(all, sorted);
      merged := merged + kept;
      ExtendOrder(all, sorted, Remaining(h0), Remaining(h));
      all := all + sorted;
    }
    NothingRemains();
  }

  /**
   The merge, against its specification: `all` is every input record exactly
   once in (key ascending, Seq descending) order, and what is written out is
   the retention rule applied to it: of the inputs, exactly the versions some
   reader needs, with a key gone exactly if it is deleted for all at the bottom,
   and the empty-merge error exactly if every key is.
   */
  method Merge(inputs: seq<seq<Record>>, minKeep: nat, bottom: bool) returns (out: Result<seq<Record>>, ghost all: seq<Record>)
    requires forall i :: 0 <= i < |inputs| ==> Ordered(inputs[i])
    ensures multiset(all) == Union(inputs) && Ordered(all)
    ensures inputs == [] ==> out == Err(ERR_NO_TABLES)
    ensures inputs != [] ==>
              out == if Retain(all, minKeep, bottom) == [] then Err(ERR_EMPTY_MERGE) else Ok(Retain(all, minKeep, bottom))
    ensures OneRecordPerVersion(inputs) ==>
              && WritesExactly(inputs, minKeep, bottom, Written(out))
              && DropsExactly(inputs, minKeep, bottom, Written(out))
              && (inputs != [] ==> (out == Err(ERR_EMPTY_MERGE) <==> AllDeleted(inputs, minKeep, bottom)))
  {
    hide WritesExactly, DropsExactly, AllDeleted, OneRecordPerVersion, Union, Retain, Ordered;
    if inputs == [] {
      all := [];
      assert Ordered(all) by { EmptyOrdered(); }
      assert multiset(all) == Union(inputs) by { UnionOfNone(); }
      MergedNone(minKeep, bottom);
      return Err(ERR_NO_TABLES), all;
    }
    var merged;
    merged, all := MergeRecords(inputs, minKeep, bottom);
    out := if merged == [] then Err(ERR_EMPTY_MERGE) else Ok(merged);
    if OneRecordPerVersion(inputs) {
      RetainedExact(inputs, all, minKeep, bottom);
      EmptyExactly(inputs, merged, minKeep, bottom);
    }
  }

  lemma MergedNone(minKeep: nat, bottom: bool)
    ensures WritesExactly([], minKeep, bottom, []) && DropsExactly([], minKeep, bottom, [])
  {
    NothingIn();
  }

  lemma EmptyExactly(inputs: seq<seq<Record>>, out: seq<Record>, minKeep: nat, bottom: bool)
    requires WritesExactly(inputs, minKeep, bottom, out) && DropsExactly(inputs, minKeep, bottom, out)
    ensures out == [] <==> AllDeleted(inputs, minKeep, bottom)
  {
    hide Overtaken, DeletedForAll, InSome;
    if out != [] {
      assert out[0] in out;
    }
  }

  lemma UnionOfNone()
    ensures Union([]) == multiset{}
  {
  }

  lemma NothingIn()
    ensures forall r :: !InSome([], r)
  {
  }

  lemma EmptyOrdered()
    ensures Ordered([])
  {
  }

  lemma EmptySorted()
    ensures SortedStreams([])
  {
  }

  lemma EmptyRetain(minKeep: nat, bottom: bool)
    ensures Retain([], minKeep, bottom) == []
  {
  }

  lemma SameKeys(group: seq<Record>, sorted: seq<Record>)
    requires group != [] && OneKey(group) && multiset(sorted) == multiset(group)
    ensures sorted != [] && OneKey(sorted) && sorted[0].key == group[0].key
  {
    assert group[0] in multiset(sorted);
    forall i | 0 <= i < |sorted| ensures sorted[i].key == group[0].key {
      assert sorted[i] in multiset(group);
    }
  }

  lemma GroupFollows(all: seq<Record>, sorted: seq<Record>, R: multiset<Record>)
    requires sorted != [] && multiset(sorted) <= R
    requires forall r, q :: r in all && q in R ==> Less(r.key, q.key)
    ensures forall r, q :: r in all && q in sorted ==> Less(r.key, q.key)
    ensures forall r :: r in all ==> r.key != sorted[0].key
  {
    forall r, q | r in all && q in sorted ensures Less(r.key, q.key) {
      assert q in multiset(sorted);
      assert q in R;
    }
    forall r | r in all ensures r.key != sorted[0].key {
      LessIrreflexive(r.key);
      assert sorted[0] in sorted;
    }
  }

  lemma ExtendOrder(all: seq<Record>, sorted: seq<Record>, R: multiset<Record>, R': multiset<Record>)
    requires R' <= R && sorted != [] && OneKey(sorted)
    requires forall r, q :: r in all && q in R ==> Less(r.key, q.key)
    requires forall q :: q in R' ==> Less(sorted[0].key, q.key)
    ensures forall r, q :: r in all + sorted && q in R' ==> Less(r.key, q.key)
  {
    forall r, q | r in all + sorted && q in R' ensures Less(r.key, q.key) {
      assert q in R;
    }
  }
}
