/** Range scans: a heap merge of one stream per memtable and table, resolving each key to its newest visible version. */
module Scan {
  import opened Bytes
  import opened Versions
  import opened Streams
  import M = Merge

  // ---------- What a source delivers ----------

  ghost predicate KeysAscend(src: seq<Record>) {
    forall i, j :: 0 <= i < j < |src| ==> Less(src[i].key, src[j].key)
  }

  /** `src` lists, by ascending key, the newest version with Seq <= m of every key of `S` in the range. */
  ghost predicate Serves(src: seq<Record>, S: set<Record>, start: Option<Key>, end: Option<Key>, m: nat) {
    && KeysAscend(src)
    && forall r :: r in src <==> InRange(r.key, start, end) && IsNewest(S, r.key, m, r)
  }

  lemma AscendIsOrdered(src: seq<Record>)
    requires KeysAscend(src)
    ensures Ordered(src)
  {
    forall i, j | 0 <= i < j < |src| ensures !Before(src[j], src[i]) {
      LessIrreflexive(src[i].key);
      if Less(src[j].key, src[i].key) {
        LessTransitive(src[i].key, src[j].key, src[i].key);
      }
    }
  }

  /** `memSliceSource`: a memtable's entries in the range, skipping those too new for the read. */
  function Visible(entries: seq<Record>, m: nat): seq<Record> {
    if entries == [] then []
    else (if entries[0].seqNo <= m then [entries[0]] else []) + Visible(entries[1..], m)
  }

  lemma {:induction false} VisibleKeepsOrder(entries: seq<Record>, m: nat)
    requires KeysAscend(entries)
    ensures KeysAscend(Visible(entries, m))
    ensures forall r :: r in Visible(entries, m) <==> r in entries && r.seqNo <= m
  {
    if entries != [] {
      var t := entries[1..];
      VisibleKeepsOrder(t, m);
      assert entries == [entries[0]] + t;
      forall r | r in t ensures Less(entries[0].key, r.key) {
        var i :| 0 <= i < |t| && t[i] == r;
        assert entries[i + 1] == r;
      }
    }
  }

  /** A memtable holds one version per key, so its visible entries serve the read. */
  lemma MemtableServes(entries: seq<Record>, S: set<Record>, start: Option<Key>, end: Option<Key>, m: nat)
    requires KeysAscend(entries)
    requires forall r :: r in entries <==> r in S && InRange(r.key, start, end)
    requires forall a, b :: a in S && b in S && a.key == b.key ==> a == b
    ensures Serves(Visible(entries, m), S, start, end, m)
  {
    VisibleKeepsOrder(entries, m);
  }

  // ---------- All sources together ----------

  ghost function Whole(parts: seq<set<Record>>): set<Record> {
    set i, r | 0 <= i < |parts| && r in parts[i] :: r
  }

  function Members(h: multiset<Record>): set<Record> {
    set r | r in h
  }

  /** The newest version of a key over all sources is the newest version of it in the whole store. */
  lemma SourcesServe(srcs: seq<seq<Record>>, parts: seq<set<Record>>, start: Option<Key>, end: Option<Key>, m: nat, r: Record)
    requires |srcs| == |parts| && forall i :: 0 <= i < |srcs| ==> Serves(srcs[i], parts[i], start, end, m)
    ensures IsTop(Members(M.Union(srcs)), r) <==> InRange(r.key, start, end) && IsNewest(Whole(parts), r.key, m, r)
  {
    hide M.Union, KeysAscend, InRange;
    var R, W := Members(M.Union(srcs)), Whole(parts);
    if IsTop(R, r) {
      var i := SourceOf(srcs, r);
      assert r in parts[i];
      forall q | q in W && q.key == r.key && q.seqNo <= m ensures q.seqNo <= r.seqNo {
        var j :| 0 <= j < |parts| && q in parts[j];
        NewestExists(parts[j], r.key, m, q);
        var t :| IsNewest(parts[j], r.key, m, t);
        assert t in srcs[j];
        InUnion(srcs, j, t);
      }
    }
    if InRange(r.key, start, end) && IsNewest(W, r.key, m, r) {
      var i :| 0 <= i < |parts| && r in parts[i];
      assert IsNewest(parts[i], r.key, m, r) by {
        forall q | q in parts[i] ensures q in W { }
      }
      InUnion(srcs, i, r);
      forall q | q in R && q.key == r.key ensures q.seqNo <= r.seqNo {
        var j := SourceOf(srcs, q);
        assert q in parts[j];
        assert q in W;
      }
    }
  }

  lemma {:induction false} InUnion(srcs: seq<seq<Record>>, i: nat, r: Record)
    requires i < |srcs| && r in srcs[i]
    ensures r in M.Union(srcs)
  {
    var n := |srcs| - 1;
    if i == n {
      assert r in multiset(srcs[n]);
    } else {
      InUnion(srcs[..n], i, r);
    }
  }

  lemma {:induction false} SourceOf(srcs: seq<seq<Record>>, r: Record) returns (i: nat)
    requires r in M.Union(srcs)
    ensures i < |srcs| && r in srcs[i]
  {
    var n := |srcs| - 1;
    if r in multiset(srcs[n]) {
      i := n;
    } else {
      i := SourceOf(srcs[..n], r);
    }
  }

  // ---------- The iterator ----------

  /** `k` is alive with value `v`: its newest remaining version is not a tombstone. */
  ghost predicate Live(R: set<Record>, k: Key, v: Bytes) {
    exists r :: IsTop(R, r) && r.key == k && r.typ != TYPE_TOMBSTONE && r.value == v
  }

  /** The records of `R` under keys after `k`. */
  ghost function After(R: set<Record>, k: Key): set<Record> {
    set r | r in R && Less(k, r.key)
  }

  class ScanIterator {
    var h: seq<Stream>

    ghost predicate Valid()
      reads this
    {
      SortedStreams(h) && OneVersion(Pending())
    }

    /** Every record not yet consumed. */
    ghost function Pending(): set<Record>
      reads this
    {
      Members(Remaining(h))
    }

    /** `pushSource` for every source in turn. */
    constructor (srcs: seq<seq<Record>>)
      requires forall i :: 0 <= i < |srcs| ==> Ordered(srcs[i])
      requires OneVersion(Members(M.Union(srcs)))
      ensures Valid() && Pending() == Members(M.Union(srcs))
    {
      var heap: seq<Stream> := [];
      M.NothingRemains();
      M.EmptySorted();
      for i := 0 to |srcs|
        invariant Remaining(heap) == M.Union(srcs[..i]) && SortedStreams(heap)
      {
        PushRemaining(heap, srcs[i]);
        heap := Push(heap, srcs[i]);
        assert srcs[..i + 1][..i] == srcs[..i];
      }
      assert srcs[..|srcs|] == srcs;
      h := heap;
    }

    /** Pop the least key with all its versions, keeping the one with the greatest Seq. */
    method PopBest() returns (best: Record)
      requires Valid() && h != []
      modifies this
      ensures Valid() && IsTop(old(Pending()), best)
      ensures Pending() == After(old(Pending()), best.key)
      ensures forall r :: r in old(Pending()) ==> !Less(r.key, best.key)
      ensures |Remaining(h)| < |old(Remaining(h))|
    {
      hide Remaining, SortedStreams, Advance, Less, Before, OneVersion, Valid, IsTop, After, Members;
      ghost var R0 := Pending();
      ghost var all := Remaining(h);
      assert SortedStreams(h) && OneVersion(R0) by { ValidParts(this); }
      var m := MinIndex(h);
      MinIsLeast(h, m);
      AdvanceRemaining(h, m);
      AdvanceSorted(h, m);
      best := h[m].rec;
      var key := best.key;
      ghost var popped := multiset{best};
      h := Advance(h, m);
      var more := true;
      while more
        invariant SortedStreams(h) && popped + Remaining(h) == all && best in popped && best.key == key
        invariant forall r :: r in popped ==> r.key == key && r.seqNo <= best.seqNo
        invariant forall q :: q in Remaining(h) ==> !Less(q.key, key)
        invariant !more ==> forall q :: q in Remaining(h) ==> Less(key, q.key)
        decreases |Remaining(h)|, more
      {
        if h == [] {
          more := false;
          M.NothingRemains();
        } else {
          m := MinIndex(h);
          MinIsLeast(h, m);
          M.FrontRemains(h, m);
          AdvanceRemaining(h, m);
          var dup := h[m].rec;
          if dup.key == key {
            AdvanceSorted(h, m);
            if dup.seqNo > best.seqNo {
              best := dup;
            }
            popped := popped + multiset{dup};
            h := Advance(h, m);
          } else {
            more := false;
            LessTotal(key, dup.key);
            forall q | q in Remaining(h) ensures Less(key, q.key) {
              LessTotal(dup.key, q.key);
              if Less(dup.key, q.key) {
                LessTransitive(key, dup.key, q.key);
              }
            }
          }
        }
      }
      PoppedAll(popped, Remaining(h), best);
      PartOneVersion(R0, Pending());
      FormValid(this);
      assert |all| == |popped| + |Remaining(h)|;
    }

    /** `Next`: the next live key in ascending order, or the end. */
    method Next() returns (key: Key, value: Bytes, ok: bool)
      requires Valid()
      modifies this
      ensures Valid()
      ensures ok ==> Live(old(Pending()), key, value) && Pending() == After(old(Pending()), key)
      ensures ok ==> forall k, v :: Live(old(Pending()), k, v) ==> !Less(k, key)
      ensures ok ==> |Remaining(h)| < |old(Remaining(h))|
      ensures !ok ==> forall k, v :: !Live(old(Pending()), k, v)
    {
      hide Remaining, Valid, Live, After, Less, Pending;
      ghost var R0, n0 := Pending(), |Remaining(h)|;
      ghost var dead: set<Key> := {};
      while h != []
        invariant Valid() && |Remaining(h)| <= n0
        invariant forall k, v :: Live(R0, k, v) <==> Live(Pending(), k, v)
        invariant SkippedOnly(R0, Pending(), dead)
        decreases |Remaining(h)|
      {
        ghost var R := Pending();
        assert OneVersion(R) by { ValidParts(this); }
        var best := PopBest();
        if best.typ != TYPE_TOMBSTONE {
          SameAfter(R0, R, dead, best);
          BestIsLive(R, best);
          return best.key, best.value, true;
        }
        DeadKey(R, best);
        SkipKey(R0, R, dead, best);
        dead := dead + {best.key};
      }
      assert Pending() == {} by { EmptyPending(this); }
      NothingLive();
      return [], [], false;
    }
  }

  // ---------- Small facts for the iterator ----------

  lemma ValidParts(it: ScanIterator)
    requires it.Valid()
    ensures SortedStreams(it.h) && OneVersion(it.Pending())
  {
  }

  lemma FormValid(it: ScanIterator)
    requires SortedStreams(it.h) && OneVersion(it.Pending())
    ensures it.Valid()
  {
  }

  lemma EmptyPending(it: ScanIterator)
    requires it.h == []
    ensures it.Pending() == {}
  {
  }

  lemma PoppedAll(popped: multiset<Record>, rest: multiset<Record>, best: Record)
    requires best in popped && forall r :: r in popped ==> r.key == best.key && r.seqNo <= best.seqNo
    requires forall q :: q in rest ==> Less(best.key, q.key)
    ensures Members(rest) == After(Members(popped + rest), best.key) <= Members(popped + rest)
    ensures IsTop(Members(popped + rest), best)
    ensures forall r :: r in Members(popped + rest) ==> !Less(r.key, best.key)
  {
    LessIrreflexive(best.key);
    forall q | q in rest ensures !Less(q.key, best.key) {
      if Less(q.key, best.key) {
        LessTransitive(best.key, q.key, best.key);
      }
    }
  }

  /** The records of `R0` missing from `R` are those of the dead keys, all before every key left. */
  ghost predicate SkippedOnly(R0: set<Record>, R: set<Record>, dead: set<Key>) {
    && R <= R0
    && (forall r :: r in R0 ==> r in R || r.key in dead)
    && (forall d, r :: d in dead && r in R ==> Less(d, r.key))
  }

  lemma SameAfter(R0: set<Record>, R: set<Record>, dead: set<Key>, best: Record)
    requires SkippedOnly(R0, R, dead) && best in R
    ensures After(R, best.key) == After(R0, best.key)
  {
    forall r | r in R0 && Less(best.key, r.key) ensures r in R {
      if r !in R {
        LessIrreflexive(r.key);
        LessTransitive(r.key, best.key, r.key);
      }
    }
  }

  lemma SkipKey(R0: set<Record>, R: set<Record>, dead: set<Key>, best: Record)
    requires SkippedOnly(R0, R, dead) && best in R
    requires forall r :: r in R ==> !Less(r.key, best.key)
    ensures SkippedOnly(R0, After(R, best.key), dead + {best.key})
  {
    forall r | r in R0 ensures r in After(R, best.key) || r.key in dead + {best.key} {
      LessTotal(r.key, best.key);
    }
  }

  lemma BestIsLive(R: set<Record>, best: Record)
    requires IsTop(R, best) && best.typ != TYPE_TOMBSTONE
    requires forall r :: r in R ==> !Less(r.key, best.key)
    ensures Live(R, best.key, best.value)
    ensures forall k, v :: Live(R, k, v) ==> !Less(k, best.key)
  {
  }

  lemma DeadKey(R: set<Record>, best: Record)
    requires IsTop(R, best) && best.typ == TYPE_TOMBSTONE && OneVersion(R)
    requires forall r :: r in R ==> !Less(r.key, best.key)
    ensures forall k, v :: Live(R, k, v) <==> Live(After(R, best.key), k, v)
  {
    var R' := After(R, best.key);
    forall r | r in R ensures r.key == best.key || r in R' {
      LessTotal(r.key, best.key);
    }
    LessIrreflexive(best.key);
    forall r ensures IsTop(R', r) <==> IsTop(R, r) && r.key != best.key {
    }
    forall r | IsTop(R, r) && r.key == best.key ensures r == best {
      assert r.seqNo == best.seqNo;
    }
  }

  lemma NothingLive()
    ensures forall k, v :: !Live({}, k, v)
  {
  }

  // ---------- Draining a scan ----------

  datatype KV = KV(key: Key, value: Bytes)

  ghost predicate Ascending(out: seq<KV>) {
    forall i, j :: 0 <= i < j < |out| ==> Less(out[i].key, out[j].key)
  }

  /** Every call of Next until the end: the live keys, once each, in order. */
  method Drain(it: ScanIterator) returns (out: seq<KV>)
    requires it.Valid()
    modifies it
    ensures Ascending(out)
    ensures forall k, v :: KV(k, v) in out <==> Live(old(it.Pending()), k, v)
  {
    hide Remaining, Live, After, Less, ScanIterator.Pending, ScanIterator.Valid, OneVersion;
    ghost var R0 := it.Pending();
    assert OneVersion(R0) by { ValidParts(it); }
    out := [];
    var key, value, ok := it.Next();
    while ok
      invariant it.Valid()
      invariant Ascending(out)
      invariant forall k, v :: KV(k, v) in out ==> Live(R0, k, v)
      invariant ok ==> Live(R0, key, value) && it.Pending() == After(R0, key)
      invariant ok ==> forall k, v :: Live(R0, k, v) ==> KV(k, v) in out || !Less(k, key)
      invariant ok ==> forall e :: e in out ==> Less(e.key, key)
      invariant !ok ==> forall k, v :: Live(R0, k, v) ==> KV(k, v) in out
      decreases ok, |Remaining(it.h)|
    {
      ghost var k0, v0, out0 := key, value, out;
      ghost var R := it.Pending();
      out := out + [KV(key, value)];
      key, value, ok := it.Next();
      if ok {
        LaterKey(R0, k0, key, value);
        assert it.Pending() == After(R0, key) by { AfterAgain(R0, k0, key); }
      }
      forall k, v | Live(R0, k, v) && KV(k, v) !in out ensures ok && !Less(k, key) {
        LessTotal(k0, k);
        if k == k0 {
          LiveUnique(R0, k, v, v0);
        }
        AfterLive(R0, k0, k, v);
      }
      forall e | ok && e in out ensures Less(e.key, key) {
        if e in out0 {
          LessTransitive(e.key, k0, key);
        }
      }
    }
  }

  lemma AfterAgain(R: set<Record>, a: Key, b: Key)
    requires Less(a, b)
    ensures After(After(R, a), b) == After(R, b)
  {
    forall r | r in R && Less(b, r.key) ensures Less(a, r.key) {
      LessTransitive(a, b, r.key);
    }
  }

  lemma AfterLive(R: set<Record>, a: Key, k: Key, v: Bytes)
    ensures Live(After(R, a), k, v) <==> Live(R, k, v) && Less(a, k)
  {
    forall r ensures IsTop(After(R, a), r) <==> IsTop(R, r) && Less(a, r.key) {
    }
  }

  lemma LaterKey(R: set<Record>, a: Key, k: Key, v: Bytes)
    requires Live(After(R, a), k, v)
    ensures Live(R, k, v) && Less(a, k)
  {
    AfterLive(R, a, k, v);
  }

  lemma LiveUnique(R: set<Record>, k: Key, v: Bytes, v': Bytes)
    requires OneVersion(R) && Live(R, k, v) && Live(R, k, v')
    ensures v == v'
  {
    var r :| IsTop(R, r) && r.key == k && r.typ != TYPE_TOMBSTONE && r.value == v;
    var q :| IsTop(R, q) && q.key == k && q.typ != TYPE_TOMBSTONE && q.value == v';
    assert r.seqNo == q.seqNo;
  }

  /**
   A scan agrees with Get: over sources that serve the parts of a store, it
   yields, by strictly ascending key, exactly the keys in the range that a
   read at the same bound finds, each with the value it finds.
   */
  method ScanAt(srcs: seq<seq<Record>>, ghost parts: seq<set<Record>>, start: Option<Key>, end: Option<Key>, m: nat)
      returns (out: seq<KV>)
    requires |srcs| == |parts| && forall i :: 0 <= i < |srcs| ==> Serves(srcs[i], parts[i], start, end, m)
    requires OneVersion(Whole(parts))
    ensures Ascending(out) && forall i, j :: 0 <= i < j < |out| ==> Precedes(out[i].key, out[j].key)
    ensures forall k, v :: KV(k, v) in out <==> InRange(k, start, end) && View(Whole(parts), k, m) == Some(v)
    ensures forall k, v :: KV(k, v) in out <==> Within(k, start, end) && View(Whole(parts), k, m) == Some(v)
  {
    hide KeysAscend, IsNewest, InRange, M.Union, View, Live, Whole, Ordered, OneVersion, ScanIterator.Valid, Precedes, Less;
    forall i | 0 <= i < |srcs| ensures Ordered(srcs[i]) {
      AscendIsOrdered(srcs[i]);
    }
    SourcesOneVersion(srcs, parts, start, end, m);
    var it := new ScanIterator(srcs);
    out := Drain(it);
    forall k, v ensures Live(Members(M.Union(srcs)), k, v) <==> InRange(k, start, end) && View(Whole(parts), k, m) == Some(v) {
      LiveIsView(srcs, parts, start, end, m, k, v);
    }
    forall k ensures InRange(k, start, end) <==> Within(k, start, end) {
      InRangeExact(k, start, end);
    }
    forall i, j | 0 <= i < j < |out| ensures Precedes(out[i].key, out[j].key) {
      LessExact(out[i].key, out[j].key);
    }
  }

  lemma SourcesOneVersion(srcs: seq<seq<Record>>, parts: seq<set<Record>>, start: Option<Key>, end: Option<Key>, m: nat)
    requires |srcs| == |parts| && forall i :: 0 <= i < |srcs| ==> Serves(srcs[i], parts[i], start, end, m)
    requires OneVersion(Whole(parts))
    ensures OneVersion(Members(M.Union(srcs)))
  {
    hide KeysAscend, InRange, M.Union, OneVersion;
    forall r | r in Members(M.Union(srcs)) ensures r in Whole(parts) {
      var i := SourceOf(srcs, r);
      assert r in parts[i];
    }
    PartOneVersion(Whole(parts), Members(M.Union(srcs)));
  }

  lemma LiveIsView(srcs: seq<seq<Record>>, parts: seq<set<Record>>, start: Option<Key>, end: Option<Key>, m: nat, k: Key, v: Bytes)
    requires |srcs| == |parts| && forall i :: 0 <= i < |srcs| ==> Serves(srcs[i], parts[i], start, end, m)
    requires OneVersion(Whole(parts))
    ensures Live(Members(M.Union(srcs)), k, v) <==> InRange(k, start, end) && View(Whole(parts), k, m) == Some(v)
  {
    hide Serves, IsTop, IsNewest, InRange, M.Union, Whole, OneVersion;
    var R, W := Members(M.Union(srcs)), Whole(parts);
    if Live(R, k, v) {
      var r :| IsTop(R, r) && r.key == k && r.typ != TYPE_TOMBSTONE && r.value == v;
      SourcesServe(srcs, parts, start, end, m, r);
      NewestIs(W, k, m, r);
    }
    if InRange(k, start, end) && View(W, k, m) == Some(v) {
      var r := Newest(W, k, m).value;
      assert IsNewest(W, k, m, r) && r.key == k by { NewestFound(W, k, m); }
      SourcesServe(srcs, parts, start, end, m, r);
    }
  }

  lemma NewestFound(S: set<Record>, k: Key, m: nat)
    requires Newest(S, k, m).Some?
    ensures IsNewest(S, k, m, Newest(S, k, m).value) && Newest(S, k, m).value.key == k
  {
  }
}
