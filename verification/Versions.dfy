/**
 Versioned records, what a read sees of a set of them, and which of them a
 compaction may forget.
 */
module Versions {
  import opened Bytes

  const TYPE_VALUE: byte := 1
  const TYPE_TOMBSTONE: byte := 2

  /** The bound of an ordinary read, `^uint64(0)`. */
  const UNBOUNDED: nat := UINT64 - 1

  datatype Record = Record(key: Key, value: Bytes, typ: byte, seqNo: nat)

  /** The order of the merge heap, the scan heap and every table file: key ascending, then newest first. */
  predicate Before(a: Record, b: Record) {
    Less(a.key, b.key) || (a.key == b.key && a.seqNo > b.seqNo)
  }

  lemma BeforeTransitive(a: Record, b: Record, c: Record)
    ensures Before(a, b) && Before(b, c) ==> Before(a, c)
  {
    if Less(a.key, b.key) && Less(b.key, c.key) {
      LessTransitive(a.key, b.key, c.key);
    }
  }

  ghost predicate Ordered(rs: seq<Record>) {
    forall i, j :: 0 <= i < j < |rs| ==> !Before(rs[j], rs[i])
  }

  ghost predicate StrictlyOrdered(rs: seq<Record>) {
    forall i, j :: 0 <= i < j < |rs| ==> Before(rs[i], rs[j])
  }

  function ToSet<T>(rs: seq<T>): set<T> {
    set r | r in rs
  }

  /** A (key, Seq) pair names one write. */
  ghost predicate OneVersion(S: set<Record>) {
    forall a, b :: a in S && b in S && a.key == b.key && a.seqNo == b.seqNo ==> a == b
  }

  lemma PartOneVersion(S: set<Record>, T: set<Record>)
    requires OneVersion(S) && T <= S
    ensures OneVersion(T)
  {
  }

  // ---------- Reading ----------

  /** `r` is a newest version of `k` in `S` among those with Seq <= m. */
  ghost predicate IsNewest(S: set<Record>, k: Key, m: nat, r: Record) {
    && r in S && r.key == k && r.seqNo <= m
    && forall q :: q in S && q.key == k && q.seqNo <= m ==> q.seqNo <= r.seqNo
  }

  ghost function Newest(S: set<Record>, k: Key, m: nat): Option<Record> {
    if r :| IsNewest(S, k, m, r) then Some(r) else None
  }

  /** What a caller of Get is told: a value, or nothing for an absent or deleted key. */
  function Answer(r: Option<Record>): Option<Bytes> {
    if r.None? || r.value.typ == TYPE_TOMBSTONE then None else Some(r.value.value)
  }

  ghost function View(S: set<Record>, k: Key, m: nat): Option<Bytes> {
    Answer(Newest(S, k, m))
  }

  /** A set with a visible version of `k` has a newest one. */
  lemma {:induction false} NewestExists(S: set<Record>, k: Key, m: nat, r: Record)
    requires r in S && r.key == k && r.seqNo <= m
    ensures exists t :: IsNewest(S, k, m, t)
    decreases m - r.seqNo
  {
    if q :| q in S && q.key == k && q.seqNo <= m && q.seqNo > r.seqNo {
      NewestExists(S, k, m, q);
    } else {
      assert IsNewest(S, k, m, r);
    }
  }

  lemma NewestIs(S: set<Record>, k: Key, m: nat, r: Record)
    requires OneVersion(S) && IsNewest(S, k, m, r)
    ensures Newest(S, k, m) == Some(r)
  {
    var t := Newest(S, k, m).value;
    assert IsNewest(S, k, m, t);
  }

  /** A read depends only on the key's own visible versions. */
  lemma ViewOfKey(S: set<Record>, T: set<Record>, k: Key, m: nat)
    requires OneVersion(S)
    requires forall r: Record :: r.key == k && r.seqNo <= m ==> (r in S <==> r in T)
    ensures Newest(S, k, m) == Newest(T, k, m)
  {
    assert forall r :: IsNewest(S, k, m, r) <==> IsNewest(T, k, m, r);
    if r :| IsNewest(S, k, m, r) {
      NewestIs(S, k, m, r);
      var t :| IsNewest(T, k, m, t) && Newest(T, k, m) == Some(t);
      NewestIs(S, k, m, t);
    }
  }

  // ---------- Forgetting ----------

  /** A newer version already serves every reader that `r` could serve. */
  ghost predicate Superseded(S: set<Record>, r: Record, minKeep: nat) {
    exists q :: q in S && q.key == r.key && r.seqNo < q.seqNo <= minKeep
  }

  ghost predicate IsTop(S: set<Record>, r: Record) {
    r in S && forall q :: q in S && q.key == r.key ==> q.seqNo <= r.seqNo
  }

  /** The whole key is a tombstone no reader needs, and nothing older lies below. */
  ghost predicate Dropped(S: set<Record>, k: Key, minKeep: nat, bottom: bool) {
    bottom && exists t :: IsTop(S, t) && t.key == k && t.typ == TYPE_TOMBSTONE && t.seqNo <= minKeep
  }

  /** The versions a compaction of `S` writes out. */
  ghost function Kept(S: set<Record>, minKeep: nat, bottom: bool): set<Record> {
    set r | r in S && !Superseded(S, r, minKeep) && !Dropped(S, r.key, minKeep, bottom)
  }

  /**
   Compaction preserves every permitted view. A bound is permitted when it
   is at least `minKeep`, or at least every version of the key (the case of
   a snapshot opened while the compaction was already running).
   */
  lemma KeptNewest(S: set<Record>, minKeep: nat, bottom: bool, k: Key, m: nat)
    requires m >= minKeep || forall r :: r in S && r.key == k ==> r.seqNo <= m
    ensures !Dropped(S, k, minKeep, bottom) ==>
              forall r :: IsNewest(Kept(S, minKeep, bottom), k, m, r) <==> IsNewest(S, k, m, r)
    ensures Dropped(S, k, minKeep, bottom) ==>
              forall r :: r in Kept(S, minKeep, bottom) ==> r.key != k
  {
    if !Dropped(S, k, minKeep, bottom) {
      var K := Kept(S, minKeep, bottom);
      forall r | IsNewest(S, k, m, r) ensures IsNewest(K, k, m, r) {
      }
      forall r | IsNewest(K, k, m, r) ensures IsNewest(S, k, m, r) {
        NewestExists(S, k, m, r);
        var t :| IsNewest(S, k, m, t);
        assert IsNewest(K, k, m, t);
      }
    }
  }

  /**
   For a read of `k` at `m`: if `O` has a visible version at all, it has one as
   new as any visible version in `S`.
   */
  ghost predicate Shielded(O: set<Record>, S: set<Record>, k: Key, m: nat) {
    forall r, q :: r in O && q in S && r.key == k && q.key == k && r.seqNo <= m && q.seqNo <= m ==>
      exists o :: o in O && o.key == k && q.seqNo <= o.seqNo <= m
  }

  /**
   Replacing `S` by what its compaction keeps is invisible next to the
   untouched records `O`, provided a dropped tombstone cannot uncover
   something older in `O`.
   */
  lemma CompactionPreservesView(O: set<Record>, S: set<Record>, minKeep: nat, bottom: bool, k: Key, m: nat)
    requires OneVersion(O + S)
    requires m >= minKeep || forall r :: r in S && r.key == k ==> r.seqNo <= m
    requires Dropped(S, k, minKeep, bottom) ==> Shielded(O, S, k, m)
    ensures View(O + Kept(S, minKeep, bottom), k, m) == View(O + S, k, m)
  {
    hide Kept;
    var K := Kept(S, minKeep, bottom);
    KeptNewest(S, minKeep, bottom, k, m);
    KeptIsPart(S, minKeep, bottom);
    if r :| IsNewest(O + S, k, m, r) {
      NewestIs(O + S, k, m, r);
      if r in O {
        assert IsNewest(O + K, k, m, r);
        NewestIs(O + K, k, m, r);
      } else if !Dropped(S, k, minKeep, bottom) {
        assert IsNewest(S, k, m, r);
        assert IsNewest(O + K, k, m, r);
        NewestIs(O + K, k, m, r);
      } else {
        DroppedHidesNothing(O, S, minKeep, bottom, k, m, r);
        assert Newest(O + K, k, m) == None;
      }
    } else {
      assert forall q :: !IsNewest(O + K, k, m, q) by {
        if q :| IsNewest(O + K, k, m, q) {
          NewestExists(O + S, k, m, q);
        }
      }
    }
  }

  lemma KeptIsPart(S: set<Record>, minKeep: nat, bottom: bool)
    ensures Kept(S, minKeep, bottom) <= S
  {
  }

  lemma SameVersion(S: set<Record>, a: Record, b: Record)
    requires OneVersion(S) && a in S && b in S && a.key == b.key && a.seqNo == b.seqNo
    ensures a == b
  {
  }

  lemma Shield(O: set<Record>, S: set<Record>, k: Key, m: nat, r: Record, q: Record) returns (o: Record)
    requires Shielded(O, S, k, m) && r in O && q in S && r.key == k && q.key == k && r.seqNo <= m && q.seqNo <= m
    ensures o in O && o.key == k && q.seqNo <= o.seqNo <= m
  {
    o :| o in O && o.key == k && q.seqNo <= o.seqNo <= m;
  }

  /** The newest version overall is the dropped tombstone: then nothing visible of the key is left. */
  lemma DroppedHidesNothing(O: set<Record>, S: set<Record>, minKeep: nat, bottom: bool, k: Key, m: nat, r: Record)
    requires OneVersion(O + S) && IsNewest(O + S, k, m, r) && r !in O
    requires m >= minKeep || forall q :: q in S && q.key == k ==> q.seqNo <= m
    requires Dropped(S, k, minKeep, bottom) && Shielded(O, S, k, m)
    ensures r.typ == TYPE_TOMBSTONE
    ensures forall q :: !IsNewest(O + Kept(S, minKeep, bottom), k, m, q)
  {
    hide OneVersion, Kept, Shielded;
    KeptNewest(S, minKeep, bottom, k, m);
    var t :| IsTop(S, t) && t.key == k && t.typ == TYPE_TOMBSTONE && t.seqNo <= minKeep;
    assert t.seqNo <= m;
    assert r.seqNo == t.seqNo;
    SameVersion(O + S, r, t);
    forall q | q in O && q.key == k ensures q.seqNo > m {
      if q.seqNo <= m {
        var o := Shield(O, S, k, m, q, t);
        SameVersion(O + S, o, r);
      }
    }
  }
}
