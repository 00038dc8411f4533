/**
 The retention rule of a merge on an ordered list of versions: group by key,
 walk each group newest first, stop at the first version that already serves
 the oldest reader. Proved to keep exactly `Kept`, and to produce a list the
 table writer accepts exactly when no version above `minKeep` occurs twice.
 */
module Retention {
  import opened Bytes
  import opened Versions

  /** Length of the leading run of one key. */
  function GroupLen(l: seq<Record>): (n: nat)
    requires l != []
    ensures 1 <= n <= |l|
    ensures forall i :: 0 <= i < n ==> l[i].key == l[0].key
    ensures n < |l| ==> l[n].key != l[0].key
  {
    if |l| == 1 || l[1].key != l[0].key then 1 else 1 + GroupLen(l[1..])
  }

  /** Versions of one key, newest first, up to and including the first with Seq <= minKeep. */
  function WalkFrom(g: seq<Record>, minKeep: nat): seq<Record> {
    if g == [] then []
    else if g[0].seqNo <= minKeep then [g[0]]
    else [g[0]] + WalkFrom(g[1..], minKeep)
  }

  predicate DropsGroup(g: seq<Record>, minKeep: nat, bottom: bool) {
    g != [] && bottom && g[0].typ == TYPE_TOMBSTONE && g[0].seqNo <= minKeep
  }

  function Walk(g: seq<Record>, minKeep: nat, bottom: bool): seq<Record> {
    if DropsGroup(g, minKeep, bottom) then [] else WalkFrom(g, minKeep)
  }

  function Retain(l: seq<Record>, minKeep: nat, bottom: bool): seq<Record> {
    if l == [] then []
    else
      var n := GroupLen(l);
      Walk(l[..n], minKeep, bottom) + Retain(l[n..], minKeep, bottom)
  }

  // ---------- One group ----------

  ghost predicate OneKey(g: seq<Record>) {
    forall i :: 0 <= i < |g| ==> g[i].key == g[0].key
  }

  ghost predicate Descending(g: seq<Record>) {
    forall i, j :: 0 <= i < j < |g| ==> g[i].seqNo >= g[j].seqNo
  }

  lemma GroupDescends(g: seq<Record>)
    requires OneKey(g) && Ordered(g)
    ensures Descending(g)
  {
    forall i, j | 0 <= i < j < |g| ensures g[i].seqNo >= g[j].seqNo {
      LessIrreflexive(g[0].key);
      assert !Before(g[j], g[i]);
    }
  }

  lemma {:induction false} WalkFromKeeps(g: seq<Record>, minKeep: nat)
    requires Descending(g)
    ensures forall r :: r in WalkFrom(g, minKeep) ==> r in g
    ensures forall r :: r in g && r.seqNo > minKeep ==> r in WalkFrom(g, minKeep)
    ensures forall r :: r in WalkFrom(g, minKeep) && r.seqNo <= minKeep ==>
              forall q :: q in g && q.seqNo <= minKeep ==> q.seqNo <= r.seqNo
    ensures (exists q :: q in g && q.seqNo <= minKeep) ==> exists r :: r in WalkFrom(g, minKeep) && r.seqNo <= minKeep
  {
    if g != [] {
      if g[0].seqNo <= minKeep {
        assert WalkFrom(g, minKeep)[0] == g[0];
      } else {
        WalkFromKeeps(g[1..], minKeep);
        assert g == [g[0]] + g[1..];
        if q :| q in g && q.seqNo <= minKeep {
          assert q in g[1..];
          var r :| r in WalkFrom(g[1..], minKeep) && r.seqNo <= minKeep;
          assert r in WalkFrom(g, minKeep);
        }
      }
    }
  }

  /** The walk over one key's versions keeps exactly what `Kept` says. */
  lemma WalkIsKept(g: seq<Record>, minKeep: nat, bottom: bool)
    requires g != [] && OneKey(g) && Descending(g) && OneVersion(ToSet(g))
    ensures ToSet(Walk(g, minKeep, bottom)) == Kept(ToSet(g), minKeep, bottom)
  {
    var S := ToSet(g);
    var k := g[0].key;
    WalkFromKeeps(g, minKeep);
    assert IsTop(S, g[0]);
    if DropsGroup(g, minKeep, bottom) {
      assert Dropped(S, k, minKeep, bottom);
    } else {
      assert !Dropped(S, k, minKeep, bottom) by {
        forall t | IsTop(S, t) && t.key == k ensures t == g[0] {
          assert t.seqNo == g[0].seqNo;
        }
      }
      forall r | r in S ensures r in WalkFrom(g, minKeep) <==> !Superseded(S, r, minKeep) {
        if r.seqNo <= minKeep {
          var w :| w in WalkFrom(g, minKeep) && w.seqNo <= minKeep;
          assert w in S;
          if r in WalkFrom(g, minKeep) {
            assert !Superseded(S, r, minKeep);
          } else {
            assert w.seqNo > r.seqNo;
          }
        }
      }
    }
  }

  /** No version above `minKeep` occurs twice. */
  ghost predicate NoDuplicateAbove(l: seq<Record>, minKeep: nat) {
    forall i, j :: 0 <= i < j < |l| && l[i].key == l[j].key && l[i].seqNo == l[j].seqNo ==> l[i].seqNo <= minKeep
  }

  lemma {:induction false} WalkFromStrict(g: seq<Record>, minKeep: nat)
    requires OneKey(g) && Descending(g)
    ensures OneKey(WalkFrom(g, minKeep))
    ensures g != [] ==> WalkFrom(g, minKeep) != [] && WalkFrom(g, minKeep)[0] == g[0]
    ensures StrictlyOrdered(WalkFrom(g, minKeep)) <==> NoDuplicateAbove(g, minKeep)
  {
    if g != [] {
      var t, w := g[1..], WalkFrom(g, minKeep);
      if g[0].seqNo <= minKeep {
      } else {
        assert OneKey(t) && Descending(t);
        WalkFromStrict(t, minKeep);
        var wt := WalkFrom(t, minKeep);
        assert w == [g[0]] + wt;
        WalkFromKeeps(t, minKeep);
        DuplicateAtFront(g, minKeep);
        StrictFront(g[0], wt);
        LessIrreflexive(g[0].key);
        if t != [] && t[0].seqNo < g[0].seqNo {
          forall r | r in wt ensures Before(g[0], r) {
            assert r in t;
          }
        }
      }
    }
  }

  lemma StrictFront(r: Record, t: seq<Record>)
    ensures StrictlyOrdered([r] + t) <==> StrictlyOrdered(t) && forall q :: q in t ==> Before(r, q)
  {
    var w := [r] + t;
    if StrictlyOrdered(w) {
      forall i, j | 0 <= i < j < |t| ensures Before(t[i], t[j]) {
        assert w[i + 1] == t[i] && w[j + 1] == t[j];
      }
      forall q | q in t ensures Before(r, q) {
        var i :| 0 <= i < |t| && t[i] == q;
        assert w[0] == r && w[i + 1] == q;
      }
    }
  }

  lemma DuplicateAtFront(g: seq<Record>, minKeep: nat)
    requires g != [] && OneKey(g) && Descending(g) && g[0].seqNo > minKeep
    ensures NoDuplicateAbove(g, minKeep) <==> NoDuplicateAbove(g[1..], minKeep) && (|g| > 1 ==> g[1].seqNo < g[0].seqNo)
  {
    var t := g[1..];
    assert forall i :: 0 <= i < |t| ==> t[i] == g[i + 1];
    if NoDuplicateAbove(g, minKeep) {
      forall i, j | 0 <= i < j < |t| && t[i].key == t[j].key && t[i].seqNo == t[j].seqNo ensures t[i].seqNo <= minKeep {
        assert g[i + 1] == t[i] && g[j + 1] == t[j];
      }
    }
    assert forall j :: 1 < j < |g| ==> g[j].seqNo <= g[1].seqNo;
    if NoDuplicateAbove(t, minKeep) && (|g| > 1 ==> g[1].seqNo < g[0].seqNo) {
      forall i, j | 0 <= i < j < |g| && g[i].key == g[j].key && g[i].seqNo == g[j].seqNo ensures g[i].seqNo <= minKeep {
        if i > 0 {
          assert t[i - 1] == g[i] && t[j - 1] == g[j];
        }
      }
    }
  }

  // ---------- The whole list ----------

  /** The first key group of an ordered list, and what follows it under strictly greater keys. */
  lemma FirstGroup(l: seq<Record>)
    requires Ordered(l) && l != []
    ensures var n := GroupLen(l);
            && OneKey(l[..n]) && Descending(l[..n]) && Ordered(l[n..])
            && l == l[..n] + l[n..]
            && forall r, q :: r in l[..n] && q in l[n..] ==> Less(r.key, q.key)
  {
    hide Less, GroupLen;
    var n := GroupLen(l);
    assert Ordered(l[..n]) && OneKey(l[..n]);
    GroupDescends(l[..n]);
    forall r, q | r in l[..n] && q in l[n..] ensures Less(r.key, q.key) {
      var j :| n <= j < |l| && l[j] == q;
      LessTotal(l[0].key, l[n].key);
      LessTotal(l[n].key, q.key);
      assert !Before(l[n], l[0]);
      assert j > n ==> !Before(l[j], l[n]);
      if Less(l[n].key, q.key) {
        LessTransitive(l[0].key, l[n].key, q.key);
      }
    }
  }

  ghost predicate KeyDisjoint(A: set<Record>, B: set<Record>) {
    forall r, q :: r in A && q in B ==> r.key != q.key
  }

  lemma KeptOfUnion(A: set<Record>, B: set<Record>, minKeep: nat, bottom: bool)
    requires KeyDisjoint(A, B)
    ensures Kept(A + B, minKeep, bottom) == Kept(A, minKeep, bottom) + Kept(B, minKeep, bottom)
  {
    forall r | r in A + B
      ensures r in Kept(A + B, minKeep, bottom) <==> r in Kept(A, minKeep, bottom) + Kept(B, minKeep, bottom)
    {
      var own := if r in A then A else B;
      KeptLocally(A + B, own, r, minKeep, bottom);
    }
  }

  lemma KeptLocally(S: set<Record>, T: set<Record>, r: Record, minKeep: nat, bottom: bool)
    requires r in T && forall q: Record :: q.key == r.key ==> (q in S <==> q in T)
    ensures r in Kept(S, minKeep, bottom) <==> r in Kept(T, minKeep, bottom)
  {
    assert Superseded(S, r, minKeep) <==> Superseded(T, r, minKeep);
    assert forall t: Record :: t.key == r.key ==> (IsTop(S, t) <==> IsTop(T, t));
    assert Dropped(S, r.key, minKeep, bottom) <==> Dropped(T, r.key, minKeep, bottom);
  }

  lemma ToSetConcat<T>(a: seq<T>, b: seq<T>)
    ensures ToSet(a + b) == ToSet(a) + ToSet(b)
  {
  }

  /** A merge writes out exactly the versions `Kept` names. */
  lemma {:induction false} RetainIsKept(l: seq<Record>, minKeep: nat, bottom: bool)
    requires Ordered(l) && OneVersion(ToSet(l))
    ensures ToSet(Retain(l, minKeep, bottom)) == Kept(ToSet(l), minKeep, bottom)
  {
    hide Kept, Walk, Ordered, OneKey, Descending, Less, OneVersion;
    if l == [] {
      assert ToSet(l) == {};
      KeptOfNothing(minKeep, bottom);
    } else {
      var n := GroupLen(l);
      FirstGroup(l);
      assert ToSet(l[..n]) <= ToSet(l) && ToSet(l[n..]) <= ToSet(l);
      PartOneVersion(ToSet(l), ToSet(l[..n]));
      PartOneVersion(ToSet(l), ToSet(l[n..]));
      RetainIsKept(l[n..], minKeep, bottom);
      WalkIsKept(l[..n], minKeep, bottom);
      ToSetConcat(l[..n], l[n..]);
      ToSetConcat(Walk(l[..n], minKeep, bottom), Retain(l[n..], minKeep, bottom));
      GroupsDisjoint(l[..n], l[n..]);
      KeptOfUnion(ToSet(l[..n]), ToSet(l[n..]), minKeep, bottom);
    }
  }

  lemma KeptOfNothing(minKeep: nat, bottom: bool)
    ensures Kept({}, minKeep, bottom) == {}
  {
  }

  lemma GroupsDisjoint(a: seq<Record>, b: seq<Record>)
    requires forall r, q :: r in a && q in b ==> Less(r.key, q.key)
    ensures KeyDisjoint(ToSet(a), ToSet(b))
  {
    forall r, q | r in ToSet(a) && q in ToSet(b) ensures r.key != q.key {
      LessIrreflexive(r.key);
    }
  }

  lemma {:induction false} RetainSubset(l: seq<Record>, minKeep: nat, bottom: bool)
    requires Ordered(l)
    ensures forall r :: r in Retain(l, minKeep, bottom) ==> r in l
  {
    if l != [] {
      var n := GroupLen(l);
      FirstGroup(l);
      RetainSubset(l[n..], minKeep, bottom);
      WalkFromKeeps(l[..n], minKeep);
    }
  }

  lemma StrictConcat(a: seq<Record>, b: seq<Record>)
    requires forall r, q :: r in a && q in b ==> Before(r, q)
    ensures StrictlyOrdered(a + b) <==> StrictlyOrdered(a) && StrictlyOrdered(b)
  {
    var w := a + b;
    if StrictlyOrdered(w) {
      forall i, j | 0 <= i < j < |a| ensures Before(a[i], a[j]) {
        assert w[i] == a[i] && w[j] == a[j];
      }
      forall i, j | 0 <= i < j < |b| ensures Before(b[i], b[j]) {
        assert w[|a| + i] == b[i] && w[|a| + j] == b[j];
      }
    }
  }

  lemma NoDuplicateConcat(a: seq<Record>, b: seq<Record>, minKeep: nat)
    requires forall r, q :: r in a && q in b ==> r.key != q.key
    ensures NoDuplicateAbove(a + b, minKeep) <==> NoDuplicateAbove(a, minKeep) && NoDuplicateAbove(b, minKeep)
  {
    var w := a + b;
    if NoDuplicateAbove(w, minKeep) {
      forall i, j | 0 <= i < j < |a| && a[i].key == a[j].key && a[i].seqNo == a[j].seqNo ensures a[i].seqNo <= minKeep {
        assert w[i] == a[i] && w[j] == a[j];
      }
      forall i, j | 0 <= i < j < |b| && b[i].key == b[j].key && b[i].seqNo == b[j].seqNo ensures b[i].seqNo <= minKeep {
        assert w[|a| + i] == b[i] && w[|a| + j] == b[j];
      }
    }
    assert forall i :: 0 <= i < |w| ==> if i < |a| then w[i] in a else w[i] in b;
    if NoDuplicateAbove(a, minKeep) && NoDuplicateAbove(b, minKeep) {
      forall i, j | 0 <= i < j < |w| && w[i].key == w[j].key && w[i].seqNo == w[j].seqNo ensures w[i].seqNo <= minKeep {
        if j < |a| {
          assert w[i] == a[i] && w[j] == a[j];
        } else if i >= |a| {
          assert w[i] == b[i - |a|] && w[j] == b[j - |a|];
        }
      }
    }
  }

  lemma WalkStrict(g: seq<Record>, minKeep: nat, bottom: bool)
    requires g != [] && OneKey(g) && Descending(g)
    ensures StrictlyOrdered(Walk(g, minKeep, bottom)) <==> NoDuplicateAbove(g, minKeep)
  {
    WalkFromStrict(g, minKeep);
  }

  /**
   A merge's output is strictly ordered, so the table writer accepts it,
   exactly when no (key, Seq) pair above `minKeep` occurs twice in the inputs.
   */
  lemma {:induction false} RetainStrictExact(l: seq<Record>, minKeep: nat, bottom: bool)
    requires Ordered(l)
    ensures StrictlyOrdered(Retain(l, minKeep, bottom)) <==> NoDuplicateAbove(l, minKeep)
  {
    hide WalkFrom, Less, Ordered, StrictlyOrdered, NoDuplicateAbove;
    if l == [] {
      assert StrictlyOrdered([]) && NoDuplicateAbove([], minKeep) by { EmptyStrict(minKeep); }
    } else {
      var n := GroupLen(l);
      var g, t := l[..n], l[n..];
      var a, b := Walk(g, minKeep, bottom), Retain(t, minKeep, bottom);
      FirstGroup(l);
      RetainStrictExact(t, minKeep, bottom);
      WalkStrict(g, minKeep, bottom);
      WalkFromKeeps(g, minKeep);
      RetainSubset(t, minKeep, bottom);
      forall r, q | r in a && q in b ensures Before(r, q) {
        assert r in g && q in t;
      }
      StrictConcat(a, b);
      forall r, q | r in g && q in t ensures r.key != q.key {
        LessIrreflexive(r.key);
      }
      NoDuplicateConcat(g, t, minKeep);
    }
  }

  lemma EmptyStrict(minKeep: nat)
    ensures StrictlyOrdered([]) && NoDuplicateAbove([], minKeep)
  {
  }
}
