/**
 How the order of the tables (`Capped`, and `Stratified` where it holds)
 survives a new newest table, a commit, and an output file left on disk
 beside its inputs.
 */
module StoreCover {
  import opened Bytes
  import opened Versions
  import opened Store

  lemma Cover(ts: Tables, h: nat, k: Key, lo: nat, x: nat, h2: nat, q: Record)
    requires h in ts && h2 in ts && AtOrAbove(ts, h, h2) && q in ts[h2].recs && q.key == k && lo <= q.seqNo <= x
    ensures Covered(ts, h, k, lo, x)
  {
  }

  lemma CoverOf(ts: Tables, h: nat, k: Key, lo: nat, x: nat) returns (h2: nat, q: Record)
    requires h in ts && Covered(ts, h, k, lo, x)
    ensures h2 in ts && AtOrAbove(ts, h, h2) && q in ts[h2].recs && q.key == k && lo <= q.seqNo <= x
  {
    h2, q :| h2 in ts && AtOrAbove(ts, h, h2) && q in ts[h2].recs && q.key == k && lo <= q.seqNo <= x;
  }

  lemma UseCapped(ts: Tables, x: nat, g: nat, h: nat, r: Record, q: Record)
    requires Capped(ts, x) && g in ts && h in ts && Older(ts, g, h) && r in ts[g].recs && q in ts[h].recs
    requires r.key == q.key && r.seqNo <= x && q.seqNo <= x
    ensures Covered(ts, h, r.key, r.seqNo, x)
  {
    hide Covered;
  }

  // ---------- A new newest table ----------

  /** A table flushed last, holding nothing older than what lies in the tables, keeps the cover. */
  lemma CappedNewest(ts: Tables, n: nat, t: Table, x: nat)
    requires Capped(ts, x) && t.level == 0 && forall g :: g in ts ==> g < n
    requires forall r, q :: r in RecsOf(ts, ts.Keys) && q in t.recs && r.key == q.key ==> r.seqNo <= q.seqNo
    ensures Capped(ts[n := t], x)
  {
    hide Capped, Covered;
    var ts' := ts[n := t];
    forall g, h, r, q | g in ts' && h in ts' && Older(ts', g, h) && r in ts'[g].recs && q in ts'[h].recs
                        && r.key == q.key && r.seqNo <= x && q.seqNo <= x
      ensures Covered(ts', h, r.key, r.seqNo, x)
    {
      if h == n {
        assert r in RecsOf(ts, ts.Keys);
        Cover(ts', n, r.key, r.seqNo, x, n, q);
      } else {
        UseCapped(ts, x, g, h, r, q);
        var h2, q2 := CoverOf(ts, h, r.key, r.seqNo, x);
        Cover(ts', h, r.key, r.seqNo, x, h2, q2);
      }
    }
    FormCapped(ts', x);
  }

  lemma FormCapped(ts: Tables, x: nat)
    requires forall g, h, r, q ::
               g in ts && h in ts && Older(ts, g, h) && r in ts[g].recs && q in ts[h].recs && r.key == q.key && r.seqNo <= x && q.seqNo <= x
               ==> Covered(ts, h, r.key, r.seqNo, x)
    ensures Capped(ts, x)
  {
    hide Covered;
  }

  // ---------- An output beside its inputs ----------

  ghost predicate FromInputs(ts: Tables, p: Pass, recs: seq<Record>)
    requires p.Running?
  {
    forall r :: r in recs ==> exists i :: i in p.inputs && i in ts && r in ts[i].recs
  }

  /** Where a pass's inputs and target lie. */
  ghost predicate PassLevels(ts: Tables, p: Pass) {
    && p.Running? && p.inputs <= ts.Keys && p.target >= 1 && p.out !in ts
    && (forall g :: g in p.inputs ==> ts[g].level == p.target - 1 || ts[g].level == p.target)
    && (forall g :: g in ts && ts[g].level == p.target ==> g in p.inputs)
    && (forall g :: g in ts && 1 <= ts[g].level == p.target - 1 ==> g in p.inputs)
    && (forall g, h :: g in p.inputs && h in ts && h !in p.inputs && ts[h].level == 0 ==> Older(ts, g, h))
  }

  lemma CappedLeftover(ts: Tables, p: Pass, t: Table, x: nat)
    requires Capped(ts, x) && PassLevels(ts, p) && t.level == p.target && FromInputs(ts, p, t.recs)
    ensures Capped(ts[p.out := t], x)
  {
    hide Capped, Covered;
    var ts' := ts[p.out := t];
    forall g, h, r, q | g in ts' && h in ts' && Older(ts', g, h) && r in ts'[g].recs && q in ts'[h].recs
                        && r.key == q.key && r.seqNo <= x && q.seqNo <= x
      ensures Covered(ts', h, r.key, r.seqNo, x)
    {
      if g == p.out {
        var i :| i in p.inputs && i in ts && r in ts[i].recs;
        if Older(ts, i, h) {
          KeptCover(ts, p, t, x, i, h, r, q);
        } else {
          Cover(ts', h, r.key, r.seqNo, x, i, r);
        }
      } else if h == p.out {
        var i :| i in p.inputs && i in ts && q in ts[i].recs;
        UseCapped(ts, x, g, i, r, q);
        var h2, q2 := CoverOf(ts, i, r.key, r.seqNo, x);
        Cover(ts', h, r.key, r.seqNo, x, h2, q2);
      } else {
        KeptCover(ts, p, t, x, g, h, r, q);
      }
    }
    FormCapped(ts', x);
  }

  lemma KeptCover(ts: Tables, p: Pass, t: Table, x: nat, g: nat, h: nat, r: Record, q: Record)
    requires Capped(ts, x) && p.Running? && p.out !in ts && g in ts && h in ts && Older(ts, g, h)
    requires r in ts[g].recs && q in ts[h].recs && r.key == q.key && r.seqNo <= x && q.seqNo <= x
    ensures Covered(ts[p.out := t], h, r.key, r.seqNo, x)
  {
    hide Capped, Covered;
    UseCapped(ts, x, g, h, r, q);
    var h2, q2 := CoverOf(ts, h, r.key, r.seqNo, x);
    Cover(ts[p.out := t], h, r.key, r.seqNo, x, h2, q2);
  }

  // ---------- A commit ----------

  /** `out` keeps, of every key it does not drop, a visible version as new as any visible input; it drops only at the bottom. */
  ghost predicate KeepsNewest(ts: Tables, p: Pass, out: seq<Record>, x: nat)
    requires p.Running?
  {
    forall i, q :: i in p.inputs && i in ts && q in ts[i].recs && q.seqNo <= x ==>
      || (exists t :: t in out && t.key == q.key && q.seqNo <= t.seqNo <= x)
      || (p.bottom && forall g :: g in ts ==> ts[g].level <= p.target)
  }

  lemma RestAbove(ts: Tables, p: Pass, i: nat, h: nat)
    requires PassLevels(ts, p) && i in p.inputs && h in ts && h !in p.inputs && ts[h].level < p.target
    ensures Older(ts, i, h) && !AtOrAbove(ts, h, i)
  {
  }

  lemma CappedSwap(ts: Tables, p: Pass, out: seq<Record>, size: nat, x: nat)
    requires Capped(ts, x) && PassLevels(ts, p) && FromInputs(ts, p, out) && KeepsNewest(ts, p, out, x)
    ensures Capped(Swapped(ts, p, out, size), x)
  {
    hide Capped, Covered, KeepsNewest, PassLevels;
    LevelsParts(ts, p);
    var ts' := Swapped(ts, p, out, size);
    forall g, h, r, q | g in ts' && h in ts' && Older(ts', g, h) && r in ts'[g].recs && q in ts'[h].recs
                        && r.key == q.key && r.seqNo <= x && q.seqNo <= x
      ensures Covered(ts', h, r.key, r.seqNo, x)
    {
      if g == p.out {
        var i :| i in p.inputs && i in ts && r in ts[i].recs;
        RestAbove(ts, p, i, h);
        SwapCover(ts, p, out, size, x, i, h, r, q);
      } else if h == p.out {
        var i :| i in p.inputs && i in ts && q in ts[i].recs;
        SwapCoverOut(ts, p, out, size, x, g, i, r, q);
      } else {
        SwapCover(ts, p, out, size, x, g, h, r, q);
      }
    }
    FormCapped(ts', x);
  }

  lemma LevelsParts(ts: Tables, p: Pass)
    requires PassLevels(ts, p)
    ensures p.Running? && p.inputs <= ts.Keys && p.target >= 1 && p.out !in ts
    ensures forall g :: g in p.inputs ==> ts[g].level == p.target - 1 || ts[g].level == p.target
    ensures forall g :: g in ts && ts[g].level == p.target ==> g in p.inputs
  {
  }

  /** A staying table keeps its cover: directly, or through the output. */
  lemma SwapCover(ts: Tables, p: Pass, out: seq<Record>, size: nat, x: nat, g: nat, h: nat, r: Record, q: Record)
    requires Capped(ts, x) && PassLevels(ts, p) && KeepsNewest(ts, p, out, x)
    requires g in ts && h in ts && h !in p.inputs && Older(ts, g, h)
    requires r in ts[g].recs && q in ts[h].recs && r.key == q.key && r.seqNo <= x && q.seqNo <= x
    ensures h in Swapped(ts, p, out, size) && Covered(Swapped(ts, p, out, size), h, r.key, r.seqNo, x)
  {
    hide Capped, Covered, PassLevels;
    LevelsParts(ts, p);
    var ts' := Swapped(ts, p, out, size);
    UseCapped(ts, x, g, h, r, q);
    var h2, q2 := CoverOf(ts, h, r.key, r.seqNo, x);
    if h2 in p.inputs {
      if ts[h].level < p.target {
        RestAbove(ts, p, h2, h);
      }
      assert ts[h].level > p.target;
      var t :| t in out && t.key == q2.key && q2.seqNo <= t.seqNo <= x;
      Cover(ts', h, r.key, r.seqNo, x, p.out, t);
    } else {
      Cover(ts', h, r.key, r.seqNo, x, h2, q2);
    }
  }

  /** The output is covered against everything deeper. */
  lemma SwapCoverOut(ts: Tables, p: Pass, out: seq<Record>, size: nat, x: nat, g: nat, i: nat, r: Record, q: Record)
    requires Capped(ts, x) && PassLevels(ts, p) && KeepsNewest(ts, p, out, x) && out != []
    requires g in ts && i in p.inputs && i in ts && Older(ts, g, i) && ts[g].level > p.target
    requires r in ts[g].recs && q in ts[i].recs && r.key == q.key && r.seqNo <= x && q.seqNo <= x
    ensures Covered(Swapped(ts, p, out, size), p.out, r.key, r.seqNo, x)
  {
    hide Capped, Covered, PassLevels;
    LevelsParts(ts, p);
    var ts' := Swapped(ts, p, out, size);
    UseCapped(ts, x, g, i, r, q);
    var h2, q2 := CoverOf(ts, i, r.key, r.seqNo, x);
    if h2 in p.inputs {
      var t :| t in out && t.key == q2.key && q2.seqNo <= t.seqNo <= x;
      Cover(ts', p.out, r.key, r.seqNo, x, p.out, t);
    } else {
      Cover(ts', p.out, r.key, r.seqNo, x, h2, q2);
    }
  }

  // ---------- The stricter order ----------

  /** Wherever the order is broken, both tables are inputs of the pass. */
  ghost predicate Mendable(ts: Tables, p: Pass, strict: bool)
    requires p.Running?
  {
    forall g, h :: g in ts && h in ts && Older(ts, g, h) && !(g in p.inputs && h in p.inputs) ==> Under(ts[g].recs, ts[h].recs, strict)
  }

  /** A commit keeps the order of tables, and mends it where it was broken among its inputs. */
  lemma StratifiedSwap(ts: Tables, p: Pass, out: seq<Record>, size: nat, strict: bool)
    requires PassLevels(ts, p) && Mendable(ts, p, strict) && FromInputs(ts, p, out)
    ensures Stratified(Swapped(ts, p, out, size), strict)
  {
    hide PassLevels;
    LevelsParts(ts, p);
    var ts' := Swapped(ts, p, out, size);
    forall g, h | g in ts' && h in ts' && Older(ts', g, h) ensures Under(ts'[g].recs, ts'[h].recs, strict) {
      if g == p.out {
        forall r, q | r in out && q in ts[h].recs
          ensures (strict ==> r.seqNo < q.seqNo) && (r.key == q.key ==> r.seqNo <= q.seqNo)
        {
          var i :| i in p.inputs && i in ts && r in ts[i].recs;
          RestAbove(ts, p, i, h);
          assert Under(ts[i].recs, ts[h].recs, strict);
        }
      } else if h == p.out {
        forall r, q | r in ts[g].recs && q in out
          ensures (strict ==> r.seqNo < q.seqNo) && (r.key == q.key ==> r.seqNo <= q.seqNo)
        {
          var i :| i in p.inputs && i in ts && q in ts[i].recs;
          assert Older(ts, g, i);
          assert Under(ts[g].recs, ts[i].recs, strict);
        }
      } else {
        assert Older(ts, g, h);
      }
    }
  }
}
