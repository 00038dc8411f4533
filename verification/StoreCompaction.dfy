/** Begin and Commit keep the store invariant; a commit is invisible to every read it must serve. */
module StoreCompaction {
  import opened Bytes
  import opened Versions
  import opened History
  import opened Store
  import opened StoreFacts
  import opened StoreCover

  // ---------- Begin ----------

  /** A plan takes all of one level and all of the next, and the upper one is not empty. */
  ghost predicate TakesLevel(c: Config, ts: Tables, p: Plan, lvl: nat) {
    && p.target == lvl + 1 && p.target < c.maxLevels
    && p.inputs == Level(ts, lvl) + Level(ts, lvl + 1)
    && Level(ts, lvl) != {}
  }

  lemma {:induction false} PickFromTakesLevel(c: Config, ts: Tables, lvl: nat)
    requires PickFrom(c, ts, lvl).Some?
    ensures exists l :: lvl <= l && TakesLevel(c, ts, PickFrom(c, ts, lvl).value, l) && Oversized(c, ts, l)
                        && forall i :: lvl <= i < l ==> SumSizes(ts, Level(ts, i)) <= TargetSize(c, i)
    decreases c.maxLevels - lvl
  {
    hide SumSizes, TargetSize, Level;
    if Oversized(c, ts, lvl) {
      assert TakesLevel(c, ts, PickFrom(c, ts, lvl).value, lvl);
    } else {
      NoSizeInEmptyLevel(ts, lvl);
      PickFromTakesLevel(c, ts, lvl + 1);
    }
  }

  lemma NoSizeInEmptyLevel(ts: Tables, lvl: nat)
    ensures Level(ts, lvl) == {} ==> SumSizes(ts, Level(ts, lvl)) == 0
  {
  }

  /**
   A plan takes a whole non-empty level and all of the next: level 0 exactly
   when it has as many tables as its trigger, and otherwise the first level
   that is over its target.
   */
  lemma PickTakesLevel(c: Config, ts: Tables) returns (lvl: nat)
    requires Sane(c) && Pick(c, ts).Some?
    ensures TakesLevel(c, ts, Pick(c, ts).value, lvl)
    ensures lvl == 0 <==> |Level(ts, 0)| >= c.l0Trigger
    ensures lvl > 0 ==> SumSizes(ts, Level(ts, lvl)) > TargetSize(c, lvl)
    ensures lvl > 0 ==> forall i :: 1 <= i < lvl ==> SumSizes(ts, Level(ts, i)) <= TargetSize(c, i)
  {
    hide SumSizes, TargetSize;
    if |Level(ts, 0)| >= c.l0Trigger {
      lvl := 0;
    } else {
      PickFromTakesLevel(c, ts, 1);
      lvl :| 1 <= lvl && TakesLevel(c, ts, PickFrom(c, ts, 1).value, lvl) && Oversized(c, ts, lvl)
             && forall i :: 1 <= i < lvl ==> SumSizes(ts, Level(ts, i)) <= TargetSize(c, i);
    }
  }

  /** What Begin samples: the least open snapshot, or no bound without one; bottommost exactly when no table lies deeper than the target. */
  lemma BeginSamples(c: Config, s: State, step: Step)
    requires Inv(c, s) && step.Begin? && Enabled(c, s, step)
    ensures var p := Apply(c, s, step).pass;
            && (s.snaps == multiset{} ==> p.minKeep == 0xFFFF_FFFF_FFFF_FFFF)
            && (s.snaps != multiset{} ==> p.minKeep in s.snaps && forall x :: x in s.snaps ==> p.minKeep <= x)
            && (p.bottom <==> forall g :: g in s.tables ==> s.tables[g].level <= p.target)
  {
    hide LogsInv, PassInv, LiveInv, Pick, RecsOf, Stratified, AllCapped, Flushed, StrictlyOrdered, OneTablePerDeepLevel;
    assert forall x :: x in s.snaps ==> x <= UNBOUNDED;
    if x :| x in s.snaps {
      assert s.snaps != multiset{};
    }
    var p := Apply(c, s, step).pass;
    forall g | p.bottom && g in s.tables ensures s.tables[g].level <= p.target {
      assert g in Level(s.tables, s.tables[g].level);
    }
  }

  /** With no snapshot open when it began, a pass leaves one version per key, and at the bottom no tombstone. */
  lemma CompactionReclaims(c: Config, s: State, step: Step)
    requires Inv(c, s) && step.Commit? && Enabled(c, s, step) && s.pass.minKeep == 0xFFFF_FFFF_FFFF_FFFF
    ensures forall r, q :: r in step.out && q in step.out && r.key == q.key ==> r == q
    ensures s.pass.bottom ==> forall r :: r in step.out ==> r.typ != TYPE_TOMBSTONE
  {
    hide HistoryInv, LogsInv, LiveInv, TablesInv, PassInv, StrictlyOrdered, RecsOf, OneVersion;
    var S := RecsOf(s.tables, s.pass.inputs);
    StoredWasWritten(c, s);
    InputsAreStored(s.tables, s.pass.inputs);
    PartOneVersion(Stored(s), S);
    InputsAreOld(c, s);
    assert forall r :: r in step.out ==> r in ToSet(step.out);
    forall r, q | r in step.out && q in step.out && r.key == q.key ensures r == q {
      SoleVersion(S, r, q);
    }
    forall r | s.pass.bottom && r in step.out ensures r.typ != TYPE_TOMBSTONE {
      if r.typ == TYPE_TOMBSTONE {
        UnovertakenIsTop(S, r);
      }
    }
  }

  lemma SoleVersion(S: set<Record>, r: Record, q: Record)
    requires OneVersion(S) && r in S && q in S && r.key == q.key && r.seqNo <= UNBOUNDED && q.seqNo <= UNBOUNDED
    requires !Superseded(S, r, UNBOUNDED) && !Superseded(S, q, UNBOUNDED)
    ensures r == q
  {
  }

  lemma UnovertakenIsTop(S: set<Record>, r: Record)
    requires r in S && !Superseded(S, r, UNBOUNDED) && forall q :: q in S ==> q.seqNo <= UNBOUNDED
    ensures IsTop(S, r)
  {
  }

  lemma PlanIsPass(c: Config, ts: Tables, p: Pass, lvl: nat)
    requires p.Running? && TakesLevel(c, ts, Plan(p.inputs, p.target), lvl) && p.out !in ts && p.bottom == Bottommost(c, ts, p.target)
    requires forall g :: g in ts ==> ts[g].level < c.maxLevels
    ensures PassTables(c, ts, p)
  {
    var g :| g in Level(ts, lvl);
    assert g in p.inputs && ts[g].level == p.target - 1;
    forall g | p.bottom && g in ts ensures ts[g].level <= p.target {
      assert g in Level(ts, ts[g].level);
    }
  }

  lemma BeginKeepsPass(c: Config, s: State, step: Step)
    requires Inv(c, s) && step.Begin? && Enabled(c, s, step)
    ensures PassInv(c, Apply(c, s, step))
  {
    hide HistoryInv, LiveInv, LogsInv, PassInv, Stratified, AllCapped, RecsOf, Flushed, Pick, StrictlyOrdered, OneTablePerDeepLevel, TakesLevel, PassTables,
         TargetSize, SumSizes, Level, Bottommost;
    var s' := Apply(c, s, step);
    var lvl := PickTakesLevel(c, s.tables);
    LogGenerations(s);
    PlanIsPass(c, s.tables, s'.pass, lvl);
    NoSnapshotBelow(s);
    FormPassInv(c, s');
  }

  /** The sampled bound serves every open snapshot. */
  lemma NoSnapshotBelow(s: State)
    ensures forall m: nat :: IsMinSnap(s.snaps, m) ==> forall x :: x in s.snaps ==> x >= m
  {
  }

  lemma FormPassInv(c: Config, s: State)
    requires s.pass.Running? && PassTables(c, s.tables, s.pass) && s.pass.out <= s.gen && s.pass.out !in s.logs
    requires s.pass.minKeep <= UNBOUNDED && forall x :: x in s.snaps ==> x >= s.pass.minKeep
    ensures PassInv(c, s)
  {
    hide PassTables, RecsOf;
  }

  lemma BeginKeepsInv(c: Config, s: State, step: Step)
    requires Inv(c, s) && step.Begin? && Enabled(c, s, step)
    ensures Inv(c, Apply(c, s, step))
    ensures Below(Apply(c, s, step)) == Below(s)
  {
    hide LogsInv, PassInv, RecsOf, View, ImmRecs, Stratified, AllCapped, Flushed, Pick, StrictlyOrdered, OneTablePerDeepLevel, Increasing;
    BeginKeepsPass(c, s, step);
    SameLogs(s, Apply(c, s, step));
    assert Stored(Apply(c, s, step)) == Stored(s);
  }

  // ---------- Commit ----------

  /** Splitting the table list into a pass's inputs and the tables that stay. */
  lemma InputsAndRest(ts: Tables, I: set<nat>)
    ensures RecsOf(ts, ts.Keys) == RecsOf(ts, ts.Keys - I) + RecsOf(ts, I)
  {
    forall r | r in RecsOf(ts, ts.Keys) ensures r in RecsOf(ts, ts.Keys - I) + RecsOf(ts, I) {
      var g :| g in ts && r in ts[g].recs;
      assert g in I || g in ts.Keys - I;
    }
  }

  lemma SwappedRecs(ts: Tables, p: Pass, out: seq<Record>, size: nat)
    requires p.Running? && p.out !in ts
    ensures var ts' := Swapped(ts, p, out, size);
            RecsOf(ts', ts'.Keys) == RecsOf(ts, ts.Keys - p.inputs) + ToSet(out)
  {
    hide RecsOf;
    var rem := ts - p.inputs;
    assert rem.Keys == ts.Keys - p.inputs;
    RecsOfFrame(rem, ts, rem.Keys);
    if out != [] {
      RecsOfInsert(rem, p.out, Table(p.target, out, size));
    }
  }

  /** A table that stays, above the target level, was filled after every input. */
  lemma RestIsNewer(c: Config, s: State, i: nat, h: nat)
    requires PassInv(c, s) && s.pass.Running?
    requires i in s.pass.inputs && h in s.tables && h !in s.pass.inputs
    requires s.tables[h].level < s.pass.target
    ensures Older(s.tables, i, h)
  {
    hide SnapshotsServed;
  }

  /** While no output was ever left beside its inputs, nothing outside a bottommost pass is older than its inputs. */
  lemma NothingOlderOutside(c: Config, s: State, X: set<Record>)
    requires Inv(c, s) && s.pass.Running? && s.pass.bottom && !s.leftover
    requires X <= s.mem.Values + ImmRecs(s.imm)
    ensures forall r, q :: r in X + RecsOf(s.tables, s.tables.Keys - s.pass.inputs) && q in RecsOf(s.tables, s.pass.inputs) && r.key == q.key
                           ==> q.seqNo <= r.seqNo
  {
    hide HistoryInv, LogsInv, LiveInv, OneTablePerDeepLevel, SnapshotsServed, Pending, StrictlyOrdered, Flushed, ImmRecs, AllCapped;
    var ts, p := s.tables, s.pass;
    HistorySplits(s);
    TablesUnderMemtables(c, s);
    forall r, q | r in X + RecsOf(ts, ts.Keys - p.inputs) && q in RecsOf(ts, p.inputs) && r.key == q.key ensures q.seqNo <= r.seqNo {
      var i :| i in p.inputs && i in ts && q in ts[i].recs;
      assert q in RecsOf(ts, ts.Keys);
      if r in X {
        assert r in Pending(s);
      } else {
        var h :| h in ts.Keys - p.inputs && r in ts[h].recs;
        RestIsNewer(c, s, i, h);
        assert Under(ts[i].recs, ts[h].recs, !s.replayed);
      }
    }
  }

  lemma PassLevelsHold(c: Config, s: State)
    requires PassInv(c, s) && s.pass.Running?
    ensures PassLevels(s.tables, s.pass)
  {
    hide SnapshotsServed;
  }

  /**
   What a bottommost pass forgets uncovers nothing: whoever sees an outside
   version of a key sees one there as new as any input's. The reason a
   tombstone may go.
   */
  lemma OutsideIsShielded(c: Config, s: State, X: set<Record>, k: Key, m: nat)
    requires Inv(c, s) && s.pass.Running? && s.pass.bottom && Watched(s.snaps, s.seqNo, m)
    requires X <= s.mem.Values + ImmRecs(s.imm)
    ensures Shielded(X + RecsOf(s.tables, s.tables.Keys - s.pass.inputs), RecsOf(s.tables, s.pass.inputs), k, m)
  {
    hide HistoryInv, LogsInv, LiveInv, TablesInv, SnapshotsServed, Pending, ImmRecs, Capped, Covered;
    var ts, p := s.tables, s.pass;
    var O, S := X + RecsOf(ts, ts.Keys - p.inputs), RecsOf(ts, p.inputs);
    HistorySplits(s);
    TablesUnderMemtables(c, s);
    CappedAt(c, s, m);
    PassLevelsHold(c, s);
    forall r, q | r in O && q in S && r.key == k && q.key == k && r.seqNo <= m && q.seqNo <= m
      ensures exists o :: o in O && o.key == k && q.seqNo <= o.seqNo <= m
    {
      var i :| i in p.inputs && i in ts && q in ts[i].recs;
      if r in X {
        assert q in RecsOf(ts, ts.Keys);
        assert r in Pending(s);
      } else {
        var h :| h in ts.Keys - p.inputs && r in ts[h].recs;
        RestAbove(ts, p, i, h);
        UseCapped(ts, m, i, h, q, r);
        var h2, o := CoverOf(ts, h, k, q.seqNo, m);
        if h2 in p.inputs {
          RestAbove(ts, p, h2, h);
        }
        assert o in RecsOf(ts, ts.Keys - p.inputs);
      }
    }
  }

  /** A bound somebody watches is one the running pass serves. */
  lemma WatchedIsServed(c: Config, s: State, m: nat)
    requires Inv(c, s) && s.pass.Running? && Watched(s.snaps, s.seqNo, m)
    ensures m >= s.pass.minKeep || forall r :: r in RecsOf(s.tables, s.pass.inputs) ==> r.seqNo <= m
  {
    hide HistoryInv, LogsInv, LiveInv, TablesInv, RecsOf;
    InputsAreOld(c, s);
  }

  /** The bounds whose reads a commit must not change. */
  ghost predicate Permitted(s: State, m: nat)
    requires s.pass.Running?
  {
    || Watched(s.snaps, s.seqNo, m)
    || (!s.leftover && (m >= s.pass.minKeep || forall r :: r in RecsOf(s.tables, s.pass.inputs) ==> r.seqNo <= m))
  }

  lemma DroppedIsShielded(c: Config, s: State, X: set<Record>, k: Key, m: nat)
    requires Inv(c, s) && s.pass.Running? && s.pass.bottom && Permitted(s, m)
    requires X <= s.mem.Values + ImmRecs(s.imm)
    ensures Shielded(X + RecsOf(s.tables, s.tables.Keys - s.pass.inputs), RecsOf(s.tables, s.pass.inputs), k, m)
  {
    hide Inv, RecsOf, ImmRecs;
    if Watched(s.snaps, s.seqNo, m) {
      OutsideIsShielded(c, s, X, k, m);
    } else {
      NothingOlderOutside(c, s, X);
    }
  }

  /**
   A commit changes no view at a bound that an open snapshot, an unbounded
   read or any later read uses; nor, while no output was ever left beside its
   inputs, at any bound that is at least `minKeep` or at least every input's Seq.
   */
  lemma CommitPreservesView(c: Config, s: State, step: Step, X: set<Record>, k: Key, m: nat)
    requires Inv(c, s) && step.Commit? && Enabled(c, s, step) && Permitted(s, m)
    requires X <= s.mem.Values + ImmRecs(s.imm)
    ensures var ts' := Apply(c, s, step).tables;
            View(X + RecsOf(ts', ts'.Keys), k, m) == View(X + RecsOf(s.tables, s.tables.Keys), k, m)
  {
    hide HistoryInv, LogsInv, TablesInv, LiveInv, View, OneVersion, RecsOf, ImmRecs, Kept, StrictlyOrdered, SnapshotsServed, Swapped, Shielded, Watched;
    var ts, p := s.tables, s.pass;
    var O, S := X + RecsOf(ts, ts.Keys - p.inputs), RecsOf(ts, p.inputs);
    InputsAndRest(ts, p.inputs);
    SwappedRecs(ts, p, step.out, step.size);
    StoredWasWritten(c, s);
    PartOneVersion(Stored(s), O + S);
    if p.bottom {
      DroppedIsShielded(c, s, X, k, m);
    }
    if Watched(s.snaps, s.seqNo, m) {
      WatchedIsServed(c, s, m);
    }
    CompactionPreservesView(O, S, p.minKeep, p.bottom, k, m);
    assert X + RecsOf(ts, ts.Keys) == O + S;
    var ts' := Swapped(ts, p, step.out, step.size);
    assert X + RecsOf(ts', ts'.Keys) == O + Kept(S, p.minKeep, p.bottom);
  }

  lemma OutputIsFromInputs(ts: Tables, p: Pass, out: seq<Record>)
    requires p.Running? && ToSet(out) == Kept(RecsOf(ts, p.inputs), p.minKeep, p.bottom)
    ensures FromInputs(ts, p, out)
  {
    hide Superseded, Dropped;
    forall r | r in out ensures exists i :: i in p.inputs && i in ts && r in ts[i].recs {
      assert r in ToSet(out);
      assert r in RecsOf(ts, p.inputs);
    }
  }

  lemma OutputKeepsNewest(c: Config, s: State, out: seq<Record>, x: nat)
    requires Inv(c, s) && s.pass.Running? && Watched(s.snaps, s.seqNo, x)
    requires ToSet(out) == Kept(RecsOf(s.tables, s.pass.inputs), s.pass.minKeep, s.pass.bottom)
    ensures KeepsNewest(s.tables, s.pass, out, x)
  {
    hide HistoryInv, LogsInv, LiveInv, TablesInv, SnapshotsServed, Kept, Watched;
    var ts, p := s.tables, s.pass;
    var S := RecsOf(ts, p.inputs);
    WatchedIsServed(c, s, x);
    forall i, q | i in p.inputs && i in ts && q in ts[i].recs && q.seqNo <= x
      ensures (exists t :: t in out && t.key == q.key && q.seqNo <= t.seqNo <= x)
              || (p.bottom && forall g :: g in ts ==> ts[g].level <= p.target)
    {
      assert q in S;
      KeptNewest(S, p.minKeep, p.bottom, q.key, x);
      if !Dropped(S, q.key, p.minKeep, p.bottom) {
        NewestExists(S, q.key, x, q);
        var t :| IsNewest(S, q.key, x, t);
        assert t in ToSet(out);
      }
    }
  }

  lemma CommitKeepsCapped(c: Config, s: State, step: Step)
    requires Inv(c, s) && step.Commit? && Enabled(c, s, step)
    ensures AllCapped(Apply(c, s, step).tables, s.snaps, s.seqNo)
  {
    hide HistoryInv, LogsInv, LiveInv, TablesInv, PassInv, Capped, FromInputs, KeepsNewest, PassLevels, Kept, RecsOf, StrictlyOrdered, Swapped, Watched;
    OutputIsFromInputs(s.tables, s.pass, step.out);
    PassLevelsHold(c, s);
    forall x | Watched(s.snaps, s.seqNo, x) ensures Capped(Apply(c, s, step).tables, x) {
      CappedAt(c, s, x);
      OutputKeepsNewest(c, s, step.out, x);
      CappedSwap(s.tables, s.pass, step.out, step.size, x);
    }
  }

  lemma CommitKeepsStratified(c: Config, s: State, step: Step)
    requires Inv(c, s) && step.Commit? && Enabled(c, s, step)
    ensures !s.leftover ==> Stratified(Apply(c, s, step).tables, !s.replayed)
  {
    hide HistoryInv, LogsInv, LiveInv, PassInv, OneTablePerDeepLevel, Kept, RecsOf, StrictlyOrdered, Flushed, AllCapped, Swapped, FromInputs, PassLevels, Under;
    if !s.leftover {
      PassLevelsHold(c, s);
      assert Mendable(s.tables, s.pass, !s.replayed);
      OutputIsFromInputs(s.tables, s.pass, step.out);
      StratifiedSwap(s.tables, s.pass, step.out, step.size, !s.replayed);
    }
  }

  lemma CommitKeepsTables(c: Config, s: State, step: Step)
    requires Inv(c, s) && step.Commit? && Enabled(c, s, step)
    ensures TablesInv(c, Apply(c, s, step))
  {
    hide HistoryInv, LogsInv, LiveInv, SnapshotsServed, Superseded, Dropped, Stratified, AllCapped, RecsOf, Flushed, StrictlyOrdered;
    var s' := Apply(c, s, step);
    SameLogs(s, s');
    CommitKeepsStratified(c, s, step);
    CommitKeepsCapped(c, s, step);
    InputsAndRest(s.tables, s.pass.inputs);
    SwappedRecs(s.tables, s.pass, step.out, step.size);
    assert !s.leftover ==> OneTablePerDeepLevel(s'.tables);
  }

  lemma CommitKeepsLive(c: Config, s: State, step: Step)
    requires Inv(c, s) && step.Commit? && Enabled(c, s, step)
    ensures LiveInv(Apply(c, s, step))
  {
    hide HistoryInv, LogsInv, TablesInv, View, RecsOf, ImmRecs, Kept, StrictlyOrdered, SnapshotsServed, Swapped;
    var s' := Apply(c, s, step);
    var X := s.mem.Values + ImmRecs(s.imm);
    HistoryBounds(s);
    forall k ensures Get(s', k, UNBOUNDED) == Answer(LastWrite(s'.hist, k)) {
      CommitPreservesView(c, s, step, X, k, UNBOUNDED);
      assert Stored(s) == X + RecsOf(s.tables, s.tables.Keys);
      assert Stored(s') == X + RecsOf(s'.tables, s'.tables.Keys);
      assert Get(s, k, UNBOUNDED) == Answer(LastWrite(s.hist, k));
    }
  }

  lemma CommitKeepsInv(c: Config, s: State, step: Step)
    requires Inv(c, s) && step.Commit? && Enabled(c, s, step)
    ensures Inv(c, Apply(c, s, step))
  {
    hide LogsInv, TablesInv, LiveInv, Kept, StrictlyOrdered, Swapped, Increasing;
    SameLogs(s, Apply(c, s, step));
    CommitKeepsTables(c, s, step);
    CommitKeepsLive(c, s, step);
  }
}
