/** Leveled compaction: when a pass is due, that a chain of passes ends, and where it ends. */
module Levels {
  import opened Bytes
  import opened Versions
  import opened History
  import opened Sums
  import opened Store
  import opened StoreFacts
  import opened StoreTheorems
  import opened StoreCover
  import opened StoreCompaction
  import StoreWrites

  ghost predicate WithinTargets(c: Config, ts: Tables) {
    && |Level(ts, 0)| < c.l0Trigger
    && forall lvl :: 1 <= lvl <= c.maxLevels - 2 ==> SumSizes(ts, Level(ts, lvl)) <= TargetSize(c, lvl)
  }

  lemma {:induction false} PickFromNone(c: Config, ts: Tables, lvl: nat)
    ensures PickFrom(c, ts, lvl).None? <==>
            forall l :: lvl <= l <= c.maxLevels - 2 ==> SumSizes(ts, Level(ts, l)) <= TargetSize(c, l)
    decreases c.maxLevels - lvl
  {
    hide SumSizes, TargetSize, Level;
    if lvl + 1 < c.maxLevels {
      PickFromNone(c, ts, lvl + 1);
      NoSizeInEmptyLevel(ts, lvl);
    }
  }

  /** No pass is due exactly when level 0 is below its trigger and every middle level is within its target. */
  lemma PickNoneExact(c: Config, ts: Tables)
    ensures Pick(c, ts).None? <==> WithinTargets(c, ts)
  {
    hide SumSizes, TargetSize, Level;
    PickFromNone(c, ts, 1);
  }

  function Pow(b: nat, n: nat): nat {
    if n == 0 then 1 else Pow(b, n - 1) * b
  }

  lemma TimesAssociates(a: nat, b: nat, c: nat)
    ensures a * b * c == a * (b * c)
  {
  }

  /** Targets grow geometrically: the base size at level 1, times the multiplier for each level beyond it. */
  lemma {:induction false} TargetsAreGeometric(c: Config, lvl: nat)
    requires lvl >= 1
    ensures TargetSize(c, lvl) == c.baseSize * Pow(c.multiplier, lvl - 1)
  {
    if lvl > 1 {
      TargetsAreGeometric(c, lvl - 1);
      TimesAssociates(c.baseSize, Pow(c.multiplier, lvl - 2), c.multiplier);
    }
  }

  // ---------- Termination ----------

  /** A table weighs more the higher it sits. */
  function WeightOf(c: Config, ts: Tables): nat -> nat {
    g => if g in ts && ts[g].level <= c.maxLevels then c.maxLevels + 1 - ts[g].level else 0
  }

  ghost function Weight(c: Config, ts: Tables): nat {
    Sum(WeightOf(c, ts), ts.Keys)
  }

  lemma SwapLightens(c: Config, ts: Tables, p: Pass, out: seq<Record>, size: nat, g: nat)
    requires p.Running? && p.inputs <= ts.Keys && p.out !in ts && 1 <= p.target < c.maxLevels
    requires g in p.inputs && ts[g].level == p.target - 1
    ensures Weight(c, Swapped(ts, p, out, size)) < Weight(c, ts)
  {
    hide Sum;
    var ts' := Swapped(ts, p, out, size);
    var f, f' := WeightOf(c, ts), WeightOf(c, ts');
    var rest := ts.Keys - p.inputs;
    assert ts.Keys == p.inputs + rest;
    SumUnion(f, p.inputs, rest);
    SumPick(f, p.inputs, g);
    SumFrame(f, f', rest);
    if out == [] {
      assert ts'.Keys == rest;
    } else {
      assert ts'.Keys == rest + {p.out};
      SumUnion(f', rest, {p.out});
      SumOne(f', p.out);
    }
  }

  lemma SumOne(f: nat -> nat, x: nat)
    ensures Sum(f, {x}) == f(x)
  {
    SumPick(f, {x}, x);
    assert {x} - {x} == {};
  }

  /** A committed pass makes the store lighter, whatever it merged. */
  lemma CommitLightens(c: Config, s: State, step: Step)
    requires Inv(c, s) && step.Commit? && Enabled(c, s, step)
    ensures Weight(c, Apply(c, s, step).tables) < Weight(c, s.tables)
  {
    hide HistoryInv, LogsInv, LiveInv, TablesInv, SnapshotsServed, Kept, StrictlyOrdered, RecsOf, Swapped, Weight;
    var g :| g in s.pass.inputs && s.tables[g].level == s.pass.target - 1;
    SwapLightens(c, s.tables, s.pass, step.out, step.size, g);
  }

  /** A run together with the steps taken. */
  ghost predicate IsTrace(c: Config, run: seq<State>, steps: seq<Step>) {
    && |run| == |steps| + 1
    && forall i :: 0 <= i < |steps| ==> Enabled(c, run[i], steps[i]) && run[i + 1] == Apply(c, run[i], steps[i])
  }

  function Commits(steps: seq<Step>): nat {
    if steps == [] then 0 else Commits(steps[..|steps| - 1]) + if steps[|steps| - 1].Commit? then 1 else 0
  }

  lemma StepWeight(c: Config, s: State, step: Step)
    requires Inv(c, s) && Enabled(c, s, step) && !step.Register? && !step.Crash?
    ensures Weight(c, Apply(c, s, step).tables) + (if step.Commit? then 1 else 0) <= Weight(c, s.tables)
  {
    hide Inv, Weight;
    if step.Commit? {
      CommitLightens(c, s, step);
    }
  }

  /** With no new flushes, any run contains at most as many compactions as its first state weighs. */
  lemma {:induction false} CompactionChainEnds(c: Config, run: seq<State>, steps: seq<Step>)
    requires IsTrace(c, run, steps) && Inv(c, run[0])
    requires forall i :: 0 <= i < |steps| ==> !steps[i].Register? && !steps[i].Crash?
    ensures Commits(steps) + Weight(c, run[|run| - 1].tables) <= Weight(c, run[0].tables)
    ensures Inv(c, run[|run| - 1])
  {
    hide Inv, Weight, Enabled, Apply;
    if steps != [] {
      var n := |steps| - 1;
      CompactionChainEnds(c, run[..n + 1], steps[..n]);
      assert Enabled(c, run[n], steps[n]) && run[n + 1] == Apply(c, run[n], steps[n]);
      StepWeight(c, run[n], steps[n]);
      StepKeepsInv(c, run[n], steps[n]);
    }
  }

  /**
   From an empty start, every level below 0 always holds at most one table,
   unless a recovery found a compaction's output beside its inputs; none ever
   lies at maxLevels or deeper.
   */
  lemma DeepLevelsHoldOneTable(c: Config, run: seq<State>, i: nat, lvl: nat)
    requires Sane(c) && IsRun(c, run) && Init(run[0]) && i < |run| && lvl >= 1
    ensures !run[i].leftover ==> |Level(run[i].tables, lvl)| <= 1
    ensures lvl >= c.maxLevels ==> Level(run[i].tables, lvl) == {}
  {
    hide HistoryInv, LogsInv, PassInv, LiveInv, Stratified, AllCapped, RecsOf, StrictlyOrdered, Flushed, Next, Init;
    InitInv(c, run[0]);
    RunKeepsInv(c, run);
    var L := Level(run[i].tables, lvl);
    if !run[i].leftover && L != {} {
      var g :| g in L;
      assert L == {g};
    }
  }

  /**
   A crash keeps every level below 0 at one table or none if and only if it
   leaves no finished output, or the output's level held no table yet.
   */
  lemma OneTableAfterCrashExact(c: Config, s: State, step: Step)
    requires Inv(c, s) && OneTablePerDeepLevel(s.tables) && step.Crash? && Recoverable(s, step)
    ensures OneTablePerDeepLevel(Restored(s, step).tables) <==> (step.left.None? || Level(s.tables, s.pass.target) == {})
  {
    hide Inv, Recoverable, Restored;
    var ts, ts' := s.tables, Restored(s, step).tables;
    TablesAfterCrash(c, s, step);
    if step.left.Some? {
      var out, t := s.pass.out, s.pass.target;
      assert out in ts' && ts'[out].level == t;
      if Level(ts, t) != {} {
        var g :| g in Level(ts, t);
        assert g in ts' && g != out && ts'[g].level == ts'[out].level >= 1;
      } else {
        forall g | g in ts && ts[g].level == t ensures g in Level(ts, t) { }
        forall g, h | g in ts' && h in ts' && ts'[g].level == ts'[h].level && ts'[g].level >= 1 ensures g == h {
          assert g == out || g in ts;
          assert h == out || h in ts;
        }
      }
    }
  }

  lemma OnDiskShape(c: Config, s: State, left: Option<Table>)
    requires PassInv(c, s) && IsLeftover(s, left)
    ensures var ts, found, p := s.tables, OnDisk(s, left), s.pass;
            && (forall g :: g in ts ==> g in found && found[g] == ts[g])
            && (left.Some? ==> p.Running? && 1 <= p.target && p.out !in ts && p.out in found && found[p.out].level == p.target)
            && (forall g :: g in found && g !in ts ==> left.Some? && g == p.out)
  {
    hide RecsOf, Kept, SnapshotsServed, StrictlyOrdered;
  }

  /** A recovered store's tables: the old ones, the finished output if there is one, and at most one new in level 0. */
  lemma TablesAfterCrash(c: Config, s: State, step: Step)
    requires Inv(c, s) && step.Crash? && Recoverable(s, step)
    ensures var ts, ts', p := s.tables, Restored(s, step).tables, s.pass;
            && (forall g :: g in ts ==> g in ts' && ts'[g] == ts[g])
            && (step.left.Some? ==> p.Running? && 1 <= p.target && p.out !in ts && p.out in ts' && ts'[p.out].level == p.target)
            && (forall g :: g in ts' && g !in ts ==> ts'[g].level == 0 || (step.left.Some? && g == p.out))
  {
    hide HistoryInv, LogsInv, TablesInv, PassInv, LiveInv, ReplayOrder, Replayable, Replay, MaxSeq, IsLeftover, OnDisk, LogsOnDisk, IsFlushOf;
    OnDiskShape(c, s, step.left);
  }

  /** The recoveries that keep every deep level at one table or none. */
  ghost predicate KeepsLevels(s: State, step: Step) {
    step.Crash? && step.left.Some? && s.pass.Running? ==> Level(s.tables, s.pass.target) == {}
  }

  lemma OneTableAfterCommit(ts: Tables, p: Pass, out: seq<Record>, size: nat)
    requires PassLevels(ts, p)
    requires forall g, h :: g in ts && h in ts && ts[g].level == ts[h].level >= 1 && g != h ==> g in p.inputs && h in p.inputs
    ensures OneTablePerDeepLevel(Swapped(ts, p, out, size))
  {
  }

  /** Every step keeps one table per deep level, except exactly the recoveries that put a second one there. */
  lemma OneTableAfterStepExact(c: Config, s: State, step: Step)
    requires Inv(c, s) && Enabled(c, s, step) && OneTablePerDeepLevel(s.tables)
    ensures OneTablePerDeepLevel(Apply(c, s, step).tables) <==> KeepsLevels(s, step)
  {
    hide HistoryInv, LogsInv, TablesInv, PassInv, LiveInv, Pick, IsFlushOf, Kept, StrictlyOrdered, Replayable, LogsReadable, MaxSeq, Swapped, PassLevels, IsMaxGen, ReplayOrder, LogsOnDisk, OnDisk;
    if step.Crash? {
      OneTableAfterCrashExact(c, s, step);
    } else if step.Commit? {
      PassLevelsHold(c, s);
      OneTableAfterCommit(s.tables, s.pass, step.out, step.size);
    } else if step.Register? {
      GenerationsBounded(c, s);
      StoreWrites.OneTableWithFlush(s.tables, s.gen + 1, Table(0, step.recs, step.size));
    }
  }

  /** Along every run whose recoveries all meet the condition, each level below 0 holds at most one table. */
  lemma {:induction false} OneTableAlongRun(c: Config, run: seq<State>, steps: seq<Step>)
    requires Sane(c) && IsTrace(c, run, steps) && Init(run[0])
    requires forall i :: 0 <= i < |steps| ==> KeepsLevels(run[i], steps[i])
    ensures OneTablePerDeepLevel(run[|run| - 1].tables) && Inv(c, run[|run| - 1])
  {
    hide Inv, Enabled, Apply, KeepsLevels;
    if steps == [] {
      InitInv(c, run[0]);
    } else {
      var n := |steps| - 1;
      OneTableAlongRun(c, run[..n + 1], steps[..n]);
      assert Enabled(c, run[n], steps[n]) && run[n + 1] == Apply(c, run[n], steps[n]);
      OneTableAfterStepExact(c, run[n], steps[n]);
      StepKeepsInv(c, run[n], steps[n]);
    }
  }
}
