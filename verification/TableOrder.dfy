/**
 The order of tables by Seq, in its two forms (per key, and strict across
 keys): which steps keep it, exactly which recoveries break it, and that a
 commit over the broken place mends it.
 */
module TableOrder {
  import opened Bytes
  import opened Versions
  import opened History
  import opened Store
  import opened StoreFacts
  import opened StoreCover
  import opened StoreCompaction
  import opened StoreRecovery
  import opened StoreTheorems
  import Levels
  import StoreWrites

  // ---------- Logs replayed twice ----------

  /** The log whose memtable is already a table. */
  function ReplayedLog(s: State): seq<Record> {
    if s.unremoved.Some? then LogOf(s.logs, s.unremoved.value) else []
  }

  /** `q` is the write that replaying that log brings back for its key: later logs do not overwrite it. */
  predicate BroughtBack(s: State, q: Record) {
    LastWrite(ReplayedLog(s), q.key) == Some(q) && LastWrite(Pending(s), q.key).None?
  }

  /** No table still holds, of that log, a write as late as one that will be brought back. */
  ghost predicate NothingBroughtBackUnder(s: State) {
    forall q, r :: BroughtBack(s, q) && r in ReplayedLog(s) && r in RecsOf(s.tables, s.tables.Keys) ==> r.seqNo < q.seqNo
  }

  ghost predicate RecoveredAbove(s: State) {
    forall r, q :: r in RecsOf(s.tables, s.tables.Keys) && q in Replay(map[], Surviving(s)).Values ==> r.seqNo < q.seqNo
  }

  lemma HistoryParts(s: State) returns (pre: seq<Record>)
    requires LogsInv(s)
    ensures Surviving(s) == ReplayedLog(s) + Pending(s)
    ensures s.hist == pre + ReplayedLog(s) + Pending(s) && Flushed(s) == pre + ReplayedLog(s)
  {
    hide LogFilesInv, MemtablesAreLogs, ImmLogs;
    var n := |s.hist| - |Surviving(s)|;
    pre := s.hist[..n];
    assert s.hist == pre + Surviving(s);
    assert s.hist == pre + (ReplayedLog(s) + Pending(s)) == (pre + ReplayedLog(s)) + Pending(s);
  }

  /** A recovered record is a pending write, or brought back from the replayed log. */
  lemma RecoveredOrigin(s: State, q: Record)
    requires LogsInv(s) && q in Replay(map[], Surviving(s)).Values
    ensures q in Pending(s) || (BroughtBack(s, q) && q in ReplayedLog(s))
  {
    hide LogsInv, Replay, Pending, ReplayedLog;
    var pre := HistoryParts(s);
    ReplayKeyed(Surviving(s));
    KeyedValues(Replay(map[], Surviving(s)));
    ReplayIsLastWrite(Surviving(s), q.key);
    LastWriteOfSuffix(ReplayedLog(s), Pending(s), q.key);
    LastWriteFound(Pending(s), q.key);
    LastWriteFound(ReplayedLog(s), q.key);
  }

  lemma {:induction false} LastWriteFound(h: seq<Record>, k: Key)
    ensures LastWrite(h, k).Some? ==> LastWrite(h, k).value in h
  {
    if h != [] && h[|h| - 1].key != k {
      LastWriteFound(h[..|h| - 1], k);
    }
  }

  lemma BroughtBackIsRecovered(s: State, q: Record)
    requires LogsInv(s) && BroughtBack(s, q)
    ensures q in Replay(map[], Surviving(s)).Values
  {
    hide LogsInv, Replay, Pending, ReplayedLog;
    var pre := HistoryParts(s);
    ReplayIsLastWrite(Surviving(s), q.key);
    LastWriteOfSuffix(ReplayedLog(s), Pending(s), q.key);
  }

  lemma RecoveredAboveExact(c: Config, s: State)
    requires Inv(c, s)
    ensures RecoveredAbove(s) <==> NothingBroughtBackUnder(s)
  {
    hide HistoryInv, LogsInv, TablesInv, PassInv, LiveInv, RecsOf, Replay, Pending, ReplayedLog, BroughtBack, Surviving, Increasing, Flushed;
    HistoryBounds(s);
    TablesUnderMemtables(c, s);
    TablesWereFlushed(c, s);
    var pre := HistoryParts(s);
    IncreasingSplit(pre + ReplayedLog(s), Pending(s));
    IncreasingSplit(pre, ReplayedLog(s));
    if NothingBroughtBackUnder(s) {
      forall r, q | r in RecsOf(s.tables, s.tables.Keys) && q in Replay(map[], Surviving(s)).Values ensures r.seqNo < q.seqNo {
        RecoveredOrigin(s, q);
        assert r in ToSet(Flushed(s));
        assert r in pre || r in ReplayedLog(s);
      }
    }
    if RecoveredAbove(s) {
      forall q, r | BroughtBack(s, q) && r in ReplayedLog(s) && r in RecsOf(s.tables, s.tables.Keys) ensures r.seqNo < q.seqNo {
        BroughtBackIsRecovered(s, q);
      }
    }
  }

  // ---------- Outputs found beside their inputs ----------

  /** A finished output is nowhere newer than the upper inputs it lies under. */
  ghost predicate OutputUnder(s: State, left: Option<Table>, strict: bool) {
    left.Some? && s.pass.Running? ==>
      forall h, t, q ::
        h in s.pass.inputs && h in s.tables && s.tables[h].level == s.pass.target - 1 && t in left.value.recs && q in s.tables[h].recs
        ==> (strict ==> t.seqNo < q.seqNo) && (t.key == q.key ==> t.seqNo <= q.seqNo)
  }

  lemma OutputUnderOthers(ts: Tables, p: Pass, t: Table, strict: bool, g: nat, h: nat)
    requires Stratified(ts, strict) && PassLevels(ts, p) && t.level == p.target && FromInputs(ts, p, t.recs)
    requires g in ts && h in ts
    ensures h !in p.inputs && ts[h].level < p.target ==> Under(t.recs, ts[h].recs, strict)
    ensures ts[g].level > p.target ==> Under(ts[g].recs, t.recs, strict)
  {
    hide PassLevels;
    LevelsParts(ts, p);
    if h !in p.inputs && ts[h].level < p.target {
      forall r, q | r in t.recs && q in ts[h].recs ensures (strict ==> r.seqNo < q.seqNo) && (r.key == q.key ==> r.seqNo <= q.seqNo) {
        var i :| i in p.inputs && i in ts && r in ts[i].recs;
        RestAbove(ts, p, i, h);
        assert Under(ts[i].recs, ts[h].recs, strict);
      }
    }
    if ts[g].level > p.target {
      forall r, q | r in ts[g].recs && q in t.recs ensures (strict ==> r.seqNo < q.seqNo) && (r.key == q.key ==> r.seqNo <= q.seqNo) {
        var i :| i in p.inputs && i in ts && q in ts[i].recs;
        assert Older(ts, g, i);
        assert Under(ts[g].recs, ts[i].recs, strict);
      }
    }
  }

  lemma LeftoverOrderExact(ts: Tables, p: Pass, t: Table, strict: bool)
    requires Stratified(ts, strict) && PassLevels(ts, p) && t.level == p.target && FromInputs(ts, p, t.recs)
    ensures Stratified(ts[p.out := t], strict) <==>
            forall h :: h in p.inputs && h in ts && ts[h].level == p.target - 1 ==> Under(t.recs, ts[h].recs, strict)
  {
    hide PassLevels, FromInputs, Under;
    LevelsParts(ts, p);
    var ts' := ts[p.out := t];
    if Stratified(ts', strict) {
      forall h | h in p.inputs && h in ts && ts[h].level == p.target - 1 ensures Under(t.recs, ts[h].recs, strict) {
        assert Older(ts', p.out, h);
      }
    }
    if forall h :: h in p.inputs && h in ts && ts[h].level == p.target - 1 ==> Under(t.recs, ts[h].recs, strict) {
      forall g, h | g in ts' && h in ts' && Older(ts', g, h) ensures Under(ts'[g].recs, ts'[h].recs, strict) {
        if g == p.out {
          OutputUnderOthers(ts, p, t, strict, h, h);
        } else if h == p.out {
          OutputUnderOthers(ts, p, t, strict, g, g);
        } else {
          assert Older(ts, g, h);
        }
      }
    }
  }

  lemma OnDiskOrderExact(c: Config, s: State, left: Option<Table>, strict: bool)
    requires PassInv(c, s) && IsLeftover(s, left) && Stratified(s.tables, strict)
    ensures Stratified(OnDisk(s, left), strict) <==> OutputUnder(s, left, strict)
  {
    hide PassInv, Stratified, Kept, RecsOf, StrictlyOrdered, PassLevels, FromInputs;
    if left.Some? {
      PassLevelsHold(c, s);
      OutputIsFromInputs(s.tables, s.pass, left.value.recs);
      LeftoverOrderExact(s.tables, s.pass, left.value, strict);
    }
  }

  // ---------- A new newest table ----------

  lemma NewestOrderExact(ts: Tables, n: nat, t: Table, strict: bool)
    requires t.level == 0 && forall g :: g in ts ==> g < n
    ensures Stratified(ts[n := t], strict) <==> Stratified(ts, strict) && forall g :: g in ts ==> Under(ts[g].recs, t.recs, strict)
  {
    hide Under;
    var ts' := ts[n := t];
    if Stratified(ts', strict) {
      forall g, h | g in ts && h in ts && Older(ts, g, h) ensures Under(ts[g].recs, ts[h].recs, strict) {
        assert Older(ts', g, h);
      }
      forall g | g in ts ensures Under(ts[g].recs, t.recs, strict) {
        assert Older(ts', g, n);
      }
    }
    if Stratified(ts, strict) && forall g :: g in ts ==> Under(ts[g].recs, t.recs, strict) {
      forall g, h | g in ts' && h in ts' && Older(ts', g, h) ensures Under(ts'[g].recs, ts'[h].recs, strict) {
        if h != n {
          assert Older(ts, g, h);
        }
      }
    }
  }

  lemma UnderAll(ts: Tables, recs: seq<Record>, strict: bool)
    ensures (forall g :: g in ts ==> Under(ts[g].recs, recs, strict)) <==>
            forall r, q :: r in RecsOf(ts, ts.Keys) && q in recs ==> (strict ==> r.seqNo < q.seqNo) && (r.key == q.key ==> r.seqNo <= q.seqNo)
  {
    if forall g :: g in ts ==> Under(ts[g].recs, recs, strict) {
      forall r, q | r in RecsOf(ts, ts.Keys) && q in recs ensures (strict ==> r.seqNo < q.seqNo) && (r.key == q.key ==> r.seqNo <= q.seqNo) {
        var g :| g in ts && r in ts[g].recs;
        assert Under(ts[g].recs, recs, strict);
      }
    }
    if forall r, q :: r in RecsOf(ts, ts.Keys) && q in recs ==> (strict ==> r.seqNo < q.seqNo) && (r.key == q.key ==> r.seqNo <= q.seqNo) {
      forall g | g in ts ensures Under(ts[g].recs, recs, strict) {
        forall r, q | r in ts[g].recs && q in recs ensures (strict ==> r.seqNo < q.seqNo) && (r.key == q.key ==> r.seqNo <= q.seqNo) {
          assert r in RecsOf(ts, ts.Keys);
        }
      }
    }
  }

  // ---------- Recoveries ----------

  /** The recovered table lies over everything found, per key always, strictly if the replay brings nothing back under a table. */
  lemma RecoveredOrderExact(c: Config, s: State, step: Step, strict: bool)
    requires Inv(c, s) && step.Crash? && Recoverable(s, step) && LogsReadable(step.logs)
    ensures var found := OnDisk(s, step.left);
            (forall g :: g in found ==> Under(found[g].recs, step.recovered, strict)) <==> (strict ==> NothingBroughtBackUnder(s))
  {
    hide HistoryInv, LogsInv, TablesInv, PassInv, LiveInv, ReplayOrder, IsMaxGen, Replayable, Replay, Surviving, StrictlyOrdered, Under, RecsOf,
         IsLeftover, OnDisk, LogsOnDisk, LogsReadable, NothingBroughtBackUnder;
    var found := OnDisk(s, step.left);
    OnDiskRecs(c, s, step.left);
    UnderAll(found, step.recovered, strict);
    RecoveredIsOnTop(c, s, step);
    ReplayableIs(s, step);
    RecoveredAboveExact(c, s);
    assert forall q :: q in step.recovered <==> q in ToSet(step.recovered);
  }

  /**
   A recovery keeps the order of tables if and only if a finished output it
   finds is nowhere newer than the upper inputs it lies under and, for the
   strict order, no table still holds a write as late as one that replaying a
   log not yet removed brings back.
   */
  lemma OrderAfterCrashExact(c: Config, s: State, step: Step, strict: bool)
    requires Inv(c, s) && step.Crash? && Recoverable(s, step) && LogsReadable(step.logs) && Stratified(s.tables, strict)
    ensures Stratified(Restored(s, step).tables, strict) <==> OutputUnder(s, step.left, strict) && (strict ==> NothingBroughtBackUnder(s))
    ensures s.unremoved.None? ==> NothingBroughtBackUnder(s)
  {
    hide HistoryInv, LogsInv, TablesInv, PassInv, LiveInv, ReplayOrder, Replayable, MaxSeq, StrictlyOrdered, Under, Stratified, Replay,
         IsLeftover, OnDisk, LogsOnDisk, LogsReadable, OutputUnder;
    var found := OnDisk(s, step.left);
    OnDiskOrderExact(c, s, step.left, strict);
    RecoveredOrderExact(c, s, step, strict);
    if step.recovered != [] {
      NewestOrderExact(found, step.maxGen + 1, Table(0, step.recovered, step.size), strict);
    } else {
      assert forall g :: g in found ==> Under(found[g].recs, [], strict) by { NothingAbove(found, strict); }
    }
  }

  lemma NothingAbove(ts: Tables, strict: bool)
    ensures forall g :: g in ts ==> Under(ts[g].recs, [], strict)
  {
  }

  // ---------- Every step ----------

  lemma RegisterOrder(c: Config, s: State, step: Step, strict: bool)
    requires Inv(c, s) && step.Register? && Enabled(c, s, step) && Stratified(s.tables, strict)
    ensures Stratified(Apply(c, s, step).tables, strict)
  {
    hide HistoryInv, LogsInv, PassInv, LiveInv, TablesInv, Pending, StrictlyOrdered, RecsOf, Under, Stratified;
    StoreWrites.RegisterMovesLog(c, s, step);
    TablesUnderMemtables(c, s);
    StoreWrites.OldestIsItsLog(s);
    forall q | q in step.recs ensures q in Pending(s) {
      assert q in ToSet(step.recs);
    }
    UnderAll(s.tables, step.recs, strict);
    GenerationsBounded(c, s);
    NewestOrderExact(s.tables, s.gen + 1, Table(0, step.recs, step.size), strict);
  }

  lemma CommitOrder(c: Config, s: State, step: Step, strict: bool)
    requires Inv(c, s) && step.Commit? && Enabled(c, s, step) && Mendable(s.tables, s.pass, strict)
    ensures Stratified(Apply(c, s, step).tables, strict)
  {
    hide HistoryInv, LogsInv, LiveInv, PassInv, TablesInv, Kept, RecsOf, StrictlyOrdered, Stratified, Swapped, FromInputs, PassLevels, Mendable;
    PassLevelsHold(c, s);
    OutputIsFromInputs(s.tables, s.pass, step.out);
    StratifiedSwap(s.tables, s.pass, step.out, step.size, strict);
  }

  /** What a recovery must meet for the order of tables to outlast it. */
  ghost predicate KeepsOrder(s: State, step: Step, strict: bool) {
    step.Crash? ==> OutputUnder(s, step.left, strict) && (strict ==> NothingBroughtBackUnder(s))
  }

  /** Every step keeps the order of tables, except exactly the recoveries that do not meet the condition. */
  lemma OrderAfterStepExact(c: Config, s: State, step: Step, strict: bool)
    requires Inv(c, s) && Enabled(c, s, step) && Stratified(s.tables, strict)
    ensures Stratified(Apply(c, s, step).tables, strict) <==> KeepsOrder(s, step, strict)
  {
    hide Inv, Stratified, OutputUnder, NothingBroughtBackUnder, Recoverable, LogsReadable, Replayable, MaxSeq, Pick, Kept, StrictlyOrdered;
    if step.Register? {
      RegisterOrder(c, s, step, strict);
    } else if step.Commit? {
      MendableIfOrdered(s.tables, s.pass, strict);
      CommitOrder(c, s, step, strict);
    } else if step.Crash? {
      OrderAfterCrashExact(c, s, step, strict);
    }
  }

  lemma MendableIfOrdered(ts: Tables, p: Pass, strict: bool)
    requires Stratified(ts, strict) && p.Running?
    ensures Mendable(ts, p, strict)
  {
    hide Under;
  }

  /** Along every run whose recoveries all meet the condition, the tables stay ordered, level by level and flush by flush. */
  lemma {:induction false} OrderAlongRun(c: Config, run: seq<State>, steps: seq<Step>, strict: bool)
    requires Sane(c) && Levels.IsTrace(c, run, steps) && Init(run[0])
    requires forall i :: 0 <= i < |steps| ==> KeepsOrder(run[i], steps[i], strict)
    ensures Stratified(run[|run| - 1].tables, strict) && Inv(c, run[|run| - 1])
  {
    hide Inv, Enabled, Apply, KeepsOrder, Stratified;
    if steps == [] {
      InitInv(c, run[0]);
      assert Stratified(run[0].tables, strict) by { NoTablesOrdered(run[0].tables, strict); }
    } else {
      var n := |steps| - 1;
      OrderAlongRun(c, run[..n + 1], steps[..n], strict);
      assert Enabled(c, run[n], steps[n]) && run[n + 1] == Apply(c, run[n], steps[n]);
      OrderAfterStepExact(c, run[n], steps[n], strict);
      StepKeepsInv(c, run[n], steps[n]);
    }
  }

  lemma NoTablesOrdered(ts: Tables, strict: bool)
    requires ts == map[]
    ensures Stratified(ts, strict)
  {
  }
}
