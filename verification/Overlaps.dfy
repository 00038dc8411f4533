/**
 Reads that overlap other steps. `getAt` and `scanAt` take the memtable, the
 immutable memtables and the tables under the lock and look into them later.
 A memtable changes as long as it is the active one and not after; immutable
 memtables and tables do not change. Such a read still answers, for all keys
 at once, as the store stood at one moment between the two.
 */
module Overlaps {
  import opened Bytes
  import opened Versions
  import opened History
  import opened Store
  import opened StoreFacts
  import opened StoreWrites
  import opened StoreCompaction
  import opened StoreTheorems
  import Levels

  /** The bound of a read that is open throughout: unbounded, or a snapshot that stays open. */
  ghost predicate Held(run: seq<State>, m: nat) {
    m == UNBOUNDED || forall i :: 0 <= i < |run| ==> m in run[i].snaps
  }

  /** A run without a crash, from the moment a read takes its parts. */
  ghost predicate IsReading(c: Config, run: seq<State>, steps: seq<Step>, m: nat) {
    Levels.IsTrace(c, run, steps) && (forall i :: 0 <= i < |steps| ==> !steps[i].Crash?) && Held(run, m)
  }

  /** The last moment at which the memtable taken at the start was still active. */
  function LastActive(run: seq<State>, n: nat): (f: nat)
    requires n < |run|
    ensures f <= n && run[f].memLog == run[0].memLog
  {
    if n == 0 || run[n].memLog == run[0].memLog then n else LastActive(run, n - 1)
  }

  /** What the memtable taken at the start holds at moment `n`: it is not written to once another is active. */
  function TakenMemtable(run: seq<State>, n: nat): MemTable
    requires n < |run|
  {
    run[LastActive(run, n)].mem
  }

  /** A read that took its parts at the start and looks into the memtable at moment `n`. */
  ghost function OverlappingRead(run: seq<State>, n: nat, k: Key, m: nat): Option<Bytes>
    requires n < |run|
  {
    View(TakenMemtable(run, n).Values + Below(run[0]), k, m)
  }

  // ---------- What stays the same while a memtable is active ----------

  lemma UnboundedIsWatched(c: Config, s: State)
    requires Inv(c, s)
    ensures Watched(s.snaps, s.seqNo, UNBOUNDED)
  {
    hide LogsInv, TablesInv, PassInv, LiveInv;
    HistoryBounds(s);
  }

  /** Below the active memtable, a step other than a rotation changes no open read. */
  lemma BelowViewStep(c: Config, s: State, step: Step, k: Key, m: nat)
    requires Inv(c, s) && Enabled(c, s, step) && !step.Crash? && !step.Rotate?
    requires m == UNBOUNDED || m in s.snaps
    ensures View(Below(Apply(c, s, step)), k, m) == View(Below(s), k, m)
    ensures Apply(c, s, step).memLog == s.memLog
  {
    hide HistoryInv, LogsInv, TablesInv, PassInv, LiveInv, View, ImmRecs, RecsOf, Kept, StrictlyOrdered, Swapped, IsFlushOf, Pick, SnapshotsServed;
    match step
    case Write(_, _, _) => assert Below(Apply(c, s, step)) == Below(s);
    case Register(_, _) => RegisterKeepsInv(c, s, step);
    case RemoveLog => RemoveLogKeepsInv(c, s, step);
    case Begin(_) => BeginKeepsInv(c, s, step);
    case Commit(_, _) =>
      UnboundedIsWatched(c, s);
      CommitPreservesView(c, s, step, ImmRecs(s.imm), k, m);
    case OpenSnapshot => SnapshotStepKeepsInv(c, s, step);
    case CloseSnapshot(_) => SnapshotStepKeepsInv(c, s, step);
  }

  lemma StepKeepsHistory(c: Config, s: State, step: Step)
    requires Enabled(c, s, step) && !step.Crash?
    ensures s.hist <= Apply(c, s, step).hist
    ensures step.Rotate? ==> Apply(c, s, step).memLog == s.gen + 1
    ensures !step.Rotate? ==> Apply(c, s, step).memLog == s.memLog
    ensures Apply(c, s, step).gen >= s.gen
  {
    hide Pick, IsFlushOf, Kept, StrictlyOrdered, Swapped;
  }

  lemma ActiveLogBound(c: Config, s: State)
    requires Inv(c, s)
    ensures s.memLog <= s.gen
  {
    hide HistoryInv, TablesInv, PassInv, LiveInv, MemtablesAreLogs, IsSuffix, Surviving;
  }

  /** Up to moment `f`, if the first memtable is active there, it was active all along. */
  lemma {:induction false} BelowViewAlong(c: Config, run: seq<State>, steps: seq<Step>, f: nat, k: Key, m: nat)
    requires IsReading(c, run, steps, m) && Inv(c, run[0]) && f < |run|
    ensures Inv(c, run[f]) && run[0].hist <= run[f].hist && run[0].memLog <= run[f].memLog
    ensures run[f].memLog == run[0].memLog ==> View(Below(run[f]), k, m) == View(Below(run[0]), k, m)
    decreases f
  {
    hide Inv, Enabled, Apply, View, Below;
    if f > 0 {
      var s, step := run[f - 1], steps[f - 1];
      BelowViewAlong(c, run, steps, f - 1, k, m);
      assert Enabled(c, s, step) && run[f - 1 + 1] == Apply(c, s, step);
      StepKeepsInv(c, s, step);
      StepKeepsHistory(c, s, step);
      ActiveLogBound(c, s);
      if !step.Rotate? {
        BelowViewStep(c, s, step, k, m);
      }
    }
  }

  // ---------- The read ----------

  lemma HistoryEndsWithActiveLog(s: State) returns (pre: seq<Record>)
    requires LogsInv(s)
    ensures s.hist == pre + LogOf(s.logs, s.memLog) && s.mem == Replay(map[], LogOf(s.logs, s.memLog))
  {
    hide LogFilesInv, IsSuffix, Surviving, Flushed, ImmLogs, Replay;
    HistorySplits(s);
    var a, log := ImmLogs(s.logs, s.imm), LogOf(s.logs, s.memLog);
    pre := Flushed(s) + a;
    assert Flushed(s) + (a + log) == pre + log;
  }

  /** The active memtable's version of a key is the history's last write of it. */
  lemma MemtableIsLast(s: State, k: Key)
    requires HistoryInv(s) && LogsInv(s) && k in s.mem
    ensures s.mem[k].key == k && s.mem[k] in s.hist
    ensures forall q :: q in s.hist && q.key == k ==> q.seqNo <= s.mem[k].seqNo
  {
    hide HistoryInv, LogsInv, Replay, LastWrite, Increasing;
    HistoryBounds(s);
    var pre := HistoryEndsWithActiveLog(s);
    var log := LogOf(s.logs, s.memLog);
    ReplayIsLastWrite(log, k);
    LastWriteOfSuffix(pre, log, k);
    LastWriteIsTop(s.hist, k);
  }

  /** Two stores' lower parts that agree on a view agree on it under the same memtable. */
  lemma SameOverlay(s: State, B: set<Record>, k: Key, m: nat)
    requires HistoryInv(s) && LogsInv(s) && B <= ToSet(s.hist)
    ensures OneVersion(s.mem.Values + B)
    ensures View(s.mem.Values + B, k, m) == if k in s.mem && s.mem[k].seqNo <= m then Answer(Some(s.mem[k])) else View(B, k, m)
  {
    hide HistoryInv, LogsInv, OneVersion, Increasing;
    HistoryBounds(s);
    MemtableKeyed(s);
    HistorySplits(s);
    HistoryOneVersion(s.hist, s.mem.Values + B);
    if k in s.mem && s.mem[k].seqNo <= m {
      MemtableIsLast(s, k);
      assert s.mem[k] in s.mem.Values;
      assert IsNewest(s.mem.Values + B, k, m, s.mem[k]);
      NewestIs(s.mem.Values + B, k, m, s.mem[k]);
    } else {
      ViewOfKey(s.mem.Values + B, B, k, m);
    }
  }

  lemma BelowWasWritten(c: Config, s: State)
    requires Inv(c, s)
    ensures Below(s) <= ToSet(s.hist)
  {
    hide HistoryInv, LogsInv, TablesInv, PassInv, LiveInv, RecsOf, ImmRecs, OneVersion;
    StoredWasWritten(c, s);
  }

  lemma InvHistoryLogs(c: Config, s: State)
    requires Inv(c, s)
    ensures HistoryInv(s) && LogsInv(s)
  {
    hide HistoryInv, LogsInv, TablesInv, PassInv, LiveInv;
  }

  /**
   A read that takes its parts at one moment and looks at them at a later one
   answers every key as the store stood at one moment in between, the same for
   all keys: the last at which the memtable it took was active.
   */
  lemma OverlappingReadIsAtomic(c: Config, run: seq<State>, steps: seq<Step>, n: nat, m: nat)
    requires IsReading(c, run, steps, m) && Inv(c, run[0]) && n < |run|
    ensures exists l :: 0 <= l <= n && forall k :: OverlappingRead(run, n, k, m) == Get(run[l], k, m)
  {
    hide Inv, IsReading, View, Below, LastActive;
    var f := LastActive(run, n);
    var s := run[f];
    forall k ensures OverlappingRead(run, n, k, m) == Get(s, k, m) {
      BelowViewAlong(c, run, steps, f, k, m);
      InvHistoryLogs(c, s);
      BelowWasWritten(c, run[0]);
      BelowWasWritten(c, s);
      assert ToSet(run[0].hist) <= ToSet(s.hist);
      SameOverlay(s, Below(run[0]), k, m);
      SameOverlay(s, Below(s), k, m);
    }
  }
}
