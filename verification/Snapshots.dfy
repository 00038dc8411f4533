/** What an open snapshot sees, for as long as it stays open. */
module Snapshots {
  import opened Bytes
  import opened Versions
  import opened History
  import opened Store
  import opened StoreFacts
  import opened StoreWrites
  import opened StoreCompaction
  import opened StoreRecovery
  import opened StoreTheorems

  /** The active memtable holds no version of `k` that a snapshot at `x` can see. */
  predicate MemClear(s: State, k: Key, x: nat) {
    k !in s.mem || s.mem[k].seqNo > x
  }

  /** The active memtable's version of `k`, if the snapshot sees one, says no more than what lies below it. */
  ghost predicate Settled(s: State, k: Key, x: nat) {
    MemClear(s, k, x) || Answer(Some(s.mem[k])) == View(Below(s), k, x)
  }

  /** At the moment it is opened, a snapshot answers every key from the history. */
  lemma SnapshotStartsAtHistory(c: Config, s: State, k: Key)
    requires Inv(c, s)
    ensures Get(s, k, s.seqNo) == Answer(LastWrite(s.hist, k))
  {
    hide HistoryInv, LogsInv, TablesInv, PassInv, Stored, LastWrite, OneVersion;
    StoredWasWritten(c, s);
    assert forall r :: IsNewest(Stored(s), k, s.seqNo, r) <==> IsNewest(Stored(s), k, UNBOUNDED, r);
    assert Newest(Stored(s), k, s.seqNo) == Newest(Stored(s), k, UNBOUNDED) by {
      if r :| IsNewest(Stored(s), k, s.seqNo, r) {
        NewestIs(Stored(s), k, s.seqNo, r);
        NewestIs(Stored(s), k, UNBOUNDED, r);
      }
    }
    assert Get(s, k, UNBOUNDED) == Answer(LastWrite(s.hist, k));
  }

  lemma ClearReadsBelow(c: Config, s: State, k: Key, x: nat)
    requires Inv(c, s) && MemClear(s, k, x)
    ensures Get(s, k, x) == View(Below(s), k, x)
  {
    hide HistoryInv, LogsInv, TablesInv, PassInv, LiveInv, Below, OneVersion, Newest;
    StoredWasWritten(c, s);
    MemtableKeyed(s);
    ViewOfKey(Stored(s), Below(s), k, x);
  }

  /** A version the snapshot sees in the active memtable is its answer. */
  lemma HeldIsTheAnswer(c: Config, s: State, k: Key, x: nat)
    requires Inv(c, s) && !MemClear(s, k, x)
    ensures Get(s, k, x) == Answer(Some(s.mem[k]))
  {
    hide HistoryInv, LogsInv, TablesInv, PassInv, LiveInv, ImmRecs, RecsOf, OneVersion;
    StoredWasWritten(c, s);
    MemtableKeyed(s);
    MemtablesStratified(c, s);
    assert s.mem[k] in s.mem.Values;
    assert IsNewest(Stored(s), k, x, s.mem[k]);
    NewestIs(Stored(s), k, x, s.mem[k]);
  }

  lemma SettledReadsBelow(c: Config, s: State, k: Key, x: nat)
    requires Inv(c, s)
    ensures Settled(s, k, x) <==> View(Below(s), k, x) == Get(s, k, x)
  {
    hide Inv, View, Get;
    if MemClear(s, k, x) {
      ClearReadsBelow(c, s, k, x);
    } else {
      HeldIsTheAnswer(c, s, k, x);
    }
  }

  /** A write of the same key makes the snapshot read what lies below; a write of another key changes nothing for it. */
  lemma WriteUnderSnapshot(c: Config, s: State, step: Step, k: Key, x: nat)
    requires Inv(c, s) && step.Write? && Enabled(c, s, step) && x <= s.seqNo
    ensures var s' := Apply(c, s, step);
            && Below(s') == Below(s)
            && (k == step.key ==> MemClear(s', k, x) && Get(s', k, x) == View(Below(s), k, x))
            && (k != step.key ==> Get(s', k, x) == Get(s, k, x))
  {
    hide HistoryInv, LogsInv, TablesInv, PassInv, LiveInv, ImmRecs, RecsOf, OneVersion, Newest;
    var s' := Apply(c, s, step);
    WriteKeepsInv(c, s, step);
    if k == step.key {
      ClearReadsBelow(c, s', k, x);
    } else {
      StoredWasWritten(c, s);
      MemtableKeyed(s);
      MemtableKeyed(s');
      ViewOfKey(Stored(s), Stored(s'), k, x);
    }
  }

  lemma CommitUnderSnapshot(c: Config, s: State, step: Step, k: Key, x: nat)
    requires Inv(c, s) && step.Commit? && Enabled(c, s, step) && x in s.snaps
    ensures var s' := Apply(c, s, step);
            Get(s', k, x) == Get(s, k, x) && View(Below(s'), k, x) == View(Below(s), k, x)
  {
    hide HistoryInv, LogsInv, TablesInv, LiveInv, ImmRecs, RecsOf, View, Kept, StrictlyOrdered, Swapped;
    var s' := Apply(c, s, step);
    CommitPreservesView(c, s, step, ImmRecs(s.imm), k, x);
    CommitPreservesView(c, s, step, s.mem.Values + ImmRecs(s.imm), k, x);
    assert Stored(s) == s.mem.Values + ImmRecs(s.imm) + RecsOf(s.tables, s.tables.Keys);
    assert Stored(s') == s.mem.Values + ImmRecs(s.imm) + RecsOf(s'.tables, s'.tables.Keys);
  }

  lemma SettledStep(c: Config, s: State, step: Step, k: Key, x: nat)
    requires Inv(c, s) && Enabled(c, s, step) && x in s.snaps && x in Apply(c, s, step).snaps
    requires Settled(s, k, x)
    ensures Settled(Apply(c, s, step), k, x)
    ensures Get(Apply(c, s, step), k, x) == Get(s, k, x)
  {
    hide HistoryInv, LogsInv, TablesInv, PassInv, LiveInv, Below, View, Settled, IsFlushOf, Kept, StrictlyOrdered, ReplayOrder, Replay;
    var s' := Apply(c, s, step);
    SnapshotsBounded(s);
    SettledReadsBelow(c, s, k, x);
    StepKeepsInv(c, s, step);
    SettledReadsBelow(c, s', k, x);
    match step
    case Write(_, _, _) => WriteUnderSnapshot(c, s, step, k, x);
      if k == step.key { ClearReadsBelow(c, s', k, x); }
    case Rotate => RotateKeepsInv(c, s, step); ClearReadsBelow(c, s', k, x);
    case Register(_, _) => RegisterKeepsInv(c, s, step);
    case RemoveLog => RemoveLogKeepsInv(c, s, step);
    case Begin(_) => BeginKeepsInv(c, s, step);
    case Commit(_, _) => CommitUnderSnapshot(c, s, step, k, x);
    case OpenSnapshot => SnapshotStepKeepsInv(c, s, step);
    case CloseSnapshot(_) => SnapshotStepKeepsInv(c, s, step);
    case Crash(_, _, _, _, _, _, _) =>
  }

  lemma SnapshotsBounded(s: State)
    requires HistoryInv(s)
    ensures forall x :: x in s.snaps ==> x <= s.seqNo
  {
  }

  /** A run throughout which a snapshot at `x` stays open. */
  ghost predicate HeldRun(c: Config, run: seq<State>, x: nat) {
    IsRun(c, run) && forall i :: 0 <= i < |run| ==> x in run[i].snaps
  }

  lemma {:induction false} SettledRun(c: Config, run: seq<State>, k: Key, x: nat)
    requires HeldRun(c, run, x) && Inv(c, run[0]) && Settled(run[0], k, x)
    ensures Settled(run[|run| - 1], k, x)
    ensures Get(run[|run| - 1], k, x) == Get(run[0], k, x)
  {
    hide Inv, Settled, Get, Enabled, Apply;
    if |run| > 1 {
      var n := |run| - 1;
      var front := run[..n];
      assert HeldRun(c, front, x);
      SettledRun(c, front, k, x);
      RunKeepsInv(c, run);
      assert Next(c, run[n - 1], run[n - 1 + 1]);
      var step :| Enabled(c, run[n - 1], step) && run[n] == Apply(c, run[n - 1], step);
      SettledStep(c, run[n - 1], step, k, x);
    }
  }

  /**
   Snapshot stability, exactly: a snapshot's answer for `k` survives every
   later run that keeps it open if and only if the active memtable
   contributes nothing to it now.
   */
  lemma SnapshotStability(c: Config, s: State, k: Key, x: nat)
    requires Inv(c, s) && x in s.snaps && k != [] && s.seqNo < UNBOUNDED
    ensures Settled(s, k, x) <==>
            forall run: seq<State> :: HeldRun(c, run, x) && run[0] == s ==> Get(run[|run| - 1], k, x) == Get(s, k, x)
  {
    hide HistoryInv, LogsInv, TablesInv, PassInv, LiveInv, Get, View, Below, Settled;
    if Settled(s, k, x) {
      forall run | HeldRun(c, run, x) && run[0] == s ensures Get(run[|run| - 1], k, x) == Get(s, k, x) {
        SettledRun(c, run, k, x);
      }
    } else {
      var step := Write(k, [], TYPE_VALUE);
      var s' := Apply(c, s, step);
      SnapshotsBounded(s);
      WriteUnderSnapshot(c, s, step, k, x);
      SettledReadsBelow(c, s, k, x);
      var run := [s, s'];
      assert Next(c, s, s');
      assert HeldRun(c, run, x);
      assert run[0] == s && Get(run[|run| - 1], k, x) != Get(s, k, x);
    }
  }

  /**
   A snapshot of a key that the active memtable does not hold answers, at
   every moment until it closes, what the history said when it was opened.
   */
  lemma SnapshotIsolation(c: Config, s: State, run: seq<State>, k: Key)
    requires Inv(c, s) && k !in s.mem
    requires HeldRun(c, run, s.seqNo) && run[0] == Apply(c, s, OpenSnapshot)
    ensures Get(run[|run| - 1], k, s.seqNo) == Answer(LastWrite(s.hist, k))
  {
    hide HistoryInv, LogsInv, TablesInv, PassInv, LiveInv, LastWrite, View, ImmRecs, RecsOf, IsRun;
    SnapshotStartsAtHistory(c, s, k);
    SnapshotStepKeepsInv(c, s, OpenSnapshot);
    SettledRun(c, run, k, s.seqNo);
  }

  /**
   A snapshot opened while a compaction is running, after it sampled its
   bound: every input record is old enough for it, and whenever the pass
   commits while the snapshot is open, its answers do not change.
   */
  lemma LateSnapshotLosesNothing(c: Config, s: State, run: seq<State>, step: Step, k: Key)
    requires Inv(c, s) && s.pass.Running?
    requires HeldRun(c, run, s.seqNo) && run[0] == Apply(c, s, OpenSnapshot)
    requires step.Commit? && Enabled(c, run[|run| - 1], step)
    ensures forall r :: r in RecsOf(s.tables, s.pass.inputs) ==> r.seqNo <= s.seqNo
    ensures Get(Apply(c, run[|run| - 1], step), k, s.seqNo) == Get(run[|run| - 1], k, s.seqNo)
  {
    hide Inv, Enabled, Apply, Get, RecsOf;
    InputsAreOld(c, s);
    assert Enabled(c, s, OpenSnapshot) by { SnapshotsAlwaysOpen(c, s); }
    SnapshotStepKeepsInv(c, s, OpenSnapshot);
    RunKeepsInv(c, run);
    CommitUnderSnapshot(c, run[|run| - 1], step, k, s.seqNo);
  }

  lemma SnapshotsAlwaysOpen(c: Config, s: State)
    ensures Enabled(c, s, OpenSnapshot)
  {
  }

  /** Written, snapshotted and overwritten inside one memtable, a key's snapshot answer is lost. */
  lemma OverwriteInMemtableMovesSnapshot(c: Config)
    requires Sane(c)
    ensures exists run: seq<State>, k: Key, x: nat ::
      && IsRun(c, run) && |run| == 4 && Init(run[0])
      && x in run[2].snaps && x in run[3].snaps
      && Get(run[2], k, x) == Some([7]) && Get(run[3], k, x) == None
  {
    hide HistoryInv, LogsInv, TablesInv, PassInv, View, Below, LiveInv;
    var k: Key := [1];
    var s0 := State(map[], 1, [], None, map[], 0, 1, multiset{}, map[1 := []], Idle, false, false, []);
    var s1 := Apply(c, s0, Write(k, [7], TYPE_VALUE));
    var s2 := Apply(c, s1, OpenSnapshot);
    var s3 := Apply(c, s2, Write(k, [8], TYPE_VALUE));
    InitInv(c, s0);
    StepKeepsInv(c, s0, Write(k, [7], TYPE_VALUE));
    StepKeepsInv(c, s1, OpenSnapshot);
    SnapshotStartsAtHistory(c, s2, k);
    LastWriteAfter([], Record(k, [7], TYPE_VALUE, 1), k);
    assert s2.hist == [] + [Record(k, [7], TYPE_VALUE, 1)];
    WriteUnderSnapshot(c, s2, Write(k, [8], TYPE_VALUE), k, 1);
    EmptyBelow(s2, k, 1);
    var run := [s0, s1, s2, s3];
    assert Next(c, run[0], run[1]) && Next(c, run[1], run[2]) && Next(c, run[2], run[3]);
    assert IsRun(c, run) && Init(run[0]) && 1 in run[2].snaps && 1 in run[3].snaps;
    assert Get(run[2], k, 1) == Some([7]) && Get(run[3], k, 1) == None;
  }

  lemma EmptyBelow(s: State, k: Key, x: nat)
    requires s.imm == [] && s.tables == map[]
    ensures View(Below(s), k, x) == None
  {
    NoImmRecs();
    assert Below(s) == {};
    assert forall r :: !IsNewest({}, k, x, r);
  }
}
