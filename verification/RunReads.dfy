/** What reads return along a run, said of the steps taken alone. */
module RunReads {
  import opened Bytes
  import opened Versions
  import opened History
  import opened Store
  import opened StoreRecovery
  import opened StoreTheorems
  import opened Snapshots
  import opened Levels

  predicate Writes(step: Step, k: Key) {
    step.Write? && step.key == k
  }

  lemma {:induction false} TraceIsRun(c: Config, run: seq<State>, steps: seq<Step>)
    requires IsTrace(c, run, steps)
    ensures IsRun(c, run)
  {
    hide Enabled, Apply;
    forall i | 0 <= i < |run| - 1 ensures Next(c, run[i], run[i + 1]) {
      assert Enabled(c, run[i], steps[i]) && run[i + 1] == Apply(c, run[i], steps[i]);
    }
  }

  lemma TraceInv(c: Config, run: seq<State>, steps: seq<Step>, n: nat)
    requires Sane(c) && IsTrace(c, run, steps) && Init(run[0]) && n < |run|
    ensures Inv(c, run[n])
  {
    hide Inv, IsTrace, IsRun, Init;
    TraceIsRun(c, run, steps);
    InitInv(c, run[0]);
    RunKeepsInv(c, run);
  }

  lemma HistoryOfStep(c: Config, s: State, step: Step)
    requires Enabled(c, s, step)
    ensures var s' := Apply(c, s, step);
            s'.hist == (if step.Write? then s.hist + [Record(step.key, step.value, step.typ, s.seqNo + 1)] else s.hist)
  {
    hide Pick, IsFlushOf, Kept, StrictlyOrdered, Swapped, Replayable, Recoverable, LogsReadable, MaxSeq, OnDisk;
  }

  /** The history's last write of `k` is the last step that wrote it. */
  lemma {:induction false} LastWriteIsLastStep(c: Config, run: seq<State>, steps: seq<Step>, i: nat, n: nat)
    requires IsTrace(c, run, steps) && i < n < |run| && steps[i].Write?
    requires forall j :: i < j < n ==> !Writes(steps[j], steps[i].key)
    ensures LastWrite(run[n].hist, steps[i].key).Some?
    ensures var r := LastWrite(run[n].hist, steps[i].key).value; r.typ == steps[i].typ && r.value == steps[i].value
    decreases n
  {
    hide Enabled, Apply;
    assert Enabled(c, run[n - 1], steps[n - 1]) && run[n - 1 + 1] == Apply(c, run[n - 1], steps[n - 1]);
    HistoryOfStep(c, run[n - 1], steps[n - 1]);
    var h := run[n - 1].hist;
    assert steps[n - 1].Write? ==> run[n].hist[..|run[n].hist| - 1] == h;
    if i < n - 1 {
      LastWriteIsLastStep(c, run, steps, i, n - 1);
    }
  }

  lemma {:induction false} NoWriteNoHistory(c: Config, run: seq<State>, steps: seq<Step>, n: nat, k: Key)
    requires IsTrace(c, run, steps) && Init(run[0]) && n < |run| && forall j :: 0 <= j < n ==> !Writes(steps[j], k)
    ensures LastWrite(run[n].hist, k).None?
    decreases n
  {
    hide Enabled, Apply;
    if n > 0 {
      assert Enabled(c, run[n - 1], steps[n - 1]) && run[n - 1 + 1] == Apply(c, run[n - 1], steps[n - 1]);
      HistoryOfStep(c, run[n - 1], steps[n - 1]);
      assert steps[n - 1].Write? ==> run[n].hist[..|run[n].hist| - 1] == run[n - 1].hist;
      NoWriteNoHistory(c, run, steps, n - 1, k);
    }
  }

  /**
   In every run from an empty store, a read with no bound returns the value
   of the last step that wrote the key, and nothing if that step deleted it.
   */
  lemma ReadsLastWriteOfRun(c: Config, run: seq<State>, steps: seq<Step>, i: nat, n: nat)
    requires Sane(c) && IsTrace(c, run, steps) && Init(run[0]) && i < n < |run| && steps[i].Write?
    requires forall j :: i < j < n ==> !Writes(steps[j], steps[i].key)
    ensures steps[i].typ == 1 || steps[i].typ == 2
    ensures Get(run[n], steps[i].key, 0xFFFF_FFFF_FFFF_FFFF) == if steps[i].typ == 1 then Some(steps[i].value) else None
  {
    hide Inv, Enabled, Apply, Get, LastWrite, IsRun, Init;
    StepEnabled(c, run, steps, i);
    LastWriteIsLastStep(c, run, steps, i, n);
    TraceIsRun(c, run, steps);
    LiveReadsFollowHistory(c, run, n, steps[i].key);
  }

  lemma StepEnabled(c: Config, run: seq<State>, steps: seq<Step>, i: nat)
    requires IsTrace(c, run, steps) && i < |steps|
    ensures steps[i].Write? ==> steps[i].typ == TYPE_VALUE || steps[i].typ == TYPE_TOMBSTONE
    ensures |run| == |steps| + 1
  {
    hide Pick, IsFlushOf, Kept, StrictlyOrdered, Recoverable, LogsReadable;
    assert Enabled(c, run[i], steps[i]);
  }

  /** A key no step wrote is not found. */
  lemma ReadsNothingUnwritten(c: Config, run: seq<State>, steps: seq<Step>, n: nat, k: Key)
    requires Sane(c) && IsTrace(c, run, steps) && Init(run[0]) && n < |run| && forall j :: 0 <= j < n ==> !Writes(steps[j], k)
    ensures Get(run[n], k, 0xFFFF_FFFF_FFFF_FFFF) == None
  {
    hide Inv, Enabled, Apply, Get, LastWrite, IsRun, Init;
    NoWriteNoHistory(c, run, steps, n, k);
    TraceIsRun(c, run, steps);
    LiveReadsFollowHistory(c, run, n, k);
  }

  // ---------- Seqs and snapshots ----------

  /** The number of writes among the first `n` steps. */
  function WriteCount(steps: seq<Step>, n: nat): nat
    requires n <= |steps|
  {
    if n == 0 then 0 else WriteCount(steps, n - 1) + if steps[n - 1].Write? then 1 else 0
  }

  lemma SeqOfStep(c: Config, s: State, step: Step)
    requires Enabled(c, s, step)
    ensures Apply(c, s, step).seqNo == s.seqNo + if step.Write? then 1 else 0
  {
    hide Pick, IsFlushOf, Kept, StrictlyOrdered, Swapped, Replayable, Recoverable, LogsReadable, MaxSeq, OnDisk;
  }

  lemma SnapsOfStep(c: Config, s: State, step: Step)
    requires Enabled(c, s, step)
    ensures Apply(c, s, step).snaps ==
            if step.Crash? then multiset{}
            else if step.OpenSnapshot? then s.snaps + multiset{s.seqNo}
            else if step.CloseSnapshot? then s.snaps - multiset{step.snap}
            else s.snaps
    ensures step.CloseSnapshot? ==> step.snap in s.snaps
  {
    hide Pick, IsFlushOf, Kept, StrictlyOrdered, Swapped, Replayable, Recoverable, LogsReadable, MaxSeq, OnDisk;
  }

  /** Every write takes the next Seq, across recoveries too. */
  lemma {:induction false} SeqCountsWrites(c: Config, run: seq<State>, steps: seq<Step>, n: nat)
    requires IsTrace(c, run, steps) && Init(run[0]) && n < |run|
    ensures run[n].seqNo == WriteCount(steps, n)
    decreases n
  {
    hide Enabled, Apply;
    if n > 0 {
      assert Enabled(c, run[n - 1], steps[n - 1]) && run[n - 1 + 1] == Apply(c, run[n - 1], steps[n - 1]);
      SeqOfStep(c, run[n - 1], steps[n - 1]);
      SeqCountsWrites(c, run, steps, n - 1);
    }
  }

  /** Snapshots opened after `x` writes and not yet closed; a crash ends them all. */
  function OpenCount(steps: seq<Step>, n: nat, x: nat): int
    requires n <= |steps|
  {
    if n == 0 then 0
    else
      var step := steps[n - 1];
      if step.Crash? then 0
      else if step.OpenSnapshot? && WriteCount(steps, n - 1) == x then OpenCount(steps, n - 1, x) + 1
      else if step == CloseSnapshot(x) then OpenCount(steps, n - 1, x) - 1
      else OpenCount(steps, n - 1, x)
  }

  lemma {:induction false} SnapshotsCounted(c: Config, run: seq<State>, steps: seq<Step>, n: nat, x: nat)
    requires IsTrace(c, run, steps) && Init(run[0]) && n < |run|
    ensures run[n].snaps[x] == OpenCount(steps, n, x)
    decreases n
  {
    hide Enabled, Apply, WriteCount;
    if n > 0 {
      assert Enabled(c, run[n - 1], steps[n - 1]) && run[n - 1 + 1] == Apply(c, run[n - 1], steps[n - 1]);
      SnapsOfStep(c, run[n - 1], steps[n - 1]);
      SnapshotsCounted(c, run, steps, n - 1, x);
      SeqCountsWrites(c, run, steps, n - 1);
    }
  }

  /**
   A snapshot opened at step `i` and not closed since: a key that the active
   memtable did not hold then reads, through it, as an ordinary read did then.
   */
  lemma SnapshotReadsItsMoment(c: Config, run: seq<State>, steps: seq<Step>, i: nat, n: nat, k: Key)
    requires Sane(c) && IsTrace(c, run, steps) && Init(run[0]) && i < n < |run|
    requires steps[i].OpenSnapshot? && k !in run[i].mem
    requires forall j :: i < j <= n ==> OpenCount(steps, j, WriteCount(steps, i)) > 0
    ensures Get(run[n], k, WriteCount(steps, i)) == Get(run[i], k, 0xFFFF_FFFF_FFFF_FFFF)
  {
    hide Inv, Get, LastWrite, Enabled, Apply, OpenCount, WriteCount;
    var x := WriteCount(steps, i);
    SeqCountsWrites(c, run, steps, i);
    TraceInv(c, run, steps, i);
    TraceIsRun(c, run, steps);
    var part := run[i + 1..n + 1];
    forall j | 0 <= j < |part| ensures x in part[j].snaps {
      SnapshotsCounted(c, run, steps, i + 1 + j, x);
    }
    PartOfRun(c, run, i + 1, n + 1);
    assert Enabled(c, run[i], steps[i]) && run[i + 1] == Apply(c, run[i], steps[i]);
    SnapshotIsolation(c, run[i], part, k);
    InvLive(c, run[i], k);
  }

  lemma PartOfRun(c: Config, run: seq<State>, a: nat, b: nat)
    requires IsRun(c, run) && a < b <= |run|
    ensures IsRun(c, run[a..b])
  {
    hide Next;
    var part := run[a..b];
    forall i | 0 <= i < |part| - 1 ensures Next(c, part[i], part[i + 1]) {
      assert Next(c, run[a + i], run[a + i + 1]);
    }
  }

  lemma InvLive(c: Config, s: State, k: Key)
    requires Inv(c, s)
    ensures Get(s, k, UNBOUNDED) == Answer(LastWrite(s.hist, k))
  {
    hide HistoryInv, LogsInv, TablesInv, PassInv, Get, LastWrite;
  }
}
