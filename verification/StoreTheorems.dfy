/** What holds in every state of every run of the store. */
module StoreTheorems {
  import opened Bytes
  import opened Versions
  import opened History
  import opened Store
  import opened StoreFacts
  import opened StoreWrites
  import opened StoreCompaction
  import opened StoreRecovery

  // ---------- The invariant holds along every run ----------

  lemma SnapshotStepKeepsPass(c: Config, s: State, step: Step)
    requires Inv(c, s) && (step.OpenSnapshot? || step.CloseSnapshot?) && Enabled(c, s, step)
    ensures PassInv(c, Apply(c, s, step))
  {
    hide HistoryInv, LogsInv, TablesInv, LiveInv, RecsOf, PassTables;
    if s.pass.Running? {
      InputsAreOld(c, s);
    }
  }

  lemma SnapshotStepKeepsInv(c: Config, s: State, step: Step)
    requires Inv(c, s) && (step.OpenSnapshot? || step.CloseSnapshot?) && Enabled(c, s, step)
    ensures Inv(c, Apply(c, s, step))
    ensures Below(Apply(c, s, step)) == Below(s)
  {
    hide LogsInv, PassInv, View, ImmRecs, RecsOf, Stratified, AllCapped, Flushed, StrictlyOrdered, OneTablePerDeepLevel, Increasing;
    var s' := Apply(c, s, step);
    SameLogs(s, s');
    SnapshotStepKeepsPass(c, s, step);
    CappedFewer(s.tables, s.snaps, s.seqNo, s'.snaps, s.seqNo);
    assert Below(s') == Below(s);
  }

  lemma StepKeepsInv(c: Config, s: State, step: Step)
    requires Inv(c, s) && Enabled(c, s, step)
    ensures Inv(c, Apply(c, s, step))
  {
    hide Inv, Enabled, Apply;
    match step
    case Write(_, _, _) => WriteKeepsInv(c, s, step);
    case Rotate => RotateKeepsInv(c, s, step);
    case Register(_, _) => RegisterKeepsInv(c, s, step);
    case RemoveLog => RemoveLogKeepsInv(c, s, step);
    case Begin(_) => BeginKeepsInv(c, s, step);
    case Commit(_, _) => CommitKeepsInv(c, s, step);
    case OpenSnapshot => SnapshotStepKeepsInv(c, s, step);
    case CloseSnapshot(_) => SnapshotStepKeepsInv(c, s, step);
    case Crash(_, _, _, _, _, _, _) => CrashKeepsInv(c, s, step);
  }

  lemma NothingStored(s: State)
    requires s.mem == map[] && s.imm == [] && s.tables == map[]
    ensures Stored(s) == {} && RecsOf(s.tables, s.tables.Keys) == {}
    ensures forall k, m: nat {:trigger Get(s, k, m)} :: Get(s, k, m) == None
  {
    NoImmRecs();
    forall k, m: nat ensures Get(s, k, m) == None {
      assert forall r :: !IsNewest({}, k, m, r);
    }
  }

  lemma InitInv(c: Config, s: State)
    requires Sane(c) && Init(s)
    ensures Inv(c, s)
  {
    hide LogsInv, Flushed, Get, RecsOf, View;
    EmptyLogs(s);
    NothingStored(s);
    forall k ensures Get(s, k, UNBOUNDED) == Answer(LastWrite(s.hist, k)) {
    }
  }

  lemma {:induction false} RunKeepsInv(c: Config, run: seq<State>)
    requires IsRun(c, run) && Inv(c, run[0])
    ensures forall i :: 0 <= i < |run| ==> Inv(c, run[i])
  {
    hide Inv, Enabled, Apply;
    if |run| > 1 {
      var n := |run| - 1;
      RunKeepsInv(c, run[..n]);
      assert run[..n][n - 1] == run[n - 1];
      assert Next(c, run[n - 1], run[n - 1 + 1]);
      var step :| Enabled(c, run[n - 1], step) && run[n] == Apply(c, run[n - 1], step);
      StepKeepsInv(c, run[n - 1], step);
      forall i | 0 <= i < |run| ensures Inv(c, run[i]) {
        if i < n {
          assert run[..n][i] == run[i];
        }
      }
    }
  }

  /**
   Live reads refine the history: in every state of every run from an empty
   store, an unbounded Get of any key is what the last write to it says.
   */
  lemma LiveReadsFollowHistory(c: Config, run: seq<State>, i: nat, k: Key)
    requires Sane(c) && IsRun(c, run) && Init(run[0]) && i < |run|
    ensures Get(run[i], k, UNBOUNDED) == Answer(LastWrite(run[i].hist, k))
  {
    hide HistoryInv, LogsInv, TablesInv, PassInv, Next;
    InitInv(c, run[0]);
    RunKeepsInv(c, run);
  }

  // ---------- Stratification ----------

  lemma IncreasingSplit(a: seq<Record>, b: seq<Record>)
    requires Increasing(a + b)
    ensures Increasing(a) && Increasing(b)
    ensures forall r, q :: r in a && q in b ==> r.seqNo < q.seqNo
  {
    var h := a + b;
    forall i, j | 0 <= i < j < |b| ensures b[i].seqNo < b[j].seqNo {
      assert h[|a| + i] == b[i] && h[|a| + j] == b[j];
    }
    forall i, j | 0 <= i < j < |a| ensures a[i].seqNo < a[j].seqNo {
      assert h[i] == a[i] && h[j] == a[j];
    }
    forall r, q | r in a && q in b ensures r.seqNo < q.seqNo {
      var i :| 0 <= i < |a| && a[i] == r;
      var j :| 0 <= j < |b| && b[j] == q;
      assert h[i] == r && h[|a| + j] == q;
    }
  }

  lemma {:induction false} ImmLogsStratified(logs: map<nat, seq<Record>>, imm: seq<Imm>, i: nat, j: nat)
    requires Increasing(ImmLogs(logs, imm)) && i < j < |imm|
    ensures forall r, q :: r in LogOf(logs, imm[i].log) && q in LogOf(logs, imm[j].log) ==> r.seqNo < q.seqNo
  {
    hide Increasing;
    IncreasingSplit(LogOf(logs, imm[0].log), ImmLogs(logs, imm[1..]));
    if i == 0 {
      ImmLogsHold(logs, imm[1..], j - 1);
    } else {
      ImmLogsStratified(logs, imm[1..], i - 1, j - 1);
    }
  }

  /** Strictly below: every Seq of `A` under every Seq of `B`, whatever the keys. */
  ghost predicate AllBelow(A: set<Record>, B: set<Record>) {
    forall r, q :: r in A && q in B ==> r.seqNo < q.seqNo
  }

  /**
   In every reachable state: active memtable over immutable ones, later
   immutable ones over earlier ones, all memtables over all tables. Between
   tables: later flushes over earlier ones and each level over every deeper
   one, per key while no recovery has found a compaction's output beside its
   inputs (`leftover`), and strictly across keys while also no recovery has
   replayed the log of a memtable that was already a table (`replayed`);
   `TableOrder` has the exact conditions. At every bound somebody reads at, the
   cover property, always.
   */
  lemma SeqStratification(c: Config, run: seq<State>, n: nat)
    requires Sane(c) && IsRun(c, run) && Init(run[0]) && n < |run|
    ensures var s := run[n];
            && AllBelow(ImmRecs(s.imm), s.mem.Values)
            && (forall i, j :: 0 <= i < j < |s.imm| ==> AllBelow(s.imm[i].mem.Values, s.imm[j].mem.Values))
            && AllBelow(RecsOf(s.tables, s.tables.Keys), s.mem.Values + ImmRecs(s.imm))
            && (!s.leftover ==> Stratified(s.tables, !s.replayed))
            && AllCapped(s.tables, s.snaps, s.seqNo)
  {
    hide HistoryInv, LogsInv, PassInv, LiveInv, Next, Init, RecsOf, Under, StrictlyOrdered, OneTablePerDeepLevel, Flushed, AllBelow, AllCapped, Stratified;
    var s := run[n];
    InitInv(c, run[0]);
    RunKeepsInv(c, run);
    MemtablesStratified(c, s);
    forall i, j | 0 <= i < j < |s.imm| ensures AllBelow(s.imm[i].mem.Values, s.imm[j].mem.Values) {
      ImmutablesStratified(c, s, i, j);
    }
  }

  lemma MemtablesStratified(c: Config, s: State)
    requires Inv(c, s)
    ensures AllBelow(ImmRecs(s.imm), s.mem.Values)
    ensures AllBelow(RecsOf(s.tables, s.tables.Keys), s.mem.Values + ImmRecs(s.imm))
  {
    hide HistoryInv, TablesInv, PassInv, LiveInv, LogFilesInv, RecsOf, Flushed, Increasing, IsSuffix, Replay, ImmLogs;
    HistoryBounds(s);
    HistorySplits(s);
    TablesUnderMemtables(c, s);
    IncreasingSplit(Flushed(s), Pending(s));
    IncreasingSplit(ImmLogs(s.logs, s.imm), LogOf(s.logs, s.memLog));
    ReplayKeyed(LogOf(s.logs, s.memLog));
    forall r | r in ImmRecs(s.imm) ensures r in ImmLogs(s.logs, s.imm) {
      var i :| 0 <= i < |s.imm| && r in s.imm[i].mem.Values;
      ReplayKeyed(LogOf(s.logs, s.imm[i].log));
      ImmLogsHold(s.logs, s.imm, i);
    }
  }

  lemma ImmutablesStratified(c: Config, s: State, i: nat, j: nat)
    requires Inv(c, s) && i < j < |s.imm|
    ensures AllBelow(s.imm[i].mem.Values, s.imm[j].mem.Values)
  {
    hide HistoryInv, TablesInv, PassInv, LiveInv, LogFilesInv, Flushed, Increasing, IsSuffix, Replay, ImmLogs;
    HistoryBounds(s);
    HistorySplits(s);
    IncreasingSplit(Flushed(s), Pending(s));
    IncreasingSplit(ImmLogs(s.logs, s.imm), LogOf(s.logs, s.memLog));
    ImmLogsStratified(s.logs, s.imm, i, j);
    ReplayKeyed(LogOf(s.logs, s.imm[i].log));
    ReplayKeyed(LogOf(s.logs, s.imm[j].log));
  }

  // ---------- Recovery ----------

  /** From every reachable state, crashing and replaying the logs in file-name order changes no unbounded read. */
  lemma CrashLosesNothing(c: Config, run: seq<State>, i: nat, step: Step, k: Key)
    requires Sane(c) && IsRun(c, run) && Init(run[0]) && i < |run|
    requires step.Crash? && Recoverable(run[i], step) && LogsReadable(step.logs)
    ensures Get(Restored(run[i], step), k, UNBOUNDED) == Get(run[i], k, UNBOUNDED)
  {
    hide Inv, Next, Recoverable, Restored, Get, LastWrite;
    InitInv(c, run[0]);
    RunKeepsInv(c, run);
    RecoveryPreservesReads(c, run[i], step, k);
  }
}
