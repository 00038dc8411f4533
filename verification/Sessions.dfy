/**
 Across sessions: `Open` restores the Seq counter from logs alone, so a store
 whose logs are all gone (after a clean close, or with everything flushed)
 starts counting below Seqs its tables already hold. When is the first write
 of the new session visible?
 */
module Sessions {
  import opened Bytes
  import opened Versions
  import opened Store
  import opened StoreFacts
  import opened StoreRecovery
  import opened History
  import opened OrderRuns
  import opened EngineParts
  import opened EngineReads
  import Losses

  /** `getAt` over an empty queue of immutables: a read of `k` that meets `r` in the memtable and then looks into each table in turn. */
  ghost function ReadOver(r: Record, tables: seq<set<Record>>, k: Key, m: nat): Option<Record> {
    if tables == [] then Offer(None, Some(r), m)
    else Offer(ReadOver(r, tables[..|tables| - 1], k, m), Newest(tables[|tables| - 1], k, m), m)
  }

  /** No table holds a version of `k` newer than `r`. */
  ghost predicate Uncovered(r: Record, tables: seq<set<Record>>, k: Key, m: nat) {
    forall i, q :: 0 <= i < |tables| && q in tables[i] && q.key == k && q.seqNo <= m ==> q.seqNo <= r.seqNo
  }

  lemma UncoveredFront(r: Record, tables: seq<set<Record>>, k: Key, m: nat)
    requires tables != []
    ensures var n := |tables| - 1;
            Uncovered(r, tables, k, m) <==>
            Uncovered(r, tables[..n], k, m) && forall q :: q in tables[n] && q.key == k && q.seqNo <= m ==> q.seqNo <= r.seqNo
  {
    var n := |tables| - 1;
    if Uncovered(r, tables, k, m) {
      forall i, q | 0 <= i < n && q in tables[..n][i] && q.key == k && q.seqNo <= m ensures q.seqNo <= r.seqNo {
        assert q in tables[i];
      }
    }
    if Uncovered(r, tables[..n], k, m) && forall q :: q in tables[n] && q.key == k && q.seqNo <= m ==> q.seqNo <= r.seqNo {
      forall i, q | 0 <= i < |tables| && q in tables[i] && q.key == k && q.seqNo <= m ensures q.seqNo <= r.seqNo {
        if i < n {
          assert q in tables[..n][i];
        }
      }
    }
  }

  /**
   A write sitting in the memtable is what a read returns exactly when no
   table holds a version of its key with a greater Seq. The memtable is asked
   first and ties do not replace it.
   */
  lemma {:induction false} WriteVisibleExact(r: Record, tables: seq<set<Record>>, k: Key, m: nat)
    requires r.key == k && r.seqNo <= m
    ensures ReadOver(r, tables, k, m) == Some(r) <==> Uncovered(r, tables, k, m)
    ensures ReadOver(r, tables, k, m).Some? && r.seqNo <= ReadOver(r, tables, k, m).value.seqNo
    ensures ReadOver(r, tables, k, m) == Some(r) || r.seqNo < ReadOver(r, tables, k, m).value.seqNo
  {
    hide Newest, Uncovered;
    if tables == [] {
      assert Uncovered(r, [], k, m) by { NothingCovers(r, k, m); }
    } else {
      var n := |tables| - 1;
      WriteVisibleExact(r, tables[..n], k, m);
      UncoveredFront(r, tables, k, m);
      FoundIsNewest(tables[n], k, m);
    }
  }

  lemma NothingCovers(r: Record, k: Key, m: nat)
    ensures Uncovered(r, [], k, m)
  {
  }

  // ---------- The store that `Open` builds ----------

  /** The record sets of the listed tables. */
  ghost function TableSets(ts: Tables, gens: seq<nat>): (parts: seq<set<Record>>)
    ensures |parts| == |gens|
    ensures forall i :: 0 <= i < |gens| ==> parts[i] == (if gens[i] in ts then ToSet(ts[gens[i]].recs) else {})
  {
    seq(|gens|, i requires 0 <= i < |gens| => if gens[i] in ts then ToSet(ts[gens[i]].recs) else {})
  }

  lemma UncoveredByTables(r: Record, ts: Tables, gens: seq<nat>, k: Key, m: nat)
    requires ToSet(gens) == ts.Keys
    ensures Uncovered(r, TableSets(ts, gens), k, m) <==>
            forall q :: q in RecsOf(ts, ts.Keys) && q.key == k && q.seqNo <= m ==> q.seqNo <= r.seqNo
  {
    var parts := TableSets(ts, gens);
    if Uncovered(r, parts, k, m) {
      forall q | q in RecsOf(ts, ts.Keys) && q.key == k && q.seqNo <= m ensures q.seqNo <= r.seqNo {
        var g :| g in ts && q in ts[g].recs;
        assert g in ToSet(gens);
        var i :| 0 <= i < |gens| && gens[i] == g;
        assert q in parts[i];
      }
    }
    if forall q :: q in RecsOf(ts, ts.Keys) && q.key == k && q.seqNo <= m ==> q.seqNo <= r.seqNo {
      forall i: int, q: Record | 0 <= i < |parts| && q in parts[i] && q.key == k && q.seqNo <= m ensures q.seqNo <= r.seqNo {
        assert gens[i] in ToSet(gens);
        assert q in RecsOf(ts, ts.Keys);
      }
    }
  }

  /** Everything the recovered tables hold was written, and what was replayed is at most the restored counter. */
  lemma AfterReopening(c: Config, s: State, step: Step)
    requires Inv(c, s) && step.Crash? && Recoverable(s, step)
    ensures var s' := Restored(s, step); var T := RecsOf(s'.tables, s'.tables.Keys);
            && RecsOf(s.tables, s.tables.Keys) <= T
            && (forall q :: q in T ==> q.seqNo <= s.seqNo <= UNBOUNDED)
            && (forall q :: q in T ==> q in RecsOf(s.tables, s.tables.Keys) || q.seqNo <= s'.seqNo)
  {
    hide HistoryInv, LogsInv, TablesInv, PassInv, LiveInv, Recoverable, Replayable, RecsOf, Replay, OnDisk, OneVersion, MaxSeq;
    RestoredRecs(c, s, step);
    Losses.ReplayableIsHistory(s, step);
    ReplayKeyed(Replayable(step));
    TablesWereWritten(c, s);
    HistoryBounds(s);
    MaxSeqBounds(Replayable(step));
  }

  lemma {:induction false} MaxSeqBounds(recs: seq<Record>)
    ensures forall r :: r in recs ==> r.seqNo <= MaxSeq(recs)
  {
    if recs != [] {
      var n := |recs| - 1;
      MaxSeqBounds(recs[..n]);
      assert recs == recs[..n] + [recs[n]];
    }
  }

  /** When replay reads the logs to their ends, the restored counter is the old one, or 0 with everything stored in tables. */
  lemma CounterAfterReopening(c: Config, s: State, step: Step)
    requires Inv(c, s) && step.Crash? && Recoverable(s, step) && LogsReadable(step.logs)
    ensures Surviving(s) != [] ==> Restored(s, step).seqNo == s.seqNo
    ensures Surviving(s) == [] ==> Restored(s, step).seqNo == 0 && RecsOf(s.tables, s.tables.Keys) == Stored(s)
  {
    hide HistoryInv, LogsInv, TablesInv, PassInv, LiveInv, Recoverable, Surviving, Replayable, MaxSeq, RecsOf, OnDisk, LogsReadable;
    ReplayableIs(s, step);
    RecoveredSeq(s);
    if Surviving(s) == [] {
      NothingSurvives(s);
      NoImmRecs();
    }
  }

  /**
   Last write wins across sessions, exactly when it does: from any reachable
   state, crashed or closed at any moment, the n-th write after reopening,
   still in the memtable, is what a read of its key returns if and only if no
   table holds a version of that key with a Seq more than n above the restored
   counter. When replay reads the logs to their ends, that is: if and only if
   some log record survived or no stored version of the key has a Seq above n.
   */
  lemma WriteAfterReopenVisibleExact(c: Config, s: State, step: Step, gens: seq<nat>, n: nat, k: Key, v: Bytes, typ: byte)
    requires Inv(c, s) && step.Crash? && Recoverable(s, step)
    requires ToSet(gens) == Restored(s, step).tables.Keys
    requires n >= 1 && Restored(s, step).seqNo + n <= UNBOUNDED
    ensures var s' := Restored(s, step);
            var put := Record(k, v, typ, s'.seqNo + n);
            && (ReadOver(put, TableSets(s'.tables, gens), k, UNBOUNDED) == Some(put) <==>
                forall q :: q in RecsOf(s.tables, s.tables.Keys) && q.key == k ==> q.seqNo <= s'.seqNo + n)
            && (LogsReadable(step.logs) ==>
                (ReadOver(put, TableSets(s'.tables, gens), k, UNBOUNDED) == Some(put) <==>
                 (Surviving(s) != [] || forall q :: q in Stored(s) && q.key == k ==> q.seqNo <= n)))
  {
    hide Inv, Recoverable, Restored, Surviving, Stored, RecsOf, ReadOver, Uncovered, TableSets, LogsReadable;
    var s' := Restored(s, step);
    var put := Record(k, v, typ, s'.seqNo + n);
    AfterReopening(c, s, step);
    WriteVisibleExact(put, TableSets(s'.tables, gens), k, UNBOUNDED);
    UncoveredByTables(put, s'.tables, gens, k, UNBOUNDED);
    if LogsReadable(step.logs) {
      CounterAfterReopening(c, s, step);
    }
  }

  // ---------- A run in which it fails ----------

  const T2 := State(map[K := R2], 1, [], None, map[], 2, 1, multiset{}, map[1 := BOTH], Idle, false, false, BOTH)
  const T3 := State(map[], 2, [Imm(map[K := R2], 1)], None, map[], 2, 2, multiset{}, map[1 := BOTH, 2 := []], Idle, false, false, BOTH)
  const T4 := State(map[], 2, [], Some(1), map[3 := Table(0, [R2], 0)], 2, 3, multiset{}, map[1 := BOTH, 2 := []], Idle, false, false, BOTH)
  const T5 := State(map[], 2, [], None, map[3 := Table(0, [R2], 0)], 2, 3, multiset{}, map[2 := []], Idle, false, false, BOTH)

  /** As after a clean close: the one log left, empty, is gone too. */
  const REOPEN := Crash([], map[], [], 3, [], 0, None)

  lemma SecondWriteTaken(c: Config)
    ensures Takes(c, S1, Write(K, [8], TYPE_VALUE), T2)
  {
    assert [R1] + [R2] == BOTH;
    assert T2.logs == S1.logs[1 := BOTH] && T2.hist == S1.hist + [R2];
    assert T2.mem == S1.mem[K := R2];
  }

  lemma FlushTaken(c: Config)
    ensures Takes(c, T2, Rotate, T3) && Takes(c, T3, Register([R2], 0), T4) && Takes(c, T4, RemoveLog, T5)
  {
    hide IsFlushOf;
    FlushOfOne(R2);
    assert T2.mem != map[] by { assert K in T2.mem; }
    assert T3.imm == T2.imm + [Imm(T2.mem, 1)] && T3.logs == T2.logs[2 := []];
    assert T4.imm == T3.imm[1..];
    assert T5.logs == T4.logs - {1};
  }

  lemma NothingToReplay()
    ensures Recoverable(T5, REOPEN) && Restored(T5, REOPEN).seqNo == 0 && Restored(T5, REOPEN).tables == T5.tables
  {
    assert Replayable(REOPEN) == [];
    assert Replay(map[], []).Values == {};
    assert ToSet(REOPEN.order) == {};
  }

  lemma ReadMissesIt(put: Record)
    requires put.key == K && put.seqNo == 1
    ensures ReadOver(put, TableSets(T5.tables, [3]), K, UNBOUNDED) == Some(R2)
  {
    hide Newest;
    var parts := TableSets(T5.tables, [3]);
    assert parts[0] == ToSet([R2]) == {R2};
    assert IsNewest({R2}, K, UNBOUNDED, R2);
    NewestIs({R2}, K, UNBOUNDED, R2);
    assert parts[..0] == [];
    assert ReadOver(put, [], K, UNBOUNDED) == Some(put);
  }

  /** What a read of `k` returns when it was the first key put after reopening. */
  ghost function FirstPutRead(s: State, gens: seq<nat>, k: Key, v: Bytes): Option<Record> {
    ReadOver(Record(k, v, TYPE_VALUE, s.seqNo + 1), TableSets(s.tables, gens), k, UNBOUNDED)
  }

  /** A run from an empty store, a recovery from its last state, and a first Put of `v` that reads back as `was`. */
  ghost predicate HidesPut(c: Config, run: seq<State>, step: Step, gens: seq<nat>, k: Key, v: Bytes, was: Bytes) {
    && IsRun(c, run) && Init(run[0])
    && step.Crash? && Recoverable(run[|run| - 1], step)
    && ToSet(gens) == Restored(run[|run| - 1], step).tables.Keys
    && v != was && Answer(FirstPutRead(Restored(run[|run| - 1], step), gens, k, v)) == Some(was)
  }

  /**
   Two writes of one key, flushed and their log removed, which is also what a
   clean close leaves; after reopening, a Put of that key is not what Get returns.
   */
  lemma LostFirstWrite(c: Config)
    requires Sane(c)
    ensures exists run, step, gens :: HidesPut(c, run, step, gens, K, [9], [8])
  {
    hide Takes, IsRun, Recoverable, Restored, ReadOver, TableSets;
    FirstSteps(c);
    SecondWriteTaken(c);
    FlushTaken(c);
    NothingToReplay();
    assert IsRun(c, [S0]) by { RunOfOne(c, S0); }
    ExtendRun(c, [S0], Write(K, [7], TYPE_VALUE), S1);
    var run := [S0] + [S1];
    ExtendRun(c, run, Write(K, [8], TYPE_VALUE), T2);
    run := run + [T2];
    ExtendRun(c, run, Rotate, T3);
    run := run + [T3];
    ExtendRun(c, run, Register([R2], 0), T4);
    run := run + [T4];
    ExtendRun(c, run, RemoveLog, T5);
    run := run + [T5];
    ReadMissesIt(Record(K, [9], TYPE_VALUE, 1));
    assert ToSet([3]) == T5.tables.Keys;
    assert run[0] == S0 && run[|run| - 1] == T5 && REOPEN.Crash?;
    assert Answer(FirstPutRead(Restored(T5, REOPEN), [3], K, [9])) == Some([8]);
    assert HidesPut(c, run, REOPEN, [3], K, [9], [8]);
  }
}
