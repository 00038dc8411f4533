/**
 Replay stops silently at a log record longer than 512 MiB, and with it goes
 the rest of that log. What exactly a recovery then loses.
 */
module Losses {
  import opened Bytes
  import opened Versions
  import opened History
  import opened Store
  import opened StoreFacts
  import opened StoreRecovery
  import opened StoreTheorems
  import W = Wal

  /** `r` stands in a log file before the first record that replay cannot read. */
  ghost predicate InReadablePart(logs: map<nat, seq<Record>>, r: Record) {
    exists g :: g in logs && r in Readable(logs[g])
  }

  lemma {:induction false} ConcatMember(logs: map<nat, seq<Record>>, order: seq<nat>, r: Record)
    ensures r in Concat(logs, order) <==> exists g :: g in order && r in LogOf(logs, g)
  {
    if order != [] {
      ConcatMember(logs, order[1..], r);
      assert order == [order[0]] + order[1..];
    }
  }

  lemma ReplayableMember(step: Step, r: Record)
    requires step.Crash? && ToSet(step.order) == step.logs.Keys
    ensures r in Replayable(step) <==> InReadablePart(step.logs, r)
  {
    hide Concat, Readable;
    var cut := ReadableLogs(step.logs);
    ConcatMember(cut, step.order, r);
    if r in Replayable(step) {
      var g :| g in step.order && r in LogOf(cut, g);
      assert g in step.logs;
    }
    if InReadablePart(step.logs, r) {
      var g :| g in step.logs && r in Readable(step.logs[g]);
      assert g in ToSet(step.order);
      assert r in LogOf(cut, g);
    }
  }

  lemma PrefixIncreasing(a: seq<Record>, n: nat)
    requires Increasing(a) && n <= |a|
    ensures Increasing(a[..n])
  {
  }

  lemma IncreasingJoin(a: seq<Record>, b: seq<Record>)
    requires Increasing(a) && Increasing(b) && forall r, q :: r in a && q in b ==> r.seqNo < q.seqNo
    ensures Increasing(a + b)
  {
    var h := a + b;
    forall i, j | 0 <= i < j < |h| ensures h[i].seqNo < h[j].seqNo {
      if i < |a| <= j {
        assert h[i] in a && h[j] in b;
      }
    }
  }

  /** Cutting each log short keeps the order of writes. */
  lemma {:induction false} CutConcat(logs: map<nat, seq<Record>>, order: seq<nat>)
    requires Increasing(Concat(logs, order))
    ensures Increasing(Concat(ReadableLogs(logs), order))
    ensures forall r :: r in Concat(ReadableLogs(logs), order) ==> r in Concat(logs, order)
  {
    hide Increasing;
    if order == [] {
      assert Concat(ReadableLogs(logs), []) == Concat(logs, []);
    } else {
      var g, rest := order[0], order[1..];
      var a, b := LogOf(logs, g), Concat(logs, rest);
      var a', b' := LogOf(ReadableLogs(logs), g), Concat(ReadableLogs(logs), rest);
      IncreasingSplit(a, b);
      CutConcat(logs, rest);
      assert a' == a[..|a'|];
      PrefixIncreasing(a, |a'|);
      assert forall r :: r in a' ==> r in a;
      IncreasingJoin(a', b');
    }
  }

  /** What `Open` can replay is a part of the history, in order. */
  lemma ReplayableIsHistory(s: State, step: Step)
    requires HistoryInv(s) && LogsInv(s) && step.Crash? && Recoverable(s, step)
    ensures Increasing(Replayable(step))
    ensures forall r :: r in Replayable(step) ==> r in s.hist
  {
    hide HistoryInv, LogFilesInv, MemtablesAreLogs, Surviving, ReplayOrder, IsMaxGen, IsFlushOf, LogsOnDisk, IsLeftover, OnDisk, Concat, Increasing, ReadableLogs;
    NameOrderReplaysHistoryTail(s, step.dir, step.logs, step.order);
    HistoryBounds(s);
    var n := |s.hist| - |Surviving(s)|;
    assert s.hist == s.hist[..n] + Surviving(s);
    IncreasingSplit(s.hist[..n], Surviving(s));
    CutConcat(step.logs, step.order);
  }

  /** The last write of a key, if replay reaches it, is what replay leaves in the memtable. */
  lemma ReachedIsRecovered(s: State, step: Step, k: Key)
    requires HistoryInv(s) && LogsInv(s) && step.Crash? && Recoverable(s, step)
    requires LastWrite(s.hist, k).Some? && LastWrite(s.hist, k).value in Replayable(step)
    ensures LastWrite(s.hist, k).value in Replay(map[], Replayable(step)).Values
  {
    hide HistoryInv, LogsInv, Recoverable, Replayable, Replay, LastWrite, Increasing;
    var L, P := LastWrite(s.hist, k).value, Replayable(step);
    HistoryBounds(s);
    ReplayableIsHistory(s, step);
    LastWriteIsTop(s.hist, k);
    LastWriteIsTop(P, k);
    var M := LastWrite(P, k).value;
    assert M.seqNo == L.seqNo;
    HistoryOneVersion(s.hist, ToSet(s.hist));
    assert M == L;
    ReplayIsLastWrite(P, k);
  }

  lemma RestoredWasWritten(c: Config, s: State, step: Step)
    requires Inv(c, s) && step.Crash? && Recoverable(s, step)
    ensures Stored(Restored(s, step)) == RecsOf(s.tables, s.tables.Keys) + Replay(map[], Replayable(step)).Values
    ensures Stored(Restored(s, step)) <= ToSet(s.hist) && OneVersion(Stored(Restored(s, step)))
  {
    hide HistoryInv, LogsInv, TablesInv, PassInv, LiveInv, Recoverable, Replayable, Replay, RecsOf, OnDisk, MaxSeq, Increasing, OneVersion;
    RestoredRecs(c, s, step);
    NoImmRecs();
    ReplayableIsHistory(s, step);
    ReplayKeyed(Replayable(step));
    TablesWereWritten(c, s);
    HistoryBounds(s);
    HistoryOneVersion(s.hist, Stored(Restored(s, step)));
  }

  /**
   What a recovery keeps, exactly: the newest recovered version of a key is its
   last write if and only if that write lies in a table or in the readable
   part of a log found on disk.
   */
  lemma RecoveredNewestExact(c: Config, s: State, step: Step, k: Key)
    requires Inv(c, s) && step.Crash? && Recoverable(s, step) && LastWrite(s.hist, k).Some?
    ensures var L := LastWrite(s.hist, k).value;
            Newest(Stored(Restored(s, step)), k, UNBOUNDED) == Some(L) <==>
            L in RecsOf(s.tables, s.tables.Keys) || InReadablePart(step.logs, L)
  {
    hide HistoryInv, LogsInv, TablesInv, PassInv, LiveInv, Recoverable, Restored, Replayable, Replay, RecsOf, LastWrite, OneVersion, InReadablePart;
    var L, S := LastWrite(s.hist, k).value, Stored(Restored(s, step));
    RestoredWasWritten(c, s, step);
    HistoryBounds(s);
    LastWriteIsTop(s.hist, k);
    OrderOfLogs(s, step);
    ReplayableMember(step, L);
    ReplayKeyed(Replayable(step));
    if L in Replayable(step) {
      ReachedIsRecovered(s, step, k);
    }
    if L in S {
      TopIsNewest(S, k, L);
    }
    if Newest(S, k, UNBOUNDED) == Some(L) {
      assert IsNewest(S, k, UNBOUNDED, L);
    }
  }

  lemma OrderOfLogs(s: State, step: Step)
    requires step.Crash? && Recoverable(s, step)
    ensures ToSet(step.order) == step.logs.Keys
  {
    hide IsLeftover, LogsOnDisk, IsMaxGen, IsFlushOf, OnDisk, Replayable, Less;
  }

  /** A key whose last write is kept, or is in no log at all, reads as before. */
  lemma KeptKeyReadsAsBefore(c: Config, s: State, step: Step, k: Key)
    requires Inv(c, s) && step.Crash? && Recoverable(s, step)
    requires LastWrite(s.hist, k).Some? ==>
               var L := LastWrite(s.hist, k).value;
               L in RecsOf(s.tables, s.tables.Keys) || InReadablePart(step.logs, L) || L !in Surviving(s)
    ensures Get(Restored(s, step), k, UNBOUNDED) == Get(s, k, UNBOUNDED)
  {
    hide HistoryInv, LogsInv, TablesInv, PassInv, Recoverable, Restored, Surviving, RecsOf, LastWrite, OneVersion, InReadablePart, Stored, Newest;
    assert Get(s, k, UNBOUNDED) == Answer(LastWrite(s.hist, k));
    if LastWrite(s.hist, k).Some? && (LastWrite(s.hist, k).value in RecsOf(s.tables, s.tables.Keys) || InReadablePart(step.logs, LastWrite(s.hist, k).value)) {
      RecoveredNewestExact(c, s, step, k);
    } else {
      NowhereInLogs(c, s, step, k);
    }
  }

  /** A key no surviving log mentions: recovery leaves its versions alone. */
  lemma NowhereInLogs(c: Config, s: State, step: Step, k: Key)
    requires Inv(c, s) && step.Crash? && Recoverable(s, step)
    requires LastWrite(s.hist, k).Some? ==> LastWrite(s.hist, k).value !in Surviving(s)
    ensures Newest(Stored(Restored(s, step)), k, UNBOUNDED) == Newest(Stored(s), k, UNBOUNDED)
  {
    hide HistoryInv, LogsInv, TablesInv, PassInv, LiveInv, Recoverable, Restored, Replayable, RecsOf, ImmRecs, LastWrite, OneVersion, Replay, Newest, Surviving;
    RestoredWasWritten(c, s, step);
    StoredWasWritten(c, s);
    NoWriteSurvives(s, k);
    RecoveredIsLastWrite(s, k);
    ReplayIsLastWrite(Surviving(s), k);
    MemtableKeyed(s);
    ImmKeyed(s);
    forall r | r in Replay(map[], Replayable(step)).Values ensures r.key != k {
      ReplayKeyed(Replayable(step));
      ReplayableSurvives(s, step, r);
      LastWriteOfMember(Surviving(s), r);
    }
    ViewOfKey(Stored(s), Stored(Restored(s, step)), k, UNBOUNDED);
  }

  lemma NoWriteSurvives(s: State, k: Key)
    requires HistoryInv(s) && LogsInv(s)
    requires LastWrite(s.hist, k).Some? ==> LastWrite(s.hist, k).value !in Surviving(s)
    ensures LastWrite(Surviving(s), k).None?
  {
    hide HistoryInv, LogFilesInv, MemtablesAreLogs, Surviving, LastWrite;
    var n := |s.hist| - |Surviving(s)|;
    assert s.hist == s.hist[..n] + Surviving(s);
    LastWriteOfSuffix(s.hist[..n], Surviving(s), k);
    HistoryBounds(s);
    assert Increasing(Surviving(s)) by { IncreasingSplit(s.hist[..n], Surviving(s)); }
    LastWriteIsTop(Surviving(s), k);
  }

  lemma {:induction false} LastWriteOfMember(h: seq<Record>, r: Record)
    requires r in h
    ensures LastWrite(h, r.key).Some?
  {
    var n := |h| - 1;
    if h[n].key != r.key {
      assert h == h[..n] + [h[n]];
      LastWriteOfMember(h[..n], r);
    }
  }

  lemma ReplayableSurvives(s: State, step: Step, r: Record)
    requires HistoryInv(s) && LogsInv(s) && step.Crash? && Recoverable(s, step) && r in Replayable(step)
    ensures r in Surviving(s)
  {
    hide HistoryInv, LogFilesInv, MemtablesAreLogs, Surviving, ReplayOrder, IsMaxGen, IsFlushOf, LogsOnDisk, IsLeftover, OnDisk, Concat, Increasing, ReadableLogs;
    NameOrderReplaysHistoryTail(s, step.dir, step.logs, step.order);
    HistoryBounds(s);
    var n := |s.hist| - |Surviving(s)|;
    assert s.hist == s.hist[..n] + Surviving(s);
    IncreasingSplit(s.hist[..n], Surviving(s));
    CutConcat(step.logs, step.order);
  }

  // ---------- An oversized write ----------

  const K: Key := [1]

  function Start(): State {
    State(map[], 1, [], None, map[], 0, 1, multiset{}, map[1 := []], Idle, false, false, [])
  }

  function Written(v: Bytes): State {
    var r := Record(K, v, TYPE_VALUE, 1);
    State(map[K := r], 1, [], None, map[], 1, 1, multiset{}, map[1 := [r]], Idle, false, false, [r])
  }

  function Reopening(v: Bytes): Step {
    Crash([], map[1 := [Record(K, v, TYPE_VALUE, 1)]], [1], 1, [], 0, None)
  }

  lemma OversizedIsUnreadable(v: Bytes)
    requires |v| > W.MAX_REASONABLE_LEN
    ensures Replayable(Reopening(v)) == []
  {
    var r := Record(K, v, TYPE_VALUE, 1);
    assert Readable([r]) == [];
    assert [1][1..] == [];
    assert Concat(ReadableLogs(Reopening(v).logs), [1]) == LogOf(ReadableLogs(Reopening(v).logs), 1) + Concat(ReadableLogs(Reopening(v).logs), []);
  }

  /** A single Put of more than 512 MiB, accepted, then a crash: the write is gone. */
  lemma OversizedWriteIsLost(c: Config, v: Bytes)
    requires |v| > W.MAX_REASONABLE_LEN
    ensures Init(Start()) && Takes(c, Start(), Write(K, v, TYPE_VALUE), Written(v)) && Recoverable(Written(v), Reopening(v))
    ensures Answer(LastWrite(Written(v).hist, K)) == Some(v)
    ensures Get(Restored(Written(v), Reopening(v)), K, UNBOUNDED) == None
  {
    hide Replayable, Get;
    var r := Record(K, v, TYPE_VALUE, 1);
    assert [] + [r] == [r];
    assert Written(v).logs == Start().logs[1 := [r]] && Written(v).hist == Start().hist + [r];
    OversizedIsUnreadable(v);
    assert ToSet([1]) == {1};
    assert Replay(map[], []).Values == {};
    NothingStored(Restored(Written(v), Reopening(v)));
  }
}
