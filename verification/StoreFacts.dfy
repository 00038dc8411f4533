/** Consequences of the store invariant that the step proofs share. */
module StoreFacts {
  import opened Bytes
  import opened Versions
  import opened History
  import opened Store

  /** A memtable holds each of its records under the record's own key. */
  ghost predicate Keyed(m: MemTable) {
    forall k :: k in m ==> m[k].key == k
  }

  lemma KeyedValues(m: MemTable)
    requires Keyed(m)
    ensures forall r :: r in m.Values <==> r.key in m && m[r.key] == r
  {
  }

  lemma ReplayKeyed(h: seq<Record>)
    ensures Keyed(Replay(map[], h))
    ensures forall r :: r in Replay(map[], h).Values ==> r in h
  {
    ReplayedRecords(h);
  }

  lemma {:induction false} ImmLogsHold(logs: map<nat, seq<Record>>, imm: seq<Imm>, i: nat)
    requires i < |imm|
    ensures forall r :: r in LogOf(logs, imm[i].log) ==> r in ImmLogs(logs, imm)
  {
    if i > 0 {
      ImmLogsHold(logs, imm[1..], i - 1);
    }
  }

  lemma {:induction false} ImmLogsAppend(logs: map<nat, seq<Record>>, imm: seq<Imm>, e: Imm)
    ensures ImmLogs(logs, imm + [e]) == ImmLogs(logs, imm) + LogOf(logs, e.log)
  {
    if imm == [] {
      assert (imm + [e])[1..] == [];
    } else {
      assert (imm + [e])[1..] == imm[1..] + [e];
      ImmLogsAppend(logs, imm[1..], e);
    }
  }

  lemma {:induction false} ImmLogsFrame(logs: map<nat, seq<Record>>, logs': map<nat, seq<Record>>, imm: seq<Imm>)
    requires forall i :: 0 <= i < |imm| ==> LogOf(logs, imm[i].log) == LogOf(logs', imm[i].log)
    ensures ImmLogs(logs, imm) == ImmLogs(logs', imm)
  {
    if imm != [] {
      ImmLogsFrame(logs, logs', imm[1..]);
    }
  }

  lemma {:induction false} ImmLogsSplit(logs: map<nat, seq<Record>>, imm: seq<Imm>, k: Key)
    requires forall i :: 0 <= i < |imm| ==> imm[i].mem == Replay(map[], LogOf(logs, imm[i].log))
    requires LastWrite(ImmLogs(logs, imm), k).None?
    ensures forall i :: 0 <= i < |imm| ==> k !in imm[i].mem
  {
    if imm != [] {
      LastWriteOfSuffix(LogOf(logs, imm[0].log), ImmLogs(logs, imm[1..]), k);
      ImmLogsSplit(logs, imm[1..], k);
      ReplayIsLastWrite(LogOf(logs, imm[0].log), k);
      forall i | 0 <= i < |imm| ensures k !in imm[i].mem {
        if i > 0 {
          assert imm[i] == imm[1..][i - 1];
        }
      }
    }
  }

  /** The history is what reached tables followed by what is still pending. */
  lemma HistorySplits(s: State)
    requires LogsInv(s)
    ensures s.hist == Flushed(s) + Pending(s)
    ensures forall r :: r in s.mem.Values || r in ImmRecs(s.imm) ==> r in Pending(s)
  {
    hide LogFilesInv, Replay, ImmLogs;
    forall r | r in s.mem.Values ensures r in Pending(s) {
      ReplayKeyed(LogOf(s.logs, s.memLog));
    }
    forall r | r in ImmRecs(s.imm) ensures r in Pending(s) {
      var i :| 0 <= i < |s.imm| && r in s.imm[i].mem.Values;
      ReplayKeyed(LogOf(s.logs, s.imm[i].log));
      ImmLogsHold(s.logs, s.imm, i);
    }
  }

  lemma TablesWereFlushed(c: Config, s: State)
    requires TablesInv(c, s)
    ensures RecsOf(s.tables, s.tables.Keys) <= ToSet(Flushed(s))
  {
  }

  lemma HistoryBounds(s: State)
    requires HistoryInv(s)
    ensures Increasing(s.hist) && s.seqNo <= UNBOUNDED
    ensures forall r :: r in s.hist ==> 0 < r.seqNo <= s.seqNo
  {
    forall r | r in s.hist ensures r.seqNo <= s.seqNo {
      var i :| 0 <= i < |s.hist| && s.hist[i] == r;
    }
  }

  lemma LogGenerations(s: State)
    requires LogsInv(s)
    ensures s.memLog in s.logs
    ensures forall g :: g in s.logs ==> g <= s.gen
    ensures forall i :: 0 <= i < |s.imm| ==> s.imm[i].log in s.logs
  {
    hide MemtablesAreLogs, IsSuffix, Surviving;
    assert forall i :: 0 <= i < |s.imm| ==> s.imm[i].log in ImmGens(s.imm);
  }

  lemma RecsOfFrame(ts: Tables, ts': Tables, G: set<nat>)
    requires forall g :: g in G ==> (g in ts <==> g in ts') && (g in ts ==> ts[g] == ts'[g])
    ensures RecsOf(ts, G) == RecsOf(ts', G)
  {
    forall r | r in RecsOf(ts, G) ensures r in RecsOf(ts', G) {
      var g :| g in G && g in ts && r in ts[g].recs;
      assert g in ts' && r in ts'[g].recs;
    }
    forall r | r in RecsOf(ts', G) ensures r in RecsOf(ts, G) {
      var g :| g in G && g in ts' && r in ts'[g].recs;
      assert g in ts && r in ts[g].recs;
    }
  }

  lemma RecsOfInsert(ts: Tables, g: nat, t: Table)
    requires g !in ts
    ensures RecsOf(ts[g := t], ts[g := t].Keys) == RecsOf(ts, ts.Keys) + ToSet(t.recs)
  {
    var ts' := ts[g := t];
    forall r | r in RecsOf(ts, ts.Keys) ensures r in RecsOf(ts', ts'.Keys) {
      var h :| h in ts && r in ts[h].recs;
      assert h in ts' && ts'[h] == ts[h];
    }
    assert ts'[g].recs == t.recs;
  }

  /** A step that leaves memtables, logs and history alone. */
  lemma SameLogs(s: State, s': State)
    requires LogsInv(s) && s.gen <= s'.gen
    requires s'.logs == s.logs && s'.imm == s.imm && s'.memLog == s.memLog && s'.unremoved == s.unremoved
    requires s'.mem == s.mem && s'.hist == s.hist
    ensures LogsInv(s') && Flushed(s') == Flushed(s)
    ensures Surviving(s') == Surviving(s)
  {
    hide IsSuffix, ImmLogs, Replay, ImmGens;
    assert Pending(s') == Pending(s);
  }

  lemma MemtableKeyed(s: State)
    requires LogsInv(s)
    ensures Keyed(s.mem)
    ensures forall r :: r in s.mem.Values <==> r.key in s.mem && s.mem[r.key] == r
  {
    hide LogFilesInv, IsSuffix, ImmLogs, Replay, Pending, Surviving;
    ReplayKeyed(LogOf(s.logs, s.memLog));
    KeyedValues(s.mem);
  }

  /** Everything stored was written, so a (key, Seq) pair names one record wherever it is kept. */
  lemma StoredWasWritten(c: Config, s: State)
    requires HistoryInv(s) && LogsInv(s) && TablesInv(c, s)
    ensures Stored(s) <= ToSet(s.hist)
    ensures OneVersion(Stored(s)) && OneVersion(Below(s))
    ensures forall r :: r in Stored(s) ==> 0 < r.seqNo <= s.seqNo <= UNBOUNDED
  {
    hide HistoryInv, LogsInv, TablesInv, Increasing, Pending, Flushed;
    HistorySplits(s);
    TablesWereFlushed(c, s);
    HistoryBounds(s);
    HistoryOneVersion(s.hist, Stored(s));
  }

  /** Every Seq in the memtables exceeds every Seq in the tables. */
  lemma TablesUnderMemtables(c: Config, s: State)
    requires HistoryInv(s) && LogsInv(s) && TablesInv(c, s)
    ensures forall r, q :: r in RecsOf(s.tables, s.tables.Keys) && q in Pending(s) ==> r.seqNo < q.seqNo
  {
    hide HistoryInv, LogsInv, TablesInv, Pending, Flushed;
    HistorySplits(s);
    TablesWereFlushed(c, s);
    HistoryBounds(s);
    var n := |Flushed(s)|;
    forall r, q | r in RecsOf(s.tables, s.tables.Keys) && q in Pending(s) ensures r.seqNo < q.seqNo {
      assert r in Flushed(s);
      var i :| 0 <= i < n && Flushed(s)[i] == r;
      var j :| 0 <= j < |Pending(s)| && Pending(s)[j] == q;
      assert s.hist[i] == r && s.hist[n + j] == q;
    }
  }

  lemma InputsAreStored(ts: Tables, I: set<nat>)
    ensures RecsOf(ts, I) <= RecsOf(ts, ts.Keys)
  {
  }

  /** Every record in a running pass's inputs was written before now. */
  lemma InputsAreOld(c: Config, s: State)
    requires Inv(c, s) && s.pass.Running?
    ensures forall r :: r in RecsOf(s.tables, s.pass.inputs) ==> r.seqNo <= s.seqNo
  {
    hide HistoryInv, LogsInv, TablesInv, PassInv, LiveInv, ImmRecs, RecsOf, OneVersion;
    StoredWasWritten(c, s);
    InputsAreStored(s.tables, s.pass.inputs);
  }

  lemma CappedAt(c: Config, s: State, x: nat)
    requires TablesInv(c, s) && Watched(s.snaps, s.seqNo, x)
    ensures Capped(s.tables, x)
  {
    hide Capped, Stratified, OneTablePerDeepLevel, RecsOf, Flushed, StrictlyOrdered;
  }

  /** Fewer bounds to watch. */
  lemma CappedFewer(ts: Tables, snaps: multiset<nat>, seqNo: nat, snaps': multiset<nat>, seqNo': nat)
    requires AllCapped(ts, snaps, seqNo)
    requires forall x :: Watched(snaps', seqNo', x) ==> Watched(snaps, seqNo, x)
    ensures AllCapped(ts, snaps', seqNo')
  {
    hide Capped;
  }

  lemma GenerationsBounded(c: Config, s: State)
    requires TablesInv(c, s)
    ensures forall g :: g in s.tables ==> g <= s.gen
  {
    hide Stratified, AllCapped, RecsOf, Flushed, StrictlyOrdered, OneTablePerDeepLevel;
  }
}
