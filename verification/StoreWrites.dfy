/** Write, Rotate, Register and RemoveLog keep the store invariant. */
module StoreWrites {
  import opened Bytes
  import opened Versions
  import opened History
  import opened Store
  import opened StoreFacts
  import opened StoreCover

  lemma WriteKeepsHistory(c: Config, s: State, step: Step)
    requires HistoryInv(s) && step.Write? && Enabled(c, s, step)
    ensures HistoryInv(Apply(c, s, step))
  {
    HistoryBounds(s);
  }

  lemma SuffixAppend(a: seq<Record>, b: seq<Record>, r: Record)
    requires IsSuffix(a, b)
    ensures IsSuffix(a + [r], b + [r])
  {
    assert (b + [r])[|b| - |a|..] == b[|b| - |a|..] + [r];
  }

  lemma ReplayWrite(l: seq<Record>, r: Record)
    ensures Replay(map[], l + [r]) == Replay(map[], l)[r.key := r]
  {
    assert (l + [r])[..|l|] == l;
  }

  lemma WriteExtendsLogs(c: Config, s: State, step: Step)
    requires LogsInv(s) && step.Write? && Enabled(c, s, step)
    ensures var r := Record(step.key, step.value, step.typ, s.seqNo + 1);
            && Pending(Apply(c, s, step)) == Pending(s) + [r]
            && Surviving(Apply(c, s, step)) == Surviving(s) + [r]
    ensures Flushed(Apply(c, s, step)) == Flushed(s)
  {
    hide ImmLogs, IsSuffix, MemtablesAreLogs, ImmGens;
    var s' := Apply(c, s, step);
    ImmLogsFrame(s.logs, s'.logs, s.imm);
    assert Pending(s') == Pending(s) + [Record(step.key, step.value, step.typ, s.seqNo + 1)];
  }

  lemma WriteKeepsLogs(c: Config, s: State, step: Step)
    requires LogsInv(s) && step.Write? && Enabled(c, s, step)
    ensures LogsInv(Apply(c, s, step))
  {
    hide IsSuffix, Surviving, Replay, ImmGens;
    var s' := Apply(c, s, step);
    var r := Record(step.key, step.value, step.typ, s.seqNo + 1);
    LogGenerations(s);
    WriteExtendsLogs(c, s, step);
    SuffixAppend(Surviving(s), s.hist, r);
    ReplayWrite(LogOf(s.logs, s.memLog), r);
    assert s'.logs.Keys == s.logs.Keys;
  }

  lemma WriteKeepsTables(c: Config, s: State, step: Step)
    requires LogsInv(s) && TablesInv(c, s) && step.Write? && Enabled(c, s, step)
    ensures TablesInv(c, Apply(c, s, step))
  {
    hide LogsInv, Stratified, AllCapped, RecsOf, Flushed, OneTablePerDeepLevel, StrictlyOrdered;
    WriteExtendsLogs(c, s, step);
    CappedFewer(s.tables, s.snaps, s.seqNo, s.snaps, s.seqNo + 1);
  }

  lemma WriteKeepsLive(c: Config, s: State, step: Step)
    requires Inv(c, s) && step.Write? && Enabled(c, s, step)
    ensures LiveInv(Apply(c, s, step))
  {
    hide HistoryInv, LogsInv, TablesInv, PassInv, IsNewest, Newest, OneVersion, ToSet, ImmRecs, RecsOf, LogOf;
    var s' := Apply(c, s, step);
    var r := Record(step.key, step.value, step.typ, s.seqNo + 1);
    WriteKeepsHistory(c, s, step);
    WriteKeepsLogs(c, s, step);
    WriteKeepsTables(c, s, step);
    StoredWasWritten(c, s);
    StoredWasWritten(c, s');
    MemtableKeyed(s);
    MemtableKeyed(s');
    forall k ensures Get(s', k, UNBOUNDED) == Answer(LastWrite(s'.hist, k)) {
      LastWriteAfter(s.hist, r, k);
      if k == step.key {
        NewWriteIsNewest(c, s, step);
      } else {
        ViewOfKey(Stored(s), Stored(s'), k, UNBOUNDED);
      }
    }
  }

  lemma LastWriteAfter(h: seq<Record>, r: Record, k: Key)
    ensures LastWrite(h + [r], k) == if r.key == k then Some(r) else LastWrite(h, k)
  {
    assert (h + [r])[..|h|] == h;
  }

  lemma NewWriteIsNewest(c: Config, s: State, step: Step)
    requires Inv(c, s) && step.Write? && Enabled(c, s, step)
    ensures Newest(Stored(Apply(c, s, step)), step.key, UNBOUNDED) == Some(Record(step.key, step.value, step.typ, s.seqNo + 1))
  {
    hide HistoryInv, LogsInv, TablesInv, PassInv, LiveInv, Newest, OneVersion, ToSet, Below, LogOf;
    var s' := Apply(c, s, step);
    var r := Record(step.key, step.value, step.typ, s.seqNo + 1);
    WriteKeepsHistory(c, s, step);
    WriteKeepsLogs(c, s, step);
    WriteKeepsTables(c, s, step);
    StoredWasWritten(c, s');
    assert r in s'.mem.Values by { assert s'.mem[step.key] == r; }
    assert IsNewest(Stored(s'), step.key, UNBOUNDED, r);
    NewestIs(Stored(s'), step.key, UNBOUNDED, r);
  }

  lemma WriteKeepsInv(c: Config, s: State, step: Step)
    requires Inv(c, s) && step.Write? && Enabled(c, s, step)
    ensures Inv(c, Apply(c, s, step))
  {
    hide HistoryInv, TablesInv, LiveInv, LogsInv;
    WriteKeepsHistory(c, s, step);
    WriteKeepsLogs(c, s, step);
    WriteKeepsTables(c, s, step);
    WriteKeepsLive(c, s, step);
    LogGenerations(s);
  }

  lemma ImmGensAppend(imm: seq<Imm>, e: Imm)
    ensures ImmGens(imm + [e]) == ImmGens(imm) + {e.log}
  {
    assert (imm + [e])[|imm|].log == e.log;
    assert forall i :: 0 <= i < |imm| ==> (imm + [e])[i] == imm[i];
  }

  lemma ImmGensPop(imm: seq<Imm>)
    requires imm != []
    ensures ImmGens(imm) == {imm[0].log} + ImmGens(imm[1..])
  {
    assert forall i :: 0 <= i < |imm| - 1 ==> imm[1..][i] == imm[i + 1];
    forall g | g in ImmGens(imm) ensures g in {imm[0].log} + ImmGens(imm[1..]) {
      var i :| 0 <= i < |imm| && imm[i].log == g;
      if i > 0 {
        assert imm[1..][i - 1].log == g;
      }
    }
  }

  lemma RotateMovesLog(c: Config, s: State, step: Step)
    requires LogsInv(s) && step.Rotate? && Enabled(c, s, step)
    ensures Pending(Apply(c, s, step)) == Pending(s)
    ensures Surviving(Apply(c, s, step)) == Surviving(s)
  {
    hide ImmLogs, IsSuffix, LogFilesInv, MemtablesAreLogs;
    var s' := Apply(c, s, step);
    var e := Imm(s.mem, s.memLog);
    LogGenerations(s);
    ImmLogsFrame(s.logs, s'.logs, s.imm + [e]);
    ImmLogsAppend(s.logs, s.imm, e);
    assert Pending(s') == Pending(s);
  }

  lemma RotateKeepsFiles(c: Config, s: State, step: Step)
    requires LogsInv(s) && step.Rotate? && Enabled(c, s, step)
    ensures LogFilesInv(Apply(c, s, step))
  {
    hide IsSuffix, Surviving, ImmGens, MemtablesAreLogs;
    LogGenerations(s);
    ImmGensAppend(s.imm, Imm(s.mem, s.memLog));
  }

  lemma RotateKeepsMemtables(c: Config, s: State, step: Step)
    requires LogsInv(s) && step.Rotate? && Enabled(c, s, step)
    ensures MemtablesAreLogs(Apply(c, s, step))
  {
    hide IsSuffix, Surviving, LogFilesInv;
    LogGenerations(s);
  }

  lemma RotateKeepsLogs(c: Config, s: State, step: Step)
    requires LogsInv(s) && step.Rotate? && Enabled(c, s, step)
    ensures LogsInv(Apply(c, s, step))
  {
    hide IsSuffix, Surviving, LogFilesInv, MemtablesAreLogs;
    RotateMovesLog(c, s, step);
    RotateKeepsFiles(c, s, step);
    RotateKeepsMemtables(c, s, step);
  }

  lemma {:induction false} ImmRecsAppend(imm: seq<Imm>, e: Imm)
    ensures ImmRecs(imm + [e]) == ImmRecs(imm) + e.mem.Values
  {
    forall r | r in ImmRecs(imm) + e.mem.Values ensures r in ImmRecs(imm + [e]) {
      if r in e.mem.Values {
        assert r in (imm + [e])[|imm|].mem.Values;
      } else {
        var i :| 0 <= i < |imm| && r in imm[i].mem.Values;
        assert r in (imm + [e])[i].mem.Values;
      }
    }
  }

  lemma ImmRecsPop(imm: seq<Imm>)
    requires imm != []
    ensures ImmRecs(imm) == imm[0].mem.Values + ImmRecs(imm[1..])
  {
    forall r | r in ImmRecs(imm) ensures r in imm[0].mem.Values + ImmRecs(imm[1..]) {
      var i :| 0 <= i < |imm| && r in imm[i].mem.Values;
      if i > 0 {
        assert r in imm[1..][i - 1].mem.Values;
      }
    }
    forall r | r in ImmRecs(imm[1..]) ensures r in ImmRecs(imm) {
      var i :| 0 <= i < |imm[1..]| && r in imm[1..][i].mem.Values;
      assert r in imm[i + 1].mem.Values;
    }
  }

  lemma RotateKeepsInv(c: Config, s: State, step: Step)
    requires Inv(c, s) && step.Rotate? && Enabled(c, s, step)
    ensures Inv(c, Apply(c, s, step))
    ensures Stored(Apply(c, s, step)) == Stored(s)
  {
    hide LogsInv, ImmRecs, RecsOf, Pending, View, Stratified, AllCapped, StrictlyOrdered, OneTablePerDeepLevel, SnapshotsServed, Increasing;
    var s' := Apply(c, s, step);
    RotateKeepsLogs(c, s, step);
    RotateMovesLog(c, s, step);
    ImmRecsAppend(s.imm, Imm(s.mem, s.memLog));
    assert Stored(s') == Stored(s);
    assert LiveInv(s');
    assert Flushed(s') == Flushed(s);
    assert TablesInv(c, s');
  }

  /** What registering the oldest memtable as a table does to the parts of a state. */
  lemma RegisterMoves(c: Config, s: State, step: Step)
    requires Inv(c, s) && step.Register? && Enabled(c, s, step)
    ensures var s' := Apply(c, s, step);
            && Below(s') == Below(s)
            && RecsOf(s'.tables, s'.tables.Keys) == RecsOf(s.tables, s.tables.Keys) + s.imm[0].mem.Values
  {
    hide HistoryInv, LogsInv, PassInv, LiveInv, ImmRecs, RecsOf, Stratified, AllCapped, StrictlyOrdered, OneTablePerDeepLevel;
    RecsOfInsert(s.tables, s.gen + 1, Table(0, step.recs, step.size));
    ImmRecsPop(s.imm);
  }

  lemma RegisterMovesPending(c: Config, s: State, step: Step)
    requires step.Register? && Enabled(c, s, step)
    ensures Pending(s) == LogOf(s.logs, s.imm[0].log) + Pending(Apply(c, s, step))
    ensures Surviving(Apply(c, s, step)) == Surviving(s)
  {
    hide IsFlushOf, LogOf;
    var s' := Apply(c, s, step);
    var a, b, d := LogOf(s.logs, s.imm[0].log), ImmLogs(s.logs, s.imm[1..]), LogOf(s.logs, s.memLog);
    assert (a + b) + d == a + (b + d);
  }

  lemma RegisterMovesLog(c: Config, s: State, step: Step)
    requires LogsInv(s) && step.Register? && Enabled(c, s, step)
    ensures Pending(s) == LogOf(s.logs, s.imm[0].log) + Pending(Apply(c, s, step))
    ensures Surviving(Apply(c, s, step)) == Surviving(s)
    ensures Flushed(Apply(c, s, step)) == Flushed(s) + LogOf(s.logs, s.imm[0].log)
  {
    hide IsFlushOf, LogsInv, Pending, Surviving, LogOf;
    var s' := Apply(c, s, step);
    RegisterMovesPending(c, s, step);
    HistorySplits(s);
    assert s.hist == (Flushed(s) + LogOf(s.logs, s.imm[0].log)) + Pending(s');
  }

  lemma RegisterKeepsLogs(c: Config, s: State, step: Step)
    requires LogsInv(s) && step.Register? && Enabled(c, s, step)
    ensures LogsInv(Apply(c, s, step))
  {
    hide IsFlushOf, Replay, IsSuffix, Surviving, ImmGens;
    var s' := Apply(c, s, step);
    RegisterMovesLog(c, s, step);
    ImmGensPop(s.imm);
  }

  lemma RegisterKeepsStratified(c: Config, s: State, step: Step)
    requires Inv(c, s) && step.Register? && Enabled(c, s, step)
    ensures !s.leftover ==> Stratified(Apply(c, s, step).tables, !s.replayed)
  {
    hide HistoryInv, LogsInv, PassInv, LiveInv, Pending, OneTablePerDeepLevel, Flushed, StrictlyOrdered, AllCapped;
    var s' := Apply(c, s, step);
    RegisterMovesLog(c, s, step);
    TablesUnderMemtables(c, s);
    OldestIsItsLog(s);
    forall g, h | !s.leftover && g in s'.tables && h in s'.tables && Older(s'.tables, g, h)
      ensures Under(s'.tables[g].recs, s'.tables[h].recs, !s.replayed)
    {
      if h == s.gen + 1 {
        forall r, q | r in s'.tables[g].recs && q in step.recs ensures r.seqNo < q.seqNo {
          assert r in RecsOf(s.tables, s.tables.Keys);
          assert q in ToSet(step.recs);
        }
      } else {
        assert g in s.tables && Older(s.tables, g, h);
      }
    }
  }

  lemma RegisterKeepsCapped(c: Config, s: State, step: Step)
    requires Inv(c, s) && step.Register? && Enabled(c, s, step)
    ensures AllCapped(Apply(c, s, step).tables, s.snaps, s.seqNo)
  {
    hide HistoryInv, LogsInv, PassInv, LiveInv, Pending, OneTablePerDeepLevel, Stratified, Flushed, StrictlyOrdered, Capped, RecsOf;
    RegisterMovesLog(c, s, step);
    TablesUnderMemtables(c, s);
    OldestIsItsLog(s);
    forall q | q in step.recs ensures q in Pending(s) {
      assert q in ToSet(step.recs);
    }
    forall x | Watched(s.snaps, s.seqNo, x) ensures Capped(Apply(c, s, step).tables, x) {
      CappedNewest(s.tables, s.gen + 1, Table(0, step.recs, step.size), x);
    }
  }

  lemma OldestIsItsLog(s: State)
    requires LogsInv(s) && s.imm != []
    ensures forall r :: r in s.imm[0].mem.Values ==> r in LogOf(s.logs, s.imm[0].log)
    ensures s.imm[0].mem.Values != {}
  {
    hide LogFilesInv, IsSuffix, ImmLogs, Replay;
    ReplayKeyed(LogOf(s.logs, s.imm[0].log));
    var k :| k in s.imm[0].mem;
    assert s.imm[0].mem[k] in s.imm[0].mem.Values;
  }

  lemma OneTableWithFlush(ts: Tables, n: nat, t: Table)
    requires OneTablePerDeepLevel(ts) && n !in ts && t.level == 0
    ensures OneTablePerDeepLevel(ts[n := t])
  {
  }

  lemma RegisterShape(c: Config, s: State, step: Step)
    requires Inv(c, s) && step.Register? && Enabled(c, s, step)
    ensures var s' := Apply(c, s, step);
            forall g :: g in s'.tables ==> g <= s'.gen && s'.tables[g].level < c.maxLevels
                                           && s'.tables[g].recs != [] && StrictlyOrdered(s'.tables[g].recs)
    ensures !s.leftover ==> OneTablePerDeepLevel(Apply(c, s, step).tables)
  {
    hide HistoryInv, LogsInv, PassInv, LiveInv, OneTablePerDeepLevel, Stratified, AllCapped, RecsOf, Flushed, StrictlyOrdered;
    OldestIsItsLog(s);
    assert step.recs != [];
    if !s.leftover {
      OneTableWithFlush(s.tables, s.gen + 1, Table(0, step.recs, step.size));
    }
  }

  lemma RegisterKeepsTables(c: Config, s: State, step: Step)
    requires Inv(c, s) && step.Register? && Enabled(c, s, step)
    ensures TablesInv(c, Apply(c, s, step))
  {
    hide HistoryInv, LogsInv, PassInv, LiveInv, Pending, OneTablePerDeepLevel, Stratified, AllCapped, RecsOf, Flushed, StrictlyOrdered;
    RegisterMoves(c, s, step);
    RegisterMovesLog(c, s, step);
    RegisterShape(c, s, step);
    RegisterKeepsStratified(c, s, step);
    RegisterKeepsCapped(c, s, step);
    OldestIsItsLog(s);
  }

  lemma PassWithFlush(c: Config, ts: Tables, p: Pass, n: nat, t: Table)
    requires p.Running? && PassTables(c, ts, p) && n !in ts && n != p.out && t.level == 0 && forall g :: g in ts ==> g < n
    ensures PassTables(c, ts[n := t], p)
  {
    var ts' := ts[n := t];
    var g :| g in p.inputs && ts[g].level == p.target - 1;
    assert ts'[g].level == p.target - 1;
  }

  lemma RegisterKeepsPass(c: Config, s: State, step: Step)
    requires TablesInv(c, s) && PassInv(c, s) && step.Register? && Enabled(c, s, step)
    ensures PassInv(c, Apply(c, s, step))
  {
    hide Stratified, AllCapped, OneTablePerDeepLevel, StrictlyOrdered, IsFlushOf, Flushed, RecsOf, SnapshotsServed, PassTables;
    var s' := Apply(c, s, step);
    if s.pass.Running? {
      assert s.pass.inputs <= s.tables.Keys by { InputsListed(c, s.tables, s.pass); }
      PassWithFlush(c, s.tables, s.pass, s.gen + 1, Table(0, step.recs, step.size));
      RecsOfFrame(s.tables, s'.tables, s.pass.inputs);
      SameServed(s.snaps, s.tables, s'.tables, s.pass);
    }
  }

  lemma InputsListed(c: Config, ts: Tables, p: Pass)
    requires p.Running? && PassTables(c, ts, p)
    ensures p.inputs <= ts.Keys
  {
  }

  lemma SameServed(snaps: multiset<nat>, ts: Tables, ts': Tables, p: Pass)
    requires p.Running? && RecsOf(ts, p.inputs) == RecsOf(ts', p.inputs) && SnapshotsServed(snaps, ts, p)
    ensures SnapshotsServed(snaps, ts', p)
  {
    hide RecsOf;
  }

  lemma RegisterKeepsInv(c: Config, s: State, step: Step)
    requires Inv(c, s) && step.Register? && Enabled(c, s, step)
    ensures Inv(c, Apply(c, s, step))
    ensures Below(Apply(c, s, step)) == Below(s)
  {
    hide LogsInv, TablesInv, PassInv, Below, IsFlushOf, View;
    RegisterMoves(c, s, step);
    RegisterKeepsLogs(c, s, step);
    RegisterKeepsTables(c, s, step);
    RegisterKeepsPass(c, s, step);
  }

  lemma RemoveLogDrops(c: Config, s: State, step: Step)
    requires LogsInv(s) && step.RemoveLog? && Enabled(c, s, step)
    ensures Pending(Apply(c, s, step)) == Pending(s)
    ensures Surviving(s) == LogOf(s.logs, s.unremoved.value) + Surviving(Apply(c, s, step))
  {
    hide ImmLogs, MemtablesAreLogs, IsSuffix, ImmGens;
    var s' := Apply(c, s, step);
    ImmLogsFrame(s.logs, s'.logs, s.imm);
    assert Pending(s') == Pending(s);
  }

  lemma NotAnImmLog(imm: seq<Imm>, u: nat)
    requires forall i :: 0 <= i < |imm| ==> imm[i].log != u
    ensures u !in ImmGens(imm)
  {
  }

  lemma RemoveLogKeepsLogs(c: Config, s: State, step: Step)
    requires LogsInv(s) && step.RemoveLog? && Enabled(c, s, step)
    ensures LogsInv(Apply(c, s, step))
  {
    hide Replay, ImmGens, Surviving;
    RemoveLogDrops(c, s, step);
    NotAnImmLog(s.imm, s.unremoved.value);
  }

  lemma RemoveLogKeepsInv(c: Config, s: State, step: Step)
    requires Inv(c, s) && step.RemoveLog? && Enabled(c, s, step)
    ensures Inv(c, Apply(c, s, step))
    ensures Below(Apply(c, s, step)) == Below(s)
  {
    hide LogsInv, RecsOf, ImmRecs, View, Pending, Stratified, AllCapped, StrictlyOrdered, OneTablePerDeepLevel, SnapshotsServed, Increasing;
    var s' := Apply(c, s, step);
    RemoveLogKeepsLogs(c, s, step);
    RemoveLogDrops(c, s, step);
    assert Stored(s') == Stored(s);
    assert Flushed(s') == Flushed(s);
    assert LiveInv(s');
  }
}
