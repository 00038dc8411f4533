/** Crash recovery: replaying the surviving logs in file-name order loses nothing. */
module StoreRecovery {
  import opened Bytes
  import opened Versions
  import opened History
  import opened FileNames
  import opened Store
  import opened StoreFacts
  import opened StoreCover
  import opened StoreCompaction

  // ---------- File-name order is age order ----------

  ghost predicate Ascending(a: seq<nat>) {
    forall i, j :: 0 <= i < j < |a| ==> a[i] < a[j]
  }

  lemma AscendingInit(a: seq<nat>)
    requires Ascending(a) && a != []
    ensures var n := |a| - 1;
            Ascending(a[..n]) && ToSet(a[..n]) == ToSet(a) - {a[n]} && a == a[..n] + [a[n]] && forall x :: x in ToSet(a) ==> x <= a[n]
  {
    var n := |a| - 1;
    forall x | x in ToSet(a) - {a[n]} ensures x in ToSet(a[..n]) {
      var i :| 0 <= i < |a| && a[i] == x;
      assert a[..n][i] == x;
    }
  }

  lemma EmptyToSet<T>(a: seq<T>)
    ensures ToSet(a) == {} <==> a == []
  {
    if a != [] {
      assert a[0] in ToSet(a);
    }
  }

  lemma {:induction false} AscendingUnique(a: seq<nat>, b: seq<nat>)
    requires Ascending(a) && Ascending(b) && ToSet(a) == ToSet(b)
    ensures a == b
  {
    EmptyToSet(a);
    EmptyToSet(b);
    if a != [] {
      var x, y := a[|a| - 1], b[|b| - 1];
      assert x in ToSet(a) && y in ToSet(b);
      AscendingInit(a);
      AscendingInit(b);
      AscendingUnique(a[..|a| - 1], b[..|b| - 1]);
    }
  }

  function ImmOrder(imm: seq<Imm>): (r: seq<nat>)
    ensures |r| == |imm| && forall i :: 0 <= i < |imm| ==> r[i] == imm[i].log
  {
    if imm == [] then [] else [imm[0].log] + ImmOrder(imm[1..])
  }

  /** The surviving logs from oldest to newest. */
  function AgeOrder(s: State): seq<nat> {
    (if s.unremoved.Some? then [s.unremoved.value] else []) + (ImmOrder(s.imm) + [s.memLog])
  }

  lemma {:induction false} ConcatAppend(logs: map<nat, seq<Record>>, a: seq<nat>, b: seq<nat>)
    ensures Concat(logs, a + b) == Concat(logs, a) + Concat(logs, b)
  {
    if a == [] {
      assert a + b == b;
    } else {
      assert (a + b)[1..] == a[1..] + b;
      ConcatAppend(logs, a[1..], b);
    }
  }

  lemma {:induction false} ConcatImm(logs: map<nat, seq<Record>>, imm: seq<Imm>)
    ensures Concat(logs, ImmOrder(imm)) == ImmLogs(logs, imm)
  {
    if imm != [] {
      assert ImmOrder(imm)[1..] == ImmOrder(imm[1..]);
      ConcatImm(logs, imm[1..]);
    }
  }

  lemma ConcatOne(logs: map<nat, seq<Record>>, g: nat)
    ensures Concat(logs, [g]) == LogOf(logs, g)
  {
    assert Concat(logs, [g]) == LogOf(logs, g) + Concat(logs, []);
  }

  lemma AgeOrderConcat(s: State)
    ensures Concat(s.logs, AgeOrder(s)) == Surviving(s)
  {
    hide Concat, ImmLogs, ImmOrder;
    ConcatImm(s.logs, s.imm);
    ConcatOne(s.logs, s.memLog);
    ConcatAppend(s.logs, ImmOrder(s.imm), [s.memLog]);
    if s.unremoved.Some? {
      ConcatOne(s.logs, s.unremoved.value);
      ConcatAppend(s.logs, [s.unremoved.value], ImmOrder(s.imm) + [s.memLog]);
    } else {
      assert [] + (ImmOrder(s.imm) + [s.memLog]) == ImmOrder(s.imm) + [s.memLog];
    }
  }

  lemma AgeOrderAt(s: State, i: nat)
    requires i < |AgeOrder(s)|
    ensures var u := if s.unremoved.Some? then 1 else 0;
            && |AgeOrder(s)| == u + |s.imm| + 1
            && AgeOrder(s)[i] == if i < u then s.unremoved.value else if i < u + |s.imm| then s.imm[i - u].log else s.memLog
  {
  }

  lemma AgeOrderAscends(s: State)
    requires LogFilesInv(s)
    ensures Ascending(AgeOrder(s))
    ensures ToSet(AgeOrder(s)) == s.logs.Keys
  {
    hide AgeOrder;
    var u := if s.unremoved.Some? then 1 else 0;
    var o := AgeOrder(s);
    assert |o| == u + |s.imm| + 1 by { AgeOrderLength(s); }
    forall i, j | 0 <= i < j < |o| ensures o[i] < o[j] {
      AgeOrderAt(s, i);
      AgeOrderAt(s, j);
    }
    forall g | g in s.logs ensures g in o {
      if g in ImmGens(s.imm) {
        var i :| 0 <= i < |s.imm| && s.imm[i].log == g;
        AgeOrderAt(s, u + i);
      } else if g == s.memLog {
        AgeOrderAt(s, u + |s.imm|);
      } else {
        AgeOrderAt(s, 0);
      }
    }
    forall g | g in o ensures g in s.logs {
      var i :| 0 <= i < |o| && o[i] == g;
      AgeOrderAt(s, i);
    }
  }

  lemma AgeOrderLength(s: State)
    ensures |AgeOrder(s)| == (if s.unremoved.Some? then 1 else 0) + |s.imm| + 1
  {
  }

  /** The generations of `order` that are in `G`. */
  function Only(order: seq<nat>, G: set<nat>): seq<nat> {
    if order == [] then []
    else Only(order[..|order| - 1], G) + if order[|order| - 1] in G then [order[|order| - 1]] else []
  }

  lemma {:induction false} OnlyMember(order: seq<nat>, G: set<nat>, x: nat)
    ensures x in Only(order, G) <==> x in order && x in G
  {
    if order != [] {
      var n := |order| - 1;
      OnlyMember(order[..n], G, x);
      assert order == order[..n] + [order[n]];
    }
  }

  lemma {:induction false} OnlyAscends(order: seq<nat>, G: set<nat>)
    requires Ascending(order)
    ensures Ascending(Only(order, G))
  {
    if order != [] {
      var n := |order| - 1;
      OnlyAscends(order[..n], G);
      var a := Only(order[..n], G);
      forall i | 0 <= i < |a| ensures a[i] < order[n] {
        OnlyMember(order[..n], G, a[i]);
        assert a[i] in order[..n];
      }
    }
  }

  /** Logs that are missing because they are empty do not matter. */
  lemma {:induction false} ConcatOnly(logs: map<nat, seq<Record>>, found: map<nat, seq<Record>>, order: seq<nat>)
    requires forall g :: g in found ==> g in logs && found[g] == logs[g]
    requires forall g :: g in logs && g !in found ==> logs[g] == []
    ensures Concat(found, Only(order, found.Keys)) == Concat(logs, order)
  {
    hide Concat;
    if order == [] {
      assert Concat(found, []) == Concat(logs, []) by { ConcatNone(logs); ConcatNone(found); }
    } else {
      var n := |order| - 1;
      var g, a := order[n], Only(order[..n], found.Keys);
      ConcatOnly(logs, found, order[..n]);
      assert order == order[..n] + [g];
      ConcatAppend(logs, order[..n], [g]);
      ConcatOne(logs, g);
      if g in found {
        ConcatAppend(found, a, [g]);
        ConcatOne(found, g);
      } else {
        assert Only(order, found.Keys) == a + [] == a;
      }
    }
  }

  lemma ConcatNone(logs: map<nat, seq<Record>>)
    ensures Concat(logs, []) == []
  {
  }

  lemma NamesAscend(s: State, dir: Bytes, logs: map<nat, seq<Record>>, order: seq<nat>)
    requires LogsInv(s) && s.gen < UINT64 && LogsOnDisk(s, logs) && ReplayOrder(dir, logs, order)
    ensures Ascending(order)
  {
    hide IsSuffix, Surviving, MemtablesAreLogs, WalFileName, ToSet, Less, LogFilesInv;
    LogGenerations(s);
    forall i, j | 0 <= i < j < |order| ensures order[i] < order[j] {
      assert order[i] in logs && order[j] in logs by { Members(order, logs); }
      NamesSortAsGenerations(dir, order[i], order[j]);
    }
  }

  /** The log files found, in file-name order, hold exactly the tail of the history, oldest first. */
  lemma NameOrderReplaysHistoryTail(s: State, dir: Bytes, logs: map<nat, seq<Record>>, order: seq<nat>)
    requires LogsInv(s) && s.gen < UINT64 && LogsOnDisk(s, logs) && ReplayOrder(dir, logs, order)
    ensures Concat(logs, order) == Surviving(s)
  {
    hide IsSuffix, Surviving, MemtablesAreLogs, WalFileName, AgeOrder, Concat, Less, LogFilesInv;
    NamesAscend(s, dir, logs, order);
    var all := AgeOrder(s);
    assert LogFilesInv(s);
    AgeOrderAscends(s);
    var only := Only(all, logs.Keys);
    OnlyAscends(all, logs.Keys);
    forall x ensures x in ToSet(only) <==> x in logs.Keys {
      OnlyMember(all, logs.Keys, x);
      assert x in s.logs <==> x in ToSet(all);
    }
    AscendingUnique(order, only);
    ConcatOnly(s.logs, logs, all);
    AgeOrderConcat(s);
  }

  /** Nothing is cut off exactly when no record is over the length bound. */
  lemma AllReadable(logs: map<nat, seq<Record>>)
    ensures ReadableLogs(logs) == logs <==> LogsReadable(logs)
  {
    forall g | g in logs ensures Readable(logs[g]) == logs[g] <==> forall r :: r in logs[g] ==> W.Reasonable(r) {
      var recs := logs[g];
      assert recs[..|recs|] == recs;
      assert forall i :: 0 <= i < |recs| ==> recs[i] in recs;
    }
    if ReadableLogs(logs) == logs {
      forall g | g in logs ensures Readable(logs[g]) == logs[g] {
        assert ReadableLogs(logs)[g] == Readable(logs[g]);
      }
    }
  }

  /** What `Open` replays is the tail of the history when it can read the logs to their ends. */
  lemma ReplayableIs(s: State, step: Step)
    requires LogsInv(s) && step.Crash? && Recoverable(s, step) && LogsReadable(step.logs)
    ensures Replayable(step) == Surviving(s)
  {
    hide LogsInv, ReplayOrder, Concat, IsMaxGen, StrictlyOrdered, Surviving, Replay, LogsOnDisk, IsLeftover, OnDisk, LogsReadable, ReadableLogs;
    AllReadable(step.logs);
    NameOrderReplaysHistoryTail(s, step.dir, step.logs, step.order);
  }

  lemma Members(order: seq<nat>, logs: map<nat, seq<Record>>)
    requires ToSet(order) == logs.Keys
    ensures forall i :: 0 <= i < |order| ==> order[i] in logs
  {
    assert forall i :: 0 <= i < |order| ==> order[i] in ToSet(order);
  }

  // ---------- The Seq counter after recovery ----------

  lemma {:induction false} MaxSeqOfIncreasing(h: seq<Record>)
    requires Increasing(h)
    ensures MaxSeq(h) == if h == [] then 0 else h[|h| - 1].seqNo
  {
    if |h| > 1 {
      MaxSeqOfIncreasing(h[..|h| - 1]);
    }
  }

  lemma RecoveredSeq(s: State)
    requires HistoryInv(s) && LogsInv(s)
    ensures MaxSeq(Surviving(s)) == if Surviving(s) == [] then 0 else s.seqNo
  {
    hide LogFilesInv, MemtablesAreLogs, Surviving, MaxSeq;
    var n := |s.hist| - |Surviving(s)|;
    assert Increasing(Surviving(s)) by {
      assert forall i :: 0 <= i < |Surviving(s)| ==> Surviving(s)[i] == s.hist[n + i];
    }
    MaxSeqOfIncreasing(Surviving(s));
  }

  /**
   `Open` restores the Seq counter from logs alone. The counter is at or
   above every stored Seq exactly when a record survives in some log or
   nothing is stored.
   */
  lemma SessionHypothesisExact(c: Config, s: State)
    requires Inv(c, s)
    ensures (forall r :: r in Stored(s) ==> r.seqNo <= MaxSeq(Surviving(s))) <==> (Surviving(s) != [] || Stored(s) == {})
  {
    hide HistoryInv, LogsInv, TablesInv, PassInv, LiveInv, Stored, Surviving, MaxSeq;
    RecoveredSeq(s);
    StoredWasWritten(c, s);
    if Surviving(s) == [] && Stored(s) != {} {
      var r :| r in Stored(s);
      assert r.seqNo > 0;
    }
  }

  // ---------- The recovered state ----------

  /** What replay rebuilds is the last write of every key found in a log. */
  lemma RecoveredIsLastWrite(s: State, k: Key)
    requires HistoryInv(s) && LogsInv(s)
    ensures var R := Replay(map[], Surviving(s));
            && (k in R ==> LastWrite(s.hist, k) == Some(R[k]) && R[k].key == k && R[k] in s.hist)
            && (k in R ==> forall r :: r in s.hist && r.key == k ==> r.seqNo <= R[k].seqNo)
            && (k !in R ==> k !in s.mem && forall i :: 0 <= i < |s.imm| ==> k !in s.imm[i].mem)
  {
    hide LogFilesInv, Replay, ImmLogs;
    var tail := Surviving(s);
    var n := |s.hist| - |tail|;
    assert s.hist == s.hist[..n] + tail;
    ReplayIsLastWrite(tail, k);
    LastWriteOfSuffix(s.hist[..n], tail, k);
    LastWriteIsTop(s.hist, k);
    if LastWrite(tail, k).None? {
      var u := if s.unremoved.Some? then LogOf(s.logs, s.unremoved.value) else [];
      LastWriteOfSuffix(u, Pending(s), k);
      LastWriteOfSuffix(ImmLogs(s.logs, s.imm), LogOf(s.logs, s.memLog), k);
      ReplayIsLastWrite(LogOf(s.logs, s.memLog), k);
      ImmLogsSplit(s.logs, s.imm, k);
    }
  }

  lemma CrashKeepsLogs(c: Config, s: State, step: Step)
    requires Inv(c, s) && step.Crash? && Enabled(c, s, step)
    ensures HistoryInv(Apply(c, s, step)) && LogsInv(Apply(c, s, step))
    ensures Flushed(Apply(c, s, step)) == s.hist
    ensures IsFlushOf(step.recovered, Replay(map[], Surviving(s)))
  {
    hide TablesInv, PassInv, LiveInv, LogsInv, IsFlushOf, ReplayOrder, IsMaxGen, Increasing, Replayable, LogsReadable, LogsOnDisk;
    var s' := Apply(c, s, step);
    ReplayableIs(s, step);
    EmptyLogs(s');
  }

  lemma EmptyLogs(s: State)
    requires s.mem == map[] && s.imm == [] && s.unremoved.None? && s.memLog <= s.gen && s.logs == map[s.memLog := []]
    ensures LogsInv(s) && Flushed(s) == s.hist && Pending(s) == []
  {
  }

  /** An output file on disk beside its inputs adds no record. */
  lemma OnDiskRecs(c: Config, s: State, left: Option<Table>)
    requires PassInv(c, s) && IsLeftover(s, left)
    ensures var ts := OnDisk(s, left); RecsOf(ts, ts.Keys) == RecsOf(s.tables, s.tables.Keys)
  {
    hide RecsOf, Superseded, Dropped, SnapshotsServed, StrictlyOrdered;
    if left.Some? {
      RecsOfInsert(s.tables, s.pass.out, left.value);
      InputsAreStored(s.tables, s.pass.inputs);
    }
  }

  /** What recovery finds in tables and can read from logs is all there is in the recovered tables. */
  lemma RestoredRecs(c: Config, s: State, step: Step)
    requires PassInv(c, s) && step.Crash? && Recoverable(s, step)
    ensures var ts' := Restored(s, step).tables;
            RecsOf(ts', ts'.Keys) == RecsOf(s.tables, s.tables.Keys) + Replay(map[], Replayable(step)).Values
  {
    hide PassInv, RecsOf, StrictlyOrdered, ReplayOrder, Replayable, Replay, MaxSeq, IsLeftover, OnDisk, LogsOnDisk;
    OnDiskRecs(c, s, step.left);
    if step.recovered != [] {
      RecsOfInsert(OnDisk(s, step.left), step.maxGen + 1, Table(0, step.recovered, step.size));
    } else {
      assert ToSet(step.recovered) == {};
    }
  }

  lemma CrashTables(c: Config, s: State, step: Step)
    requires Inv(c, s) && step.Crash? && Enabled(c, s, step)
    ensures var ts' := Apply(c, s, step).tables;
            RecsOf(ts', ts'.Keys) == RecsOf(s.tables, s.tables.Keys) + Replay(map[], Surviving(s)).Values
  {
    hide HistoryInv, LogsInv, TablesInv, PassInv, LiveInv, RecsOf, Recoverable, Restored, Surviving, Replay, Replayable, LogsReadable;
    RestoredRecs(c, s, step);
    ReplayableIs(s, step);
  }

  /** No table holds anything newer than what was recovered for the same key. */
  lemma RecoveredIsOnTop(c: Config, s: State, step: Step)
    requires Inv(c, s) && step.Crash? && Recoverable(s, step) && LogsReadable(step.logs)
    ensures forall r, q :: r in RecsOf(s.tables, s.tables.Keys) && q in step.recovered && r.key == q.key ==> r.seqNo <= q.seqNo
  {
    hide HistoryInv, LogsInv, TablesInv, PassInv, LiveInv, RecsOf, ReplayOrder, IsMaxGen, IsLeftover, Replayable, Surviving, Replay, StrictlyOrdered, LogsReadable, LogsOnDisk;
    ReplayableIs(s, step);
    TablesWereWritten(c, s);
    var R := Replay(map[], Surviving(s));
    ReplayKeyed(Surviving(s));
    KeyedValues(R);
    forall r, q | r in RecsOf(s.tables, s.tables.Keys) && q in step.recovered && r.key == q.key ensures r.seqNo <= q.seqNo {
      assert q in ToSet(step.recovered);
      RecoveredIsLastWrite(s, q.key);
    }
  }

  lemma CrashKeepsCapped(c: Config, s: State, step: Step)
    requires Inv(c, s) && step.Crash? && Enabled(c, s, step)
    ensures AllCapped(Apply(c, s, step).tables, multiset{}, s.seqNo)
  {
    hide HistoryInv, LogsInv, TablesInv, PassInv, LiveInv, RecsOf, ReplayOrder, Replayable, LogsReadable, LogsOnDisk, Replay, MaxSeq, Capped, StrictlyOrdered;
    var found := OnDisk(s, step.left);
    OnDiskRecs(c, s, step.left);
    RecoveredIsOnTop(c, s, step);
    forall x | x >= s.seqNo ensures Capped(Apply(c, s, step).tables, x) {
      CappedAt(c, s, x);
      OnDiskCapped(c, s, step.left, x);
      if step.recovered != [] {
        CappedNewest(found, step.maxGen + 1, Table(0, step.recovered, step.size), x);
      }
    }
  }

  lemma OnDiskCapped(c: Config, s: State, left: Option<Table>, x: nat)
    requires PassInv(c, s) && IsLeftover(s, left) && Capped(s.tables, x)
    ensures Capped(OnDisk(s, left), x)
  {
    hide PassInv, Capped, Kept, RecsOf, StrictlyOrdered, FromInputs, PassLevels;
    if left.Some? {
      PassLevelsHold(c, s);
      OutputIsFromInputs(s.tables, s.pass, left.value.recs);
      CappedLeftover(s.tables, s.pass, left.value, x);
    }
  }

  lemma CrashKeepsStratified(c: Config, s: State, step: Step)
    requires Inv(c, s) && step.Crash? && Enabled(c, s, step) && !s.leftover && step.left.None?
    ensures Stratified(Apply(c, s, step).tables, !Apply(c, s, step).replayed)
  {
    hide HistoryInv, LogsInv, PassInv, LiveInv, StrictlyOrdered, ReplayOrder, Pending, Flushed, Replayable, LogsReadable, LogsOnDisk, Replay, MaxSeq, OneTablePerDeepLevel, AllCapped;
    var ts, s' := s.tables, Apply(c, s, step);
    CrashKeepsLogs(c, s, step);
    TablesUnderMemtables(c, s);
    RecoveredIsOnTop(c, s, step);
    ReplayKeyed(Surviving(s));
    forall g, h | g in s'.tables && h in s'.tables && Older(s'.tables, g, h)
      ensures Under(s'.tables[g].recs, s'.tables[h].recs, !s'.replayed)
    {
      if h == step.maxGen + 1 {
        forall r, q | r in s'.tables[g].recs && q in s'.tables[h].recs
          ensures (!s'.replayed ==> r.seqNo < q.seqNo) && (r.key == q.key ==> r.seqNo <= q.seqNo)
        {
          assert q in ToSet(step.recovered);
          assert r in RecsOf(ts, ts.Keys);
          assert q in Surviving(s);
        }
      } else {
        assert g in ts && h in ts && Older(ts, g, h);
        assert Under(ts[g].recs, ts[h].recs, !s.replayed);
      }
    }
  }

  lemma TablesWereWritten(c: Config, s: State)
    requires HistoryInv(s) && LogsInv(s) && TablesInv(c, s)
    ensures forall r :: r in RecsOf(s.tables, s.tables.Keys) ==> r in s.hist
  {
    hide HistoryInv, LogsInv, TablesInv, ImmRecs, RecsOf;
    StoredWasWritten(c, s);
  }

  lemma CrashTablesShape(c: Config, s: State, step: Step)
    requires Inv(c, s) && step.Crash? && Recoverable(s, step)
    ensures var s' := Restored(s, step);
            forall g :: g in s'.tables ==> g <= s'.gen && s'.tables[g].level < c.maxLevels
                                           && s'.tables[g].recs != [] && StrictlyOrdered(s'.tables[g].recs)
  {
    hide HistoryInv, LogsInv, TablesInv, PassInv, LiveInv, StrictlyOrdered, ReplayOrder, Replayable, LogsReadable, LogsOnDisk, Replay, MaxSeq, IsLeftover, OnDisk;
    OnDiskTables(c, s, step.left);
  }

  lemma CrashKeepsOrder(c: Config, s: State, step: Step)
    requires Inv(c, s) && step.Crash? && Enabled(c, s, step)
    ensures var s' := Apply(c, s, step);
            !s'.leftover ==> OneTablePerDeepLevel(s'.tables) && Stratified(s'.tables, !s'.replayed)
  {
    hide HistoryInv, LogsInv, PassInv, LiveInv, StrictlyOrdered, ReplayOrder, Stratified, AllCapped, Flushed, Replayable, LogsReadable, LogsOnDisk, Replay, MaxSeq, RecsOf;
    if !s.leftover && step.left.None? {
      CrashKeepsStratified(c, s, step);
    }
  }

  lemma CrashKeepsTables(c: Config, s: State, step: Step)
    requires Inv(c, s) && step.Crash? && Enabled(c, s, step)
    ensures TablesInv(c, Apply(c, s, step))
  {
    hide HistoryInv, LogsInv, PassInv, LiveInv, StrictlyOrdered, Recoverable, Stratified, OneTablePerDeepLevel, AllCapped, Flushed, Replayable, LogsReadable, LogsOnDisk, Replay, MaxSeq, RecsOf, OnDisk;
    CrashKeepsLogs(c, s, step);
    CrashTables(c, s, step);
    CrashTablesShape(c, s, step);
    CrashKeepsOrder(c, s, step);
    CrashKeepsCapped(c, s, step);
    TablesWereWritten(c, s);
    SurvivingWereWritten(s);
  }

  lemma OnDiskTables(c: Config, s: State, left: Option<Table>)
    requires TablesInv(c, s) && PassInv(c, s) && IsLeftover(s, left)
    ensures var ts := OnDisk(s, left);
            forall g :: g in ts ==> ts[g].level < c.maxLevels && ts[g].recs != [] && StrictlyOrdered(ts[g].recs)
  {
    hide RecsOf, Kept, SnapshotsServed, StrictlyOrdered, Stratified, AllCapped, OneTablePerDeepLevel, Flushed;
  }

  lemma SurvivingWereWritten(s: State)
    requires LogsInv(s)
    ensures forall r :: r in Replay(map[], Surviving(s)).Values ==> r in s.hist
  {
    hide LogFilesInv, MemtablesAreLogs, Surviving, Replay;
    ReplayKeyed(Surviving(s));
  }

  /** A recovered store answers every unbounded read from the history, as the crashed one did. */
  lemma CrashKeepsLive(c: Config, s: State, step: Step)
    requires Inv(c, s) && step.Crash? && Enabled(c, s, step)
    ensures LiveInv(Apply(c, s, step))
  {
    hide HistoryInv, LogsInv, TablesInv, PassInv, Newest, IsNewest, OneVersion, RecsOf, ImmRecs, ReplayOrder, Surviving, Replayable, LogsReadable, LogsOnDisk, Replay, MaxSeq, IsFlushOf, LastWrite;
    var s' := Apply(c, s, step);
    var R := Replay(map[], Surviving(s));
    CrashKeepsLogs(c, s, step);
    CrashKeepsTables(c, s, step);
    CrashTables(c, s, step);
    StoredWasWritten(c, s);
    StoredWasWritten(c, s');
    MemtableKeyed(s);
    ImmKeyed(s);
    ReplayKeyed(Surviving(s));
    KeyedValues(R);
    assert ImmRecs(s'.imm) == {} by { NoImmRecs(); }
    assert Stored(s') == RecsOf(s.tables, s.tables.Keys) + R.Values;
    forall k ensures Get(s', k, UNBOUNDED) == Answer(LastWrite(s'.hist, k)) {
      RecoveredIsLastWrite(s, k);
      if k in R {
        TopIsNewest(Stored(s'), k, R[k]);
      } else {
        forall r: Record | r.key == k ensures r in Stored(s) <==> r in Stored(s') {
          assert r !in s.mem.Values && r !in ImmRecs(s.imm) && r !in R.Values;
        }
        ViewOfKey(Stored(s), Stored(s'), k, UNBOUNDED);
        assert Get(s, k, UNBOUNDED) == Answer(LastWrite(s.hist, k));
      }
    }
  }

  lemma TopIsNewest(S: set<Record>, k: Key, r: Record)
    requires OneVersion(S) && r in S && r.key == k && r.seqNo <= UNBOUNDED
    requires forall q :: q in S && q.key == k ==> q.seqNo <= r.seqNo
    ensures Newest(S, k, UNBOUNDED) == Some(r)
  {
    assert IsNewest(S, k, UNBOUNDED, r);
    NewestIs(S, k, UNBOUNDED, r);
  }

  lemma NoImmRecs()
    ensures ImmRecs([]) == {}
  {
  }

  lemma ImmKeyed(s: State)
    requires LogsInv(s)
    ensures forall r :: r in ImmRecs(s.imm) ==> exists i :: 0 <= i < |s.imm| && r.key in s.imm[i].mem
  {
    hide LogFilesInv, IsSuffix, Surviving, Replay;
    forall r | r in ImmRecs(s.imm) ensures exists i :: 0 <= i < |s.imm| && r.key in s.imm[i].mem {
      var i :| 0 <= i < |s.imm| && r in s.imm[i].mem.Values;
      ReplayKeyed(LogOf(s.logs, s.imm[i].log));
      KeyedValues(s.imm[i].mem);
    }
  }

  lemma CrashKeepsInv(c: Config, s: State, step: Step)
    requires Inv(c, s) && step.Crash? && Enabled(c, s, step)
    ensures Inv(c, Apply(c, s, step))
  {
    hide HistoryInv, LogsInv, TablesInv, LiveInv, ReplayOrder, Surviving, Replayable, LogsReadable, LogsOnDisk, Replay, MaxSeq, IsFlushOf;
    CrashKeepsLogs(c, s, step);
    CrashKeepsTables(c, s, step);
    CrashKeepsLive(c, s, step);
  }

  /** With no record left in any log, everything stored is in tables. */
  lemma NothingSurvives(s: State)
    requires LogsInv(s) && Surviving(s) == []
    ensures s.mem == map[] && s.imm == []
  {
    hide LogFilesInv, IsSuffix, ImmLogs;
    OldestLogEmpty(s.logs, s.imm);
  }

  lemma OldestLogEmpty(logs: map<nat, seq<Record>>, imm: seq<Imm>)
    requires ImmLogs(logs, imm) == []
    ensures imm != [] ==> LogOf(logs, imm[0].log) == []
  {
  }

  lemma RestoredFromTables(c: Config, s: State, step: Step)
    requires PassInv(c, s) && LogsInv(s) && step.Crash? && Recoverable(s, step) && LogsReadable(step.logs) && Surviving(s) == []
    ensures Stored(Restored(s, step)) == Stored(s)
  {
    hide LogsInv, PassInv, Recoverable, Replayable, LogsReadable, LogsOnDisk, MaxSeq, RecsOf, Surviving, OnDisk;
    NothingSurvives(s);
    ReplayableIs(s, step);
    RestoredRecs(c, s, step);
    NoImmRecs();
  }

  /**
   From every state the invariant allows, whatever the logs still hold,
   provided replay can read them to their ends, and whether or not a running
   pass left its finished output file beside its inputs, recovery changes no
   unbounded read.
   */
  lemma RecoveryPreservesReads(c: Config, s: State, step: Step, k: Key)
    requires Inv(c, s) && step.Crash? && Recoverable(s, step) && LogsReadable(step.logs)
    ensures Get(Restored(s, step), k, UNBOUNDED) == Get(s, k, UNBOUNDED) == Answer(LastWrite(s.hist, k))
  {
    hide HistoryInv, LogsInv, TablesInv, PassInv, Recoverable, Surviving, Replayable, LogsReadable, Replay, MaxSeq, View, LastWrite, Restored, Stored;
    ReplayableIs(s, step);
    if MaxSeq(Surviving(s)) == s.seqNo {
      CrashKeepsLive(c, s, step);
      assert Restored(s, step).hist == s.hist by { SameHistory(s, step); }
    } else {
      RecoveredSeq(s);
      RestoredFromTables(c, s, step);
    }
  }

  lemma SameHistory(s: State, step: Step)
    requires step.Crash?
    ensures Restored(s, step).hist == s.hist
  {
    hide Replayable, MaxSeq;
  }

  /** While it lies beside its inputs, a finished output file changes no read at any bound. */
  lemma LeftoverOutputIsInvisible(c: Config, s: State, left: Option<Table>, k: Key, m: nat)
    requires Inv(c, s) && IsLeftover(s, left)
    ensures Get(s.(tables := OnDisk(s, left)), k, m) == Get(s, k, m)
  {
    hide HistoryInv, LogsInv, TablesInv, PassInv, LiveInv, RecsOf, View, ImmRecs, IsLeftover, OnDisk;
    OnDiskRecs(c, s, left);
    assert Stored(s.(tables := OnDisk(s, left))) == Stored(s);
  }
}
