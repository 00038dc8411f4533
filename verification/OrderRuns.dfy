/** Runs from an empty store in which recoveries break the order of tables and the rule of one table per level. */
module OrderRuns {
  import opened Bytes
  import opened Versions
  import opened History
  import opened FileNames
  import opened Store
  import opened StoreRecovery

  // One key, written at most twice.
  const K: Key := [1]
  const R1 := Record(K, [7], TYPE_VALUE, 1)
  const R2 := Record(K, [8], TYPE_VALUE, 2)
  const BOTH := [R1, R2]

  // ---------- Written once and flushed ----------

  const S0 := State(map[], 1, [], None, map[], 0, 1, multiset{}, map[1 := []], Idle, false, false, [])
  const S1 := State(map[K := R1], 1, [], None, map[], 1, 1, multiset{}, map[1 := [R1]], Idle, false, false, [R1])
  const S2 := State(map[], 2, [Imm(map[K := R1], 1)], None, map[], 1, 2, multiset{}, map[1 := [R1], 2 := []], Idle, false, false, [R1])
  const S3 := State(map[], 2, [], Some(1), map[3 := Table(0, [R1], 0)], 1, 3, multiset{}, map[1 := [R1], 2 := []], Idle, false, false, [R1])
  const S4 := State(map[], 2, [], None, map[3 := Table(0, [R1], 0)], 1, 3, multiset{}, map[2 := []], Idle, false, false, [R1])

  lemma FlushOfOne(r: Record)
    ensures IsFlushOf([r], map[r.key := r])
  {
    var m := map[r.key := r];
    assert m[r.key] == r;
    assert r in m.Values;
    assert ToSet([r]) == m.Values;
  }

  lemma FirstSteps(c: Config)
    ensures Takes(c, S0, Write(K, [7], TYPE_VALUE), S1) && Takes(c, S1, Rotate, S2)
    ensures Takes(c, S2, Register([R1], 0), S3) && Takes(c, S3, RemoveLog, S4)
  {
    hide IsFlushOf;
    FlushOfOne(R1);
    assert [] + [R1] == [R1];
    assert S1.logs == S0.logs[1 := [R1]] && S1.hist == S0.hist + [R1];
    assert S1.mem != map[] by { assert K in S1.mem; }
    assert S2.imm == S1.imm + [Imm(S1.mem, 1)] && S2.logs == S1.logs[2 := []];
    assert S3.imm == S2.imm[1..];
    assert S4.logs == S3.logs - {1};
  }

  lemma ExtendRun(c: Config, run: seq<State>, step: Step, s': State)
    requires IsRun(c, run) && Takes(c, run[|run| - 1], step, s')
    ensures IsRun(c, run + [s'])
  {
    hide Enabled, Apply;
    var w := run + [s'];
    forall i | 0 <= i < |w| - 1 ensures Next(c, w[i], w[i + 1]) {
      assert i < |run| - 1 ==> Next(c, run[i], run[i + 1]);
    }
  }

  /** The run so far. */
  lemma FlushRun(c: Config)
    ensures IsRun(c, [S0, S1, S2, S3, S4]) && IsRun(c, [S0, S1, S2, S3])
  {
    hide Takes, IsRun;
    FirstSteps(c);
    assert IsRun(c, [S0]) by { RunOfOne(c, S0); }
    ExtendRun(c, [S0], Write(K, [7], TYPE_VALUE), S1);
    assert [S0] + [S1] == [S0, S1];
    ExtendRun(c, [S0, S1], Rotate, S2);
    assert [S0, S1] + [S2] == [S0, S1, S2];
    ExtendRun(c, [S0, S1, S2], Register([R1], 0), S3);
    assert [S0, S1, S2] + [S3] == [S0, S1, S2, S3];
    ExtendRun(c, [S0, S1, S2, S3], RemoveLog, S4);
    assert [S0, S1, S2, S3] + [S4] == [S0, S1, S2, S3, S4];
  }

  lemma RunOfOne(c: Config, s: State)
    ensures IsRun(c, [s])
  {
  }

  // ---------- Replaying two logs, the second empty ----------

  lemma ReplayOfTwo(r: Record, g: nat, h: nat)
    requires g < h < UINT64 && W.Reasonable(r)
    ensures var logs := map[g := [r], h := []];
            && ReplayOrder([], logs, [g, h]) && LogsReadable(logs)
            && Concat(ReadableLogs(logs), [g, h]) == [r] && Replay(map[], [r]) == map[r.key := r] && MaxSeq([r]) == r.seqNo
  {
    hide Less, WalFileName, W.Reasonable, ReadableLogs;
    var logs := map[g := [r], h := []];
    assert LogsReadable(logs);
    AllReadable(logs);
    assert [g, h][1..] == [h] && [h][1..] == [];
    assert Concat(logs, [h]) == [] && Concat(logs, []) == [];
    assert [r][..0] == [];
    NamesSortAsGenerations([], g, h);
    assert ToSet([g, h]) == {g, h};
  }

  /** A recovery that finds the logs of one flushed write and of an empty memtable. */
  lemma RecoveryTaken(c: Config, s: State, g: nat, h: nat, r: Record, maxGen: nat, left: Option<Table>, s': State)
    requires g < h < UINT64 && W.Reasonable(r) && s.gen < UINT64 && s.logs == map[g := [r], h := []] && s.seqNo == r.seqNo
    requires IsLeftover(s, left) && IsMaxGen(OnDisk(s, left), s.logs, maxGen) && s.unremoved.Some?
    requires s' == State(map[], maxGen + 2, [], None, OnDisk(s, left)[maxGen + 1 := Table(0, [r], 0)], r.seqNo, maxGen + 2,
                         multiset{}, map[maxGen + 2 := []], Idle, true, s.leftover || left.Some?, s.hist)
    ensures Takes(c, s, Crash([], s.logs, [g, h], maxGen, [r], 0, left), s')
  {
    hide ReplayOrder, Concat, MaxSeq, Replay, IsFlushOf, LogsReadable, IsLeftover, OnDisk, IsMaxGen, ReadableLogs;
    ReplayOfTwo(r, g, h);
    FlushOfOne(r);
  }

  // ---------- The strict order is lost ----------

  const A4 := State(map[], 5, [], None, map[3 := Table(0, [R1], 0), 4 := Table(0, [R1], 0)], 1, 5, multiset{}, map[5 := []], Idle, true, false, [R1])

  /** A write flushed to a table whose log is not yet removed when the store crashes: two tables then hold it. */
  lemma ReplayedLogBreaksStrictness(c: Config)
    requires Sane(c)
    ensures exists run: seq<State> ::
      && IsRun(c, run) && |run| == 5 && Init(run[0])
      && Stratified(run[3].tables, true) && !Stratified(run[4].tables, true)
  {
    hide Takes, IsRun, LogsReadable;
    FlushRun(c);
    RecoveryTaken(c, S3, 1, 2, R1, 3, None, A4);
    var run := [S0, S1, S2, S3] + [A4];
    ExtendRun(c, [S0, S1, S2, S3], Crash([], S3.logs, [1, 2], 3, [R1], 0, None), A4);
    var ts := A4.tables;
    assert Older(ts, 3, 4) && R1 in ts[3].recs && R1 in ts[4].recs;
    assert !Under(ts[3].recs, ts[4].recs, true);
    assert IsRun(c, run) && Init(run[0]);
  }

  // ---------- The order per key is lost ----------

  const TWO_FLUSHES := Config(2, 0, 0, 2)

  const B5 := State(map[K := R2], 2, [], None, map[3 := Table(0, [R1], 0)], 2, 3, multiset{}, map[2 := [R2]], Idle, false, false, BOTH)
  const B6 := State(map[], 4, [Imm(map[K := R2], 2)], None, map[3 := Table(0, [R1], 0)], 2, 4, multiset{}, map[2 := [R2], 4 := []], Idle, false, false, BOTH)
  const B7 := State(map[], 4, [], Some(2), map[3 := Table(0, [R1], 0), 5 := Table(0, [R2], 0)], 2, 5, multiset{}, map[2 := [R2], 4 := []], Idle, false, false, BOTH)
  const B8 := B7.(pass := Running({3, 5}, 1, true, UNBOUNDED, 6), gen := 6)
  const OUTPUT := Table(1, [R2], 0)
  const B9 := State(map[], 8, [], None,
                    map[3 := Table(0, [R1], 0), 5 := Table(0, [R2], 0), 6 := OUTPUT, 7 := Table(0, [R2], 0)],
                    2, 8, multiset{}, map[8 := []], Idle, true, true, BOTH)

  lemma SecondWrite(c: Config)
    ensures Takes(c, S4, Write(K, [8], TYPE_VALUE), B5) && Takes(c, B5, Rotate, B6) && Takes(c, B6, Register([R2], 0), B7)
  {
    hide IsFlushOf;
    FlushOfOne(R2);
    assert [] + [R2] == [R2] && [R1] + [R2] == BOTH;
    assert B5.logs == S4.logs[2 := [R2]] && B5.hist == S4.hist + [R2];
    assert B5.mem != map[] by { assert K in B5.mem; }
    assert B6.imm == B5.imm + [Imm(B5.mem, 2)] && B6.logs == B5.logs[4 := []];
    assert B7.imm == B6.imm[1..];
  }

  lemma KeptOfBoth()
    ensures Kept({R1, R2}, UNBOUNDED, true) == {R2}
  {
    assert Superseded({R1, R2}, R1, UNBOUNDED) by { assert R2 in {R1, R2}; }
    assert !Superseded({R1, R2}, R2, UNBOUNDED);
    assert forall t :: IsTop({R1, R2}, t) ==> t == R2;
    assert !Dropped({R1, R2}, K, UNBOUNDED, true);
  }

  lemma PassOverTwoFlushes()
    ensures Takes(TWO_FLUSHES, B7, Begin(UNBOUNDED), B8)
  {
    assert Level(B7.tables, 0) == {3, 5};
    assert Level(B7.tables, 1) == {};
    assert {3, 5} + {} == {3, 5};
    assert Bottommost(TWO_FLUSHES, B7.tables, 1);
  }

  lemma TwoFlushRun() returns (run: seq<State>)
    ensures IsRun(TWO_FLUSHES, run) && |run| == 9 && run[0] == S0 && run[8] == B8
  {
    hide Takes, IsRun;
    var c := TWO_FLUSHES;
    FlushRun(c);
    SecondWrite(c);
    PassOverTwoFlushes();
    run := [S0, S1, S2, S3, S4];
    ExtendRun(c, run, Write(K, [8], TYPE_VALUE), B5);
    run := run + [B5];
    ExtendRun(c, run, Rotate, B6);
    run := run + [B6];
    ExtendRun(c, run, Register([R2], 0), B7);
    run := run + [B7];
    ExtendRun(c, run, Begin(UNBOUNDED), B8);
    run := run + [B8];
  }

  lemma OutputOfTwoFlushes()
    ensures IsLeftover(B8, Some(OUTPUT)) && IsMaxGen(OnDisk(B8, Some(OUTPUT)), B8.logs, 6)
  {
    assert RecsOf(B8.tables, {3, 5}) == {R1, R2} by {
      assert R1 in B8.tables[3].recs && R2 in B8.tables[5].recs;
    }
    KeptOfBoth();
    assert ToSet([R2]) == {R2};
  }

  lemma OutputFound()
    ensures Takes(TWO_FLUSHES, B8, Crash([], B8.logs, [2, 4], 6, [R2], 0, Some(OUTPUT)), B9)
  {
    hide IsLeftover, IsMaxGen;
    OutputOfTwoFlushes();
    RecoveryTaken(TWO_FLUSHES, B8, 2, 4, R2, 6, Some(OUTPUT), B9);
  }

  /** Two flushes of one key being merged when the store crashes: the output, deeper, is newer than the first flush. */
  lemma FoundOutputBreaksOrder()
    ensures exists run: seq<State> ::
      && IsRun(TWO_FLUSHES, run) && |run| == 10 && Init(run[0])
      && Stratified(run[8].tables, true) && !Stratified(run[9].tables, false)
  {
    hide Takes, IsRun;
    var c := TWO_FLUSHES;
    var run := TwoFlushRun();
    OutputFound();
    ExtendRun(c, run, Crash([], B8.logs, [2, 4], 6, [R2], 0, Some(OUTPUT)), B9);
    run := run + [B9];
    var ts := B9.tables;
    assert Older(ts, 6, 3) && R2 in ts[6].recs && R1 in ts[3].recs;
    assert !Under(ts[6].recs, ts[3].recs, false);
    assert IsRun(c, run) && Init(run[0]);
  }

  // ---------- One table per level is lost ----------

  const ONE_FLUSH := Config(1, 0, 0, 2)

  const D5 := S4.(pass := Running({3}, 1, true, UNBOUNDED, 4), gen := 4)
  const D6 := S4.(tables := map[4 := Table(1, [R1], 0)], gen := 4)
  const D7 := State(map[K := R2], 2, [], None, map[4 := Table(1, [R1], 0)], 2, 4, multiset{}, map[2 := [R2]], Idle, false, false, BOTH)
  const D8 := State(map[], 5, [Imm(map[K := R2], 2)], None, map[4 := Table(1, [R1], 0)], 2, 5, multiset{}, map[2 := [R2], 5 := []], Idle, false, false, BOTH)
  const D9 := State(map[], 5, [], Some(2), map[4 := Table(1, [R1], 0), 6 := Table(0, [R2], 0)], 2, 6, multiset{}, map[2 := [R2], 5 := []], Idle, false, false, BOTH)
  const D10 := D9.(pass := Running({4, 6}, 1, true, UNBOUNDED, 7), gen := 7)
  const D11 := State(map[], 9, [], None,
                     map[4 := Table(1, [R1], 0), 6 := Table(0, [R2], 0), 7 := OUTPUT, 8 := Table(0, [R2], 0)],
                     2, 9, multiset{}, map[9 := []], Idle, true, true, BOTH)

  lemma FirstPass()
    ensures Takes(ONE_FLUSH, S4, Begin(UNBOUNDED), D5) && Takes(ONE_FLUSH, D5, Commit([R1], 0), D6)
  {
    assert Level(S4.tables, 0) == {3} && Level(S4.tables, 1) == {};
    assert {3} + {} == {3};
    assert Bottommost(ONE_FLUSH, S4.tables, 1);
    assert RecsOf(D5.tables, {3}) == {R1} by { assert R1 in D5.tables[3].recs; }
    assert Kept({R1}, UNBOUNDED, true) == {R1} by {
      assert !Superseded({R1}, R1, UNBOUNDED) && !Dropped({R1}, K, UNBOUNDED, true);
    }
    assert ToSet([R1]) == {R1};
    assert D6.tables == (D5.tables - {3})[4 := Table(1, [R1], 0)];
  }

  lemma SecondWriteAgain(c: Config)
    ensures Takes(c, D6, Write(K, [8], TYPE_VALUE), D7) && Takes(c, D7, Rotate, D8) && Takes(c, D8, Register([R2], 0), D9)
  {
    hide IsFlushOf;
    FlushOfOne(R2);
    assert [] + [R2] == [R2] && [R1] + [R2] == BOTH;
    assert D7.logs == D6.logs[2 := [R2]] && D7.hist == D6.hist + [R2];
    assert D7.mem != map[] by { assert K in D7.mem; }
    assert D8.imm == D7.imm + [Imm(D7.mem, 2)] && D8.logs == D7.logs[5 := []];
    assert D9.imm == D8.imm[1..];
  }

  lemma SecondPass()
    ensures Takes(ONE_FLUSH, D9, Begin(UNBOUNDED), D10)
  {
    assert Level(D9.tables, 0) == {6} && Level(D9.tables, 1) == {4};
    assert {6} + {4} == {4, 6};
    assert Bottommost(ONE_FLUSH, D9.tables, 1);
  }

  lemma TwoPassRun() returns (run: seq<State>)
    ensures IsRun(ONE_FLUSH, run) && |run| == 11 && run[0] == S0 && run[10] == D10
  {
    hide Takes, IsRun;
    var c := ONE_FLUSH;
    FlushRun(c);
    FirstPass();
    SecondWriteAgain(c);
    SecondPass();
    run := [S0, S1, S2, S3, S4];
    ExtendRun(c, run, Begin(UNBOUNDED), D5);
    run := run + [D5];
    ExtendRun(c, run, Commit([R1], 0), D6);
    run := run + [D6];
    ExtendRun(c, run, Write(K, [8], TYPE_VALUE), D7);
    run := run + [D7];
    ExtendRun(c, run, Rotate, D8);
    run := run + [D8];
    ExtendRun(c, run, Register([R2], 0), D9);
    run := run + [D9];
    ExtendRun(c, run, Begin(UNBOUNDED), D10);
    run := run + [D10];
  }

  lemma OutputOfSecondPass()
    ensures IsLeftover(D10, Some(OUTPUT)) && IsMaxGen(OnDisk(D10, Some(OUTPUT)), D10.logs, 7)
  {
    assert RecsOf(D10.tables, {4, 6}) == {R1, R2} by {
      assert R1 in D10.tables[4].recs && R2 in D10.tables[6].recs;
    }
    KeptOfBoth();
    assert ToSet([R2]) == {R2};
  }

  lemma OutputFoundAgain()
    ensures Takes(ONE_FLUSH, D10, Crash([], D10.logs, [2, 5], 7, [R2], 0, Some(OUTPUT)), D11)
  {
    hide IsLeftover, IsMaxGen;
    OutputOfSecondPass();
    RecoveryTaken(ONE_FLUSH, D10, 2, 5, R2, 7, Some(OUTPUT), D11);
  }

  /** A merge into a level that already holds a table, finished but not committed when the store crashes: the level then holds two. */
  lemma FoundOutputCrowdsLevel()
    ensures exists run: seq<State> ::
      && IsRun(ONE_FLUSH, run) && |run| == 12 && Init(run[0])
      && OneTablePerDeepLevel(run[10].tables) && !OneTablePerDeepLevel(run[11].tables)
  {
    hide Takes, IsRun;
    var c := ONE_FLUSH;
    var run := TwoPassRun();
    OutputFoundAgain();
    ExtendRun(c, run, Crash([], D10.logs, [2, 5], 7, [R2], 0, Some(OUTPUT)), D11);
    run := run + [D11];
    assert D11.tables[4].level == D11.tables[7].level == 1;
    assert IsRun(c, run) && Init(run[0]);
  }
}
