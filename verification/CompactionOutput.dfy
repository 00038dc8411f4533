/**
 The merge run by a compaction pass in a reachable state always produces a
 list the table writer accepts and that the Commit step expects.
 */
module CompactionOutput {
  import opened Bytes
  import opened Versions
  import opened Retention
  import M = Merge
  import opened Store
  import opened StoreFacts
  import opened StoreWrites
  import opened StoreTheorems

  // ---------- Records held by two tables ----------

  ghost predicate Shared(ts: Tables, g: nat, h: nat, r: Record) {
    g in ts && h in ts && g != h && r in ts[g].recs && r in ts[h].recs
  }

  /**
   A record that two tables hold (its log was replayed twice, or an output was
   found beside its inputs) is no newer than any open snapshot nor than the
   bound of a running pass that takes both.
   */
  ghost predicate SharedInv(s: State) {
    forall g, h, r :: Shared(s.tables, g, h, r) ==>
      && (forall x :: x in s.snaps ==> r.seqNo <= x)
      && (s.pass.Running? && g in s.pass.inputs && h in s.pass.inputs ==> r.seqNo <= s.pass.minKeep)
  }

  lemma SharedIsStored(c: Config, s: State)
    requires Inv(c, s)
    ensures forall g, r :: g in s.tables && r in s.tables[g].recs ==> r.seqNo <= s.seqNo <= UNBOUNDED
  {
    hide HistoryInv, LogsInv, TablesInv, PassInv, LiveInv, ImmRecs, OneVersion;
    StoredWasWritten(c, s);
    forall g, r | g in s.tables && r in s.tables[g].recs ensures r.seqNo <= s.seqNo <= UNBOUNDED {
      assert r in RecsOf(s.tables, s.tables.Keys);
      assert r in Stored(s);
    }
  }

  lemma RegisterSharesNothing(c: Config, s: State, step: Step, g: nat, h: nat, r: Record)
    requires Inv(c, s) && step.Register? && Enabled(c, s, step)
    requires Shared(Apply(c, s, step).tables, g, h, r)
    ensures Shared(s.tables, g, h, r)
  {
    hide HistoryInv, LogsInv, PassInv, LiveInv, Stratified, AllCapped, StrictlyOrdered, OneTablePerDeepLevel, Flushed, Pending;
    TablesUnderMemtables(c, s);
    RegisterMovesLog(c, s, step);
    OldestIsItsLog(s);
    forall q | q in step.recs ensures q !in RecsOf(s.tables, s.tables.Keys) {
      assert q in ToSet(step.recs);
      assert q in Pending(s);
    }
  }

  lemma CommitShares(c: Config, s: State, step: Step, g: nat, h: nat, r: Record)
    requires Inv(c, s) && step.Commit? && Enabled(c, s, step)
    requires Shared(Apply(c, s, step).tables, g, h, r)
    ensures exists g', h' :: Shared(s.tables, g', h', r)
  {
    hide HistoryInv, LogsInv, LiveInv, TablesInv, Superseded, Dropped, StrictlyOrdered, SnapshotsServed;
    var p := s.pass;
    if g == p.out || h == p.out {
      var o := if g == p.out then h else g;
      assert r in ToSet(step.out);
      assert r in RecsOf(s.tables, p.inputs);
      var i :| i in p.inputs && i in s.tables && r in s.tables[i].recs;
      assert Shared(s.tables, i, o, r);
    } else {
      assert Shared(s.tables, g, h, r);
    }
  }

  lemma SharedRegister(c: Config, s: State, step: Step)
    requires Inv(c, s) && SharedInv(s) && step.Register? && Enabled(c, s, step)
    ensures SharedInv(Apply(c, s, step))
  {
    hide Inv, IsFlushOf, Shared;
    var s' := Apply(c, s, step);
    forall g, h, r | Shared(s'.tables, g, h, r) ensures Shared(s.tables, g, h, r) {
      RegisterSharesNothing(c, s, step, g, h, r);
    }
  }

  lemma SharedCommit(c: Config, s: State, step: Step)
    requires Inv(c, s) && SharedInv(s) && step.Commit? && Enabled(c, s, step)
    ensures SharedInv(Apply(c, s, step))
  {
    hide Inv, StrictlyOrdered, Kept, RecsOf, Shared, Swapped;
    var s' := Apply(c, s, step);
    forall g, h, r | Shared(s'.tables, g, h, r) ensures forall x :: x in s'.snaps ==> r.seqNo <= x {
      CommitShares(c, s, step, g, h, r);
    }
  }

  /** Snapshots opened and bounds sampled now lie at or above everything stored. */
  lemma SharedSampled(c: Config, s: State, step: Step)
    requires Inv(c, s) && SharedInv(s) && (step.Begin? || step.OpenSnapshot? || step.CloseSnapshot?) && Enabled(c, s, step)
    ensures SharedInv(Apply(c, s, step))
  {
    hide Inv, Pick, Bottommost, Shared;
    var s' := Apply(c, s, step);
    SharedIsStored(c, s);
    forall g, h, r | Shared(s'.tables, g, h, r)
      ensures forall x :: x in s'.snaps ==> r.seqNo <= x
      ensures s'.pass.Running? && g in s'.pass.inputs && h in s'.pass.inputs ==> r.seqNo <= s'.pass.minKeep
    {
      SharedMember(s.tables, g, h, r);
    }
  }

  lemma SharedStep(c: Config, s: State, step: Step)
    requires Inv(c, s) && SharedInv(s) && Enabled(c, s, step)
    ensures SharedInv(Apply(c, s, step))
  {
    hide Inv, Pick, IsFlushOf, StrictlyOrdered, Kept, Recoverable, Concat, MaxSeq, Shared;
    if step.Register? {
      SharedRegister(c, s, step);
    } else if step.Commit? {
      SharedCommit(c, s, step);
    } else if step.Begin? || step.OpenSnapshot? || step.CloseSnapshot? {
      SharedSampled(c, s, step);
    }
  }

  lemma SharedMember(ts: Tables, g: nat, h: nat, r: Record)
    requires Shared(ts, g, h, r)
    ensures g in ts && h in ts && g != h && r in ts[g].recs && r in ts[h].recs
  {
  }

  lemma {:induction false} RunKeepsShared(c: Config, run: seq<State>, n: nat)
    requires Sane(c) && IsRun(c, run) && Init(run[0]) && n < |run|
    ensures SharedInv(run[n]) && Inv(c, run[n])
    decreases n
  {
    hide Inv, SharedInv, Enabled, Apply;
    InitInv(c, run[0]);
    RunKeepsInv(c, run);
    if n == 0 {
      assert SharedInv(run[0]) by { NoTablesNoSharing(run[0]); }
    } else {
      RunKeepsShared(c, run, n - 1);
      assert Next(c, run[n - 1], run[n - 1 + 1]);
      var step :| Enabled(c, run[n - 1], step) && run[n] == Apply(c, run[n - 1], step);
      SharedStep(c, run[n - 1], step);
    }
  }

  lemma NoTablesNoSharing(s: State)
    requires s.tables == map[]
    ensures SharedInv(s)
  {
  }

  // ---------- Counting occurrences over the inputs ----------

  /** The record lists of the given tables. */
  function ListsOf(ts: Tables, gens: seq<nat>): (r: seq<seq<Record>>)
    ensures |r| == |gens|
    ensures forall i :: 0 <= i < |gens| ==> r[i] == (if gens[i] in ts then ts[gens[i]].recs else [])
  {
    seq(|gens|, i requires 0 <= i < |gens| => if gens[i] in ts then ts[gens[i]].recs else [])
  }

  ghost predicate Distinct(a: seq<nat>) {
    forall i, j :: 0 <= i < j < |a| ==> a[i] != a[j]
  }

  lemma {:induction false} TwiceMeansTwoLists(lists: seq<seq<Record>>, r: Record)
    requires forall i :: 0 <= i < |lists| ==> multiset(lists[i])[r] <= 1
    requires M.Union(lists)[r] >= 2
    ensures exists i, j :: 0 <= i < j < |lists| && r in lists[i] && r in lists[j]
  {
    var n := |lists| - 1;
    var front := lists[..n];
    if M.Union(front)[r] >= 2 {
      TwiceMeansTwoLists(front, r);
      var i, j :| 0 <= i < j < |front| && r in front[i] && r in front[j];
      assert r in lists[i] && r in lists[j];
    } else {
      assert r in M.Union(front) && r in multiset(lists[n]);
      M.UnionMembers(front, r);
      var i :| 0 <= i < |front| && r in front[i];
      assert r in lists[i] && r in lists[n];
    }
  }

  lemma StrictOnce(l: seq<Record>, r: Record)
    requires StrictlyOrdered(l)
    ensures multiset(l)[r] <= 1
  {
    if i :| 0 <= i < |l| && l[i] == r {
      var a, b := l[..i], l[i + 1..];
      assert l == a + [r] + b;
      LessIrreflexive(r.key);
      assert r !in a && r !in b;
      assert multiset(a)[r] == 0 && multiset(b)[r] == 0;
    } else {
      assert r !in multiset(l);
    }
  }

  lemma TwoPlaces(l: seq<Record>, i: nat, j: nat)
    requires i < j < |l| && l[i] == l[j]
    ensures multiset(l)[l[i]] >= 2
  {
    assert l == l[..i] + [l[i]] + l[i + 1..j] + [l[j]] + l[j + 1..];
  }

  // ---------- The merge a pass runs ----------

  /** No version above the pass's bound occurs twice in its inputs. */
  lemma InputsHaveNoDuplicateAbove(c: Config, s: State, gens: seq<nat>, all: seq<Record>)
    requires Inv(c, s) && SharedInv(s) && s.pass.Running?
    requires ToSet(gens) == s.pass.inputs && Distinct(gens)
    requires multiset(all) == M.Union(ListsOf(s.tables, gens))
    ensures NoDuplicateAbove(all, s.pass.minKeep)
    ensures ToSet(all) == RecsOf(s.tables, s.pass.inputs)
  {
    hide HistoryInv, LogsInv, LiveInv, Stratified, AllCapped, OneTablePerDeepLevel, Flushed, SnapshotsServed, StrictlyOrdered, M.Union, ListsOf;
    var lists := ListsOf(s.tables, gens);
    assert forall i :: 0 <= i < |gens| ==> gens[i] in s.pass.inputs by {
      assert forall i :: 0 <= i < |gens| ==> gens[i] in ToSet(gens);
    }
    InputRecords(s, gens, all);
    OneVersionOfInputs(c, s);
    forall i, j | 0 <= i < j < |all| && all[i].key == all[j].key && all[i].seqNo == all[j].seqNo
      ensures all[i].seqNo <= s.pass.minKeep
    {
      var r := all[i];
      assert r in ToSet(all) && all[j] in ToSet(all);
      assert all[j] == r;
      TwoPlaces(all, i, j);
      forall i | 0 <= i < |lists| ensures multiset(lists[i])[r] <= 1 {
        StrictOnce(lists[i], r);
      }
      TwiceMeansTwoLists(lists, r);
      var a, b :| 0 <= a < b < |lists| && r in lists[a] && r in lists[b];
      assert Shared(s.tables, gens[a], gens[b], r);
    }
  }

  lemma InputRecords(s: State, gens: seq<nat>, all: seq<Record>)
    requires s.pass.Running? && s.pass.inputs <= s.tables.Keys && ToSet(gens) == s.pass.inputs
    requires multiset(all) == M.Union(ListsOf(s.tables, gens))
    ensures ToSet(all) == RecsOf(s.tables, s.pass.inputs)
  {
    hide M.Union, ListsOf;
    var lists := ListsOf(s.tables, gens);
    forall r ensures r in ToSet(all) <==> r in RecsOf(s.tables, s.pass.inputs) {
      assert r in all <==> r in multiset(all);
      M.UnionMembers(lists, r);
      if i :| 0 <= i < |lists| && r in lists[i] {
        assert gens[i] in ToSet(gens);
        assert r in s.tables[gens[i]].recs;
      }
      if r in RecsOf(s.tables, s.pass.inputs) {
        var g :| g in s.pass.inputs && g in s.tables && r in s.tables[g].recs;
        assert g in ToSet(gens);
        var i :| 0 <= i < |gens| && gens[i] == g;
        assert r in lists[i];
      }
    }
  }

  lemma OneVersionOfInputs(c: Config, s: State)
    requires Inv(c, s) && s.pass.Running?
    ensures OneVersion(RecsOf(s.tables, s.pass.inputs))
  {
    hide HistoryInv, LogsInv, TablesInv, LiveInv, PassInv, ImmRecs, RecsOf, OneVersion;
    StoredWasWritten(c, s);
    InputsAreStored(s.tables, s.pass.inputs);
    PartOneVersion(Stored(s), RecsOf(s.tables, s.pass.inputs));
  }

  /**
   In every reachable state with a pass running, the merge of its inputs, in
   whatever order they are listed, is strictly ordered and keeps exactly what
   Commit requires: the table writer never rejects a compaction.
   */
  lemma CompactionIsNeverRejected(c: Config, run: seq<State>, n: nat, gens: seq<nat>, all: seq<Record>, size: nat)
    requires Sane(c) && IsRun(c, run) && Init(run[0]) && n < |run|
    requires run[n].pass.Running? && ToSet(gens) == run[n].pass.inputs && Distinct(gens)
    requires multiset(all) == M.Union(ListsOf(run[n].tables, gens)) && Ordered(all)
    ensures var out := Retain(all, run[n].pass.minKeep, run[n].pass.bottom);
            StrictlyOrdered(out) && Enabled(c, run[n], Commit(out, size))
  {
    hide Inv, SharedInv, IsRun, Init, ListsOf, M.Union, Ordered, StrictlyOrdered, Kept, RecsOf, OneVersion, Retain, Distinct, NoDuplicateAbove,
         Recoverable, LogsReadable, IsFlushOf, Pick, IsMinSnap;
    var s := run[n];
    RunKeepsShared(c, run, n);
    InputsHaveNoDuplicateAbove(c, s, gens, all);
    OneVersionOfInputs(c, s);
    RetainStrictExact(all, s.pass.minKeep, s.pass.bottom);
    RetainIsKept(all, s.pass.minKeep, s.pass.bottom);
  }
}
