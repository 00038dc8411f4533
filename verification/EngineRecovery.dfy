/** `recoverFromWALs`: log bytes, possibly ending in a torn record, replayed into one memtable. */
module EngineRecovery {
  import opened Bytes
  import opened Versions
  import H = History
  import opened Store
  import opened StoreRecovery
  import opened EngineParts
  import opened TableLists
  import M = MemTables
  import SL = SkipLists
  import W = Wal

  /** What a crash leaves of a log: every completed append, then perhaps part of one more. */
  ghost predicate Crashed(e: Env, bytes: Bytes, recs: seq<Record>) {
    && W.AllRepresentable(recs)
    && exists last, torn :: W.Representable(last) && torn < W.Encode(e.crc, last) && bytes == W.EncodeAll(e.crc, recs) + torn
  }

  lemma CrashedReplays(e: Env, bytes: Bytes, recs: seq<Record>)
    requires Crashed(e, bytes, recs)
    ensures W.Replayed(e.crc, bytes) == Readable(recs)
  {
    hide W.Encode, W.EncodeAll, W.Replayed;
    var last, torn :| W.Representable(last) && torn < W.Encode(e.crc, last) && bytes == W.EncodeAll(e.crc, recs) + torn;
    W.ReplayOfLog(e.crc, recs, last, torn);
  }

  /** The replay callback over one log: every record overwrites its key and raises `maxSeq`. */
  method ApplyLog(mt: M.MemTable, recs: seq<Record>, maxSeq0: nat, ghost done: seq<Record>) returns (maxSeq: nat)
    requires mt.Valid() && mt.Contents() == H.Replay(map[], done) && maxSeq0 == MaxSeq(done)
    modifies mt.Repr()
    ensures mt.Valid() && fresh(mt.Repr() - old(mt.Repr()))
    ensures mt.Contents() == H.Replay(map[], done + recs) && maxSeq == MaxSeq(done + recs)
  {
    hide M.MemTable.Valid, M.MemTable.Contents, H.Replay, MaxSeq;
    maxSeq := maxSeq0;
    assert done + recs[..0] == done;
    for i := 0 to |recs|
      invariant mt.Valid() && fresh(mt.Repr() - old(mt.Repr()))
      invariant mt.Contents() == H.Replay(map[], done + recs[..i]) && maxSeq == MaxSeq(done + recs[..i])
    {
      var rec := recs[i];
      assert done + recs[..i + 1] == done + recs[..i] + [rec];
      ReplayOne(done + recs[..i], rec);
      if rec.seqNo > maxSeq {
        maxSeq := rec.seqNo;
      }
      var height :| 1 <= height <= SL.MAX_LEVEL;
      mt.Write(rec, height);
    }
    assert recs[..|recs|] == recs;
  }

  lemma ReplayOne(h: seq<Record>, r: Record)
    ensures H.Replay(map[], h + [r]) == H.Replay(map[], h)[r.key := r]
    ensures MaxSeq(h + [r]) == if r.seqNo > MaxSeq(h) then r.seqNo else MaxSeq(h)
  {
    assert (h + [r])[..|h|] == h;
  }

  method ReplayLogs(e: Env, disk: map<nat, Bytes>, order: seq<nat>, ghost logs: map<nat, seq<Record>>)
      returns (mt: M.MemTable, maxSeq: nat)
    requires forall i :: 0 <= i < |order| ==> order[i] in disk && order[i] in logs && Crashed(e, disk[order[i]], logs[order[i]])
    ensures fresh(mt.Repr()) && mt.Valid()
    ensures mt.Contents() == H.Replay(map[], Concat(ReadableLogs(logs), order)) && maxSeq == MaxSeq(Concat(ReadableLogs(logs), order))
  {
    hide M.MemTable.Valid, M.MemTable.Contents, H.Replay, MaxSeq, Crashed, Concat, W.Replayed, Readable;
    ghost var read := ReadableLogs(logs);
    mt := new M.MemTable();
    maxSeq := 0;
    NothingReplayed(read);
    assert order[..0] == [];
    for i := 0 to |order|
      invariant fresh(mt.Repr()) && mt.Valid()
      invariant mt.Contents() == H.Replay(map[], Concat(read, order[..i])) && maxSeq == MaxSeq(Concat(read, order[..i]))
    {
      CrashedReplays(e, disk[order[i]], logs[order[i]]);
      var recs := W.Replay(e.crc, disk[order[i]]);
      assert LogOf(read, order[i]) == recs;
      assert order[..i + 1] == order[..i] + [order[i]];
      ConcatAppend(read, order[..i], [order[i]]);
      ConcatOne(read, order[i]);
      maxSeq := ApplyLog(mt, recs, maxSeq, Concat(read, order[..i]));
    }
    assert order[..|order|] == order;
  }

  lemma NothingReplayed(logs: map<nat, seq<Record>>)
    ensures Concat(logs, []) == [] && H.Replay(map[], []) == map[] && MaxSeq([]) == 0
  {
  }

  /** The highest generation `scanDir` sees. */
  method MaxGeneration(tables: seq<Leveled>, order: seq<nat>) returns (max: nat)
    ensures (forall t :: t in tables ==> t.gen <= max) && (forall g :: g in order ==> g <= max)
    ensures max == 0 || max in Gens(tables) || max in order
  {
    max := 0;
    for i := 0 to |order|
      invariant (forall j :: 0 <= j < i ==> order[j] <= max) && (max == 0 || max in order)
    {
      if order[i] > max {
        max := order[i];
      }
    }
    for i := 0 to |tables|
      invariant (forall j :: 0 <= j < i ==> tables[j].gen <= max) && (forall g :: g in order ==> g <= max)
      invariant max == 0 || max in Gens(tables) || max in order
    {
      if tables[i].gen > max {
        max := tables[i].gen;
        assert tables[i] in tables;
      }
    }
  }

  lemma MaxGenerationIs(ts: Tables, logs: map<nat, seq<Record>>, tables: seq<Leveled>, order: seq<nat>, max: nat)
    requires DistinctGens(tables) && ToTables(tables) == ts && ToSet(order) == logs.Keys
    requires (forall t :: t in tables ==> t.gen <= max) && (forall g :: g in order ==> g <= max)
    requires max == 0 || max in Gens(tables) || max in order
    ensures IsMaxGen(ts, logs, max)
  {
    hide ToTables;
    ToTablesAll(tables);
    forall h | h in ts ensures h <= max {
      var i := Listed(tables, h);
      assert tables[i] in tables;
    }
    forall h | h in logs ensures h <= max {
      assert h in ToSet(order);
    }
    if max in order {
      assert max in ToSet(order);
    }
  }
}
