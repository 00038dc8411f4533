/**
 The engine as it runs: memtables are skip lists, tables are opened files,
 logs are bytes. Every method is one critical section of engine/engine.go and
 is proved to take the matching step of the store's state machine, so what is
 proved of all runs of that machine holds of the running engine.
 */
module Engines {
  import opened Bytes
  import opened Versions
  import H = History
  import opened Store
  import opened StoreFacts
  import opened StoreTheorems
  import opened CompactionOutput
  import opened TableLists
  import opened TableStore
  import opened EngineParts
  import M = MemTables
  import SL = SkipLists
  import W = Wal
  import TR = TableReads
  import S = SSTables
  import Mg = Merge
  import Scan
  import R = Retention
  import opened Picking
  import opened EngineReads
  import opened EngineRecovery
  import St = Store
  import V = Versions
  import TableFiles
  import StoreRecovery
  import Losses

  const ERR_EMPTY_KEY := "engine: key must not be empty"

  /** What holds of every state the engine reaches. */
  ghost predicate Proper(e: Env, s: State) {
    Inv(e.cfg, s) && SharedInv(s) && AllFit(s.hist)
  }

  lemma StepSound(e: Env, s: State, step: Step)
    requires Proper(e, s) && Enabled(e.cfg, s, step)
    requires step.Write? ==> |step.key| < UINT32 && |step.value| < UINT32
    ensures Proper(e, Apply(e.cfg, s, step))
  {
    hide Inv, SharedInv, Pick, IsFlushOf, ReplayOrder, Kept;
    StepKeepsInv(e.cfg, s, step);
    SharedStep(e.cfg, s, step);
  }

  class Engine {
    const env: Env
    var mem: M.MemTable
    var memLog: nat
    var imm: seq<ImmEntry>            // oldest first
    var unremoved: Option<nat>        // log of the memtable the flush worker has just registered
    var tables: seq<Leveled>
    var seqNo: nat
    var gen: nat
    var activeSnapshots: map<nat, nat>
    var logs: map<nat, Bytes>         // log files by generation
    var pass: Option<Compaction>
    ghost var st: State               // what all of the above stands for
    ghost var memRepr: set<object>
    ghost var immRepr: set<object>

    ghost predicate FieldsHold()
      reads this
    {
      && memLog == st.memLog && unremoved == st.unremoved && seqNo == st.seqNo && gen == st.gen
      && TablesHold(env, tables, st.tables) && LogsHold(env, logs, st.logs)
      && SnapsHold(activeSnapshots, st.snaps) && PassHolds(pass, tables, st.pass)
    }

    /** The engine stands for `st`. */
    ghost predicate Represents()
      reads this, memRepr, immRepr
    {
      && this !in memRepr && this !in immRepr && memRepr !! immRepr
      && Holds(mem, st.mem, memRepr) && ImmHold(imm, st.imm, immRepr)
      && FieldsHold() && Sound(env)
    }

    /** Enough for reading; holds of a reopened store also when its Seq counter was lost with the logs. */
    ghost predicate Answering()
      reads this, memRepr, immRepr
    {
      Represents() && ReadsWell(st)
    }

    ghost predicate Valid()
      reads this, memRepr, immRepr
    {
      Represents() && Proper(env, st)
    }

    /** `Open` on an empty directory. */
    constructor Create(env: Env)
      requires Sound(env)
      ensures Valid() && this.env == env && Init(st) && fresh(memRepr) && immRepr == {}
    {
      hide Proper, M.MemTable.Valid, M.MemTable.Contents, ToTables;
      this.env := env;
      var m := new M.MemTable();
      mem, memLog, imm, unremoved, tables, seqNo, gen := m, 1, [], None, [], 0, 1;
      activeSnapshots, logs, pass := map[], map[1 := []], None;
      st := State(map[], 1, [], None, map[], 0, 1, multiset{}, map[1 := []], Idle, false, false, []);
      memRepr, immRepr := m.Repr(), {};
      new;
      InitProper(env, st);
    }

    /**
     `Open` on what state `s` left: the tables found on disk, a running pass's
     finished output among them if there is one, and the log files in name
     order, each possibly ending in a torn record; after a clean close there is
     no log file. Reads are answered at once. To write on, the logs must have
     kept the last Seq handed out.
     */
    constructor Reopen(env: Env, dir: Bytes, found: seq<Leveled>, disk: map<nat, Bytes>, order: seq<nat>,
                       ghost s: State, ghost files: map<nat, seq<Record>>, ghost left: Option<Table>)
      requires Sound(env) && Proper(env, s) && FilesFit(s.hist) && s.gen < UINT64
      requires IsLeftover(s, left) && TablesHold(env, found, OnDisk(s, left))
      requires LogsOnDisk(s, files) && ReplayOrder(dir, files, order)
      requires disk.Keys == files.Keys && forall g :: g in disk ==> Crashed(env, disk[g], files[g])
      ensures Answering() && this.env == env && fresh(memRepr) && immRepr == {}
      ensures exists step: Step :: step.Crash? && step.logs == files && Recoverable(s, step) && st == Restored(s, step)
      ensures forall k :: H.LastWrite(s.hist, k).Some? ==>
                (Newest(Stored(st), k, UNBOUNDED) == H.LastWrite(s.hist, k) <==> Survives(s, files, H.LastWrite(s.hist, k).value))
      ensures LogsReadable(files) ==> forall k :: St.Get(st, k, UNBOUNDED) == St.Get(s, k, UNBOUNDED)
      ensures LogsReadable(files) && MaxSeq(Surviving(s)) == s.seqNo ==> Valid() && exists step :: Takes(env.cfg, s, step, st)
    {
      hide Proper, FieldsHold, TablesHold, Holds, M.MemTable.Valid, M.MemTable.Contents, Enabled, Apply, St.Get, ReplayOrder, Crashed, FilesFit, MaxSeq, Surviving,
           Recoverable, Restored, Replayable, LogsReadable, ReadsWell, Survives, Newest, Stored, H.LastWrite, IsLeftover, OnDisk, LogsOnDisk;
      var list, maxSeq, g;
      ghost var step;
      list, maxSeq, g, step := Recover(env, dir, found, disk, order, s, files, left);
      this.env := env;
      var m := new M.MemTable();
      mem, memLog, imm, unremoved, tables, seqNo, gen := m, g + 1, [], None, list, maxSeq, g + 1;
      activeSnapshots, logs, pass := map[], map[g + 1 := []], None;
      st := Restored(s, step);
      memRepr, immRepr := m.Repr(), {};
      new;
      assert Holds(mem, map[], memRepr) by { FormHolds(mem, map[], memRepr); }
      assert FieldsHold() by { RecoveredFields(this); }
      RestoredReadsWell(env, s, step);
      forall k | H.LastWrite(s.hist, k).Some?
        ensures Newest(Stored(st), k, UNBOUNDED) == H.LastWrite(s.hist, k) <==> Survives(s, files, H.LastWrite(s.hist, k).value)
      {
        RestoredNewest(env, s, step, k);
      }
      if LogsReadable(files) {
        forall k ensures St.Get(st, k, UNBOUNDED) == St.Get(s, k, UNBOUNDED) {
          RestoredReads(env, s, step, k);
        }
        if MaxSeq(Surviving(s)) == s.seqNo {
          RestoredTakes(env, s, step);
        }
      }
    }

    // ---------- Writing ----------

    /** `write` as far as it holds the read lock: Seq, log append, memtable. Returns whether the memtable is now full. */
    method Append(key: Key, value: Bytes, typ: byte, height: nat) returns (full: Result<bool>)
      requires Valid() && seqNo < UNBOUNDED && 1 <= height <= SL.MAX_LEVEL
      requires (typ == TYPE_VALUE || typ == TYPE_TOMBSTONE) && |key| < UINT32 && |value| < UINT32
      modifies this, memRepr
      ensures Valid() && fresh(memRepr - old(memRepr)) && immRepr == old(immRepr)
      ensures key == [] ==> full == Err(ERR_EMPTY_KEY) && st == old(st)
      ensures key != [] ==> full == Ok(mem.size >= env.flushThreshold) && Takes(env.cfg, old(st), Step.Write(key, value, typ), st)
      ensures key != [] ==> mem == old(mem) && mem.size == old(mem.size) + |key| + |value| + 48
    {
      hide Represents, Enabled, Apply, Proper, TablesHold, SnapsHold, PassHolds, LogsHold, Sound, W.Encode, ImmHold, M.MemTable.Valid, M.MemTable.Contents, M.MemTable.Repr;
      Parts(this);
      if key == [] {
        return Err(ERR_EMPTY_KEY);
      }
      ghost var step := Step.Write(key, value, typ);
      WriteTakes(env.cfg, st, step);
      StepSound(env, st, step);
      ghost var s' := Apply(env.cfg, st, step);
      assert memLog in st.logs by { ActiveLog(env, st); }
      var r := Record(key, value, typ, seqNo + 1);
      AppendLog(env, logs, st.logs, memLog, r);
      Log(r, s');
      mem.Write(r, height);
      memRepr := memRepr + mem.Repr();
      assert Holds(mem, st.mem, memRepr) by { FormHolds(mem, st.mem, memRepr); }
      FormValid(this);
      return Ok(mem.size >= env.flushThreshold);
    }

    /**
     `write`, behind `Put` and `Delete`: the write step, and the rotate step too
     exactly when the write fills the memtable.
     */
    method Write(key: Key, value: Bytes, typ: byte, height: nat) returns (rotated: Result<bool>, ghost mid: State)
      requires Valid() && seqNo < UNBOUNDED && 1 <= height <= SL.MAX_LEVEL
      requires (typ == TYPE_VALUE || typ == TYPE_TOMBSTONE) && |key| < UINT32 && |value| < UINT32
      modifies this, memRepr
      ensures Valid() && fresh(memRepr + immRepr - old(memRepr) - old(immRepr))
      ensures key == [] ==> rotated == Err(ERR_EMPTY_KEY) && st == old(st)
      ensures key != [] ==> rotated == Ok(old(mem.size) + |key| + |value| + 48 >= env.flushThreshold)
      ensures key != [] ==> Takes(env.cfg, old(st), Step.Write(key, value, typ), mid)
      ensures key != [] ==> mem.size == if rotated.value then 0 else old(mem.size) + |key| + |value| + 48
      ensures key != [] ==> if rotated.value then Takes(env.cfg, mid, Step.Rotate, st) else st == mid
    {
      hide Valid, Takes, M.MemTable.Repr;
      var full := Append(key, value, typ, height);
      mid := st;
      if full.Err? {
        return full, mid;
      }
      if full.value {
        Rotate();
      }
      return full, mid;
    }

    /** `Put`: the key reads as the value, every other key as before. */
    method Put(key: Key, value: Bytes, height: nat) returns (r: Result<bool>)
      requires Valid() && seqNo < UNBOUNDED && 1 <= height <= SL.MAX_LEVEL && |key| < UINT32 && |value| < UINT32
      modifies this, memRepr
      ensures Valid() && fresh(memRepr + immRepr - old(memRepr) - old(immRepr))
      ensures key == [] ==> r == Err(ERR_EMPTY_KEY) && st == old(st)
      ensures key != [] ==> r.Ok? && forall k :: St.Get(st, k, UNBOUNDED) == if k == key then Some(value) else St.Get(old(st), k, UNBOUNDED)
    {
      hide Represents, Takes, Proper, St.Get;
      ghost var s, mid := st, st;
      r, mid := Write(key, value, TYPE_VALUE, height);
      if key != [] {
        WriteIsRead(env, s, Step.Write(key, value, TYPE_VALUE), mid, st);
      }
    }

    /** `Delete`: the key is not found, every other key reads as before. */
    method Delete(key: Key, height: nat) returns (r: Result<bool>)
      requires Valid() && seqNo < UNBOUNDED && 1 <= height <= SL.MAX_LEVEL && |key| < UINT32
      modifies this, memRepr
      ensures Valid() && fresh(memRepr + immRepr - old(memRepr) - old(immRepr))
      ensures key == [] ==> r == Err(ERR_EMPTY_KEY) && st == old(st)
      ensures key != [] ==> r.Ok? && forall k :: St.Get(st, k, UNBOUNDED) == if k == key then None else St.Get(old(st), k, UNBOUNDED)
    {
      hide Represents, Takes, Proper, St.Get;
      ghost var s, mid := st, st;
      r, mid := Write(key, [], TYPE_TOMBSTONE, height);
      if key != [] {
        WriteIsRead(env, s, Step.Write(key, [], TYPE_TOMBSTONE), mid, st);
      }
    }

    /** Take the next Seq and append the record to the active log. */
    method Log(r: Record, ghost s': State)
      requires memLog in logs
      modifies `seqNo, `logs, `st
      ensures seqNo == old(seqNo) + 1 && logs == old(logs)[memLog := old(logs)[memLog] + W.Encode(env.crc, r)] && st == s'
    {
      seqNo := seqNo + 1;
      var buf := W.Build(env.crc, r);
      logs := logs[memLog := logs[memLog] + buf];
      st := s';
    }

    /** `rotate`: does nothing when another writer already rotated. */
    method Rotate()
      requires Valid()
      modifies this
      ensures Valid() && fresh(memRepr - old(memRepr)) && immRepr <= old(memRepr) + old(immRepr)
      ensures old(mem.size) < env.flushThreshold ==> st == old(st) && mem == old(mem) && mem.size == old(mem.size)
      ensures old(mem.size) >= env.flushThreshold ==> mem.size == 0
      ensures old(mem.size) >= env.flushThreshold ==> Takes(env.cfg, old(st), Step.Rotate, st)
    {
      hide Represents, Enabled, Apply, Proper, TablesHold, SnapsHold, PassHolds, LogsHold, Holds, ImmHold, M.MemTable.Valid, M.MemTable.Contents, M.MemTable.Repr, S.Lawful;
      if mem.size < env.flushThreshold {
        return;
      }
      Parts(this);
      assert st.mem != map[] by { FullHolds(mem, st.mem, memRepr); }
      RotateTakes(env.cfg, st);
      StepSound(env, st, Step.Rotate);
      ghost var s' := Apply(env.cfg, st, Step.Rotate);
      AddLog(env, logs, st.logs, gen + 1);
      ImmPush(imm, st.imm, immRepr, mem, memLog, st.mem, memRepr);
      var empty := new M.MemTable();
      ghost var repr := empty.Repr();
      ghost var older := immRepr + memRepr;
      assert repr !! older && this !in repr && this !in older;
      assert Holds(empty, map[], repr) by { FormHolds(empty, map[], repr); }
      SwapIn(empty, repr, s');
      FormValid(this);
    }

    /** The assignments of `rotate` under the lock. */
    method SwapIn(empty: M.MemTable, ghost repr: set<object>, ghost s': State)
      modifies `imm, `mem, `gen, `memLog, `logs, `st, `memRepr, `immRepr
      ensures imm == old(imm) + [ImmEntry(old(mem), old(memLog))] && mem == empty
      ensures gen == memLog == old(gen) + 1 && logs == old(logs)[gen := []]
      ensures st == s' && memRepr == repr && immRepr == old(immRepr) + old(memRepr)
    {
      imm := imm + [ImmEntry(mem, memLog)];
      immRepr := immRepr + memRepr;
      mem, memRepr, st := empty, repr, s';
      gen := gen + 1;
      memLog := gen;
      logs := logs[gen := []];
    }

    // ---------- Flushing ----------

    /** `doFlush` up to the point where the new table is registered. It cannot fail. */
    method Register() returns (ghost recs: seq<Record>, ghost size: nat)
      requires Valid() && imm != [] && unremoved.None? && FilesFit(st.hist)
      modifies this
      ensures Valid() && memRepr == old(memRepr) && immRepr == old(immRepr)
      ensures Takes(env.cfg, old(st), Step.Register(recs, size), st)
    {
      hide Represents, Enabled, Apply, Proper, TablesHold, SnapsHold, PassHolds, LogsHold, Holds, ImmHold, IsFileOf, StrictlyOrdered, FileFits, FilesFit, IsFlushOf, M.MemTable.Valid, M.MemTable.Contents, S.Lawful;
      Parts(this);
      ImmOldest(imm, st.imm, immRepr);
      var records := imm[0].mt.BuildRecords();
      OldestFits(env, st, records);
      var t := WriteAndOpen(env.codec, env.hash, records, env.compress, true, env.numBits, env.numHash);
      recs, size := records, |t.value.file|;
      ghost var step := Step.Register(recs, size);
      RegisterTakes(env.cfg, st, step);
      StepSound(env, st, step);
      ghost var s' := Apply(env.cfg, st, step);
      var added := Leveled(gen + 1, Table(0, records, |t.value.file|), t.value);
      FreshGeneration(env, st);
      AppendTable(env, tables, st.tables, added);
      PassStaysListed(pass, tables, added, st.pass);
      Enlist(added, s');
      FormValid(this);
    }

    /** The assignments of `doFlush` under the lock. */
    method Enlist(added: Leveled, ghost s': State)
      requires imm != []
      modifies `tables, `gen, `unremoved, `imm, `st
      ensures tables == old(tables) + [added] && gen == old(gen) + 1 && unremoved == Some(old(imm)[0].log)
      ensures imm == old(imm)[1..] && st == s'
    {
      tables := tables + [added];
      gen := gen + 1;
      unremoved := Some(imm[0].log);
      imm := imm[1..];
      st := s';
    }

    /** The rest of `doFlush`: the log of the registered memtable goes. */
    method RemoveLog()
      requires Valid() && unremoved.Some?
      modifies this
      ensures Valid() && memRepr == old(memRepr) && immRepr == old(immRepr)
      ensures Takes(env.cfg, old(st), Step.RemoveLog, st)
    {
      hide S.Lawful, Pick, Swapped, MaxSeq, Concat, ReplayOrder, IsMaxGen, Bottommost, H.Replay, Kept, Proper, TablesHold, SnapsHold, PassHolds,  W.EncodeAll, Holds;
      StepSound(env, st, Step.RemoveLog);
      logs := logs - {unremoved.value};
      unremoved := None;
      st := Apply(env.cfg, st, Step.RemoveLog);
    }

    // ---------- Compaction ----------

    /** `runCompaction` up to the merge: choose inputs, sample `isBottommost` and `minKeepSeq`, name the output. */
    method BeginCompaction() returns (started: bool)
      requires Valid() && pass.None?
      modifies `pass, `gen, `st
      ensures Valid()
      ensures started <==> Pick(env.cfg, old(st).tables).Some?
      ensures started ==> pass.Some? && Takes(env.cfg, old(st), Step.Begin(pass.value.minKeep), st)
      ensures started ==> TakesDueLevel(env.cfg, tables, pass.value.inputs, pass.value.target)
      ensures started ==> if activeSnapshots == map[] then pass.value.minKeep == 0xFFFF_FFFF_FFFF_FFFF
                          else pass.value.minKeep in activeSnapshots && forall x :: x in activeSnapshots ==> pass.value.minKeep <= x
      ensures !started ==> st == old(st) && pass.None? && NothingDue(env.cfg, tables)
    {
      hide Represents, Proper, LogsHold, Holds, ImmHold, Pick, Bottommost, ToTables, IsFileOf, Sound, DistinctGens, Gens, TakesDueLevel, NothingDue;
      Parts(this);
      var plan := PickCompaction(env.cfg, tables);
      if plan.None? {
        return false;
      }
      var inputs, target := plan.value.inputs, plan.value.target;
      var bottom := IsBottommost(env.cfg, tables, target);
      SnapshotsRepresentable(env, st, activeSnapshots);
      var minKeep := MinActive(activeSnapshots, st.snaps);
      ghost var step := Step.Begin(minKeep);
      StepSound(env, st, step);
      st := Apply(env.cfg, st, step);
      gen := gen + 1;
      pass := Some(Compaction(inputs, target, bottom, minKeep, gen));
      FormValid(this);
      return true;
    }

    /** The rest of `runCompaction`: merge the inputs' files and swap the table list. It cannot fail. */
    method CommitCompaction() returns (ghost out: seq<Record>, ghost size: nat)
      requires Valid() && pass.Some? && FilesFit(st.hist)
      modifies `pass, `tables, `st
      ensures Valid() && pass.None?
      ensures Takes(env.cfg, old(st), Step.Commit(out, size), st)
    {
      hide Represents, Enabled, Apply, Proper, TablesHold, LogsHold, SnapsHold, Holds, ImmHold, FilesFit, Sound, Swapped, DistinctGens, Gens;
      Parts(this);
      var remaining;
      remaining, out, size := MergeInputs(env, pass.value, tables, st);
      ghost var step := Step.Commit(out, size);
      StepSound(env, st, step);
      CommitTakes(env.cfg, st, step);
      Install(remaining, Apply(env.cfg, st, step));
      FormValid(this);
    }

    method Install(remaining: seq<Leveled>, ghost s': State)
      modifies `pass, `tables, `st
      ensures tables == remaining && pass.None? && st == s'
    {
      tables, pass, st := remaining, None, s';
    }

    // ---------- Snapshots ----------

    method OpenSnapshot() returns (snap: nat)
      requires Valid()
      modifies this
      ensures Valid() && memRepr == old(memRepr) && immRepr == old(immRepr)
      ensures snap == old(st).seqNo && Takes(env.cfg, old(st), Step.OpenSnapshot, st)
    {
      hide S.Lawful, Pick, Swapped, MaxSeq, Concat, ReplayOrder, IsMaxGen, Bottommost, H.Replay, Kept, Proper, TablesHold, SnapsHold, PassHolds, LogsHold,  Holds;
      StepSound(env, st, Step.OpenSnapshot);
      snap := seqNo;
      AddSnapshot(activeSnapshots, st.snaps, snap);
      activeSnapshots := activeSnapshots[snap := (if snap in activeSnapshots then activeSnapshots[snap] else 0) + 1];
      st := Apply(env.cfg, st, Step.OpenSnapshot);
    }

    method CloseSnapshot(snap: nat)
      requires Valid() && snap in st.snaps
      modifies this
      ensures Valid() && memRepr == old(memRepr) && immRepr == old(immRepr)
      ensures Takes(env.cfg, old(st), Step.CloseSnapshot(snap), st)
    {
      hide S.Lawful, Pick, Swapped, MaxSeq, Concat, ReplayOrder, IsMaxGen, Bottommost, H.Replay, Kept, Proper, TablesHold, SnapsHold, PassHolds, LogsHold,  Holds;
      StepSound(env, st, Step.CloseSnapshot(snap));
      DropSnapshot(activeSnapshots, st.snaps, snap);
      if activeSnapshots[snap] <= 1 {
        activeSnapshots := activeSnapshots - {snap};
      } else {
        activeSnapshots := activeSnapshots[snap := activeSnapshots[snap] - 1];
      }
      st := Apply(env.cfg, st, Step.CloseSnapshot(snap));
    }

    // ---------- Reading ----------

    /** `getAt`: the best version over the memtables, newest to oldest, and every table file. */
    method GetAt(key: Key, m: nat) returns (r: Result<Option<Bytes>>)
      requires Answering()
      ensures key == [] ==> r == Err(ERR_EMPTY_KEY)
      ensures key != [] ==> r == Ok(St.Get(st, key, m))
    {
      hide Represents, ReadsWell, LogsHold, SnapsHold, PassHolds, Holds, ImmHold, ToTables, DistinctGens, IsFileOf, Sound,
           Newest, Seen, Stored, TR.Represents, M.MemTable.Valid, M.MemTable.Contents;
      if key == [] {
        return Err(ERR_EMPTY_KEY);
      }
      Parts(this);
      HoldsParts(mem, st.mem, memRepr);
      ImmLength(imm, st.imm, immRepr);
      var best: Option<Record> := None;
      var entry := mem.Get(key);
      SeeActive(st, tables, key, m);
      best := Offer(best, entry, m);
      var i := |imm|;
      while i > 0
        invariant 0 <= i <= |imm| && best == Newest(Seen(st, i, tables, 0), key, m)
      {
        i := i - 1;
        ImmAt(imm, st.imm, immRepr, i);
        entry := imm[i].mt.Get(key);
        SeeImmutable(st, tables, i, key, m);
        best := Offer(best, entry, m);
      }
      for j := 0 to |tables|
        invariant best == Newest(Seen(st, 0, tables, j), key, m)
      {
        FileReads(env, tables[j].file, tables[j].table.recs);
        var found := TR.Get(env.codec, env.hash, tables[j].file, key, m, tables[j].table.recs);
        SeeTable(st, tables, j, key, m);
        best := Offer(best, found.value, m);
      }
      SeenIsStored(st, tables, 0, |tables|);
      return Ok(Answer(best));
    }

    /** `Get`: what the last write to the key says. */
    method Get(key: Key) returns (r: Result<Option<Bytes>>)
      requires Valid()
      ensures key == [] ==> r == Err(ERR_EMPTY_KEY)
      ensures key != [] ==> r == Ok(Answer(H.LastWrite(st.hist, key)))
    {
      hide Represents, Proper, ReadsWell, St.Get;
      ProperReadsWell(env, st);
      r := GetAt(key, UNBOUNDED);
      ProperLive(env, st, key);
    }

    /** `scanAt`, drained: every key in the range that a read at the same bound finds, in order, with its value. */
    method ScanAt(start: Option<Key>, end: Option<Key>, m: nat) returns (out: seq<Scan.KV>)
      requires Answering()
      ensures Scan.Ascending(out) && forall i, j :: 0 <= i < j < |out| ==> Precedes(out[i].key, out[j].key)
      ensures forall k, v :: Scan.KV(k, v) in out <==> Within(k, start, end) && St.Get(st, k, m) == Some(v)
    {
      hide Represents, ReadsWell, LogsHold, SnapsHold, PassHolds, Holds, ImmHold, ToTables, DistinctGens, IsFileOf, Sound,
           Stored, TR.Represents, M.MemTable.Valid, M.MemTable.Contents, Scan.Serves, Scan.Ascending, Within, Precedes, OneVersion, AllServe, ScanParts, ToSet;
      Parts(this);
      HoldsParts(mem, st.mem, memRepr);
      ImmLength(imm, st.imm, immRepr);
      var src := mem.RangeSource(start, end, m);
      var srcs := [src];
      ServeActive(st, tables, src, start, end, m);
      for i := 0 to |imm|
        invariant AllServe(srcs, ScanParts(st, i, tables, 0), start, end, m)
      {
        ImmAt(imm, st.imm, immRepr, i);
        src := imm[i].mt.RangeSource(start, end, m);
        ServeImmutable(st, i, tables, srcs, src, start, end, m);
        srcs := srcs + [src];
      }
      for j := 0 to |tables|
        invariant AllServe(srcs, ScanParts(st, |st.imm|, tables, j), start, end, m)
      {
        FileReads(env, tables[j].file, tables[j].table.recs);
        src := TR.DrainRange(env.codec, env.hash, tables[j].file, start, end, m, tables[j].table.recs);
        ServeTable(st, tables, j, srcs, src, start, end, m);
        srcs := srcs + [src];
      }
      AllServeParts(srcs, ScanParts(st, |st.imm|, tables, |tables|), start, end, m);
      PartsAreStored(st, tables);
      assert OneVersion(Stored(st)) by { OneVersionStored(st); }
      out := Scan.ScanAt(srcs, ScanParts(st, |st.imm|, tables, |tables|), start, end, m);
    }

    /** `Scan`: the live keys of the history in the range. */
    method ScanLive(start: Option<Key>, end: Option<Key>) returns (out: seq<Scan.KV>)
      requires Valid()
      ensures Scan.Ascending(out) && forall i, j :: 0 <= i < j < |out| ==> Precedes(out[i].key, out[j].key)
      ensures forall k, v :: Scan.KV(k, v) in out <==> Within(k, start, end) && Answer(H.LastWrite(st.hist, k)) == Some(v)
    {
      hide Represents, Proper, ReadsWell, St.Get, Scan.Ascending, Within, Precedes;
      ProperReadsWell(env, st);
      out := ScanAt(start, end, UNBOUNDED);
      forall k ensures St.Get(st, k, UNBOUNDED) == Answer(H.LastWrite(st.hist, k)) {
        ProperLive(env, st, k);
      }
    }
  }

  // ---------- The methods in a row ----------

  /**
   A first write, flushed at once, compacted if a pass is then due, and read
   back: every method's precondition is met by the one before it, and the
   value comes back from file bytes.
   */
  method WriteFlushRead(env: Env, key: Key, value: Bytes, height: nat) returns (r: Result<Option<Bytes>>)
    requires Sound(env) && env.flushThreshold <= M.ENTRY_OVERHEAD && 1 <= height <= SL.MAX_LEVEL
    requires key != [] && |key| < UINT32 && |value| < UINT32
    ensures r == Ok(Some(value))
  {
    hide Engine.Valid, Takes, Pick, FilesFit;
    var e := new Engine.Create(env);
    FieldsAgree(e);
    ghost var s0 := e.st;
    ghost var w := Record(key, value, TYPE_VALUE, 1);
    var rotated;
    ghost var mid;
    rotated, mid := e.Write(key, value, TYPE_VALUE, height);
    FirstWriteQueued(env.cfg, s0, Step.Write(key, value, TYPE_VALUE), mid, e.st);
    OneWriteFits(w);
    FieldsAgree(e);
    ghost var s1 := e.st;
    ghost var recs, size := e.Register();
    HistoryStays(env.cfg, s1, Step.Register(recs, size), e.st);
    FieldsAgree(e);
    ghost var s2 := e.st;
    var started := e.BeginCompaction();
    if started {
      ghost var s3 := e.st;
      HistoryStays(env.cfg, s2, Step.Begin(e.pass.value.minKeep), s3);
      ghost var out, size2 := e.CommitCompaction();
      HistoryStays(env.cfg, s3, Step.Commit(out, size2), e.st);
    }
    r := e.Get(key);
  }

  /** A first write, then a crash that tears a second append, then `Open`: the value is back. */
  method WriteCrashReopenRead(env: Env, dir: Bytes, key: Key, value: Bytes, height: nat, ghost last: Record, torn: Bytes)
      returns (r: Result<Option<Bytes>>)
    requires Sound(env) && 1 <= height <= SL.MAX_LEVEL
    requires key != [] && |key| <= W.MAX_REASONABLE_LEN && |value| <= W.MAX_REASONABLE_LEN
    requires W.Representable(last) && torn < W.Encode(env.crc, last)
    ensures r == Ok(Some(value))
  {
    hide Engine.Valid, Takes, FilesFit, TablesHold, W.EncodeAll, W.Encode, Proper, Sound, Crashed, ReplayOrder, MaxSeq, Surviving, St.Get, IsLeftover, OnDisk, H.LastWrite, LogsOnDisk, LogsReadable, Engine.Answering, Survives, Newest;
    var e := new Engine.Create(env);
    FieldsAgree(e);
    ghost var s0 := e.st;
    ghost var w := Record(key, value, TYPE_VALUE, 1);
    var full := e.Append(key, value, TYPE_VALUE, height);
    FirstWriteLogged(env.cfg, s0, Step.Write(key, value, TYPE_VALUE), e.st);
    OneWriteFits(w);
    ReplayOrderOfOne(dir, e.st.logs);
    ghost var s := e.st;
    var disk := e.logs;
    Crashable(e, w, last, torn);
    disk := disk[1 := disk[1] + torn];
    var e2 := new Engine.Reopen(env, dir, e.tables, disk, [1], s, s.logs, None);
    r := e2.GetAt(key, UNBOUNDED);
    ProperOf(e);
    ProperLive(env, s, key);
    OneWriteRead(w);
  }

  /** A first write, flushed and its log removed, as a clean close leaves it: no log file; the value is read from the reopened table. */
  method WriteCloseReopenRead(env: Env, dir: Bytes, key: Key, value: Bytes, height: nat) returns (r: Result<Option<Bytes>>)
    requires Sound(env) && env.flushThreshold <= M.ENTRY_OVERHEAD && 1 <= height <= SL.MAX_LEVEL
    requires key != [] && |key| < UINT32 && |value| < UINT32
    ensures r == Ok(Some(value))
  {
    hide Engine.Represents, Takes, FilesFit, TablesHold, Proper, Sound, ReplayOrder, MaxSeq, Surviving, St.Get, IsLeftover, OnDisk, H.LastWrite,
         LogsOnDisk, LogsReadable, ReadsWell, Survives, Newest, ImmHold, Holds, LogsHold, SnapsHold, PassHolds, Engine.FieldsHold;
    var e := new Engine.Create(env);
    FieldsAgree(e);
    ghost var s0 := e.st;
    ghost var w := Record(key, value, TYPE_VALUE, 1);
    var rotated;
    ghost var mid;
    rotated, mid := e.Write(key, value, TYPE_VALUE, height);
    ghost var s1 := e.st;
    FirstWriteQueued(env.cfg, s0, Step.Write(key, value, TYPE_VALUE), mid, s1);
    OneWriteFits(w);
    FieldsAgree(e);
    ghost var recs, size := e.Register();
    ghost var s2 := e.st;
    FlushedAndRegistered(env.cfg, s0, Step.Write(key, value, TYPE_VALUE), mid, s1, Step.Register(recs, size), s2);
    FieldsAgree(e);
    e.RemoveLog();
    ghost var s := e.st;
    ClosedLogs(env.cfg, s2, s);
    TablesOf(e);
    NoLogFiles(dir);
    var e2 := new Engine.Reopen(env, dir, e.tables, map[], [], s, map[], None);
    r := e2.GetAt(key, UNBOUNDED);
    ProperLive(env, s, key);
    OneWriteRead(w);
  }

  lemma FlushedAndRegistered(c: Config, s: State, step: Step, mid: State, s1: State, flush: Step, s2: State)
    requires Init(s) && step.Write? && Takes(c, s, step, mid) && Takes(c, mid, Step.Rotate, s1) && flush.Register? && Takes(c, s1, flush, s2)
    ensures s2.hist == [Record(step.key, step.value, step.typ, 1)] && s2.gen == 3
    ensures s2.unremoved == Some(1) && s2.logs.Keys == {1, 2} && s2.logs[2] == []
  {
    hide IsFlushOf;
  }

  lemma ClosedLogs(c: Config, s: State, s': State)
    requires Takes(c, s, Step.RemoveLog, s') && s.unremoved == Some(1) && s.logs.Keys == {1, 2} && s.logs[2] == []
    ensures s'.hist == s.hist && s'.gen == s.gen && LogsOnDisk(s', map[])
  {
  }

  lemma NoLogFiles(dir: Bytes)
    ensures ReplayOrder(dir, map[], []) && LogsReadable(map[])
  {
  }

  lemma TablesOf(e: Engine)
    requires e.Valid()
    ensures TablesHold(e.env, e.tables, OnDisk(e.st, None)) && IsLeftover(e.st, None) && Proper(e.env, e.st)
  {
    hide Holds, ImmHold, Proper, Sound, TablesHold, LogsHold, SnapsHold, PassHolds;
  }

  lemma FirstWriteLogged(c: Config, s: State, step: Step, s': State)
    requires Init(s) && step.Write? && Takes(c, s, step, s')
    ensures var w := Record(step.key, step.value, step.typ, 1);
            && s'.hist == [w] && s'.logs == map[1 := [w]] && Surviving(s') == [w] && MaxSeq([w]) == 1 == s'.seqNo
            && s'.gen == 1 && s'.pass.Idle?
  {
    var w := Record(step.key, step.value, step.typ, 1);
    assert [w][..0] == [];
  }

  lemma ReplayOrderOfOne(dir: Bytes, logs: map<nat, seq<Record>>)
    requires logs.Keys == {1}
    ensures ReplayOrder(dir, logs, [1])
  {
    assert ToSet([1]) == {1};
  }

  lemma Crashable(e: Engine, w: Record, last: Record, torn: Bytes)
    requires e.Valid() && e.st.logs == map[1 := [w]] && e.st.pass.Idle? && W.Representable(w)
    requires W.Representable(last) && torn < W.Encode(e.env.crc, last)
    ensures e.logs.Keys == {1} && Crashed(e.env, e.logs[1] + torn, [w]) && IsLeftover(e.st, None)
    ensures LogsOnDisk(e.st, e.st.logs) && (W.Reasonable(w) ==> LogsReadable(e.st.logs))
    ensures TablesHold(e.env, e.tables, OnDisk(e.st, None)) && Proper(e.env, e.st)
  {
    hide Holds, ImmHold, Proper, Sound, TablesHold, SnapsHold, PassHolds, W.Encode, W.EncodeAll;
    assert e.logs[1] == W.EncodeAll(e.env.crc, [w]);
  }

  lemma ProperOf(e: Engine)
    requires e.Valid()
    ensures Proper(e.env, e.st)
  {
    hide Holds, ImmHold, Proper, Sound, TablesHold;
  }

  lemma OneWriteRead(w: Record)
    requires w.typ == TYPE_VALUE
    ensures Answer(H.LastWrite([w], w.key)) == Some(w.value)
  {
  }

  lemma FieldsAgree(e: Engine)
    requires e.Valid()
    ensures e.seqNo == e.st.seqNo && e.unremoved == e.st.unremoved && |e.imm| == |e.st.imm|
    ensures e.pass.None? <==> e.st.pass.Idle?
  {
    hide Holds, Proper, Sound, TablesHold, LogsHold, SnapsHold;
  }

  lemma HistoryStays(c: Config, s: State, step: Step, s': State)
    requires Takes(c, s, step, s') && (step.Register? || step.Begin? || step.Commit?)
    ensures s'.hist == s.hist && (step.Register? ==> s'.pass == s.pass)
  {
    hide Enabled, Pick, Swapped, Bottommost;
  }

  lemma FirstWriteQueued(c: Config, s: State, step: Step, mid: State, s': State)
    requires Init(s) && step.Write? && Takes(c, s, step, mid) && Takes(c, mid, Step.Rotate, s')
    ensures s'.hist == [Record(step.key, step.value, step.typ, 1)] && |s'.imm| == 1 && s'.unremoved.None? && s'.pass.Idle?
  {
  }

  lemma OneWriteFits(w: Record)
    requires |w.key| < UINT32 && |w.value| < UINT32
    ensures FilesFit([w])
  {
    assert [w][..0] == [];
    assert TotalCost([w]) == TotalCost([]) + RecordCost(w);
  }

  // ---------- Facts for the methods ----------

  lemma Parts(e: Engine)
    requires e.Represents()
    ensures e !in e.memRepr && e !in e.immRepr && e.memRepr !! e.immRepr
    ensures Holds(e.mem, e.st.mem, e.memRepr) && ImmHold(e.imm, e.st.imm, e.immRepr)
    ensures e.FieldsHold() && Sound(e.env)
  {
    hide Holds, ImmHold, Sound;
  }

  lemma FormValid(e: Engine)
    requires e !in e.memRepr && e !in e.immRepr && e.memRepr !! e.immRepr
    requires Holds(e.mem, e.st.mem, e.memRepr) && ImmHold(e.imm, e.st.imm, e.immRepr)
    requires e.FieldsHold() && Sound(e.env) && Proper(e.env, e.st)
    ensures e.Valid()
  {
    hide Holds, ImmHold, Proper, Sound;
  }

  lemma RecoveredFields(e: Engine)
    requires e.unremoved.None? && e.pass.None? && e.activeSnapshots == map[] && e.logs == map[e.gen := []] && e.memLog == e.gen
    requires e.st.unremoved.None? && e.st.pass.Idle? && e.st.snaps == multiset{} && e.st.logs == map[e.gen := []]
    requires e.st.memLog == e.st.gen == e.gen && e.seqNo == e.st.seqNo && TablesHold(e.env, e.tables, e.st.tables)
    ensures e.FieldsHold()
  {
    hide TablesHold;
  }

  /** What a recovered state looks like apart from its tables. */
  ghost predicate Restarted(s: State, s': State, maxSeq: nat, g: nat) {
    && s'.mem == map[] && s'.imm == [] && s'.unremoved.None? && s'.pass.Idle? && s'.snaps == multiset{}
    && s'.logs == map[g + 1 := []] && s'.memLog == s'.gen == g + 1 && s'.seqNo == maxSeq && s'.hist == s.hist
  }

  /** `recoverFromWALs`, after opening the tables found: replay, flush what was recovered, count generations on. */
  method Recover(e: Env, dir: Bytes, found: seq<Leveled>, disk: map<nat, Bytes>, order: seq<nat>,
                 ghost s: State, ghost files: map<nat, seq<Record>>, ghost left: Option<Table>)
      returns (tables: seq<Leveled>, maxSeq: nat, g: nat, ghost step: Step)
    requires Sound(e) && Proper(e, s) && FilesFit(s.hist) && s.gen < UINT64
    requires IsLeftover(s, left) && TablesHold(e, found, OnDisk(s, left))
    requires LogsOnDisk(s, files) && ReplayOrder(dir, files, order)
    requires disk.Keys == files.Keys && forall g :: g in disk ==> Crashed(e, disk[g], files[g])
    ensures step.Crash? && step.logs == files && Recoverable(s, step)
    ensures TablesHold(e, tables, Restored(s, step).tables) && Restarted(s, Restored(s, step), maxSeq, g)
  {
    hide Proper, TablesHold, IsFileOf, M.MemTable.Valid, M.MemTable.Contents, M.MemTable.Repr, Crashed, FilesFit, FileFits, MaxSeq, Concat, H.Replay,
         StrictlyOrdered, ToSet, IsLeftover, OnDisk, ReplayOrder, IsMaxGen, ReadableLogs, LogsOnDisk, Restarted;
    tables := OpenAll(e, found, OnDisk(s, left));
    OrderedLogs(files, dir, order);
    var mt;
    mt, maxSeq := ReplayLogs(e, disk, order, files);
    g := MaxGeneration(tables, order);
    FoundMax(e, OnDisk(s, left), files, tables, dir, order, g);
    var records := mt.BuildRecords();
    step := Step.Crash(dir, files, order, g, records, 0, left);
    RecoveredFits(e, s, step);
    if |records| > 0 {
      var t := WriteAndOpen(e.codec, e.hash, records, e.compress, true, e.numBits, e.numHash);
      step := step.(size := |t.value.file|);
      g := g + 1;
      var added := Leveled(g, Table(0, records, |t.value.file|), t.value);
      AppendTable(e, tables, OnDisk(s, left), added);
      tables := tables + [added];
    }
    RestoredShape(s, step);
  }

  lemma RestoredShape(s: State, step: Step)
    requires step.Crash?
    ensures var s', found := Restored(s, step), OnDisk(s, step.left);
            && s'.tables == (if step.recovered == [] then found else found[step.maxGen + 1 := Table(0, step.recovered, step.size)])
            && Restarted(s, s', MaxSeq(Replayable(step)), if step.recovered == [] then step.maxGen else step.maxGen + 1)
  {
    hide MaxSeq, Replayable, OnDisk;
  }

  /** The write is in a table, or in a log before any record too long to be replayed. */
  ghost predicate Survives(s: State, files: map<nat, seq<Record>>, r: Record) {
    r in RecsOf(s.tables, s.tables.Keys) || Losses.InReadablePart(files, r)
  }

  lemma RestoredNewest(e: Env, s: State, step: Step, k: Key)
    requires Proper(e, s) && step.Crash? && Recoverable(s, step) && H.LastWrite(s.hist, k).Some?
    ensures Newest(Stored(Restored(s, step)), k, UNBOUNDED) == H.LastWrite(s.hist, k) <==> Survives(s, step.logs, H.LastWrite(s.hist, k).value)
  {
    hide Inv, SharedInv, AllFit, Recoverable, Restored, Newest, Stored, RecsOf, Losses.InReadablePart, H.LastWrite;
    Losses.RecoveredNewestExact(e.cfg, s, step, k);
  }

  lemma RestoredReadsWell(e: Env, s: State, step: Step)
    requires Proper(e, s) && step.Crash? && Recoverable(s, step)
    ensures ReadsWell(Restored(s, step))
  {
    hide Inv, SharedInv, AllFit, Recoverable, Stored, OneVersion, Replayable, MaxSeq, OnDisk;
    Losses.RestoredWasWritten(e.cfg, s, step);
  }

  lemma RestoredReads(e: Env, s: State, step: Step, k: Key)
    requires Proper(e, s) && step.Crash? && Recoverable(s, step) && LogsReadable(step.logs)
    ensures St.Get(Restored(s, step), k, UNBOUNDED) == St.Get(s, k, UNBOUNDED)
  {
    hide Inv, SharedInv, AllFit, Recoverable, Restored, LogsReadable, St.Get, H.LastWrite;
    StoreRecovery.RecoveryPreservesReads(e.cfg, s, step, k);
  }

  lemma RestoredTakes(e: Env, s: State, step: Step)
    requires Proper(e, s) && step.Crash? && Recoverable(s, step) && LogsReadable(step.logs) && MaxSeq(Surviving(s)) == s.seqNo
    ensures Proper(e, Restored(s, step)) && Takes(e.cfg, s, step, Restored(s, step))
  {
    hide Proper, Recoverable, Restored, LogsReadable, Replayable, MaxSeq, Surviving;
    assert LogsInv(s) by { ProperInv(e, s); }
    StoreRecovery.ReplayableIs(s, step);
    StepSound(e, s, step);
  }

  /** Every table file found is opened again. */
  method OpenAll(e: Env, found: seq<Leveled>, ghost spec: Tables) returns (tables: seq<Leveled>)
    requires TablesHold(e, found, spec)
    ensures tables == found
  {
    hide IsFileOf, TableFiles.OpenSpec, ToTables, DistinctGens;
    tables := [];
    for i := 0 to |found|
      invariant tables == found[..i]
    {
      ReopenIsSame(e.codec, e.hash, found[i].file, found[i].table.recs);
      var t := TableFiles.Open(found[i].file.file);
      tables := tables + [found[i].(file := t.value)];
    }
  }

  lemma OrderedLogs(files: map<nat, seq<Record>>, dir: Bytes, order: seq<nat>)
    requires ReplayOrder(dir, files, order)
    ensures forall i :: 0 <= i < |order| ==> order[i] in files
  {
    hide Less;
    StoreRecovery.Members(order, files);
  }

  lemma FoundMax(e: Env, ts: Tables, logs: map<nat, seq<Record>>, tables: seq<Leveled>, dir: Bytes, order: seq<nat>, max: nat)
    requires TablesHold(e, tables, ts) && ReplayOrder(dir, logs, order)
    requires (forall t :: t in tables ==> t.gen <= max) && (forall g :: g in order ==> g <= max)
    requires max == 0 || max in Gens(tables) || max in order
    ensures IsMaxGen(ts, logs, max) && max + 1 !in ts
  {
    hide Less, IsFileOf, ToTables;
    MaxGenerationIs(ts, logs, tables, order, max);
  }

  lemma RecoveredFits(e: Env, s: State, step: Step)
    requires Proper(e, s) && FilesFit(s.hist) && step.Crash? && Recoverable(s, step)
    ensures forall i :: 0 <= i < |step.recovered| ==> Writable(step.recovered[i])
    ensures FileFits(e.codec, e.compress, step.recovered)
  {
    hide HistoryInv, LogsInv, TablesInv, PassInv, LiveInv, SharedInv, AllFit, FilesFit, StrictlyOrdered, FileFits, H.Replay, Replayable,
         IsLeftover, OnDisk, ReplayOrder, IsMaxGen, LogsOnDisk, H.Increasing;
    Losses.ReplayableIsHistory(s, step);
    ReplayKeyed(Replayable(step));
    WrittenFits(e, s.hist, step.recovered);
  }

  lemma InitProper(e: Env, s: State)
    requires Sane(e.cfg) && Init(s)
    ensures Proper(e, s) && ToTables([]) == s.tables
  {
    hide Inv, SharedInv;
    InitInv(e.cfg, s);
    NoTablesNoSharing(s);
  }

  lemma RotateTakes(c: Config, s: State)
    requires s.mem != map[]
    ensures Enabled(c, s, Step.Rotate)
    ensures Apply(c, s, Step.Rotate) ==
      s.(imm := s.imm + [Imm(s.mem, s.memLog)], mem := map[], memLog := s.gen + 1,
         gen := s.gen + 1, logs := s.logs[s.gen + 1 := []])
  {
  }

  lemma ProperInv(e: Env, s: State)
    requires Proper(e, s)
    ensures Inv(e.cfg, s) && LogsInv(s)
  {
    hide HistoryInv, LogsInv, TablesInv, PassInv, LiveInv, SharedInv, AllFit;
  }

  lemma ProperReadsWell(e: Env, s: State)
    requires Proper(e, s)
    ensures ReadsWell(s)
  {
    hide Inv, SharedInv, AllFit, ReadsWell;
    InvReadsWell(e.cfg, s);
  }

  lemma OneVersionStored(s: State)
    requires ReadsWell(s)
    ensures OneVersion(Stored(s))
  {
    hide OneVersion, Stored, Keyed;
  }

  lemma ProperLive(e: Env, s: State, k: Key)
    requires Proper(e, s)
    ensures St.Get(s, k, UNBOUNDED) == Answer(H.LastWrite(s.hist, k))
  {
    hide HistoryInv, LogsInv, TablesInv, PassInv, SharedInv, AllFit, St.Get, H.LastWrite;
  }

  lemma FileReads(e: Env, f: TableFiles.Opened, recs: seq<Record>)
    requires Sound(e) && IsFileOf(e.codec, e.hash, f, recs)
    ensures TR.Represents(e.codec, e.hash, f, recs) && recs != [] && recs[0].key != []
  {
    hide S.Lawful, StrictlyOrdered, WrittenAs, TR.Represents;
    FileRepresents(e.codec, e.hash, f, recs);
  }

  lemma WriteTakes(c: Config, s: State, step: Step)
    requires step.Write? && step.key != [] && (step.typ == TYPE_VALUE || step.typ == TYPE_TOMBSTONE) && s.seqNo < UNBOUNDED
    ensures Enabled(c, s, step)
    ensures var r := Record(step.key, step.value, step.typ, s.seqNo + 1);
            Apply(c, s, step) == s.(seqNo := s.seqNo + 1, mem := s.mem[step.key := r],
              logs := s.logs[s.memLog := LogOf(s.logs, s.memLog) + [r]], hist := s.hist + [r])
  {
  }

  lemma RegisterTakes(c: Config, s: State, step: Step)
    requires step.Register? && s.imm != [] && s.unremoved.None? && IsFlushOf(step.recs, s.imm[0].mem)
    ensures Enabled(c, s, step)
    ensures Apply(c, s, step) ==
      s.(tables := s.tables[s.gen + 1 := Table(0, step.recs, step.size)], gen := s.gen + 1,
         imm := s.imm[1..], unremoved := Some(s.imm[0].log))
  {
  }

  lemma ActiveLog(e: Env, s: State)
    requires Proper(e, s)
    ensures s.memLog in s.logs
  {
    hide HistoryInv, TablesInv, PassInv, LiveInv, LogsInv;
    LogGenerations(s);
  }

  lemma AddLog(e: Env, logs: map<nat, Bytes>, spec: map<nat, seq<Record>>, g: nat)
    requires LogsHold(e, logs, spec)
    ensures LogsHold(e, logs[g := []], spec[g := []])
  {
  }

  lemma FreshGeneration(e: Env, s: State)
    requires Proper(e, s)
    ensures s.gen + 1 !in s.tables
  {
    hide HistoryInv, LogsInv, TablesInv, PassInv, LiveInv, SharedInv, AllFit;
    GenerationsBounded(e.cfg, s);
  }

  lemma SnapshotsRepresentable(e: Env, s: State, active: map<nat, nat>)
    requires Proper(e, s) && SnapsHold(active, s.snaps)
    ensures forall x :: x in active ==> x <= UNBOUNDED
  {
    hide LogsInv, TablesInv, PassInv, LiveInv, SharedInv, AllFit;
  }

  lemma WriteIsRead(e: Env, s: State, step: Step, mid: State, s': State)
    requires Proper(e, s) && Proper(e, s') && step.Write? && Takes(e.cfg, s, step, mid)
    requires s' == mid || Takes(e.cfg, mid, Step.Rotate, s')
    ensures forall k :: St.Get(s', k, UNBOUNDED) ==
                        if k != step.key then St.Get(s, k, UNBOUNDED) else if step.typ == TYPE_VALUE then Some(step.value) else None
  {
    hide Proper, St.Get;
    var r := Record(step.key, step.value, step.typ, s.seqNo + 1);
    assert s'.hist == s.hist + [r];
    assert s'.hist[..|s.hist|] == s.hist;
    forall k ensures St.Get(s', k, UNBOUNDED) ==
                     if k != step.key then St.Get(s, k, UNBOUNDED) else if step.typ == TYPE_VALUE then Some(step.value) else None
    {
      ProperLive(e, s, k);
      ProperLive(e, s', k);
    }
  }

  lemma PassStaysListed(pass: Option<Compaction>, tables: seq<Leveled>, t: Leveled, spec: Pass)
    requires PassHolds(pass, tables, spec)
    ensures PassHolds(pass, tables + [t], spec)
  {
  }

  /** The table iterators of a merge: what they return are the inputs' records. */
  method ReadInputs(e: Env, inputs: seq<Leveled>, ghost tables: seq<Leveled>, ghost spec: Tables) returns (lists: seq<seq<Record>>)
    requires Sound(e) && TablesHold(e, tables, spec) && forall t :: t in inputs ==> t in tables
    ensures |lists| == |inputs| && forall i :: 0 <= i < |inputs| ==> lists[i] == inputs[i].table.recs
    ensures forall i :: 0 <= i < |lists| ==> V.Ordered(lists[i])
  {
    hide IsFileOf, ToTables, DistinctGens, V.Ordered, StrictlyOrdered;
    lists := [];
    for i := 0 to |inputs|
      invariant |lists| == i && forall j :: 0 <= j < i ==> lists[j] == inputs[j].table.recs
      invariant forall j :: 0 <= j < i ==> V.Ordered(lists[j])
    {
      var recs := ReadBack(e.codec, inputs[i].file, e.hash, inputs[i].table.recs);
      FileOrdered(e, inputs[i].file, recs);
      lists := lists + [recs];
    }
  }

  lemma FileOrdered(e: Env, f: TableFiles.Opened, recs: seq<Record>)
    requires IsFileOf(e.codec, e.hash, f, recs)
    ensures V.Ordered(recs)
  {
    hide WrittenAs;
    TR.StrictIsOrdered(recs, 0);
    assert recs[0..] == recs;
  }

  /** Merge a pass's input files into one output file, and list the tables to keep with it. */
  method MergeInputs(e: Env, p: Compaction, tables: seq<Leveled>, ghost s: State)
      returns (remaining: seq<Leveled>, ghost out: seq<Record>, ghost size: nat)
    requires Sound(e) && Proper(e, s) && FilesFit(s.hist) && TablesHold(e, tables, s.tables) && PassHolds(Some(p), tables, s.pass)
    ensures Enabled(e.cfg, s, Step.Commit(out, size))
    ensures TablesHold(e, remaining, Swapped(s.tables, s.pass, out, size))
  {
    hide Proper, Enabled, IsFileOf, DistinctGens, Gens, StrictlyOrdered, R.Retain, Mg.Union, FilesFit, FileFits, Without, TablesHold, V.Ordered, S.Lawful;
    var lists := ReadInputs(e, p.inputs, tables, s.tables);
    var merged;
    ghost var all;
    merged, all := Mg.Merge(lists, p.minKeep, p.bottom);
    out := R.Retain(all, p.minKeep, p.bottom);
    MergeIsCommit(e, s, p, tables, lists, all);
    remaining := Remaining(tables, p.inputs);
    DropTables(e, tables, s.tables, Gens(p.inputs));
    size := 0;
    if merged.Ok? {
      var t := WriteAndOpen(e.codec, e.hash, merged.value, e.compress, false, e.numBits, e.numHash);
      size := |t.value.file|;
      var added := Leveled(p.out, Table(p.target, merged.value, |t.value.file|), t.value);
      AppendTable(e, remaining, s.tables - Gens(p.inputs), added);
      remaining := remaining + [added];
    }
  }

  lemma CommitTakes(c: Config, s: State, step: Step)
    requires step.Commit? && Enabled(c, s, step)
    ensures s.pass.Running? && Apply(c, s, step) == s.(tables := Swapped(s.tables, s.pass, step.out, step.size), pass := Idle)
  {
    hide StrictlyOrdered, Kept, RecsOf;
  }

  /** The swap loop of a commit: membership is by table identity. */
  method Remaining(tables: seq<Leveled>, inputs: seq<Leveled>) returns (remaining: seq<Leveled>)
    ensures remaining == Without(tables, Gens(inputs))
  {
    var inSnapshot := set t | t in inputs :: t.gen;
    remaining := [];
    for i := 0 to |tables|
      invariant remaining == Without(tables[..i], Gens(inputs))
    {
      assert tables[..i + 1][..i] == tables[..i];
      if tables[i].gen !in inSnapshot {
        remaining := remaining + [tables[i]];
      }
    }
    assert tables[..|tables|] == tables;
  }

  function GenList(inputs: seq<Leveled>): (gens: seq<nat>)
    ensures |gens| == |inputs| && forall i :: 0 <= i < |inputs| ==> gens[i] == inputs[i].gen
  {
    seq(|inputs|, i requires 0 <= i < |inputs| => inputs[i].gen)
  }

  lemma GenListSet(inputs: seq<Leveled>)
    ensures ToSet(GenList(inputs)) == Gens(inputs)
    ensures DistinctGens(inputs) ==> Distinct(GenList(inputs))
  {
    var gens := GenList(inputs);
    forall g | g in Gens(inputs) ensures g in ToSet(gens) {
      var i := Listed(inputs, g);
      assert gens[i] == g;
    }
    forall g | g in ToSet(gens) ensures g in Gens(inputs) {
      var i :| 0 <= i < |gens| && gens[i] == g;
      assert inputs[i] in inputs;
    }
  }

  lemma ListsAreInputs(e: Env, p: Compaction, tables: seq<Leveled>, spec: Tables, lists: seq<seq<Record>>)
    requires TablesHold(e, tables, spec) && forall t :: t in p.inputs ==> t in tables
    requires |lists| == |p.inputs| && forall i :: 0 <= i < |lists| ==> lists[i] == p.inputs[i].table.recs
    ensures lists == ListsOf(spec, GenList(p.inputs))
  {
    hide IsFileOf, ToTables, DistinctGens;
    ToTablesAll(tables);
    forall i | 0 <= i < |lists| ensures lists[i] == ListsOf(spec, GenList(p.inputs))[i] {
      var t := p.inputs[i];
      assert t in p.inputs;
      var j :| 0 <= j < |tables| && tables[j] == t;
    }
  }

  /** In a reachable state the merge of a pass's files is a list the table writer accepts and Commit expects. */
  lemma MergeIsCommit(e: Env, s: State, p: Compaction, tables: seq<Leveled>, lists: seq<seq<Record>>, all: seq<Record>)
    requires Proper(e, s) && FilesFit(s.hist) && TablesHold(e, tables, s.tables) && PassHolds(Some(p), tables, s.pass)
    requires |lists| == |p.inputs| && forall i :: 0 <= i < |lists| ==> lists[i] == p.inputs[i].table.recs
    requires multiset(all) == Mg.Union(lists) && V.Ordered(all)
    ensures lists != [] && p.out !in s.tables
    ensures var out := R.Retain(all, p.minKeep, p.bottom);
            && StrictlyOrdered(out) && (forall i :: 0 <= i < |out| ==> Writable(out[i]))
            && FileFits(e.codec, e.compress, out)
            && forall size: nat :: Enabled(e.cfg, s, Step.Commit(out, size))
  {
    hide Inv, SharedInv, AllFit, FilesFit, FileFits, TablesHold, Mg.Union, V.Ordered, R.Retain, StrictlyOrdered, Kept, RecsOf, OneVersion, ListsOf, R.NoDuplicateAbove, DistinctGens, Gens, Writable, Distinct;
    var gens := GenList(p.inputs);
    GenListSet(p.inputs);
    ListsAreInputs(e, p, tables, s.tables, lists);
    InputsHaveNoDuplicateAbove(e.cfg, s, gens, all);
    OneVersionOfInputs(e.cfg, s);
    R.RetainStrictExact(all, p.minKeep, p.bottom);
    R.RetainIsKept(all, p.minKeep, p.bottom);
    var out := R.Retain(all, p.minKeep, p.bottom);
    KeptWasWritten(e.cfg, s);
    WrittenFits(e, s.hist, out);
    PassBounds(e.cfg, s);
    var g :| g in s.pass.inputs;
    var i := Listed(p.inputs, g);
  }

  lemma KeptWasWritten(c: Config, s: State)
    requires Inv(c, s) && s.pass.Running?
    ensures Kept(RecsOf(s.tables, s.pass.inputs), s.pass.minKeep, s.pass.bottom) <= ToSet(s.hist)
  {
    hide HistoryInv, LogsInv, TablesInv, PassInv, LiveInv, RecsOf, ImmRecs, OneVersion, Superseded, Dropped;
    StoredWasWritten(c, s);
    InputsAreStored(s.tables, s.pass.inputs);
  }

  lemma PassBounds(c: Config, s: State)
    requires Inv(c, s) && s.pass.Running?
    ensures s.pass.out !in s.tables && s.pass.inputs != {}
  {
    hide HistoryInv, LogsInv, TablesInv, LiveInv, SnapshotsServed;
  }

  lemma WrittenFits(e: Env, hist: seq<Record>, recs: seq<Record>)
    requires AllFit(hist) && FilesFit(hist) && StrictlyOrdered(recs) && ToSet(recs) <= ToSet(hist)
    ensures forall i :: 0 <= i < |recs| ==> Writable(recs[i])
    ensures FileFits(e.codec, e.compress, recs)
  {
    hide FileFits, StrictlyOrdered;
    TableFits(e, hist, recs);
    forall i | 0 <= i < |recs| ensures Writable(recs[i]) {
      assert recs[i] in ToSet(recs);
      assert recs[i] in ToSet(hist);
    }
  }

  lemma OldestFits(e: Env, s: State, recs: seq<Record>)
    requires Proper(e, s) && FilesFit(s.hist) && s.imm != [] && IsFlushOf(recs, s.imm[0].mem)
    ensures forall i :: 0 <= i < |recs| ==> Writable(recs[i])
    ensures FileFits(e.codec, e.compress, recs) && recs != []
  {
    hide HistoryInv, LogsInv, TablesInv, PassInv, LiveInv,  FilesFit, RecsOf, OneVersion, StrictlyOrdered, FileFits;
    StoredWasWritten(e.cfg, s);
    assert ToSet(recs) <= ImmRecs(s.imm);
    WrittenFits(e, s.hist, recs);
    assert recs != [] by { OldestHolds(s); }
  }

  lemma OldestHolds(s: State)
    requires LogsInv(s) && s.imm != []
    ensures s.imm[0].mem.Values != {}
  {
    hide LogFilesInv, IsSuffix, H.Replay;
    var k :| k in s.imm[0].mem;
    assert s.imm[0].mem[k] in s.imm[0].mem.Values;
  }
}
