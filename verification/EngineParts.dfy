/** The engine's fields, and the parts of the store state they stand for. */
module EngineParts {
  import opened Bytes
  import opened Versions
  import H = History
  import opened SSTables
  import opened TableStore
  import opened TableLists
  import opened Store
  import opened StoreFacts
  import M = MemTables
  import B = Bloom
  import W = Wal

  /** Configuration, and the library functions and sizing formulas taken as given. */
  datatype Env = Env(cfg: Config, codec: Codec, hash: B.Hash, crc: W.Checksum,
                     compress: bool, flushThreshold: nat, numBits: nat, numHash: nat)

  ghost predicate Sound(e: Env) {
    && Sane(e.cfg) && Lawful(e.codec) && e.flushThreshold >= 1
    && 0 < e.numBits <= UINT32 - 8 && 1 <= e.numHash < UINT32
  }

  datatype ImmEntry = ImmEntry(mt: M.MemTable, log: nat)

  /** A compaction between its two critical sections. */
  datatype Compaction = Compaction(inputs: seq<Leveled>, target: nat, bottom: bool, minKeep: nat, out: nat)

  // ---------- What each field stands for ----------

  ghost predicate Holds(mt: M.MemTable, spec: H.MemTable, repr: set<object>)
    reads repr
  {
    mt in repr && mt.skl in repr && mt.Repr() <= repr && mt.Valid() && mt.Contents() == spec
  }

  ghost predicate ImmHold(imm: seq<ImmEntry>, spec: seq<Imm>, repr: set<object>)
    reads repr
  {
    |imm| == |spec| && forall i :: 0 <= i < |imm| ==> imm[i].log == spec[i].log && Holds(imm[i].mt, spec[i].mem, repr)
  }

  ghost predicate TablesHold(e: Env, tables: seq<Leveled>, spec: Tables) {
    && DistinctGens(tables) && ToTables(tables) == spec
    && forall t :: t in tables ==> IsFileOf(e.codec, e.hash, t.file, t.table.recs) && t.table.size == |t.file.file|
  }

  /** Each log file holds the encodings of its records, back to back. */
  ghost predicate LogsHold(e: Env, logs: map<nat, Bytes>, spec: map<nat, seq<Record>>) {
    logs.Keys == spec.Keys && forall g :: g in logs ==> logs[g] == W.EncodeAll(e.crc, spec[g])
  }

  /** `activeSnapshots` counts the open snapshots at each Seq. */
  ghost predicate SnapsHold(active: map<nat, nat>, spec: multiset<nat>) {
    forall x :: (x in active <==> x in spec) && (x in active ==> active[x] == spec[x])
  }

  ghost predicate PassHolds(pass: Option<Compaction>, tables: seq<Leveled>, spec: Pass) {
    match pass
    case None => spec.Idle?
    case Some(p) =>
      && DistinctGens(p.inputs) && (forall t :: t in p.inputs ==> t in tables)
      && spec == Running(Gens(p.inputs), p.target, p.bottom, p.minKeep, p.out)
  }

  /** Every write fits the record formats. */
  ghost predicate AllFit(hist: seq<Record>) {
    forall r :: r in hist ==> Fits(r)
  }

  predicate Fits(r: Record) {
    r.key != [] && r.seqNo < UINT64 && |r.key| < UINT32 && |r.value| < UINT32 && (r.typ == TYPE_VALUE || r.typ == TYPE_TOMBSTONE)
  }

  /** What a record can take up in a table file: data record and index entry. */
  function RecordCost(r: Record): nat {
    DATA_HEADER_SIZE + |r.key| + |r.value| + 12 + |r.key|
  }

  function TotalCost(recs: seq<Record>): nat {
    if recs == [] then 0 else TotalCost(recs[..|recs| - 1]) + RecordCost(recs[|recs| - 1])
  }

  /** Room for any Bloom filter and the footer. */
  const FIXED_COST: nat := 8 + UINT32 + FOOTER_SIZE

  /** All writes so far, put into one table file, stay below 2^64 bytes. */
  predicate FilesFit(hist: seq<Record>) {
    TotalCost(hist) + FIXED_COST < UINT64
  }

  // ---------- Reading the parts in turn ----------

  /** The step of `consider`. */
  function Consider(best: Option<Record>, r: Record, m: nat): Option<Record> {
    if r.seqNo > m then best
    else if best.None? || r.seqNo > best.value.seqNo then Some(r)
    else best
  }

  /** One more part seen: its newest visible version is considered against the best so far. */
  lemma NewestOfBoth(S: set<Record>, T: set<Record>, k: Key, m: nat)
    requires OneVersion(S + T)
    ensures Newest(S + T, k, m) ==
            if Newest(T, k, m).None? then Newest(S, k, m) else Consider(Newest(S, k, m), Newest(T, k, m).value, m)
  {
    hide OneVersion;
    var s, t := Newest(S, k, m), Newest(T, k, m);
    FoundIsNewest(S, k, m);
    FoundIsNewest(T, k, m);
    if s.Some? || t.Some? {
      var r := if t.None? then s.value else Consider(s, t.value, m).value;
      assert IsNewest(S + T, k, m, r);
      NewestIs(S + T, k, m, r);
    } else {
      FoundIsNewest(S + T, k, m);
    }
  }

  lemma FoundIsNewest(S: set<Record>, k: Key, m: nat)
    ensures Newest(S, k, m).Some? ==> IsNewest(S, k, m, Newest(S, k, m).value)
    ensures Newest(S, k, m).None? ==> forall r :: r in S && r.key == k ==> r.seqNo > m
  {
    if Newest(S, k, m).None? {
      forall r | r in S && r.key == k ensures r.seqNo > m {
        if r.seqNo <= m {
          NewestExists(S, k, m, r);
        }
      }
    }
  }

  lemma NewestInMemtable(mem: H.MemTable, k: Key, m: nat)
    requires Keyed(mem)
    ensures Newest(mem.Values, k, m) == if k in mem && mem[k].seqNo <= m then Some(mem[k]) else None
  {
    KeyedValues(mem);
    if k in mem && mem[k].seqNo <= m {
      assert mem[k] in mem.Values;
      assert IsNewest(mem.Values, k, m, mem[k]);
      NewestIs(mem.Values, k, m, mem[k]);
    }
  }

  lemma MemtablesKeyed(s: State)
    requires LogsInv(s)
    ensures Keyed(s.mem) && forall i :: 0 <= i < |s.imm| ==> Keyed(s.imm[i].mem)
  {
    hide LogFilesInv, IsSuffix, Surviving, H.Replay;
    ReplayKeyed(LogOf(s.logs, s.memLog));
    forall i | 0 <= i < |s.imm| ensures Keyed(s.imm[i].mem) {
      ReplayKeyed(LogOf(s.logs, s.imm[i].log));
    }
  }

  lemma ImmRecsFrom(imm: seq<Imm>, i: nat)
    requires i < |imm|
    ensures ImmRecs(imm[i..]) == ImmRecs(imm[i + 1..]) + imm[i].mem.Values
  {
    forall r | r in ImmRecs(imm[i + 1..]) ensures r in ImmRecs(imm[i..]) {
      var j :| 0 <= j < |imm| - i - 1 && r in imm[i + 1..][j].mem.Values;
      assert r in imm[i..][j + 1].mem.Values;
    }
    forall r | r in imm[i].mem.Values ensures r in ImmRecs(imm[i..]) {
      assert r in imm[i..][0].mem.Values;
    }
    forall r | r in ImmRecs(imm[i..]) ensures r in ImmRecs(imm[i + 1..]) + imm[i].mem.Values {
      var j :| 0 <= j < |imm| - i && r in imm[i..][j].mem.Values;
      if j > 0 {
        assert r in imm[i + 1..][j - 1].mem.Values;
      }
    }
  }

  /** The records of the listed tables. */
  ghost function ListRecs(ts: seq<Leveled>): set<Record> {
    set t, r | t in ts && r in t.table.recs :: r
  }

  lemma ListRecsAppend(ts: seq<Leveled>, i: nat)
    requires i < |ts|
    ensures ListRecs(ts[..i + 1]) == ListRecs(ts[..i]) + ToSet(ts[i].table.recs)
  {
    assert ts[..i + 1] == ts[..i] + [ts[i]];
  }

  lemma ListRecsAll(ts: seq<Leveled>)
    requires DistinctGens(ts)
    ensures ListRecs(ts) == RecsOf(ToTables(ts), ToTables(ts).Keys)
  {
    hide ToTables, DistinctGens;
    ToTablesAll(ts);
    forall r | r in ListRecs(ts) ensures r in RecsOf(ToTables(ts), ToTables(ts).Keys) {
      var t :| t in ts && r in t.table.recs;
      var i :| 0 <= i < |ts| && ts[i] == t;
    }
    forall r | r in RecsOf(ToTables(ts), ToTables(ts).Keys) ensures r in ListRecs(ts) {
      var g :| g in ToTables(ts) && r in ToTables(ts)[g].recs;
      var i := Listed(ts, g);
    }
  }

  // ---------- Changing the parts ----------

  lemma FormHolds(mt: M.MemTable, spec: H.MemTable, repr: set<object>)
    requires mt.Repr() <= repr && mt.Valid() && mt.Contents() == spec
    ensures Holds(mt, spec, repr)
  {
    hide M.MemTable.Valid, M.MemTable.Contents;
  }

  lemma FullHolds(mt: M.MemTable, spec: H.MemTable, repr: set<object>)
    requires Holds(mt, spec, repr) && mt.size > 0
    ensures spec != map[]
  {
    hide M.MemTable.Valid, M.MemTable.Contents;
    M.FullIsNotEmpty(mt);
  }

  lemma ImmPush(imm: seq<ImmEntry>, spec: seq<Imm>, repr: set<object>, mt: M.MemTable, log: nat, m: H.MemTable, repr': set<object>)
    requires ImmHold(imm, spec, repr) && Holds(mt, m, repr')
    ensures ImmHold(imm + [ImmEntry(mt, log)], spec + [Imm(m, log)], repr + repr')
  {
    hide M.MemTable.Valid, M.MemTable.Contents;
  }

  lemma HoldsParts(mt: M.MemTable, spec: H.MemTable, repr: set<object>)
    requires Holds(mt, spec, repr)
    ensures mt.Valid() && mt.Contents() == spec
  {
    hide M.MemTable.Valid, M.MemTable.Contents;
  }

  lemma ImmLength(imm: seq<ImmEntry>, spec: seq<Imm>, repr: set<object>)
    requires ImmHold(imm, spec, repr)
    ensures |imm| == |spec|
  {
  }

  lemma ImmAt(imm: seq<ImmEntry>, spec: seq<Imm>, repr: set<object>, i: nat)
    requires ImmHold(imm, spec, repr) && i < |imm|
    ensures |imm| == |spec| && imm[i].mt.Valid() && imm[i].mt.Contents() == spec[i].mem
  {
    hide M.MemTable.Valid, M.MemTable.Contents;
  }

  lemma ImmOldest(imm: seq<ImmEntry>, spec: seq<Imm>, repr: set<object>)
    requires ImmHold(imm, spec, repr) && imm != []
    ensures spec != [] && imm[0].log == spec[0].log && imm[0].mt.Valid() && imm[0].mt.Contents() == spec[0].mem
    ensures ImmHold(imm[1..], spec[1..], repr)
  {
    hide M.MemTable.Valid, M.MemTable.Contents;
  }

  lemma AppendTable(e: Env, tables: seq<Leveled>, spec: Tables, t: Leveled)
    requires TablesHold(e, tables, spec) && t.gen !in spec && IsFileOf(e.codec, e.hash, t.file, t.table.recs) && t.table.size == |t.file.file|
    ensures TablesHold(e, tables + [t], spec[t.gen := t.table])
  {
    hide IsFileOf;
    ToTablesAll(tables);
    forall i | 0 <= i < |tables| ensures tables[i].gen != t.gen {
      assert tables[i].gen in ToTables(tables);
    }
    assert (tables + [t])[..|tables|] == tables;
  }

  lemma DropTables(e: Env, tables: seq<Leveled>, spec: Tables, I: set<nat>)
    requires TablesHold(e, tables, spec)
    ensures TablesHold(e, Without(tables, I), spec - I)
  {
    hide IsFileOf, ToTables;
    WithoutTables(tables, I);
    WithoutDistinct(tables, I);
    forall t | t in Without(tables, I) ensures t in tables {
      WithoutMember(tables, I, t);
    }
  }

  lemma AppendLog(e: Env, logs: map<nat, Bytes>, spec: map<nat, seq<Record>>, g: nat, r: Record)
    requires LogsHold(e, logs, spec) && g in spec
    ensures g in logs && LogsHold(e, logs[g := logs[g] + W.Encode(e.crc, r)], spec[g := LogOf(spec, g) + [r]])
  {
    hide W.Encode, W.EncodeAll;
    W.EncodeAllLast(e.crc, spec[g], r);
  }

  lemma AddSnapshot(active: map<nat, nat>, spec: multiset<nat>, x: nat)
    requires SnapsHold(active, spec)
    ensures SnapsHold(active[x := (if x in active then active[x] else 0) + 1], spec + multiset{x})
  {
  }

  lemma DropSnapshot(active: map<nat, nat>, spec: multiset<nat>, x: nat)
    requires SnapsHold(active, spec) && x in spec
    ensures x in active
    ensures SnapsHold(if active[x] <= 1 then active - {x} else active[x := active[x] - 1], spec - multiset{x})
  {
  }

  // ---------- File sizes ----------

  lemma {:induction false} TotalCostWithout(hist: seq<Record>, i: nat)
    requires i < |hist|
    ensures TotalCost(hist) == TotalCost(hist[..i] + hist[i + 1..]) + RecordCost(hist[i])
  {
    hide RecordCost;
    var n := |hist| - 1;
    var w := hist[..i] + hist[i + 1..];
    if i == n {
      assert w == hist[..n];
    } else {
      TotalCostWithout(hist[..n], i);
      assert w[..n - 1] == hist[..n][..i] + hist[..n][i + 1..] && w[n - 1] == hist[n];
    }
  }

  /** Distinct records drawn from a list cost no more than the list. */
  lemma {:induction false} TotalCostOfPart(recs: seq<Record>, hist: seq<Record>)
    requires forall i, j :: 0 <= i < j < |recs| ==> recs[i] != recs[j]
    requires forall r :: r in recs ==> r in hist
    ensures TotalCost(recs) <= TotalCost(hist)
  {
    hide RecordCost;
    if recs != [] {
      var n := |recs| - 1;
      var r := recs[n];
      assert r in hist;
      var i :| 0 <= i < |hist| && hist[i] == r;
      var rest := hist[..i] + hist[i + 1..];
      forall q | q in recs[..n] ensures q in rest {
        assert q in hist && q != r;
        var j :| 0 <= j < |hist| && hist[j] == q;
        assert j < i ==> rest[j] == q;
        assert j > i ==> rest[j - 1] == q;
      }
      TotalCostOfPart(recs[..n], rest);
      TotalCostWithout(hist, i);
    }
  }

  lemma {:induction false} BlocksCost(c: Codec, compress: bool, recs: seq<Record>)
    ensures |DataBlock(c, compress, recs)| + |IndexBlock(IndexOf(c, compress, recs))| <= TotalCost(recs)
  {
    hide Header;
    if recs == [] {
      assert IndexOf(c, compress, recs) == [];
    } else {
      var n := |recs| - 1;
      BlocksCost(c, compress, recs[..n]);
      var ix := IndexOf(c, compress, recs);
      assert ix[..n] == IndexOf(c, compress, recs[..n]) by {
        forall i | 0 <= i < n ensures ix[i] == IndexOf(c, compress, recs[..n])[i] {
          assert recs[..n][..i] == recs[..i];
        }
      }
      assert |EncodeRecord(c, compress, recs[n])| <= DATA_HEADER_SIZE + |recs[n].key| + |recs[n].value|;
      assert |EncodeEntry(ix[n])| == 12 + |recs[n].key|;
    }
  }

  lemma FilterCost(f: B.Contents)
    requires B.Sized(f)
    ensures |B.Encoded(f)| <= 8 + UINT32
  {
  }

  /** Under a bound that can be added up from the writes, every table made of them fits. */
  lemma TableFits(e: Env, hist: seq<Record>, recs: seq<Record>)
    requires FilesFit(hist) && StrictlyOrdered(recs) && ToSet(recs) <= ToSet(hist)
    ensures FileFits(e.codec, e.compress, recs)
  {
    hide DataBlock, IndexBlock, IndexOf, B.Encoded, B.Sized, TotalCost, Footer;
    forall i, j | 0 <= i < j < |recs| ensures recs[i] != recs[j] {
      LessIrreflexive(recs[i].key);
    }
    forall r | r in recs ensures r in hist {
      assert r in ToSet(recs);
    }
    TotalCostOfPart(recs, hist);
    BlocksCost(e.codec, e.compress, recs);
    forall f | B.Sized(f) ensures |Layout(e.codec, e.compress, recs, B.Encoded(f))| < UINT64 {
      FilterCost(f);
    }
  }
}
