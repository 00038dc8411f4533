/** How a point read and a scan put the engine's parts together. */
module EngineReads {
  import opened Bytes
  import opened Versions
  import opened Store
  import opened StoreFacts
  import opened TableLists
  import opened EngineParts
  import Scan

  /** What reading relies on: a (key, Seq) pair names one record, and memtables hold records under their own keys. */
  ghost predicate ReadsWell(s: State) {
    OneVersion(Stored(s)) && Keyed(s.mem) && forall i :: 0 <= i < |s.imm| ==> Keyed(s.imm[i].mem)
  }

  lemma InvReadsWell(c: Config, s: State)
    requires Inv(c, s)
    ensures ReadsWell(s)
  {
    hide HistoryInv, LogsInv, TablesInv, PassInv, LiveInv, RecsOf, ImmRecs, OneVersion, Keyed;
    StoredWasWritten(c, s);
    MemtablesKeyed(s);
  }

  // ---------- Point reads ----------

  /** What a read has seen after the memtables from `i` on and the first `j` tables. */
  ghost function Seen(s: State, i: nat, tables: seq<Leveled>, j: nat): set<Record>
    requires i <= |s.imm| && j <= |tables|
  {
    s.mem.Values + ImmRecs(s.imm[i..]) + ListRecs(tables[..j])
  }

  /** The best version after one more part offered `found`. */
  function Offer(best: Option<Record>, found: Option<Record>, m: nat): Option<Record> {
    if found.None? then best else Consider(best, found.value, m)
  }

  lemma SeenIsStored(s: State, tables: seq<Leveled>, i: nat, j: nat)
    requires DistinctGens(tables) && ToTables(tables) == s.tables && i <= |s.imm| && j <= |tables|
    ensures Seen(s, i, tables, j) <= Stored(s)
    ensures Seen(s, 0, tables, |tables|) == Stored(s)
  {
    hide ToTables, DistinctGens, RecsOf;
    ListRecsAll(tables);
    assert tables[..|tables|] == tables && s.imm[0..] == s.imm;
    assert ImmRecs(s.imm[i..]) <= ImmRecs(s.imm);
  }

  lemma SeeActive(s: State, tables: seq<Leveled>, k: Key, m: nat)
    requires ReadsWell(s)
    ensures Newest(Seen(s, |s.imm|, tables, 0), k, m) == Offer(None, if k in s.mem then Some(s.mem[k]) else None, m)
  {
    hide Newest, OneVersion, Stored;
    assert Seen(s, |s.imm|, tables, 0) == s.mem.Values;
    NewestInMemtable(s.mem, k, m);
  }

  lemma SeeImmutable(s: State, tables: seq<Leveled>, i: nat, k: Key, m: nat)
    requires ReadsWell(s) && DistinctGens(tables) && ToTables(tables) == s.tables && i < |s.imm|
    ensures Newest(Seen(s, i, tables, 0), k, m) ==
            Offer(Newest(Seen(s, i + 1, tables, 0), k, m), if k in s.imm[i].mem then Some(s.imm[i].mem[k]) else None, m)
  {
    hide OneVersion, Newest, ToTables, DistinctGens, Stored, ImmRecs, ListRecs;
    NewestInMemtable(s.imm[i].mem, k, m);
    ImmRecsFrom(s.imm, i);
    assert Seen(s, i, tables, 0) == Seen(s, i + 1, tables, 0) + s.imm[i].mem.Values;
    SeenIsStored(s, tables, i, 0);
    PartOneVersion(Stored(s), Seen(s, i, tables, 0));
    NewestOfBoth(Seen(s, i + 1, tables, 0), s.imm[i].mem.Values, k, m);
  }

  lemma SeeTable(s: State, tables: seq<Leveled>, j: nat, k: Key, m: nat)
    requires ReadsWell(s) && DistinctGens(tables) && ToTables(tables) == s.tables && j < |tables|
    ensures Newest(Seen(s, 0, tables, j + 1), k, m) ==
            Offer(Newest(Seen(s, 0, tables, j), k, m), Newest(ToSet(tables[j].table.recs), k, m), m)
  {
    hide OneVersion, Newest, ToTables, DistinctGens, Stored, ImmRecs, ListRecs, ToSet;
    ListRecsAppend(tables, j);
    assert Seen(s, 0, tables, j + 1) == Seen(s, 0, tables, j) + ToSet(tables[j].table.recs);
    SeenIsStored(s, tables, 0, j + 1);
    PartOneVersion(Stored(s), Seen(s, 0, tables, j + 1));
    NewestOfBoth(Seen(s, 0, tables, j), ToSet(tables[j].table.recs), k, m);
  }

  // ---------- Scans ----------

  /** The parts a scan opens a source on, in the order it opens them. */
  ghost function ScanParts(s: State, i: nat, tables: seq<Leveled>, j: nat): (parts: seq<set<Record>>)
    requires i <= |s.imm| && j <= |tables|
    ensures |parts| == 1 + i + j && parts[0] == s.mem.Values
    ensures forall a :: 0 <= a < i ==> parts[1 + a] == s.imm[a].mem.Values
    ensures forall b :: 0 <= b < j ==> parts[1 + i + b] == ToSet(tables[b].table.recs)
  {
    seq(1 + i + j, x requires 0 <= x < 1 + i + j =>
      if x == 0 then s.mem.Values else if x <= i then s.imm[x - 1].mem.Values else ToSet(tables[x - 1 - i].table.recs))
  }

  ghost predicate AllServe(srcs: seq<seq<Record>>, parts: seq<set<Record>>, start: Option<Key>, end: Option<Key>, m: nat) {
    |srcs| == |parts| && forall x :: 0 <= x < |srcs| ==> Scan.Serves(srcs[x], parts[x], start, end, m)
  }

  lemma AllServeParts(srcs: seq<seq<Record>>, parts: seq<set<Record>>, start: Option<Key>, end: Option<Key>, m: nat)
    requires AllServe(srcs, parts, start, end, m)
    ensures |srcs| == |parts| && forall x :: 0 <= x < |srcs| ==> Scan.Serves(srcs[x], parts[x], start, end, m)
  {
    hide Scan.Serves;
  }

  lemma ServeActive(s: State, tables: seq<Leveled>, src: seq<Record>, start: Option<Key>, end: Option<Key>, m: nat)
    requires Scan.Serves(src, s.mem.Values, start, end, m)
    ensures AllServe([src], ScanParts(s, 0, tables, 0), start, end, m)
  {
    hide Scan.Serves;
  }

  lemma ServeImmutable(s: State, i: nat, tables: seq<Leveled>, srcs: seq<seq<Record>>, src: seq<Record>, start: Option<Key>, end: Option<Key>, m: nat)
    requires i < |s.imm| && AllServe(srcs, ScanParts(s, i, tables, 0), start, end, m)
    requires Scan.Serves(src, s.imm[i].mem.Values, start, end, m)
    ensures AllServe(srcs + [src], ScanParts(s, i + 1, tables, 0), start, end, m)
  {
    hide Scan.Serves;
    assert ScanParts(s, i + 1, tables, 0) == ScanParts(s, i, tables, 0) + [s.imm[i].mem.Values];
  }

  lemma ServeTable(s: State, tables: seq<Leveled>, j: nat, srcs: seq<seq<Record>>, src: seq<Record>, start: Option<Key>, end: Option<Key>, m: nat)
    requires j < |tables| && AllServe(srcs, ScanParts(s, |s.imm|, tables, j), start, end, m)
    requires Scan.Serves(src, ToSet(tables[j].table.recs), start, end, m)
    ensures AllServe(srcs + [src], ScanParts(s, |s.imm|, tables, j + 1), start, end, m)
  {
    hide Scan.Serves;
    assert ScanParts(s, |s.imm|, tables, j + 1) == ScanParts(s, |s.imm|, tables, j) + [ToSet(tables[j].table.recs)];
  }

  lemma PartsAreStored(s: State, tables: seq<Leveled>)
    requires DistinctGens(tables) && ToTables(tables) == s.tables
    ensures Scan.Whole(ScanParts(s, |s.imm|, tables, |tables|)) == Stored(s)
  {
    hide ToTables, DistinctGens, RecsOf;
    ListRecsAll(tables);
    var i := |s.imm|;
    var parts := ScanParts(s, i, tables, |tables|);
    forall r | r in Stored(s) ensures r in Scan.Whole(parts) {
      if r in s.mem.Values {
        assert r in parts[0];
      } else if r in ImmRecs(s.imm) {
        var a :| 0 <= a < i && r in s.imm[a].mem.Values;
        assert r in parts[1 + a];
      } else {
        var t :| t in tables && r in t.table.recs;
        var b :| 0 <= b < |tables| && tables[b] == t;
        assert r in parts[1 + i + b];
      }
    }
    forall r | r in Scan.Whole(parts) ensures r in Stored(s) {
      var x :| 0 <= x < |parts| && r in parts[x];
      if 0 < x <= i {
        assert parts[1 + (x - 1)] == s.imm[x - 1].mem.Values;
      } else if x > i {
        assert parts[1 + i + (x - 1 - i)] == ToSet(tables[x - 1 - i].table.recs);
        assert tables[x - 1 - i] in tables;
      }
    }
  }
}
