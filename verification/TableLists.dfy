/** The engine's table list and the table map it stands for. */
module TableLists {
  import opened Sums
  import opened Store
  import TableFiles

  /** A list element: file generation, what the table holds, and the opened file through which it is read. */
  datatype Leveled = Leveled(gen: nat, table: Table, file: TableFiles.Opened)

  function Gens(ts: seq<Leveled>): set<nat> {
    set t | t in ts :: t.gen
  }

  ghost predicate DistinctGens(ts: seq<Leveled>) {
    forall i, j :: 0 <= i < j < |ts| ==> ts[i].gen != ts[j].gen
  }

  function ToTables(ts: seq<Leveled>): Tables {
    if ts == [] then map[] else ToTables(ts[..|ts| - 1])[ts[|ts| - 1].gen := ts[|ts| - 1].table]
  }

  lemma {:induction false} ToTablesLookup(ts: seq<Leveled>, g: nat)
    requires DistinctGens(ts)
    ensures g in ToTables(ts) <==> g in Gens(ts)
    ensures forall i :: 0 <= i < |ts| && ts[i].gen == g ==> g in ToTables(ts) && ToTables(ts)[g] == ts[i].table
  {
    if ts != [] {
      var n := |ts| - 1;
      ToTablesLookup(ts[..n], g);
      assert ts == ts[..n] + [ts[n]];
      assert Gens(ts) == Gens(ts[..n]) + {ts[n].gen};
      forall i | 0 <= i < |ts| && ts[i].gen == g ensures g in ToTables(ts) && ToTables(ts)[g] == ts[i].table {
        if i < n {
          assert ts[..n][i] == ts[i];
        }
      }
    }
  }

  lemma ToTablesAll(ts: seq<Leveled>)
    requires DistinctGens(ts)
    ensures ToTables(ts).Keys == Gens(ts)
    ensures forall i :: 0 <= i < |ts| ==> ts[i].gen in ToTables(ts) && ToTables(ts)[ts[i].gen] == ts[i].table
  {
    forall g ensures g in ToTables(ts) <==> g in Gens(ts) {
      ToTablesLookup(ts, g);
    }
    forall i | 0 <= i < |ts| ensures ts[i].gen in ToTables(ts) && ToTables(ts)[ts[i].gen] == ts[i].table {
      ToTablesLookup(ts, ts[i].gen);
    }
  }

  /** `levelTablesLocked`. */
  function AtLevel(ts: seq<Leveled>, lvl: nat): (r: seq<Leveled>) {
    if ts == [] then []
    else AtLevel(ts[..|ts| - 1], lvl) + if ts[|ts| - 1].table.level == lvl then [ts[|ts| - 1]] else []
  }

  /** The commit loop: every table that is not an input. */
  function Without(ts: seq<Leveled>, I: set<nat>): (r: seq<Leveled>) {
    if ts == [] then []
    else Without(ts[..|ts| - 1], I) + if ts[|ts| - 1].gen in I then [] else [ts[|ts| - 1]]
  }

  lemma {:induction false} AtLevelMember(ts: seq<Leveled>, lvl: nat, t: Leveled)
    ensures t in AtLevel(ts, lvl) <==> t in ts && t.table.level == lvl
  {
    if ts != [] {
      var n := |ts| - 1;
      AtLevelMember(ts[..n], lvl, t);
      assert ts == ts[..n] + [ts[n]];
    }
  }

  lemma {:induction false} WithoutMember(ts: seq<Leveled>, I: set<nat>, t: Leveled)
    ensures t in Without(ts, I) <==> t in ts && t.gen !in I
  {
    if ts != [] {
      var n := |ts| - 1;
      WithoutMember(ts[..n], I, t);
      assert ts == ts[..n] + [ts[n]];
    }
  }

  lemma {:induction false} AtLevelDistinct(ts: seq<Leveled>, lvl: nat)
    requires DistinctGens(ts)
    ensures DistinctGens(AtLevel(ts, lvl))
  {
    if ts != [] {
      var n := |ts| - 1;
      AtLevelDistinct(ts[..n], lvl);
      var a := AtLevel(ts[..n], lvl);
      forall i | 0 <= i < |a| ensures a[i].gen != ts[n].gen {
        AtLevelMember(ts[..n], lvl, a[i]);
        var j :| 0 <= j < n && ts[..n][j] == a[i];
        assert ts[j] == a[i];
      }
    }
  }

  lemma {:induction false} WithoutDistinct(ts: seq<Leveled>, I: set<nat>)
    requires DistinctGens(ts)
    ensures DistinctGens(Without(ts, I))
  {
    if ts != [] {
      var n := |ts| - 1;
      WithoutDistinct(ts[..n], I);
      var a := Without(ts[..n], I);
      forall i | 0 <= i < |a| ensures a[i].gen != ts[n].gen {
        WithoutMember(ts[..n], I, a[i]);
        var j :| 0 <= j < n && ts[..n][j] == a[i];
        assert ts[j] == a[i];
      }
    }
  }

  lemma Listed(ts: seq<Leveled>, g: nat) returns (i: nat)
    requires g in Gens(ts)
    ensures i < |ts| && ts[i].gen == g
  {
    var t :| t in ts && t.gen == g;
    i :| 0 <= i < |ts| && ts[i] == t;
  }

  lemma AtLevelGens(ts: seq<Leveled>, lvl: nat)
    requires DistinctGens(ts)
    ensures Gens(AtLevel(ts, lvl)) == Level(ToTables(ts), lvl)
  {
    ToTablesAll(ts);
    forall g ensures g in Gens(AtLevel(ts, lvl)) <==> g in Level(ToTables(ts), lvl) {
      if g in Gens(AtLevel(ts, lvl)) {
        var i := Listed(AtLevel(ts, lvl), g);
        var t := AtLevel(ts, lvl)[i];
        AtLevelMember(ts, lvl, t);
        var j :| 0 <= j < |ts| && ts[j] == t;
      }
      if g in Level(ToTables(ts), lvl) {
        var j := Listed(ts, g);
        AtLevelMember(ts, lvl, ts[j]);
        assert ts[j] in AtLevel(ts, lvl);
      }
    }
  }

  /** Dropping the inputs from the list drops them from the map. */
  lemma WithoutTables(ts: seq<Leveled>, I: set<nat>)
    requires DistinctGens(ts)
    ensures ToTables(Without(ts, I)) == ToTables(ts) - I
  {
    hide ToTables;
    var w := Without(ts, I);
    WithoutDistinct(ts, I);
    ToTablesAll(ts);
    ToTablesAll(w);
    forall g ensures g in ToTables(w) <==> g in ToTables(ts) - I {
      if g in Gens(w) {
        var i := Listed(w, g);
        WithoutMember(ts, I, w[i]);
        assert w[i] in ts;
      }
      if g in Gens(ts) && g !in I {
        var i := Listed(ts, g);
        WithoutMember(ts, I, ts[i]);
        assert ts[i] in w;
      }
    }
    forall g | g in ToTables(w) ensures ToTables(w)[g] == ToTables(ts)[g] {
      var i := Listed(w, g);
      WithoutMember(ts, I, w[i]);
      var j :| 0 <= j < |ts| && ts[j] == w[i];
    }
  }

  lemma FrontDistinct(ts: seq<Leveled>, n: nat)
    requires DistinctGens(ts) && n <= |ts|
    ensures DistinctGens(ts[..n])
  {
  }

  lemma {:induction false} GensCount(ts: seq<Leveled>)
    requires DistinctGens(ts)
    ensures |Gens(ts)| == |ts|
  {
    if ts == [] {
      assert Gens(ts) == {};
    } else {
      hide DistinctGens;
      var n := |ts| - 1;
      assert DistinctGens(ts[..n]) by { FrontDistinct(ts, n); }
      GensCount(ts[..n]);
      assert ts == ts[..n] + [ts[n]];
      assert Gens(ts) == Gens(ts[..n]) + {ts[n].gen};
      NotYet(ts, n);
    }
  }

  /** The sizes in a list, added up. */
  function ListSize(ts: seq<Leveled>): nat {
    if ts == [] then 0 else ListSize(ts[..|ts| - 1]) + ts[|ts| - 1].table.size
  }

  /** Total size of a listed level, as the pick loop adds it up. */
  method TotalSize(ts: seq<Leveled>, part: seq<Leveled>) returns (total: nat)
    requires DistinctGens(ts) && DistinctGens(part) && forall t :: t in part ==> t in ts
    ensures total == ListSize(part) == SumSizes(ToTables(ts), Gens(part))
  {
    hide ToTables, Sum;
    total := 0;
    var f := SizeOf(ToTables(ts));
    assert Gens(part[..0]) == {} && Sum(f, {}) == 0 by { EmptySum(f); }
    ToTablesAll(ts);
    for i := 0 to |part|
      invariant total == ListSize(part[..i]) == Sum(f, Gens(part[..i]))
    {
      var g := part[i].gen;
      assert part[..i + 1] == part[..i] + [part[i]] && part[..i + 1][..i] == part[..i];
      assert Gens(part[..i + 1]) == Gens(part[..i]) + {g};
      assert g !in Gens(part[..i]) by { NotYet(part, i); }
      SumPick(f, Gens(part[..i + 1]), g);
      assert Gens(part[..i + 1]) - {g} == Gens(part[..i]);
      assert f(g) == part[i].table.size by {
        assert part[i] in part;
        assert part[i] in ts;
        var j :| 0 <= j < |ts| && ts[j] == part[i];
      }
      total := total + part[i].table.size;
    }
    assert part[..|part|] == part;
  }

  lemma EmptySum(f: nat -> nat)
    ensures Sum(f, {}) == 0
  {
  }

  lemma NotYet(part: seq<Leveled>, i: nat)
    requires DistinctGens(part) && i < |part|
    ensures part[i].gen !in Gens(part[..i])
  {
    forall t | t in part[..i] ensures t.gen != part[i].gen {
      var j :| 0 <= j < i && part[..i][j] == t;
      assert part[j] == t;
    }
  }
}
