/** The loops by which a compaction pass chooses its inputs, its target and its bounds. */
module Picking {
  import opened Bytes
  import opened Versions
  import opened Store
  import opened TableLists

  /** `levelTablesLocked`. */
  method LevelTables(ts: seq<Leveled>, lvl: nat) returns (out: seq<Leveled>)
    ensures out == AtLevel(ts, lvl)
  {
    out := [];
    for i := 0 to |ts|
      invariant out == AtLevel(ts[..i], lvl)
    {
      assert ts[..i + 1][..i] == ts[..i];
      if ts[i].table.level == lvl {
        out := out + [ts[i]];
      }
    }
    assert ts[..|ts|] == ts;
  }

  /** `targetSizeForLevel`. */
  method TargetSizeForLevel(c: Config, lvl: nat) returns (size: nat)
    ensures size == TargetSize(c, lvl)
  {
    size := c.baseSize;
    var i := 1;
    while i < lvl
      invariant 1 <= i && (i <= lvl || i == 1) && size == TargetSize(c, i)
    {
      size := size * c.multiplier;
      i := i + 1;
    }
  }

  datatype Choice = Choice(inputs: seq<Leveled>, target: nat)

  /** The two adjacent levels a pass merges, as one list without repeats. */
  lemma TwoLevels(ts: seq<Leveled>, lvl: nat)
    requires DistinctGens(ts)
    ensures var inputs := AtLevel(ts, lvl) + AtLevel(ts, lvl + 1);
            && Gens(inputs) == Level(ToTables(ts), lvl) + Level(ToTables(ts), lvl + 1)
            && DistinctGens(inputs) && forall t :: t in inputs ==> t in ts
  {
    hide ToTables, AtLevel;
    var a, b := AtLevel(ts, lvl), AtLevel(ts, lvl + 1);
    AtLevelGens(ts, lvl);
    AtLevelGens(ts, lvl + 1);
    AtLevelDistinct(ts, lvl);
    AtLevelDistinct(ts, lvl + 1);
    forall t | t in a + b ensures t in ts {
      AtLevelMember(ts, lvl, t);
      AtLevelMember(ts, lvl + 1, t);
    }
    forall i, j | 0 <= i < |a| && 0 <= j < |b| ensures a[i].gen != b[j].gen {
      assert a[i].gen in Gens(a) && b[j].gen in Gens(b);
    }
    assert Gens(a + b) == Gens(a) + Gens(b);
  }

  lemma LevelSize(ts: seq<Leveled>, lvl: nat)
    requires DistinctGens(ts)
    ensures |AtLevel(ts, lvl)| == |Level(ToTables(ts), lvl)|
    ensures AtLevel(ts, lvl) == [] <==> Level(ToTables(ts), lvl) == {}
    ensures DistinctGens(AtLevel(ts, lvl)) && Gens(AtLevel(ts, lvl)) == Level(ToTables(ts), lvl)
    ensures forall t :: t in AtLevel(ts, lvl) ==> t in ts
  {
    hide ToTables, AtLevel, Level, DistinctGens;
    AtLevelGens(ts, lvl);
    AtLevelDistinct(ts, lvl);
    GensCount(AtLevel(ts, lvl));
    forall t | t in AtLevel(ts, lvl) ensures t in ts {
      AtLevelMember(ts, lvl, t);
    }
  }

  /**
   `inputs` is a level and the next, together: level 0 exactly when it has as
   many tables as its trigger, otherwise the first level over its target.
   */
  ghost predicate TakesDueLevel(c: Config, ts: seq<Leveled>, inputs: seq<Leveled>, target: nat) {
    && target >= 1 && inputs == AtLevel(ts, target - 1) + AtLevel(ts, target)
    && (target == 1 <==> |AtLevel(ts, 0)| >= c.l0Trigger)
    && (target > 1 ==> ListSize(AtLevel(ts, target - 1)) > TargetSize(c, target - 1))
    && (target > 1 ==> forall l :: 1 <= l < target - 1 ==> ListSize(AtLevel(ts, l)) <= TargetSize(c, l))
  }

  ghost predicate NothingDue(c: Config, ts: seq<Leveled>) {
    |AtLevel(ts, 0)| < c.l0Trigger && forall l :: 1 <= l && l + 1 < c.maxLevels ==> ListSize(AtLevel(ts, l)) <= TargetSize(c, l)
  }

  /** `pickCompactionLocked`. */
  method PickCompaction(c: Config, ts: seq<Leveled>) returns (plan: Option<Choice>)
    requires DistinctGens(ts)
    ensures plan.None? <==> Pick(c, ToTables(ts)).None?
    ensures plan.None? ==> NothingDue(c, ts)
    ensures plan.Some? ==>
              && Pick(c, ToTables(ts)) == Some(Plan(Gens(plan.value.inputs), plan.value.target))
              && TakesDueLevel(c, ts, plan.value.inputs, plan.value.target)
              && DistinctGens(plan.value.inputs) && forall t :: t in plan.value.inputs ==> t in ts
  {
    hide ToTables, AtLevel, Level, DistinctGens, TargetSize, SumSizes, Gens, ListSize;
    var l0 := LevelTables(ts, 0);
    LevelSize(ts, 0);
    if |l0| >= c.l0Trigger {
      var l1 := LevelTables(ts, 1);
      TwoLevels(ts, 0);
      return Some(Choice(l0 + l1, 1));
    }
    var lvl := 1;
    while lvl + 1 < c.maxLevels
      invariant 1 <= lvl && Pick(c, ToTables(ts)) == PickFrom(c, ToTables(ts), lvl)
      invariant forall l :: 1 <= l < lvl ==> ListSize(AtLevel(ts, l)) <= TargetSize(c, l)
      decreases c.maxLevels - lvl
    {
      var levelTables := LevelTables(ts, lvl);
      LevelSize(ts, lvl);
      if |levelTables| > 0 {
        var total := TotalSize(ts, levelTables);
        var target := TargetSizeForLevel(c, lvl);
        if total > target {
          var next := LevelTables(ts, lvl + 1);
          TwoLevels(ts, lvl);
          return Some(Choice(levelTables + next, lvl + 1));
        }
      } else {
        EmptyListSize();
      }
      lvl := lvl + 1;
    }
    return None;
  }

  lemma EmptyListSize()
    ensures ListSize([]) == 0
  {
  }

  /** The `isBottommost` loop. */
  method IsBottommost(c: Config, ts: seq<Leveled>, target: nat) returns (bottom: bool)
    requires DistinctGens(ts)
    ensures bottom == Bottommost(c, ToTables(ts), target)
  {
    hide ToTables, AtLevel, Level, DistinctGens;
    var lvl := target + 1;
    while lvl < c.maxLevels
      invariant target < lvl
      invariant forall l :: target < l < lvl ==> Level(ToTables(ts), l) == {}
    {
      var deeper := LevelTables(ts, lvl);
      LevelSize(ts, lvl);
      if |deeper| > 0 {
        return false;
      }
      lvl := lvl + 1;
    }
    return true;
  }

  /** `minActiveSnapshotSeq`: the least open snapshot, or no bound without one. */
  method MinActive(active: map<nat, nat>, ghost snaps: multiset<nat>) returns (min: nat)
    requires forall x :: x in active <==> x in snaps
    requires forall x :: x in active ==> x <= UNBOUNDED
    ensures IsMinSnap(snaps, min)
    ensures active == map[] ==> min == 0xFFFF_FFFF_FFFF_FFFF
    ensures active != map[] ==> min in active && forall x :: x in active ==> min <= x
  {
    min := UNBOUNDED;
    var left := active.Keys;
    while left != {}
      invariant left <= active.Keys && min <= UNBOUNDED && (min == UNBOUNDED || min in active)
      invariant forall x :: x in active && x !in left ==> min <= x
    {
      var x :| x in left;
      if x < min {
        min := x;
      }
      left := left - {x};
    }
    assert forall x :: x in snaps ==> x in active;
    if active != map[] {
      var x :| x in active.Keys;
      assert min <= x <= UNBOUNDED;
    }
  }
}
