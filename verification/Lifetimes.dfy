/** Reference counting of open tables: readers, iterators, compaction commits and retirement. */
module Lifetimes {
  // ---------- One table ----------

  /** A table's lifecycle fields, and what has happened to its file: times closed, deleted or not. */
  datatype Life = Life(refCount: int, removeOnZero: bool, released: bool, closes: nat, deleted: bool)

  const OPENED := Life(1, false, false, 0, false)

  function Acquired(l: Life): Life {
    if l.released then l else l.(refCount := l.refCount + 1)
  }

  function Released(l: Life): Life {
    if l.refCount - 1 > 0 then l.(refCount := l.refCount - 1)
    else l.(refCount := l.refCount - 1, released := true, closes := l.closes + 1, deleted := l.deleted || l.removeOnZero)
  }

  function Retired(l: Life): Life {
    Released(l.(removeOnZero := true))
  }

  class Table {
    var refCount: int
    var removeOnZero: bool
    var released: bool
    var closes: nat
    var deleted: bool

    function State(): Life
      reads this
    {
      Life(refCount, removeOnZero, released, closes, deleted)
    }

    constructor ()
      ensures State() == OPENED
    {
      refCount, removeOnZero, released, closes, deleted := 1, false, false, 0, false;
    }

    method Acquire() returns (ok: bool)
      modifies this
      ensures ok == !old(released) && State() == Acquired(old(State()))
    {
      if released {
        return false;
      }
      refCount := refCount + 1;
      return true;
    }

    method Release()
      modifies this
      ensures State() == Released(old(State()))
    {
      refCount := refCount - 1;
      if refCount > 0 {
        return;
      }
      var remove := removeOnZero;
      released := true;
      closes := closes + 1;
      if remove {
        deleted := true;
      }
    }

    method Retire()
      modifies this
      ensures State() == Retired(old(State()))
    {
      removeOnZero := true;
      Release();
    }
  }

  // ---------- The protocol ----------

  /** One reader's hold on one table. */
  datatype Hold = Hold(reader: nat, table: nat)

  datatype Protocol = Protocol(
    lives: map<nat, Life>,
    listed: set<nat>,      // in the engine's table list
    retiring: set<nat>,    // taken off the list by a commit, not yet retired
    retired: set<nat>,     // Retire has been called
    holds: set<Hold>,
    nextReader: nat,
    closed: bool)

  datatype Step =
    | Open(table: nat)                        // a flush or a merge output joins the list
    | BeginRead                               // Get or Scan: acquire every listed table under the read lock
    | EndHold(hold: Hold)                     // release one acquired table
    | Commit(inputs: set<nat>)                // compaction takes its inputs off the list
    | Retire(table: nat)                      // drop the list's reference to one input
    | Close                                   // no reads start after this
    | ReleaseListed(table: nat)               // engine Close drops the list's reference

  predicate Enabled(p: Protocol, step: Step) {
    match step
    case Open(t) => t !in p.lives && !p.closed
    case BeginRead => !p.closed
    case EndHold(h) => h in p.holds && h.table in p.lives
    case Commit(I) => I <= p.listed && !p.closed
    case Retire(t) => t in p.retiring && t in p.lives
    case Close => !p.closed && p.retiring == {}
    case ReleaseListed(t) => p.closed && t in p.listed && t in p.lives
  }

  function Apply(p: Protocol, step: Step): Protocol
    requires Enabled(p, step)
  {
    match step
    case Open(t) => p.(lives := p.lives[t := OPENED], listed := p.listed + {t})
    case BeginRead =>
      p.(lives := map t | t in p.lives :: if t in p.listed then Acquired(p.lives[t]) else p.lives[t],
         holds := p.holds + (set t | t in p.listed :: Hold(p.nextReader, t)), nextReader := p.nextReader + 1)
    case EndHold(h) => p.(lives := p.lives[h.table := Released(p.lives[h.table])], holds := p.holds - {h})
    case Commit(I) => p.(listed := p.listed - I, retiring := p.retiring + I)
    case Retire(t) =>
      p.(lives := p.lives[t := Retired(p.lives[t])], retiring := p.retiring - {t}, retired := p.retired + {t})
    case Close => p.(closed := true)
    case ReleaseListed(t) => p.(lives := p.lives[t := Released(p.lives[t])], listed := p.listed - {t})
  }

  function HoldsOn(holds: set<Hold>, t: nat): set<Hold> {
    set h | h in holds && h.table == t
  }

  /** The list's own reference. */
  predicate Owned(p: Protocol, t: nat) {
    t in p.listed || t in p.retiring
  }

  /** The count is outstanding holds plus the owner's; the file is open while it is positive. */
  ghost predicate Counted(p: Protocol, t: nat)
    requires t in p.lives
  {
    var l := p.lives[t];
    && l.refCount == |HoldsOn(p.holds, t)| + (if Owned(p, t) then 1 else 0)
    && (l.released <==> l.refCount == 0)
    && l.closes == (if l.released then 1 else 0)
    && (l.removeOnZero <==> t in p.retired)
    && (l.deleted <==> l.released && t in p.retired)
  }

  ghost predicate Inv(p: Protocol) {
    && p.listed <= p.lives.Keys && p.retiring <= p.lives.Keys && p.retired <= p.lives.Keys
    && p.listed !! p.retiring && p.retired !! (p.listed + p.retiring)
    && (forall h :: h in p.holds ==> h.table in p.lives && h.reader < p.nextReader)
    && forall t :: t in p.lives ==> Counted(p, t)
  }

  lemma BeginReadCounts(p: Protocol, t: nat)
    requires Inv(p) && Enabled(p, BeginRead) && t in p.lives
    ensures Counted(Apply(p, BeginRead), t)
  {
    var p' := Apply(p, BeginRead);
    var h := Hold(p.nextReader, t);
    if t in p.listed {
      assert HoldsOn(p'.holds, t) == HoldsOn(p.holds, t) + {h};
    } else {
      assert HoldsOn(p'.holds, t) == HoldsOn(p.holds, t);
    }
  }

  lemma EndHoldCounts(p: Protocol, h: Hold, t: nat)
    requires Inv(p) && Enabled(p, EndHold(h)) && t in p.lives
    ensures Counted(Apply(p, EndHold(h)), t)
  {
    var p' := Apply(p, EndHold(h));
    if t == h.table {
      assert HoldsOn(p.holds, t) == HoldsOn(p'.holds, t) + {h};
    } else {
      assert HoldsOn(p.holds, t) == HoldsOn(p'.holds, t);
    }
  }

  lemma OtherCounts(p: Protocol, step: Step, t: nat)
    requires Inv(p) && Enabled(p, step) && !step.BeginRead? && !step.EndHold? && t in Apply(p, step).lives
    ensures Counted(Apply(p, step), t)
  {
    if t !in p.lives {
      assert HoldsOn(p.holds, t) == {};
    }
  }

  lemma StepKeepsInv(p: Protocol, step: Step)
    requires Inv(p) && Enabled(p, step)
    ensures Inv(Apply(p, step))
  {
    hide Counted;
    var p' := Apply(p, step);
    forall t | t in p'.lives ensures Counted(p', t) {
      match step
      case BeginRead => BeginReadCounts(p, t);
      case EndHold(h) => EndHoldCounts(p, h, t);
      case Open(_) => OtherCounts(p, step, t);
      case Commit(_) => OtherCounts(p, step, t);
      case Retire(_) => OtherCounts(p, step, t);
      case Close => OtherCounts(p, step, t);
      case ReleaseListed(_) => OtherCounts(p, step, t);
    }
  }

  const EMPTY := Protocol(map[], {}, {}, {}, {}, 0, false)

  ghost predicate IsRun(run: seq<Protocol>, steps: seq<Step>) {
    && |run| == |steps| + 1 && run[0] == EMPTY
    && forall i :: 0 <= i < |steps| ==> Enabled(run[i], steps[i]) && run[i + 1] == Apply(run[i], steps[i])
  }

  lemma {:induction false} RunKeepsInv(run: seq<Protocol>, steps: seq<Step>, n: nat)
    requires IsRun(run, steps) && n < |run|
    ensures Inv(run[n])
    decreases n
  {
    hide Inv, Apply, Enabled;
    if n == 0 {
      assert Inv(EMPTY) by { EmptyInv(); }
    } else {
      RunKeepsInv(run, steps, n - 1);
      assert Enabled(run[n - 1], steps[n - 1]) && run[n - 1 + 1] == Apply(run[n - 1], steps[n - 1]);
      StepKeepsInv(run[n - 1], steps[n - 1]);
    }
  }

  lemma EmptyInv()
    ensures Inv(EMPTY)
  {
  }

  /**
   In every interleaving: Acquire on a listed table succeeds, a held table's
   file is open, no file is closed twice, and only retired, unlisted tables
   are deleted, once nobody holds them.
   */
  lemma LifetimesAreSafe(run: seq<Protocol>, steps: seq<Step>, n: nat, t: nat)
    requires IsRun(run, steps) && n < |run| && t in run[n].lives
    ensures var p, l := run[n], run[n].lives[t];
            && l.refCount == |HoldsOn(p.holds, t)| + (if Owned(p, t) then 1 else 0)
            && (t in p.listed ==> !l.released)
            && (HoldsOn(p.holds, t) != {} ==> !l.released && l.closes == 0 && !l.deleted)
            && l.closes <= 1
            && (l.deleted <==> t in p.retired && HoldsOn(p.holds, t) == {})
  {
    hide IsRun;
    RunKeepsInv(run, steps, n);
    assert Counted(run[n], t);
  }

  // ---------- Lifetimes read off the steps ----------

  /** The table has joined the list and nothing has taken it off, by step `n`. */
  ghost predicate OnList(steps: seq<Step>, n: nat, t: nat)
    requires n <= |steps|
  {
    && (exists i :: 0 <= i < n && steps[i] == Open(t))
    && forall i :: 0 <= i < n ==> !TakesOff(steps[i], t)
  }

  predicate TakesOff(step: Step, t: nat) {
    (step.Commit? && t in step.inputs) || step == ReleaseListed(t)
  }

  /** The number of reads begun before step `n`. */
  function Readers(steps: seq<Step>, n: nat): nat
    requires n <= |steps|
  {
    if n == 0 then 0 else Readers(steps, n - 1) + if steps[n - 1].BeginRead? then 1 else 0
  }

  /** The read begun at step `i`, when `t` was listed, has not let go of it by step `n`. */
  ghost predicate Reading(steps: seq<Step>, i: nat, n: nat, t: nat)
    requires i < n <= |steps|
  {
    && steps[i].BeginRead? && OnList(steps, i, t)
    && forall j :: i < j < n ==> steps[j] != EndHold(Hold(Readers(steps, i), t))
  }

  lemma RunStep(run: seq<Protocol>, steps: seq<Step>, n: nat)
    requires IsRun(run, steps) && 0 < n < |run|
    ensures Enabled(run[n - 1], steps[n - 1]) && run[n] == Apply(run[n - 1], steps[n - 1])
  {
    hide Enabled, Apply;
    assert run[n - 1 + 1] == Apply(run[n - 1], steps[n - 1]);
  }

  lemma {:induction false} ReadersCounted(run: seq<Protocol>, steps: seq<Step>, n: nat)
    requires IsRun(run, steps) && n < |run|
    ensures run[n].nextReader == Readers(steps, n)
  {
    hide IsRun;
    if n > 0 {
      RunStep(run, steps, n);
      ReadersCounted(run, steps, n - 1);
    } else {
      RunStarts(run, steps);
    }
  }

  lemma RunStarts(run: seq<Protocol>, steps: seq<Step>)
    requires IsRun(run, steps)
    ensures run[0] == EMPTY && |run| == |steps| + 1
  {
  }

  lemma {:induction false} OpenedIsAlive(run: seq<Protocol>, steps: seq<Step>, n: nat, t: nat)
    requires IsRun(run, steps) && n < |run|
    ensures t in run[n].lives <==> exists i :: 0 <= i < n && steps[i] == Open(t)
  {
    hide IsRun;
    RunStarts(run, steps);
    if n > 0 {
      RunStep(run, steps, n);
      OpenedIsAlive(run, steps, n - 1, t);
      if i :| 0 <= i < n && steps[i] == Open(t) {
        assert i == n - 1 || t in run[n - 1].lives;
      }
    }
  }

  /** A table is listed exactly if it was opened and neither committed away nor released. */
  lemma {:induction false} ListedExactly(run: seq<Protocol>, steps: seq<Step>, n: nat, t: nat)
    requires IsRun(run, steps) && n < |run|
    ensures t in run[n].listed <==> OnList(steps, n, t)
  {
    hide IsRun;
    RunStarts(run, steps);
    if n > 0 {
      RunStep(run, steps, n);
      ListedExactly(run, steps, n - 1, t);
      RunKeepsInv(run, steps, n - 1);
      var p, step := run[n - 1], steps[n - 1];
      OpenedIsAlive(run, steps, n - 1, t);
      TakenOffWasOpened(run, steps, n - 1, t);
      if OnList(steps, n, t) && !OnList(steps, n - 1, t) {
        assert step == Open(t);
      }
      if OnList(steps, n - 1, t) && !TakesOff(step, t) {
        var i :| 0 <= i < n - 1 && steps[i] == Open(t);
        assert OnList(steps, n, t);
      }
      if step == Open(t) {
        assert OnList(steps, n, t) by {
          assert steps[n - 1] == Open(t);
        }
      }
    }
  }

  lemma {:induction false} TakenOffWasOpened(run: seq<Protocol>, steps: seq<Step>, n: nat, t: nat)
    requires IsRun(run, steps) && n < |run|
    ensures t !in run[n].lives ==> forall i :: 0 <= i < n ==> !TakesOff(steps[i], t)
  {
    hide IsRun;
    RunStarts(run, steps);
    if n > 0 {
      RunStep(run, steps, n);
      TakenOffWasOpened(run, steps, n - 1, t);
      RunKeepsInv(run, steps, n - 1);
    }
  }

  /** A read holds a table exactly if it began while the table was listed and has not let go since. */
  lemma {:induction false} HeldExactly(run: seq<Protocol>, steps: seq<Step>, n: nat, i: nat, t: nat)
    requires IsRun(run, steps) && n < |run| && i < n && steps[i].BeginRead?
    ensures Hold(Readers(steps, i), t) in run[n].holds <==> Reading(steps, i, n, t)
    decreases n
  {
    hide IsRun, Inv;
    RunStarts(run, steps);
    RunStep(run, steps, n);
    ReadersCounted(run, steps, n - 1);
    ReadersCounted(run, steps, i);
    RunKeepsInv(run, steps, n - 1);
    if i == n - 1 {
      ListedExactly(run, steps, i, t);
      NoHoldYet(run[i], t);
    } else {
      HeldExactly(run, steps, n - 1, i, t);
      ReadersGrow(steps, i, n - 1);
    }
  }

  lemma NoHoldYet(p: Protocol, t: nat)
    requires Inv(p)
    ensures Hold(p.nextReader, t) !in p.holds
  {
  }

  lemma {:induction false} ReadersGrow(steps: seq<Step>, i: nat, n: nat)
    requires i < n <= |steps| && steps[i].BeginRead?
    ensures Readers(steps, i) < Readers(steps, n)
  {
    if i < n - 1 {
      ReadersGrow(steps, i, n - 1);
    }
  }

  /**
   A read has the tables it reads: from the step at which it begins until it
   lets go of a table that was listed then, that table's file is open and not
   deleted, whatever commits and retirements come between, and letting go is
   possible.
   */
  lemma ReadsHoldTheirTables(run: seq<Protocol>, steps: seq<Step>, i: nat, n: nat, t: nat)
    requires IsRun(run, steps) && i < n < |run| && steps[i].BeginRead? && t in run[i].listed
    requires forall j :: i < j < n ==> steps[j] != EndHold(Hold(run[i].nextReader, t))
    ensures t in run[n].lives
    ensures var l := run[n].lives[t]; !l.released && l.closes == 0 && !l.deleted
    ensures Enabled(run[n], EndHold(Hold(run[i].nextReader, t)))
  {
    hide IsRun, Inv;
    ReadersCounted(run, steps, i);
    ListedExactly(run, steps, i, t);
    HeldExactly(run, steps, n, i, t);
    RunKeepsInv(run, steps, n);
    HeldIsAlive(run[n], Hold(run[i].nextReader, t));
    LifetimesAreSafe(run, steps, n, t);
    assert Hold(run[i].nextReader, t) in HoldsOn(run[n].holds, t);
  }

  lemma HeldIsAlive(p: Protocol, h: Hold)
    requires Inv(p) && h in p.holds
    ensures h.table in p.lives && h.reader < p.nextReader
  {
  }

  lemma {:induction false} EveryHoldBegan(run: seq<Protocol>, steps: seq<Step>, n: nat, h: Hold)
    requires IsRun(run, steps) && n < |run| && h in run[n].holds
    ensures exists i :: 0 <= i < n && steps[i].BeginRead? && Readers(steps, i) == h.reader
  {
    hide IsRun, Inv;
    RunStarts(run, steps);
    assert n > 0;
    RunStep(run, steps, n);
    ReadersCounted(run, steps, n - 1);
    if h in run[n - 1].holds {
      EveryHoldBegan(run, steps, n - 1, h);
    } else {
      assert steps[n - 1].BeginRead?;
    }
  }

  lemma {:induction false} RetiredExactly(run: seq<Protocol>, steps: seq<Step>, n: nat, t: nat)
    requires IsRun(run, steps) && n < |run|
    ensures t in run[n].retired <==> exists i :: 0 <= i < n && steps[i] == Retire(t)
  {
    hide IsRun;
    RunStarts(run, steps);
    if n > 0 {
      RunStep(run, steps, n);
      RetiredExactly(run, steps, n - 1, t);
    }
  }

  /** A table's file is deleted exactly if it was retired and every read that began on it has let go. */
  lemma DeletedExactly(run: seq<Protocol>, steps: seq<Step>, n: nat, t: nat)
    requires IsRun(run, steps) && n < |run| && t in run[n].lives
    ensures run[n].lives[t].deleted <==>
            (exists i :: 0 <= i < n && steps[i] == Retire(t)) && forall i :: 0 <= i < n ==> !Reading(steps, i, n, t)
  {
    hide IsRun, Inv, Reading, OnList, Readers;
    RunStarts(run, steps);
    LifetimesAreSafe(run, steps, n, t);
    RetiredExactly(run, steps, n, t);
    if h :| h in HoldsOn(run[n].holds, t) {
      EveryHoldBegan(run, steps, n, h);
      var i :| 0 <= i < n && steps[i].BeginRead? && Readers(steps, i) == h.reader;
      HeldExactly(run, steps, n, i, t);
      assert h == Hold(Readers(steps, i), t);
      assert Reading(steps, i, n, t);
    } else {
      forall i | 0 <= i < n ensures !Reading(steps, i, n, t) {
        ReadingHolds(run, steps, n, i, t);
      }
    }
  }

  lemma ReadingHolds(run: seq<Protocol>, steps: seq<Step>, n: nat, i: nat, t: nat)
    requires IsRun(run, steps) && n < |run| && i < n
    ensures Reading(steps, i, n, t) ==> Hold(Readers(steps, i), t) in HoldsOn(run[n].holds, t)
  {
    hide IsRun;
    RunStarts(run, steps);
    if Reading(steps, i, n, t) {
      HeldExactly(run, steps, n, i, t);
    }
  }

  /** The list's own reference is given up by a retirement, or by the engine's close. */
  predicate LetsGo(step: Step, t: nat) {
    step == Retire(t) || step == ReleaseListed(t)
  }

  lemma {:induction false} OwnedExactly(run: seq<Protocol>, steps: seq<Step>, n: nat, t: nat)
    requires IsRun(run, steps) && n < |run| && t in run[n].lives
    ensures Owned(run[n], t) <==> forall i :: 0 <= i < n ==> !LetsGo(steps[i], t)
  {
    hide IsRun;
    RunStarts(run, steps);
    if n > 0 {
      RunStep(run, steps, n);
      RunKeepsInv(run, steps, n - 1);
      if t in run[n - 1].lives {
        OwnedExactly(run, steps, n - 1, t);
      } else {
        NotYetLetGo(run, steps, n - 1, t);
      }
    }
  }

  lemma {:induction false} NotYetLetGo(run: seq<Protocol>, steps: seq<Step>, n: nat, t: nat)
    requires IsRun(run, steps) && n < |run| && t !in run[n].lives
    ensures forall i :: 0 <= i < n ==> !LetsGo(steps[i], t)
  {
    hide IsRun;
    RunStarts(run, steps);
    if n > 0 {
      RunStep(run, steps, n);
      NotYetLetGo(run, steps, n - 1, t);
    }
  }

  /** A table's file is closed, once, exactly when its owner and every read that began on it have let go. */
  lemma ClosedExactly(run: seq<Protocol>, steps: seq<Step>, n: nat, t: nat)
    requires IsRun(run, steps) && n < |run| && t in run[n].lives
    ensures var l := run[n].lives[t];
            var over := (exists i :: 0 <= i < n && LetsGo(steps[i], t)) && forall i :: 0 <= i < n ==> !Reading(steps, i, n, t);
            l.closes == (if over then 1 else 0) && (l.released <==> over)
  {
    hide IsRun, Inv, Reading, OnList, Readers, LetsGo;
    RunStarts(run, steps);
    RunKeepsInv(run, steps, n);
    CountedIs(run[n], t);
    OwnedExactly(run, steps, n, t);
    if h :| h in HoldsOn(run[n].holds, t) {
      EveryHoldBegan(run, steps, n, h);
      var i :| 0 <= i < n && steps[i].BeginRead? && Readers(steps, i) == h.reader;
      HeldExactly(run, steps, n, i, t);
      assert h == Hold(Readers(steps, i), t);
      assert Reading(steps, i, n, t);
    } else {
      forall i | 0 <= i < n ensures !Reading(steps, i, n, t) {
        ReadingHolds(run, steps, n, i, t);
      }
    }
  }

  lemma CountedIs(p: Protocol, t: nat)
    requires Inv(p) && t in p.lives
    ensures p.lives[t].released <==> HoldsOn(p.holds, t) == {} && !Owned(p, t)
    ensures p.lives[t].closes == if p.lives[t].released then 1 else 0
  {
    assert Counted(p, t);
  }

  // ---------- A run ----------

  const L0 := EMPTY
  const L1 := Protocol(map[1 := OPENED], {1}, {}, {}, {}, 0, false)
  const L2 := Protocol(map[1 := Life(2, false, false, 0, false)], {1}, {}, {}, {Hold(0, 1)}, 1, false)
  const L3 := Protocol(map[1 := Life(2, false, false, 0, false)], {}, {1}, {}, {Hold(0, 1)}, 1, false)
  const L4 := Protocol(map[1 := Life(1, true, false, 0, false)], {}, {}, {1}, {Hold(0, 1)}, 1, false)
  const L5 := Protocol(map[1 := Life(0, true, true, 1, true)], {}, {}, {1}, {}, 1, false)

  /** A read outlives the compaction of its table: the file is open until the read lets go, then closed and deleted. */
  lemma ReadOutlivesCompaction()
    ensures IsRun([L0, L1, L2, L3, L4, L5], [Open(1), BeginRead, Commit({1}), Retire(1), EndHold(Hold(0, 1))])
  {
    assert Apply(L0, Open(1)) == L1;
    BeginReadTaken();
    assert Apply(L2, Commit({1})) == L3;
    assert Apply(L3, Retire(1)) == L4;
    assert Apply(L4, EndHold(Hold(0, 1))) == L5;
  }

  lemma BeginReadTaken()
    ensures Enabled(L1, BeginRead) && Apply(L1, BeginRead) == L2
  {
    var p := Apply(L1, BeginRead);
    assert p.lives == L2.lives;
    assert (set t | t in L1.listed :: Hold(0, t)) == {Hold(0, 1)} by { assert 1 in L1.listed; }
    assert p.holds == L2.holds;
  }
}
