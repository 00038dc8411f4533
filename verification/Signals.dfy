/**
 The compaction signal: a capacity-1 channel, a worker that re-checks after
 each pass, and a flush worker that signals after each flush. The pick and
 the send of `maybeTriggerCompaction` are separate steps.
 */
module Signals {
  import opened Versions
  import opened Store

  datatype Worker = Waiting | Received | Merging | Committed | Checked(due: bool)
  datatype Flusher = Resting | Registered | LogGone | FlushChecked(due: bool)
  datatype System = System(store: State, token: bool, worker: Worker, flusher: Flusher)

  ghost predicate Due(c: Config, a: System) {
    Pick(c, a.store.tables).Some?
  }

  ghost predicate StoreStep(c: Config, a: System, b: System, step: Step) {
    Enabled(c, a.store, step) && b.store == Apply(c, a.store, step)
  }

  ghost predicate FlushMoves(c: Config, a: System, b: System) {
    && b.worker == a.worker
    && ( || (a.flusher.Resting? && b.flusher.Registered? && b.token == a.token
             && exists recs, size :: StoreStep(c, a, b, Register(recs, size)))
         || (a.flusher.Registered? && b.flusher.LogGone? && b.token == a.token && StoreStep(c, a, b, RemoveLog))
         || (a.flusher.LogGone? && b.flusher == FlushChecked(Due(c, a)) && b.token == a.token && b.store == a.store)
         || (a.flusher.FlushChecked? && b.flusher.Resting? && b.token == (a.token || a.flusher.due) && b.store == a.store))
  }

  ghost predicate WorkerMoves(c: Config, a: System, b: System) {
    && b.flusher == a.flusher
    && ( || (a.worker.Waiting? && a.token && b.worker.Received? && !b.token && b.store == a.store)
         || (a.worker.Received? && !Due(c, a) && b.worker.Waiting? && b.token == a.token && b.store == a.store)
         || (a.worker.Received? && b.worker.Merging? && b.token == a.token
             && exists minKeep :: StoreStep(c, a, b, Begin(minKeep)))
         || (a.worker.Merging? && b.worker.Committed? && b.token == a.token
             && exists out, size :: StoreStep(c, a, b, Commit(out, size)))
         || (a.worker.Committed? && b.worker == Checked(Due(c, a)) && b.token == a.token && b.store == a.store)
         || (a.worker.Checked? && b.worker.Waiting? && b.token == (a.token || a.worker.due) && b.store == a.store))
  }

  /** Writers, rotations and snapshots do not touch the table list. */
  ghost predicate OthersMove(c: Config, a: System, b: System) {
    && b.worker == a.worker && b.flusher == a.flusher && b.token == a.token
    && exists step: Step :: (step.Write? || step.Rotate? || step.OpenSnapshot? || step.CloseSnapshot?) && StoreStep(c, a, b, step)
  }

  ghost predicate SystemNext(c: Config, a: System, b: System) {
    FlushMoves(c, a, b) || WorkerMoves(c, a, b) || OthersMove(c, a, b)
  }

  /** Somebody will look at the table list again. */
  ghost predicate WillBeSeen(a: System) {
    || a.token
    || a.worker.Received? || a.worker.Merging? || a.worker.Committed? || (a.worker.Checked? && a.worker.due)
    || a.flusher.Registered? || a.flusher.LogGone? || (a.flusher.FlushChecked? && a.flusher.due)
  }

  ghost predicate SignalInv(c: Config, a: System) {
    Due(c, a) ==> WillBeSeen(a)
  }

  lemma SignalStep(c: Config, a: System, b: System)
    requires SignalInv(c, a) && SystemNext(c, a, b)
    ensures SignalInv(c, b)
  {
    hide Pick, Swapped, Bottommost, IsMinSnap, IsFlushOf;
    if OthersMove(c, a, b) {
      assert b.store.tables == a.store.tables;
    } else if FlushMoves(c, a, b) && !b.flusher.Registered? {
      assert b.store.tables == a.store.tables;
    } else if WorkerMoves(c, a, b) && !b.worker.Committed? {
      assert b.store.tables == a.store.tables;
    }
  }

  ghost predicate IsSystemRun(c: Config, run: seq<System>) {
    run != [] && forall i :: 0 <= i < |run| - 1 ==> SystemNext(c, run[i], run[i + 1])
  }

  /** No lost signal: started with no pass due, a due pass always has a token, a re-checking pass or a flush behind it. */
  lemma {:induction false} NoLostSignal(c: Config, run: seq<System>, n: nat)
    requires IsSystemRun(c, run) && n < |run| && !Due(c, run[0])
    ensures Due(c, run[n]) ==> WillBeSeen(run[n])
    decreases n
  {
    hide SystemNext, Due, WillBeSeen;
    if n > 0 {
      NoLostSignal(c, run, n - 1);
      assert SystemNext(c, run[n - 1], run[n - 1 + 1]);
      SignalStep(c, run[n - 1], run[n]);
    }
  }

  /** When both workers rest and the channel is empty, there is nothing left to compact. */
  lemma QuietMeansNothingDue(c: Config, run: seq<System>, n: nat)
    requires IsSystemRun(c, run) && n < |run| && !Due(c, run[0])
    requires run[n].worker.Waiting? && run[n].flusher.Resting? && !run[n].token
    ensures Pick(c, run[n].store.tables).None?
  {
    hide SystemNext, Pick;
    NoLostSignal(c, run, n);
  }

  // ---------- The workers get on ----------

  /** A worker that received a signal while a pass is due starts it; it goes back to waiting only when none is. */
  lemma ReceivedStartsDuePass(c: Config, a: System, b: System)
    requires a.worker.Received? && WorkerMoves(c, a, b)
    ensures b.worker.Merging? <==> Due(c, a)
    ensures b.worker.Waiting? <==> !Due(c, a)
  {
    hide Pick, Swapped, IsFlushOf;
  }

  /** A due pass never waits for an event that may not come: a signal in the channel can be taken, a signal taken is acted on, a check made is followed up. */
  lemma WorkerCanMove(c: Config, a: System)
    requires a.worker.Waiting? ==> a.token
    requires !a.worker.Merging?
    requires a.worker.Received? ==> a.store.pass.Idle?
    requires forall x :: x in a.store.snaps ==> x <= UNBOUNDED
    ensures exists b :: WorkerMoves(c, a, b)
  {
    hide Pick, Swapped, IsFlushOf, Bottommost;
    match a.worker
    case Waiting =>
      assert WorkerMoves(c, a, a.(worker := Received, token := false));
    case Received =>
      if Due(c, a) {
        var m := LeastSnapshot(a.store.snaps);
        var step := Begin(m);
        assert StoreStep(c, a, a.(worker := Merging, store := Apply(c, a.store, step)), step);
        assert WorkerMoves(c, a, a.(worker := Merging, store := Apply(c, a.store, step)));
      } else {
        assert WorkerMoves(c, a, a.(worker := Waiting));
      }
    case Committed =>
      assert WorkerMoves(c, a, a.(worker := Checked(Due(c, a))));
    case Checked(due) =>
      assert WorkerMoves(c, a, a.(worker := Waiting, token := a.token || due));
    case Merging =>
  }

  /** After the log is gone the flush worker checks and, if a pass is due, sends. */
  lemma FlusherCanMove(c: Config, a: System)
    requires a.flusher.LogGone? || a.flusher.FlushChecked?
    ensures exists b :: FlushMoves(c, a, b) && (a.flusher.FlushChecked? && a.flusher.due ==> b.token)
  {
    hide Pick, Swapped, IsFlushOf;
    var b := if a.flusher.LogGone? then a.(flusher := FlushChecked(Due(c, a))) else a.(flusher := Resting, token := a.token || a.flusher.due);
    assert FlushMoves(c, a, b);
  }

  lemma LeastSnapshot(snaps: multiset<nat>) returns (m: nat)
    requires forall x :: x in snaps ==> x <= UNBOUNDED
    ensures IsMinSnap(snaps, m)
  {
    if x :| x in snaps {
      m := LeastFrom(snaps, x);
    } else {
      m := UNBOUNDED;
    }
  }

  lemma {:induction false} LeastFrom(snaps: multiset<nat>, x: nat) returns (m: nat)
    requires x in snaps
    ensures m in snaps && m <= x && forall y :: y in snaps ==> m <= y
    decreases x
  {
    if y :| y in snaps && y < x {
      m := LeastFrom(snaps, y);
    } else {
      m := x;
    }
  }
}
