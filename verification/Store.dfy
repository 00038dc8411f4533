/**
 The engine as a state machine. Each step is one critical section of
 engine/engine.go; a compaction pass is two steps (Begin, Commit) and a
 flush is two steps (Register, RemoveLog), so every other step can come
 between. `hist` is the history of all accepted writes; no step reads it.
 */
module Store {
  import opened Bytes
  import opened Versions
  import opened History
  import opened FileNames
  import opened Sums
  import W = Wal

  // ---------- State ----------

  datatype Config = Config(l0Trigger: nat, baseSize: nat, multiplier: nat, maxLevels: nat)

  predicate Sane(c: Config) {
    c.l0Trigger >= 1 && c.maxLevels >= 2
  }

  /** A table file: its level, its records in file order, its size in bytes. */
  datatype Table = Table(level: nat, recs: seq<Record>, size: nat)

  /** Tables by file generation. */
  type Tables = map<nat, Table>

  /** A rotated-out memtable and the generation of the log that still backs it. */
  datatype Imm = Imm(mem: MemTable, log: nat)

  datatype Pass = Idle | Running(inputs: set<nat>, target: nat, bottom: bool, minKeep: nat, out: nat)

  datatype State = State(
    mem: MemTable,              // active memtable
    memLog: nat,                // generation of its log
    imm: seq<Imm>,              // oldest first
    unremoved: Option<nat>,     // log of a memtable already registered as a table, not yet deleted
    tables: Tables,
    seqNo: nat,                 // last Seq handed out
    gen: nat,                   // last file generation handed out
    snaps: multiset<nat>,       // Seqs pinned by open snapshots
    logs: map<nat, seq<Record>>,// surviving log files by generation
    pass: Pass,                 // the running compaction, if any
    replayed: bool,             // some recovery has replayed an unremoved log
    leftover: bool,             // some recovery has found a compaction's output beside its inputs
    hist: seq<Record>)

  // ---------- What the parts of a state hold ----------

  ghost function RecsOf(ts: Tables, G: set<nat>): set<Record> {
    set g, r | g in G && g in ts && r in ts[g].recs :: r
  }

  ghost function ImmRecs(imm: seq<Imm>): set<Record> {
    set i, r | 0 <= i < |imm| && r in imm[i].mem.Values :: r
  }

  /** Everything below the active memtable. */
  ghost function Below(s: State): set<Record> {
    ImmRecs(s.imm) + RecsOf(s.tables, s.tables.Keys)
  }

  ghost function Stored(s: State): set<Record> {
    s.mem.Values + Below(s)
  }

  /** `getAt`: the newest version with Seq <= m wherever it is kept, read as an answer. */
  ghost function Get(s: State, k: Key, m: nat): Option<Bytes> {
    View(Stored(s), k, m)
  }

  function LogOf(logs: map<nat, seq<Record>>, g: nat): seq<Record> {
    if g in logs then logs[g] else []
  }

  function ImmLogs(logs: map<nat, seq<Record>>, imm: seq<Imm>): seq<Record> {
    if imm == [] then [] else LogOf(logs, imm[0].log) + ImmLogs(logs, imm[1..])
  }

  /** The writes not yet in any table. */
  function Pending(s: State): seq<Record> {
    ImmLogs(s.logs, s.imm) + LogOf(s.logs, s.memLog)
  }

  /** The writes a crash now would find in logs. */
  function Surviving(s: State): seq<Record> {
    (if s.unremoved.Some? then LogOf(s.logs, s.unremoved.value) else []) + Pending(s)
  }

  // ---------- Choosing a compaction ----------

  function Level(ts: Tables, l: nat): set<nat> {
    set g | g in ts && ts[g].level == l
  }

  function SizeOf(ts: Tables): nat -> nat {
    g => if g in ts then ts[g].size else 0
  }

  /** Total file size of the tables `G`. */
  ghost function SumSizes(ts: Tables, G: set<nat>): nat {
    Sum(SizeOf(ts), G)
  }

  function TargetSize(c: Config, lvl: nat): nat {
    if lvl <= 1 then c.baseSize else TargetSize(c, lvl - 1) * c.multiplier
  }

  datatype Plan = Plan(inputs: set<nat>, target: nat)

  ghost predicate Oversized(c: Config, ts: Tables, lvl: nat) {
    Level(ts, lvl) != {} && SumSizes(ts, Level(ts, lvl)) > TargetSize(c, lvl)
  }

  ghost function PickFrom(c: Config, ts: Tables, lvl: nat): Option<Plan>
    decreases c.maxLevels - lvl
  {
    if lvl + 1 >= c.maxLevels then None
    else if Oversized(c, ts, lvl) then Some(Plan(Level(ts, lvl) + Level(ts, lvl + 1), lvl + 1))
    else PickFrom(c, ts, lvl + 1)
  }

  /** `pickCompactionLocked`. */
  ghost function Pick(c: Config, ts: Tables): Option<Plan> {
    if |Level(ts, 0)| >= c.l0Trigger then Some(Plan(Level(ts, 0) + Level(ts, 1), 1))
    else PickFrom(c, ts, 1)
  }

  /** `isBottommost`: no table at any level deeper than the target. */
  predicate Bottommost(c: Config, ts: Tables, target: nat) {
    forall lvl :: target < lvl < c.maxLevels ==> Level(ts, lvl) == {}
  }

  /** `minActiveSnapshotSeq`. */
  ghost predicate IsMinSnap(snaps: multiset<nat>, m: nat) {
    && (forall x :: x in snaps ==> m <= x)
    && (m == UNBOUNDED || m in snaps)
    && m <= UNBOUNDED
  }

  // ---------- Recovery ----------

  /** The order in which `Open` replays the logs it finds: sorted by file name. */
  ghost predicate ReplayOrder(dir: Bytes, logs: map<nat, seq<Record>>, order: seq<nat>) {
    && ToSet(order) == logs.Keys
    && forall i, j :: 0 <= i < j < |order| ==> Less(WalFileName(dir, order[i]), WalFileName(dir, order[j]))
  }

  function Concat(logs: map<nat, seq<Record>>, order: seq<nat>): seq<Record> {
    if order == [] then [] else LogOf(logs, order[0]) + Concat(logs, order[1..])
  }

  /** `maxSeq` of `recoverFromWALs`. */
  function MaxSeq(recs: seq<Record>): nat {
    if recs == [] then 0
    else
      var m := MaxSeq(recs[..|recs| - 1]);
      if recs[|recs| - 1].seqNo > m then recs[|recs| - 1].seqNo else m
  }

  /** What replay can read of a log: the records before the first over the length bound. */
  function Readable(recs: seq<Record>): seq<Record> {
    recs[..W.ReasonablePrefix(recs)]
  }

  function ReadableLogs(logs: map<nat, seq<Record>>): map<nat, seq<Record>> {
    map g | g in logs :: Readable(logs[g])
  }

  /** No record is over the length bound, so replay reads every log to its end. */
  ghost predicate LogsReadable(logs: map<nat, seq<Record>>) {
    forall g, r :: g in logs && r in logs[g] ==> W.Reasonable(r)
  }

  /** The log files found on disk: those of `s`, save that an empty one may be missing, as after a clean close. */
  ghost predicate LogsOnDisk(s: State, logs: map<nat, seq<Record>>) {
    && (forall g :: g in logs ==> g in s.logs && logs[g] == s.logs[g])
    && (forall g :: g in s.logs && g !in logs ==> s.logs[g] == [])
  }

  ghost predicate IsMaxGen(ts: Tables, logs: map<nat, seq<Record>>, g: nat) {
    && (forall h :: h in ts || h in logs ==> h <= g)
    && (g == 0 || g in ts || g in logs)
  }

  // ---------- Steps ----------

  datatype Step =
    | Write(key: Key, value: Bytes, typ: byte)
    | Rotate
    | Register(recs: seq<Record>, size: nat)
    | RemoveLog
    | Begin(minKeep: nat)
    | Commit(out: seq<Record>, size: nat)
    | OpenSnapshot
    | CloseSnapshot(snap: nat)
    | Crash(dir: Bytes, logs: map<nat, seq<Record>>, order: seq<nat>, maxGen: nat, recovered: seq<Record>, size: nat, left: Option<Table>)

  /** The table file written for a memtable. */
  ghost predicate IsFlushOf(recs: seq<Record>, mem: MemTable) {
    StrictlyOrdered(recs) && ToSet(recs) == mem.Values
  }

  /** The finished but uncommitted output file of the running pass. */
  ghost predicate IsLeftover(s: State, left: Option<Table>) {
    left.Some? ==>
      && s.pass.Running? && left.value.level == s.pass.target
      && left.value.recs != [] && StrictlyOrdered(left.value.recs)
      && ToSet(left.value.recs) == Kept(RecsOf(s.tables, s.pass.inputs), s.pass.minKeep, s.pass.bottom)
  }

  /** The table files a crash leaves: those listed, and the running pass's output if its merge had finished. */
  function OnDisk(s: State, left: Option<Table>): Tables {
    if left.Some? && s.pass.Running? then s.tables[s.pass.out := left.value] else s.tables
  }

  /** The records `Open` replays. */
  function Replayable(step: Step): seq<Record>
    requires step.Crash?
  {
    Concat(ReadableLogs(step.logs), step.order)
  }

  /** `Open` finds the table files and logs of `s`, replays the logs in name order and flushes what it recovered. */
  ghost predicate Recoverable(s: State, step: Step)
    requires step.Crash?
  {
    && s.gen < UINT64
    && IsLeftover(s, step.left) && LogsOnDisk(s, step.logs)
    && ReplayOrder(step.dir, step.logs, step.order)
    && IsMaxGen(OnDisk(s, step.left), step.logs, step.maxGen)
    && IsFlushOf(step.recovered, Replay(map[], Replayable(step)))
  }

  function Restored(s: State, step: Step): State
    requires step.Crash?
  {
    var g := if step.recovered == [] then step.maxGen + 1 else step.maxGen + 2;
    var found := OnDisk(s, step.left);
    State(map[], g, [], None,
          if step.recovered == [] then found else found[step.maxGen + 1 := Table(0, step.recovered, step.size)],
          MaxSeq(Replayable(step)), g, multiset{}, map[g := []], Idle,
          s.replayed || s.unremoved.Some?, s.leftover || step.left.Some?, s.hist)
  }

  ghost predicate Enabled(c: Config, s: State, step: Step) {
    match step
    case Write(k, v, typ) => k != [] && (typ == TYPE_VALUE || typ == TYPE_TOMBSTONE) && s.seqNo < UNBOUNDED
    case Rotate => s.mem != map[]
    case Register(recs, _) => s.imm != [] && s.unremoved.None? && IsFlushOf(recs, s.imm[0].mem)
    case RemoveLog => s.unremoved.Some?
    case Begin(minKeep) => s.pass.Idle? && Pick(c, s.tables).Some? && IsMinSnap(s.snaps, minKeep)
    case Commit(out, _) =>
      && s.pass.Running?
      && StrictlyOrdered(out)
      && ToSet(out) == Kept(RecsOf(s.tables, s.pass.inputs), s.pass.minKeep, s.pass.bottom)
    case OpenSnapshot => true
    case CloseSnapshot(x) => x in s.snaps
    case Crash(_, logs, _, _, _, _, _) =>
      // no log record is too long to be replayed, and the logs still know the last Seq handed out
      Recoverable(s, step) && LogsReadable(logs) && MaxSeq(Replayable(step)) == s.seqNo
  }

  ghost function Apply(c: Config, s: State, step: Step): State
    requires Enabled(c, s, step)
  {
    match step
    case Write(k, v, typ) =>
      var r := Record(k, v, typ, s.seqNo + 1);
      s.(seqNo := s.seqNo + 1, mem := s.mem[k := r],
         logs := s.logs[s.memLog := LogOf(s.logs, s.memLog) + [r]], hist := s.hist + [r])
    case Rotate =>
      s.(imm := s.imm + [Imm(s.mem, s.memLog)], mem := map[], memLog := s.gen + 1,
         gen := s.gen + 1, logs := s.logs[s.gen + 1 := []])
    case Register(recs, size) =>
      s.(tables := s.tables[s.gen + 1 := Table(0, recs, size)], gen := s.gen + 1,
         imm := s.imm[1..], unremoved := Some(s.imm[0].log))
    case RemoveLog =>
      s.(logs := s.logs - {s.unremoved.value}, unremoved := None)
    case Begin(minKeep) =>
      var p := Pick(c, s.tables).value;
      s.(pass := Running(p.inputs, p.target, Bottommost(c, s.tables, p.target), minKeep, s.gen + 1), gen := s.gen + 1)
    case Commit(out, size) =>
      s.(tables := Swapped(s.tables, s.pass, out, size), pass := Idle)
    case OpenSnapshot => s.(snaps := s.snaps + multiset{s.seqNo})
    case CloseSnapshot(x) => s.(snaps := s.snaps - multiset{x})
    case Crash(_, _, _, _, _, _, _) => Restored(s, step)
  }

  /** Commit's table list: inputs out, output (if the merge kept anything) in. */
  function Swapped(ts: Tables, p: Pass, out: seq<Record>, size: nat): Tables
    requires p.Running?
  {
    var remaining := ts - p.inputs;
    if out == [] then remaining else remaining[p.out := Table(p.target, out, size)]
  }

  /** An empty store just opened. */
  ghost predicate Init(s: State) {
    s == State(map[], 1, [], None, map[], 0, 1, multiset{}, map[1 := []], Idle, false, false, [])
  }

  ghost predicate Next(c: Config, s: State, s': State) {
    exists step :: Enabled(c, s, step) && s' == Apply(c, s, step)
  }

  ghost predicate Takes(c: Config, s: State, step: Step, s': State) {
    Enabled(c, s, step) && s' == Apply(c, s, step)
  }

  /** Consecutive states of a run. */
  ghost predicate IsRun(c: Config, run: seq<State>) {
    run != [] && forall i :: 0 <= i < |run| - 1 ==> Next(c, run[i], run[i + 1])
  }

  // ---------- Invariant ----------

  ghost predicate HistoryInv(s: State) {
    && Increasing(s.hist)
    && (forall r :: r in s.hist ==> 0 < r.seqNo)
    && s.seqNo == (if s.hist == [] then 0 else s.hist[|s.hist| - 1].seqNo)
    && s.seqNo <= UNBOUNDED
    && (forall x :: x in s.snaps ==> x <= s.seqNo)
  }

  ghost predicate IsSuffix(a: seq<Record>, b: seq<Record>) {
    |a| <= |b| && b[|b| - |a|..] == a
  }

  function ImmGens(imm: seq<Imm>): set<nat> {
    set i | 0 <= i < |imm| :: imm[i].log
  }

  /** The log files are those of the memtables, plus at most one whose memtable is already a table, in age order. */
  ghost predicate LogFilesInv(s: State) {
    && s.logs.Keys == ImmGens(s.imm) + {s.memLog} + (if s.unremoved.Some? then {s.unremoved.value} else {})
    && (forall i, j :: 0 <= i < j < |s.imm| ==> s.imm[i].log < s.imm[j].log)
    && (forall i :: 0 <= i < |s.imm| ==> s.imm[i].log < s.memLog)
    && (s.unremoved.Some? ==> s.unremoved.value < s.memLog
                              && forall i :: 0 <= i < |s.imm| ==> s.unremoved.value < s.imm[i].log)
    && s.memLog <= s.gen
  }

  ghost predicate MemtablesAreLogs(s: State) {
    && s.mem == Replay(map[], LogOf(s.logs, s.memLog))
    && forall i :: 0 <= i < |s.imm| ==> s.imm[i].mem == Replay(map[], LogOf(s.logs, s.imm[i].log)) && s.imm[i].mem != map[]
  }

  /** The surviving logs, oldest file first, are the tail of the history; each memtable is its log replayed. */
  ghost predicate LogsInv(s: State) {
    && LogFilesInv(s)
    && IsSuffix(Surviving(s), s.hist)
    && MemtablesAreLogs(s)
  }

  /** The writes that have reached tables. */
  function Flushed(s: State): seq<Record> {
    if |Pending(s)| <= |s.hist| then s.hist[..|s.hist| - |Pending(s)|] else []
  }

  /** Table `g` was filled before table `h`: a deeper level, or an earlier flush in level 0. */
  predicate Older(ts: Tables, g: nat, h: nat)
    requires g in ts && h in ts
  {
    ts[g].level > ts[h].level || (ts[g].level == 0 && ts[h].level == 0 && g < h)
  }

  /** Records of `a` lie under those of `b`: per key never newer; with `strict`, older whatever the key. */
  ghost predicate Under(a: seq<Record>, b: seq<Record>, strict: bool) {
    forall r, q :: r in a && q in b ==>
      (strict ==> r.seqNo < q.seqNo) && (r.key == q.key ==> r.seqNo <= q.seqNo)
  }

  ghost predicate Stratified(ts: Tables, strict: bool) {
    forall g, h :: g in ts && h in ts && Older(ts, g, h) ==> Under(ts[g].recs, ts[h].recs, strict)
  }

  ghost predicate OneTablePerDeepLevel(ts: Tables) {
    forall g, h :: g in ts && h in ts && ts[g].level == ts[h].level && ts[g].level >= 1 ==> g == h
  }

  /** Table `h2` lies no deeper than `h`, and is no earlier a flush. */
  predicate AtOrAbove(ts: Tables, h: nat, h2: nat)
    requires h in ts && h2 in ts
  {
    ts[h2].level < ts[h].level || (ts[h2].level == ts[h].level && (ts[h].level == 0 ==> h <= h2))
  }

  /** Some table at or above `h` holds a version of `k` from `lo` to `x`. */
  ghost predicate Covered(ts: Tables, h: nat, k: Key, lo: nat, x: nat)
    requires h in ts
  {
    exists h2, q :: h2 in ts && AtOrAbove(ts, h, h2) && q in ts[h2].recs && q.key == k && lo <= q.seqNo <= x
  }

  /**
   For a read at `x`, no table hides something newer that lies under it: where
   an older table holds a visible version of a key, some table at or above the
   newer one holds a visible version at least as new. Weaker than
   `Stratified`; it survives an output file left beside its inputs.
   */
  ghost predicate Capped(ts: Tables, x: nat) {
    forall g, h, r, q ::
      g in ts && h in ts && Older(ts, g, h) && r in ts[g].recs && q in ts[h].recs && r.key == q.key && r.seqNo <= x && q.seqNo <= x
      ==> Covered(ts, h, r.key, r.seqNo, x)
  }

  /** The bounds at which somebody reads now or may come to read later. */
  predicate Watched(snaps: multiset<nat>, seqNo: nat, x: nat) {
    x in snaps || x >= seqNo
  }

  ghost predicate AllCapped(ts: Tables, snaps: multiset<nat>, seqNo: nat) {
    forall x :: Watched(snaps, seqNo, x) ==> Capped(ts, x)
  }

  ghost predicate TablesInv(c: Config, s: State) {
    && (forall g :: g in s.tables ==> g <= s.gen && s.tables[g].level < c.maxLevels
                                      && s.tables[g].recs != [] && StrictlyOrdered(s.tables[g].recs))
    && RecsOf(s.tables, s.tables.Keys) <= ToSet(Flushed(s))
    && (!s.leftover ==> OneTablePerDeepLevel(s.tables) && Stratified(s.tables, !s.replayed))
    && AllCapped(s.tables, s.snaps, s.seqNo)
  }

  /** Where a running pass's inputs lie among the tables. */
  ghost predicate PassTables(c: Config, ts: Tables, p: Pass)
    requires p.Running?
  {
    && p.inputs <= ts.Keys && 1 <= p.target < c.maxLevels && p.out !in ts
    && (exists g :: g in p.inputs && ts[g].level == p.target - 1)
    && (forall g :: g in p.inputs ==> ts[g].level == p.target - 1 || ts[g].level == p.target)
    && (forall g :: g in ts && ts[g].level == p.target ==> g in p.inputs)
    && (forall g :: g in ts && 1 <= ts[g].level == p.target - 1 ==> g in p.inputs)
    && (forall g, h :: g in p.inputs && h in ts && h !in p.inputs && ts[h].level == 0 ==> Older(ts, g, h))
    && (p.bottom ==> forall g :: g in ts ==> ts[g].level <= p.target)
  }

  ghost predicate PassInv(c: Config, s: State) {
    s.pass.Running? ==>
      && PassTables(c, s.tables, s.pass)
      && s.pass.out <= s.gen && s.pass.out !in s.logs
      && s.pass.minKeep <= UNBOUNDED
      && SnapshotsServed(s.snaps, s.tables, s.pass)
  }

  /** Every open snapshot is at or above `minKeep`, or was opened after every input record was written. */
  ghost predicate SnapshotsServed(snaps: multiset<nat>, ts: Tables, p: Pass)
    requires p.Running?
  {
    forall x :: x in snaps ==>
      x >= p.minKeep || forall r :: r in RecsOf(ts, p.inputs) ==> r.seqNo <= x
  }

  /** Live reads agree with the history. */
  ghost predicate LiveInv(s: State) {
    forall k :: Get(s, k, UNBOUNDED) == Answer(LastWrite(s.hist, k))
  }

  ghost predicate Inv(c: Config, s: State) {
    && Sane(c)
    && HistoryInv(s)
    && LogsInv(s)
    && TablesInv(c, s)
    && PassInv(c, s)
    && LiveInv(s)
  }
}
