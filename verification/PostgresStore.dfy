/**
 * The durable store as interleaved transactions over shared rows. Each process runs one call; one step is one
 * statement under READ COMMITTED. A row inserted by a transaction is locked by it until the transaction ends.
 */
module PostgresStore {
  import opened Text
  import opened CounterStore
  import opened CounterLedger
  import opened Retention
  import opened NormalizedBatch

  /** The calls in flight, the order rows are sorted by, and the hash of the advisory lock. */
  datatype Config = Config(calls: seq<Call>, before: (Row, Row) -> bool, hash: Row -> int)

  datatype Lock = Advisory(id: int) | OnRow(row: Row) | OnReceipt(row: Row)

  /**
   * Where a call has got to. `draft` holds its uncommitted row versions, `seen` the amounts it has read. A decided call
   * whose answer was lost on the way back is `Finished` without being `answered`: its caller saw an error.
   */
  datatype Proc =
    | Idle
    | Opened
    | Advised
    | Answering(outcome: Outcome)
    | Scanning(i: nat, inserted: bool, seen: seq<nat>, draft: map<Row, nat>)
    | Writing(j: nat, draft: map<Row, nat>)
    | Committing(draft: map<Row, nat>)
    | Finished(outcome: Outcome, answered: bool)
    | Aborted

  predicate Over(proc: Proc) {
    proc.Finished? || proc.Aborted?
  }

  /** Committed tables, lock owners, processes; and for the proofs the cutoffs swept and the calls in decision order. */
  datatype State = State(
    tables: Ledger, locks: map<Lock, nat>, procs: seq<Proc>, cutoffs: set<string>, log: seq<Entry>, order: seq<nat>)

  function Init(cfg: Config): State {
    State(EMPTY, map[], seq(|cfg.calls|, _ => Idle), {}, [], [])
  }

  function Plan(cfg: Config, p: nat): seq<Charge>
    requires p < |cfg.calls|
  {
    Sort(ChargesOf(cfg.calls[p]), cfg.before)
  }

  function AdvisoryLock(cfg: Config, p: nat): Lock
    requires p < |cfg.calls| && cfg.calls[p].Once?
  {
    Advisory(cfg.hash(cfg.calls[p].receipt))
  }

  predicate FreeFor(s: State, lock: Lock, p: nat) {
    lock !in s.locks || s.locks[lock] == p
  }

  /** A row a transaction can see: committed, or inserted by itself. */
  predicate Visible(s: State, draft: map<Row, nat>, row: Row) {
    row in draft || row in s.tables.used
  }

  function Current(s: State, draft: map<Row, nat>, row: Row): nat {
    if row in draft then draft[row] else Usage(s.tables.used, row)
  }

  function Release(locks: map<Lock, nat>, p: nat): map<Lock, nat> {
    map lock | lock in locks && locks[lock] != p :: locks[lock]
  }

  function Move(s: State, p: nat, proc: Proc): State
    requires p < |s.procs|
  {
    s.(procs := s.procs[p := proc])
  }

  function Take(s: State, p: nat, lock: Lock): State {
    s.(locks := s.locks[lock := p])
  }

  /** End a call with its decision: the tables as committed, its locks released. */
  function Decide(cfg: Config, s: State, p: nat, tables: Ledger, outcome: Outcome): State
    requires p < |s.procs| == |cfg.calls|
  {
    State(tables, Release(s.locks, p), s.procs[p := Finished(outcome, true)], s.cutoffs,
          s.log + [Entry(cfg.calls[p], outcome)], s.order + [p])
  }

  function Abandon(s: State, p: nat): State
    requires p < |s.procs|
  {
    s.(locks := Release(s.locks, p), procs := s.procs[p := Aborted])
  }

  // ----- Single-row consume: one statement ----------------------------------------------------------

  /** A statement that reaches the row waits for its lock; one the limit already excludes selects nothing. */
  predicate CanConsume(s: State, charge: Charge, p: nat) {
    charge.limit <= 0 || charge.amount > charge.limit || FreeFor(s, OnRow(charge.row), p)
  }

  /** The tests that guard the charge: the switched-off shortcut, the insert path and the update path. */
  predicate Admits(used: map<Row, nat>, charge: Charge) {
    charge.limit > 0 && charge.amount <= charge.limit && Usage(used, charge.row) + charge.amount <= charge.limit
  }

  function ConsumeStep(cfg: Config, s: State, p: nat): State
    requires p < |s.procs| == |cfg.calls| && cfg.calls[p].Single?
  {
    var charge := cfg.calls[p].charge;
    var total := Usage(s.tables.used, charge.row) + charge.amount;
    if !Admits(s.tables.used, charge) then
      Decide(cfg, s, p, s.tables, Denied)
    else
      Decide(cfg, s, p, s.tables.(used := s.tables.used[charge.row := total]), Admitted(total))
  }

  // ----- Batches --------------------------------------------------------------------------------------

  function BeginStep(cfg: Config, s: State, p: nat): State
    requires p < |s.procs| == |cfg.calls| && !cfg.calls[p].Single?
  {
    var plan := Plan(cfg, p);
    if !DistinctRows(plan) then
      Move(s, p, Finished(DuplicateRows, true))
    else if cfg.calls[p].Once? then
      Move(s, p, Opened)
    else if exists k :: 0 <= k < |plan| && plan[k].limit <= 0 then
      Decide(cfg, s, p, s.tables, Unspent)
    else
      Move(s, p, Scanning(0, false, [], map[]))
  }

  function LookupStep(cfg: Config, s: State, p: nat): State
    requires p < |s.procs| == |cfg.calls| && cfg.calls[p].Once?
  {
    var receipts, call := s.tables.receipts, cfg.calls[p];
    if call.receipt in receipts then
      Move(s, p, Answering(if receipts[call.receipt] == call.fingerprint then Replayed else Conflict))
    else
      Move(s, p, Scanning(0, false, [], map[]))
  }

  /** `INSERT … ON CONFLICT DO NOTHING`: waits for another's uncommitted row, locks only a row it creates. */
  predicate CanInsert(s: State, row: Row, p: nat) {
    row in s.tables.used || FreeFor(s, OnRow(row), p)
  }

  function InsertStep(s: State, p: nat, row: Row): State
    requires p < |s.procs| && s.procs[p].Scanning?
  {
    var proc := s.procs[p];
    if row in s.tables.used then
      Move(s, p, Scanning(proc.i, true, proc.seen, proc.draft))
    else
      Move(Take(s, p, OnRow(row)), p, Scanning(proc.i, true, proc.seen, proc.draft[row := 0]))
  }

  /** `SELECT … FOR UPDATE` and `UPDATE`: wait for the lock of a visible row; an invisible row yields nothing. */
  predicate CanTouch(s: State, draft: map<Row, nat>, row: Row, p: nat) {
    !Visible(s, draft, row) || FreeFor(s, OnRow(row), p)
  }

  function SelectStep(s: State, p: nat, row: Row): State
    requires p < |s.procs| && s.procs[p].Scanning?
  {
    var proc := s.procs[p];
    var next := Scanning(proc.i + 1, false, proc.seen + [Current(s, proc.draft, row)], proc.draft);
    if Visible(s, proc.draft, row) then Move(Take(s, p, OnRow(row)), p, next) else Move(s, p, next)
  }

  /** The counters whose amount read leaves no room, in the order they were read. */
  function ExhaustedBy(plan: seq<Charge>, seen: seq<nat>): seq<ExhaustedCounter>
    requires |plan| == |seen|
  {
    if plan == [] then []
    else
      var n := |plan| - 1;
      ExhaustedBy(plan[..n], seen[..n])
      + if plan[n].limit <= 0 || seen[n] + plan[n].amount > plan[n].limit then [plan[n].notice] else []
  }

  function VerdictStep(cfg: Config, s: State, p: nat): State
    requires p < |s.procs| == |cfg.calls| && s.procs[p].Scanning? && |s.procs[p].seen| == |Plan(cfg, p)|
  {
    var exhausted := ExhaustedBy(Plan(cfg, p), s.procs[p].seen);
    if exhausted != [] then
      Decide(cfg, s, p, s.tables, if cfg.calls[p].Once? then Refused(exhausted) else Unspent)
    else
      Move(s, p, Writing(0, s.procs[p].draft))
  }

  function UpdateStep(s: State, p: nat, charge: Charge): State
    requires p < |s.procs| && s.procs[p].Writing?
  {
    var proc := s.procs[p];
    if Visible(s, proc.draft, charge.row) then
      var total := Current(s, proc.draft, charge.row) + charge.amount;
      Move(Take(s, p, OnRow(charge.row)), p, Writing(proc.j + 1, proc.draft[charge.row := total]))
    else
      Move(s, p, Writing(proc.j + 1, proc.draft))
  }

  /** All rows written: a plain batch commits; an attempt first inserts its receipt, failing if one is there. */
  function FinishWriting(cfg: Config, s: State, p: nat): State
    requires p < |s.procs| == |cfg.calls| && s.procs[p].Writing? && !cfg.calls[p].Single?
  {
    var draft, call := s.procs[p].draft, cfg.calls[p];
    if call.Batch? then
      Decide(cfg, s, p, s.tables.(used := s.tables.used + draft), Spent)
    else if call.receipt in s.tables.receipts then
      Abandon(s, p)
    else
      Move(Take(s, p, OnReceipt(call.receipt)), p, Committing(draft))
  }

  function CommitStep(cfg: Config, s: State, p: nat): State
    requires p < |s.procs| == |cfg.calls| && s.procs[p].Committing? && cfg.calls[p].Once?
  {
    var call := cfg.calls[p];
    Decide(cfg, s, p,
           Ledger(s.tables.used + s.procs[p].draft, s.tables.receipts[call.receipt := call.fingerprint]), Consumed)
  }

  // ----- Actions --------------------------------------------------------------------------------------

  datatype Action =
    | Step(p: nat)
    | Fail(p: nat)
    | LoseAnswer(p: nat)
    | SweepCounters(cutoff: string, rows: set<Row>)
    | SweepReceipts(cutoff: string, rows: set<Row>)

  /** The shape of a process that its call and position allow. */
  predicate WellPlaced(cfg: Config, p: nat, proc: Proc)
    requires p < |cfg.calls|
  {
    match proc
    case Opened => cfg.calls[p].Once?
    case Advised => cfg.calls[p].Once?
    case Answering(_) => cfg.calls[p].Once?
    case Scanning(i, inserted, seen, _) =>
      !cfg.calls[p].Single? && i == |seen| && i <= |Plan(cfg, p)| && (inserted ==> i < |Plan(cfg, p)|)
    case Writing(j, _) => !cfg.calls[p].Single? && j <= |Plan(cfg, p)|
    case Committing(_) => cfg.calls[p].Once?
    case _ => true
  }

  predicate CanStep(cfg: Config, s: State, p: nat)
    requires p < |s.procs| == |cfg.calls|
  {
    WellPlaced(cfg, p, s.procs[p]) &&
    match s.procs[p]
    case Idle => cfg.calls[p].Single? ==> CanConsume(s, cfg.calls[p].charge, p)
    case Opened => FreeFor(s, AdvisoryLock(cfg, p), p)
    case Advised => true
    case Answering(_) => true
    case Scanning(i, inserted, seen, draft) =>
      var plan := Plan(cfg, p);
      i < |plan| ==>
        if inserted then CanTouch(s, draft, plan[i].row, p) else CanInsert(s, plan[i].row, p)
    case Writing(j, draft) =>
      var plan := Plan(cfg, p);
      if j < |plan| then CanTouch(s, draft, plan[j].row, p)
      else cfg.calls[p].Once? ==> FreeFor(s, OnReceipt(cfg.calls[p].receipt), p)
    case Committing(_) => true
    case _ => false
  }

  function StepOf(cfg: Config, s: State, p: nat): State
    requires p < |s.procs| == |cfg.calls| && CanStep(cfg, s, p)
  {
    var plan := Plan(cfg, p);
    match s.procs[p]
    case Idle => if cfg.calls[p].Single? then ConsumeStep(cfg, s, p) else BeginStep(cfg, s, p)
    case Opened => Move(Take(s, p, AdvisoryLock(cfg, p)), p, Advised)
    case Advised => LookupStep(cfg, s, p)
    case Answering(outcome) => Decide(cfg, s, p, s.tables, outcome)
    case Scanning(i, inserted, seen, draft) =>
      if i == |plan| then VerdictStep(cfg, s, p)
      else if inserted then SelectStep(s, p, plan[i].row)
      else InsertStep(s, p, plan[i].row)
    case Writing(j, draft) => if j < |plan| then UpdateStep(s, p, plan[j]) else FinishWriting(cfg, s, p)
    case Committing(draft) => CommitStep(cfg, s, p)
  }

  /** A sweep may pass only days that no unfinished call is working on: what two days of retention is for. */
  predicate SweepAllowed(cfg: Config, s: State, cutoff: string)
    requires |s.procs| == |cfg.calls|
  {
    forall p :: 0 <= p < |s.procs| && !Over(s.procs[p]) ==> LiveCall(cfg.calls[p], s.cutoffs + {cutoff})
  }

  /** The next step of the process commits a charge. */
  predicate CommitsNext(cfg: Config, s: State, p: nat)
    requires p < |s.procs| == |cfg.calls|
  {
    CanStep(cfg, s, p) && p < |StepOf(cfg, s, p).procs|
    && StepOf(cfg, s, p).procs[p].Finished? && Accepting(StepOf(cfg, s, p).procs[p].outcome)
  }

  /** The decision stands but its caller never hears of it. */
  function Unanswered(s: State, p: nat): State
    requires p < |s.procs| && s.procs[p].Finished?
  {
    s.(procs := s.procs[p := Finished(s.procs[p].outcome, false)])
  }

  predicate Behind(rows: set<Row>, cutoff: string) {
    forall row :: row in rows ==> LexLess(row.day, cutoff)
  }

  predicate Enabled(cfg: Config, s: State, action: Action)
    requires |s.procs| == |cfg.calls|
  {
    match action
    case Step(p) => p < |s.procs| && CanStep(cfg, s, p)
    case Fail(p) => p < |s.procs| && !Over(s.procs[p])
    case LoseAnswer(p) => p < |s.procs| && CommitsNext(cfg, s, p)
    case SweepCounters(cutoff, rows) => Behind(rows, cutoff) && SweepAllowed(cfg, s, cutoff)
    case SweepReceipts(cutoff, rows) => Behind(rows, cutoff) && SweepAllowed(cfg, s, cutoff)
  }

  function Apply(cfg: Config, s: State, action: Action): State
    requires |s.procs| == |cfg.calls| && Enabled(cfg, s, action)
  {
    match action
    case Step(p) => StepOf(cfg, s, p)
    case Fail(p) => Abandon(s, p)
    case LoseAnswer(p) => Unanswered(StepOf(cfg, s, p), p)
    case SweepCounters(cutoff, rows) =>
      s.(tables := s.tables.(used := s.tables.used - rows), cutoffs := s.cutoffs + {cutoff})
    case SweepReceipts(cutoff, rows) =>
      s.(tables := s.tables.(receipts := s.tables.receipts - rows), cutoffs := s.cutoffs + {cutoff})
  }

  /** `actions` is a run from the start that ends in `s`. */
  ghost predicate Reaches(cfg: Config, actions: seq<Action>, s: State)
    decreases |actions|, 1
  {
    if actions == [] then s == Init(cfg)
    else exists before :: LeadsTo(cfg, actions, before, s)
  }

  ghost predicate LeadsTo(cfg: Config, actions: seq<Action>, before: State, s: State)
    requires actions != []
    decreases |actions|, 0
  {
    var last := |actions| - 1;
    && Reaches(cfg, actions[..last], before) && |before.procs| == |cfg.calls|
    && Enabled(cfg, before, actions[last]) && s == Apply(cfg, before, actions[last])
  }
}
