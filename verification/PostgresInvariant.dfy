/** What every step of the interleaved store keeps. */
module PostgresInvariant {
  import opened Orders
  import opened CounterStore
  import opened CounterLedger
  import opened Retention
  import opened NormalizedBatch
  import opened PostgresStore

  // ----- The invariant --------------------------------------------------------------------------------

  predicate InTransaction(proc: Proc) {
    proc.Advised? || proc.Answering? || proc.Scanning? || proc.Writing? || proc.Committing?
  }

  /** The locks a process owns at its position, and no others. */
  predicate Holds(cfg: Config, p: nat, proc: Proc, lock: Lock)
    requires p < |cfg.calls|
  {
    match lock
    case Advisory(_) => cfg.calls[p].Once? && lock == AdvisoryLock(cfg, p) && InTransaction(proc)
    case OnReceipt(row) => proc.Committing? && cfg.calls[p].Once? && row == cfg.calls[p].receipt
    case OnRow(row) => HoldsRow(Plan(cfg, p), proc, row)
  }

  predicate HoldsRow(plan: seq<Charge>, proc: Proc, row: Row) {
    match proc
    case Scanning(i, inserted, _, draft) =>
      i <= |plan| && (HasRow(plan[..i], row) || (inserted && i < |plan| && plan[i].row == row && row in draft))
    case Writing(_, _) => HasRow(plan, row)
    case Committing(_) => HasRow(plan, row)
    case _ => false
  }

  /** While scanning: every amount read is still the committed one, and the draft holds only rows it created, at 0. */
  predicate ScanOk(plan: seq<Charge>, used: map<Row, nat>, i: nat, inserted: bool, seen: seq<nat>,
                   draft: map<Row, nat>) {
    && i == |seen| && i <= |plan| && (inserted ==> i < |plan|)
    && (forall k :: 0 <= k < i ==> (plan[k].row in draft || plan[k].row in used) && seen[k] == Usage(used, plan[k].row))
    && (inserted ==> plan[i].row in draft || plan[i].row in used)
    && (forall row :: row in draft ==>
          && draft[row] == 0 && row !in used
          && (HasRow(plan[..i], row) || (inserted && plan[i].row == row)))
  }

  /** While writing: the first `j` rows are drafted with their charge added, and every charge fits. */
  predicate WriteOk(plan: seq<Charge>, used: map<Row, nat>, j: nat, draft: map<Row, nat>) {
    && j <= |plan|
    && (forall k :: 0 <= k < |plan| ==> (plan[k].row in draft || plan[k].row in used) && !Overflows(used, plan[k]))
    && (forall k :: 0 <= k < j
          ==> plan[k].row in draft && draft[plan[k].row] == Usage(used, plan[k].row) + plan[k].amount)
    && (forall k :: j <= k < |plan| && plan[k].row in draft ==> draft[plan[k].row] == 0 && plan[k].row !in used)
    && (forall row :: row in draft ==> HasRow(plan, row))
  }

  predicate ProcOk(cfg: Config, tables: Ledger, p: nat, proc: Proc)
    requires p < |cfg.calls|
  {
    var call, plan := cfg.calls[p], Plan(cfg, p);
    && WellPlaced(cfg, p, proc)
    && (proc.Opened? || InTransaction(proc) ==> DistinctRows(plan))
    && (call.Once? && (proc.Scanning? || proc.Writing? || proc.Committing?) ==> call.receipt !in tables.receipts)
    && match proc
       case Answering(outcome) =>
         && call.receipt in tables.receipts
         && outcome == if tables.receipts[call.receipt] == call.fingerprint then Replayed else Conflict
       case Scanning(i, inserted, seen, draft) => ScanOk(plan, tables.used, i, inserted, seen, draft)
       case Writing(j, draft) => WriteOk(plan, tables.used, j, draft)
       case Committing(draft) => WriteOk(plan, tables.used, |plan|, draft)
       case _ => true
  }

  predicate ProcsOk(cfg: Config, s: State)
    requires |s.procs| == |cfg.calls|
  {
    forall p :: 0 <= p < |s.procs| ==> ProcOk(cfg, s.tables, p, s.procs[p])
  }

  ghost predicate LocksOk(cfg: Config, s: State)
    requires |s.procs| == |cfg.calls|
  {
    && (forall lock :: lock in s.locks ==> s.locks[lock] < |s.procs|)
    && (forall p, lock :: 0 <= p < |s.procs| ==>
          (Holds(cfg, p, s.procs[p], lock) <==> lock in s.locks && s.locks[lock] == p))
  }

  /** No unfinished call works on a day behind a cutoff. */
  predicate LiveOk(cfg: Config, s: State)
    requires |s.procs| == |cfg.calls|
  {
    forall p :: 0 <= p < |s.procs| && !Over(s.procs[p]) ==> LiveCall(cfg.calls[p], s.cutoffs)
  }

  /** The decisions so far are those of the sequential store, and so are the tables on every live day. */
  ghost predicate LogOk(s: State) {
    Faithful(s.log) && AgreeLive(s.tables, LedgerAfter(s.log), s.cutoffs)
  }

  /** The decision order lists every decided call once, with its call and outcome. */
  predicate OrderOk(cfg: Config, s: State)
    requires |s.procs| == |cfg.calls|
  {
    && |s.order| == |s.log|
    && (forall i :: 0 <= i < |s.order| ==>
          && s.order[i] < |s.procs| && s.log[i].call == cfg.calls[s.order[i]]
          && s.procs[s.order[i]].Finished? && s.procs[s.order[i]].outcome == s.log[i].outcome)
    && (forall i, j :: 0 <= i < j < |s.order| ==> s.order[i] != s.order[j])
    && (forall p :: 0 <= p < |s.procs| && s.procs[p].Finished? ==>
          p in s.order || (s.procs[p].outcome == DuplicateRows && !DistinctRows(ChargesOf(cfg.calls[p]))))
  }

  ghost predicate Inv(cfg: Config, s: State)
    requires |s.procs| == |cfg.calls|
  {
    ProcsOk(cfg, s) && LocksOk(cfg, s) && LiveOk(cfg, s) && LogOk(s) && OrderOk(cfg, s)
  }

  /** Single requests whose limit is positive or already exceeded by their amount; see `SingleParity`. */
  ghost predicate WellFormed(cfg: Config) {
    && StrictTotalOrder(cfg.before)
    && forall p :: 0 <= p < |cfg.calls| && cfg.calls[p].Single? ==> Settled(cfg.calls[p].charge)
  }

  predicate Settled(charge: Charge) {
    charge.limit > 0 || charge.amount > charge.limit
  }

  // ----- Frame: what one process does leaves the others alone -------------------------------------------

  lemma PrefixRow(plan: seq<Charge>, i: nat, k: nat)
    requires k < i <= |plan|
    ensures HasRow(plan[..i], plan[k].row) && HasRow(plan, plan[k].row)
  {
    assert plan[..i][k] == plan[k];
  }

  lemma ScanStable(plan: seq<Charge>, used: map<Row, nat>, used': map<Row, nat>,
                   i: nat, inserted: bool, seen: seq<nat>, draft: map<Row, nat>)
    requires ScanOk(plan, used, i, inserted, seen, draft)
    requires forall row :: HasRow(plan[..i], row) || row in draft ==> SameAt(used, used', row)
    requires inserted && plan[i].row in used ==> plan[i].row in used'
    ensures ScanOk(plan, used', i, inserted, seen, draft)
  {
    forall k | 0 <= k < i
      ensures SameAt(used, used', plan[k].row)
    {
      PrefixRow(plan, i, k);
    }
  }

  lemma WriteStable(plan: seq<Charge>, used: map<Row, nat>, used': map<Row, nat>, j: nat, draft: map<Row, nat>)
    requires WriteOk(plan, used, j, draft)
    requires forall row :: HasRow(plan, row) ==> SameAt(used, used', row)
    ensures WriteOk(plan, used', j, draft)
  {
    forall k | 0 <= k < |plan|
      ensures SameAt(used, used', plan[k].row)
    {
      PrefixRow(plan, |plan|, k);
    }
  }

  /** A process is untouched by table changes outside the rows and the receipt it has locked. */
  lemma ProcStable(cfg: Config, before: Ledger, after: Ledger, q: nat, proc: Proc)
    requires q < |cfg.calls| && ProcOk(cfg, before, q, proc)
    requires forall row :: Holds(cfg, q, proc, OnRow(row)) ==> SameAt(before.used, after.used, row)
    requires proc.Scanning? && proc.inserted ==>
               Plan(cfg, q)[proc.i].row in before.used ==> Plan(cfg, q)[proc.i].row in after.used
    requires cfg.calls[q].Once? && InTransaction(proc) ==>
               SameAt(before.receipts, after.receipts, cfg.calls[q].receipt)
    ensures ProcOk(cfg, after, q, proc)
  {
    hide Plan, DistinctRows;
    var plan := Plan(cfg, q);
    match proc {
      case Scanning(i, inserted, seen, draft) =>
        forall row | HasRow(plan[..i], row) || row in draft
          ensures Holds(cfg, q, proc, OnRow(row))
        {
        }
        ScanStable(plan, before.used, after.used, i, inserted, seen, draft);
      case Writing(j, draft) =>
        assert forall row :: HasRow(plan, row) ==> Holds(cfg, q, proc, OnRow(row));
        WriteStable(plan, before.used, after.used, j, draft);
      case Committing(draft) =>
        assert forall row :: HasRow(plan, row) ==> Holds(cfg, q, proc, OnRow(row));
        WriteStable(plan, before.used, after.used, |plan|, draft);
      case _ =>
    }
  }

  /** Process `p` moved: nobody else's position or lock changed, and tables changed only under locks free for `p`. */
  ghost predicate OnlyMoves(cfg: Config, s: State, s': State, p: nat)
    requires p < |s.procs|
  {
    && |s'.procs| == |s.procs| && s'.cutoffs == s.cutoffs
    && (forall q :: 0 <= q < |s.procs| && q != p ==> s'.procs[q] == s.procs[q])
    && (forall lock :: lock in s.locks && s.locks[lock] != p ==> lock in s'.locks && s'.locks[lock] == s.locks[lock])
    && (forall lock :: lock in s'.locks && s'.locks[lock] != p ==> lock in s.locks && s.locks[lock] == s'.locks[lock])
    && (forall row :: row in s.tables.used ==> row in s'.tables.used)
    && (forall row :: !SameAt(s.tables.used, s'.tables.used, row) ==> FreeFor(s, OnRow(row), p))
    && (forall row :: !SameAt(s.tables.receipts, s'.tables.receipts, row) ==> FreeFor(s, Advisory(cfg.hash(row)), p))
  }

  lemma OthersStable(cfg: Config, s: State, s': State, p: nat, q: nat)
    requires p < |s.procs| == |cfg.calls| && q < |s.procs| && q != p && ProcsOk(cfg, s) && LocksOk(cfg, s)
    requires OnlyMoves(cfg, s, s', p)
    ensures ProcOk(cfg, s'.tables, q, s'.procs[q])
  {
    hide Plan, ScanOk, WriteOk, DistinctRows, Usage;
    var proc := s.procs[q];
    assert ProcOk(cfg, s.tables, q, proc);
    forall row | Holds(cfg, q, proc, OnRow(row))
      ensures SameAt(s.tables.used, s'.tables.used, row)
    {
      assert OnRow(row) in s.locks && s.locks[OnRow(row)] == q;
    }
    if cfg.calls[q].Once? && InTransaction(proc) {
      assert Holds(cfg, q, proc, AdvisoryLock(cfg, q));
      assert SameAt(s.tables.receipts, s'.tables.receipts, cfg.calls[q].receipt);
    }
    ProcStable(cfg, s.tables, s'.tables, q, proc);
  }

  lemma FrameProcs(cfg: Config, s: State, s': State, p: nat)
    requires p < |s.procs| == |cfg.calls| && ProcsOk(cfg, s) && LocksOk(cfg, s)
    requires OnlyMoves(cfg, s, s', p)
    requires ProcOk(cfg, s'.tables, p, s'.procs[p])
    ensures |s'.procs| == |cfg.calls| && ProcsOk(cfg, s')
  {
    hide LocksOk, ProcOk, OnlyMoves;
    MoveShape(cfg, s, s', p);
    forall q | 0 <= q < |s'.procs|
      ensures ProcOk(cfg, s'.tables, q, s'.procs[q])
    {
      if q != p { OthersStable(cfg, s, s', p, q); }
    }
  }

  lemma MoveShape(cfg: Config, s: State, s': State, p: nat)
    requires p < |s.procs| && OnlyMoves(cfg, s, s', p)
    ensures |s'.procs| == |s.procs|
  {
  }

  lemma FrameLocks(cfg: Config, s: State, s': State, p: nat)
    requires p < |s.procs| == |cfg.calls| == |s'.procs| && LocksOk(cfg, s) && OnlyMoves(cfg, s, s', p)
    requires forall lock :: Holds(cfg, p, s'.procs[p], lock) <==> lock in s'.locks && s'.locks[lock] == p
    ensures LocksOk(cfg, s')
  {
    hide Holds, SameAt, FreeFor;
    forall q, lock | 0 <= q < |s'.procs|
      ensures Holds(cfg, q, s'.procs[q], lock) <==> lock in s'.locks && s'.locks[lock] == q
    {
      if q != p {
        assert Holds(cfg, q, s.procs[q], lock) <==> lock in s.locks && s.locks[lock] == q;
      }
    }
    forall lock | lock in s'.locks
      ensures s'.locks[lock] < |s'.procs|
    {
      var q := s'.locks[lock];
      if q != p { assert lock in s.locks && s.locks[lock] == q; }
    }
  }

  /** The move keeps all positions and locks right, given that the mover's own are. */
  lemma FrameMove(cfg: Config, s: State, s': State, p: nat)
    requires p < |s.procs| == |cfg.calls| == |s'.procs| && ProcsOk(cfg, s) && LocksOk(cfg, s)
    requires OnlyMoves(cfg, s, s', p)
    requires ProcOk(cfg, s'.tables, p, s'.procs[p])
    requires forall lock :: Holds(cfg, p, s'.procs[p], lock) <==> lock in s'.locks && s'.locks[lock] == p
    ensures ProcsOk(cfg, s') && LocksOk(cfg, s')
  {
    hide ProcsOk, LocksOk, OnlyMoves, ProcOk, Holds;
    FrameProcs(cfg, s, s', p);
    FrameLocks(cfg, s, s', p);
  }
}
