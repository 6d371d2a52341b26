/** Every action of the interleaved store keeps the invariant. */
module PostgresSteps {
  import opened CounterStore
  import opened CounterLedger
  import opened Retention
  import opened NormalizedBatch
  import opened PostgresStore
  import opened PostgresInvariant

  // ----- Moves that decide nothing ----------------------------------------------------------------------

  /** A move without a decision keeps liveness, the log and the order. */
  lemma QuietMove(cfg: Config, s: State, p: nat, locks: map<Lock, nat>, proc: Proc)
    requires p < |s.procs| == |cfg.calls| && LiveOk(cfg, s) && LogOk(s) && OrderOk(cfg, s) && !Over(s.procs[p])
    requires proc.Finished? ==> proc.outcome == DuplicateRows && !DistinctRows(ChargesOf(cfg.calls[p]))
    ensures var s' := s.(locks := locks, procs := s.procs[p := proc]);
            LiveOk(cfg, s') && LogOk(s') && OrderOk(cfg, s')
  {
    hide LogOk, LiveCall, DistinctRows, ChargesOf;
    var s' := s.(locks := locks, procs := s.procs[p := proc]);
    assert forall i :: 0 <= i < |s.order| ==> s.order[i] != p;
    LogOnly(s, s');
  }

  lemma LogOnly(s: State, s': State)
    requires s.tables == s'.tables && s.log == s'.log && s.cutoffs == s'.cutoffs
    ensures LogOk(s) <==> LogOk(s')
  {
  }

  lemma OwnProcOk(cfg: Config, s: State, p: nat)
    requires p < |s.procs| == |cfg.calls| && Inv(cfg, s)
    ensures ProcOk(cfg, s.tables, p, s.procs[p])
    ensures forall lock :: Holds(cfg, p, s.procs[p], lock) <==> lock in s.locks && s.locks[lock] == p
  {
    hide ProcOk, Holds, LiveOk, LogOk, OrderOk;
  }

  lemma MoveKeeps(cfg: Config, s: State, p: nat, proc: Proc)
    requires p < |s.procs| == |cfg.calls| && Inv(cfg, s) && !Over(s.procs[p])
    requires ProcOk(cfg, s.tables, p, proc)
    requires forall lock :: Holds(cfg, p, proc, lock) <==> Holds(cfg, p, s.procs[p], lock)
    requires proc.Finished? ==> proc.outcome == DuplicateRows && !DistinctRows(ChargesOf(cfg.calls[p]))
    ensures Inv(cfg, Move(s, p, proc))
  {
    hide ProcOk, Holds, LiveOk, LogOk, OrderOk, DistinctRows, ChargesOf;
    var s' := Move(s, p, proc);
    OwnProcOk(cfg, s, p);
    FrameMove(cfg, s, s', p);
    QuietMove(cfg, s, p, s'.locks, proc);
  }

  lemma TakeKeeps(cfg: Config, s: State, p: nat, proc: Proc, lock: Lock)
    requires p < |s.procs| == |cfg.calls| && Inv(cfg, s) && !Over(s.procs[p]) && !proc.Finished?
    requires FreeFor(s, lock, p) && ProcOk(cfg, s.tables, p, proc)
    requires forall other :: Holds(cfg, p, proc, other) <==> Holds(cfg, p, s.procs[p], other) || other == lock
    ensures Inv(cfg, Move(Take(s, p, lock), p, proc))
  {
    hide ProcOk, Holds, LiveOk, LogOk, OrderOk;
    var s' := Move(Take(s, p, lock), p, proc);
    OwnProcOk(cfg, s, p);
    FrameMove(cfg, s, s', p);
    QuietMove(cfg, s, p, s'.locks, proc);
  }

  /** Ending without a decision releases everything. */
  lemma AbandonKeeps(cfg: Config, s: State, p: nat)
    requires p < |s.procs| == |cfg.calls| && Inv(cfg, s) && !Over(s.procs[p])
    ensures Inv(cfg, Abandon(s, p))
  {
    hide ProcsOk, LocksOk, LiveOk, LogOk, OrderOk;
    var s' := Abandon(s, p);
    assert OnlyMoves(cfg, s, s', p);
    FrameMove(cfg, s, s', p);
    QuietMove(cfg, s, p, s'.locks, Aborted);
  }

  // ----- Decisions ----------------------------------------------------------------------------------------

  /** Deciding as the sequential store would on the committed tables extends the log faithfully. */
  lemma DecideLog(cfg: Config, s: State, p: nat, tables: Ledger, outcome: Outcome)
    requires p < |s.procs| == |cfg.calls| && Inv(cfg, s) && !Over(s.procs[p])
    requires tables == Perform(s.tables, cfg.calls[p]).0 && SameOutcome(outcome, Perform(s.tables, cfg.calls[p]).1)
    ensures LogOk(Decide(cfg, s, p, tables, outcome))
  {
    hide ProcsOk, LocksOk, OrderOk, Perform, LiveCall, AgreeLive, Faithful;
    var call := cfg.calls[p];
    PerformAgrees(s.tables, LedgerAfter(s.log), s.cutoffs, call);
    FaithfulExtend(s.log, Entry(call, outcome));
  }

  lemma DecideOrder(cfg: Config, s: State, p: nat, tables: Ledger, outcome: Outcome)
    requires |s.procs| == |cfg.calls| && p < |s.procs| && !Over(s.procs[p]) && LiveOk(cfg, s) && OrderOk(cfg, s)
    ensures LiveOk(cfg, Decide(cfg, s, p, tables, outcome)) && OrderOk(cfg, Decide(cfg, s, p, tables, outcome))
  {
    hide LiveCall, DistinctRows, ChargesOf;
    var s' := Decide(cfg, s, p, tables, outcome);
    assert forall i :: 0 <= i < |s.order| ==> s.order[i] != p && s'.order[i] == s.order[i] && s'.log[i] == s.log[i];
    assert s'.order[|s.order|] == p && s'.log[|s.log|] == Entry(cfg.calls[p], outcome);
    forall q | 0 <= q < |s'.procs| && s'.procs[q].Finished?
      ensures q in s'.order || (s'.procs[q].outcome == DuplicateRows && !DistinctRows(ChargesOf(cfg.calls[q])))
    {
      if q != p { assert q in s.order ==> q in s'.order; }
    }
  }

  lemma DecideKeeps(cfg: Config, s: State, p: nat, tables: Ledger, outcome: Outcome)
    requires p < |s.procs| == |cfg.calls| && Inv(cfg, s) && !Over(s.procs[p])
    requires tables == Perform(s.tables, cfg.calls[p]).0 && SameOutcome(outcome, Perform(s.tables, cfg.calls[p]).1)
    requires forall row :: row in s.tables.used ==> row in tables.used
    requires forall row :: !SameAt(s.tables.used, tables.used, row) ==> FreeFor(s, OnRow(row), p)
    requires forall row :: !SameAt(s.tables.receipts, tables.receipts, row) ==> FreeFor(s, Advisory(cfg.hash(row)), p)
    ensures Inv(cfg, Decide(cfg, s, p, tables, outcome))
  {
    hide Perform, SameOutcome, ProcsOk, LocksOk, LogOk, LiveOk, OrderOk, SameAt, FreeFor;
    DecideLog(cfg, s, p, tables, outcome);
    DecideOrder(cfg, s, p, tables, outcome);
    var s' := Decide(cfg, s, p, tables, outcome);
    assert OnlyMoves(cfg, s, s', p);
    FrameMove(cfg, s, s', p);
  }

  lemma DecideUnchanged(cfg: Config, s: State, p: nat, outcome: Outcome)
    requires p < |s.procs| == |cfg.calls| && Inv(cfg, s) && !Over(s.procs[p])
    requires s.tables == Perform(s.tables, cfg.calls[p]).0 && SameOutcome(outcome, Perform(s.tables, cfg.calls[p]).1)
    ensures Inv(cfg, Decide(cfg, s, p, s.tables, outcome))
  {
    hide Perform, SameOutcome, Inv;
    DecideKeeps(cfg, s, p, s.tables, outcome);
  }

  // ----- Steps --------------------------------------------------------------------------------------------

  lemma ConsumeKeeps(cfg: Config, s: State, p: nat)
    requires p < |s.procs| == |cfg.calls| && WellFormed(cfg) && Inv(cfg, s)
    requires s.procs[p].Idle? && cfg.calls[p].Single? && CanConsume(s, cfg.calls[p].charge, p)
    ensures Inv(cfg, ConsumeStep(cfg, s, p))
  {
    hide Inv;
    var charge := cfg.calls[p].charge;
    var total := Usage(s.tables.used, charge.row) + charge.amount;
    if !Admits(s.tables.used, charge) {
      DecideUnchanged(cfg, s, p, Denied);
    } else {
      var tables := s.tables.(used := s.tables.used[charge.row := total]);
      DecideKeeps(cfg, s, p, tables, Admitted(total));
    }
  }

  lemma PlanDistinct(cfg: Config, p: nat)
    requires p < |cfg.calls|
    ensures DistinctRows(Plan(cfg, p)) <==> DistinctRows(ChargesOf(cfg.calls[p]))
    ensures multiset(Plan(cfg, p)) == multiset(ChargesOf(cfg.calls[p]))
  {
    SortDistinct(ChargesOf(cfg.calls[p]), cfg.before);
    SortPermutes(ChargesOf(cfg.calls[p]), cfg.before);
  }

  lemma PlanExhaustion(cfg: Config, p: nat, used: map<Row, nat>)
    requires p < |cfg.calls|
    ensures multiset(Exhaustion(used, Plan(cfg, p))) == multiset(Exhaustion(used, ChargesOf(cfg.calls[p])))
  {
    hide Exhaustion, ChargesOf;
    SortExhaustion(used, ChargesOf(cfg.calls[p]), cfg.before);
  }

  lemma SwitchedOff(used: map<Row, nat>, charges: seq<Charge>, plan: seq<Charge>, k: nat)
    requires multiset(plan) == multiset(charges) && k < |plan| && plan[k].limit <= 0
    ensures Exhaustion(used, charges) != []
  {
    assert plan[k] in multiset(charges);
    var m :| 0 <= m < |charges| && charges[m] == plan[k];
    ExhaustionEmpty(used, charges);
  }

  lemma UnspentMeaning(ledger: Ledger, call: Call)
    requires call.Batch? && DistinctRows(ChargesOf(call)) && Exhaustion(ledger.used, ChargesOf(call)) != []
    ensures Perform(ledger, call) == (ledger, Unspent)
  {
  }

  /** A process that has locked no row yet, and may be anywhere before its first statement on one. */
  predicate Rowless(proc: Proc) {
    proc.Idle? || proc.Opened? || proc.Advised? || proc.Answering? || proc == Scanning(0, false, [], map[])
    || proc.Finished?
  }

  lemma RowlessHolds(cfg: Config, p: nat, a: Proc, b: Proc)
    requires p < |cfg.calls| && Rowless(a) && Rowless(b)
    requires cfg.calls[p].Once? ==> (InTransaction(a) <==> InTransaction(b))
    ensures forall lock :: Holds(cfg, p, a, lock) <==> Holds(cfg, p, b, lock)
  {
  }

  lemma ScanStart(plan: seq<Charge>, used: map<Row, nat>)
    ensures ScanOk(plan, used, 0, false, [], map[])
  {
  }

  lemma BeginKeeps(cfg: Config, s: State, p: nat)
    requires p < |s.procs| == |cfg.calls| && Inv(cfg, s) && s.procs[p].Idle? && !cfg.calls[p].Single?
    ensures Inv(cfg, BeginStep(cfg, s, p))
  {
    hide Inv, Plan, DistinctRows, Exhaustion, ChargesOf, Holds, ScanOk, WriteOk, Perform;
    PlanDistinct(cfg, p);
    var plan, call := Plan(cfg, p), cfg.calls[p];
    if !DistinctRows(plan) {
      RowlessHolds(cfg, p, Finished(DuplicateRows, true), Idle);
      MoveKeeps(cfg, s, p, Finished(DuplicateRows, true));
    } else if call.Once? {
      RowlessHolds(cfg, p, Opened, Idle);
      MoveKeeps(cfg, s, p, Opened);
    } else if k :| 0 <= k < |plan| && plan[k].limit <= 0 {
      SwitchedOff(s.tables.used, ChargesOf(call), plan, k);
      UnspentMeaning(s.tables, call);
      DecideUnchanged(cfg, s, p, Unspent);
    } else {
      ScanStart(plan, s.tables.used);
      RowlessHolds(cfg, p, Scanning(0, false, [], map[]), Idle);
      MoveKeeps(cfg, s, p, Scanning(0, false, [], map[]));
    }
  }

  lemma OpenedHolds(cfg: Config, p: nat)
    requires p < |cfg.calls| && cfg.calls[p].Once?
    ensures forall lock :: Holds(cfg, p, Advised, lock) <==> Holds(cfg, p, Opened, lock) || lock == AdvisoryLock(cfg, p)
  {
  }

  lemma OpenedKeeps(cfg: Config, s: State, p: nat)
    requires p < |s.procs| == |cfg.calls| && Inv(cfg, s) && s.procs[p].Opened? && cfg.calls[p].Once?
    requires FreeFor(s, AdvisoryLock(cfg, p), p)
    ensures Inv(cfg, Move(Take(s, p, AdvisoryLock(cfg, p)), p, Advised))
  {
    hide Inv, Plan, DistinctRows, Holds;
    OwnProcOk(cfg, s, p);
    OpenedHolds(cfg, p);
    TakeKeeps(cfg, s, p, Advised, AdvisoryLock(cfg, p));
  }

  lemma LookupKeeps(cfg: Config, s: State, p: nat)
    requires p < |s.procs| == |cfg.calls| && Inv(cfg, s) && s.procs[p].Advised? && cfg.calls[p].Once?
    ensures Inv(cfg, LookupStep(cfg, s, p))
  {
    hide Inv, Plan, DistinctRows, Holds, ScanOk, WriteOk;
    OwnProcOk(cfg, s, p);
    var call := cfg.calls[p];
    if call.receipt in s.tables.receipts {
      var next := Answering(if s.tables.receipts[call.receipt] == call.fingerprint then Replayed else Conflict);
      RowlessHolds(cfg, p, next, Advised);
      MoveKeeps(cfg, s, p, next);
    } else {
      ScanStart(Plan(cfg, p), s.tables.used);
      RowlessHolds(cfg, p, Scanning(0, false, [], map[]), Advised);
      MoveKeeps(cfg, s, p, Scanning(0, false, [], map[]));
    }
  }

  lemma AnswerKeeps(cfg: Config, s: State, p: nat)
    requires p < |s.procs| == |cfg.calls| && Inv(cfg, s) && s.procs[p].Answering?
    ensures Inv(cfg, Decide(cfg, s, p, s.tables, s.procs[p].outcome))
  {
    hide Inv, Plan, DistinctRows;
    OwnProcOk(cfg, s, p);
    PerformHeld(s.tables, cfg.calls[p]);
    DecideUnchanged(cfg, s, p, s.procs[p].outcome);
  }

  lemma PrefixStep(plan: seq<Charge>, i: nat, row: Row)
    requires i < |plan|
    ensures HasRow(plan[..i + 1], row) <==> HasRow(plan[..i], row) || plan[i].row == row
  {
    assert plan[..i + 1] == plan[..i] + [plan[i]];
    assert forall k :: 0 <= k < i ==> plan[..i + 1][k] == plan[..i][k];
    assert plan[..i + 1][i] == plan[i];
  }

  lemma FreshRow(plan: seq<Charge>, i: nat)
    requires DistinctRows(plan) && i < |plan|
    ensures !HasRow(plan[..i], plan[i].row)
  {
  }

  lemma InsertScan(plan: seq<Charge>, used: map<Row, nat>, proc: Proc)
    requires DistinctRows(plan) && proc.Scanning? && proc.i < |plan| && !proc.inserted
    requires ScanOk(plan, used, proc.i, false, proc.seen, proc.draft)
    ensures plan[proc.i].row in used ==> ScanOk(plan, used, proc.i, true, proc.seen, proc.draft)
    ensures plan[proc.i].row !in used ==> ScanOk(plan, used, proc.i, true, proc.seen, proc.draft[plan[proc.i].row := 0])
    ensures plan[proc.i].row !in proc.draft
  {
    FreshRow(plan, proc.i);
  }

  lemma InsertHolds(cfg: Config, p: nat, proc: Proc, next: Proc, row: Row)
    requires p < |cfg.calls| && proc.Scanning? && proc.i < |Plan(cfg, p)| && !proc.inserted
    requires row == Plan(cfg, p)[proc.i].row && row !in proc.draft
    requires next == Scanning(proc.i, true, proc.seen, proc.draft)
             || next == Scanning(proc.i, true, proc.seen, proc.draft[row := 0])
    ensures forall lock :: Holds(cfg, p, next, lock)
                       <==> Holds(cfg, p, proc, lock) || (lock == OnRow(row) && row in next.draft)
  {
    hide Plan, HasRow;
    forall other
      ensures HoldsRow(Plan(cfg, p), next, other)
         <==> HoldsRow(Plan(cfg, p), proc, other) || (other == row && row in next.draft)
    {
    }
  }

  lemma InsertKeeps(cfg: Config, s: State, p: nat, row: Row)
    requires p < |s.procs| == |cfg.calls| && Inv(cfg, s) && s.procs[p].Scanning?
    requires s.procs[p].i < |Plan(cfg, p)| && !s.procs[p].inserted && row == Plan(cfg, p)[s.procs[p].i].row
    requires CanInsert(s, row, p)
    ensures Inv(cfg, InsertStep(s, p, row))
  {
    hide Inv, Plan, Holds, DistinctRows, ScanOk, WriteOk;
    OwnProcOk(cfg, s, p);
    var proc := s.procs[p];
    InsertScan(Plan(cfg, p), s.tables.used, proc);
    if row in s.tables.used {
      var next := Scanning(proc.i, true, proc.seen, proc.draft);
      InsertHolds(cfg, p, proc, next, row);
      MoveKeeps(cfg, s, p, next);
    } else {
      var next := Scanning(proc.i, true, proc.seen, proc.draft[row := 0]);
      InsertHolds(cfg, p, proc, next, row);
      TakeKeeps(cfg, s, p, next, OnRow(row));
    }
  }

  lemma SelectScan(plan: seq<Charge>, used: map<Row, nat>, i: nat, seen: seq<nat>, draft: map<Row, nat>, read: nat)
    requires ScanOk(plan, used, i, true, seen, draft)
    requires read == if plan[i].row in draft then draft[plan[i].row] else Usage(used, plan[i].row)
    ensures ScanOk(plan, used, i + 1, false, seen + [read], draft)
    ensures plan[i].row in draft || plan[i].row in used
  {
    forall row | row in draft
      ensures HasRow(plan[..i + 1], row)
    {
      PrefixStep(plan, i, row);
    }
  }

  lemma SelectHolds(cfg: Config, p: nat, proc: Proc, next: Proc, row: Row)
    requires p < |cfg.calls| && proc.Scanning? && proc.i < |Plan(cfg, p)| && row == Plan(cfg, p)[proc.i].row
    requires next.Scanning? && next.i == proc.i + 1 && !next.inserted
    ensures forall lock :: Holds(cfg, p, next, lock) <==> Holds(cfg, p, proc, lock) || lock == OnRow(row)
  {
    forall other
      ensures HoldsRow(Plan(cfg, p), next, other) <==> HoldsRow(Plan(cfg, p), proc, other) || other == row
    {
      PrefixStep(Plan(cfg, p), proc.i, other);
    }
  }

  lemma SelectKeeps(cfg: Config, s: State, p: nat, row: Row)
    requires p < |s.procs| == |cfg.calls| && Inv(cfg, s) && s.procs[p].Scanning?
    requires s.procs[p].i < |Plan(cfg, p)| && s.procs[p].inserted && row == Plan(cfg, p)[s.procs[p].i].row
    requires CanTouch(s, s.procs[p].draft, row, p)
    ensures Inv(cfg, SelectStep(s, p, row))
  {
    hide Inv, Plan, Holds, DistinctRows, ScanOk, WriteOk;
    OwnProcOk(cfg, s, p);
    var proc := s.procs[p];
    SelectScan(Plan(cfg, p), s.tables.used, proc.i, proc.seen, proc.draft, Current(s, proc.draft, row));
    var next := Scanning(proc.i + 1, false, proc.seen + [Current(s, proc.draft, row)], proc.draft);
    SelectHolds(cfg, p, proc, next, row);
    TakeKeeps(cfg, s, p, next, OnRow(row));
  }

  /** What was read under the locks is what the sequential store would read now. */
  lemma {:induction false} SeenIsCurrent(plan: seq<Charge>, used: map<Row, nat>, seen: seq<nat>)
    requires |plan| == |seen| && forall k :: 0 <= k < |plan| ==> seen[k] == Usage(used, plan[k].row)
    ensures ExhaustedBy(plan, seen) == Exhaustion(used, plan)
  {
    if plan != [] {
      var n := |plan| - 1;
      SeenIsCurrent(plan[..n], used, seen[..n]);
    }
  }

  lemma ScanReads(plan: seq<Charge>, used: map<Row, nat>, seen: seq<nat>, draft: map<Row, nat>)
    requires ScanOk(plan, used, |plan|, false, seen, draft)
    ensures ExhaustedBy(plan, seen) == Exhaustion(used, plan)
    ensures ExhaustedBy(plan, seen) == [] ==> WriteOk(plan, used, 0, draft)
  {
    SeenIsCurrent(plan, used, seen);
    ExhaustionEmpty(used, plan);
    assert plan[..|plan|] == plan;
  }

  lemma RefusedMeaning(ledger: Ledger, call: Call, exhausted: seq<ExhaustedCounter>)
    requires !call.Single? && DistinctRows(ChargesOf(call)) && exhausted != []
    requires multiset(exhausted) == multiset(Exhaustion(ledger.used, ChargesOf(call)))
    requires call.Once? ==> call.receipt !in ledger.receipts
    ensures Perform(ledger, call).0 == ledger
    ensures SameOutcome(if call.Once? then Refused(exhausted) else Unspent, Perform(ledger, call).1)
  {
    assert exhausted[0] in multiset(exhausted);
    assert Exhaustion(ledger.used, ChargesOf(call)) != [];
  }

  lemma VerdictHolds(cfg: Config, p: nat, proc: Proc)
    requires p < |cfg.calls| && proc.Scanning? && proc.i == |Plan(cfg, p)|
    ensures forall lock :: Holds(cfg, p, Writing(0, proc.draft), lock) <==> Holds(cfg, p, proc, lock)
  {
    hide Plan, HasRow;
    assert Plan(cfg, p)[..|Plan(cfg, p)|] == Plan(cfg, p);
  }

  lemma RefuseKeeps(cfg: Config, s: State, p: nat, exhausted: seq<ExhaustedCounter>)
    requires p < |s.procs| == |cfg.calls| && Inv(cfg, s) && !Over(s.procs[p]) && !cfg.calls[p].Single?
    requires DistinctRows(ChargesOf(cfg.calls[p])) && exhausted != []
    requires multiset(exhausted) == multiset(Exhaustion(s.tables.used, ChargesOf(cfg.calls[p])))
    requires cfg.calls[p].Once? ==> cfg.calls[p].receipt !in s.tables.receipts
    ensures Inv(cfg, Decide(cfg, s, p, s.tables, if cfg.calls[p].Once? then Refused(exhausted) else Unspent))
  {
    hide Inv, Perform, SameOutcome, DistinctRows, ChargesOf, Exhaustion;
    RefusedMeaning(s.tables, cfg.calls[p], exhausted);
    DecideUnchanged(cfg, s, p, if cfg.calls[p].Once? then Refused(exhausted) else Unspent);
  }

  lemma VerdictKeeps(cfg: Config, s: State, p: nat)
    requires p < |s.procs| == |cfg.calls| && Inv(cfg, s) && s.procs[p].Scanning? && !s.procs[p].inserted
    requires s.procs[p].i == |Plan(cfg, p)| == |s.procs[p].seen|
    ensures Inv(cfg, VerdictStep(cfg, s, p))
  {
    hide Inv, Plan, Holds, DistinctRows, ScanOk, WriteOk, Exhaustion, ExhaustedBy, ChargesOf;
    OwnProcOk(cfg, s, p);
    var proc, plan := s.procs[p], Plan(cfg, p);
    PlanExhaustion(cfg, p, s.tables.used);
    PlanDistinct(cfg, p);
    ScanReads(plan, s.tables.used, proc.seen, proc.draft);
    if ExhaustedBy(plan, proc.seen) != [] {
      RefuseKeeps(cfg, s, p, ExhaustedBy(plan, proc.seen));
    } else {
      VerdictHolds(cfg, p, proc);
      MoveKeeps(cfg, s, p, Writing(0, proc.draft));
    }
  }

  lemma UpdateWrite(plan: seq<Charge>, used: map<Row, nat>, j: nat, draft: map<Row, nat>, total: nat)
    requires WriteOk(plan, used, j, draft) && DistinctRows(plan) && j < |plan|
    requires total == (if plan[j].row in draft then draft[plan[j].row] else Usage(used, plan[j].row)) + plan[j].amount
    ensures WriteOk(plan, used, j + 1, draft[plan[j].row := total])
    ensures plan[j].row in draft || plan[j].row in used
  {
    hide HasRow, Overflows;
    PrefixRow(plan, |plan|, j);
    assert forall k :: 0 <= k < |plan| && k != j ==> plan[k].row != plan[j].row;
  }

  lemma UpdateHolds(cfg: Config, p: nat, proc: Proc, next: Proc, row: Row)
    requires p < |cfg.calls| && proc.Writing? && next.Writing? && HasRow(Plan(cfg, p), row)
    ensures forall lock :: Holds(cfg, p, next, lock) <==> Holds(cfg, p, proc, lock) || lock == OnRow(row)
  {
    hide Plan, HasRow;
  }

  lemma UpdateKeeps(cfg: Config, s: State, p: nat)
    requires p < |s.procs| == |cfg.calls| && Inv(cfg, s) && s.procs[p].Writing? && s.procs[p].j < |Plan(cfg, p)|
    requires CanTouch(s, s.procs[p].draft, Plan(cfg, p)[s.procs[p].j].row, p)
    ensures Inv(cfg, UpdateStep(s, p, Plan(cfg, p)[s.procs[p].j]))
  {
    hide Inv, Plan, Holds, HasRow, DistinctRows, ScanOk, WriteOk;
    OwnProcOk(cfg, s, p);
    var proc, plan := s.procs[p], Plan(cfg, p);
    var charge := plan[proc.j];
    var total := Current(s, proc.draft, charge.row) + charge.amount;
    var next := Writing(proc.j + 1, proc.draft[charge.row := total]);
    UpdateWrite(plan, s.tables.used, proc.j, proc.draft, total);
    PrefixRow(plan, |plan|, proc.j);
    UpdateHolds(cfg, p, proc, next, charge.row);
    TakeKeeps(cfg, s, p, next, OnRow(charge.row));
  }

  /** The drafted rows laid over the committed ones are exactly the sequential spend of the whole batch. */
  lemma DraftIsSpend(charges: seq<Charge>, plan: seq<Charge>, used: map<Row, nat>, draft: map<Row, nat>)
    requires multiset(plan) == multiset(charges) && DistinctRows(charges) && WriteOk(plan, used, |plan|, draft)
    ensures used + draft == Spend(used, charges)
    ensures Exhaustion(used, charges) == []
  {
    hide WriteOk;
    forall row
      ensures row in used + draft <==> row in Spend(used, charges)
      ensures row in used + draft ==> (used + draft)[row] == Spend(used, charges)[row]
    {
      DraftAt(charges, plan, used, draft, row);
    }
    forall m | 0 <= m < |charges|
      ensures !Overflows(used, charges[m])
    {
      assert charges[m] in multiset(plan);
      var k :| 0 <= k < |plan| && plan[k] == charges[m];
      FitsAt(plan, used, draft, k);
    }
    ExhaustionEmpty(used, charges);
  }

  lemma FitsAt(plan: seq<Charge>, used: map<Row, nat>, draft: map<Row, nat>, k: nat)
    requires WriteOk(plan, used, |plan|, draft) && k < |plan|
    ensures !Overflows(used, plan[k])
  {
  }

  lemma DraftAt(charges: seq<Charge>, plan: seq<Charge>, used: map<Row, nat>, draft: map<Row, nat>, row: Row)
    requires multiset(plan) == multiset(charges) && DistinctRows(charges) && WriteOk(plan, used, |plan|, draft)
    ensures row in used + draft <==> row in Spend(used, charges)
    ensures row in used + draft ==> (used + draft)[row] == Spend(used, charges)[row]
  {
    SpendAdds(used, charges, row);
    SameRows(plan, charges, row);
    if row in draft {
      assert HasRow(plan, row);
      var k :| 0 <= k < |plan| && plan[k].row == row;
      assert plan[k] in multiset(charges);
      var m :| 0 <= m < |charges| && charges[m] == plan[k];
      ChargedDistinct(charges, m);
    } else {
      assert forall k :: 0 <= k < |plan| ==> plan[k].row in draft;
      ChargedAbsent(charges, row);
    }
  }

  /** The rows a writer or committer changes are all locked by it. */
  lemma OwnRows(cfg: Config, s: State, p: nat, draft: map<Row, nat>)
    requires p < |s.procs| == |cfg.calls| && Inv(cfg, s)
    requires s.procs[p] == Writing(|Plan(cfg, p)|, draft) || s.procs[p] == Committing(draft)
    ensures forall row :: !SameAt(s.tables.used, s.tables.used + draft, row) ==> FreeFor(s, OnRow(row), p)
  {
    hide Inv;
    OwnProcOk(cfg, s, p);
    forall row | !SameAt(s.tables.used, s.tables.used + draft, row)
      ensures FreeFor(s, OnRow(row), p)
    {
      assert row in draft;
      assert Holds(cfg, p, s.procs[p], OnRow(row));
    }
  }

  lemma CommitMeaning(ledger: Ledger, call: Call, plan: seq<Charge>, draft: map<Row, nat>)
    requires !call.Single? && DistinctRows(ChargesOf(call)) && multiset(plan) == multiset(ChargesOf(call))
    requires WriteOk(plan, ledger.used, |plan|, draft) && (call.Once? ==> call.receipt !in ledger.receipts)
    ensures var used := ledger.used + draft;
            Perform(ledger, call) == if call.Batch? then (ledger.(used := used), Spent)
                                     else (Ledger(used, ledger.receipts[call.receipt := call.fingerprint]), Consumed)
  {
    DraftIsSpend(ChargesOf(call), plan, ledger.used, draft);
  }

  lemma ReceiptHolds(cfg: Config, p: nat, draft: map<Row, nat>, j: nat)
    requires p < |cfg.calls| && cfg.calls[p].Once?
    ensures forall lock :: Holds(cfg, p, Committing(draft), lock)
                       <==> Holds(cfg, p, Writing(j, draft), lock) || lock == OnReceipt(cfg.calls[p].receipt)
  {
    hide Plan, HasRow;
  }

  lemma FinishWritingKeeps(cfg: Config, s: State, p: nat)
    requires p < |s.procs| == |cfg.calls| && Inv(cfg, s) && s.procs[p].Writing? && !cfg.calls[p].Single?
    requires s.procs[p].j == |Plan(cfg, p)|
    requires cfg.calls[p].Once? ==> FreeFor(s, OnReceipt(cfg.calls[p].receipt), p)
    ensures Inv(cfg, FinishWriting(cfg, s, p))
  {
    hide Inv, Plan, Holds, DistinctRows, ScanOk, WriteOk, Perform, FreeFor, SameAt, ChargesOf;
    OwnProcOk(cfg, s, p);
    var proc, call := s.procs[p], cfg.calls[p];
    if call.Batch? {
      PlanDistinct(cfg, p);
      CommitMeaning(s.tables, call, Plan(cfg, p), proc.draft);
      var tables := s.tables.(used := s.tables.used + proc.draft);
      OwnRows(cfg, s, p, proc.draft);
      SameReceipts(tables.receipts);
      DecideKeeps(cfg, s, p, tables, Spent);
    } else {
      ReceiptHolds(cfg, p, proc.draft, proc.j);
      TakeKeeps(cfg, s, p, Committing(proc.draft), OnReceipt(call.receipt));
    }
  }

  lemma SameReceipts(receipts: map<Row, string>)
    ensures forall row :: SameAt(receipts, receipts, row)
  {
  }

  lemma CommitKeeps(cfg: Config, s: State, p: nat)
    requires p < |s.procs| == |cfg.calls| && Inv(cfg, s) && s.procs[p].Committing? && cfg.calls[p].Once?
    ensures Inv(cfg, CommitStep(cfg, s, p))
  {
    hide Inv, Plan, DistinctRows, ScanOk, WriteOk, Perform, ChargesOf;
    OwnProcOk(cfg, s, p);
    var proc, call := s.procs[p], cfg.calls[p];
    PlanDistinct(cfg, p);
    CommitMeaning(s.tables, call, Plan(cfg, p), proc.draft);
    var tables := Ledger(s.tables.used + proc.draft, s.tables.receipts[call.receipt := call.fingerprint]);
    OwnRows(cfg, s, p, proc.draft);
    assert Holds(cfg, p, proc, AdvisoryLock(cfg, p));
    DecideKeeps(cfg, s, p, tables, Consumed);
  }

  // ----- Sweeps -------------------------------------------------------------------------------------------

  lemma SweepKeeps(cfg: Config, s: State, cutoff: string, used: set<Row>, receipts: set<Row>)
    requires |s.procs| == |cfg.calls| && Inv(cfg, s) && Behind(used + receipts, cutoff) && SweepAllowed(cfg, s, cutoff)
    ensures Inv(cfg, s.(tables := Ledger(s.tables.used - used, s.tables.receipts - receipts),
                        cutoffs := s.cutoffs + {cutoff}))
  {
    var tables := Ledger(s.tables.used - used, s.tables.receipts - receipts);
    var s' := s.(tables := tables, cutoffs := s.cutoffs + {cutoff});
    hide Behind, Faithful, AgreeLive, ProcOk, LocksOk, LiveOk, OrderOk, LiveCall, Live;
    SweepAgrees(s.tables, tables, LedgerAfter(s.log), s.cutoffs, cutoff, used, receipts);
    SweepFrame(cfg, s, s', cutoff);
    forall p | 0 <= p < |s.procs|
      ensures ProcOk(cfg, tables, p, s.procs[p])
    {
      SweepProc(cfg, s, tables, s'.cutoffs, p);
    }
  }

  lemma SweepFrame(cfg: Config, s: State, s': State, cutoff: string)
    requires |s.procs| == |cfg.calls| && LocksOk(cfg, s) && OrderOk(cfg, s) && SweepAllowed(cfg, s, cutoff)
    requires s' == s.(tables := s'.tables, cutoffs := s.cutoffs + {cutoff})
    ensures LocksOk(cfg, s') && OrderOk(cfg, s') && LiveOk(cfg, s')
  {
    hide Holds, LiveCall, DistinctRows, ChargesOf;
  }

  lemma SweepAgrees(before: Ledger, after: Ledger, spec: Ledger, cutoffs: set<string>, cutoff: string, used: set<Row>,
                    receipts: set<Row>)
    requires after == Ledger(before.used - used, before.receipts - receipts)
    requires AgreeLive(before, spec, cutoffs) && Behind(used + receipts, cutoff)
    ensures AgreeLive(before, after, cutoffs + {cutoff}) && AgreeLive(after, spec, cutoffs + {cutoff})
  {
    forall row: Row | Live(row.day, cutoffs + {cutoff})
      ensures row !in used + receipts && Live(row.day, cutoffs)
    {
      assert cutoff in cutoffs + {cutoff};
    }
  }

  lemma SweepProc(cfg: Config, s: State, tables: Ledger, cutoffs: set<string>, p: nat)
    requires p < |s.procs| == |cfg.calls| && ProcsOk(cfg, s) && (!Over(s.procs[p]) ==> LiveCall(cfg.calls[p], cutoffs))
    requires AgreeLive(s.tables, tables, cutoffs)
    ensures ProcOk(cfg, tables, p, s.procs[p])
  {
    var proc, plan := s.procs[p], Plan(cfg, p);
    assert ProcOk(cfg, s.tables, p, proc);
    if !Over(proc) {
      hide Plan, DistinctRows, ScanOk, WriteOk;
      forall row | HasRow(plan, row)
        ensures SameAt(s.tables.used, tables.used, row)
      {
        PlanRowLive(cfg, p, cutoffs, row);
      }
      HeldRowsPlanned(cfg, p, proc);
      if proc.Scanning? && proc.inserted { PrefixRow(plan, |plan|, proc.i); }
      ProcStable(cfg, s.tables, tables, p, proc);
    }
  }

  lemma PlanRowLive(cfg: Config, p: nat, cutoffs: set<string>, row: Row)
    requires p < |cfg.calls| && LiveCall(cfg.calls[p], cutoffs) && HasRow(Plan(cfg, p), row)
    ensures Live(row.day, cutoffs)
  {
    var charges := ChargesOf(cfg.calls[p]);
    PlanDistinct(cfg, p);
    SameRows(Plan(cfg, p), charges, row);
    var k :| 0 <= k < |charges| && charges[k].row == row;
    assert Live(ChargesOf(cfg.calls[p])[k].row.day, cutoffs);
  }

  lemma HeldRowsPlanned(cfg: Config, p: nat, proc: Proc)
    requires p < |cfg.calls|
    ensures forall row :: Holds(cfg, p, proc, OnRow(row)) ==> HasRow(Plan(cfg, p), row)
  {
    hide Plan;
    var plan := Plan(cfg, p);
    forall row | Holds(cfg, p, proc, OnRow(row))
      ensures HasRow(plan, row)
    {
      if proc.Scanning? && HasRow(plan[..proc.i], row) {
        var k :| 0 <= k < proc.i && plan[..proc.i][k].row == row;
        PrefixRow(plan, proc.i, k);
      }
    }
  }

  // ----- All actions ----------------------------------------------------------------------------------------

  lemma StepKeeps(cfg: Config, s: State, p: nat)
    requires p < |s.procs| == |cfg.calls| && WellFormed(cfg) && Inv(cfg, s) && CanStep(cfg, s, p)
    ensures |StepOf(cfg, s, p).procs| == |cfg.calls| && Inv(cfg, StepOf(cfg, s, p))
  {
    hide Inv, WellFormed, Plan;
    match s.procs[p] {
      case Idle => if cfg.calls[p].Single? { ConsumeKeeps(cfg, s, p); } else { BeginKeeps(cfg, s, p); }
      case Opened => OpenedKeeps(cfg, s, p);
      case Advised => LookupKeeps(cfg, s, p);
      case Answering(_) => AnswerKeeps(cfg, s, p);
      case Scanning(i, inserted, _, _) =>
        if i == |Plan(cfg, p)| { VerdictKeeps(cfg, s, p); }
        else if inserted { SelectKeeps(cfg, s, p, Plan(cfg, p)[i].row); }
        else { InsertKeeps(cfg, s, p, Plan(cfg, p)[i].row); }
      case Writing(j, _) => if j < |Plan(cfg, p)| { UpdateKeeps(cfg, s, p); } else { FinishWritingKeeps(cfg, s, p); }
      case Committing(_) => CommitKeeps(cfg, s, p);
    }
  }

  /** Losing the answer to a decision changes nothing that is stored. */
  lemma UnansweredKeeps(cfg: Config, s: State, p: nat)
    requires p < |s.procs| == |cfg.calls| && Inv(cfg, s) && s.procs[p].Finished?
    ensures Inv(cfg, Unanswered(s, p))
  {
    hide LiveCall, DistinctRows, ChargesOf, Plan, LogOk;
    var s' := Unanswered(s, p);
    LogOnly(s, s');
  }

  lemma ApplyKeeps(cfg: Config, s: State, action: Action)
    requires |s.procs| == |cfg.calls| && WellFormed(cfg) && Inv(cfg, s) && Enabled(cfg, s, action)
    ensures |Apply(cfg, s, action).procs| == |cfg.calls| && Inv(cfg, Apply(cfg, s, action))
  {
    match action {
      case Step(p) => StepKeeps(cfg, s, p);
      case Fail(p) => AbandonKeeps(cfg, s, p);
      case LoseAnswer(p) =>
        StepKeeps(cfg, s, p);
        UnansweredKeeps(cfg, StepOf(cfg, s, p), p);
      case SweepCounters(cutoff, rows) =>
        SweepKeeps(cfg, s, cutoff, rows, {});
        assert s.tables.receipts - {} == s.tables.receipts;
      case SweepReceipts(cutoff, rows) =>
        SweepKeeps(cfg, s, cutoff, {}, rows);
        assert s.tables.used - {} == s.tables.used;
    }
  }

  lemma InitKeeps(cfg: Config)
    ensures Inv(cfg, Init(cfg))
  {
  }

  /** Every reachable state of the interleaved store satisfies the invariant. */
  lemma {:induction false} ReachableInv(cfg: Config, actions: seq<Action>, s: State)
    requires WellFormed(cfg) && Reaches(cfg, actions, s)
    ensures |s.procs| == |cfg.calls| && Inv(cfg, s)
    decreases |actions|
  {
    if actions == [] {
      InitKeeps(cfg);
    } else {
      var before :| LeadsTo(cfg, actions, before, s);
      ReachableInv(cfg, actions[..|actions| - 1], before);
      ApplyKeeps(cfg, before, actions[|actions| - 1]);
    }
  }
}
