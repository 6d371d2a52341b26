/**
 * What callers of the durable store may rely on over every interleaving, and where it parts from the sequential
 * store.
 */
module PostgresTheorems {
  import opened Text
  import opened CounterStore
  import opened CounterLedger
  import opened Retention
  import opened NormalizedBatch
  import opened PostgresStore
  import opened PostgresInvariant
  import opened PostgresSteps

  // ----- Serializability ----------------------------------------------------------------------------------

  /**
   * Every interleaving is the sequential store run in decision order: each decided call appears there once, with the
   * outcome the sequential store gives at that point, and the tables are the sequential ones on every day not swept.
   */
  lemma Serializable(cfg: Config, actions: seq<Action>, s: State)
    requires WellFormed(cfg) && Reaches(cfg, actions, s)
    ensures |s.procs| == |cfg.calls| && |s.order| == |s.log|
    ensures forall i :: 0 <= i < |s.log| ==>
              && s.order[i] < |s.procs| && s.log[i].call == cfg.calls[s.order[i]]
              && s.procs[s.order[i]].Finished? && s.procs[s.order[i]].outcome == s.log[i].outcome
              && SameOutcome(s.log[i].outcome, Perform(LedgerAfter(s.log[..i]), s.log[i].call).1)
    ensures forall i, j :: 0 <= i < j < |s.order| ==> s.order[i] != s.order[j]
    ensures forall p :: 0 <= p < |s.procs| && s.procs[p].Finished? ==>
              p in s.order || (s.procs[p].outcome == DuplicateRows && !DistinctRows(ChargesOf(cfg.calls[p])))
    ensures AgreeLive(s.tables, LedgerAfter(s.log), s.cutoffs)
    ensures s.cutoffs == {} ==> s.tables == LedgerAfter(s.log)
  {
    ReachableInv(cfg, actions, s);
    hide ProcsOk, LocksOk, LiveOk, Perform;
    if s.cutoffs == {} { AgreeEverywhere(s.tables, LedgerAfter(s.log)); }
  }

  lemma AgreeEverywhere(a: Ledger, b: Ledger)
    requires AgreeLive(a, b, {})
    ensures a == b
  {
    forall row: Row
      ensures row in a.used <==> row in b.used
      ensures row in a.used ==> a.used[row] == b.used[row]
      ensures row in a.receipts <==> row in b.receipts
      ensures row in a.receipts ==> a.receipts[row] == b.receipts[row]
    {
      assert Live(row.day, {});
    }
    assert a.used == b.used && a.receipts == b.receipts;
  }

  lemma {:induction false} SameRunSameState(cfg: Config, actions: seq<Action>, a: State, b: State)
    requires Reaches(cfg, actions, a) && Reaches(cfg, actions, b)
    ensures a == b
    decreases |actions|
  {
    if actions != [] {
      var x :| LeadsTo(cfg, actions, x, a);
      var y :| LeadsTo(cfg, actions, y, b);
      SameRunSameState(cfg, actions[..|actions| - 1], x, y);
    }
  }

  lemma StepGrows(cfg: Config, s: State, p: nat)
    requires p < |s.procs| == |cfg.calls| && CanStep(cfg, s, p)
    ensures s.order <= StepOf(cfg, s, p).order && s.log <= StepOf(cfg, s, p).log
    ensures |StepOf(cfg, s, p).log| <= |s.log| + 1
  {
    hide Plan, DistinctRows, ExhaustedBy, Visible, Current, Release, Admits, FreeFor, CanTouch, CanInsert, CanConsume;
  }

  /** Every action leaves the decisions made so far in place and adds at most one. */
  lemma ApplyGrows(cfg: Config, s: State, action: Action)
    requires |s.procs| == |cfg.calls| && Enabled(cfg, s, action)
    ensures s.order <= Apply(cfg, s, action).order && s.log <= Apply(cfg, s, action).log
    ensures |Apply(cfg, s, action).log| <= |s.log| + 1
  {
    hide StepOf, CanStep, SweepAllowed, Behind;
    if action.Step? || action.LoseAnswer? { StepGrows(cfg, s, action.p); }
  }

  /** Decisions are never reordered: a call decided by some point precedes every call decided after it. */
  lemma {:induction false} DecisionsKeepOrder(cfg: Config, first: seq<Action>, rest: seq<Action>, early: State,
                                              late: State)
    requires Reaches(cfg, first, early) && Reaches(cfg, first + rest, late)
    ensures early.order <= late.order && early.log <= late.log
    decreases |rest|
  {
    if rest == [] {
      assert first + rest == first;
      SameRunSameState(cfg, first, early, late);
    } else {
      var all, n := first + rest, |rest| - 1;
      assert all[..|all| - 1] == first + rest[..n];
      var before :| LeadsTo(cfg, all, before, late);
      DecisionsKeepOrder(cfg, first, rest[..n], early, before);
      ApplyGrows(cfg, before, all[|all| - 1]);
    }
  }

  // ----- Conservation and ceiling ---------------------------------------------------------------------------

  /** In every reachable state a live row holds exactly what its accepted requests charged. */
  lemma RowsConserved(cfg: Config, actions: seq<Action>, s: State, row: Row)
    requires WellFormed(cfg) && Reaches(cfg, actions, s) && Live(row.day, s.cutoffs)
    ensures Usage(s.tables.used, row) == TotalCharged(s.log, row)
  {
    ReachableInv(cfg, actions, s);
    hide ProcsOk, LocksOk, LiveOk, OrderOk;
    Conservation(s.log, row);
    assert SameAt(s.tables.used, LedgerAfter(s.log).used, row);
  }

  lemma PerformGrows(ledger: Ledger, call: Call, row: Row)
    ensures Usage(ledger.used, row) <= Usage(Perform(ledger, call).0.used, row)
  {
    hide Perform, Charged;
    PerformCharges(ledger, call, row);
  }

  lemma LogGrows(before: seq<Entry>, after: seq<Entry>, row: Row)
    requires before <= after && |after| <= |before| + 1
    ensures Usage(LedgerAfter(before).used, row) <= Usage(LedgerAfter(after).used, row)
  {
    hide Perform;
    if |after| > |before| {
      assert after[..|after| - 1] == before;
      PerformGrows(LedgerAfter(before), after[|after| - 1].call, row);
    } else {
      assert after == before;
    }
  }

  /** A step writes only rows of its own call, all of them on live days. */
  lemma DeadRowsUntouched(cfg: Config, s: State, p: nat, row: Row)
    requires p < |s.procs| == |cfg.calls| && Inv(cfg, s) && CanStep(cfg, s, p) && !Live(row.day, s.cutoffs)
    ensures Usage(StepOf(cfg, s, p).tables.used, row) == Usage(s.tables.used, row)
  {
    hide LocksOk, LogOk, OrderOk, DistinctRows, ScanOk, Live, Admits, ExhaustedBy, HasRow, Plan, Behind;
    OwnProcOk(cfg, s, p);
    assert LiveCall(cfg.calls[p], s.cutoffs);
    if HasRow(Plan(cfg, p), row) { PlanRowLive(cfg, p, s.cutoffs, row); }
    if cfg.calls[p].Single? { assert ChargesOf(cfg.calls[p])[0] == cfg.calls[p].charge; }
  }

  /** The table never holds more on a row than the sequential store would, swept or not. */
  lemma {:induction false} NeverAboveSequential(cfg: Config, actions: seq<Action>, s: State, row: Row)
    requires WellFormed(cfg) && Reaches(cfg, actions, s)
    ensures Usage(s.tables.used, row) <= Usage(LedgerAfter(s.log).used, row)
    decreases |actions|
  {
    hide ProcsOk, LocksOk, LiveOk, OrderOk, Live, LedgerAfter, CanStep, StepOf, Faithful;
    ReachableInv(cfg, actions, s);
    if Live(row.day, s.cutoffs) {
      assert SameAt(s.tables.used, LedgerAfter(s.log).used, row);
    } else if actions != [] {
      var last := |actions| - 1;
      var before :| LeadsTo(cfg, actions, before, s);
      ReachableInv(cfg, actions[..last], before);
      NeverAboveSequential(cfg, actions[..last], before, row);
      ApplyGrows(cfg, before, actions[last]);
      LogGrows(before.log, s.log, row);
      DeadUsageFalls(cfg, before, actions[last], row);
    }
  }

  lemma DeadUsageFalls(cfg: Config, s: State, action: Action, row: Row)
    requires |s.procs| == |cfg.calls| && Inv(cfg, s) && Enabled(cfg, s, action)
    requires !Live(row.day, Apply(cfg, s, action).cutoffs)
    ensures Usage(Apply(cfg, s, action).tables.used, row) <= Usage(s.tables.used, row)
  {
    hide Inv, CanStep, StepOf, Live, SweepAllowed, Behind;
    if action.Step? || action.LoseAnswer? {
      StepKeepsCutoffs(cfg, s, action.p);
      DeadRowsUntouched(cfg, s, action.p, row);
    }
  }

  lemma StepKeepsCutoffs(cfg: Config, s: State, p: nat)
    requires p < |s.procs| == |cfg.calls| && CanStep(cfg, s, p)
    ensures StepOf(cfg, s, p).cutoffs == s.cutoffs
  {
    hide Plan, DistinctRows, ExhaustedBy, Visible, Current, Release, Admits;
  }

  /**
   * No interleaving of single and batch consumers, with sweeps, takes any row past the limit all its requests
   * carry.
   */
  lemma RowsBounded(cfg: Config, actions: seq<Action>, s: State, row: Row, limit: nat)
    requires WellFormed(cfg) && Reaches(cfg, actions, s)
    requires forall p :: 0 <= p < |cfg.calls| ==> CarriesLimit(cfg.calls[p], row, limit)
    ensures Usage(s.tables.used, row) <= limit
  {
    ReachableInv(cfg, actions, s);
    hide ProcsOk, LocksOk, LiveOk, CarriesLimit;
    forall i | 0 <= i < |s.log|
      ensures CarriesLimit(s.log[i].call, row, limit)
    {
      assert s.log[i].call == cfg.calls[s.order[i]];
    }
    Ceiling(s.log, row, limit);
    NeverAboveSequential(cfg, actions, s, row);
  }

  /**
   * A sweep deletes, from one table, exactly the rows it selected, all of them behind its cutoff. Every other row, the
   * other table, every call under way, every lock and the record of decisions stay as they were.
   */
  lemma SweepIsExact(cfg: Config, s: State, cutoff: string, rows: set<Row>, key: Row)
    requires |s.procs| == |cfg.calls| && Enabled(cfg, s, SweepCounters(cutoff, rows))
    ensures key in rows ==> LexLess(key.day, cutoff)
    ensures var swept := Apply(cfg, s, SweepCounters(cutoff, rows));
            && swept.tables.receipts == s.tables.receipts && OnlyTables(s, swept)
            && (key in swept.tables.used <==> key in s.tables.used && key !in rows)
            && (key in swept.tables.used ==> swept.tables.used[key] == s.tables.used[key])
    ensures var swept := Apply(cfg, s, SweepReceipts(cutoff, rows));
            && swept.tables.used == s.tables.used && OnlyTables(s, swept)
            && (key in swept.tables.receipts <==> key in s.tables.receipts && key !in rows)
            && (key in swept.tables.receipts ==> swept.tables.receipts[key] == s.tables.receipts[key])
  {
    hide SweepAllowed;
    assert Enabled(cfg, s, SweepReceipts(cutoff, rows));
    assert Behind(rows, cutoff);
  }

  predicate OnlyTables(before: State, after: State) {
    && after.procs == before.procs && after.locks == before.locks
    && after.log == before.log && after.order == before.order
  }

  // ----- Exactly once ---------------------------------------------------------------------------------------

  /** Where a decided call stands in the decision order. */
  lemma PlaceOf(cfg: Config, actions: seq<Action>, s: State, p: nat) returns (i: nat)
    requires WellFormed(cfg) && Reaches(cfg, actions, s)
    requires p < |s.procs| && s.procs[p].Finished? && s.procs[p].outcome != DuplicateRows
    ensures i < |s.log| == |s.order| && s.order[i] == p && |s.procs| == |cfg.calls|
    ensures s.log[i] == Entry(cfg.calls[p], s.procs[p].outcome)
  {
    Serializable(cfg, actions, s);
    i :| 0 <= i < |s.order| && s.order[i] == p;
  }

  /**
   * Of all concurrent calls for one attempt on one day, only one is ever consumed. Any other was refused before it,
   * or is replayed or in conflict after it, by its fingerprint alone.
   */
  lemma ChargedExactlyOnce(cfg: Config, actions: seq<Action>, s: State, p: nat, q: nat)
    requires WellFormed(cfg) && Reaches(cfg, actions, s)
    requires p < |cfg.calls| && q < |cfg.calls| && p != q && |s.procs| == |cfg.calls|
    requires cfg.calls[p].Once? && cfg.calls[q].Once? && cfg.calls[p].receipt == cfg.calls[q].receipt
    requires s.procs[p].Finished? && s.procs[p].outcome == Consumed
    requires s.procs[q].Finished? && s.procs[q].outcome != DuplicateRows
    ensures s.procs[q].outcome.Refused?
         || s.procs[q].outcome == if cfg.calls[q].fingerprint == cfg.calls[p].fingerprint then Replayed else Conflict
  {
    Serializable(cfg, actions, s);
    var i := PlaceOf(cfg, actions, s, p);
    var j := PlaceOf(cfg, actions, s, q);
    assert Faithful(s.log);
    if i < j {
      ConsumedOnce(s.log, cfg.calls[p].receipt, i, j);
    } else {
      BeforeConsumed(s.log, cfg.calls[p].receipt, j, i);
    }
  }

  /**
   * What receipts are for: once an attempt's charge is committed, its caller told or not, a retry still undecided then
   * is replayed (or in conflict, by its fingerprint), and no call of that attempt is ever charged again.
   */
  lemma LostAnswerIsReplayed(cfg: Config, first: seq<Action>, rest: seq<Action>, early: State, late: State, p: nat,
                             q: nat)
    requires WellFormed(cfg) && Reaches(cfg, first, early) && Reaches(cfg, first + rest, late)
    requires p < |cfg.calls| && q < |cfg.calls| && |early.procs| == |late.procs| == |cfg.calls|
    requires cfg.calls[p].Once? && cfg.calls[q].Once? && cfg.calls[p].receipt == cfg.calls[q].receipt
    requires early.procs[p].Finished? && early.procs[p].outcome == Consumed
    requires !early.procs[q].Finished? && late.procs[q].Finished? && late.procs[q].outcome != DuplicateRows
    ensures late.procs[q].outcome == if cfg.calls[q].fingerprint == cfg.calls[p].fingerprint then Replayed else Conflict
    ensures |late.order| == |late.log|
    ensures forall i :: ConsumedAt(late.log, i, cfg.calls[p].receipt) ==> late.order[i] == p
  {
    hide Reaches, Perform, WellFormed, DistinctRows, ChargesOf;
    var receipt := cfg.calls[p].receipt;
    Serializable(cfg, first, early);
    Serializable(cfg, first + rest, late);
    DecisionsKeepOrder(cfg, first, rest, early, late);
    var i := PlaceOf(cfg, first, early, p);
    var j := PlaceOf(cfg, first + rest, late, q);
    assert late.order[i] == p && late.log[i] == early.log[i];
    assert q !in early.order;
    PlacedLater(early.order, late.order, j, q);
    assert Faithful(late.log) by { LateFaithful(cfg, first + rest, late); }
    ConsumedOnce(late.log, receipt, i, j);
    forall k | ConsumedAt(late.log, k, receipt) ensures late.order[k] == p {
      if k < i { ConsumedOnce(late.log, receipt, k, i); } else if i < k { ConsumedOnce(late.log, receipt, i, k); }
    }
  }

  lemma PlacedLater(early: seq<nat>, late: seq<nat>, j: nat, q: nat)
    requires early <= late && j < |late| && late[j] == q && q !in early
    ensures |early| <= j
  {
  }

  lemma LateFaithful(cfg: Config, actions: seq<Action>, s: State)
    requires WellFormed(cfg) && Reaches(cfg, actions, s)
    ensures Faithful(s.log)
  {
    hide ProcsOk, LocksOk, LiveOk, OrderOk, Reaches;
    ReachableInv(cfg, actions, s);
  }

  /** Every attempt decided before the consumed one was refused, or rejected for naming a row twice. */
  lemma BeforeConsumed(log: seq<Entry>, receipt: Row, j: nat, i: nat)
    requires Faithful(log) && j < i < |log|
    requires IsAttempt(log[i], receipt) && IsAttempt(log[j], receipt) && log[i].outcome == Consumed
    ensures log[j].outcome.Refused? || log[j].outcome == DuplicateRows
  {
    hide Perform;
    OnceOutcome(LedgerAfter(log[..j]), log[j].call);
    if log[j].outcome == Consumed {
      ConsumedOnce(log, receipt, j, i);
    } else if log[j].outcome == Replayed || log[j].outcome == Conflict {
      var k := ReplayHasOrigin(log, receipt, j);
      ConsumedOnce(log, receipt, k, i);
    }
  }

  lemma OnceOutcome(ledger: Ledger, call: Call)
    requires call.Once?
    ensures var outcome := Perform(ledger, call).1;
            outcome in {Consumed, Replayed, Conflict, DuplicateRows} || outcome.Refused?
  {
  }

  /** The receipt insert never meets a receipt: the advisory lock covers the look-up and the insert. */
  lemma ReceiptInsertSucceeds(cfg: Config, actions: seq<Action>, s: State, p: nat)
    requires WellFormed(cfg) && Reaches(cfg, actions, s) && |s.procs| == |cfg.calls|
    requires p < |s.procs| && s.procs[p].Writing? && cfg.calls[p].Once?
    ensures cfg.calls[p].receipt !in s.tables.receipts
    ensures OnReceipt(cfg.calls[p].receipt) !in s.locks
  {
    ReachableInv(cfg, actions, s);
    hide LiveOk, LogOk, OrderOk, ScanOk, WriteOk;
    OwnProcOk(cfg, s, p);
    ReceiptFreeForWriter(cfg, s, p);
  }

  /** A receipt is locked only under its advisory lock. */
  lemma ReceiptUnderAdvisory(cfg: Config, q: nat, proc: Proc, row: Row)
    requires q < |cfg.calls| && Holds(cfg, q, proc, OnReceipt(row))
    ensures cfg.calls[q].Once? && proc.Committing? && Holds(cfg, q, proc, Advisory(cfg.hash(row)))
  {
  }

  lemma WriterAdvised(cfg: Config, p: nat, proc: Proc)
    requires p < |cfg.calls| && proc.Writing? && cfg.calls[p].Once?
    ensures Holds(cfg, p, proc, Advisory(cfg.hash(cfg.calls[p].receipt)))
  {
  }

  lemma LockHeld(cfg: Config, s: State, q: nat, lock: Lock)
    requires q < |s.procs| == |cfg.calls| && Inv(cfg, s)
    ensures Holds(cfg, q, s.procs[q], lock) <==> lock in s.locks && s.locks[lock] == q
    ensures lock in s.locks ==> s.locks[lock] < |s.procs|
  {
    hide ProcsOk, LiveOk, LogOk, OrderOk, Holds;
  }

  lemma ReceiptFreeForWriter(cfg: Config, s: State, p: nat)
    requires p < |s.procs| == |cfg.calls| && Inv(cfg, s) && s.procs[p].Writing? && cfg.calls[p].Once?
    ensures OnReceipt(cfg.calls[p].receipt) !in s.locks
  {
    hide Inv, Holds;
    var row := cfg.calls[p].receipt;
    WriterAdvised(cfg, p, s.procs[p]);
    LockHeld(cfg, s, p, Advisory(cfg.hash(row)));
    LockHeld(cfg, s, p, OnReceipt(row));
    if OnReceipt(row) in s.locks {
      var q := s.locks[OnReceipt(row)];
      LockHeld(cfg, s, q, OnReceipt(row));
      LockHeld(cfg, s, q, Advisory(cfg.hash(row)));
      ReceiptUnderAdvisory(cfg, q, s.procs[q], row);
    }
  }

  // ----- No deadlock ------------------------------------------------------------------------------------------

  predicate Blocked(cfg: Config, s: State, p: nat)
    requires p < |s.procs| == |cfg.calls|
  {
    !Over(s.procs[p]) && !CanStep(cfg, s, p)
  }

  /** A blocked scanner waits for the row of its current entry. */
  predicate WaitsOnRow(cfg: Config, s: State, p: nat)
    requires p < |s.procs| == |cfg.calls|
  {
    Blocked(cfg, s, p) && s.procs[p].Scanning? && s.procs[p].i < |Plan(cfg, p)|
  }

  function WaitRow(cfg: Config, s: State, p: nat): Row
    requires p < |s.procs| == |cfg.calls| && WaitsOnRow(cfg, s, p)
  {
    Plan(cfg, p)[s.procs[p].i].row
  }

  /** Anyone waiting for a lock waits for a process in the middle of a transaction. */
  lemma LockOwner(cfg: Config, s: State, p: nat, lock: Lock) returns (q: nat)
    requires p < |s.procs| == |cfg.calls| && Inv(cfg, s) && !FreeFor(s, lock, p)
    ensures q < |s.procs| && q != p && lock in s.locks && s.locks[lock] == q
    ensures Holds(cfg, q, s.procs[q], lock) && InTransaction(s.procs[q])
  {
    hide ProcOk, LiveOk, LogOk, OrderOk, Plan;
    q := s.locks[lock];
    assert Holds(cfg, q, s.procs[q], lock);
  }

  /** A process that has begun writing never waits. */
  lemma WritersNeverWait(cfg: Config, s: State, p: nat)
    requires p < |s.procs| == |cfg.calls| && Inv(cfg, s)
    ensures s.procs[p].Writing? ==> CanStep(cfg, s, p)
  {
    hide LiveOk, LogOk, OrderOk, ScanOk, Plan, DistinctRows;
    OwnProcOk(cfg, s, p);
    var proc, plan := s.procs[p], Plan(cfg, p);
    if proc.Writing? && proc.j < |plan| {
      PrefixRow(plan, |plan|, proc.j);
      assert Holds(cfg, p, proc, OnRow(plan[proc.j].row));
    } else if proc.Writing? && cfg.calls[p].Once? {
      ReceiptFreeForWriter(cfg, s, p);
    }
  }

  /** A process past the advisory lock can be blocked only on the row it is scanning. */
  lemma OnlyScannersBlock(cfg: Config, s: State, p: nat)
    requires p < |s.procs| == |cfg.calls| && Inv(cfg, s) && InTransaction(s.procs[p]) && Blocked(cfg, s, p)
    ensures WaitsOnRow(cfg, s, p)
  {
    hide Inv, Plan, DistinctRows;
    PlacedWell(cfg, s, p);
    WritersNeverWait(cfg, s, p);
  }

  /** If everyone unfinished is blocked, someone is waiting on a row. */
  lemma SomeoneWaitsOnRow(cfg: Config, s: State, p: nat) returns (q: nat)
    requires p < |s.procs| == |cfg.calls| && Inv(cfg, s) && !Over(s.procs[p])
    requires forall r :: 0 <= r < |s.procs| && !Over(s.procs[r]) ==> Blocked(cfg, s, r)
    ensures q < |s.procs| && WaitsOnRow(cfg, s, q)
  {
    hide Inv, Plan, Holds;
    PlacedWell(cfg, s, p);
    if InTransaction(s.procs[p]) {
      q := p;
    } else {
      var lock := if s.procs[p].Idle? then OnRow(cfg.calls[p].charge.row) else AdvisoryLock(cfg, p);
      q := LockOwner(cfg, s, p, lock);
    }
    OnlyScannersBlock(cfg, s, q);
  }

  /** Whoever holds the row a scanner waits for is itself waiting for a later row. */
  lemma OwnerWaitsLater(cfg: Config, s: State, p: nat) returns (q: nat)
    requires p < |s.procs| == |cfg.calls| && WellFormed(cfg) && Inv(cfg, s) && WaitsOnRow(cfg, s, p)
    requires forall r :: 0 <= r < |s.procs| && !Over(s.procs[r]) ==> Blocked(cfg, s, r)
    ensures q < |s.procs| && WaitsOnRow(cfg, s, q) && cfg.before(WaitRow(cfg, s, p), WaitRow(cfg, s, q))
  {
    hide Inv, ProcOk, ScanOk, WriteOk, Plan, DistinctRows;
    var row := WaitRow(cfg, s, p);
    PlacedWell(cfg, s, p);
    assert !FreeFor(s, OnRow(row), p);
    q := LockOwner(cfg, s, p, OnRow(row));
    OnlyScannersBlock(cfg, s, q);
    PlacedWell(cfg, s, q);
    var proc, plan := s.procs[q], Plan(cfg, q);
    assert proc.inserted ==> plan[proc.i].row != row;
    var k :| 0 <= k < proc.i && plan[..proc.i][k].row == row;
    PlanAscends(cfg, q, k, proc.i);
  }

  lemma PlacedWell(cfg: Config, s: State, p: nat)
    requires p < |s.procs| == |cfg.calls| && Inv(cfg, s)
    ensures WellPlaced(cfg, p, s.procs[p])
    ensures InTransaction(s.procs[p]) ==> DistinctRows(Plan(cfg, p))
  {
    OwnProcOk(cfg, s, p);
  }

  lemma PlanAscends(cfg: Config, p: nat, i: nat, j: nat)
    requires p < |cfg.calls| && WellFormed(cfg) && DistinctRows(Plan(cfg, p)) && i < j < |Plan(cfg, p)|
    ensures cfg.before(Plan(cfg, p)[i].row, Plan(cfg, p)[j].row)
  {
    SortAscending(ChargesOf(cfg.calls[p]), cfg.before);
  }

  ghost function WaitingAfter(cfg: Config, s: State, row: Row): set<nat>
    requires |s.procs| == |cfg.calls|
  {
    set q: nat | q < |s.procs| && WaitsOnRow(cfg, s, q) && cfg.before(row, WaitRow(cfg, s, q))
  }

  /** Waits climb the row order, so they cannot go on for ever. */
  lemma {:induction false} WaitsCannotClimb(cfg: Config, s: State, p: nat)
    requires p < |s.procs| == |cfg.calls| && WellFormed(cfg) && Inv(cfg, s) && WaitsOnRow(cfg, s, p)
    requires forall r :: 0 <= r < |s.procs| && !Over(s.procs[r]) ==> Blocked(cfg, s, r)
    ensures false
    decreases |WaitingAfter(cfg, s, WaitRow(cfg, s, p))|
  {
    hide Inv, WaitsOnRow, WaitRow, Blocked;
    var q := OwnerWaitsLater(cfg, s, p);
    var mine, theirs := WaitingAfter(cfg, s, WaitRow(cfg, s, p)), WaitingAfter(cfg, s, WaitRow(cfg, s, q));
    assert theirs <= mine && q in mine && q !in theirs;
    SmallerSet(theirs, mine);
    WaitsCannotClimb(cfg, s, q);
  }

  lemma SmallerSet(a: set<nat>, b: set<nat>)
    requires a < b
    ensures |a| < |b|
  {
    assert |b| == |a| + |b - a| by { assert b == a + (b - a); }
  }

  /** No reachable state is deadlocked: while a call is unfinished, some call can take its next step. */
  lemma NeverDeadlocked(cfg: Config, actions: seq<Action>, s: State)
    requires WellFormed(cfg) && Reaches(cfg, actions, s) && |s.procs| == |cfg.calls|
    requires exists p :: 0 <= p < |s.procs| && !Over(s.procs[p])
    ensures exists p :: 0 <= p < |s.procs| && Enabled(cfg, s, Step(p))
  {
    ReachableInv(cfg, actions, s);
    hide Inv, CanStep;
    var p :| 0 <= p < |s.procs| && !Over(s.procs[p]);
    if forall r :: 0 <= r < |s.procs| ==> !Enabled(cfg, s, Step(r)) {
      forall r | 0 <= r < |s.procs| && !Over(s.procs[r])
        ensures Blocked(cfg, s, r)
      {
        assert !Enabled(cfg, s, Step(r));
      }
      var q := SomeoneWaitsOnRow(cfg, s, p);
      WaitsCannotClimb(cfg, s, q);
    }
  }

  // ----- Every maximal run finishes ---------------------------------------------------------------------------

  /** The statements a process may still send. */
  function Remaining(cfg: Config, p: nat, proc: Proc): nat
    requires p < |cfg.calls| && WellPlaced(cfg, p, proc)
  {
    var n := |Plan(cfg, p)|;
    match proc
    case Idle => 3 * n + 8
    case Opened => 3 * n + 7
    case Advised => 3 * n + 6
    case Answering(_) => 1
    case Scanning(i, inserted, _, _) => 2 * (n - i) + n + 5 - (if inserted then 1 else 0)
    case Writing(j, _) => n - j + 2
    case Committing(_) => 1
    case _ => 0
  }

  lemma ScanDecreases(cfg: Config, s: State, p: nat)
    requires p < |s.procs| == |cfg.calls| && s.procs[p].Scanning? && CanStep(cfg, s, p)
    ensures WellPlaced(cfg, p, StepOf(cfg, s, p).procs[p])
    ensures Remaining(cfg, p, StepOf(cfg, s, p).procs[p]) < Remaining(cfg, p, s.procs[p])
  {
    hide Plan, ExhaustedBy, Visible, Current, Release, CanInsert, CanTouch;
    hide BeginStep, ConsumeStep, LookupStep, UpdateStep, FinishWriting, CommitStep;
  }

  lemma OtherDecreases(cfg: Config, s: State, p: nat)
    requires p < |s.procs| == |cfg.calls| && !s.procs[p].Scanning? && CanStep(cfg, s, p)
    ensures WellPlaced(cfg, p, StepOf(cfg, s, p).procs[p])
    ensures Remaining(cfg, p, StepOf(cfg, s, p).procs[p]) < Remaining(cfg, p, s.procs[p])
  {
    hide Plan, DistinctRows, Visible, Current, Release, Admits;
    hide CanConsume, CanTouch, InsertStep, SelectStep, VerdictStep;
  }

  lemma FailDecreases(cfg: Config, s: State, p: nat)
    requires p < |s.procs| == |cfg.calls| && WellPlaced(cfg, p, s.procs[p]) && !Over(s.procs[p])
    ensures WellPlaced(cfg, p, Abandon(s, p).procs[p])
    ensures Remaining(cfg, p, Abandon(s, p).procs[p]) < Remaining(cfg, p, s.procs[p])
  {
    hide Plan, Release;
  }

  /** The action is a process's: a step, a failure or a lost answer. */
  predicate IsMove(action: Action) {
    action.Step? || action.Fail? || action.LoseAnswer?
  }

  lemma UnansweredRemaining(cfg: Config, s: State, p: nat)
    requires p < |s.procs| == |cfg.calls| && s.procs[p].Finished?
    ensures |Unanswered(s, p).procs| == |s.procs| && WellPlaced(cfg, p, Unanswered(s, p).procs[p])
    ensures Remaining(cfg, p, Unanswered(s, p).procs[p]) == Remaining(cfg, p, s.procs[p])
    ensures forall q :: 0 <= q < |s.procs| && q != p ==> Unanswered(s, p).procs[q] == s.procs[q]
  {
    hide Plan;
  }

  /** Every step of a process, and every failure, leaves it fewer statements to send and the others as they were. */
  lemma StepDecreases(cfg: Config, s: State, action: Action)
    requires |s.procs| == |cfg.calls| && WellFormed(cfg) && Inv(cfg, s) && Enabled(cfg, s, action)
    requires IsMove(action)
    ensures var s' := Apply(cfg, s, action);
            && |s'.procs| == |s.procs| && WellPlaced(cfg, action.p, s'.procs[action.p])
            && WellPlaced(cfg, action.p, s.procs[action.p])
            && Remaining(cfg, action.p, s'.procs[action.p]) < Remaining(cfg, action.p, s.procs[action.p])
            && (forall q :: 0 <= q < |s.procs| && q != action.p ==> s'.procs[q] == s.procs[q])
  {
    hide Inv, Plan, CanStep, StepOf, Remaining, WellPlaced, Abandon, Unanswered;
    PlacedWell(cfg, s, action.p);
    StepLocal(cfg, s, if action.LoseAnswer? then Step(action.p) else action);
    if action.LoseAnswer? { UnansweredRemaining(cfg, StepOf(cfg, s, action.p), action.p); }
    if action.Fail? { FailDecreases(cfg, s, action.p); }
    else if s.procs[action.p].Scanning? { ScanDecreases(cfg, s, action.p); }
    else { OtherDecreases(cfg, s, action.p); }
  }

  lemma StepLocal(cfg: Config, s: State, action: Action)
    requires |s.procs| == |cfg.calls| && Enabled(cfg, s, action) && (action.Step? || action.Fail?)
    ensures |Apply(cfg, s, action).procs| == |s.procs|
    ensures forall q :: 0 <= q < |s.procs| && q != action.p ==> Apply(cfg, s, action).procs[q] == s.procs[q]
  {
    hide Plan, DistinctRows, ExhaustedBy, Visible, Current, Release, Admits;
  }

  function TotalRemaining(cfg: Config, procs: seq<Proc>): nat
    requires |procs| <= |cfg.calls| && forall p :: 0 <= p < |procs| ==> WellPlaced(cfg, p, procs[p])
  {
    if procs == [] then 0
    else TotalRemaining(cfg, procs[..|procs| - 1]) + Remaining(cfg, |procs| - 1, procs[|procs| - 1])
  }

  lemma {:induction false} LessRemaining(cfg: Config, a: seq<Proc>, b: seq<Proc>, p: nat)
    requires p < |a| == |b| <= |cfg.calls|
    requires forall q :: 0 <= q < |a| ==> WellPlaced(cfg, q, a[q]) && WellPlaced(cfg, q, b[q])
    requires Remaining(cfg, p, b[p]) < Remaining(cfg, p, a[p])
    requires forall q :: 0 <= q < |a| && q != p ==> a[q] == b[q]
    ensures TotalRemaining(cfg, b) < TotalRemaining(cfg, a)
  {
    hide Remaining, WellPlaced;
    var n := |a| - 1;
    if p == n {
      assert a[..n] == b[..n];
    } else {
      LessRemaining(cfg, a[..n], b[..n], p);
    }
  }

  lemma ProcsPlaced(cfg: Config, s: State)
    requires |s.procs| == |cfg.calls| && Inv(cfg, s)
    ensures forall p :: 0 <= p < |s.procs| ==> WellPlaced(cfg, p, s.procs[p])
  {
    hide Inv, WellPlaced;
    forall p | 0 <= p < |s.procs|
      ensures WellPlaced(cfg, p, s.procs[p])
    {
      PlacedWell(cfg, s, p);
    }
  }

  /** How many process actions a run contains. */
  function Moves(actions: seq<Action>): nat {
    if actions == [] then 0
    else
      var last := actions[|actions| - 1];
      Moves(actions[..|actions| - 1]) + if IsMove(last) then 1 else 0
  }

  /**
   * Every run is short: its steps, plus what all processes have left, never exceed what they had at the start. With
   * `NeverDeadlocked`, a run that cannot be extended by a step has finished every call.
   */
  lemma {:induction false} RunsAreBounded(cfg: Config, actions: seq<Action>, s: State)
    requires WellFormed(cfg) && Reaches(cfg, actions, s)
    ensures |s.procs| == |cfg.calls| && forall p :: 0 <= p < |s.procs| ==> WellPlaced(cfg, p, s.procs[p])
    ensures Moves(actions) + TotalRemaining(cfg, s.procs) <= TotalRemaining(cfg, Init(cfg).procs)
    decreases |actions|
  {
    hide Inv, WellFormed, WellPlaced, Remaining, Enabled, Apply;
    ReachableInv(cfg, actions, s);
    ProcsPlaced(cfg, s);
    if actions != [] {
      var init := actions[..|actions| - 1];
      var before :| LeadsTo(cfg, actions, before, s);
      RunsAreBounded(cfg, init, before);
      ReachableInv(cfg, init, before);
      ActionDecreases(cfg, before, actions[|actions| - 1]);
    }
  }

  lemma ActionDecreases(cfg: Config, s: State, action: Action)
    requires |s.procs| == |cfg.calls| && WellFormed(cfg) && Inv(cfg, s) && Enabled(cfg, s, action)
    ensures var s' := Apply(cfg, s, action);
            && |s'.procs| == |s.procs|
            && (forall p :: 0 <= p < |s.procs| ==> WellPlaced(cfg, p, s.procs[p]) && WellPlaced(cfg, p, s'.procs[p]))
            && TotalRemaining(cfg, s'.procs) + (if IsMove(action) then 1 else 0)
            <= TotalRemaining(cfg, s.procs)
  {
    hide Inv, WellFormed, WellPlaced, Remaining, CanStep, StepOf, TotalRemaining;
    ApplyKeeps(cfg, s, action);
    ProcsPlaced(cfg, s);
    ProcsPlaced(cfg, Apply(cfg, s, action));
    if IsMove(action) {
      StepDecreases(cfg, s, action);
      LessRemaining(cfg, s.procs, Apply(cfg, s, action).procs, action.p);
    }
  }

  // ----- Where the two stores differ ---------------------------------------------------------------------------

  /**
   * A single consume decides as the sequential store for every usage exactly when its limit is positive or below its
   * amount; for a zero amount against a zero limit the durable store denies and the sequential one admits.
   */
  lemma SingleParity(charge: Charge)
    ensures Settled(charge)
       <==> forall used: map<Row, nat> :: Admits(used, charge) <==> Consume(Ledger(used, map[]), charge).1.Admitted?
  {
    if !Settled(charge) {
      var used: map<Row, nat> := map[];
      assert !Admits(used, charge) && Consume(Ledger(used, map[]), charge).1.Admitted?;
    }
  }

  /**
   * Duplicate rows are rejected by the durable store before the receipt is read, by the sequential one only after: the
   * two agree exactly when the rows are distinct or no receipt is held.
   */
  lemma DuplicateParity(cfg: Config, s: State, p: nat)
    requires p < |s.procs| == |cfg.calls| && cfg.calls[p].Once?
    ensures var early := BeginStep(cfg, s, p).procs[p] == Finished(DuplicateRows, true);
            var sequential := Perform(s.tables, cfg.calls[p]).1 == DuplicateRows;
            (early <==> sequential)
            <==> DistinctRows(cfg.calls[p].charges) || cfg.calls[p].receipt !in s.tables.receipts
  {
    hide Plan;
    PlanDistinct(cfg, p);
    assert ChargesOf(cfg.calls[p]) == cfg.calls[p].charges;
  }
}
