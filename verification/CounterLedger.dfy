/**
 * The sequential meaning of the counter store: what each operation does to usage and receipts, and the laws
 * that hold over every run of operations taken one at a time.
 */
module CounterLedger {
  import opened Text
  import opened CounterStore

  datatype ExhaustedCounter = ExhaustedCounter(key: string, limit: int, resetAt: int)

  /** One request resolved to its row, with the notice to report should it not fit. */
  datatype Charge = Charge(row: Row, amount: nat, limit: int, notice: ExhaustedCounter)

  /** An absent row means no usage. Receipts map an attempt's row to its fingerprint. */
  datatype Ledger = Ledger(used: map<Row, nat>, receipts: map<Row, string>)

  const EMPTY := Ledger(map[], map[])

  /** `consume`, `consumeAll` and `consumeAllOnce` after their requests are resolved to rows. */
  datatype Call =
    | Single(charge: Charge)
    | Batch(charges: seq<Charge>)
    | Once(charges: seq<Charge>, receipt: Row, fingerprint: string)

  datatype Outcome =
    | Admitted(used: nat)
    | Denied
    | Spent
    | Unspent
    | Consumed
    | Replayed
    | Conflict
    | Refused(exhausted: seq<ExhaustedCounter>)
    | DuplicateRows

  // ----- Operations -------------------------------------------------------------------------------

  function Usage(used: map<Row, nat>, row: Row): nat {
    if row in used then used[row] else 0
  }

  predicate Overflows(used: map<Row, nat>, charge: Charge) {
    charge.limit <= 0 || Usage(used, charge.row) + charge.amount > charge.limit
  }

  function Exhaustion(used: map<Row, nat>, charges: seq<Charge>): seq<ExhaustedCounter> {
    if charges == [] then []
    else
      var last := charges[|charges| - 1];
      Exhaustion(used, charges[..|charges| - 1]) + if Overflows(used, last) then [last.notice] else []
  }

  function Spend(used: map<Row, nat>, charges: seq<Charge>): map<Row, nat> {
    if charges == [] then used
    else
      var last, before := charges[|charges| - 1], Spend(used, charges[..|charges| - 1]);
      before[last.row := Usage(before, last.row) + last.amount]
  }

  predicate DistinctRows(charges: seq<Charge>) {
    forall i, j :: 0 <= i < j < |charges| ==> charges[i].row != charges[j].row
  }

  function Consume(ledger: Ledger, charge: Charge): (Ledger, Outcome) {
    var total := Usage(ledger.used, charge.row) + charge.amount;
    if total > charge.limit then (ledger, Denied)
    else (ledger.(used := ledger.used[charge.row := total]), Admitted(total))
  }

  function ConsumeAll(ledger: Ledger, charges: seq<Charge>): (Ledger, Outcome) {
    if !DistinctRows(charges) then (ledger, DuplicateRows)
    else if Exhaustion(ledger.used, charges) != [] then (ledger, Refused(Exhaustion(ledger.used, charges)))
    else (ledger.(used := Spend(ledger.used, charges)), Consumed)
  }

  function ConsumeAllOnce(ledger: Ledger, charges: seq<Charge>, receipt: Row, fingerprint: string): (Ledger, Outcome) {
    if receipt in ledger.receipts then
      (ledger, if ledger.receipts[receipt] == fingerprint then Replayed else Conflict)
    else
      var (next, outcome) := ConsumeAll(ledger, charges);
      if outcome == Consumed then (next.(receipts := next.receipts[receipt := fingerprint]), Consumed)
      else (ledger, outcome)
  }

  /** The rows whose day has not fallen behind the cutoff. */
  function Keep<V>(rows: map<Row, V>, cutoff: string): map<Row, V> {
    map row | row in rows && !LexLess(row.day, cutoff) :: rows[row]
  }

  function Prune(ledger: Ledger, cutoff: string): Ledger {
    Ledger(Keep(ledger.used, cutoff), Keep(ledger.receipts, cutoff))
  }

  function BehindRows<V>(rows: map<Row, V>, cutoff: string): set<Row> {
    set row | row in rows && LexLess(row.day, cutoff)
  }

  /** A sweep deletes the counters and receipts behind the cutoff, all of them and nothing else. */
  lemma PruneIsExact(ledger: Ledger, cutoff: string)
    ensures var next := Prune(ledger, cutoff);
            && (forall row :: row in next.used <==> row in ledger.used && !LexLess(row.day, cutoff))
            && (forall row :: row in next.receipts <==> row in ledger.receipts && !LexLess(row.day, cutoff))
            && (forall row :: row in next.used ==> next.used[row] == ledger.used[row])
            && (forall row :: row in next.receipts ==> next.receipts[row] == ledger.receipts[row])
            && |ledger.used| - |next.used| == |BehindRows(ledger.used, cutoff)|
            && |ledger.receipts| - |next.receipts| == |BehindRows(ledger.receipts, cutoff)|
  {
    hide LexLess;
    KeptAndBehind(ledger.used, cutoff);
    KeptAndBehind(ledger.receipts, cutoff);
  }

  lemma KeptAndBehind<V>(rows: map<Row, V>, cutoff: string)
    ensures |Keep(rows, cutoff)| + |BehindRows(rows, cutoff)| == |rows|
  {
    hide LexLess;
    var kept, behind := Keep(rows, cutoff), BehindRows(rows, cutoff);
    assert kept.Keys + behind == rows.Keys && kept.Keys !! behind;
    assert |kept| == |kept.Keys| && |rows| == |rows.Keys|;
  }

  function ChargesOf(call: Call): seq<Charge> {
    if call.Single? then [call.charge] else call.charges
  }

  function Perform(ledger: Ledger, call: Call): (Ledger, Outcome) {
    match call
    case Single(charge) => Consume(ledger, charge)
    case Batch(charges) =>
      var (next, outcome) := ConsumeAll(ledger, charges);
      (next, if outcome.Refused? then Unspent else if outcome.Consumed? then Spent else outcome)
    case Once(charges, receipt, fingerprint) => ConsumeAllOnce(ledger, charges, receipt, fingerprint)
  }

  // ----- What one batch does ----------------------------------------------------------------------

  /** The amount a batch puts on one row. */
  function Charged(charges: seq<Charge>, row: Row): nat {
    if charges == [] then 0
    else
      var last := charges[|charges| - 1];
      Charged(charges[..|charges| - 1], row) + if last.row == row then last.amount else 0
  }

  lemma {:induction false} SpendAdds(used: map<Row, nat>, charges: seq<Charge>, row: Row)
    ensures Usage(Spend(used, charges), row) == Usage(used, row) + Charged(charges, row)
    ensures row in Spend(used, charges) <==> row in used || exists k :: 0 <= k < |charges| && charges[k].row == row
  {
    if charges != [] {
      var init := charges[..|charges| - 1];
      SpendAdds(used, init, row);
      assert forall k :: 0 <= k < |init| ==> init[k] == charges[k];
      assert (exists k :: 0 <= k < |charges| && charges[k].row == row) <==>
        ((exists k :: 0 <= k < |init| && init[k].row == row) || charges[|init|].row == row);
    }
  }

  lemma {:induction false} ChargedDistinct(charges: seq<Charge>, k: nat)
    requires DistinctRows(charges) && k < |charges|
    ensures Charged(charges, charges[k].row) == charges[k].amount
  {
    var last := |charges| - 1;
    var init := charges[..last];
    if k == last {
      ChargedAbsent(init, charges[k].row);
    } else {
      assert init[k] == charges[k];
      ChargedDistinct(init, k);
    }
  }

  lemma {:induction false} ChargedAbsent(charges: seq<Charge>, row: Row)
    requires forall k :: 0 <= k < |charges| ==> charges[k].row != row
    ensures Charged(charges, row) == 0
  {
    if charges != [] { ChargedAbsent(charges[..|charges| - 1], row); }
  }

  lemma {:induction false} ExhaustionExact(used: map<Row, nat>, charges: seq<Charge>)
    ensures forall n :: n in Exhaustion(used, charges)
              <==> exists k :: 0 <= k < |charges| && Overflows(used, charges[k]) && charges[k].notice == n
  {
    if charges != [] {
      var init := charges[..|charges| - 1];
      ExhaustionExact(used, init);
      assert forall k :: 0 <= k < |init| ==> init[k] == charges[k];
      forall n
        ensures n in Exhaustion(used, charges)
           <==> exists k :: 0 <= k < |charges| && Overflows(used, charges[k]) && charges[k].notice == n
      {
        assert (exists k :: 0 <= k < |charges| && Overflows(used, charges[k]) && charges[k].notice == n) <==>
          ((exists k :: 0 <= k < |init| && Overflows(used, init[k]) && init[k].notice == n)
           || (Overflows(used, charges[|init|]) && charges[|init|].notice == n));
      }
    }
  }

  lemma {:induction false} ExhaustionEmpty(used: map<Row, nat>, charges: seq<Charge>)
    ensures Exhaustion(used, charges) == [] <==> forall k :: 0 <= k < |charges| ==> !Overflows(used, charges[k])
  {
    ExhaustionExact(used, charges);
    if Exhaustion(used, charges) != [] {
      var n := Exhaustion(used, charges)[0];
      assert n in Exhaustion(used, charges);
    }
    forall k | 0 <= k < |charges| && Overflows(used, charges[k])
      ensures Exhaustion(used, charges) != []
    {
      assert charges[k].notice in Exhaustion(used, charges);
    }
  }

  /**
   * All or nothing: a batch of distinct rows is consumed exactly when every charge fits, and then each row gains
   * its own amount and nothing else moves; otherwise nothing moves and the report is exactly the overflowing requests.
   */
  lemma BatchIsAtomic(ledger: Ledger, charges: seq<Charge>)
    requires DistinctRows(charges)
    ensures var (next, outcome) := ConsumeAll(ledger, charges);
            && next.receipts == ledger.receipts
            && (outcome == Consumed <==> forall k :: 0 <= k < |charges| ==> !Overflows(ledger.used, charges[k]))
            && (outcome == Consumed ==>
                  && (forall k :: 0 <= k < |charges| ==>
                        Usage(next.used, charges[k].row) == Usage(ledger.used, charges[k].row) + charges[k].amount)
                  && (forall row :: (forall k :: 0 <= k < |charges| ==> charges[k].row != row)
                        ==> Usage(next.used, row) == Usage(ledger.used, row)))
            && (outcome != Consumed ==>
                  && next == ledger && outcome.Refused?
                  && (forall n :: n in outcome.exhausted
                        <==> exists k :: 0 <= k < |charges| && Overflows(ledger.used, charges[k])
                                         && charges[k].notice == n))
  {
    ExhaustionEmpty(ledger.used, charges);
    ExhaustionExact(ledger.used, charges);
    forall k | 0 <= k < |charges|
      ensures Usage(Spend(ledger.used, charges), charges[k].row)
           == Usage(ledger.used, charges[k].row) + charges[k].amount
    {
      SpendAdds(ledger.used, charges, charges[k].row);
      ChargedDistinct(charges, k);
    }
    forall row | forall k :: 0 <= k < |charges| ==> charges[k].row != row
      ensures Usage(Spend(ledger.used, charges), row) == Usage(ledger.used, row)
    {
      SpendAdds(ledger.used, charges, row);
      ChargedAbsent(charges, row);
    }
  }

  /**
   * A single request decides and charges as a batch of one, except that a batch always refuses a limit of zero or less:
   * the two part exactly when such a limit still has room for the amount.
   */
  lemma SingleIsBatchOfOne(ledger: Ledger, charge: Charge)
    ensures var single, batch := Consume(ledger, charge), ConsumeAll(ledger, [charge]);
            && (single.0 == batch.0 && (single.1.Admitted? <==> batch.1 == Consumed)
                <==> charge.limit > 0 || Usage(ledger.used, charge.row) + charge.amount > charge.limit)
            && (single.1.Admitted? ==> single.1.used == Usage(single.0.used, charge.row))
  {
    assert [charge][..0] == [];
    assert Exhaustion(ledger.used, []) == [] && Spend(ledger.used, []) == ledger.used;
    assert Exhaustion(ledger.used, [charge]) == if Overflows(ledger.used, charge) then [charge.notice] else [];
  }

  // ----- Runs -------------------------------------------------------------------------------------

  datatype Entry = Entry(call: Call, outcome: Outcome)

  /** The same decision; refused counters are compared without regard to their order. */
  predicate SameOutcome(a: Outcome, b: Outcome) {
    if a.Refused? && b.Refused? then multiset(a.exhausted) == multiset(b.exhausted) else a == b
  }

  function LedgerAfter(log: seq<Entry>): Ledger {
    if log == [] then EMPTY
    else Perform(LedgerAfter(log[..|log| - 1]), log[|log| - 1].call).0
  }

  /** Every recorded outcome is the one the sequential store gives at that point. */
  ghost predicate Faithful(log: seq<Entry>) {
    forall i :: 0 <= i < |log| ==> SameOutcome(log[i].outcome, Perform(LedgerAfter(log[..i]), log[i].call).1)
  }

  predicate Accepting(outcome: Outcome) {
    outcome.Admitted? || outcome.Spent? || outcome.Consumed?
  }

  /** The sum, over the accepted calls of a run, of what each put on a row. */
  function TotalCharged(log: seq<Entry>, row: Row): nat {
    if log == [] then 0
    else
      var last := log[|log| - 1];
      TotalCharged(log[..|log| - 1], row) + if Accepting(last.outcome) then Charged(ChargesOf(last.call), row) else 0
  }

  lemma FaithfulPrefix(log: seq<Entry>, n: nat)
    requires Faithful(log) && n <= |log|
    ensures Faithful(log[..n])
  {
    forall i | 0 <= i < n
      ensures SameOutcome(log[..n][i].outcome, Perform(LedgerAfter(log[..n][..i]), log[..n][i].call).1)
    {
      assert log[..n][..i] == log[..i];
    }
  }

  lemma FaithfulExtend(log: seq<Entry>, entry: Entry)
    requires Faithful(log) && SameOutcome(entry.outcome, Perform(LedgerAfter(log), entry.call).1)
    ensures Faithful(log + [entry])
    ensures LedgerAfter(log + [entry]) == Perform(LedgerAfter(log), entry.call).0
  {
    var longer := log + [entry];
    assert longer[..|log|] == log;
    forall i | 0 <= i < |longer|
      ensures SameOutcome(longer[i].outcome, Perform(LedgerAfter(longer[..i]), longer[i].call).1)
    {
      assert longer[..i] == if i < |log| then log[..i] else log;
    }
  }

  lemma PerformCharges(ledger: Ledger, call: Call, row: Row)
    ensures Usage(Perform(ledger, call).0.used, row) == Usage(ledger.used, row) +
              if Accepting(Perform(ledger, call).1) then Charged(ChargesOf(call), row) else 0
  {
    var charges := ChargesOf(call);
    SpendAdds(ledger.used, charges, row);
    if call.Single? { assert charges[..0] == []; }
  }

  /** Conservation: after any run a row holds the sum of the amounts of the accepted requests on it. */
  lemma {:induction false} Conservation(log: seq<Entry>, row: Row)
    requires Faithful(log)
    ensures Usage(LedgerAfter(log).used, row) == TotalCharged(log, row)
  {
    if log != [] {
      var init := log[..|log| - 1];
      FaithfulPrefix(log, |log| - 1);
      Conservation(init, row);
      PerformCharges(LedgerAfter(init), log[|log| - 1].call, row);
    }
  }

  /** Every charge a call puts on `row` carries the limit `limit`. */
  predicate CarriesLimit(call: Call, row: Row, limit: int) {
    forall k :: 0 <= k < |ChargesOf(call)| && ChargesOf(call)[k].row == row ==> ChargesOf(call)[k].limit == limit
  }

  lemma PerformKeepsCeiling(ledger: Ledger, call: Call, row: Row, limit: nat)
    requires CarriesLimit(call, row, limit) && Usage(ledger.used, row) <= limit
    ensures Usage(Perform(ledger, call).0.used, row) <= limit
  {
    var charges := ChargesOf(call);
    PerformCharges(ledger, call, row);
    if Accepting(Perform(ledger, call).1) {
      if k :| 0 <= k < |charges| && charges[k].row == row {
        ExhaustionEmpty(ledger.used, charges);
        assert !call.Single? ==> DistinctRows(charges);
        ChargedDistinct(charges, k);
      } else {
        ChargedAbsent(charges, row);
      }
    }
  }

  /** The ceiling: when every request on a row carries limit L, no run leaves more than L on it. */
  lemma {:induction false} Ceiling(log: seq<Entry>, row: Row, limit: nat)
    requires forall i :: 0 <= i < |log| ==> CarriesLimit(log[i].call, row, limit)
    ensures Usage(LedgerAfter(log).used, row) <= limit
  {
    if log != [] {
      Ceiling(log[..|log| - 1], row, limit);
      PerformKeepsCeiling(LedgerAfter(log[..|log| - 1]), log[|log| - 1].call, row, limit);
    }
  }

  // ----- Exactly once -----------------------------------------------------------------------------

  predicate IsAttempt(entry: Entry, receipt: Row) {
    entry.call.Once? && entry.call.receipt == receipt
  }

  predicate ConsumedAt(log: seq<Entry>, i: int, receipt: Row) {
    0 <= i < |log| && IsAttempt(log[i], receipt) && log[i].outcome == Consumed
  }

  /** Only a consumed attempt writes a receipt, and no call changes one that is there. */
  lemma PerformReceipts(ledger: Ledger, call: Call, receipt: Row)
    ensures var (next, outcome) := Perform(ledger, call);
            var writes := call.Once? && call.receipt == receipt && outcome == Consumed;
            && (receipt in next.receipts <==> receipt in ledger.receipts || writes)
            && (receipt in ledger.receipts ==> !writes && next.receipts[receipt] == ledger.receipts[receipt])
            && (writes ==> next.receipts[receipt] == call.fingerprint)
  {
  }

  /** A receipt is held exactly when some earlier attempt on it was consumed, and keeps that fingerprint. */
  lemma {:induction false} ReceiptOrigin(log: seq<Entry>, receipt: Row)
    requires Faithful(log)
    ensures receipt in LedgerAfter(log).receipts <==> exists i :: ConsumedAt(log, i, receipt)
    ensures forall i :: ConsumedAt(log, i, receipt) ==> LedgerAfter(log).receipts[receipt] == log[i].call.fingerprint
  {
    if log != [] {
      var n := |log| - 1;
      var init, last := log[..n], log[n];
      FaithfulPrefix(log, n);
      ReceiptOrigin(init, receipt);
      PerformReceipts(LedgerAfter(init), last.call, receipt);
      assert forall i :: ConsumedAt(init, i, receipt) ==> ConsumedAt(log, i, receipt);
      assert forall i :: i != n && ConsumedAt(log, i, receipt) ==> ConsumedAt(init, i, receipt) && init[i] == log[i];
      assert ConsumedAt(log, n, receipt)
        <==> last.call.Once? && last.call.receipt == receipt && Perform(LedgerAfter(init), last.call).1 == Consumed;
    }
  }

  lemma LedgerStep(log: seq<Entry>, j: nat)
    requires j < |log|
    ensures LedgerAfter(log[..j + 1]) == Perform(LedgerAfter(log[..j]), log[j].call).0
  {
    assert log[..j + 1][..j] == log[..j];
  }

  lemma PerformHeld(ledger: Ledger, call: Call)
    requires call.Once? && call.receipt in ledger.receipts
    ensures Perform(ledger, call)
         == (ledger, if ledger.receipts[call.receipt] == call.fingerprint then Replayed else Conflict)
  {
  }

  /** Once an attempt is consumed, the same attempt that day is replayed or conflicts, by its fingerprint alone. */
  lemma ConsumedOnce(log: seq<Entry>, receipt: Row, i: nat, j: nat)
    requires Faithful(log) && i < j < |log|
    requires IsAttempt(log[i], receipt) && IsAttempt(log[j], receipt) && log[i].outcome == Consumed
    ensures log[j].outcome
         == if log[j].call.fingerprint == log[i].call.fingerprint then Replayed else Conflict
    ensures LedgerAfter(log[..j + 1]) == LedgerAfter(log[..j])
  {
    FaithfulPrefix(log, j);
    ReceiptOrigin(log[..j], receipt);
    assert ConsumedAt(log[..j], i, receipt);
    LedgerStep(log, j);
    PerformHeld(LedgerAfter(log[..j]), log[j].call);
  }

  /** A replay or conflict is always evidence of one earlier consumed attempt on the same receipt. */
  lemma ReplayHasOrigin(log: seq<Entry>, receipt: Row, j: nat) returns (i: nat)
    requires Faithful(log) && j < |log| && IsAttempt(log[j], receipt)
    requires log[j].outcome == Replayed || log[j].outcome == Conflict
    ensures i < j && IsAttempt(log[i], receipt) && log[i].outcome == Consumed
    ensures log[j].outcome == Replayed <==> log[j].call.fingerprint == log[i].call.fingerprint
  {
    FaithfulPrefix(log, j);
    ReceiptOrigin(log[..j], receipt);
    i :| ConsumedAt(log[..j], i, receipt);
  }

  /** A refusal leaves counters and receipts untouched and names exactly the requests that would overflow. */
  lemma RefusalIsExact(ledger: Ledger, call: Call)
    requires Perform(ledger, call).1.Refused?
    ensures Perform(ledger, call).0 == ledger
    ensures forall n :: n in Perform(ledger, call).1.exhausted
              <==> exists k :: 0 <= k < |call.charges| && Overflows(ledger.used, call.charges[k])
                            && n == call.charges[k].notice
  {
    ExhaustionExact(ledger.used, call.charges);
  }
}
