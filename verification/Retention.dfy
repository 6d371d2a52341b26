/** Deleting old rows: no caller whose day has not fallen behind a cutoff can tell. */
module Retention {
  import opened Text
  import opened Calendar
  import opened CounterStore
  import opened CounterLedger
  import opened Requests

  /** A day no cutoff so far has passed. */
  predicate Live(day: string, cutoffs: set<string>) {
    forall cutoff :: cutoff in cutoffs ==> !LexLess(day, cutoff)
  }

  predicate LiveCall(call: Call, cutoffs: set<string>) {
    && (forall k :: 0 <= k < |ChargesOf(call)| ==> Live(ChargesOf(call)[k].row.day, cutoffs))
    && (call.Once? ==> Live(call.receipt.day, cutoffs))
  }

  predicate SameAt<V(==)>(a: map<Row, V>, b: map<Row, V>, row: Row) {
    (row in a <==> row in b) && (row in a && row in b ==> a[row] == b[row])
  }

  /** Two ledgers that hold the same counters and receipts on every live day. */
  ghost predicate AgreeLive(a: Ledger, b: Ledger, cutoffs: set<string>) {
    forall row: Row :: Live(row.day, cutoffs) ==> SameAt(a.used, b.used, row) && SameAt(a.receipts, b.receipts, row)
  }

  lemma {:induction false} SameExhaustion(a: map<Row, nat>, b: map<Row, nat>, charges: seq<Charge>)
    requires forall k :: 0 <= k < |charges| ==> SameAt(a, b, charges[k].row)
    ensures Exhaustion(a, charges) == Exhaustion(b, charges)
  {
    if charges != [] {
      assert SameAt(a, b, charges[|charges| - 1].row);
      SameExhaustion(a, b, charges[..|charges| - 1]);
    }
  }

  lemma SameSpend(a: map<Row, nat>, b: map<Row, nat>, charges: seq<Charge>, row: Row)
    requires SameAt(a, b, row)
    ensures SameAt(Spend(a, charges), Spend(b, charges), row)
  {
    SpendAdds(a, charges, row);
    SpendAdds(b, charges, row);
  }

  lemma ConsumeAllAgrees(a: Ledger, b: Ledger, cutoffs: set<string>, charges: seq<Charge>)
    requires AgreeLive(a, b, cutoffs)
    requires forall k :: 0 <= k < |charges| ==> Live(charges[k].row.day, cutoffs)
    ensures ConsumeAll(a, charges).1 == ConsumeAll(b, charges).1
    ensures AgreeLive(ConsumeAll(a, charges).0, ConsumeAll(b, charges).0, cutoffs)
  {
    SameExhaustion(a.used, b.used, charges);
    forall row: Row | Live(row.day, cutoffs)
      ensures SameAt(Spend(a.used, charges), Spend(b.used, charges), row)
    {
      SameSpend(a.used, b.used, charges, row);
    }
  }

  lemma ConsumeAgrees(a: Ledger, b: Ledger, cutoffs: set<string>, charge: Charge)
    requires AgreeLive(a, b, cutoffs) && Live(charge.row.day, cutoffs)
    ensures Consume(a, charge).1 == Consume(b, charge).1
    ensures AgreeLive(Consume(a, charge).0, Consume(b, charge).0, cutoffs)
  {
    assert SameAt(a.used, b.used, charge.row);
  }

  /** A live call decides alike on ledgers that agree on live days, and keeps them in agreement. */
  lemma PerformAgrees(a: Ledger, b: Ledger, cutoffs: set<string>, call: Call)
    requires AgreeLive(a, b, cutoffs) && LiveCall(call, cutoffs)
    ensures Perform(a, call).1 == Perform(b, call).1
    ensures AgreeLive(Perform(a, call).0, Perform(b, call).0, cutoffs)
  {
    hide ConsumeAll, Consume, LexLess;
    if call.Single? {
      assert ChargesOf(call)[0] == call.charge;
      ConsumeAgrees(a, b, cutoffs, call.charge);
    } else {
      var charges := ChargesOf(call);
      assert forall k :: 0 <= k < |charges| ==> Live(ChargesOf(call)[k].row.day, cutoffs);
      ConsumeAllAgrees(a, b, cutoffs, charges);
      if call.Once? { assert SameAt(a.receipts, b.receipts, call.receipt); }
    }
  }

  lemma PruneAgrees(a: Ledger, b: Ledger, cutoffs: set<string>, cutoff: string)
    requires AgreeLive(a, b, cutoffs)
    ensures AgreeLive(Prune(a, cutoff), b, cutoffs + {cutoff})
  {
    forall row: Row | Live(row.day, cutoffs + {cutoff})
      ensures SameAt(Prune(a, cutoff).used, b.used, row) && SameAt(Prune(a, cutoff).receipts, b.receipts, row)
    {
      assert cutoff in cutoffs + {cutoff};
      assert Live(row.day, cutoffs);
    }
  }

  // ----- Runs with sweeps -------------------------------------------------------------------------

  datatype Operation = Do(call: Call) | Peek(row: Row) | Sweep(cutoff: string)

  datatype Observation = Result(outcome: Outcome) | Seen(used: nat)

  /** What the callers of a run observe, in order; a sweep is not observed. */
  function Observe(ledger: Ledger, run: seq<Operation>): seq<Observation>
    decreases |run|
  {
    if run == [] then []
    else match run[0]
      case Do(call) => [Result(Perform(ledger, call).1)] + Observe(Perform(ledger, call).0, run[1..])
      case Peek(row) => [Seen(Usage(ledger.used, row))] + Observe(ledger, run[1..])
      case Sweep(cutoff) => Observe(Prune(ledger, cutoff), run[1..])
  }

  function WithoutSweeps(run: seq<Operation>): seq<Operation> {
    if run == [] then []
    else (if run[0].Sweep? then [] else [run[0]]) + WithoutSweeps(run[1..])
  }

  /** No caller of the run works on a day behind a cutoff already swept. */
  predicate Disciplined(run: seq<Operation>, cutoffs: set<string>) {
    run == [] || match run[0]
      case Do(call) => LiveCall(call, cutoffs) && Disciplined(run[1..], cutoffs)
      case Peek(row) => Live(row.day, cutoffs) && Disciplined(run[1..], cutoffs)
      case Sweep(cutoff) => Disciplined(run[1..], cutoffs + {cutoff})
  }

  lemma {:induction false} SweepsUnobservableFrom(a: Ledger, b: Ledger, run: seq<Operation>, cutoffs: set<string>)
    requires AgreeLive(a, b, cutoffs) && Disciplined(run, cutoffs)
    ensures Observe(a, run) == Observe(b, WithoutSweeps(run))
    decreases |run|
  {
    if run != [] {
      var kept := WithoutSweeps(run);
      match run[0] {
        case Do(call) =>
          PerformAgrees(a, b, cutoffs, call);
          assert kept[0] == run[0] && kept[1..] == WithoutSweeps(run[1..]);
          SweepsUnobservableFrom(Perform(a, call).0, Perform(b, call).0, run[1..], cutoffs);
        case Peek(row) =>
          assert SameAt(a.used, b.used, row);
          assert kept[0] == run[0] && kept[1..] == WithoutSweeps(run[1..]);
          SweepsUnobservableFrom(a, b, run[1..], cutoffs);
        case Sweep(cutoff) =>
          PruneAgrees(a, b, cutoffs, cutoff);
          assert kept == WithoutSweeps(run[1..]);
          SweepsUnobservableFrom(Prune(a, cutoff), b, run[1..], cutoffs + {cutoff});
      }
    }
  }

  /** Sweeps placed anywhere in a run change no outcome and no reading of any caller on a live day. */
  lemma SweepsUnobservable(ledger: Ledger, run: seq<Operation>)
    requires Disciplined(run, {})
    ensures Observe(ledger, run) == Observe(ledger, WithoutSweeps(run))
  {
    SweepsUnobservableFrom(ledger, ledger, run, {});
  }

  /** Every row a request list is charged to, and its receipt, has the caller's own day. */
  lemma OneDay(requests: seq<CounterRequest>, attempt: Attempt, now: int)
    ensures forall k :: 0 <= k < |requests| ==> Charges(requests, now)[k].row.day == DayKey(now)
    ensures ReceiptRow(attempt, now).day == DayKey(now)
  {
    hide DayKey, HourKey, MinuteKey, NextResetAt;
  }

  /**
   * Two days of retention: any call is on live days exactly when its caller's clock is at most two UTC days behind the
   * sweeper's; only an empty batch, which touches no row, is live whatever the clocks.
   */
  lemma TwoDaysOfSkewAreLive(requests: seq<CounterRequest>, attempt: Attempt, now: int, sweepNow: int)
    requires FourDigitYear(now) && FourDigitYear(sweepNow - COUNTER_RETENTION_DAYS * MS_PER_DAY)
    ensures var cutoffs, close := {RetentionCutoff(sweepNow)}, Day(now) >= Day(sweepNow) - COUNTER_RETENTION_DAYS;
            && (forall k :: 0 <= k < |requests| ==> (LiveCall(Single(ChargeOf(requests[k], now)), cutoffs) <==> close))
            && (LiveCall(Batch(Charges(requests, now)), cutoffs) <==> requests == [] || close)
            && (LiveCall(OnceCall(requests, attempt, now), cutoffs) <==> close)
  {
    hide DayKey, CounterRow, FourDigitYear, LexLess, NextResetAt;
    RetentionKeepsTwoDays(now, sweepNow);
    OneDay(requests, attempt, now);
    var charges := Charges(requests, now);
    var batch, once := Batch(charges), OnceCall(requests, attempt, now);
    assert ChargesOf(batch) == charges && ChargesOf(once) == charges;
    if requests != [] { assert ChargesOf(batch)[0] == charges[0]; }
    forall k | 0 <= k < |requests|
      ensures LiveCall(Single(ChargeOf(requests[k], now)), {RetentionCutoff(sweepNow)})
         <==> Day(now) >= Day(sweepNow) - COUNTER_RETENTION_DAYS
    {
      var single := Single(ChargeOf(requests[k], now));
      assert charges[k] == ChargeOf(requests[k], now) && ChargesOf(single)[0] == charges[k];
    }
  }
}
