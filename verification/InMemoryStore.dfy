/** The process-local store: two string-keyed maps updated in place, proved against the ledger. */
module InMemoryStore {
  import opened Text
  import opened Calendar
  import opened CounterStore
  import opened CounterLedger
  import opened Requests

  /** The map key of a row: day, colon, row key. */
  function StoreKey(row: Row): string {
    row.day + ":" + row.key
  }

  /** `key.split(':')[0]`. */
  function BeforeColon(key: string): string {
    if key == "" || key[0] == ':' then "" else [key[0]] + BeforeColon(key[1..])
  }

  predicate ColonFree(day: string) {
    ':' !in day
  }

  lemma {:induction false} DayOfStoreKey(row: Row)
    requires ColonFree(row.day)
    ensures BeforeColon(StoreKey(row)) == row.day
    decreases |row.day|
  {
    var key := StoreKey(row);
    if row.day == "" {
      assert key[0] == ':';
    } else {
      var shorter := Row(row.key, row.day[1..]);
      DayOfStoreKey(shorter);
      assert key[1..] == StoreKey(shorter);
      assert row.day == [row.day[0]] + row.day[1..];
    }
  }

  lemma ReceiptDayColonFree(attempt: Attempt, now: int)
    ensures ColonFree(ReceiptRow(attempt, now).day)
  {
    DayKeyColonFree(now);
  }

  /** The row a map key spells. */
  function RowOf(key: string): Row {
    var day := BeforeColon(key);
    Row(if |day| < |key| then key[|day| + 1..] else "", day)
  }

  lemma RowOfStoreKey(row: Row)
    requires ColonFree(row.day)
    ensures RowOf(StoreKey(row)) == row
  {
    DayOfStoreKey(row);
    assert StoreKey(row)[|row.day| + 1..] == row.key;
  }

  lemma StoreKeyInjective(a: Row, b: Row)
    requires ColonFree(a.day) && ColonFree(b.day) && StoreKey(a) == StoreKey(b)
    ensures a == b
  {
    RowOfStoreKey(a);
    RowOfStoreKey(b);
  }

  lemma DayKeyColonFree(now: int)
    ensures ColonFree(DayKey(now))
  {
    var date := IsoDate(Day(now));
    assert |date| >= 10;
    assert DayKey(now) == date[..10];
    assert forall k :: 0 <= k < |date| ==> date[k] != ':';
  }

  /** The string-keyed map holds exactly the rows of `rows`. */
  ghost predicate Holds<V>(stored: map<string, V>, rows: map<Row, V>) {
    && (forall row :: row in rows
          ==> ColonFree(row.day) && StoreKey(row) in stored && stored[StoreKey(row)] == rows[row])
    && (forall key :: key in stored ==> RowOf(key) in rows && StoreKey(RowOf(key)) == key)
  }

  lemma HoldsAt<V>(stored: map<string, V>, rows: map<Row, V>, row: Row)
    requires Holds(stored, rows) && ColonFree(row.day)
    ensures StoreKey(row) in stored <==> row in rows
    ensures row in rows ==> stored[StoreKey(row)] == rows[row]
  {
    RowOfStoreKey(row);
  }

  lemma HoldsPut<V>(stored: map<string, V>, rows: map<Row, V>, row: Row, value: V)
    requires Holds(stored, rows) && ColonFree(row.day)
    ensures Holds(stored[StoreKey(row) := value], rows[row := value])
  {
    RowOfStoreKey(row);
    forall other | other in rows && StoreKey(other) == StoreKey(row)
      ensures other == row
    {
      StoreKeyInjective(other, row);
    }
  }

  lemma {:induction false} SetOfDistinct(keys: seq<string>)
    ensures |set key | key in keys| <= |keys|
    ensures |set key | key in keys| == |keys| <==> forall i, j :: 0 <= i < j < |keys| ==> keys[i] != keys[j]
  {
    if keys == [] {
      assert (set key | key in keys) == {};
    } else {
      var n := |keys| - 1;
      var init := keys[..n];
      SetOfDistinct(init);
      var whole, part := set key | key in keys, set key | key in init;
      assert keys == init + [keys[n]];
      assert whole == part + {keys[n]};
      if keys[n] in init {
        var i :| 0 <= i < n && init[i] == keys[n];
        assert keys[i] == keys[n];
        assert whole == part;
      } else {
        assert keys[n] !in part;
        assert forall i :: 0 <= i < n ==> keys[i] == init[i] && init[i] in init;
      }
    }
  }

  datatype CounterOutcome = CounterOutcome(allowed: bool, used: nat, limit: int, resetAt: int)

  /** A batch entry: the request with its map key and amount. */
  datatype BatchEntry = BatchEntry(request: CounterRequest, key: string, amount: nat)

  function EntryOf(request: CounterRequest, now: int): BatchEntry {
    BatchEntry(request, StoreKey(CounterRow(request.key, request.Span(), now)), request.Units())
  }

  /** An entry stands for a charge of the ledger. */
  predicate Matches(entry: BatchEntry, charge: Charge, now: int) {
    && ColonFree(charge.row.day) && entry.key == StoreKey(charge.row)
    && entry.amount == charge.amount && entry.request.limit == charge.limit
    && charge.notice == ExhaustedCounter(entry.request.key, entry.request.limit, NextResetAt(now, entry.request.Span()))
  }

  predicate AllMatch(batch: seq<BatchEntry>, charges: seq<Charge>, now: int) {
    |batch| == |charges| && forall k :: 0 <= k < |batch| ==> Matches(batch[k], charges[k], now)
  }

  lemma EntryMatches(request: CounterRequest, now: int)
    ensures Matches(EntryOf(request, now), ChargeOf(request, now), now)
  {
    DayKeyColonFree(now);
  }

  lemma BatchMatches(requests: seq<CounterRequest>, now: int, batch: seq<BatchEntry>)
    requires |batch| == |requests| && forall k :: 0 <= k < |batch| ==> batch[k] == EntryOf(requests[k], now)
    ensures AllMatch(batch, Charges(requests, now), now)
  {
    forall k | 0 <= k < |batch|
      ensures Matches(batch[k], Charges(requests, now)[k], now)
    {
      EntryMatches(requests[k], now);
    }
  }

  /** Counting distinct map keys detects exactly the batches that name a row twice. */
  lemma DistinctKeys(batch: seq<BatchEntry>, charges: seq<Charge>, now: int)
    requires AllMatch(batch, charges, now)
    ensures |set entry | entry in batch :: entry.key| == |batch| <==> DistinctRows(charges)
  {
    var keys := seq(|batch|, k requires 0 <= k < |batch| => batch[k].key);
    SetOfDistinct(keys);
    assert (set entry | entry in batch :: entry.key) == set key | key in keys by {
      forall entry | entry in batch
        ensures entry.key in keys
      {
        var k :| 0 <= k < |batch| && batch[k] == entry;
        assert keys[k] == entry.key;
      }
    }
    forall i, j | 0 <= i < j < |charges|
      ensures keys[i] == keys[j] <==> charges[i].row == charges[j].row
    {
      assert Matches(batch[i], charges[i], now) && Matches(batch[j], charges[j], now);
      if keys[i] == keys[j] { StoreKeyInjective(charges[i].row, charges[j].row); }
    }
  }

  class InMemoryDailyCounterStore {
    var used: map<string, nat>
    var receipts: map<string, string>
    ghost var ledger: Ledger

    ghost predicate Valid()
      reads this
    {
      Holds(used, ledger.used) && Holds(receipts, ledger.receipts)
    }

    constructor ()
      ensures Valid() && ledger == EMPTY
    {
      used, receipts, ledger := map[], map[], EMPTY;
    }

    function UsedAt(key: string): nat
      reads this
    {
      if key in used then used[key] else 0
    }

    lemma UsedAtRow(row: Row)
      requires Valid() && ColonFree(row.day)
      ensures UsedAt(StoreKey(row)) == Usage(ledger.used, row)
    {
      HoldsAt(used, ledger.used, row);
    }

    method SetUsed(ghost row: Row, key: string, total: nat)
      requires Valid() && ColonFree(row.day) && key == StoreKey(row)
      modifies this
      ensures Valid() && ledger == old(ledger).(used := old(ledger).used[row := total])
    {
      HoldsPut(used, ledger.used, row, total);
      used := used[key := total];
      ledger := ledger.(used := ledger.used[row := total]);
    }

    method Consume(request: CounterRequest, now: int) returns (outcome: CounterOutcome)
      requires Valid()
      modifies this
      ensures Valid()
      ensures ledger == CounterLedger.Consume(old(ledger), ChargeOf(request, now)).0
      ensures outcome.allowed <==> CounterLedger.Consume(old(ledger), ChargeOf(request, now)).1.Admitted?
      ensures outcome.used == Usage(ledger.used, CounterRow(request.key, request.Span(), now))
      ensures outcome.limit == request.limit && outcome.resetAt == NextResetAt(now, request.Span())
      ensures request.window.None? ==>
                && outcome.resetAt == (Day(now) + 1) * MS_PER_DAY
                && outcome.used == Usage(ledger.used, Row(request.key, DayKey(now)))
    {
      hide CounterRow, NextResetAt, StoreKey, Holds;
      ghost var charge := ChargeOf(request, now);
      var entry := EntryOf(request, now);
      EntryMatches(request, now);
      if request.window.None? { WindowlessIsDaily(request, now); }
      UsedAtRow(charge.row);
      var before := UsedAt(entry.key);
      var resetAt := NextReset(now, request.Span());
      if before + entry.amount > request.limit {
        return CounterOutcome(false, before, request.limit, resetAt);
      }
      SetUsed(charge.row, entry.key, before + entry.amount);
      return CounterOutcome(true, before + entry.amount, request.limit, resetAt);
    }

    method FindExhausted(batch: seq<BatchEntry>, now: int, ghost charges: seq<Charge>)
      returns (exhausted: seq<ExhaustedCounter>)
      requires Valid() && AllMatch(batch, charges, now)
      ensures exhausted == Exhaustion(ledger.used, charges)
    {
      hide StoreKey, Holds, NextResetAt;
      exhausted := [];
      for n := 0 to |batch|
        invariant exhausted == Exhaustion(ledger.used, charges[..n])
      {
        var entry := batch[n];
        assert Matches(entry, charges[n], now);
        UsedAtRow(charges[n].row);
        assert charges[..n + 1][..n] == charges[..n];
        if entry.request.limit <= 0 || UsedAt(entry.key) + entry.amount > entry.request.limit {
          var resetAt := NextReset(now, entry.request.Span());
          exhausted := exhausted + [ExhaustedCounter(entry.request.key, entry.request.limit, resetAt)];
        }
      }
      assert charges[..|batch|] == charges;
    }

    method SpendBatch(batch: seq<BatchEntry>, ghost now: int, ghost charges: seq<Charge>)
      requires Valid() && AllMatch(batch, charges, now)
      modifies this
      ensures Valid() && ledger == old(ledger).(used := Spend(old(ledger).used, charges))
    {
      hide StoreKey, Holds, NextResetAt;
      for n := 0 to |batch|
        invariant Valid() && ledger == old(ledger).(used := Spend(old(ledger).used, charges[..n]))
      {
        var entry := batch[n];
        assert Matches(entry, charges[n], now);
        UsedAtRow(charges[n].row);
        assert charges[..n + 1][..n] == charges[..n];
        SetUsed(charges[n].row, entry.key, UsedAt(entry.key) + entry.amount);
      }
      assert charges[..|batch|] == charges;
    }

    /** `#consumeAll`: `None` when the batch names a row twice, else the exhausted counters. */
    method TryConsumeAll(requests: seq<CounterRequest>, now: int) returns (result: Option<seq<ExhaustedCounter>>)
      requires Valid()
      modifies this
      ensures Valid()
      ensures ledger == CounterLedger.ConsumeAll(old(ledger), Charges(requests, now)).0
      ensures result == match CounterLedger.ConsumeAll(old(ledger), Charges(requests, now)).1
                        case Refused(exhausted) => Some(exhausted)
                        case Consumed => Some([])
                        case _ => None
    {
      ghost var charges := Charges(requests, now);
      var batch := seq(|requests|, k requires 0 <= k < |requests| => EntryOf(requests[k], now));
      BatchMatches(requests, now, batch);
      DistinctKeys(batch, charges, now);
      if |set entry | entry in batch :: entry.key| != |batch| {
        return None;
      }
      var exhausted := FindExhausted(batch, now, charges);
      if |exhausted| > 0 {
        return Some(exhausted);
      }
      SpendBatch(batch, now, charges);
      return Some([]);
    }

    /** `consumeAll`; the thrown duplicate-row error is the outcome `DuplicateRows`. */
    method ConsumeAll(requests: seq<CounterRequest>, now: int) returns (outcome: Outcome)
      requires Valid()
      modifies this
      ensures Valid()
      ensures (ledger, outcome) == Perform(old(ledger), Batch(Charges(requests, now)))
    {
      var result := TryConsumeAll(requests, now);
      return match result
             case None => DuplicateRows
             case Some(exhausted) => if |exhausted| == 0 then Spent else Unspent;
    }

    method ConsumeAllOnce(requests: seq<CounterRequest>, attempt: Attempt, now: int) returns (outcome: Outcome)
      requires Valid()
      modifies this
      ensures Valid()
      ensures (ledger, outcome) == Perform(old(ledger), OnceCall(requests, attempt, now))
    {
      hide CounterRow, StoreKey, Holds, Charges, ColonFree, Exhaustion, Spend;
      var receipt := CounterRow(attempt.key, Daily, now);
      ReceiptDayColonFree(attempt, now);
      HoldsAt(receipts, ledger.receipts, receipt);
      var receiptKey := StoreKey(receipt);
      if receiptKey in receipts {
        return if receipts[receiptKey] == attempt.fingerprint then Replayed else Conflict;
      }
      var result := TryConsumeAll(requests, now);
      if result.None? {
        return DuplicateRows;
      }
      if |result.value| > 0 {
        return Refused(result.value);
      }
      HoldsPut(receipts, ledger.receipts, receipt, attempt.fingerprint);
      receipts := receipts[receiptKey := attempt.fingerprint];
      ledger := ledger.(receipts := ledger.receipts[receipt := attempt.fingerprint]);
      return Consumed;
    }

    method Prune(now: int) returns (removed: nat)
      requires Valid()
      modifies this
      ensures Valid()
      ensures ledger == CounterLedger.Prune(old(ledger), RetentionCutoff(now))
      ensures forall row ::
        row in ledger.used <==> row in old(ledger).used && !LexLess(row.day, RetentionCutoff(now))
      ensures forall row ::
        row in ledger.receipts <==> row in old(ledger).receipts && !LexLess(row.day, RetentionCutoff(now))
      ensures forall row :: row in ledger.used ==> ledger.used[row] == old(ledger).used[row]
      ensures forall row :: row in ledger.receipts ==> ledger.receipts[row] == old(ledger).receipts[row]
      ensures removed == |BehindRows(old(ledger).used, RetentionCutoff(now))|
                         + |BehindRows(old(ledger).receipts, RetentionCutoff(now))|
    {
      hide RetentionCutoff, Holds, LexLess;
      PruneIsExact(ledger, RetentionCutoff(now));
      var cutoff := RetentionCutoff(now);
      var goneUsed, goneReceipts;
      used, goneUsed := DropBefore(used, cutoff, ledger.used);
      receipts, goneReceipts := DropBefore(receipts, cutoff, ledger.receipts);
      ledger := CounterLedger.Prune(ledger, cutoff);
      return goneUsed + goneReceipts;
    }

    method Peek(key: string, now: int) returns (usage: nat)
      requires Valid()
      ensures usage == Usage(ledger.used, Row(key, DayKey(now)))
    {
      var row := Row(key, DayKey(now));
      DayKeyColonFree(now);
      HoldsAt(used, ledger.used, row);
      return if StoreKey(row) in used then used[StoreKey(row)] else 0;
    }
  }

  /** The sweep over one map: visit every key, delete it when its day is behind the cutoff, and count. */
  method DropBefore<V>(stored: map<string, V>, cutoff: string, ghost rows: map<Row, V>)
    returns (kept: map<string, V>, removed: nat)
    requires Holds(stored, rows)
    ensures Holds(kept, Keep(rows, cutoff))
    ensures removed == |rows| - |Keep(rows, cutoff)|
  {
    hide Holds, BeforeColon, LexLess, Keep;
    kept, removed := stored, 0;
    var pending := stored.Keys;
    ghost var gone := {};
    while pending != {}
      invariant pending <= stored.Keys && gone <= stored.Keys && pending !! gone
      invariant kept == stored - gone && removed == |gone|
      invariant forall key :: key in stored && key !in pending ==> (key in gone <==> LexLess(BeforeColon(key), cutoff))
      decreases pending
    {
      var key :| key in pending;
      pending := pending - {key};
      if LexLess(BeforeColon(key), cutoff) {
        assert stored - gone - {key} == stored - (gone + {key});
        kept, removed := kept - {key}, removed + 1;
        gone := gone + {key};
      }
    }
    Swept(stored, kept, gone, cutoff);
    HoldsFilter(stored, rows, cutoff);
    HoldsSize(stored, rows);
    HoldsSize(kept, Keep(rows, cutoff));
  }

  function KeepStored<V>(stored: map<string, V>, cutoff: string): map<string, V> {
    map key | key in stored && !LexLess(BeforeColon(key), cutoff) :: stored[key]
  }

  lemma Swept<V>(stored: map<string, V>, kept: map<string, V>, gone: set<string>, cutoff: string)
    requires gone <= stored.Keys && kept == stored - gone
    requires forall key :: key in stored ==> (key in gone <==> LexLess(BeforeColon(key), cutoff))
    ensures kept == KeepStored(stored, cutoff) && |gone| == |stored| - |kept|
  {
    hide BeforeColon, LexLess;
    assert stored.Keys == kept.Keys + gone;
    assert |stored| == |stored.Keys| && |kept| == |kept.Keys|;
  }

  lemma HoldsFilter<V>(stored: map<string, V>, rows: map<Row, V>, cutoff: string)
    requires Holds(stored, rows)
    ensures Holds(KeepStored(stored, cutoff), Keep(rows, cutoff))
  {
    forall row | row in rows
      ensures BeforeColon(StoreKey(row)) == row.day
    {
      DayOfStoreKey(row);
    }
    assert forall key :: key in stored ==> RowOf(key) in rows;
  }

  lemma {:induction false} ImageSize(rows: set<Row>)
    requires forall row :: row in rows ==> ColonFree(row.day)
    ensures |set row | row in rows :: StoreKey(row)| == |rows|
  {
    var keys := set row | row in rows :: StoreKey(row);
    if rows != {} {
      var row :| row in rows;
      var rest := rows - {row};
      ImageSize(rest);
      var keysRest := set other | other in rest :: StoreKey(other);
      forall other | other in rest
        ensures StoreKey(other) != StoreKey(row)
      {
        if StoreKey(other) == StoreKey(row) { StoreKeyInjective(other, row); }
      }
      assert keys == keysRest + {StoreKey(row)};
    }
  }

  lemma HoldsSize<V>(stored: map<string, V>, rows: map<Row, V>)
    requires Holds(stored, rows)
    ensures |stored| == |rows|
  {
    ImageSize(rows.Keys);
    assert stored.Keys == set row | row in rows.Keys :: StoreKey(row);
    assert |stored| == |stored.Keys| && |rows| == |rows.Keys|;
  }
}
