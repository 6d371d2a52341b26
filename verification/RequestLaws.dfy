/** What two calls have to do with each other, said in the fields of the raw requests and in literal milliseconds. */
module RequestLaws {
  import opened Text
  import opened Calendar
  import opened CounterStore
  import opened CounterLedger
  import opened Requests
  import opened PostgresStore

  /** A request without a window belongs to its UTC day. */
  function Length(request: CounterRequest): (length: nat)
    ensures length > 0
  {
    match request.window
    case Some(Minutely) => 60_000
    case Some(Hourly) => 3_600_000
    case Some(Daily) => 86_400_000
    case None => 86_400_000
  }

  function Amount(request: CounterRequest): nat {
    match request.amount
    case Some(amount) => amount
    case None => 1
  }

  lemma SpanLength(request: CounterRequest)
    ensures WindowLength(request.Span()) == Length(request)
  {
  }

  lemma ChargeAmounts(request: CounterRequest, now: int)
    ensures ChargeOf(request, now).amount == Amount(request) && ChargeOf(request, now).limit == request.limit
  {
    hide CounterRow, NextResetAt;
  }

  /** A request is charged its amount, one when none is given, and reported with its own key, limit and window's end. */
  lemma ChargeIsSpelled(request: CounterRequest, now: int)
    ensures var charge := ChargeOf(request, now);
            && charge.amount == Amount(request) && charge.limit == request.limit
            && charge.notice.key == request.key && charge.notice.limit == request.limit
            && charge.notice.resetAt == (now / Length(request) + 1) * Length(request)
            && charge.row.day == DayKey(now)
            && (Length(request) == 86_400_000 ==> charge.row.key == request.key)
  {
    hide DayKey, HourKey, MinuteKey;
    SpanLength(request);
  }

  /** Requests of one key and one kind of window share a row exactly within one window. */
  lemma SameKindMeets(r1: CounterRequest, t1: int, r2: CounterRequest, t2: int)
    requires r1.key == r2.key && Length(r1) == Length(r2) && FourDigitYear(t1) && FourDigitYear(t2)
    ensures ChargeOf(r1, t1).row == ChargeOf(r2, t2).row <==> t1 / Length(r1) == t2 / Length(r2)
  {
    hide CounterRow, FourDigitYear;
    SpanLength(r1);
    RowsAreWindows(r1.key, r1.Span(), t1, t2);
  }

  /** Keys without `@`: two requests meet exactly with equal keys and equal kinds of window, within one window. */
  lemma RequestsMeet(r1: CounterRequest, t1: int, r2: CounterRequest, t2: int)
    requires '@' !in r1.key && '@' !in r2.key && FourDigitYear(t1) && FourDigitYear(t2)
    ensures ChargeOf(r1, t1).row == ChargeOf(r2, t2).row
            <==> r1.key == r2.key && Length(r1) == Length(r2) && t1 / Length(r1) == t2 / Length(r2)
  {
    hide CounterRow, FourDigitYear;
    SpanLength(r1);
    SpanLength(r2);
    PlainKeysNeverCollide(r1.key, r1.Span(), t1, r2.key, r2.Span(), t2);
  }

  /** What a second call decides, from the amount it finds. */
  function Decision(found: nat, request: CounterRequest): Outcome {
    if found + Amount(request) <= request.limit then Admitted(found + Amount(request)) else Denied
  }

  /**
   * After an admitted call, a second call of the same key and kind of window starts from what the first left exactly
   * within the first one's window: the UTC day, when no window is given. In any other window the first call is as if it
   * had not been. A denied call leaves everything as it was.
   */
  lemma SecondCall(ledger: Ledger, r1: CounterRequest, t1: int, r2: CounterRequest, t2: int)
    requires r1.key == r2.key && Length(r1) == Length(r2) && FourDigitYear(t1) && FourDigitYear(t2)
    ensures var (next, first) := Consume(ledger, ChargeOf(r1, t1));
            var second, alone := Consume(next, ChargeOf(r2, t2)).1, Consume(ledger, ChargeOf(r2, t2)).1;
            && (first.Admitted? || first.Denied?)
            && (first.Denied? ==> next == ledger)
            && second == if first.Admitted? && t1 / Length(r1) == t2 / Length(r1) then Decision(first.used, r2)
                         else alone
  {
    hide CounterRow, FourDigitYear, NextResetAt, ChargeOf, Length, Amount;
    ChargeAmounts(r2, t2);
    SameKindMeets(r1, t1, r2, t2);
  }

  /** A first call on an empty store starts from nothing, and leaves its amount to be seen until the UTC day ends. */
  lemma FirstCall(request: CounterRequest, now: int, t: int)
    requires request.window.None? && FourDigitYear(now) && FourDigitYear(t)
    ensures var (next, first) := Consume(EMPTY, ChargeOf(request, now));
            && first == Decision(0, request)
            && Usage(next.used, Row(request.key, DayKey(t)))
               == if first.Admitted? && Day(now) == Day(t) then Amount(request) else 0
  {
    hide DayKey, FourDigitYear, NextResetAt;
    ChargeAmounts(request, now);
    DayKeyOrder(now, t);
  }

  /**
   * A batch of requests is spent exactly when no row is named twice and every request has a positive limit with room
   * for its amount; each row then gains its own request's amount. Otherwise nothing moves.
   */
  lemma WholeBatch(ledger: Ledger, requests: seq<CounterRequest>, now: int)
    ensures var charges := Charges(requests, now);
            var (next, outcome) := Perform(ledger, Batch(charges));
            && (outcome == DuplicateRows <==> exists i, j :: 0 <= i < j < |charges| && charges[i].row == charges[j].row)
            && (outcome == Spent
                <==> outcome != DuplicateRows && forall k :: 0 <= k < |requests| ==> HasRoom(ledger, requests[k], now))
            && (outcome == Spent || outcome == Unspent || outcome == DuplicateRows)
            && (outcome != Spent ==> next == ledger)
            && (outcome == Spent ==> next.receipts == ledger.receipts)
            && (outcome == Spent ==> forall k :: 0 <= k < |requests| ==>
                  Usage(next.used, charges[k].row) == Usage(ledger.used, charges[k].row) + Amount(requests[k]))
  {
    hide CounterRow, NextResetAt, ChargeOf, ConsumeAll, Amount;
    var charges := Charges(requests, now);
    forall k | 0 <= k < |requests|
      ensures charges[k].amount == Amount(requests[k]) && charges[k].limit == requests[k].limit
    {
      ChargeAmounts(requests[k], now);
    }
    BatchDecided(ledger, charges);
    if DistinctRows(charges) { BatchIsAtomic(ledger, charges); }
  }

  predicate HasRoom(ledger: Ledger, request: CounterRequest, now: int) {
    0 < request.limit && Usage(ledger.used, ChargeOf(request, now).row) + Amount(request) <= request.limit
  }

  lemma BatchDecided(ledger: Ledger, charges: seq<Charge>)
    ensures var (next, outcome) := ConsumeAll(ledger, charges);
            && (outcome == DuplicateRows <==> !DistinctRows(charges))
            && (outcome == DuplicateRows ==> next == ledger)
            && (outcome == DuplicateRows || outcome == Consumed || outcome.Refused?)
  {
  }

  lemma ReceiptsMeet(a1: Attempt, t1: int, a2: Attempt, t2: int)
    requires FourDigitYear(t1) && FourDigitYear(t2)
    ensures ReceiptRow(a1, t1) == ReceiptRow(a2, t2) <==> a1.key == a2.key && t1 / 86_400_000 == t2 / 86_400_000
  {
    hide DayKey, FourDigitYear;
    DayKeyOrder(t1, t2);
  }

  /**
   * Once per attempt and UTC day: after an attempt is consumed, the same attempt on the same UTC day is replayed or in
   * conflict by its fingerprint and changes nothing; on any other day, and under any other key, it is decided afresh.
   */
  lemma SecondAttempt(ledger: Ledger, requests1: seq<CounterRequest>, a1: Attempt, t1: int,
                      requests2: seq<CounterRequest>, a2: Attempt, t2: int)
    requires FourDigitYear(t1) && FourDigitYear(t2)
    requires Perform(ledger, OnceCall(requests1, a1, t1)).1 == Consumed
    ensures var next := Perform(ledger, OnceCall(requests1, a1, t1)).0;
            var (after, second) := Perform(next, OnceCall(requests2, a2, t2));
            && (a1.key == a2.key && t1 / 86_400_000 == t2 / 86_400_000
                ==> after == next && second == if a1.fingerprint == a2.fingerprint then Replayed else Conflict)
            && (a1.key != a2.key || t1 / 86_400_000 != t2 / 86_400_000
                ==> (second == Replayed || second == Conflict <==> ReceiptRow(a2, t2) in ledger.receipts))
  {
    hide ReceiptRow, FourDigitYear, Charges, ConsumeAll;
    var next := Perform(ledger, OnceCall(requests1, a1, t1)).0;
    ReceiptsMeet(a1, t1, a2, t2);
    PerformReceipts(ledger, OnceCall(requests1, a1, t1), ReceiptRow(a2, t2));
    BatchDecided(next, Charges(requests2, t2));
  }

  /** What the durable store decides, from the amount it finds: a limit of zero or less admits nothing. */
  function DurableDecision(found: nat, request: CounterRequest): Outcome {
    if 0 < request.limit && found + Amount(request) <= request.limit then Admitted(found + Amount(request)) else Denied
  }

  lemma SingleStep(cfg: Config, s: State, p: nat)
    requires p < |s.procs| == |cfg.calls| && cfg.calls[p].Single? && s.procs[p] == Idle
    ensures CanStep(cfg, s, p) <==> CanConsume(s, cfg.calls[p].charge, p)
    ensures CanStep(cfg, s, p) ==> StepOf(cfg, s, p) == ConsumeStep(cfg, s, p)
  {
    hide ConsumeStep, CanConsume;
  }

  lemma ConsumeStepFrees(cfg: Config, s: State, p: nat, q: nat)
    requires p < |s.procs| == |cfg.calls| && q < |cfg.calls| && p != q
    requires cfg.calls[p].Single? && cfg.calls[q].Single? && CanConsume(s, cfg.calls[q].charge, q)
    ensures CanConsume(ConsumeStep(cfg, s, p), cfg.calls[q].charge, q)
  {
  }

  lemma ConsumeStepEffect(cfg: Config, s: State, p: nat, charge: Charge, row: Row)
    requires p < |s.procs| == |cfg.calls| && cfg.calls[p] == Single(charge)
    ensures var found, next := Usage(s.tables.used, charge.row), ConsumeStep(cfg, s, p);
            var fits := 0 < charge.limit && found + charge.amount <= charge.limit;
            && |next.procs| == |s.procs|
            && next.procs[p] == Finished(if fits then Admitted(found + charge.amount) else Denied, true)
            && Usage(next.tables.used, row)
               == if row == charge.row && fits then found + charge.amount else Usage(s.tables.used, row)
  {
    hide Release;
  }

  lemma ConsumeStepLocal(cfg: Config, s: State, p: nat, q: nat)
    requires p < |s.procs| == |cfg.calls| && cfg.calls[p].Single? && q < |s.procs| && p != q
    ensures |ConsumeStep(cfg, s, p).procs| == |s.procs| && ConsumeStep(cfg, s, p).procs[q] == s.procs[q]
  {
    hide Release, Usage, Admits;
  }

  lemma ConsumeStepDecides(cfg: Config, s: State, p: nat, request: CounterRequest, now: int, row: Row)
    requires p < |s.procs| == |cfg.calls| && cfg.calls[p] == Single(ChargeOf(request, now))
    ensures var found, next := Usage(s.tables.used, ChargeOf(request, now).row), ConsumeStep(cfg, s, p);
            && |next.procs| == |s.procs| && next.procs[p] == Finished(DurableDecision(found, request), true)
            && Usage(next.tables.used, row)
               == if row == ChargeOf(request, now).row && DurableDecision(found, request).Admitted?
                  then found + Amount(request) else Usage(s.tables.used, row)
  {
    hide ConsumeStep, Usage, ChargeOf, Amount, Length;
    ChargeAmounts(request, now);
    ConsumeStepEffect(cfg, s, p, ChargeOf(request, now), row);
  }

  /** The same over the durable store, for two processes whose calls are single requests. */
  lemma DurableSecondCall(cfg: Config, s: State, p: nat, q: nat, r1: CounterRequest, t1: int, r2: CounterRequest,
                          t2: int)
    requires |s.procs| == |cfg.calls| && p < |cfg.calls| && q < |cfg.calls| && p != q
    requires cfg.calls[p] == Single(ChargeOf(r1, t1)) && cfg.calls[q] == Single(ChargeOf(r2, t2))
    requires s.procs[p] == Idle && s.procs[q] == Idle && CanStep(cfg, s, p) && CanStep(cfg, s, q)
    requires r1.key == r2.key && Length(r1) == Length(r2) && FourDigitYear(t1) && FourDigitYear(t2)
    ensures var next := StepOf(cfg, s, p);
            && |next.procs| == |cfg.calls| && CanStep(cfg, next, q) && next.procs[p].Finished?
            && var first, second := next.procs[p].outcome, StepOf(cfg, next, q).procs[q];
            && (first.Admitted? || first.Denied?)
            && second == if first.Admitted? && t1 / Length(r1) == t2 / Length(r1)
                         then Finished(DurableDecision(first.used, r2), true) else StepOf(cfg, s, q).procs[q]
  {
    hide CounterRow, FourDigitYear, NextResetAt, CanStep, StepOf, CanConsume;
    hide ChargeOf, Length, Amount, ConsumeStep, Usage;
    var next := ConsumeStep(cfg, s, p);
    var row := ChargeOf(r2, t2).row;
    ConsumeStepDecides(cfg, s, p, r1, t1, row);
    SingleStep(cfg, s, p);
    SingleStep(cfg, s, q);
    ConsumeStepFrees(cfg, s, p, q);
    ConsumeStepLocal(cfg, s, p, q);
    SingleStep(cfg, next, q);
    ConsumeStepDecides(cfg, s, q, r2, t2, row);
    ConsumeStepDecides(cfg, next, q, r2, t2, row);
    SameKindMeets(r1, t1, r2, t2);
  }
}
