/** What holds over whole runs of admissions: exact reports, every ceiling at once, honest reset times. */
module AdmissionRuns {
  import opened Calendar
  import opened CounterStore
  import opened CounterLedger
  import opened Requests
  import opened PublicRecordAdmission

  function LimitsOf(sub: Submission): Limits
    requires Reaches(sub)
  {
    AdmissionLimits(sub.configured).value
  }

  predicate Applies(kind: Kind, sub: Submission) {
    BucketOf(kind, sub.buckets).Some?
  }

  lemma KindsApply(kind: Kind, sub: Submission)
    ensures kind in Kinds(sub.buckets) <==> Applies(kind, sub)
  {
  }

  /** The charge a submission makes against one ceiling. */
  function ChargeFor(kind: Kind, sub: Submission): Charge
    requires Reaches(sub) && Applies(kind, sub)
  {
    ChargeAt(kind, sub.surfaceId, sub.buckets, LimitsOf(sub), sub.now)
  }

  predicate Full(ledger: Ledger, kind: Kind, sub: Submission)
    requires Reaches(sub)
  {
    Applies(kind, sub) && Overflows(ledger.used, ChargeFor(kind, sub))
  }

  function ReceiptOf(sub: Submission): Row {
    ReceiptRow(sub.attempt, sub.now)
  }

  lemma CallShape(sub: Submission)
    requires Reaches(sub)
    ensures CallOf(sub).Once? && CallOf(sub).receipt == ReceiptOf(sub)
    ensures CallOf(sub).fingerprint == sub.attempt.fingerprint
    ensures |CallOf(sub).charges| == |Kinds(sub.buckets)| == |RequestsOf(sub)| && DistinctRows(CallOf(sub).charges)
    ensures forall k :: 0 <= k < |Kinds(sub.buckets)|
              ==> CallOf(sub).charges[k] == ChargeFor(Kinds(sub.buckets)[k], sub)
  {
    hide ChargeAt, Kinds, Charges, RecordRequests, Uncategorised;
    hide BucketOf, RequestOf, ChargeOf, DistinctRows, CounterRow;
    RecordRowsDistinct(sub.surfaceId, sub.buckets, LimitsOf(sub), sub.now);
    forall k | 0 <= k < |Kinds(sub.buckets)|
      ensures CallOf(sub).charges[k] == ChargeFor(Kinds(sub.buckets)[k], sub)
    {
      ChargeOfKind(sub.surfaceId, sub.buckets, LimitsOf(sub), sub.now, k);
    }
  }

  // ----- The decision -----------------------------------------------------------------------------

  /** The three ways a reaching submission is decided, from the receipts and counters alone. */
  lemma PerformDecides(ledger: Ledger, sub: Submission)
    requires Reaches(sub)
    ensures var (next, outcome) := Perform(ledger, CallOf(sub));
            var held := ReceiptOf(sub) in ledger.receipts;
            && (held ==> next == ledger)
            && (held ==> outcome == if ledger.receipts[ReceiptOf(sub)] == sub.attempt.fingerprint then Replayed
                                    else Conflict)
            && (outcome == Consumed <==> !held && forall kind :: !Full(ledger, kind, sub))
            && (outcome != Consumed && !held ==>
                  next == ledger && outcome == Refused(Exhaustion(ledger.used, CallOf(sub).charges))
                  && outcome.exhausted != [])
  {
    hide ReceiptRow, ChargeAt, CallOf, Kinds, Overflows, Reaches, Spend, Exhaustion;
    CallShape(sub);
    var charges := CallOf(sub).charges;
    ExhaustionEmpty(ledger.used, charges);
    forall kind | Full(ledger, kind, sub)
      ensures exists k :: 0 <= k < |charges| && Overflows(ledger.used, charges[k])
    {
      KindsApply(kind, sub);
      var k :| 0 <= k < |Kinds(sub.buckets)| && Kinds(sub.buckets)[k] == kind;
      assert Overflows(ledger.used, charges[k]);
    }
    forall k | 0 <= k < |charges| && Overflows(ledger.used, charges[k])
      ensures exists kind :: Full(ledger, kind, sub)
    {
      KindsApply(Kinds(sub.buckets)[k], sub);
      assert Full(ledger, Kinds(sub.buckets)[k], sub);
    }
  }

  // ----- The report -------------------------------------------------------------------------------

  function Reported(kind: Kind, sub: Submission): ReportedLimit
    requires Reaches(sub)
  {
    ReportedLimit(CategoryOf(kind), LimitOf(kind, LimitsOf(sub)), NextResetAt(sub.now, WindowOf(kind)))
  }

  lemma {:induction false} CategoryForFirst(requests: seq<CategoryRequest>, k: nat)
    requires k < |requests|
    requires forall i :: 0 <= i < k ==> requests[i].request.key != requests[k].request.key
    ensures CategoryFor(requests, requests[k].request.key) == requests[k].category
  {
    if k > 0 { CategoryForFirst(requests[1..], k - 1); }
  }

  /** A notice is reported under the category of the ceiling that raised it. */
  lemma NoticeCategory(sub: Submission, k: nat)
    requires Reaches(sub) && k < |Kinds(sub.buckets)|
    ensures var kind := Kinds(sub.buckets)[k];
            CategoryFor(RequestsOf(sub), ChargeFor(kind, sub).notice.key) == CategoryOf(kind)
  {
    hide KeyOf, CounterRow, NextResetAt, Reaches, Kinds;
    var requests, kinds := RequestsOf(sub), Kinds(sub.buckets);
    forall i | 0 <= i < k
      ensures requests[i].request.key != requests[k].request.key
    {
      KindsDiffer(sub.buckets, i, k);
      var bi, bk := BucketOf(kinds[i], sub.buckets).value, BucketOf(kinds[k], sub.buckets).value;
      var left, right := KeyOf(kinds[i], sub.surfaceId, bi), KeyOf(kinds[k], sub.surfaceId, bk);
      assert left + "" == left && right + "" == right;
      if left == right {
        KeyTellsKind(kinds[i], sub.surfaceId, bi, kinds[k], sub.surfaceId, bk, "", "");
      }
    }
    CategoryForFirst(requests, k);
  }

  lemma {:induction false} LatestResetIsMax(limits: seq<ReportedLimit>)
    requires limits != []
    ensures forall k :: 0 <= k < |limits| ==> limits[k].resetAt <= LatestReset(limits)
    ensures exists k :: 0 <= k < |limits| && limits[k].resetAt == LatestReset(limits)
  {
    if |limits| == 1 {
      assert limits[0].resetAt == LatestReset(limits);
    } else {
      LatestResetIsMax(limits[1..]);
      var k :| 0 <= k < |limits[1..]| && limits[1..][k].resetAt == LatestReset(limits[1..]);
      assert limits[if LatestReset(limits[1..]) > limits[0].resetAt then k + 1 else 0].resetAt == LatestReset(limits);
      forall i | 0 <= i < |limits| ensures limits[i].resetAt <= LatestReset(limits) {
        if i > 0 { assert limits[i] == limits[1..][i - 1]; }
      }
    }
  }

  /** The report of a refusal holds exactly one line per full ceiling, under its own category, limit and reset. */
  lemma ReportNamesFullCeilings(ledger: Ledger, sub: Submission)
    requires Reaches(sub)
    ensures var lines := Report(RequestsOf(sub), Exhaustion(ledger.used, CallOf(sub).charges));
            forall line :: line in lines <==> exists kind :: Full(ledger, kind, sub) && line == Reported(kind, sub)
  {
    hide CallOf, RequestsOf, ChargeAt, Reaches, Overflows, Kinds, NextResetAt, CategoryFor;
    CallShape(sub);
    var charges, kinds := CallOf(sub).charges, Kinds(sub.buckets);
    var exhausted := Exhaustion(ledger.used, charges);
    var lines := Report(RequestsOf(sub), exhausted);
    ExhaustionExact(ledger.used, charges);
    forall line | line in lines
      ensures exists kind :: Full(ledger, kind, sub) && line == Reported(kind, sub)
    {
      var i :| 0 <= i < |lines| && lines[i] == line;
      assert exhausted[i] in exhausted;
      var k :| 0 <= k < |charges| && Overflows(ledger.used, charges[k]) && charges[k].notice == exhausted[i];
      LineOfKind(sub, k);
      KindsApply(kinds[k], sub);
      assert Full(ledger, kinds[k], sub);
    }
    forall kind | Full(ledger, kind, sub)
      ensures Reported(kind, sub) in lines
    {
      KindsApply(kind, sub);
      var k :| 0 <= k < |kinds| && kinds[k] == kind;
      LineOfKind(sub, k);
      assert charges[k].notice in exhausted;
      var i :| 0 <= i < |exhausted| && exhausted[i] == charges[k].notice;
      assert lines[i] == Reported(kind, sub);
    }
  }

  lemma LineOfKind(sub: Submission, k: nat)
    requires Reaches(sub) && k < |Kinds(sub.buckets)|
    ensures var kind := Kinds(sub.buckets)[k];
            var notice := ChargeFor(kind, sub).notice;
            ReportedLimit(CategoryFor(RequestsOf(sub), notice.key), notice.limit, notice.resetAt) == Reported(kind, sub)
  {
    hide CategoryFor, RequestsOf, NextResetAt, KeyOf, CounterRow, Reaches, Kinds;
    NoticeCategory(sub, k);
  }

  /**
   * A submission that reaches the counters is refused for quota exactly when it has no receipt and some ceiling is
   * full; the refusal changes nothing, lists exactly the full ceilings and gives the latest of their resets.
   * The duplicate-row failure never surfaces, and a conflict is exactly a receipt with another fingerprint.
   */
  lemma DecisionIsExact(ledger: Ledger, sub: Submission)
    requires Reaches(sub)
    ensures var (next, result) := Admit(ledger, sub);
            var held := ReceiptOf(sub) in ledger.receipts;
            && !result.Unavailable?
            && (result.IdempotencyConflict? <==> held && ledger.receipts[ReceiptOf(sub)] != sub.attempt.fingerprint)
            && (result.QuotaExceeded? <==> !held && exists kind :: Full(ledger, kind, sub))
            && (!result.Allowed? ==> next == ledger)
            && (result.QuotaExceeded? ==>
                  && (forall line :: line in result.limits
                        <==> exists kind :: Full(ledger, kind, sub) && line == Reported(kind, sub))
                  && (forall line :: line in result.limits ==> line.resetAt <= result.resetAt)
                  && (exists line :: line in result.limits && line.resetAt == result.resetAt))
  {
    hide CallOf, RequestsOf, ReceiptOf, Full, Report, Reaches, Exhaustion, LatestReset, Perform;
    PerformDecides(ledger, sub);
    CallShape(sub);
    var exhausted := Exhaustion(ledger.used, CallOf(sub).charges);
    var lines := Report(RequestsOf(sub), exhausted);
    if Admit(ledger, sub).1.QuotaExceeded? {
      ReportNamesFullCeilings(ledger, sub);
      LatestResetIsMax(lines);
      var k :| 0 <= k < |lines| && lines[k].resetAt == LatestReset(lines);
      assert lines[k] in lines;
    }
  }

  // ----- Every ceiling at once --------------------------------------------------------------------

  /** The ledger after a run of submissions. */
  function StateAfter(run: seq<Submission>): Ledger {
    if run == [] then EMPTY else Admit(StateAfter(run[..|run| - 1]), run[|run| - 1]).0
  }

  /** The submission is admitted and charged, not replayed. */
  predicate Fresh(ledger: Ledger, sub: Submission) {
    Reaches(sub) && Perform(ledger, CallOf(sub)).1 == Consumed
  }

  predicate On(sub: Submission, kind: Kind, row: Row) {
    Reaches(sub) && Applies(kind, sub) && ChargeFor(kind, sub).row == row
  }

  /** How many submissions of a run were freshly admitted against one row of one ceiling. */
  function FreshOn(run: seq<Submission>, kind: Kind, row: Row): nat {
    if run == [] then 0
    else
      var init, last := run[..|run| - 1], run[|run| - 1];
      FreshOn(init, kind, row) + if Fresh(StateAfter(init), last) && On(last, kind, row) then 1 else 0
  }

  /** A submission charges a row of a ceiling by one when it is on that row, and by nothing otherwise. */
  lemma OneOrNothing(sub: Submission, kind: Kind, row: Row, surface: string, bucket: string, t: int)
    requires Reaches(sub) && row == RowOfKind(kind, surface, bucket, t)
    ensures Charged(CallOf(sub).charges, row) == if On(sub, kind, row) then 1 else 0
    ensures CarriesLimit(CallOf(sub), row, LimitOf(kind, LimitsOf(sub)))
  {
    hide RowOfKind, CallOf, Kinds, Reaches, DistinctRows, NextResetAt, KeyOf, BucketOf;
    CallShape(sub);
    var charges, kinds := CallOf(sub).charges, Kinds(sub.buckets);
    forall k | 0 <= k < |charges| && charges[k].row == row
      ensures kinds[k] == kind && charges[k].amount == 1 && charges[k].limit == LimitOf(kind, LimitsOf(sub))
    {
      RowTellsKind(kinds[k], sub.surfaceId, BucketOf(kinds[k], sub.buckets).value, sub.now, kind, surface, bucket, t);
    }
    if On(sub, kind, row) {
      KindsApply(kind, sub);
      var k :| 0 <= k < |kinds| && kinds[k] == kind;
      ChargedDistinct(charges, k);
    } else {
      forall k | 0 <= k < |charges| ensures charges[k].row != row {
        KindsApply(kinds[k], sub);
      }
      ChargedAbsent(charges, row);
    }
  }

  lemma AdmitUsage(ledger: Ledger, sub: Submission, row: Row)
    ensures Usage(Admit(ledger, sub).0.used, row) == Usage(ledger.used, row) +
              if Fresh(ledger, sub) then Charged(CallOf(sub).charges, row) else 0
  {
    hide ReceiptOf, Full, Reaches, Exhaustion, Perform, CallOf, ResultOf;
    if Reaches(sub) {
      CallShape(sub);
      PerformDecides(ledger, sub);
      PerformCharges(ledger, CallOf(sub), row);
    }
  }

  /**
   * With fixed limits a ceiling's row holds exactly the number of fresh admissions on it, and that number obeys
   * the ceiling: visitor and network per minute and per hour, surface per UTC day, all at once.
   */
  lemma {:induction false} CeilingsHold(run: seq<Submission>, limits: Limits,
                                        kind: Kind, row: Row, surface: string, bucket: string, t: int)
    requires forall i :: 0 <= i < |run| && Reaches(run[i]) ==> LimitsOf(run[i]) == limits
    requires LimitOf(kind, limits) >= 0 && row == RowOfKind(kind, surface, bucket, t)
    ensures Usage(StateAfter(run).used, row) == FreshOn(run, kind, row) <= LimitOf(kind, limits)
  {
    hide RowOfKind, CallOf, Reaches, Perform, On, Charged, CarriesLimit, Admit, LimitsOf;
    if run != [] {
      var init, last := run[..|run| - 1], run[|run| - 1];
      CeilingsHold(init, limits, kind, row, surface, bucket, t);
      AdmitUsage(StateAfter(init), last, row);
      if Reaches(last) {
        CallShape(last);
        OneOrNothing(last, kind, row, surface, bucket, t);
        FreshKeepsCeiling(StateAfter(init), last, row, LimitOf(kind, limits));
      }
    }
  }

  lemma FreshKeepsCeiling(ledger: Ledger, sub: Submission, row: Row, limit: nat)
    requires Reaches(sub) && CarriesLimit(CallOf(sub), row, limit) && Usage(ledger.used, row) <= limit
    ensures Usage(Admit(ledger, sub).0.used, row) <= limit
  {
    hide CallOf, Perform, CarriesLimit, ResultOf;
    PerformKeepsCeiling(ledger, CallOf(sub), row, limit);
  }

  /** Two submissions of one surface and bucket meet on a ceiling's row exactly within one window. */
  lemma RowsAreCeilingWindows(kind: Kind, surface: string, bucket: string, t1: int, t2: int)
    requires FourDigitYear(t1) && FourDigitYear(t2)
    ensures RowOfKind(kind, surface, bucket, t1) == RowOfKind(kind, surface, bucket, t2)
       <==> WindowIndex(WindowOf(kind), t1) == WindowIndex(WindowOf(kind), t2)
  {
    hide CounterRow, KeyOf;
    RowsAreWindows(KeyOf(kind, surface, bucket), WindowOf(kind), t1, t2);
  }

  // ----- Distinct attempts ------------------------------------------------------------------------

  predicate FreshAt(run: seq<Submission>, i: int, receipt: Row) {
    0 <= i < |run| && Fresh(StateAfter(run[..i]), run[i]) && ReceiptOf(run[i]) == receipt
  }

  lemma AdmitReceipts(ledger: Ledger, sub: Submission, receipt: Row)
    ensures var next := Admit(ledger, sub).0;
            var writes := Fresh(ledger, sub) && ReceiptOf(sub) == receipt;
            && (receipt in next.receipts <==> receipt in ledger.receipts || writes)
            && (receipt in ledger.receipts ==> !writes && next.receipts[receipt] == ledger.receipts[receipt])
            && (writes ==> next.receipts[receipt] == sub.attempt.fingerprint)
  {
    hide ReceiptOf, Reaches, CallOf, Perform, ResultOf;
    if Reaches(sub) {
      CallShape(sub);
      PerformReceipts(ledger, CallOf(sub), receipt);
    }
  }

  /** A receipt is on file exactly when one submission of the run was freshly admitted for it. */
  lemma {:induction false} ReceiptFromFresh(run: seq<Submission>, receipt: Row)
    ensures receipt in StateAfter(run).receipts <==> exists i :: FreshAt(run, i, receipt)
    ensures forall i :: FreshAt(run, i, receipt) ==>
              StateAfter(run).receipts[receipt] == run[i].attempt.fingerprint
    ensures forall i, j :: FreshAt(run, i, receipt) && FreshAt(run, j, receipt) ==> i == j
  {
    hide Fresh, ReceiptOf, Admit;
    if run != [] {
      var n := |run| - 1;
      var init := run[..n];
      ReceiptFromFresh(init, receipt);
      AdmitReceipts(StateAfter(init), run[n], receipt);
      forall i | i != n ensures FreshAt(run, i, receipt) <==> FreshAt(init, i, receipt) {
        if 0 <= i < n { assert run[..i] == init[..i]; }
      }
      assert FreshAt(run, n, receipt) <==> Fresh(StateAfter(init), run[n]) && ReceiptOf(run[n]) == receipt;
      if i :| FreshAt(init, i, receipt) { assert FreshAt(run, i, receipt); }
    }
  }

  /**
   * Every admission is one attempt charged once: it was charged either now or by exactly one earlier submission
   * of the same attempt, day and fingerprint, so distinct admitted attempts are counted by the fresh admissions.
   */
  lemma AllowedWasChargedOnce(run: seq<Submission>, j: nat)
    requires j < |run| && Admit(StateAfter(run[..j]), run[j]).1 == Allowed
    ensures exists i ::
              && 0 <= i <= j && FreshAt(run, i, ReceiptOf(run[j]))
              && run[i].attempt.fingerprint == run[j].attempt.fingerprint
              && forall other :: FreshAt(run, other, ReceiptOf(run[j])) ==> other == i
  {
    hide ReceiptOf, CallOf, Reaches, Full, Report, LatestReset, Exhaustion, Perform;
    var state, receipt := StateAfter(run[..j]), ReceiptOf(run[j]);
    ReceiptFromFresh(run, receipt);
    PerformDecides(state, run[j]);
    if Fresh(state, run[j]) {
      assert FreshAt(run, j, receipt);
    } else {
      ReceiptFromFresh(run[..j], receipt);
      var i :| FreshAt(run[..j], i, receipt);
      assert run[..j][..i] == run[..i];
      assert FreshAt(run, i, receipt);
    }
  }

  // ----- Honest resets ----------------------------------------------------------------------------

  /** The row was made by a charge no later than `now`. */
  ghost predicate ChargedBy(row: Row, now: int) {
    exists kind, surface, bucket, t :: t <= now && FourDigitYear(t) && row == RowOfKind(kind, surface, bucket, t)
  }

  ghost predicate AttemptedBy(row: Row, now: int) {
    exists attempt, t :: t <= now && FourDigitYear(t) && row == ReceiptRow(attempt, t)
  }

  ghost predicate DatedBy(ledger: Ledger, now: int) {
    && (forall row :: row in ledger.used ==> ChargedBy(row, now))
    && (forall row :: row in ledger.receipts ==> AttemptedBy(row, now))
  }

  lemma AdmitDated(ledger: Ledger, sub: Submission, now: int)
    requires DatedBy(ledger, now) && sub.now <= now && FourDigitYear(sub.now)
    ensures DatedBy(Admit(ledger, sub).0, now)
  {
    hide ReceiptRow, RowOfKind, CallOf, Reaches, NextResetAt, KeyOf;
    hide Spend, Kinds, FourDigitYear, ResultOf, BucketOf, Full;
    if Fresh(ledger, sub) {
      CallShape(sub);
      PerformDecides(ledger, sub);
      var charges := CallOf(sub).charges;
      var next := Admit(ledger, sub).0;
      assert next.used == Spend(ledger.used, charges);
      assert AttemptedBy(ReceiptOf(sub), now);
      forall row | row in next.used
        ensures ChargedBy(row, now)
      {
        SpendAdds(ledger.used, charges, row);
        if row !in ledger.used {
          var k :| 0 <= k < |charges| && charges[k].row == row;
          var kind := Kinds(sub.buckets)[k];
          assert row == RowOfKind(kind, sub.surfaceId, BucketOf(kind, sub.buckets).value, sub.now);
        }
      }
    } else if Reaches(sub) {
      PerformDecides(ledger, sub);
    }
  }

  lemma {:induction false} RunsAreDated(run: seq<Submission>, now: int)
    requires forall i :: 0 <= i < |run| ==> run[i].now <= now && FourDigitYear(run[i].now)
    ensures DatedBy(StateAfter(run), now)
  {
    if run != [] {
      RunsAreDated(run[..|run| - 1], now);
      AdmitDated(StateAfter(run[..|run| - 1]), run[|run| - 1], now);
    }
  }

  lemma SuffixTells(key1: string, t1: int, key2: string, t2: int, window: Window)
    requires CounterRow(key1, window, t1) == CounterRow(key2, window, t2)
    ensures CounterRow("", window, t1) == CounterRow("", window, t2)
  {
    hide DayKey;
    RowKeySplit(key1, window, t1);
    RowKeySplit(key2, window, t2);
    RowKeySplit("", window, t1);
    RowKeySplit("", window, t2);
    var s1, s2 := Suffix(window, t1), Suffix(window, t2);
    SameLengthEnds(key1, s1, key2, s2);
    assert "" + s1 == s1 && "" + s2 == s2;
  }

  lemma SameLengthEnds(a: string, b: string, c: string, d: string)
    requires a + b == c + d && |b| == |d|
    ensures b == d
  {
    assert (a + b)[|a|..] == b && (c + d)[|c|..] == d;
  }

  /** Nothing charged up to `now` sits on a row of the window that opens at or after the next reset. */
  lemma LaterRowsAreEmpty(ledger: Ledger, now: int, kind: Kind, surface: string, bucket: string, at: int)
    requires DatedBy(ledger, now) && NextResetAt(now, WindowOf(kind)) <= at
    ensures RowOfKind(kind, surface, bucket, at) !in ledger.used
  {
    hide CounterRow, NextResetAt, KeyOf, FourDigitYear;
    var row := RowOfKind(kind, surface, bucket, at);
    if row in ledger.used {
      var k, s, b, t :| t <= now && FourDigitYear(t) && row == RowOfKind(k, s, b, t);
      RowTellsKind(kind, surface, bucket, at, k, s, b, t);
      SuffixTells(KeyOf(kind, surface, bucket), at, KeyOf(k, s, b), t, WindowOf(kind));
      ResetsAdvance(t, now, WindowOf(kind));
      RowLastsUntilReset("", WindowOf(kind), t, at);
    }
  }

  lemma ResetsAdvance(t: int, now: int, window: Window)
    requires t <= now
    ensures now < NextResetAt(now, window) && NextResetAt(t, window) <= NextResetAt(now, window)
  {
    hide WindowIndex;
    WindowBounds(window, t);
    WindowBounds(window, now);
    if NextResetAt(t, window) <= now { } else { assert WindowIndex(window, now) == WindowIndex(window, t); }
  }

  /** A receipt missing at `now` is still missing later, on the same day or another. */
  lemma LaterReceiptsAreMissing(ledger: Ledger, now: int, attempt: Attempt, at: int)
    requires DatedBy(ledger, now) && now <= at && FourDigitYear(now) && ReceiptRow(attempt, now) !in ledger.receipts
    ensures ReceiptRow(attempt, at) !in ledger.receipts
  {
    hide NextResetAt, FourDigitYear, DayKey;
    var row := ReceiptRow(attempt, at);
    if row in ledger.receipts {
      var a, t :| t <= now && FourDigitYear(t) && row == ReceiptRow(a, t);
      RowLastsUntilReset(attempt.key, Daily, t, at);
      RowLastsUntilReset(attempt.key, Daily, t, now);
    }
  }

  /** At the retry no ceiling is full: a reached reset opens an empty row, and the other rows had room already. */
  lemma CeilingOpens(ledger: Ledger, sub: Submission, kind: Kind, at: int)
    requires Reaches(sub) && DatedBy(ledger, sub.now) && FourDigitYear(sub.now) && sub.now <= at
    requires LimitOf(kind, LimitsOf(sub)) >= 1
    requires Full(ledger, kind, sub) ==> NextResetAt(sub.now, WindowOf(kind)) <= at
    ensures !Full(ledger, kind, sub.(now := at))
  {
    hide CounterRow, NextResetAt, KeyOf, FourDigitYear, AdmissionLimits, BucketOf;
    if Applies(kind, sub) {
      var bucket := BucketOf(kind, sub.buckets).value;
      if NextResetAt(sub.now, WindowOf(kind)) <= at {
        LaterRowsAreEmpty(ledger, sub.now, kind, sub.surfaceId, bucket, at);
      } else {
        RowLastsUntilReset(KeyOf(kind, sub.surfaceId, bucket), WindowOf(kind), sub.now, at);
      }
    }
  }

  /**
   * The reset time is honest: after any earlier run dated no later than the refusal, with every limit at least one,
   * the same attempt retried at the reported time is admitted and charged.
   */
  lemma {:induction false} ResetIsHonest(run: seq<Submission>, sub: Submission)
    requires Reaches(sub) && FourDigitYear(sub.now) && forall kind :: LimitOf(kind, LimitsOf(sub)) >= 1
    requires forall i :: 0 <= i < |run| ==> run[i].now <= sub.now && FourDigitYear(run[i].now)
    requires Admit(StateAfter(run), sub).1.QuotaExceeded?
    ensures var (after, refusal) := Admit(StateAfter(run), sub);
            && sub.now < refusal.resetAt
            && Fresh(after, sub.(now := refusal.resetAt))
            && Admit(after, sub.(now := refusal.resetAt)).1 == Allowed
  {
    hide CounterRow, NextResetAt, FourDigitYear, AdmissionLimits, CallOf, RequestsOf, Full, DatedBy, Exhaustion, Report;
    hide LatestReset, Perform, Charges, RecordRequests;
    var ledger := StateAfter(run);
    var (after, refusal) := Admit(ledger, sub);
    var at := refusal.resetAt;
    DecisionIsExact(ledger, sub);
    RunsAreDated(run, sub.now);
    var line :| line in refusal.limits && line.resetAt == at;
    var last :| Full(ledger, last, sub) && line == Reported(last, sub);
    ResetsAdvance(sub.now, sub.now, WindowOf(last));
    LaterReceiptsAreMissing(ledger, sub.now, sub.attempt, at);
    var retry := sub.(now := at);
    forall kind ensures !Full(ledger, kind, retry) {
      if Full(ledger, kind, sub) { assert Reported(kind, sub) in refusal.limits; }
      CeilingOpens(ledger, sub, kind, at);
    }
    PerformDecides(ledger, retry);
  }
}
