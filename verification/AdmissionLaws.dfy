/** Who shares a ceiling with whom, said in the fields of the submissions, literal keys, limits and milliseconds. */
module AdmissionLaws {
  import opened Text
  import opened Calendar
  import opened CounterStore
  import opened CounterLedger
  import opened Requests
  import opened PublicRecordAdmission
  import opened AdmissionRuns

  // ----- The request list -------------------------------------------------------------------------

  function MinuteRequest(name: string, surface: string, bucket: string, limit: int): CounterRequest {
    CounterRequest("solution-intake:" + name + ":minute:" + surface + ":" + bucket, limit, None, Some(Minutely))
  }

  function HourRequest(name: string, surface: string, bucket: string, limit: int): CounterRequest {
    CounterRequest("solution-intake:" + name + ":hour:" + surface + ":" + bucket, limit, None, Some(Hourly))
  }

  function DayRequest(surface: string, limit: int): CounterRequest {
    CounterRequest("solution-intake:" + "surface" + ":" + surface, limit, None, Some(Daily))
  }

  /** One submission's requests, each with its key, limit, window and category. */
  function Listed(surface: string, buckets: Buckets, limits: Limits): seq<CategoryRequest> {
    (if buckets.visitor.Some? then
       [CategoryRequest(MinuteRequest("visitor", surface, buckets.visitor.value, limits.visitorPerMinute), Visitor),
        CategoryRequest(HourRequest("visitor", surface, buckets.visitor.value, limits.visitorPerHour), Visitor)]
     else [])
    + (if buckets.network.Some? then
         [CategoryRequest(MinuteRequest("network", surface, buckets.network.value, limits.networkPerMinute), Network),
          CategoryRequest(HourRequest("network", surface, buckets.network.value, limits.networkPerHour), Network)]
       else [])
    + [CategoryRequest(DayRequest(surface, limits.installationPerDay), Installation)]
  }

  lemma RequestsAreListed(surface: string, buckets: Buckets, limits: Limits)
    ensures RecordRequests(surface, buckets, limits) == Listed(surface, buckets, limits)
  {
    hide KeyOf, MinuteRequest, HourRequest, DayRequest;
    VisitorKeys(surface, buckets, limits);
    NetworkKeys(surface, buckets, limits);
    SurfaceKey(surface, buckets, limits);
  }

  lemma VisitorKeys(surface: string, buckets: Buckets, limits: Limits)
    ensures buckets.visitor.Some? ==>
      && RequestOf(VisitorMinute, surface, buckets, limits).request
         == MinuteRequest("visitor", surface, buckets.visitor.value, limits.visitorPerMinute)
      && RequestOf(VisitorHour, surface, buckets, limits).request
         == HourRequest("visitor", surface, buckets.visitor.value, limits.visitorPerHour)
  {
  }

  lemma NetworkKeys(surface: string, buckets: Buckets, limits: Limits)
    ensures buckets.network.Some? ==>
      && RequestOf(NetworkMinute, surface, buckets, limits).request
         == MinuteRequest("network", surface, buckets.network.value, limits.networkPerMinute)
      && RequestOf(NetworkHour, surface, buckets, limits).request
         == HourRequest("network", surface, buckets.network.value, limits.networkPerHour)
  {
  }

  lemma SurfaceKey(surface: string, buckets: Buckets, limits: Limits)
    ensures RequestOf(SurfaceDay, surface, buckets, limits).request == DayRequest(surface, limits.installationPerDay)
  {
  }

  // ----- Who shares a counter ------------------------------------------------------------------------

  /** The bucket a ceiling counts by: the visitor's, the network's, or none for the whole surface. */
  function OwnBucket(kind: Kind, buckets: Buckets): Option<string> {
    match kind
    case VisitorMinute => buckets.visitor
    case VisitorHour => buckets.visitor
    case NetworkMinute => buckets.network
    case NetworkHour => buckets.network
    case SurfaceDay => Some("")
  }

  function OwnText(kind: Kind, surface: string, bucket: string): string {
    if kind == SurfaceDay then surface else surface + ":" + bucket
  }

  function Milliseconds(kind: Kind): (length: nat)
    ensures length > 0
  {
    match kind
    case VisitorMinute => 60_000
    case VisitorHour => 3_600_000
    case NetworkMinute => 60_000
    case NetworkHour => 3_600_000
    case SurfaceDay => 86_400_000
  }

  lemma BucketsAgree(kind: Kind, buckets: Buckets)
    ensures BucketOf(kind, buckets) == OwnBucket(kind, buckets)
  {
  }

  lemma WindowsAgree(kind: Kind, t: int)
    ensures WindowIndex(WindowOf(kind), t) == t / Milliseconds(kind)
  {
  }

  lemma KeysMeet(kind: Kind, s1: string, b1: string, s2: string, b2: string)
    ensures KeyOf(kind, s1, b1) == KeyOf(kind, s2, b2) <==> OwnText(kind, s1, b1) == OwnText(kind, s2, b2)
  {
    hide Prefix;
    KeyIsPrefixed(kind, s1, b1);
    KeyIsPrefixed(kind, s2, b2);
    var front := Prefix(kind);
    assert (front + OwnText(kind, s1, b1))[|front|..] == OwnText(kind, s1, b1);
    assert (front + OwnText(kind, s2, b2))[|front|..] == OwnText(kind, s2, b2);
  }

  lemma KeyIsPrefixed(kind: Kind, surface: string, bucket: string)
    ensures KeyOf(kind, surface, bucket) == Prefix(kind) + OwnText(kind, surface, bucket)
  {
    hide Prefix;
    if kind != SurfaceDay {
      assert Prefix(kind) + surface + ":" + bucket == Prefix(kind) + (surface + ":" + bucket);
    }
  }

  /** At one instant two submissions meet on a ceiling's row exactly when surface and bucket spell one text. */
  lemma RowsAtOneInstant(kind: Kind, s1: string, b1: string, s2: string, b2: string, t: int)
    ensures RowOfKind(kind, s1, b1, t) == RowOfKind(kind, s2, b2, t)
            <==> OwnText(kind, s1, b1) == OwnText(kind, s2, b2)
  {
    hide KeyOf, CounterRow, Suffix, OwnText;
    KeysMeet(kind, s1, b1, s2, b2);
    var k1, k2, suffix := KeyOf(kind, s1, b1), KeyOf(kind, s2, b2), Suffix(WindowOf(kind), t);
    RowKeySplit(k1, WindowOf(kind), t);
    RowKeySplit(k2, WindowOf(kind), t);
    SameEnds(k1, suffix, k2, suffix);
  }

  /** Over time they meet exactly when, besides, they fall in one minute, hour or UTC day. */
  lemma RowsMeet(kind: Kind, s1: string, b1: string, t1: int, s2: string, b2: string, t2: int)
    requires FourDigitYear(t1) && FourDigitYear(t2)
    ensures RowOfKind(kind, s1, b1, t1) == RowOfKind(kind, s2, b2, t2)
            <==> OwnText(kind, s1, b1) == OwnText(kind, s2, b2) && t1 / Milliseconds(kind) == t2 / Milliseconds(kind)
  {
    hide KeyOf, CounterRow, OwnText, FourDigitYear, WindowIndex, Milliseconds;
    KeysMeet(kind, s1, b1, s2, b2);
    SameKindRows(KeyOf(kind, s1, b1), t1, KeyOf(kind, s2, b2), t2, WindowOf(kind));
    WindowsAgree(kind, t1);
    WindowsAgree(kind, t2);
  }

  /** Surfaces without a colon: only the same surface and the same bucket share a visitor's or network's counter. */
  lemma PlainSurfacesApart(kind: Kind, s1: string, b1: string, s2: string, b2: string)
    requires kind != SurfaceDay && ':' !in s1 && ':' !in s2
    ensures OwnText(kind, s1, b1) == OwnText(kind, s2, b2) <==> s1 == s2 && b1 == b2
  {
    var text1, text2 := s1 + ":" + b1, s2 + ":" + b2;
    if text1 == text2 {
      assert text1[..|s1|] == s1 && text1[|s1|] == ':' && text1[|s1| + 1..] == b1;
      assert text2[..|s2|] == s2 && text2[|s2|] == ':' && text2[|s2| + 1..] == b2;
      IndexOfUnique(text1, ':', |s1|);
      IndexOfUnique(text2, ':', |s2|);
    }
  }

  // ----- Only one's own submissions count ----------------------------------------------------------------

  /** Two submissions count against one ceiling: same surface, same visitor or network, same window. */
  predicate Shares(kind: Kind, a: Submission, b: Submission) {
    && OwnBucket(kind, a.buckets).Some? && OwnBucket(kind, b.buckets).Some?
    && OwnText(kind, a.surfaceId, OwnBucket(kind, a.buckets).value)
       == OwnText(kind, b.surfaceId, OwnBucket(kind, b.buckets).value)
    && a.now / Milliseconds(kind) == b.now / Milliseconds(kind)
  }

  /** How many submissions of a run that share the ceiling were freshly admitted. */
  function OwnCount(run: seq<Submission>, kind: Kind, sub: Submission): nat {
    if run == [] then 0
    else
      var init, last := run[..|run| - 1], run[|run| - 1];
      OwnCount(init, kind, sub) + if Fresh(StateAfter(init), last) && Shares(kind, last, sub) then 1 else 0
  }

  lemma OnIsShared(kind: Kind, other: Submission, sub: Submission)
    requires OwnBucket(kind, sub.buckets).Some? && FourDigitYear(other.now) && FourDigitYear(sub.now)
    ensures On(other, kind, RowOfKind(kind, sub.surfaceId, OwnBucket(kind, sub.buckets).value, sub.now))
            <==> Reaches(other) && Shares(kind, other, sub)
  {
    hide RowOfKind, OwnText, Milliseconds, Reaches, FourDigitYear, NextResetAt, LimitOf, KeyOf, BucketOf, OwnBucket;
    BucketsAgree(kind, other.buckets);
    if OwnBucket(kind, other.buckets).Some? {
      RowsMeet(kind, other.surfaceId, OwnBucket(kind, other.buckets).value, other.now,
               sub.surfaceId, OwnBucket(kind, sub.buckets).value, sub.now);
    }
  }

  /** A ceiling's counter holds exactly the fresh admissions that share it. */
  lemma {:induction false} CounterIsOwnCount(run: seq<Submission>, kind: Kind, sub: Submission)
    requires OwnBucket(kind, sub.buckets).Some? && FourDigitYear(sub.now)
    requires forall i :: 0 <= i < |run| ==> FourDigitYear(run[i].now)
    ensures Usage(StateAfter(run).used, RowOfKind(kind, sub.surfaceId, OwnBucket(kind, sub.buckets).value, sub.now))
         == OwnCount(run, kind, sub)
  {
    hide RowOfKind, Shares, Reaches, Perform, CallOf, FourDigitYear, Admit, On, Charged, CarriesLimit, OwnBucket;
    if run != [] {
      var init, last := run[..|run| - 1], run[|run| - 1];
      var bucket := OwnBucket(kind, sub.buckets).value;
      var row := RowOfKind(kind, sub.surfaceId, bucket, sub.now);
      CounterIsOwnCount(init, kind, sub);
      AdmitUsage(StateAfter(init), last, row);
      OnIsShared(kind, last, sub);
      if Reaches(last) {
        CallShape(last);
        OneOrNothing(last, kind, row, sub.surfaceId, bucket, sub.now);
      }
    }
  }

  // ----- The decision, from the submissions alone ----------------------------------------------------------

  /** A limit left at its default, or lowered. */
  function Chosen(configured: Option<int>, default: int): int {
    if configured.Some? then configured.value else default
  }

  function Allowance(kind: Kind, configured: Configured): int {
    match kind
    case VisitorMinute => Chosen(configured.visitorPerMinute, 300)
    case VisitorHour => Chosen(configured.visitorPerHour, 3_000)
    case NetworkMinute => Chosen(configured.networkPerMinute, 600)
    case NetworkHour => Chosen(configured.networkPerHour, 6_000)
    case SurfaceDay => Chosen(configured.installationPerDay, 10_000)
  }

  function Most(kind: Kind): int {
    match kind
    case VisitorMinute => 300
    case VisitorHour => 3_000
    case NetworkMinute => 600
    case NetworkHour => 6_000
    case SurfaceDay => 10_000
  }

  function Named(kind: Kind): Category {
    match kind
    case VisitorMinute => Visitor
    case VisitorHour => Visitor
    case NetworkMinute => Network
    case NetworkHour => Network
    case SurfaceDay => Installation
  }

  /** Without a network bucket, or with a limit out of range, nothing is decided. */
  lemma UnavailableExactly(ledger: Ledger, sub: Submission)
    ensures Admit(ledger, sub).1.Unavailable?
       <==> sub.buckets.network == None || sub.buckets.network == Some("")
            || exists kind :: !(0 <= Allowance(kind, sub.configured) <= Most(kind))
    ensures Admit(ledger, sub).1.Unavailable? ==> Admit(ledger, sub).0 == ledger
  {
    hide CallOf, RequestsOf, Perform, ResultOf;
    LimitsPerCeiling(sub.configured);
    forall kind ensures 0 <= Allowance(kind, sub.configured) <= Most(kind) <==>
      (ConfiguredFor(kind, sub.configured).Some? ==>
         0 <= ConfiguredFor(kind, sub.configured).value <= LimitOf(kind, DEFAULTS)) { }
    if Reaches(sub) { DecisionIsExact(ledger, sub); }
  }

  lemma LimitIsAllowance(kind: Kind, sub: Submission)
    requires Reaches(sub)
    ensures LimitOf(kind, LimitsOf(sub)) == Allowance(kind, sub.configured)
  {
    LimitsPerCeiling(sub.configured);
  }

  /** One's own ceiling is used up: its allowance is zero, or that many fresh admissions share it. */
  predicate UsedUp(run: seq<Submission>, kind: Kind, sub: Submission) {
    OwnBucket(kind, sub.buckets).Some? && OwnCount(run, kind, sub) >= Allowance(kind, sub.configured)
  }

  lemma FullIsUsedUp(run: seq<Submission>, kind: Kind, sub: Submission)
    requires Reaches(sub) && FourDigitYear(sub.now)
    requires forall i :: 0 <= i < |run| ==> FourDigitYear(run[i].now)
    ensures Full(StateAfter(run), kind, sub) <==> UsedUp(run, kind, sub)
  {
    hide StateAfter, OwnCount, RowOfKind, Reaches, FourDigitYear, NextResetAt;
    hide KeyOf, AdmissionLimits, Allowance, BucketOf;
    hide LimitOf, OwnBucket;
    BucketsAgree(kind, sub.buckets);
    if OwnBucket(kind, sub.buckets).Some? {
      CounterIsOwnCount(run, kind, sub);
      LimitIsAllowance(kind, sub);
    }
  }

  lemma ReportedIsSpelled(kind: Kind, sub: Submission)
    requires Reaches(sub)
    ensures Reported(kind, sub) == ReportedLimit(Named(kind), Allowance(kind, sub.configured),
                                                 (sub.now / Milliseconds(kind) + 1) * Milliseconds(kind))
  {
    LimitIsAllowance(kind, sub);
  }

  /**
   * After any run of submissions, a new one with no receipt is refused for quota exactly when one of its own ceilings
   * is used up by fresh admissions of the same surface and visitor or network in the same window. What others submitted
   * never counts. The report names those ceilings, with their category, allowance and the end of their window.
   */
  lemma DecidedByOwnCount(run: seq<Submission>, sub: Submission)
    requires !Admit(StateAfter(run), sub).1.Unavailable?
    requires ReceiptRow(sub.attempt, sub.now) !in StateAfter(run).receipts
    requires FourDigitYear(sub.now) && forall i :: 0 <= i < |run| ==> FourDigitYear(run[i].now)
    ensures var result := Admit(StateAfter(run), sub).1;
            && (result.Allowed? || result.QuotaExceeded?)
            && (result.QuotaExceeded? <==> exists kind :: UsedUp(run, kind, sub))
            && (result.QuotaExceeded? ==> forall line :: line in result.limits <==>
                  exists kind :: UsedUp(run, kind, sub)
                    && line == ReportedLimit(Named(kind), Allowance(kind, sub.configured),
                                             (sub.now / Milliseconds(kind) + 1) * Milliseconds(kind)))
  {
    hide StateAfter, FourDigitYear, Full, UsedUp, ReceiptRow, RequestsOf, CallOf, Perform, Reaches, Reported, Allowance;
    hide Milliseconds;
    var ledger := StateAfter(run);
    DecisionIsExact(ledger, sub);
    forall kind ensures Full(ledger, kind, sub) <==> UsedUp(run, kind, sub) { FullIsUsedUp(run, kind, sub); }
    forall kind ensures Reported(kind, sub) == ReportedLimit(Named(kind), Allowance(kind, sub.configured),
                          (sub.now / Milliseconds(kind) + 1) * Milliseconds(kind)) {
      ReportedIsSpelled(kind, sub);
    }
  }

  /** However often others submit, a visitor's own ceilings are used up only by that visitor's fresh admissions. */
  lemma {:induction false} OthersNeverCount(run: seq<Submission>, kind: Kind, sub: Submission)
    requires forall i :: 0 <= i < |run| ==> !Shares(kind, run[i], sub)
    ensures OwnCount(run, kind, sub) == 0
  {
    if run != [] { OthersNeverCount(run[..|run| - 1], kind, sub); }
  }
}
