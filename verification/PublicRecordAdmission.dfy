/** Admission of public records: up to five ceilings spent as one decision, once per attempt and UTC day. */
module PublicRecordAdmission {
  import opened Text
  import opened Calendar
  import opened CounterStore
  import opened CounterLedger
  import opened Requests
  import opened InMemoryStore

  datatype Category = Visitor | Network | Installation

  datatype Limits = Limits(
    visitorPerMinute: int, visitorPerHour: int, networkPerMinute: int, networkPerHour: int, installationPerDay: int)

  const DEFAULTS := Limits(300, 3_000, 600, 6_000, 10_000)

  /** Deployment-owned limits, each of which may be left at its default. */
  datatype Configured = Configured(
    visitorPerMinute: Option<int>, visitorPerHour: Option<int>, networkPerMinute: Option<int>,
    networkPerHour: Option<int>, installationPerDay: Option<int>)

  function Choose(value: Option<int>, maximum: int): int {
    if value.Some? then value.value else maximum
  }

  predicate Within(limits: Limits, most: Limits) {
    && 0 <= limits.visitorPerMinute <= most.visitorPerMinute && 0 <= limits.visitorPerHour <= most.visitorPerHour
    && 0 <= limits.networkPerMinute <= most.networkPerMinute && 0 <= limits.networkPerHour <= most.networkPerHour
    && 0 <= limits.installationPerDay <= most.installationPerDay
  }

  function Chosen(configured: Configured): Limits {
    Limits(
      Choose(configured.visitorPerMinute, DEFAULTS.visitorPerMinute),
      Choose(configured.visitorPerHour, DEFAULTS.visitorPerHour),
      Choose(configured.networkPerMinute, DEFAULTS.networkPerMinute),
      Choose(configured.networkPerHour, DEFAULTS.networkPerHour),
      Choose(configured.installationPerDay, DEFAULTS.installationPerDay))
  }

  /** `None` is the thrown range error. */
  function AdmissionLimits(configured: Configured): Option<Limits> {
    var limits := Chosen(configured);
    if Within(limits, DEFAULTS) then Some(limits) else None
  }

  datatype Buckets = Buckets(visitor: Option<string>, network: Option<string>)

  datatype CategoryRequest = CategoryRequest(request: CounterRequest, category: Category)

  // ----- The five ceilings ----------------------------------------------------------------------------------

  datatype Kind = VisitorMinute | VisitorHour | NetworkMinute | NetworkHour | SurfaceDay

  function CategoryOf(kind: Kind): Category {
    match kind
    case VisitorMinute | VisitorHour => Visitor
    case NetworkMinute | NetworkHour => Network
    case SurfaceDay => Installation
  }

  function WindowOf(kind: Kind): Window {
    match kind
    case VisitorMinute | NetworkMinute => Minutely
    case VisitorHour | NetworkHour => Hourly
    case SurfaceDay => Daily
  }

  function LimitOf(kind: Kind, limits: Limits): int {
    match kind
    case VisitorMinute => limits.visitorPerMinute
    case VisitorHour => limits.visitorPerHour
    case NetworkMinute => limits.networkPerMinute
    case NetworkHour => limits.networkPerHour
    case SurfaceDay => limits.installationPerDay
  }

  function BucketOf(kind: Kind, buckets: Buckets): Option<string> {
    match CategoryOf(kind)
    case Visitor => buckets.visitor
    case Network => buckets.network
    case Installation => Some("")
  }

  function CategoryName(category: Category): string {
    match category
    case Visitor => "visitor"
    case Network => "network"
    case Installation => "surface"
  }

  function Span(window: Window): string {
    match window
    case Minutely => ":minute:"
    case Hourly => ":hour:"
    case Daily => ":"
  }

  function Prefix(kind: Kind): string {
    "solution-intake:" + CategoryName(CategoryOf(kind)) + Span(WindowOf(kind))
  }

  function KeyOf(kind: Kind, surface: string, bucket: string): string {
    if kind == SurfaceDay then Prefix(kind) + surface else Prefix(kind) + surface + ":" + bucket
  }

  function RequestOf(kind: Kind, surface: string, buckets: Buckets, limits: Limits): CategoryRequest
    requires BucketOf(kind, buckets).Some?
  {
    CategoryRequest(
      CounterRequest(KeyOf(kind, surface, BucketOf(kind, buckets).value), LimitOf(kind, limits), None,
                     Some(WindowOf(kind))),
      CategoryOf(kind))
  }

  function ConfiguredFor(kind: Kind, configured: Configured): Option<int> {
    match kind
    case VisitorMinute => configured.visitorPerMinute
    case VisitorHour => configured.visitorPerHour
    case NetworkMinute => configured.networkPerMinute
    case NetworkHour => configured.networkPerHour
    case SurfaceDay => configured.installationPerDay
  }

  /** Each ceiling may be lowered on its own, never raised or made negative; what is not configured is the default. */
  lemma LimitsPerCeiling(configured: Configured)
    ensures AdmissionLimits(configured).Some? <==>
              forall kind :: ConfiguredFor(kind, configured).Some? ==>
                0 <= ConfiguredFor(kind, configured).value <= LimitOf(kind, DEFAULTS)
    ensures AdmissionLimits(configured).Some? ==>
              forall kind :: LimitOf(kind, AdmissionLimits(configured).value)
                == if ConfiguredFor(kind, configured).Some? then ConfiguredFor(kind, configured).value
                   else LimitOf(kind, DEFAULTS)
  {
    var limits := Chosen(configured);
    forall kind ensures LimitOf(kind, limits) == Choose(ConfiguredFor(kind, configured), LimitOf(kind, DEFAULTS)) { }
    WithinPerCeiling(limits, DEFAULTS);
  }

  lemma WithinPerCeiling(limits: Limits, most: Limits)
    ensures Within(limits, most) <==> forall kind :: 0 <= LimitOf(kind, limits) <= LimitOf(kind, most)
  {
    if forall kind :: 0 <= LimitOf(kind, limits) <= LimitOf(kind, most) {
      assert 0 <= LimitOf(VisitorMinute, limits) <= LimitOf(VisitorMinute, most);
      assert 0 <= LimitOf(VisitorHour, limits) <= LimitOf(VisitorHour, most);
      assert 0 <= LimitOf(NetworkMinute, limits) <= LimitOf(NetworkMinute, most);
      assert 0 <= LimitOf(NetworkHour, limits) <= LimitOf(NetworkHour, most);
      assert 0 <= LimitOf(SurfaceDay, limits) <= LimitOf(SurfaceDay, most);
    }
  }

  /** The ceilings that apply: visitor and network only with a bucket, the surface always. */
  function Kinds(buckets: Buckets): (kinds: seq<Kind>)
    ensures forall k :: 0 <= k < |kinds| ==> BucketOf(kinds[k], buckets).Some?
  {
    (if buckets.visitor.Some? then [VisitorMinute, VisitorHour] else [])
    + (if buckets.network.Some? then [NetworkMinute, NetworkHour] else [])
    + [SurfaceDay]
  }

  function RecordRequests(surface: string, buckets: Buckets, limits: Limits): (requests: seq<CategoryRequest>)
    ensures |requests| == |Kinds(buckets)|
    ensures forall k :: 0 <= k < |requests| ==> requests[k] == RequestOf(Kinds(buckets)[k], surface, buckets, limits)
  {
    var kinds := Kinds(buckets);
    seq(|kinds|, k requires 0 <= k < |kinds| => RequestOf(kinds[k], surface, buckets, limits))
  }

  function Uncategorised(requests: seq<CategoryRequest>): (plain: seq<CounterRequest>)
    ensures |plain| == |requests| && forall k :: 0 <= k < |requests| ==> plain[k] == requests[k].request
  {
    seq(|requests|, k requires 0 <= k < |requests| => requests[k].request)
  }

  /** The key template of the two short windows, filled in with a category's name. */
  function ShortKey(category: Category, span: string, surface: string, bucket: string): string {
    "solution-intake:" + CategoryName(category) + span + surface + ":" + bucket
  }

  function ShortKinds(category: Category): seq<Kind> {
    if category == Visitor then [VisitorMinute, VisitorHour] else [NetworkMinute, NetworkHour]
  }

  lemma ShortKeySpelled(category: Category, surface: string, bucket: string)
    requires category != Installation
    ensures ShortKey(category, ":minute:", surface, bucket) == KeyOf(ShortKinds(category)[0], surface, bucket)
    ensures ShortKey(category, ":hour:", surface, bucket) == KeyOf(ShortKinds(category)[1], surface, bucket)
  {
  }

  /** The minute and hour requests pushed for one category. */
  method ShortRequests(category: Category, surface: string, buckets: Buckets, limits: Limits)
    returns (requests: seq<CategoryRequest>)
    requires category != Installation && BucketOf(ShortKinds(category)[0], buckets).Some?
    ensures forall k :: 0 <= k < 2 ==> BucketOf(ShortKinds(category)[k], buckets).Some?
    ensures requests == [RequestOf(ShortKinds(category)[0], surface, buckets, limits),
                         RequestOf(ShortKinds(category)[1], surface, buckets, limits)]
  {
    hide KeyOf, ShortKey;
    var bucket := if category == Visitor then buckets.visitor.value else buckets.network.value;
    var perMinute := if category == Visitor then limits.visitorPerMinute else limits.networkPerMinute;
    var perHour := if category == Visitor then limits.visitorPerHour else limits.networkPerHour;
    ShortKeySpelled(category, surface, bucket);
    requests := [
      CategoryRequest(
        CounterRequest(ShortKey(category, ":minute:", surface, bucket), perMinute, None, Some(Minutely)), category),
      CategoryRequest(
        CounterRequest(ShortKey(category, ":hour:", surface, bucket), perHour, None, Some(Hourly)), category)];
  }

  /** The request list as the source pushes it, category by category. */
  method PublicRecordCounterRequests(surface: string, buckets: Buckets, limits: Limits)
    returns (requests: seq<CategoryRequest>)
    ensures requests == RecordRequests(surface, buckets, limits)
  {
    hide RequestOf, KeyOf;
    requests := [];
    var categories := [Visitor, Network];
    ghost var kinds: seq<Kind> := [];
    for n := 0 to 2
      invariant n == 0 ==> kinds == []
      invariant n == 1 ==> kinds == if buckets.visitor.Some? then ShortKinds(Visitor) else []
      invariant n == 2 ==> kinds + [SurfaceDay] == Kinds(buckets)
      invariant |requests| == |kinds|
      invariant forall k :: 0 <= k < |kinds| ==>
                  BucketOf(kinds[k], buckets).Some? && requests[k] == RequestOf(kinds[k], surface, buckets, limits)
    {
      var bucket := if categories[n] == Visitor then buckets.visitor else buckets.network;
      if bucket.Some? {
        var pushed := ShortRequests(categories[n], surface, buckets, limits);
        requests := requests + pushed;
        kinds := kinds + ShortKinds(categories[n]);
      }
    }
    SurfaceRequest(surface, buckets, limits);
    requests := requests + [CategoryRequest(
      CounterRequest("solution-intake:surface:" + surface, limits.installationPerDay, None, Some(Daily)),
      Installation)];
  }

  lemma SurfaceRequest(surface: string, buckets: Buckets, limits: Limits)
    ensures RequestOf(SurfaceDay, surface, buckets, limits)
         == CategoryRequest(CounterRequest("solution-intake:surface:" + surface, limits.installationPerDay, None,
                                           Some(Daily)), Installation)
  {
  }

  // ----- Rows of different ceilings never meet ----------------------------------------------------------------

  function RowOfKind(kind: Kind, surface: string, bucket: string, now: int): Row {
    CounterRow(KeyOf(kind, surface, bucket), WindowOf(kind), now)
  }

  /** The characters of a raw key that tell the ceilings apart, whatever the surface and bucket spell. */
  lemma KindMark(kind: Kind, surface: string, bucket: string)
    ensures var key := KeyOf(kind, surface, bucket);
            && |key| >= 24 && key[16] == CategoryName(CategoryOf(kind))[0]
            && (kind != SurfaceDay ==> |key| > 24 && key[24] == Span(WindowOf(kind))[1])
  {
    var key := KeyOf(kind, surface, bucket);
    assert key[..|Prefix(kind)|] == Prefix(kind);
    assert |CategoryName(CategoryOf(kind))| == 7;
  }

  /** One raw key continuing another names the same ceiling. */
  lemma KeyTellsKind(k1: Kind, s1: string, b1: string, k2: Kind, s2: string, b2: string, rest1: string, rest2: string)
    requires KeyOf(k1, s1, b1) + rest1 == KeyOf(k2, s2, b2) + rest2
    ensures k1 == k2
  {
    hide KeyOf;
    KindMark(k1, s1, b1);
    KindMark(k2, s2, b2);
    var key := KeyOf(k1, s1, b1) + rest1;
    assert key[16] == KeyOf(k1, s1, b1)[16] && key[16] == KeyOf(k2, s2, b2)[16];
    assert k1 != SurfaceDay && k2 != SurfaceDay
           ==> key[24] == KeyOf(k1, s1, b1)[24] && key[24] == KeyOf(k2, s2, b2)[24];
  }

  lemma RowTellsKind(k1: Kind, s1: string, b1: string, t1: int, k2: Kind, s2: string, b2: string, t2: int)
    requires RowOfKind(k1, s1, b1, t1) == RowOfKind(k2, s2, b2, t2)
    ensures k1 == k2
  {
    hide CounterRow, Suffix, KeyOf;
    RowKeySplit(KeyOf(k1, s1, b1), WindowOf(k1), t1);
    RowKeySplit(KeyOf(k2, s2, b2), WindowOf(k2), t2);
    KeyTellsKind(k1, s1, b1, k2, s2, b2, Suffix(WindowOf(k1), t1), Suffix(WindowOf(k2), t2));
  }

  lemma KindsDiffer(buckets: Buckets, i: nat, j: nat)
    requires i < j < |Kinds(buckets)|
    ensures Kinds(buckets)[i] != Kinds(buckets)[j]
  {
  }

  lemma RowsApart(k1: Kind, k2: Kind, surface: string, buckets: Buckets, limits: Limits, now: int)
    requires k1 != k2 && BucketOf(k1, buckets).Some? && BucketOf(k2, buckets).Some?
    ensures ChargeAt(k1, surface, buckets, limits, now).row != ChargeAt(k2, surface, buckets, limits, now).row
  {
    hide RowOfKind, KeyOf, NextResetAt;
    var b1, b2 := BucketOf(k1, buckets).value, BucketOf(k2, buckets).value;
    if RowOfKind(k1, surface, b1, now) == RowOfKind(k2, surface, b2, now) {
      RowTellsKind(k1, surface, b1, now, k2, surface, b2, now);
    }
  }

  /** The batch of one submission never names a row twice, for any surface and bucket strings. */
  lemma RecordRowsDistinct(surface: string, buckets: Buckets, limits: Limits, now: int)
    ensures DistinctRows(Charges(Uncategorised(RecordRequests(surface, buckets, limits)), now))
  {
    hide ChargeAt, Kinds, Charges, RecordRequests, Uncategorised, BucketOf, RequestOf, ChargeOf;
    var charges := Charges(Uncategorised(RecordRequests(surface, buckets, limits)), now);
    forall i, j | 0 <= i < j < |charges|
      ensures charges[i].row != charges[j].row
    {
      ChargeOfKind(surface, buckets, limits, now, i);
      ChargeOfKind(surface, buckets, limits, now, j);
      KindsDiffer(buckets, i, j);
      RowsApart(Kinds(buckets)[i], Kinds(buckets)[j], surface, buckets, limits, now);
    }
  }

  /** What one submission puts on the row of one ceiling. */
  function ChargeAt(kind: Kind, surface: string, buckets: Buckets, limits: Limits, now: int): Charge
    requires BucketOf(kind, buckets).Some?
  {
    var bucket := BucketOf(kind, buckets).value;
    Charge(RowOfKind(kind, surface, bucket, now), 1, LimitOf(kind, limits),
           ExhaustedCounter(KeyOf(kind, surface, bucket), LimitOf(kind, limits), NextResetAt(now, WindowOf(kind))))
  }

  lemma ChargeOfKind(surface: string, buckets: Buckets, limits: Limits, now: int, k: nat)
    requires k < |Kinds(buckets)|
    ensures Charges(Uncategorised(RecordRequests(surface, buckets, limits)), now)[k]
         == ChargeAt(Kinds(buckets)[k], surface, buckets, limits, now)
  {
    hide CounterRow, NextResetAt, KeyOf;
  }

  // ----- Admission --------------------------------------------------------------------------------------------

  datatype Submission = Submission(
    surfaceId: string, attempt: Attempt, buckets: Buckets, now: int, configured: Configured)

  datatype ReportedLimit = ReportedLimit(category: Category, limit: int, resetAt: int)

  datatype AdmissionResult =
    | Allowed
    | Unavailable
    | IdempotencyConflict
    | QuotaExceeded(resetAt: int, limits: seq<ReportedLimit>)

  /** The category of the first request with the counter's key, `Installation` when there is none. */
  function CategoryFor(requests: seq<CategoryRequest>, key: string): Category {
    if requests == [] then Installation
    else if requests[0].request.key == key then requests[0].category
    else CategoryFor(requests[1..], key)
  }

  function Report(requests: seq<CategoryRequest>, exhausted: seq<ExhaustedCounter>): (limits: seq<ReportedLimit>)
    ensures |limits| == |exhausted|
    ensures forall k :: 0 <= k < |limits| ==>
              limits[k] == ReportedLimit(CategoryFor(requests, exhausted[k].key), exhausted[k].limit,
                                         exhausted[k].resetAt)
  {
    seq(|exhausted|, k requires 0 <= k < |exhausted| =>
      ReportedLimit(CategoryFor(requests, exhausted[k].key), exhausted[k].limit, exhausted[k].resetAt))
  }

  function LatestReset(limits: seq<ReportedLimit>): int
    requires limits != []
  {
    if |limits| == 1 then limits[0].resetAt
    else
      var rest := LatestReset(limits[1..]);
      if rest > limits[0].resetAt then rest else limits[0].resetAt
  }

  /** A submission that reaches the counters: it has a non-empty network bucket and limits in range. */
  predicate Reaches(sub: Submission) {
    sub.buckets.network.Some? && sub.buckets.network.value != "" && AdmissionLimits(sub.configured).Some?
  }

  function RequestsOf(sub: Submission): seq<CategoryRequest>
    requires Reaches(sub)
  {
    RecordRequests(sub.surfaceId, sub.buckets, AdmissionLimits(sub.configured).value)
  }

  function CallOf(sub: Submission): Call
    requires Reaches(sub)
  {
    OnceCall(Uncategorised(RequestsOf(sub)), sub.attempt, sub.now)
  }

  function ResultOf(requests: seq<CategoryRequest>, outcome: Outcome): AdmissionResult {
    match outcome
    case Consumed => Allowed
    case Replayed => Allowed
    case Conflict => IdempotencyConflict
    case Refused(exhausted) =>
      if exhausted == [] then Unavailable
      else QuotaExceeded(LatestReset(Report(requests, exhausted)), Report(requests, exhausted))
    case _ => Unavailable
  }

  function Admit(ledger: Ledger, sub: Submission): (Ledger, AdmissionResult) {
    if !Reaches(sub) then (ledger, Unavailable)
    else
      var (next, outcome) := Perform(ledger, CallOf(sub));
      (next, ResultOf(RequestsOf(sub), outcome))
  }

  method AdmitPublicRecord(counters: InMemoryDailyCounterStore, sub: Submission) returns (result: AdmissionResult)
    requires counters.Valid()
    modifies counters
    ensures counters.Valid()
    ensures (counters.ledger, result) == Admit(old(counters.ledger), sub)
  {
    hide RecordRequests, Perform, LatestReset, Report, Holds;
    if sub.buckets.network.None? || sub.buckets.network.value == "" {
      return Unavailable;
    }
    var limits := AdmissionLimits(sub.configured);
    if limits.None? {
      return Unavailable;
    }
    var requests := PublicRecordCounterRequests(sub.surfaceId, sub.buckets, limits.value);
    var outcome := counters.ConsumeAllOnce(Uncategorised(requests), sub.attempt, sub.now);
    match outcome {
      case Consumed | Replayed => return Allowed;
      case Conflict => return IdempotencyConflict;
      case Refused(exhausted) =>
        if exhausted == [] { return Unavailable; }
        var reported := Report(requests, exhausted);
        return QuotaExceeded(LatestReset(reported), reported);
      case _ => return Unavailable;
    }
  }
}
