# Admission counters and generated-file ownership, modelled and proved

This Dafny project models three parts of the repository and proves what they promise.

**Admission counters** (`packages/admission-limits`). `Calendar` and `CounterStore` give UTC civil dates, window keys
and `nextReset` on integer milliseconds. `CounterLedger` is the sequential meaning of `consume`, `consumeAll` and
`consumeAllOnce`; `InMemoryStore` is the map-backed class proved against it, and `RequestLaws` says what two raw
requests have to do with each other. `PostgresStore` is the durable store as interleaved transactions: any number of
calls, one statement per step, row and advisory locks, rollback at any point, answers lost after a commit, sweeps of
old days; `PostgresInvariant`, `PostgresSteps` and `PostgresTheorems` prove it serialisable, free of deadlock and
exactly-once. `Retention` shows that sweeping is unobservable. `PublicRecordAdmission` and `AdmissionRuns` put the five
ceilings of one public record on top, `AdmissionLaws` says who shares a ceiling with whom, and `DurableAdmission`
carries them over to the interleaved store. `AddressText`, `ClientAddress` and `AddressReadings` say which texts of an
address are one visitor, and `PublicAdmissionAssertion` who is being counted.

**Generated files** (`packages/agent-kit`). `CanonicalJson` and `JsonMeaning` show that canonical text decides the value;
`ProductSkillRenderer` uses it as a digest preimage and checks bundles; `ManagedBlock` and `ManagedBlockLaws` scan and
rewrite the block inside a user's file; `SkillRegistry` and `SkillManifest` keep paths apart and the manifest complete;
`ProductSkillOwnership` is the versioned record with its slug. `RegistryLaws` and `OwnershipLaws` say in literal paths,
limits and keys what is accepted, rendered and decoded.

**Column resolution** (`examples/sharepoint`). `ListCompute` proves the name index equal to a plain scan, and `ListLaws`
goes from the raw column list to the written fields.

`Text`, `Orders` and `AgentTargets` hold what several modules share. `dafny verify dfyconfig.toml` checks everything.

Conventions. Instants are integer milliseconds. A thrown error is `None`, a fault value or an outcome of its own. Hashes,
macs, base64url and the row order are parameters, constrained only by laws stated where they are used. A method that loops
or changes state is proved against a function, and the laws are lemmas about that function.

Where the code keeps less than its documentation or a reader might expect, the code is modelled and the difference proved:

- `PostgresTheorems.SingleParity`, `PostgresTheorems.DuplicateParity`: the two stores differ on a zero amount under a
  non-positive limit, and on a batch with a doubled row whose attempt already has a receipt. `Serializable` therefore asks
  that single requests have a positive limit or an amount above it, and lets doubled batches fail outside the order.
- `CounterStore.WideDayOrder`, `CounterStore.WideDayKeys`: outside years 0 to 9999 a day key names a month, and text order
  is day order only as stated there.
- `CounterStore.AtSignCollides`: a daily raw key that spells another key's hour or minute shares its row;
  `CounterStore.RowIdentity` says that this is the only way two rows meet.
- `PostgresLimits.LateSweepLosesCharge`, `PostgresLimits.TiedRowsDeadlock`: without live days a charge can be lost, and
  without a strict row order two batches can deadlock.
- `ManagedBlockLaws.NeverUnchanged`: a wrapped block is reported `updated` even when nothing changes; the laws are on content.
- `ManagedBlockLaws.LoneMarkerKeepsFirstBody`: after a begin marker without an end marker the appended block is taken for an
  edited one, and later bodies are not written.
- `AddressReadings.MappedFormsMeet`: a mapped address spelled with hexadecimal groups is not folded into its IPv4 address.
- `AddressReadings.DottedTailCollides`, `AddressReadings.KeepsItsAddress`: of a dotted tail other than the mapped one only the
  first octet is read, so that one visitor is one bucket exactly for the forms and zones named there.

## Model

| member | source | states |
|---|---|---|
| `Calendar.CivilRoundTrip` | packages/admission-limits/src/counter-store.ts:93-95 | the civil date computed for a day leads back to that day (sections 21.4.1.3 to 21.4.1.12 of ECMA-262), for every day before or after 1970 |
| `Calendar.CivilSurjective` | packages/admission-limits/src/counter-store.ts:93-95 | every valid civil date, leap days included, is the date of the day it is made into; with the round trip, days and dates are in bijection |
| `Calendar.DayFromYearClosed` | packages/admission-limits/src/counter-store.ts:93-95 | the year-by-year count of days equals the closed formula with its three floor divisions, for all years |
| `Calendar.DayKeyOrder` | packages/admission-limits/src/counter-store.ts:93-95 | string order on `dayKey` is exactly day order and equal keys mean equal days, for all instants of years 0 to 9999 |
| `Calendar.KeysReadBack` | packages/admission-limits/src/counter-store.ts:93-115 | in years 0 to 9999 a day key read back as year, month and date is the day, and the hour and minute keys add `T` and the hour of the day, `:` and the minute of the hour |
| `Calendar.DaysBeforeClosed` | packages/admission-limits/src/counter-store.ts:93-95 | the days before each month, summed month by month, equal the closed formula with its five-month cycle |
| `CounterStore.WideDayKeys` | packages/admission-limits/src/counter-store.ts:93-95 | what a day key names in every year: one day in years 0 to 9999, a whole month outside them; a four-digit and a wide instant never share one |
| `CounterStore.WideDayOrder` | packages/admission-limits/src/counter-store.ts:93-95 | when text order is day order, in every year: of an earlier and a later day exactly when the later has a four-digit year, both lie past 9999 in different months, or both lie in one negative year and different months |
| `CounterStore.NextReset` | packages/admission-limits/src/counter-store.ts:146-161 | the mutating `setUTC*` rollover returns the start of the current minute, hour or day plus one unit, across month and year ends |
| `CounterStore.RowsAreWindows` | packages/admission-limits/src/counter-store.ts:117-130 | two instants give one key the same row exactly when they fall in the same minute, hour or day |
| `CounterStore.RowLastsUntilReset` | packages/admission-limits/src/counter-store.ts:117-161 | from `now` on, the row is the same at `t` exactly while `t` is before `nextReset(now)`; it never comes back |
| `CounterStore.RowIdentity` | packages/admission-limits/src/counter-store.ts:117-130 | for all raw keys: two requests share a row exactly when key, window kind and window agree, or when one is daily and its key spells the key of the other with its hour or minute, on the same UTC day; hourly and minutely rows never meet |
| `CounterStore.PlainKeysNeverCollide` | packages/admission-limits/src/counter-store.ts:117-130 | raw keys without `@` share a row exactly when key, window kind and window all agree |
| `CounterStore.AtSignCollides` | packages/admission-limits/src/counter-store.ts:117-130 | a daily key that spells an hour or minute of another key is charged to that row, at any instant of the day |
| `RequestLaws.ChargeIsSpelled` | packages/admission-limits/src/counter-store.ts:51-161 | a request is charged its amount, one when none is given, and reported with its own key and limit and the end of its own minute, hour or day in milliseconds; without a window that is the UTC day and the raw key is the row's |
| `RequestLaws.RequestsMeet` | packages/admission-limits/src/counter-store.ts:117-130 | keys without `@`: two raw requests meet exactly with equal keys and equal window lengths inside one such window, a request without a window counting as a daily one |
| `CounterStore.RetentionKeepsTwoDays` | packages/admission-limits/src/counter-store.ts:139-144 | the textual test against the cutoff is true exactly for days more than two before today |
| `CounterLedger.BatchIsAtomic` | packages/admission-limits/src/in-memory-counter-store.ts:59-86 | all or nothing: a batch is consumed exactly when every request fits; then each row gains its own amount and no other row moves; otherwise nothing moves and the report is exactly the overflowing requests |
| `CounterLedger.SingleIsBatchOfOne` | packages/admission-limits/src/in-memory-counter-store.ts:26-86 | a single request decides and charges as a batch of one, exactly unless a limit of zero or less still has room for the amount |
| `CounterLedger.RefusalIsExact` | packages/admission-limits/src/in-memory-counter-store.ts:43-86 | a refused attempt leaves counters and receipts untouched and names exactly the requests that would overflow |
| `CounterLedger.Conservation` | packages/admission-limits/src/in-memory-counter-store.ts:26-86 | after any run of single, batch and once calls, a row holds the sum of the amounts of the accepted requests on it |
| `CounterLedger.Ceiling` | packages/admission-limits/src/in-memory-counter-store.ts:26-86 | when every request on a row carries limit L, no run of any mix of calls leaves more than L on it |
| `CounterLedger.ReceiptOrigin` | packages/admission-limits/src/in-memory-counter-store.ts:43-57 | a receipt is held exactly when an earlier attempt on it was consumed, and it keeps that attempt's fingerprint for the rest of the run |
| `CounterLedger.ConsumedOnce` | packages/admission-limits/src/in-memory-counter-store.ts:43-57 | after an attempt is consumed, every later call of that attempt and day is replayed when its fingerprint matches and a conflict otherwise, and changes nothing |
| `CounterLedger.ReplayHasOrigin` | packages/admission-limits/src/in-memory-counter-store.ts:43-57 | a replay or conflict is evidence of an earlier consumed call of the same attempt, and is a replay exactly when the fingerprints agree |
| `CounterLedger.PruneIsExact` | packages/admission-limits/src/in-memory-counter-store.ts:88-106 | a sweep keeps every counter and receipt on or after the cutoff with its value and removes all others, and the removed and the kept add up to what there was |
| `RequestLaws.SecondCall` | packages/admission-limits/src/in-memory-counter-store.ts:26-37 | after a first call, a second of the same key and kind of window starts from the usage the first left exactly when it falls into the same window, the UTC day when no window is given; otherwise the first is as if it had not been |
| `RequestLaws.FirstCall` | packages/admission-limits/src/in-memory-counter-store.ts:26-37 | on an empty store a request without a window is admitted exactly when its amount fits, and its daily row shows that amount until the UTC day ends and nothing afterwards |
| `RequestLaws.WholeBatch` | packages/admission-limits/src/in-memory-counter-store.ts:59-86 | from the raw requests: spent exactly when no row is named twice and each has a positive limit with room for its amount, and each row then gains its own amount; otherwise nothing moves |
| `RequestLaws.SecondAttempt` | packages/admission-limits/src/in-memory-counter-store.ts:43-57 | after a consumed attempt, the same attempt key on the same UTC day replays or conflicts by fingerprint and changes nothing; any other key or day is untouched by it |
| `InMemoryStore.InMemoryDailyCounterStore.Consume` | packages/admission-limits/src/in-memory-counter-store.ts:26-37 | one request on its row: usage, decision, reported amount, limit and reset are those of the sequential meaning; a denied call changes nothing; without a window the reset is the next UTC midnight in milliseconds and the usage is that of the raw key on the day |
| `InMemoryStore.InMemoryDailyCounterStore.TryConsumeAll` | packages/admission-limits/src/in-memory-counter-store.ts:59-86 | the two-loop batch on the string-keyed map: duplicate rows, the exhausted list in request order, or every row charged |
| `InMemoryStore.InMemoryDailyCounterStore.ConsumeAll` | packages/admission-limits/src/in-memory-counter-store.ts:39-41 | true exactly when the batch was spent, with the sequential meaning's new state |
| `InMemoryStore.InMemoryDailyCounterStore.ConsumeAllOnce` | packages/admission-limits/src/in-memory-counter-store.ts:43-57 | receipt look-up, batch and receipt insert agree with the sequential meaning in new state and outcome |
| `InMemoryStore.InMemoryDailyCounterStore.Prune` | packages/admission-limits/src/in-memory-counter-store.ts:88-106 | afterwards a counter or receipt is present exactly when it was and its day is not below the cutoff, with its value; the result is the number of rows of both maps that were below it |
| `InMemoryStore.InMemoryDailyCounterStore.Peek` | packages/admission-limits/src/in-memory-counter-store.ts:108-110 | reads the usage of the daily row of the raw key, 0 when absent |
| `InMemoryStore.StoreKeyInjective` | packages/admission-limits/src/in-memory-counter-store.ts:26-28 | the `day:key` text of a row determines the row, although keys may hold colons |
| `InMemoryStore.DistinctKeys` | packages/admission-limits/src/in-memory-counter-store.ts:68-70 | comparing the size of the key set with the batch length detects exactly the batches that name a row twice |
| `Retention.SweepsUnobservable` | packages/admission-limits/src/in-memory-counter-store.ts:88-110 | prunes inserted anywhere in a run change no outcome of consume, consumeAll or consumeAllOnce and no reading of peek, for callers whose day is not below a cutoff already used |
| `Retention.PerformAgrees` | packages/admission-limits/src/counter-store.ts:139-144 | the simulation step: stores that agree on live days, counters and receipts alike, decide alike and still agree afterwards |
| `Retention.TwoDaysOfSkewAreLive` | packages/admission-limits/src/counter-store.ts:132-144 | a single request, a non-empty batch and an attempt with its receipt are on live days exactly when their clock is at most two UTC days behind that of the sweeper |
| `NormalizedBatch.SortAscending` | packages/admission-limits/src/postgres-counter-store.ts:238-248 | the normalised batch is in ascending row order under any strict total order, whatever order the requests came in |
| `NormalizedBatch.SortDistinct` | packages/admission-limits/src/postgres-counter-store.ts:248-251 | sorting does not change which batches name a row twice |
| `NormalizedBatch.SortExhaustion` | packages/admission-limits/src/postgres-counter-store.ts:255-277 | sorting does not change which counters are exhausted, as a multiset |
| `PostgresTheorems.Serializable` | packages/admission-limits/src/postgres-counter-store.ts:82-179 | every interleaved run, with rollbacks and sweeps at any point, makes the decisions of the sequential store taken one call at a time in decision order, each decided call once, and leaves its usage and receipts on every live day (everywhere when nothing was swept) |
| `PostgresTheorems.DecisionsKeepOrder` | packages/admission-limits/src/postgres-counter-store.ts:82-179 | the decision order and the log of outcomes only ever grow at their end: a call decided by some point precedes all calls decided later |
| `PostgresTheorems.RowsConserved` | packages/admission-limits/src/postgres-counter-store.ts:90-101 | in every reachable state a live row holds exactly what the committed accepted requests charged, single and batch consumers mixed |
| `PostgresTheorems.RowsBounded` | packages/admission-limits/src/postgres-counter-store.ts:255-285 | in every reachable state every row, swept days included, is at most L when all requests on it carry limit L |
| `PostgresTheorems.NeverAboveSequential` | packages/admission-limits/src/postgres-counter-store.ts:90-101 | the table never holds more on a row than the sequential store would after the same decisions, whatever was swept |
| `PostgresTheorems.SweepIsExact` | packages/admission-limits/src/postgres-counter-store.ts:195-212 | a sweep deletes from one table exactly the rows it selected, all behind the cutoff; other rows, the other table, locks, calls and decisions stay |
| `RequestLaws.DurableSecondCall` | packages/admission-limits/src/postgres-counter-store.ts:82-115 | two single requests of one key and kind of window: the second starts from what the first left exactly inside the first one's window, the UTC day when none is given |
| `PostgresTheorems.ChargedExactlyOnce` | packages/admission-limits/src/postgres-counter-store.ts:139-179 | of two finished calls of one attempt and day, when one is consumed the other was refused or is a replay or conflict by its fingerprint; never two charges |
| `PostgresTheorems.LostAnswerIsReplayed` | packages/admission-limits/src/postgres-counter-store.ts:139-179 | once the charge of an attempt is committed, its caller told or not, a retry still undecided then ends replayed or in conflict by its fingerprint, and no call of that attempt is ever charged again |
| `PostgresTheorems.ReceiptInsertSucceeds` | packages/admission-limits/src/postgres-counter-store.ts:149-170 | when an attempt reaches its receipt insert there is no receipt, committed or in flight: the advisory lock covers look-up and insert, hash collisions included |
| `PostgresTheorems.NeverDeadlocked` | packages/admission-limits/src/postgres-counter-store.ts:139-179 | while any call is unfinished some call can take its next step: one advisory lock before row locks, row locks in one strict total order |
| `PostgresTheorems.WaitsCannotClimb` | packages/admission-limits/src/postgres-counter-store.ts:255-270 | refutes a state in which everyone unfinished waits: row waits would climb the row order for ever |
| `PostgresTheorems.RunsAreBounded` | packages/admission-limits/src/postgres-counter-store.ts:117-179 | each process action lowers the number of statements left, so a run has at most as many as the calls need from the start |
| `PostgresTheorems.SingleParity` | packages/admission-limits/src/postgres-counter-store.ts:86-101 | single consume agrees with the in-memory store on every usage exactly when the limit is positive or the amount exceeds it; a zero amount under a zero limit is the exception |
| `PostgresTheorems.DuplicateParity` | packages/admission-limits/src/postgres-counter-store.ts:144-163 | a batch that names a row twice fails before the receipt look-up, where the in-memory store with a receipt would replay |
| `PostgresSteps.ReachableInv` | packages/admission-limits/src/postgres-counter-store.ts:117-285 | every reachable state satisfies the invariant: who holds which lock, drafts hold committed amounts plus own charges, live days only, log and order faithful |
| `PostgresLimits.LateSweepLosesCharge` | packages/admission-limits/src/postgres-counter-store.ts:195-283 | why retention is two days: for a caller more than two days behind, a sweep at the cutoff of its own clock may delete the row between insert and `FOR UPDATE`; the batch then commits an amount that is nowhere recorded. Live days rule out exactly this sweep |
| `PostgresLimits.SweptRowStaysAbsent` | packages/admission-limits/src/postgres-counter-store.ts:261-283 | in a batch of any size, a row swept from under it after its insert is never written again by that batch |
| `PostgresLimits.TiedRowsDeadlock` | packages/admission-limits/src/postgres-counter-store.ts:243-247 | why the order must be strict: when two rows compare equal, two batches over them can reach a deadlock |
| `PublicRecordAdmission.LimitsPerCeiling` | packages/admission-limits/src/public-record-admission.ts:77-91 | each ceiling can be lowered on its own but not raised or made negative, and what is not configured keeps its default |
| `PublicRecordAdmission.ShortRequests` | packages/admission-limits/src/public-record-admission.ts:102-115 | the two requests pushed for one category, with that category's own limits |
| `PublicRecordAdmission.PublicRecordCounterRequests` | packages/admission-limits/src/public-record-admission.ts:93-124 | the pushing loop yields one minute and one hour request per bucket present and always the surface request, with their keys, limits and windows |
| `AdmissionLaws.RequestsAreListed` | packages/admission-limits/src/public-record-admission.ts:93-124 | the requests of one submission spelled out: literal keys ending in the surface and the bucket, each with its own limit, window and category, in order |
| `PublicRecordAdmission.RecordRowsDistinct` | packages/admission-limits/src/public-record-admission.ts:93-124 | the rows of one submission are pairwise distinct for every surface and bucket string, so the duplicate-row error never fires |
| `PublicRecordAdmission.RowTellsKind` | packages/admission-limits/src/public-record-admission.ts:99-122 | a stored row tells which of the five ceilings it belongs to, whatever surface, bucket and time it was made from |
| `AdmissionLaws.RowsAtOneInstant` | packages/admission-limits/src/public-record-admission.ts:102-122 | at any one instant two submissions meet on a row of one kind of ceiling exactly when surface and bucket spell one text, for daily rows exactly for equal surfaces |
| `AdmissionLaws.RowsMeet` | packages/admission-limits/src/public-record-admission.ts:102-122 | over time they meet exactly when, besides, both fall into one minute, hour or UTC day |
| `AdmissionLaws.PlainSurfacesApart` | packages/admission-limits/src/public-record-admission.ts:102-115 | for surfaces without a colon: one visitor's or network's counter is shared by no other surface and no other bucket |
| `PublicRecordAdmission.AdmitPublicRecord` | packages/admission-limits/src/public-record-admission.ts:35-75 | the driver over the store: unavailable without network bucket or with limits out of range, otherwise the store's outcome mapped to its result, and the store's new state |
| `AdmissionRuns.DecisionIsExact` | packages/admission-limits/src/public-record-admission.ts:47-71 | quota refusal exactly when there is no receipt and some applicable ceiling is full; it changes nothing, lists exactly the full ceilings each under its own category, limit and reset, and gives the latest reset; conflict exactly for another fingerprint; never unavailable |
| `AdmissionRuns.CeilingsHold` | packages/admission-limits/src/public-record-admission.ts:47-58 | over any run with fixed limits each ceiling's row holds exactly the number of fresh admissions on it, at most the ceiling: visitor and network per minute and hour, surface per day, all at once |
| `DurableAdmission.CeilingsHoldDurably` | packages/admission-limits/src/public-record-admission.ts:47-58 | over the durable store, in every reachable state of any interleaving with failures, lost answers and sweeps: no row of a ceiling is past its limit, and a live one equals the number of submissions charged on it |
| `AdmissionRuns.RowsAreCeilingWindows` | packages/admission-limits/src/public-record-admission.ts:93-124 | submissions of one surface and bucket meet on a ceiling's row exactly within one minute, hour or UTC day |
| `AdmissionRuns.ReceiptFromFresh` | packages/admission-limits/src/public-record-admission.ts:52-58 | a receipt is on file exactly when exactly one submission of the run was freshly admitted for that attempt and day |
| `AdmissionRuns.AllowedWasChargedOnce` | packages/admission-limits/src/public-record-admission.ts:52-58 | every allowed submission was charged by exactly one submission of the run, itself or an earlier one with the same attempt, day and fingerprint |
| `AdmissionRuns.ResetIsHonest` | packages/admission-limits/src/public-record-admission.ts:59-71 | after a quota refusal with all limits at least 1 and no earlier call dated after it, the same attempt retried at the reported `resetAt` is admitted and charged; `resetAt` is later than the refusal |
| `AdmissionLaws.CounterIsOwnCount` | packages/admission-limits/src/public-record-admission.ts:47-58 | after any run, the counter behind a ceiling holds exactly the fresh admissions of the same surface and visitor or network in the same window |
| `AdmissionLaws.UnavailableExactly` | packages/admission-limits/src/public-record-admission.ts:35-50 | nothing is decided exactly when the network bucket is missing or empty or some allowance is negative or above 300, 3 000, 600, 6 000 or 10 000; the store is then untouched |
| `AdmissionLaws.DecidedByOwnCount` | packages/admission-limits/src/public-record-admission.ts:47-71 | after any run, a submission without a receipt is refused for quota exactly when the fresh admissions sharing one of its own ceilings have used up that ceiling's allowance; the report names exactly those, with category, allowance and window's end |
| `AdmissionLaws.OthersNeverCount` | packages/admission-limits/src/public-record-admission.ts:102-115 | whatever submissions of other surfaces, visitors and networks were admitted, they add nothing to what decides this one |
| `AddressReadings.AcceptedExactly` | packages/admission-limits/src/client-address.ts:20-38 | exactly the texts of the grammar are accepted: dotted IPv4, alone, with a port or mapped, and forms 1 to 3 of section 2.2 of RFC 4291 with or without a zone, under any space, brackets and port |
| `AddressReadings.MeetExactly` | packages/admission-limits/src/client-address.ts:20-54 | two accepted texts have equal canonical results exactly when they are read as the same octets or the same list of numbers |
| `AddressReadings.CanonicalOfReading` | packages/admission-limits/src/client-address.ts:41-54 | what a text is read as gives its canonical text: groups whole in any case and with leading zeros, `::` as the missing zeros, of a dotted tail the first octet alone, a zone dropped, or a number of its own straight after `::` |
| `AddressReadings.AcceptedIsRead` | packages/admission-limits/src/client-address.ts:20-54 | every accepted text is read as something, except under a zone that itself holds a colon |
| `AddressReadings.KeepsItsAddress` | packages/admission-limits/src/client-address.ts:41-54 | written in any form with any colon-free zone, an address gets its own canonical text exactly when no zone stands straight after `::` and a dotted tail has only zeros between `::` and its end |
| `AddressReadings.CanonicalOfSpelling` | packages/admission-limits/src/client-address.ts:20-54 | every spelling of an address gives the canonical text of that address: any case, leading zeros, any legal `::`, space, brackets, port, `::ffff:d.d.d.d` |
| `AddressReadings.CanonicalIsTheAddress` | packages/admission-limits/src/client-address.ts:19-54 | two spellings, dotted or in forms 1 and 2, have equal canonical results exactly when they spell the same address |
| `ClientAddress.TextInjective` | packages/admission-limits/src/client-address.ts:40-54 | different group lists and different octets have different canonical texts, and IPv4 and IPv6 texts never coincide |
| `AddressReadings.FormNormalizes` | packages/admission-limits/src/client-address.ts:41-54 | every form with a colon-free zone normalises to the numbers read from it, joined by colons, for every choice of compression |
| `AddressReadings.MappedFormsMeet` | packages/admission-limits/src/client-address.ts:40-43 | `::ffff:d.d.d.d` in any case equals `d.d.d.d`; the same or any other groups spelled in hexadecimal never equal it |
| `AddressReadings.TailsMeet` | packages/admission-limits/src/client-address.ts:41-54 | after `::` and the same groups, two dotted tails have one canonical text exactly when their first octets are equal |
| `AddressReadings.TailMeetsGroup` | packages/admission-limits/src/client-address.ts:41-54 | a dotted tail after `::` has the canonical text of the address that ends in its first octet, its digits taken as a hexadecimal group |
| `AddressReadings.DottedTailCollides` | packages/admission-limits/src/client-address.ts:41-54 | the input: `::1.2.3.4` and `::1` have one canonical text |
| `AddressReadings.BucketIsFirstAddress` | packages/admission-limits/src/client-address.ts:56-70 | the bucket is the digest of the text of the first hop in the grammar, and there is none exactly when no hop is |
| `AddressReadings.ForwardedBucket` | packages/admission-limits/src/client-address.ts:56-70 | the same from the header itself: its hops are parted by commas, and a missing header has no bucket |
| `CanonicalJson.CanonicalPrintsSorted` | packages/agent-kit/src/product-skill-renderer.ts:142-157 | canonical text is the plain text of the tree with the keys of every object sorted |
| `CanonicalJson.PrintedParses` | packages/agent-kit/src/product-skill-renderer.ts:142-157 | a parser (strings after section 7 of RFC 8259) reads every printed value back and leaves exactly what follows it |
| `CanonicalJson.ParseUndoesCanonical` | packages/agent-kit/src/product-skill-renderer.ts:142-157 | parsing canonical text returns the tree with sorted keys, for every tree of null, booleans, integers, strings, arrays and objects |
| `JsonMeaning.CanonicalDecidesMeaning` | packages/agent-kit/src/product-skill-renderer.ts:142-157 | two values have equal canonical text exactly when they are equal up to key order, objects taken as maps |
| `JsonMeaning.OrderedUnique` | packages/agent-kit/src/product-skill-renderer.ts:153-154 | a tree with sorted keys is determined by what it means |
| `ProductSkillRenderer.BundlePreimageInjective` | packages/agent-kit/src/product-skill-renderer.ts:129-140 | two bundles have the same digest preimage exactly when provenance digests and file lists (target, path, digest, in order) agree |
| `ProductSkillRenderer.ValidateFiles` | packages/agent-kit/src/product-skill-renderer.ts:77-106 | passes exactly the four expected files, each once, safe, consistent and within the limits; the fault is that of the first offending file, each kind exactly for its cause; of clean files a missing one, then the total size, then one too large |
| `OwnershipLaws.AcceptedBundles` | packages/agent-kit/src/product-skill-renderer.ts:77-106 | accepted exactly: four files in four places, each in one of its target's two literal places, not blank, with true digest and length of at most 65 536 bytes, `SKILL.md` of at most 500 lines, and 262 144 bytes in all |
| `OwnershipLaws.SafePathsAreSegments` | packages/agent-kit/src/product-skill-renderer.ts:119-127 | a path is safe exactly when it is non-empty segments other than `.` and `..` joined by slashes, without backslash or zero character |
| `OwnershipLaws.LinesAreCounted` | packages/agent-kit/src/product-skill-renderer.ts:108-110 | the line count is the number of line ends, plus one for a last line without one |
| `OwnershipLaws.BundleIsSaid` | packages/agent-kit/src/product-skill-renderer.ts:129-140 | what is hashed says both provenance digests and of each file, in order, its target, path and digest, and nothing else |
| `ManagedBlock.ManagedBlockRanges` | packages/agent-kit/src/index.ts:360-372 | the offset loop returns the ranges of the recursive scan, and ends |
| `ManagedBlock.RangesAreBlocks` | packages/agent-kit/src/index.ts:360-372 | the scan finds every block: ordered, disjoint, each from a begin marker through the first end marker after it, none skipped between or after |
| `ManagedBlock.NoodleKitIsValid` | packages/agent-kit/src/index.ts:30-31 | the two markers have the shape the laws need: one opening `<`, one line |
| `ManagedBlock.WrapIsSpelled` | packages/agent-kit/src/index.ts:225-234 | a written block is its five literal lines: marker, version and hash of the body, the whole body, marker, and a final line end |
| `ManagedBlock.FrameScansOnce` | packages/agent-kit/src/index.ts:225-234 | a block inside user text without begin markers scans as exactly one range, its own |
| `ManagedBlock.FrameScansFirst` | packages/agent-kit/src/index.ts:360-372 | a block after user text is found first, and the scan goes on exactly as it would over what follows alone |
| `ManagedBlockLaws.TwoBlocksNeedForce` | packages/agent-kit/src/index.ts:244-250 | with two blocks nothing is touched and the duplicates are reported; forced, only the first is replaced |
| `ManagedBlock.FrameHash` | packages/agent-kit/src/index.ts:374-384 | the hash check of a block compares the recorded hash with the hash of its trimmed text, and nothing else |
| `ManagedBlockLaws.LastBlockWins` | packages/agent-kit/src/index.ts:236-271 | for every file: reconciling with one body and then another leaves the content the second alone would have left, exactly unless the file has a begin marker without an end marker and the bodies differ or the swallowed text happens to have the recorded hash |
| `ManagedBlockLaws.LoneMarkerKeepsFirstBody` | packages/agent-kit/src/index.ts:236-271 | the input: in a file that is nothing but a begin marker the first body stays and the second is never written |
| `ManagedBlockLaws.ReplacesBlock` | packages/agent-kit/src/index.ts:266-270 | over user text around one clean block, exactly the block is replaced and at most a final line end is added; the text after may hold a lone begin marker |
| `ManagedBlockLaws.AppendsBlock` | packages/agent-kit/src/index.ts:251-254 | over text without a begin marker the block is appended after one empty line, one line end more when the text has no final one |
| `ManagedBlockLaws.EditsAreRespected` | packages/agent-kit/src/index.ts:255-270 | a body changed by hand is skipped and kept whole unless its trimmed text has the recorded hash, and overwritten between the markers only when forced |
| `ManagedBlockLaws.UnhashedIsRespected` | packages/agent-kit/src/index.ts:257-265 | a block whose second line records no hash is skipped and the file left as it is, unless forced |
| `ManagedBlockLaws.OutsideIsKept` | packages/agent-kit/src/index.ts:236-271 | for every file, block and force flag, the text before and after the first range is kept byte for byte; without a range the whole file is kept as a prefix |
| `ManagedBlockLaws.NeverUnchanged` | packages/agent-kit/src/index.ts:257-258 | for every file and either flag, a wrapped block is never reported `unchanged`: the compared slice ends at the end marker, the block in a line end |
| `SkillRegistry.DefineSkillRegistry` | packages/agent-kit/src/skill-registry.ts:45-95 | accepts exactly the registries whose skills are valid, with distinct names and at most one target-root skill; any other fault is the cause found in the first offending skill, the second target root only when all skills are in order |
| `RegistryLaws.ValidSkillIsSpelled` | packages/agent-kit/src/skill-registry.ts:5-8 | which definitions are valid, in plain terms: name of hyphened words, one-line description, three-number version, one or both hosts once, distinct relative file paths other than `SKILL.md`, with all length limits |
| `RegistryLaws.NamesAreWords` | packages/agent-kit/src/skill-registry.ts:5 | the name pattern is exactly words of lower-case letters and digits joined by single hyphens |
| `RegistryLaws.VersionsAreNumbers` | packages/agent-kit/src/skill-registry.ts:6 | the version pattern is exactly three numbers in plain decimal joined by dots |
| `RegistryLaws.PathsNeverClimb` | packages/agent-kit/src/skill-registry.ts:7 | a relative path has no segment `..` before its first line end, where the pattern's `.` stops, and neither starts with a slash nor holds a zero character |
| `SkillRegistry.CheckFiles` | packages/agent-kit/src/skill-registry.ts:75-90 | accepts exactly valid, pairwise distinct relative paths; the fault is that of the first offending file |
| `SkillRegistry.CheckSkill` | packages/agent-kit/src/skill-registry.ts:48-91 | one definition passes exactly when its name is new and its name, description, version, hosts and files are valid; each fault is reported exactly when everything checked before it is in order and it is not |
| `SkillRegistry.RenderSkill` | packages/agent-kit/src/skill-registry.ts:105-138 | one skill's files are appended in order while the path sets stay exact; each fault is that of the blank body, or of the first file that is blank or whose path is taken |
| `SkillRegistry.RenderRegisteredSkillFiles` | packages/agent-kit/src/skill-registry.ts:97-140 | renders every file of every skill of the host in order, exactly when no body or file is blank and no publish or installed path is doubled; the fault is that of the first skill that cannot be added |
| `RegistryLaws.StampIsSpelled` | packages/agent-kit/src/skill-registry.ts:142-155 | `SKILL.md` is the front matter with name and quoted description, the line with version and hash of the body, and the whole body |
| `RegistryLaws.FilesAreSpelled` | packages/agent-kit/src/skill-registry.ts:105-137 | a supported skill yields its stamped body and then its own files in order, each with its content, literal publish and installed path, skill, version and host; an unsupported one yields nothing |
| `RegistryLaws.RendersExactly` | packages/agent-kit/src/skill-registry.ts:97-140 | an accepted registry renders for a host exactly when no body and no file of its skills there is blank and no file of the target-root skill is called as another skill's published file |
| `SkillManifest.InstalledPathsDistinct` | packages/agent-kit/src/skill-registry.ts:116-122 | in every accepted registry the installed paths are pairwise distinct across skills and hosts |
| `SkillManifest.SamePublish` | packages/agent-kit/src/skill-registry.ts:113-124 | two files of one host share a publish path exactly when one belongs to the target-root skill and its relative path spells the other skill's name and file |
| `SkillManifest.DuplicatesComeFromTheRoot` | packages/agent-kit/src/skill-registry.ts:123-125 | so the duplicate-path failure happens exactly on such a clash and only ever involves the target-root skill's publish paths |
| `SkillManifest.MappingIsBijection` | packages/agent-kit/src/index.ts:303-319 | whenever both hosts render, publish paths and installed paths are distinct over all files, accepted registry or not |
| `SkillManifest.RenderPublishableSkills` | packages/agent-kit/src/index.ts:281-297 | both hosts' files in turn, each with its publish path and content, exactly when both hosts render |
| `SkillManifest.SkillFileMappings` | packages/agent-kit/src/index.ts:303-319 | both hosts' files in turn, each with its publish and installed path, exactly when both hosts render |
| `SkillManifest.InstalledByPublish` | packages/agent-kit/src/index.ts:323-325 | the look-up table maps each mapping's publish path to its own installed path and holds no other path |
| `SkillManifest.RenderAgentKitManifest` | packages/agent-kit/src/index.ts:321-342 | the missing-mapping failure is unreachable, and each entry carries its own file's installed path, digest, target, skill and version |
| `RegistryLaws.EveryFileIsListed` | packages/agent-kit/src/index.ts:281-342 | what is published, mapped and listed is exactly every file of every skill for each of its hosts |
| `RegistryLaws.RendersEverywhere` | packages/agent-kit/src/index.ts:281-319 | for an accepted registry both hosts render exactly when no body or file of any skill is blank for any of its hosts and no file of the target-root skill overlaps another's |
| `ProductSkillOwnership.SlugIsWellFormed` | packages/agent-kit/src/product-skill-ownership.ts:144-155 | every name gets a slug of the slug grammar with at most 64 characters |
| `ProductSkillOwnership.SlugSharing` | packages/agent-kit/src/product-skill-ownership.ts:144-155 | two application names share a slug exactly when equal, or when both are fallbacks with one 59-digit digest prefix |
| `OwnershipLaws.SlugIsSpelled` | packages/agent-kit/src/product-skill-ownership.ts:144-155 | a name that is short hyphened words after replacing underscores, and not shaped like a fallback, is its own slug; any other gets `n-h`, 59 digits of its digest and `-n` |
| `OwnershipLaws.DecodedIsSaid` | packages/agent-kit/src/product-skill-ownership.ts:65-141 | a record decodes to a state exactly when it says that state and nothing else, key by literal key, under schema 2 or, marked for migration, schema 1 |
| `ProductSkillOwnership.DecodeProductSkillState` | packages/agent-kit/src/product-skill-ownership.ts:65-141 | the decoder with its file loop and path set returns what the recursive decoding does |
| `ProductSkillOwnership.DecodeFileList` | packages/agent-kit/src/product-skill-ownership.ts:104-121 | the loop over a record's files accepts exactly the lists of valid files with different paths |
| `ProductSkillOwnership.EncodedDecodes` | packages/agent-kit/src/product-skill-ownership.ts:65-141 | an encoded record decodes to itself exactly when it is owned and its own target asks; under schema 2 with no migration, under schema 1 marked for migration |
| `ProductSkillOwnership.DecodedIsOwned` | packages/agent-kit/src/product-skill-ownership.ts:83-140 | whatever decodes, from either schema, is an owned record of the asking target with exactly its two files |
| `ProductSkillOwnership.MigratesOnce` | packages/agent-kit/src/product-skill-ownership.ts:64-140 | a decoded record written back under schema 2 decodes to the same state with no migration left |
| `ProductSkillOwnership.CreatedRoundTrips` | packages/agent-kit/src/product-skill-ownership.ts:41-62 | a record created with its target's two rendered files holds each input in its own field and decodes to itself |
| `PublicAdmissionAssertion.SignedVerifies` | packages/admission-limits/src/public-admission-assertion.ts:45-117 | a token signed at t verifies at u, against any binding, exactly when the binding is the signed one, the version is retained, the UTC day key is the same and -5 <= sec(u)-sec(t) <= 65; it then returns the signed pseudonyms |
| `PublicAdmissionAssertion.VerifiedIsGenuine` | packages/admission-limits/src/public-admission-assertion.ts:78-117 | whatever verifies is genuine: two parts of URL-safe text, a payload of the fifteen literal fields that carries the binding asked about and is current, and the mac of that payload under a usable key of the version it names; what is reported is what the payload says |
| `PublicAdmissionAssertion.GenuineVerifies` | packages/admission-limits/src/public-admission-assertion.ts:78-117 | the other direction: everything genuine in that sense verifies |
| `PublicAdmissionAssertion.ForgedIsRefused` | packages/admission-limits/src/public-admission-assertion.ts:92-95 | a payload with a mac that fits under none of the keys is refused for every binding and instant |
| `PublicAdmissionAssertion.SignsExactly` | packages/admission-limits/src/public-admission-assertion.ts:45-58 | a token is signed exactly for one usable address, a pseudonym key of at least 32 characters, a valid binding, and a usable active key |
| `PublicAdmissionAssertion.PseudonymsAreSpelled` | packages/admission-limits/src/public-admission-assertion.ts:59-74 | each pseudonym is the mac of the JSON list of installation, surface, day, kind and bucket, and a visitor's is given exactly when a visitor is |
| `PublicAdmissionAssertion.RotationKeepsPseudonyms` | packages/admission-limits/src/public-admission-assertion.ts:24-25 | verified tokens of one installation, surface, UTC day, address and visitor carry the same pseudonyms whatever keys signed them and however the address was spelled |
| `PublicAdmissionAssertion.PseudonymTextInjective` | packages/admission-limits/src/public-admission-assertion.ts:59-62 | pseudonyms of different installations, surfaces, days, kinds or buckets are macs of different texts |
| `PublicAdmissionAssertion.AssertedIsAssertion` | packages/admission-limits/src/public-admission-assertion.ts:140-175 | what the signer builds passes the verifier's own validation, key by key |
| `ListCompute.SummarizeColumns` | examples/sharepoint/src/list-compute.ts:36-61 | the loop keeps the summaries of values at ascending positions and leaves out no value that has an id and a name |
| `ListCompute.PickedOnce` | examples/sharepoint/src/list-compute.ts:36-61 | any list of columns that are the summarised values in order, none left out, is the one the loop returns |
| `ListLaws.SummaryIsExact` | examples/sharepoint/src/list-compute.ts:36-61 | a raw column is kept exactly when it has a non-empty id and name, with its display name and its required, hidden and read-only flags |
| `ListCompute.BuildIndex` | examples/sharepoint/src/list-compute.ts:195-202 | looking any key up in the index gives what the plain scan over the columns gives, duplicates and order included |
| `ListCompute.ScanExact` | examples/sharepoint/src/list-compute.ts:195-207 | the matches of a name are exactly the columns whose normalised name or display name equals it |
| `ListCompute.RunsCollapse` | examples/sharepoint/src/list-compute.ts:27 | inside a name a run of white space counts as one blank, however long and of whatever white-space characters |
| `ListLaws.PaddingIsIgnored` | examples/sharepoint/src/list-compute.ts:27 | white space around a name makes no difference |
| `ListLaws.TidyNameIsItself` | examples/sharepoint/src/list-compute.ts:27 | a name without stray white space is looked up as itself in lower case |
| `ListCompute.ResolveOne` | examples/sharepoint/src/list-compute.ts:206-227 | one input: a field exactly when resolvable; unknown only when no column is found under it, ambiguous only when two found columns differ in internal name, and every other refusal exactly for its own cause |
| `ListCompute.ResolvedUniquely` | examples/sharepoint/src/list-compute.ts:207-219 | an input resolves exactly when some column is found under it and all such columns bear one internal name; the column taken is one of them |
| `ListCompute.ResolveListItemValues` | examples/sharepoint/src/list-compute.ts:181-230 | succeeds exactly when every input resolves to one internal name, neither hidden nor read-only, with a value that coerces; then the two records hold what writing the entries in order leaves; the missing-internal-name failure is unreachable; a refusal names the first input that does not resolve, with its cause |
| `ListCompute.ResolvedExactly` | examples/sharepoint/src/list-compute.ts:227 | the resolved names are exactly the inputs, each with the internal name of its own column |
| `ListCompute.LastWriterWins` | examples/sharepoint/src/list-compute.ts:226 | a field is written exactly when some input resolves to it, and holds the coerced value of the last such input |
| `ListCompute.FieldsAreTheImage` | examples/sharepoint/src/list-compute.ts:204-229 | the written fields are exactly the image of the resolved names |
| `ListCompute.CoercionIsIdempotent` | examples/sharepoint/src/list-compute.ts:132-180 | a coerced value has the column's type, is one of its choices, and coerces to itself |
| `ListLaws.CoercesAsTaken` | examples/sharepoint/src/list-compute.ts:132-180 | what a raw column takes by its first type facet, and what is then written: a listed choice, a number or numeric text as that number, the literal yes and no words as booleans, a date as it is, or text |
| `ListLaws.RunIsExact` | examples/sharepoint/src/list-compute.ts:36-230 | from the raw list to the result: refused exactly when some input has no single column called so, or that column is marked hidden or read-only, or does not take the value; otherwise each input is resolved to its own column's name and the last writer of a field leaves what its column takes |
| `ListLaws.RefusalIsExplained` | examples/sharepoint/src/list-compute.ts:206-227 | each refusal from the raw columns: unknown, ambiguous, hidden, read-only and not coercible, each exactly for its cause |

## Left out

- Database plumbing: SQL text, pools, `ensureSchema`, indexes, the prune throttle. A sweep is one atomic deletion of some
  rows of one table below the cutoff, and `ctid` batching is the choice of which rows.
- PostgresTheorems.Serializable: refused counters are compared as a multiset, since the durable store lists them in sorted
  order; the `used` a denied durable call reports is left out, since it is read by a second query; it assumes that no sweep
  passes a day an unfinished call works on, which `Retention.TwoDaysOfSkewAreLive` ties to clock skew.
- PostgresSteps.ReachableInv: days are compared as text, which is date order in years 0 to 9999; the `date` column takes no
  other day keys.
- PostgresTheorems.NeverDeadlocked: takes `localeCompare` on day and key as a strict total order of rows.
- Amounts are natural numbers and limits integers; fractional, negative or unsafe numbers are out.
- InMemoryStore.InMemoryDailyCounterStore.Prune: deletes the collected keys after its scan, where the source deletes while
  iterating; the maps left and the count are the same.
- AdmissionRuns.CeilingsHold: counts by stored row; two surface and bucket pairs that spell the same key share a row and
  therefore a ceiling.
- AdmissionRuns.ResetIsHonest: instants of years 0 to 9999, as for all textual day laws; the reset itself may lie beyond.
- A counter store without `consumeAllOnce`, and thrown store errors, which the driver reports as unavailable.
- AddressReadings.AcceptedExactly: `isIP` is the grammar of `AddressText`, in which a zone is made of letters, digits, `.`, `:`
  and `-`.
- AddressReadings.MeetExactly: a zone that itself holds a colon is accepted, and its pieces are then read as further numbers,
  which the readings do not cover; `Expand` prints those exactly where the platform rounds them to doubles.
- SHA-256, HMAC, base64url and `hashtext` are parameters; collisions of the advisory hash only serialise more calls.
- CanonicalJson.ParseUndoesCanonical: numbers are integers printed in full, as doubles are inside the safe range; strings
  are Unicode scalar values, so lone surrogates are out; key order is any strict total order.
- Character counts are of Unicode scalar values where the source counts UTF-16 units.
- ManagedBlockLaws.LastBlockWins: the first body has no end marker and no trailing white space, and the version written
  into a block has no colon, line end or `<`; other bodies fail their own hash check, as `ManagedBlock.FrameHash` shows.
- ProductSkillOwnership.EncodedDecodes: records are JSON objects; values that cannot come from JSON text are out.
- PublicAdmissionAssertion.SignedVerifies: the visitor's bucket is a parameter, the codec is any pair with its round trip,
  and a retained version is one whose key is unchanged; a key replaced under the same version is left to the mac. A digest is
  a string, where the source's pattern test would also accept a one-element array of one.
- ListCompute.ResolveListItemValues: lower-casing, `Number` and `Date.parse` are parameters, numbers are integers, and the
  connector call that lists the columns is its result.
- `normalizeCreateListColumns` and the response summarisers, which copy fields.
- `envelope.ts`, `visitor-bucket.ts`, `request-attribution.ts`, `apps/self-host`, servers, views and the prose renderers:
  clamps, wrappers, configuration and constant text that would add only easy members.
- Rendering callbacks are total functions of the host; one that throws is out.
