/** Why the assumptions of the interleaved store are needed: what a late sweep and a tied row order do. */
module PostgresLimits {
  import opened Text
  import opened Calendar
  import opened CounterStore
  import opened CounterLedger
  import opened Requests
  import opened Retention
  import opened NormalizedBatch
  import opened PostgresStore

  function Solo(row: Row): Charge {
    Charge(row, 1, 5, ExhaustedCounter(row.key, 5, 0))
  }

  function Scan(s: State, p: nat, i: nat, inserted: bool, seen: seq<nat>, draft: map<Row, nat>): State
    requires p < |s.procs|
  {
    Move(s, p, Scanning(i, inserted, seen, draft))
  }

  /** Process `p` taking `n` steps with nobody else moving. */
  function StepsAlone(cfg: Config, s: State, p: nat, n: nat): (end: Option<State>)
    ensures end.Some? ==> |end.value.procs| == |s.procs|
    decreases n
  {
    if n == 0 then Some(s)
    else if p < |s.procs| == |cfg.calls| && CanStep(cfg, s, p) then StepsAlone(cfg, StepOf(cfg, s, p), p, n - 1)
    else None
  }

  lemma OneStep(cfg: Config, s: State, p: nat, n: nat, next: State)
    requires p < |s.procs| == |cfg.calls| && CanStep(cfg, s, p) && StepOf(cfg, s, p) == next
    ensures StepsAlone(cfg, s, p, n + 1) == StepsAlone(cfg, next, p, n)
  {
    hide CanStep, StepOf;
  }

  // ----- Sweeping a day in use ----------------------------------------------------------------------

  lemma SinglePlan(cfg: Config, charge: Charge)
    requires |cfg.calls| == 1 && cfg.calls[0] == Batch([charge]) && 0 < charge.amount <= charge.limit
    ensures Plan(cfg, 0) == [charge]
    ensures ExhaustedBy([charge], [0]) == []
  {
    assert [charge][1..] == [] && [charge][..0] == [] && [0][..0] == [];
    assert Sort([], cfg.before) == [];
    assert ExhaustedBy([], []) == [];
  }

  lemma SweptBatch(cfg: Config, s: State, charge: Charge)
    requires |s.procs| == |cfg.calls| == 1 && cfg.calls[0] == Batch([charge]) && 0 < charge.amount <= charge.limit
    requires s.procs[0] == Scanning(0, true, [], map[]) && s.locks == map[] && charge.row !in s.tables.used
    ensures var end := StepsAlone(cfg, s, 0, 4);
            end.Some? && end.value.procs == [Finished(Spent, true)] && end.value.tables == s.tables
  {
    SinglePlan(cfg, charge);
    hide Plan, ExhaustedBy, StepsAlone;
    var s1 := Scan(s, 0, 1, false, [0], map[]);
    assert [] + [0] == [0];
    OneStep(cfg, s, 0, 3, s1);
    var s2 := Move(s1, 0, Writing(0, map[]));
    OneStep(cfg, s1, 0, 2, s2);
    var s3 := Move(s2, 0, Writing(1, map[]));
    OneStep(cfg, s2, 0, 1, s3);
    assert s3.tables.(used := s3.tables.used + map[]) == s.tables;
    var s4 := Decide(cfg, s3, 0, s.tables, Spent);
    OneStep(cfg, s3, 0, 0, s4);
    LastStep(cfg, s4, 0);
  }

  lemma LastStep(cfg: Config, s: State, p: nat)
    ensures StepsAlone(cfg, s, p, 0) == Some(s)
  {
  }

  lemma LateRowIsBehind(request: CounterRequest, now: int, sweepNow: int)
    requires FourDigitYear(now) && FourDigitYear(sweepNow - COUNTER_RETENTION_DAYS * MS_PER_DAY)
    requires Day(now) < Day(sweepNow) - COUNTER_RETENTION_DAYS
    ensures Behind({ChargeOf(request, now).row}, RetentionCutoff(sweepNow))
    ensures !LiveCall(Batch([ChargeOf(request, now)]), {RetentionCutoff(sweepNow)})
  {
    hide DayKey, LexLess, NextResetAt, FourDigitYear;
    RetentionKeepsTwoDays(now, sweepNow);
    var call := Batch([ChargeOf(request, now)]);
    assert ChargesOf(call)[0].row.day == DayKey(now);
  }

  /**
   * A caller more than two days behind the sweeper can lose its charge: the sweep then may delete the caller's row, and
   * when it does so between a batch's insert and its locking read, the batch reads nothing, updates nothing and commits
   * an amount that is nowhere recorded. It is exactly the sweep that live days rule out.
   */
  lemma LateSweepLosesCharge(cfg: Config, s: State, request: CounterRequest, now: int, sweepNow: int)
    requires FourDigitYear(now) && FourDigitYear(sweepNow - COUNTER_RETENTION_DAYS * MS_PER_DAY)
    requires Day(now) < Day(sweepNow) - COUNTER_RETENTION_DAYS
    requires 0 < request.Units() <= request.limit
    requires |s.procs| == |cfg.calls| == 1 && cfg.calls[0] == Batch([ChargeOf(request, now)])
    requires s.procs[0] == Idle && s.locks == map[] && ChargeOf(request, now).row in s.tables.used
    ensures var row, cutoff := ChargeOf(request, now).row, RetentionCutoff(sweepNow);
            var scanned := StepsAlone(cfg, s, 0, 2);
            && Behind({row}, cutoff)
            && scanned.Some? && !SweepAllowed(cfg, scanned.value, cutoff)
            && var swept := scanned.value.(tables := scanned.value.tables.(used := s.tables.used - {row}));
            && var end := StepsAlone(cfg, swept, 0, 4);
            && end.Some? && end.value.procs == [Finished(Spent, true)] && Usage(end.value.tables.used, row) == 0
            && Charged(ChargesOf(cfg.calls[0]), row) == request.Units() > 0
  {
    var charge := ChargeOf(request, now);
    hide StepsAlone, ChargeOf, RetentionCutoff, Behind, LiveCall, FourDigitYear;
    LateRowIsBehind(request, now, sweepNow);
    LiveShrinks(cfg.calls[0], s.cutoffs, RetentionCutoff(sweepNow));
    ChargeKeepsUnits(request, now);
    SinglePlan(cfg, charge);
    hide Plan;
    var s1 := Scan(s, 0, 0, false, [], map[]);
    OneStep(cfg, s, 0, 1, s1);
    var s2 := Scan(s1, 0, 0, true, [], map[]);
    OneStep(cfg, s1, 0, 0, s2);
    LastStep(cfg, s2, 0);
    SweptBatch(cfg, s2.(tables := s2.tables.(used := s.tables.used - {charge.row})), charge);
    assert ChargesOf(cfg.calls[0]) == [charge];
    ChargedDistinct([charge], 0);
  }

  lemma ChargeKeepsUnits(request: CounterRequest, now: int)
    ensures ChargeOf(request, now).amount == request.Units() && ChargeOf(request, now).limit == request.limit
  {
  }

  lemma LiveShrinks(call: Call, cutoffs: set<string>, cutoff: string)
    requires !LiveCall(call, {cutoff})
    ensures !LiveCall(call, cutoffs + {cutoff})
  {
    hide ChargesOf;
    forall day | Live(day, cutoffs + {cutoff}) ensures Live(day, {cutoff}) { }
  }

  /** Process `p` is past the insert of its entry `k`, whose row is neither in the table nor in its draft. */
  predicate Missed(cfg: Config, s: State, p: nat, k: nat)
    requires p < |s.procs| == |cfg.calls| && k < |Plan(cfg, p)|
  {
    var row := Plan(cfg, p)[k].row;
    row !in s.tables.used &&
    match s.procs[p]
    case Scanning(i, inserted, _, draft) => row !in draft && (i > k || (i == k && inserted))
    case Writing(_, draft) => row !in draft
    case Committing(draft) => row !in draft
    case Finished(_, _) => true
    case Aborted => true
    case _ => false
  }

  lemma MissedStep(cfg: Config, s: State, p: nat, k: nat)
    requires p < |s.procs| == |cfg.calls| && k < |Plan(cfg, p)| && DistinctRows(Plan(cfg, p))
    requires Missed(cfg, s, p, k) && CanStep(cfg, s, p)
    ensures |StepOf(cfg, s, p).procs| == |s.procs| && Missed(cfg, StepOf(cfg, s, p), p, k)
  {
    hide Plan, ExhaustedBy, Release;
  }

  /** Whatever batch it is: a row swept from under it after its insert is never written again by that batch. */
  lemma {:induction false} SweptRowStaysAbsent(cfg: Config, s: State, p: nat, k: nat, n: nat)
    requires p < |s.procs| == |cfg.calls| && k < |Plan(cfg, p)| && DistinctRows(Plan(cfg, p))
    requires Missed(cfg, s, p, k) && StepsAlone(cfg, s, p, n).Some?
    ensures Plan(cfg, p)[k].row !in StepsAlone(cfg, s, p, n).value.tables.used
    decreases n
  {
    hide Plan, CanStep, StepOf;
    if n > 0 {
      MissedStep(cfg, s, p, k);
      SweptRowStaysAbsent(cfg, StepOf(cfg, s, p), p, k, n - 1);
    }
  }

  // ----- Ties in the row order ------------------------------------------------------------------------

  lemma TiedPlan(before: (Row, Row) -> bool, a: Row, b: Row)
    requires !before(a, b) && !before(b, a)
    ensures Sort([Solo(a), Solo(b)], before) == [Solo(a), Solo(b)]
  {
    assert [Solo(a), Solo(b)][1..] == [Solo(b)] && [Solo(b)][1..] == [];
    assert Sort([Solo(b)], before) == [Solo(b)];
  }

  lemma BatchBegins(cfg: Config, s: State, p: nat, a: Row, b: Row)
    requires p < |s.procs| == |cfg.calls| && s.procs[p] == Idle && a != b
    requires cfg.calls[p] == Batch([Solo(a), Solo(b)]) && !cfg.before(a, b) && !cfg.before(b, a)
    ensures CanStep(cfg, s, p) && StepOf(cfg, s, p) == Scan(s, p, 0, false, [], map[])
  {
    TiedPlan(cfg.before, a, b);
  }

  lemma FreshInsert(cfg: Config, s: State, p: nat, a: Row, b: Row)
    requires p < |s.procs| == |cfg.calls| && s.procs[p] == Scanning(0, false, [], map[])
    requires cfg.calls[p] == Batch([Solo(a), Solo(b)]) && !cfg.before(a, b) && !cfg.before(b, a)
    requires a !in s.tables.used && OnRow(a) !in s.locks
    ensures CanStep(cfg, s, p) && StepOf(cfg, s, p) == Scan(Take(s, p, OnRow(a)), p, 0, true, [], map[a := 0])
  {
    TiedPlan(cfg.before, a, b);
    assert map[][a := 0] == map[a := 0];
  }

  lemma OwnSelect(cfg: Config, s: State, p: nat, a: Row, b: Row)
    requires p < |s.procs| == |cfg.calls| && s.procs[p] == Scanning(0, true, [], map[a := 0])
    requires cfg.calls[p] == Batch([Solo(a), Solo(b)]) && !cfg.before(a, b) && !cfg.before(b, a)
    requires OnRow(a) in s.locks && s.locks[OnRow(a)] == p
    ensures CanStep(cfg, s, p) && StepOf(cfg, s, p) == Scan(Take(s, p, OnRow(a)), p, 1, false, [0], map[a := 0])
  {
    assert [] + [0] == [0];
    TiedPlan(cfg.before, a, b);
  }

  lemma SecondInsertWaits(cfg: Config, s: State, p: nat, a: Row, b: Row)
    requires p < |s.procs| == |cfg.calls| && s.procs[p] == Scanning(1, false, [0], map[a := 0])
    requires cfg.calls[p] == Batch([Solo(a), Solo(b)]) && !cfg.before(a, b) && !cfg.before(b, a)
    requires b !in s.tables.used && OnRow(b) in s.locks && s.locks[OnRow(b)] != p
    ensures !CanStep(cfg, s, p)
  {
    TiedPlan(cfg.before, a, b);
  }

  lemma Extend(cfg: Config, actions: seq<Action>, s: State, action: Action)
    requires Reaches(cfg, actions, s) && |s.procs| == |cfg.calls| && Enabled(cfg, s, action)
    ensures Reaches(cfg, actions + [action], Apply(cfg, s, action))
  {
    var longer := actions + [action];
    assert longer[..|longer| - 1] == actions;
    assert LeadsTo(cfg, longer, s, Apply(cfg, s, action));
  }

  /**
   * Why the row order must be total: if it ties two distinct rows, the sort keeps request order, and two batches that
   * name them in opposite orders reach a state in which both wait for ever.
   */
  lemma TiedRowsDeadlock(before: (Row, Row) -> bool, hash: Row -> int, a: Row, b: Row)
    returns (cfg: Config, actions: seq<Action>, s: State)
    requires a != b && !before(a, b) && !before(b, a)
    ensures cfg == Config([Batch([Solo(a), Solo(b)]), Batch([Solo(b), Solo(a)])], before, hash)
    ensures Reaches(cfg, actions, s) && |s.procs| == 2
    ensures forall p :: 0 <= p < 2 ==> !Over(s.procs[p]) && !CanStep(cfg, s, p)
  {
    cfg := Config([Batch([Solo(a), Solo(b)]), Batch([Solo(b), Solo(a)])], before, hash);
    hide StepOf, CanStep, Plan, Reaches;
    s := Init(cfg);
    actions := [];
    assert Reaches(cfg, actions, s) by { Started(cfg); }
    BatchBegins(cfg, s, 0, a, b);
    s, actions := Go(cfg, actions, s, 0);
    FreshInsert(cfg, s, 0, a, b);
    s, actions := Go(cfg, actions, s, 0);
    OwnSelect(cfg, s, 0, a, b);
    s, actions := Go(cfg, actions, s, 0);
    BatchBegins(cfg, s, 1, b, a);
    s, actions := Go(cfg, actions, s, 1);
    FreshInsert(cfg, s, 1, b, a);
    s, actions := Go(cfg, actions, s, 1);
    OwnSelect(cfg, s, 1, b, a);
    s, actions := Go(cfg, actions, s, 1);
    SecondInsertWaits(cfg, s, 0, a, b);
    SecondInsertWaits(cfg, s, 1, b, a);
  }

  lemma Started(cfg: Config)
    ensures Reaches(cfg, [], Init(cfg))
  {
  }

  lemma Go(cfg: Config, actions: seq<Action>, s: State, p: nat) returns (s': State, actions': seq<Action>)
    requires Reaches(cfg, actions, s) && p < |s.procs| == |cfg.calls| && CanStep(cfg, s, p)
    ensures s' == StepOf(cfg, s, p) && Reaches(cfg, actions', s')
  {
    hide StepOf, CanStep, Reaches;
    Extend(cfg, actions, s, Step(p));
    s', actions' := StepOf(cfg, s, p), actions + [Step(p)];
  }
}
