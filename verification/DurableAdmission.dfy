/** Admission over the durable store: every interleaving of submissions keeps every ceiling. */
module DurableAdmission {
  import opened CounterStore
  import opened CounterLedger
  import opened Retention
  import PublicRecordAdmission
  import opened AdmissionRuns
  import opened PostgresStore
  import opened PostgresInvariant
  import opened PostgresTheorems

  type Submission = PublicRecordAdmission.Submission
  type Kind = PublicRecordAdmission.Kind
  type Limits = PublicRecordAdmission.Limits

  /** Call `p` of the store is submission `p`, under the one set of limits. */
  predicate Submits(cfg: Config, subs: seq<Submission>, limits: Limits) {
    |subs| == |cfg.calls| &&
    forall p :: 0 <= p < |subs| ==>
      && PublicRecordAdmission.Reaches(subs[p]) && LimitsOf(subs[p]) == limits
      && cfg.calls[p] == PublicRecordAdmission.CallOf(subs[p])
  }

  /** The submissions charged on a row, by the calls that committed them, their callers told or not. */
  ghost function ChargedOn(s: State, subs: seq<Submission>, kind: Kind, row: Row): set<nat>
    requires |s.procs| == |subs|
  {
    set p: nat | p < |subs| && s.procs[p].Finished? && s.procs[p].outcome == Consumed && On(subs[p], kind, row)
  }

  ghost function DecidedOn(order: seq<nat>, log: seq<Entry>, subs: seq<Submission>, kind: Kind, row: Row): set<nat>
    requires |order| == |log| && forall i :: 0 <= i < |order| ==> order[i] < |subs|
  {
    set i | 0 <= i < |order| && log[i].outcome == Consumed && On(subs[order[i]], kind, row) :: order[i]
  }

  lemma OnceAccepts(ledger: Ledger, call: Call, outcome: Outcome)
    requires call.Once? && SameOutcome(outcome, Perform(ledger, call).1)
    ensures Accepting(outcome) <==> outcome == Consumed
  {
  }

  lemma DecidedStep(order: seq<nat>, log: seq<Entry>, subs: seq<Submission>, kind: Kind, row: Row)
    requires |order| == |log| > 0 && forall i :: 0 <= i < |order| ==> order[i] < |subs|
    requires forall i, j :: 0 <= i < j < |order| ==> order[i] != order[j]
    ensures var n := |log| - 1;
            var before := DecidedOn(order[..n], log[..n], subs, kind, row);
            && order[n] !in before
            && DecidedOn(order, log, subs, kind, row)
            == before + if log[n].outcome == Consumed && On(subs[order[n]], kind, row) then {order[n]} else {}
  {
    hide On;
    var n := |log| - 1;
    assert forall i :: 0 <= i < n ==> order[..n][i] == order[i] && log[..n][i] == log[i];
  }

  /** What the last entry of a log of submissions adds to a ceiling's row. */
  lemma LastCharge(log: seq<Entry>, sub: Submission, kind: Kind, row: Row, surface: string, bucket: string, t: int)
    requires log != [] && Faithful(log) && PublicRecordAdmission.Reaches(sub)
    requires log[|log| - 1].call == PublicRecordAdmission.CallOf(sub)
    requires row == PublicRecordAdmission.RowOfKind(kind, surface, bucket, t)
    ensures TotalCharged(log, row) == TotalCharged(log[..|log| - 1], row)
              + if log[|log| - 1].outcome == Consumed && On(sub, kind, row) then 1 else 0
  {
    hide PublicRecordAdmission.Reaches, PublicRecordAdmission.CallOf, PublicRecordAdmission.RowOfKind;
    hide On, Charged, Faithful;
    CallShape(sub);
    OneOrNothing(sub, kind, row, surface, bucket, t);
    LastAccepts(log);
    assert ChargesOf(log[|log| - 1].call) == log[|log| - 1].call.charges;
  }

  /** Over any log of submissions, what a ceiling's row was charged is the number of submissions consumed on it. */
  lemma {:induction false} ChargesAreCounted(order: seq<nat>, log: seq<Entry>, subs: seq<Submission>, kind: Kind,
                                             row: Row, surface: string, bucket: string, t: int)
    requires |order| == |log| && Faithful(log)
    requires forall i :: 0 <= i < |order| ==>
               order[i] < |subs| && PublicRecordAdmission.Reaches(subs[order[i]])
               && log[i].call == PublicRecordAdmission.CallOf(subs[order[i]])
    requires forall i, j :: 0 <= i < j < |order| ==> order[i] != order[j]
    requires row == PublicRecordAdmission.RowOfKind(kind, surface, bucket, t)
    ensures TotalCharged(log, row) == |DecidedOn(order, log, subs, kind, row)|
  {
    hide PublicRecordAdmission.Reaches, PublicRecordAdmission.CallOf, PublicRecordAdmission.RowOfKind;
    hide On, Charged, Faithful;
    hide DecidedOn, Accepting;
    if log == [] {
      NothingDecided(order, log, subs, kind, row);
    } else {
      var n := |log| - 1;
      FaithfulPrefix(log, n);
      ChargesAreCounted(order[..n], log[..n], subs, kind, row, surface, bucket, t);
      LastCharge(log, subs[order[n]], kind, row, surface, bucket, t);
      DecidedStep(order, log, subs, kind, row);
    }
  }

  lemma NothingDecided(order: seq<nat>, log: seq<Entry>, subs: seq<Submission>, kind: Kind, row: Row)
    requires |order| == |log| == 0
    ensures DecidedOn(order, log, subs, kind, row) == {}
  {
  }

  lemma LastAccepts(log: seq<Entry>)
    requires log != [] && Faithful(log) && log[|log| - 1].call.Once?
    ensures Accepting(log[|log| - 1].outcome) <==> log[|log| - 1].outcome == Consumed
  {
    hide Perform;
    var n := |log| - 1;
    OnceAccepts(LedgerAfter(log[..n]), log[n].call, log[n].outcome);
  }

  /**
   * With fixed limits, no interleaving of submissions, failures, lost answers and sweeps takes a ceiling's row past its
   * limit; and while its day is live the row holds exactly the number of submissions charged on it.
   */
  lemma CeilingsHoldDurably(cfg: Config, actions: seq<Action>, s: State, subs: seq<Submission>, limits: Limits,
                            kind: Kind, row: Row, surface: string, bucket: string, t: int)
    requires WellFormed(cfg) && Reaches(cfg, actions, s) && Submits(cfg, subs, limits)
    requires PublicRecordAdmission.LimitOf(kind, limits) >= 0
    requires row == PublicRecordAdmission.RowOfKind(kind, surface, bucket, t)
    ensures Usage(s.tables.used, row) <= PublicRecordAdmission.LimitOf(kind, limits)
    ensures |s.procs| == |subs|
    ensures Live(row.day, s.cutoffs) ==> Usage(s.tables.used, row) == |ChargedOn(s, subs, kind, row)|
  {
    hide PublicRecordAdmission.Reaches, PublicRecordAdmission.CallOf, PublicRecordAdmission.RowOfKind;
    hide On, Charged, Faithful;
    hide CarriesLimit, Reaches, Perform, LimitsOf;
    forall p | 0 <= p < |cfg.calls|
      ensures CarriesLimit(cfg.calls[p], row, PublicRecordAdmission.LimitOf(kind, limits))
    {
      CallShape(subs[p]);
      OneOrNothing(subs[p], kind, row, surface, bucket, t);
    }
    RowsBounded(cfg, actions, s, row, PublicRecordAdmission.LimitOf(kind, limits));
    Serializable(cfg, actions, s);
    LateFaithful(cfg, actions, s);
    ChargesAreCounted(s.order, s.log, subs, kind, row, surface, bucket, t);
    DecidedAreCharged(cfg, s, subs, limits, kind, row);
    if Live(row.day, s.cutoffs) { RowsConserved(cfg, actions, s, row); }
  }

  lemma DecidedAreCharged(cfg: Config, s: State, subs: seq<Submission>, limits: Limits, kind: Kind, row: Row)
    requires Submits(cfg, subs, limits) && |s.procs| == |cfg.calls| && |s.order| == |s.log|
    requires forall i :: 0 <= i < |s.log| ==>
               && s.order[i] < |s.procs| && s.procs[s.order[i]].Finished?
               && s.procs[s.order[i]].outcome == s.log[i].outcome
    requires forall p :: 0 <= p < |s.procs| && s.procs[p].Finished? ==>
               p in s.order || s.procs[p].outcome == DuplicateRows
    ensures DecidedOn(s.order, s.log, subs, kind, row) == ChargedOn(s, subs, kind, row)
  {
    hide On;
    var decided, charged := DecidedOn(s.order, s.log, subs, kind, row), ChargedOn(s, subs, kind, row);
    forall p: nat | p in charged ensures p in decided {
      var i :| 0 <= i < |s.order| && s.order[i] == p;
    }
    assert forall p: nat :: p in decided ==> p in charged;
  }
}
