/** The durable store's batch order: rows sorted by one total order, duplicates rejected. */
module NormalizedBatch {
  import opened Orders
  import opened CounterStore
  import opened CounterLedger

  // `before` is the comparison of rows by `localeCompare`.

  function Insert(charge: Charge, sorted: seq<Charge>, before: (Row, Row) -> bool): seq<Charge> {
    if sorted != [] && before(sorted[0].row, charge.row) then
      [sorted[0]] + Insert(charge, sorted[1..], before)
    else
      [charge] + sorted
  }

  /** The stable sort of a batch. */
  function Sort(charges: seq<Charge>, before: (Row, Row) -> bool): seq<Charge> {
    if charges == [] then [] else Insert(charges[0], Sort(charges[1..], before), before)
  }

  ghost predicate Ascending(charges: seq<Charge>, before: (Row, Row) -> bool) {
    forall i, j :: 0 <= i < j < |charges| ==> before(charges[i].row, charges[j].row) || charges[i].row == charges[j].row
  }

  lemma {:induction false} InsertPermutes(charge: Charge, sorted: seq<Charge>, before: (Row, Row) -> bool)
    ensures multiset(Insert(charge, sorted, before)) == multiset([charge] + sorted)
  {
    if sorted != [] {
      InsertPermutes(charge, sorted[1..], before);
      assert sorted == [sorted[0]] + sorted[1..];
    }
  }

  lemma {:induction false} SortPermutes(charges: seq<Charge>, before: (Row, Row) -> bool)
    ensures multiset(Sort(charges, before)) == multiset(charges)
  {
    if charges != [] {
      SortPermutes(charges[1..], before);
      InsertPermutes(charges[0], Sort(charges[1..], before), before);
      assert charges == [charges[0]] + charges[1..];
    }
  }

  lemma {:induction false} InsertAscending(charge: Charge, sorted: seq<Charge>, before: (Row, Row) -> bool)
    requires StrictTotalOrder(before) && Ascending(sorted, before)
    ensures Ascending(Insert(charge, sorted, before), before)
  {
    if sorted != [] && before(sorted[0].row, charge.row) {
      var rest := Insert(charge, sorted[1..], before);
      InsertAscending(charge, sorted[1..], before);
      InsertPermutes(charge, sorted[1..], before);
      forall j | 0 <= j < |rest|
        ensures before(sorted[0].row, rest[j].row) || sorted[0].row == rest[j].row
      {
        assert rest[j] in multiset([charge] + sorted[1..]);
        if rest[j] != charge { assert rest[j] in sorted[1..]; }
      }
    }
  }

  /** Every batch is processed in ascending row order, whatever order its requests came in. */
  lemma {:induction false} SortAscending(charges: seq<Charge>, before: (Row, Row) -> bool)
    requires StrictTotalOrder(before)
    ensures Ascending(Sort(charges, before), before)
  {
    if charges != [] {
      SortAscending(charges[1..], before);
      InsertAscending(charges[0], Sort(charges[1..], before), before);
    }
  }

  // ----- What depends only on the requests, not on their order --------------------------------------

  predicate HasRow(charges: seq<Charge>, row: Row) {
    exists k :: 0 <= k < |charges| && charges[k].row == row
  }

  lemma SameRows(a: seq<Charge>, b: seq<Charge>, row: Row)
    requires multiset(a) == multiset(b)
    ensures HasRow(a, row) <==> HasRow(b, row)
  {
    forall k | 0 <= k < |a|
      ensures HasRow(b, a[k].row)
    {
      assert a[k] in multiset(b);
      var i :| 0 <= i < |b| && b[i] == a[k];
    }
    forall k | 0 <= k < |b|
      ensures HasRow(a, b[k].row)
    {
      assert b[k] in multiset(a);
      var i :| 0 <= i < |a| && a[i] == b[k];
    }
  }

  lemma DistinctCons(charge: Charge, rest: seq<Charge>)
    ensures DistinctRows([charge] + rest) <==> DistinctRows(rest) && !HasRow(rest, charge.row)
  {
    var all := [charge] + rest;
    assert forall k :: 0 <= k < |rest| ==> all[k + 1] == rest[k];
    if DistinctRows(all) {
      forall i, j | 0 <= i < j < |rest|
        ensures rest[i].row != rest[j].row
      {
        assert all[i + 1].row != all[j + 1].row;
      }
      forall k | 0 <= k < |rest|
        ensures rest[k].row != charge.row
      {
        assert all[0].row != all[k + 1].row;
      }
    }
    if DistinctRows(rest) && !HasRow(rest, charge.row) {
      forall i, j | 0 <= i < j < |all|
        ensures all[i].row != all[j].row
      {
        assert all[j] == rest[j - 1];
        if i > 0 { assert all[i] == rest[i - 1]; }
      }
    }
  }

  lemma {:induction false} InsertDistinct(charge: Charge, sorted: seq<Charge>, before: (Row, Row) -> bool)
    ensures DistinctRows(Insert(charge, sorted, before)) <==> DistinctRows([charge] + sorted)
  {
    if sorted != [] && before(sorted[0].row, charge.row) {
      var head, rest := sorted[0], sorted[1..];
      assert sorted == [head] + rest;
      InsertDistinct(charge, rest, before);
      InsertPermutes(charge, rest, before);
      SameRows(Insert(charge, rest, before), [charge] + rest, head.row);
      DistinctCons(head, Insert(charge, rest, before));
      DistinctCons(charge, rest);
      DistinctCons(charge, sorted);
      DistinctCons(head, rest);
      HasRowCons(charge, rest, head.row);
      HasRowCons(head, rest, charge.row);
    }
  }

  lemma HasRowCons(charge: Charge, rest: seq<Charge>, row: Row)
    ensures HasRow([charge] + rest, row) <==> charge.row == row || HasRow(rest, row)
  {
    var all := [charge] + rest;
    assert forall k :: 0 <= k < |rest| ==> all[k + 1] == rest[k];
    assert all[0] == charge;
    if k :| 0 <= k < |all| && all[k].row == row {
      if k > 0 { assert rest[k - 1].row == row; }
    }
  }

  /** Sorting first does not change which batches name a row twice. */
  lemma {:induction false} SortDistinct(charges: seq<Charge>, before: (Row, Row) -> bool)
    ensures DistinctRows(Sort(charges, before)) <==> DistinctRows(charges)
  {
    if charges != [] {
      var rest := charges[1..];
      assert charges == [charges[0]] + rest;
      SortDistinct(rest, before);
      SortPermutes(rest, before);
      InsertDistinct(charges[0], Sort(rest, before), before);
      DistinctCons(charges[0], rest);
      DistinctCons(charges[0], Sort(rest, before));
      SameRows(rest, Sort(rest, before), charges[0].row);
    }
  }

  lemma {:induction false} ExhaustionConcat(used: map<Row, nat>, a: seq<Charge>, b: seq<Charge>)
    ensures Exhaustion(used, a + b) == Exhaustion(used, a) + Exhaustion(used, b)
  {
    if b == [] {
      assert a + b == a;
    } else {
      var n := |b| - 1;
      assert (a + b)[..|a + b| - 1] == a + b[..n];
      ExhaustionConcat(used, a, b[..n]);
    }
  }

  lemma {:induction false} InsertExhaustion(used: map<Row, nat>, charge: Charge, sorted: seq<Charge>,
                                            before: (Row, Row) -> bool)
    ensures multiset(Exhaustion(used, Insert(charge, sorted, before)))
         == multiset(Exhaustion(used, [charge])) + multiset(Exhaustion(used, sorted))
  {
    hide Exhaustion;
    if sorted != [] && before(sorted[0].row, charge.row) {
      var rest := sorted[1..];
      InsertExhaustion(used, charge, rest, before);
      assert sorted == [sorted[0]] + rest;
      ExhaustionConcat(used, [sorted[0]], Insert(charge, rest, before));
      ExhaustionConcat(used, [sorted[0]], rest);
    } else {
      ExhaustionConcat(used, [charge], sorted);
    }
  }

  /** Sorting first does not change which counters are reported exhausted. */
  lemma {:induction false} SortExhaustion(used: map<Row, nat>, charges: seq<Charge>, before: (Row, Row) -> bool)
    ensures multiset(Exhaustion(used, Sort(charges, before))) == multiset(Exhaustion(used, charges))
  {
    hide Exhaustion, Insert;
    if charges != [] {
      var rest := charges[1..];
      assert charges == [charges[0]] + rest;
      SortExhaustion(used, rest, before);
      InsertExhaustion(used, charges[0], Sort(rest, before), before);
      ExhaustionConcat(used, [charges[0]], rest);
    }
  }
}
