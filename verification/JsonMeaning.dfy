/** What a JSON value means, its objects taken as maps, and why canonical text decides it. */
module JsonMeaning {
  import opened Orders
  import opened Text
  import opened CanonicalJson

  datatype Tree = Leaf(value: Json) | List(items: seq<Tree>) | Record(fields: map<string, Tree>)

  function Meaning(value: Json): Tree
    decreases value
  {
    match value
    case Arr(items) => List(MeaningItems(items))
    case Obj(fields) => Record(MeaningFields(fields))
    case _ => Leaf(value)
  }

  function MeaningItems(items: seq<Json>): (trees: seq<Tree>)
    ensures |trees| == |items|
    decreases items
  {
    if items == [] then [] else [Meaning(items[0])] + MeaningItems(items[1..])
  }

  function MeaningFields(fields: seq<Keyed<Json>>): map<string, Tree>
    decreases fields
  {
    if fields == [] then map[] else MeaningFields(fields[1..])[fields[0].key := Meaning(fields[0].value)]
  }

  predicate DistinctKeys<T>(fields: seq<Keyed<T>>) {
    forall i, j :: 0 <= i < j < |fields| ==> fields[i].key != fields[j].key
  }

  /** Every object of the value names each key once, as a JavaScript object does. */
  predicate WellFormed(value: Json)
    decreases value
  {
    match value
    case Arr(items) => forall k :: 0 <= k < |items| ==> WellFormed(items[k])
    case Obj(fields) => DistinctKeys(fields) && forall k :: 0 <= k < |fields| ==> WellFormedField(fields[k])
    case _ => true
  }

  predicate WellFormedField(field: Keyed<Json>)
    decreases field
  {
    WellFormed(field.value)
  }

  predicate AscendingKeys<T>(fields: seq<Keyed<T>>, before: (string, string) -> bool) {
    forall i, j :: 0 <= i < j < |fields| ==> before(fields[i].key, fields[j].key)
  }

  predicate Ordered(value: Json, before: (string, string) -> bool)
    decreases value
  {
    match value
    case Arr(items) => forall k :: 0 <= k < |items| ==> Ordered(items[k], before)
    case Obj(fields) =>
      AscendingKeys(fields, before) && forall k :: 0 <= k < |fields| ==> OrderedField(fields[k], before)
    case _ => true
  }

  predicate OrderedField(field: Keyed<Json>, before: (string, string) -> bool)
    decreases field
  {
    Ordered(field.value, before)
  }

  predicate HasKey<T>(fields: seq<Keyed<T>>, key: string) {
    exists k :: 0 <= k < |fields| && fields[k].key == key
  }

  lemma {:induction false} MeaningKeys(fields: seq<Keyed<Json>>, key: string)
    ensures key in MeaningFields(fields) <==> HasKey(fields, key)
  {
    if fields != [] {
      MeaningKeys(fields[1..], key);
      HasKeySplit(fields, key);
    }
  }

  lemma HasKeySplit<T>(fields: seq<Keyed<T>>, key: string)
    requires fields != []
    ensures HasKey(fields, key) <==> fields[0].key == key || HasKey(fields[1..], key)
  {
    if k :| 1 <= k < |fields| && fields[k].key == key { assert fields[1..][k - 1].key == key; }
    if k :| 0 <= k < |fields[1..]| && fields[1..][k].key == key { assert fields[k + 1].key == key; }
  }

  // ----- Sorting ----------------------------------------------------------------------------------------

  lemma {:induction false} InsertMembers(entry: Keyed<Json>, sorted: seq<Keyed<Json>>, before: (string, string) -> bool)
    ensures forall e :: e in Insert(entry, sorted, before) <==> e == entry || e in sorted
  {
    if sorted != [] && before(sorted[0].key, entry.key) {
      InsertMembers(entry, sorted[1..], before);
      assert sorted == [sorted[0]] + sorted[1..];
    }
  }

  lemma {:induction false} SortMembers(entries: seq<Keyed<Json>>, before: (string, string) -> bool)
    ensures forall e :: e in Sort(entries, before) <==> e in entries
  {
    if entries != [] {
      SortMembers(entries[1..], before);
      InsertMembers(entries[0], Sort(entries[1..], before), before);
      assert entries == [entries[0]] + entries[1..];
    }
  }

  lemma {:induction false} InsertAscending(entry: Keyed<Json>, sorted: seq<Keyed<Json>>,
                                           before: (string, string) -> bool)
    requires StrictTotalOrder(before) && AscendingKeys(sorted, before)
    requires forall e :: e in sorted ==> e.key != entry.key
    ensures AscendingKeys(Insert(entry, sorted, before), before)
  {
    if sorted != [] && before(sorted[0].key, entry.key) {
      var rest := Insert(entry, sorted[1..], before);
      InsertAscending(entry, sorted[1..], before);
      InsertMembers(entry, sorted[1..], before);
      forall j | 0 <= j < |rest| ensures before(sorted[0].key, rest[j].key) {
        assert rest[j] in rest;
        if rest[j] != entry {
          var m :| 0 <= m < |sorted[1..]| && sorted[1..][m] == rest[j];
          assert sorted[m + 1] == rest[j];
        }
      }
    } else {
      forall j | 0 <= j < |sorted| ensures before(entry.key, sorted[j].key) {
        assert sorted[0] in sorted;
      }
    }
  }

  lemma {:induction false} SortAscending(entries: seq<Keyed<Json>>, before: (string, string) -> bool)
    requires StrictTotalOrder(before) && DistinctKeys(entries)
    ensures AscendingKeys(Sort(entries, before), before)
  {
    if entries != [] {
      SortAscending(entries[1..], before);
      SortMembers(entries[1..], before);
      forall e | e in Sort(entries[1..], before) ensures e.key != entries[0].key {
        var m :| 0 <= m < |entries[1..]| && entries[1..][m] == e;
        assert entries[m + 1] == e;
      }
      InsertAscending(entries[0], Sort(entries[1..], before), before);
    }
  }

  lemma {:induction false} InsertMeaning(entry: Keyed<Json>, sorted: seq<Keyed<Json>>, before: (string, string) -> bool)
    requires forall e :: e in sorted ==> e.key != entry.key
    ensures MeaningFields(Insert(entry, sorted, before)) == MeaningFields(sorted)[entry.key := Meaning(entry.value)]
  {
    hide Meaning;
    if sorted != [] && before(sorted[0].key, entry.key) {
      InsertMeaning(entry, sorted[1..], before);
      var rest := Insert(entry, sorted[1..], before);
      assert ([sorted[0]] + rest)[1..] == rest;
      assert sorted[0] in sorted;
    } else {
      assert ([entry] + sorted)[1..] == sorted;
    }
  }

  lemma {:induction false} SortMeaning(fields: seq<Keyed<Json>>, before: (string, string) -> bool)
    requires DistinctKeys(fields)
    ensures MeaningFields(Sort(fields, before)) == MeaningFields(fields)
  {
    if fields != [] {
      SortMeaning(fields[1..], before);
      SortMembers(fields[1..], before);
      InsertMeaning(fields[0], Sort(fields[1..], before), before);
    }
  }

  /** Sorting the keys of a tree does not change what it means, and leaves every object in order. */
  lemma {:induction false} SortKeysMeaning(value: Json, before: (string, string) -> bool)
    requires StrictTotalOrder(before) && WellFormed(value)
    ensures Meaning(SortKeys(value, before)) == Meaning(value)
    ensures Ordered(SortKeys(value, before), before)
    decreases value
  {
    match value {
      case Arr(items) => SortItemsMeaning(items, before);
      case Obj(fields) =>
        SortFieldsMeaning(fields, before);
        var sorted := SortFields(fields, before);
        SortMeaning(sorted, before);
        SortAscending(sorted, before);
        SortMembers(sorted, before);
        var ordered := Sort(sorted, before);
        forall k | 0 <= k < |ordered| ensures OrderedField(ordered[k], before) { assert ordered[k] in sorted; }
      case _ =>
    }
  }

  lemma {:induction false} SortItemsMeaning(items: seq<Json>, before: (string, string) -> bool)
    requires StrictTotalOrder(before) && forall k :: 0 <= k < |items| ==> WellFormed(items[k])
    ensures MeaningItems(SortItems(items, before)) == MeaningItems(items)
    ensures forall k :: 0 <= k < |items| ==> Ordered(SortItems(items, before)[k], before)
    decreases items
  {
    if items != [] {
      SortKeysMeaning(items[0], before);
      SortItemsMeaning(items[1..], before);
      assert SortItems(items, before)[1..] == SortItems(items[1..], before);
    }
  }

  lemma {:induction false} SortFieldsMeaning(fields: seq<Keyed<Json>>, before: (string, string) -> bool)
    requires StrictTotalOrder(before) && forall k :: 0 <= k < |fields| ==> WellFormedField(fields[k])
    ensures MeaningFields(SortFields(fields, before)) == MeaningFields(fields)
    ensures forall k :: 0 <= k < |fields| ==>
              SortFields(fields, before)[k].key == fields[k].key && OrderedField(SortFields(fields, before)[k], before)
    decreases fields
  {
    if fields != [] {
      assert WellFormedField(fields[0]);
      SortKeysMeaning(fields[0].value, before);
      SortFieldsMeaning(fields[1..], before);
      assert SortFields(fields, before)[1..] == SortFields(fields[1..], before);
    }
  }

  // ----- Ordered trees are determined by their meaning -------------------------------------------------

  lemma {:induction false} OrderedUnique(a: Json, b: Json, before: (string, string) -> bool)
    requires StrictTotalOrder(before) && Ordered(a, before) && Ordered(b, before) && Meaning(a) == Meaning(b)
    ensures a == b
    decreases a
  {
    match (a, b)
    case (Arr(x), Arr(y)) => ItemsUnique(x, y, before);
    case (Obj(x), Obj(y)) => FieldsUnique(x, y, before);
    case _ =>
  }

  lemma {:induction false} ItemsUnique(a: seq<Json>, b: seq<Json>, before: (string, string) -> bool)
    requires StrictTotalOrder(before) && MeaningItems(a) == MeaningItems(b)
    requires forall k :: 0 <= k < |a| ==> Ordered(a[k], before)
    requires forall k :: 0 <= k < |b| ==> Ordered(b[k], before)
    ensures a == b
    decreases a
  {
    assert |MeaningItems(a)| == |MeaningItems(b)|;
    if a != [] {
      var p, q := MeaningItems(a), MeaningItems(b);
      assert p[0] == Meaning(a[0]) && q[0] == Meaning(b[0]);
      assert p[1..] == MeaningItems(a[1..]) && q[1..] == MeaningItems(b[1..]);
      OrderedUnique(a[0], b[0], before);
      ItemsUnique(a[1..], b[1..], before);
      assert a == [a[0]] + a[1..] && b == [b[0]] + b[1..];
    }
  }

  /** The first key of an ordered object is the least key of its meaning. */
  lemma FirstKeyIsLeast(fields: seq<Keyed<Json>>, key: string, before: (string, string) -> bool)
    requires StrictTotalOrder(before) && AscendingKeys(fields, before) && fields != [] && key in MeaningFields(fields)
    ensures key == fields[0].key || before(fields[0].key, key)
  {
    MeaningKeys(fields, key);
  }

  lemma RestMeaning(fields: seq<Keyed<Json>>, before: (string, string) -> bool)
    requires StrictTotalOrder(before) && AscendingKeys(fields, before) && fields != []
    ensures fields[0].key in MeaningFields(fields) && MeaningFields(fields)[fields[0].key] == Meaning(fields[0].value)
    ensures MeaningFields(fields[1..]) == MeaningFields(fields) - {fields[0].key}
  {
    hide Meaning;
    MeaningKeys(fields[1..], fields[0].key);
    assert !HasKey(fields[1..], fields[0].key) by {
      forall k | 0 <= k < |fields[1..]| ensures fields[1..][k].key != fields[0].key {
        assert before(fields[0].key, fields[k + 1].key);
      }
    }
  }

  lemma EmptyMeaning(fields: seq<Keyed<Json>>)
    ensures MeaningFields(fields) == map[] <==> fields == []
  {
    if fields != [] { assert fields[0].key in MeaningFields(fields); }
  }

  lemma {:induction false} FieldsUnique(a: seq<Keyed<Json>>, b: seq<Keyed<Json>>, before: (string, string) -> bool)
    requires StrictTotalOrder(before) && MeaningFields(a) == MeaningFields(b)
    requires AscendingKeys(a, before) && AscendingKeys(b, before)
    requires forall k :: 0 <= k < |a| ==> OrderedField(a[k], before)
    requires forall k :: 0 <= k < |b| ==> OrderedField(b[k], before)
    ensures a == b
    decreases a
  {
    EmptyMeaning(a);
    EmptyMeaning(b);
    if a != [] && b != [] {
      RestMeaning(a, before);
      RestMeaning(b, before);
      FirstKeyIsLeast(a, b[0].key, before);
      FirstKeyIsLeast(b, a[0].key, before);
      assert OrderedField(a[0], before) && OrderedField(b[0], before);
      OrderedUnique(a[0].value, b[0].value, before);
      FieldsUnique(a[1..], b[1..], before);
      assert a == [a[0]] + a[1..] && b == [b[0]] + b[1..];
    }
  }

  /** Canonical text decides meaning: two values print alike exactly when they are the same up to key order. */
  lemma CanonicalDecidesMeaning(a: Json, b: Json, before: (string, string) -> bool)
    requires StrictTotalOrder(before) && WellFormed(a) && WellFormed(b)
    ensures Canonical(a, before) == Canonical(b, before) <==> Meaning(a) == Meaning(b)
  {
    hide Canonical, Parse, Meaning, SortKeys, WellFormed, Ordered;
    SortKeysMeaning(a, before);
    SortKeysMeaning(b, before);
    ParseUndoesCanonical(a, before);
    ParseUndoesCanonical(b, before);
    CanonicalPrintsSorted(a, before);
    CanonicalPrintsSorted(b, before);
    if Meaning(a) == Meaning(b) { OrderedUnique(SortKeys(a, before), SortKeys(b, before), before); }
  }

  // ----- Reading an object ------------------------------------------------------------------------------

  function Get(fields: seq<Keyed<Json>>, key: string): Option<Json> {
    if fields == [] then None
    else if fields[0].key == key then Some(fields[0].value)
    else Get(fields[1..], key)
  }

  predicate HasExactKeys(fields: seq<Keyed<Json>>, keys: seq<string>) {
    |fields| == |keys| && forall k :: 0 <= k < |keys| ==> Get(fields, keys[k]).Some?
  }

  lemma {:induction false} GetAt(fields: seq<Keyed<Json>>, k: nat)
    requires DistinctKeys(fields) && k < |fields|
    ensures Get(fields, fields[k].key) == Some(fields[k].value)
  {
    if k > 0 { GetAt(fields[1..], k - 1); }
  }
}
