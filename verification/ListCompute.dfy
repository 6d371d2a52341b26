/** Resolving a list item's values to columns: an index that agrees with a plain scan, and coercion to column types. */
module ListCompute {
  import opened Text
  import opened CanonicalJson
  import opened JsonMeaning

  datatype ColumnType = TextType | NumberType | BooleanType | DateTimeType | ChoiceType | UnknownType

  datatype Column = Column(
    columnId: string, name: string, displayName: Option<string>, columnType: ColumnType,
    required: bool, hidden: bool, readOnly: bool, choices: seq<string>)

  /**
   * Lower-casing, `Number` on a non-blank string when the result is a finite integer, and whether `Date.parse`
   * succeeds.
   */
  datatype Host = Host(lower: string -> string, toNumber: string -> Option<int>, isDate: string -> bool)

  // ----- Names ----------------------------------------------------------------------------------------------

  /** Every run of white space becomes one blank. */
  function Collapse(s: string): string {
    if s == "" then ""
    else if !IsSpace(s[0]) then [s[0]] + Collapse(s[1..])
    else if |s| > 1 && IsSpace(s[1]) then Collapse(s[1..])
    else " " + Collapse(s[1..])
  }

  function NormalizedKey(name: string, host: Host): string {
    Collapse(host.lower(Trim(name)))
  }

  /** A run of white space anywhere in a name counts as one blank, however long and of whatever characters. */
  lemma {:induction false} RunsCollapse(a: string, run1: string, run2: string, b: string)
    requires AllSpace(run1) && AllSpace(run2) && run1 != "" && run2 != ""
    ensures Collapse(a + run1 + b) == Collapse(a + run2 + b)
  {
    if a == "" {
      assert a + run1 + b == run1 + b && a + run2 + b == run2 + b;
      RunIsOneBlank(run1, b);
      RunIsOneBlank(run2, b);
    } else {
      assert (a + run1 + b)[1..] == a[1..] + run1 + b && (a + run2 + b)[1..] == a[1..] + run2 + b;
      RunsCollapse(a[1..], run1, run2, b);
      if |a| > 1 {
        assert (a + run1 + b)[1] == a[1] && (a + run2 + b)[1] == a[1];
      } else {
        assert (a + run1 + b)[1] == run1[0] && (a + run2 + b)[1] == run2[0];
      }
    }
  }

  lemma {:induction false} RunIsOneBlank(run: string, b: string)
    requires AllSpace(run) && run != ""
    ensures Collapse(run + b) == if b != "" && IsSpace(b[0]) then Collapse(b) else " " + Collapse(b)
  {
    hide IsSpace;
    var s := run + b;
    assert s[1..] == run[1..] + b;
    if |run| > 1 {
      assert s[1] == run[1];
      RunIsOneBlank(run[1..], b);
    } else {
      assert s[1..] == b;
    }
  }

  // ----- Column summaries -----------------------------------------------------------------------------------

  /** A non-empty string. */
  function StrOf(value: Option<Json>): Option<string> {
    if value.Some? && value.value.Str? && value.value.text != "" then Some(value.value.text) else None
  }

  predicate IsObject(value: Option<Json>) {
    value.Some? && value.value.Obj?
  }

  function ColumnTypeOf(fields: seq<Keyed<Json>>): ColumnType {
    if IsObject(Get(fields, "choice")) then ChoiceType
    else if IsObject(Get(fields, "number")) then NumberType
    else if IsObject(Get(fields, "boolean")) then BooleanType
    else if IsObject(Get(fields, "dateTime")) then DateTimeType
    else if IsObject(Get(fields, "text")) then TextType
    else UnknownType
  }

  function Strings(items: seq<Json>): seq<string> {
    if items == [] then []
    else (if items[0].Str? then [items[0].text] else []) + Strings(items[1..])
  }

  function ChoicesOf(fields: seq<Keyed<Json>>): seq<string> {
    var choice := Get(fields, "choice");
    if !IsObject(choice) then []
    else
      var choices := Get(choice.value.fields, "choices");
      if choices.Some? && choices.value.Arr? then Strings(choices.value.items) else []
  }

  function Flag(fields: seq<Keyed<Json>>, key: string): bool {
    Get(fields, key) == Some(Bool(true))
  }

  function SummaryOf(value: Json): (column: Option<Column>)
    ensures column.Some? ==> column.value.name != "" && column.value.columnId != ""
    ensures column.Some? && column.value.displayName.Some? ==> column.value.displayName.value != ""
  {
    if !value.Obj? then None
    else
      var id, name := StrOf(Get(value.fields, "id")), StrOf(Get(value.fields, "name"));
      if id.None? || name.None? then None
      else
        Some(Column(id.value, name.value, StrOf(Get(value.fields, "displayName")), ColumnTypeOf(value.fields),
                    Flag(value.fields, "required"), Flag(value.fields, "hidden"), Flag(value.fields, "readOnly"),
                    ChoicesOf(value.fields)))
  }

  function ValuesOf(raw: Json): seq<Json> {
    if raw.Arr? then raw.items
    else if raw.Obj? && Get(raw.fields, "value").Some? && Get(raw.fields, "value").value.Arr? then
      Get(raw.fields, "value").value.items
    else []
  }

  function Summaries(values: seq<Json>): (columns: seq<Column>)
    ensures forall k :: 0 <= k < |columns| ==> columns[k].name != ""
  {
    if values == [] then []
    else
      var last := SummaryOf(values[|values| - 1]);
      Summaries(values[..|values| - 1]) + if last.Some? then [last.value] else []
  }

  predicate Ascend(positions: seq<nat>) {
    forall i, j :: 0 <= i < j < |positions| ==> positions[i] < positions[j]
  }

  predicate PickAt(values: seq<Json>, columns: seq<Column>, positions: seq<nat>) {
    && |positions| == |columns|
    && forall i :: 0 <= i < |positions| ==>
         positions[i] < |values| && SummaryOf(values[positions[i]]) == Some(columns[i])
  }

  predicate PickAll(values: seq<Json>, positions: seq<nat>) {
    forall k: nat :: k < |values| && SummaryOf(values[k]).Some? ==> k in positions
  }

  /** The columns are the summarised values at ascending positions, and no value with a summary is left out. */
  predicate PicksExactly(values: seq<Json>, columns: seq<Column>, positions: seq<nat>) {
    Ascend(positions) && PickAt(values, columns, positions) && PickAll(values, positions)
  }

  lemma PickNext(values: seq<Json>, column: Column, columns: seq<Column>, positions: seq<nat>, value: Json)
    requires PicksExactly(values, columns, positions) && SummaryOf(value) == Some(column)
    ensures PicksExactly(values + [value], columns + [column], positions + [|values|])
  {
    hide SummaryOf;
  }

  lemma PickNone(values: seq<Json>, columns: seq<Column>, positions: seq<nat>, value: Json)
    requires PicksExactly(values, columns, positions) && SummaryOf(value).None?
    ensures PicksExactly(values + [value], columns, positions)
  {
    hide SummaryOf;
  }

  lemma {:induction false} SummariesPick(values: seq<Json>) returns (positions: seq<nat>)
    ensures PicksExactly(values, Summaries(values), positions)
  {
    hide SummaryOf, PicksExactly;
    if values == [] {
      positions := [];
      NothingPicked();
    } else {
      var n: nat := |values| - 1;
      positions := SummariesPick(values[..n]);
      assert values == values[..n] + [values[n]];
      var last := SummaryOf(values[n]);
      if last.Some? {
        PickNext(values[..n], last.value, Summaries(values[..n]), positions, values[n]);
        positions := positions + [n];
      } else {
        PickNone(values[..n], Summaries(values[..n]), positions, values[n]);
        assert Summaries(values) == Summaries(values[..n]);
      }
    }
  }

  lemma NothingPicked()
    ensures PicksExactly([], [], [])
  {
  }

  /** There is only one such list of columns. */
  lemma {:induction false} PickedOnce(values: seq<Json>, columns: seq<Column>, positions: seq<nat>)
    requires PicksExactly(values, columns, positions)
    ensures columns == Summaries(values)
  {
    hide SummaryOf;
    if values != [] {
      var n: nat := |values| - 1;
      assert forall k :: 0 <= k < n ==> values[..n][k] == values[k];
      if SummaryOf(values[n]).Some? {
        var m: nat := |positions| - 1;
        assert n in positions;
        assert positions[m] == n;
        assert forall i :: 0 <= i < m ==> positions[i] < positions[m];
        forall k | 0 <= k < n && SummaryOf(values[k]).Some? ensures k in positions[..m] { assert k in positions; }
        PickedOnce(values[..n], columns[..m], positions[..m]);
        assert columns == columns[..m] + [columns[m]];
      } else {
        PickedOnce(values[..n], columns, positions);
      }
    }
  }

  method SummarizeColumns(raw: Json) returns (columns: seq<Column>)
    ensures columns == Summaries(ValuesOf(raw))
    ensures exists positions :: PicksExactly(ValuesOf(raw), columns, positions)
  {
    hide SummaryOf, ValuesOf;
    var values := ValuesOf(raw);
    columns := [];
    for i := 0 to |values|
      invariant columns == Summaries(values[..i])
    {
      assert values[..i + 1][..i] == values[..i];
      var column := SummaryOf(values[i]);
      if column.Some? { columns := columns + [column.value]; }
    }
    assert values[..|values|] == values;
    ghost var positions := SummariesPick(values);
  }

  // ----- The index and the scan ---------------------------------------------------------------------------------

  /** The names a column is found under: its internal name, then its display name. */
  function KeysOf(column: Column, host: Host): seq<string> {
    [NormalizedKey(column.name, host)]
    + if column.displayName.Some? then [NormalizedKey(column.displayName.value, host)] else []
  }

  /** A column, once for each of the first `n` of its names that is the key. */
  function Hits(column: Column, key: string, n: nat, host: Host): seq<Column>
    requires n <= |KeysOf(column, host)|
  {
    if n == 0 then []
    else Hits(column, key, n - 1, host) + if KeysOf(column, host)[n - 1] == key then [column] else []
  }

  /** The plain scan: every column under the key, in order, twice when both its names are the key. */
  function Scan(columns: seq<Column>, key: string, host: Host): seq<Column> {
    if columns == [] then []
    else
      var last := columns[|columns| - 1];
      Scan(columns[..|columns| - 1], key, host) + Hits(last, key, |KeysOf(last, host)|, host)
  }

  predicate Named(column: Column, key: string, host: Host) {
    NormalizedKey(column.name, host) == key
    || (column.displayName.Some? && NormalizedKey(column.displayName.value, host) == key)
  }

  lemma HitsExact(column: Column, key: string, host: Host)
    ensures forall c ::
      c in Hits(column, key, |KeysOf(column, host)|, host) <==> c == column && Named(column, key, host)
  {
    hide NormalizedKey;
    assert Hits(column, key, 0, host) == [];
    assert Hits(column, key, 1, host) == if KeysOf(column, host)[0] == key then [column] else [];
  }

  /** The scan finds exactly the columns whose normalised name or display name is the key. */
  lemma {:induction false} ScanExact(columns: seq<Column>, key: string, host: Host)
    ensures forall c :: c in Scan(columns, key, host) <==> c in columns && Named(c, key, host)
  {
    hide Named, Hits;
    if columns != [] {
      var init, last := columns[..|columns| - 1], columns[|columns| - 1];
      ScanExact(init, key, host);
      HitsExact(last, key, host);
      assert columns == init + [last];
    }
  }

  function LookUp(index: map<string, seq<Column>>, key: string): seq<Column> {
    if key in index then index[key] else []
  }

  lemma LookUpPut(index: map<string, seq<Column>>, put: string, column: Column, key: string)
    ensures LookUp(index[put := LookUp(index, put) + [column]], key)
         == LookUp(index, key) + if key == put then [column] else []
  {
  }

  /** Every key has gained the column once for each of its first `n` names that is the key. */
  ghost predicate Grown(grown: map<string, seq<Column>>, index: map<string, seq<Column>>, column: Column, n: nat,
                        host: Host)
    requires n <= |KeysOf(column, host)|
  {
    forall key :: LookUp(grown, key) == LookUp(index, key) + Hits(column, key, n, host)
  }

  lemma GrownStep(grown: map<string, seq<Column>>, index: map<string, seq<Column>>, column: Column, n: nat, host: Host)
    requires n < |KeysOf(column, host)| && Grown(grown, index, column, n, host)
    ensures var put := KeysOf(column, host)[n];
            Grown(grown[put := LookUp(grown, put) + [column]], index, column, n + 1, host)
  {
    hide KeysOf, LookUp;
    var put := KeysOf(column, host)[n];
    var more := grown[put := LookUp(grown, put) + [column]];
    forall key ensures LookUp(more, key) == LookUp(index, key) + Hits(column, key, n + 1, host) {
      LookUpPut(grown, put, column, key);
      assert LookUp(grown, key) == LookUp(index, key) + Hits(column, key, n, host);
    }
  }

  method AddColumn(index: map<string, seq<Column>>, column: Column, host: Host)
    returns (grown: map<string, seq<Column>>)
    ensures Grown(grown, index, column, |KeysOf(column, host)|, host)
  {
    hide KeysOf, LookUp, Grown;
    var keys := KeysOf(column, host);
    grown := index;
    NotGrown(index, column, host);
    for n := 0 to |keys|
      invariant Grown(grown, index, column, n, host)
    {
      GrownStep(grown, index, column, n, host);
      grown := grown[keys[n] := LookUp(grown, keys[n]) + [column]];
    }
  }

  lemma NotGrown(index: map<string, seq<Column>>, column: Column, host: Host)
    ensures Grown(index, index, column, 0, host)
  {
    hide LookUp, KeysOf;
  }

  /** Looking a key up in the index gives what the plain scan gives, for every key. */
  method BuildIndex(columns: seq<Column>, host: Host) returns (index: map<string, seq<Column>>)
    ensures forall key :: LookUp(index, key) == Scan(columns, key, host)
  {
    hide KeysOf, Hits, LookUp;
    index := map[];
    NothingIndexed();
    for i := 0 to |columns|
      invariant forall key :: LookUp(index, key) == Scan(columns[..i], key, host)
    {
      assert columns[..i + 1][..i] == columns[..i];
      index := AddColumn(index, columns[i], host);
    }
    assert columns[..|columns|] == columns;
  }

  lemma NothingIndexed()
    ensures forall key :: LookUp(map[], key) == []
  {
  }

  // ----- Coercion -----------------------------------------------------------------------------------------------

  function TextOf(value: Json): string {
    match value
    case Str(text) => text
    case Num(number) => PrintInt(number)
    case Bool(flag) => if flag then "true" else "false"
    case _ => ""
  }

  predicate IsTrueWord(s: string) {
    s == "true" || s == "yes" || s == "1"
  }

  predicate IsFalseWord(s: string) {
    s == "false" || s == "no" || s == "0"
  }

  /** The value as the column's type takes it; `None` is the thrown refusal. */
  function Coerce(column: Column, value: Json, host: Host): Option<Json> {
    match column.columnType
    case TextType => if value.Str? || value.Num? || value.Bool? then Some(Str(TextOf(value))) else None
    case NumberType =>
      if value.Num? then Some(value)
      else if value.Str? && Trim(value.text) != "" && host.toNumber(value.text).Some? then
        Some(Num(host.toNumber(value.text).value))
      else None
    case BooleanType =>
      if value.Bool? then Some(value)
      else if value.Str? && IsTrueWord(host.lower(Trim(value.text))) then Some(Bool(true))
      else if value.Str? && IsFalseWord(host.lower(Trim(value.text))) then Some(Bool(false))
      else None
    case DateTimeType => if value.Str? && host.isDate(value.text) then Some(value) else None
    case ChoiceType =>
      if !value.Str? then None
      else if column.choices != [] && value.text !in column.choices then None
      else Some(value)
    case UnknownType => None
  }

  /** A coerced value is of the column's type, and coercing it again changes nothing. */
  lemma CoercionIsIdempotent(column: Column, value: Json, host: Host)
    requires Coerce(column, value, host).Some?
    ensures var coerced := Coerce(column, value, host).value;
            && Coerce(column, coerced, host) == Some(coerced)
            && (match column.columnType
                case NumberType => coerced.Num?
                case BooleanType => coerced.Bool?
                case _ => coerced.Str?)
            && (column.columnType == ChoiceType && column.choices != [] ==> coerced.text in column.choices)
  {
  }

  // ----- Resolution ---------------------------------------------------------------------------------------------

  datatype Refusal =
    | UnknownColumn | AmbiguousColumn | MissingInternalName | HiddenColumn | ReadOnlyColumn | Uncoercible

  datatype Resolution =
    | Resolved(fields: map<string, Json>, resolvedFields: map<string, string>)
    | Refused(inputName: string, refusal: Refusal)

  function Names(columns: seq<Column>): set<string> {
    set k | 0 <= k < |columns| :: columns[k].name
  }

  /** The columns an input name is found under. */
  function Matches(columns: seq<Column>, inputName: string, host: Host): seq<Column> {
    Scan(columns, NormalizedKey(inputName, host), host)
  }

  /** Matches that all bear one internal name; the last of them is the column taken. */
  predicate HasOneName(columns: seq<Column>, inputName: string, host: Host) {
    var matches := Matches(columns, inputName, host);
    matches != [] && forall k :: 0 <= k < |matches| ==> matches[k].name == matches[0].name
  }

  function ColumnFor(columns: seq<Column>, inputName: string, host: Host): Column
    requires HasOneName(columns, inputName, host)
  {
    var matches := Matches(columns, inputName, host);
    matches[|matches| - 1]
  }

  predicate Resolvable(columns: seq<Column>, entry: Keyed<Json>, host: Host) {
    && HasOneName(columns, entry.key, host)
    && !ColumnFor(columns, entry.key, host).hidden
    && !ColumnFor(columns, entry.key, host).readOnly
    && Coerce(ColumnFor(columns, entry.key, host), entry.value, host).Some?
  }

  lemma OneNameOrMore(matches: seq<Column>)
    ensures |Names(matches)| == 0 <==> matches == []
    ensures |Names(matches)| == 1
            <==> matches != [] && forall k :: 0 <= k < |matches| ==> matches[k].name == matches[0].name
  {
    var names := Names(matches);
    if matches != [] {
      assert matches[0].name in names;
      if forall k :: 0 <= k < |matches| ==> matches[k].name == matches[0].name {
        assert names == {matches[0].name};
      } else {
        var k :| 0 <= k < |matches| && matches[k].name != matches[0].name;
        assert {matches[0].name, matches[k].name} <= names;
        SubsetSize({matches[0].name, matches[k].name}, names);
      }
    }
  }

  lemma {:induction false} SubsetSize(a: set<string>, b: set<string>)
    requires a <= b
    ensures |a| <= |b|
  {
    assert b == a + (b - a);
  }

  /** One input resolved to its field, or the reason it is refused. */
  datatype FieldResolution = Field(name: string, value: Json) | NoField(refusal: Refusal)

  /** Why an input has no field: the reasons exclude each other, and one holds exactly when it is not resolvable. */
  predicate Explains(columns: seq<Column>, entry: Keyed<Json>, refusal: Refusal, host: Host) {
    match refusal
    case UnknownColumn => Matches(columns, entry.key, host) == []
    case AmbiguousColumn => Matches(columns, entry.key, host) != [] && !HasOneName(columns, entry.key, host)
    case MissingInternalName => false
    case HiddenColumn => HasOneName(columns, entry.key, host) && ColumnFor(columns, entry.key, host).hidden
    case ReadOnlyColumn =>
      && HasOneName(columns, entry.key, host) && !ColumnFor(columns, entry.key, host).hidden
      && ColumnFor(columns, entry.key, host).readOnly
    case Uncoercible =>
      && HasOneName(columns, entry.key, host) && !ColumnFor(columns, entry.key, host).hidden
      && !ColumnFor(columns, entry.key, host).readOnly
      && Coerce(ColumnFor(columns, entry.key, host), entry.value, host).None?
  }

  method ResolveOne(index: map<string, seq<Column>>, entry: Keyed<Json>, host: Host, ghost columns: seq<Column>)
    returns (r: FieldResolution)
    requires forall key :: LookUp(index, key) == Scan(columns, key, host)
    requires forall k :: 0 <= k < |columns| ==> columns[k].name != ""
    ensures r.Field? <==> Resolvable(columns, entry, host)
    ensures r.Field? ==> r.name == ColumnFor(columns, entry.key, host).name
    ensures r.Field? ==> Some(r.value) == Coerce(ColumnFor(columns, entry.key, host), entry.value, host)
    ensures r != NoField(MissingInternalName)
    ensures r.NoField? ==> Explains(columns, entry, r.refusal, host)
    ensures r == NoField(UnknownColumn) ==>
              forall k :: 0 <= k < |columns| ==> !Named(columns[k], NormalizedKey(entry.key, host), host)
    ensures r == NoField(AmbiguousColumn) ==>
              exists i, j :: 0 <= i < |columns| && 0 <= j < |columns| && columns[i].name != columns[j].name
                && Named(columns[i], NormalizedKey(entry.key, host), host)
                && Named(columns[j], NormalizedKey(entry.key, host), host)
  {
    hide NormalizedKey, Coerce, Scan, LookUp, Named;
    var key := NormalizedKey(entry.key, host);
    var matches := LookUp(index, key);
    ScanExact(columns, key, host);
    OneNameOrMore(matches);
    var unique := Names(matches);
    if |unique| == 0 {
      forall k | 0 <= k < |columns| ensures !Named(columns[k], key, host) { assert columns[k] in columns; }
      return NoField(UnknownColumn);
    }
    if |unique| > 1 {
      TwoNames(columns, matches, key, host);
      return NoField(AmbiguousColumn);
    }
    var column := matches[|matches| - 1];
    assert column in matches;
    if column.name == "" { return NoField(MissingInternalName); }
    if column.hidden { return NoField(HiddenColumn); }
    if column.readOnly { return NoField(ReadOnlyColumn); }
    var value := Coerce(column, entry.value, host);
    if value.None? { return NoField(Uncoercible); }
    return Field(column.name, value.value);
  }

  lemma TwoNames(columns: seq<Column>, matches: seq<Column>, key: string, host: Host)
    requires |Names(matches)| > 1 && forall c :: c in matches ==> c in columns && Named(c, key, host)
    ensures exists i, j :: 0 <= i < |columns| && 0 <= j < |columns| && columns[i].name != columns[j].name
              && Named(columns[i], key, host) && Named(columns[j], key, host)
  {
    hide Named;
    OneNameOrMore(matches);
    assert |Names(matches)| != 0 && |Names(matches)| != 1;
    var m :| 0 <= m < |matches| && matches[m].name != matches[0].name;
    assert matches[0] in matches && matches[m] in matches;
    var i :| 0 <= i < |columns| && columns[i] == matches[0];
    var j :| 0 <= j < |columns| && columns[j] == matches[m];
  }

  /** The field an input writes and the value it writes there. */
  function NameFor(columns: seq<Column>, entry: Keyed<Json>, host: Host): string
    requires Resolvable(columns, entry, host)
  {
    ColumnFor(columns, entry.key, host).name
  }

  function ValueFor(columns: seq<Column>, entry: Keyed<Json>, host: Host): Json
    requires Resolvable(columns, entry, host)
  {
    Coerce(ColumnFor(columns, entry.key, host), entry.value, host).value
  }

  ghost predicate AllResolvable(columns: seq<Column>, entries: seq<Keyed<Json>>, n: nat, host: Host) {
    n <= |entries| && forall i :: 0 <= i < n ==> Resolvable(columns, entries[i], host)
  }

  /** The fields after the first `n` entries have been written one after the other. */
  ghost function FieldsAfter(columns: seq<Column>, entries: seq<Keyed<Json>>, n: nat, host: Host): map<string, Json>
    requires AllResolvable(columns, entries, n, host)
  {
    if n == 0 then map[]
    else
      FieldsAfter(columns, entries, n - 1, host)
        [NameFor(columns, entries[n - 1], host) := ValueFor(columns, entries[n - 1], host)]
  }

  ghost function ResolvedAfter(columns: seq<Column>, entries: seq<Keyed<Json>>, n: nat, host: Host): map<string, string>
    requires AllResolvable(columns, entries, n, host)
  {
    if n == 0 then map[]
    else ResolvedAfter(columns, entries, n - 1, host)[entries[n - 1].key := NameFor(columns, entries[n - 1], host)]
  }

  /** Entry `k` is the last of the first `n` to write `field`. */
  ghost predicate LastWriter(columns: seq<Column>, entries: seq<Keyed<Json>>, n: nat, k: int, field: string, host: Host)
    requires AllResolvable(columns, entries, n, host)
  {
    0 <= k < n && NameFor(columns, entries[k], host) == field
    && forall m :: k < m < n ==> NameFor(columns, entries[m], host) != field
  }

  /** A field is written exactly when some entry writes it, and it holds its last writer's value. */
  lemma {:induction false} LastWriterWins(columns: seq<Column>, entries: seq<Keyed<Json>>, n: nat, field: string,
                                          host: Host)
    requires AllResolvable(columns, entries, n, host)
    ensures field in FieldsAfter(columns, entries, n, host)
            <==> exists k :: LastWriter(columns, entries, n, k, field, host)
    ensures forall k :: LastWriter(columns, entries, n, k, field, host) ==>
              FieldsAfter(columns, entries, n, host)[field] == ValueFor(columns, entries[k], host)
  {
    hide Resolvable, NameFor, ValueFor;
    if n > 0 {
      var m: nat := n - 1;
      LastWriterWins(columns, entries, m, field, host);
      if NameFor(columns, entries[n - 1], host) == field {
        assert LastWriter(columns, entries, n, n - 1, field, host);
      } else {
        assert forall k :: LastWriter(columns, entries, n, k, field, host)
                           ==> LastWriter(columns, entries, m, k, field, host);
        if k :| LastWriter(columns, entries, m, k, field, host) {
          assert LastWriter(columns, entries, n, k, field, host);
        }
      }
    }
  }

  /** The inputs resolved are exactly the entries' names, each with the field its entry writes. */
  lemma {:induction false} ResolvedExactly(columns: seq<Column>, entries: seq<Keyed<Json>>, n: nat, host: Host)
    requires AllResolvable(columns, entries, n, host) && DistinctKeys(entries)
    ensures forall name ::
      name in ResolvedAfter(columns, entries, n, host) <==> exists k :: 0 <= k < n && entries[k].key == name
    ensures forall k :: 0 <= k < n ==>
              ResolvedAfter(columns, entries, n, host)[entries[k].key] == NameFor(columns, entries[k], host)
  {
    hide Resolvable, NameFor;
    if n > 0 { ResolvedExactly(columns, entries, n - 1, host); }
  }

  /** The written fields are exactly the image of the resolved names. */
  lemma {:induction false} FieldsAreTheImage(columns: seq<Column>, entries: seq<Keyed<Json>>, n: nat, host: Host)
    requires AllResolvable(columns, entries, n, host) && DistinctKeys(entries)
    ensures FieldsAfter(columns, entries, n, host).Keys == ResolvedAfter(columns, entries, n, host).Values
  {
    hide Resolvable, NameFor, ValueFor;
    if n > 0 {
      FieldsAreTheImage(columns, entries, n - 1, host);
      ResolvedExactly(columns, entries, n - 1, host);
      var before := ResolvedAfter(columns, entries, n - 1, host);
      ImageGrows(before, entries[n - 1].key, NameFor(columns, entries[n - 1], host));
    }
  }

  lemma ImageGrows(m: map<string, string>, key: string, value: string)
    requires key !in m
    ensures m[key := value].Values == m.Values + {value}
  {
    var more := m[key := value];
    assert forall k :: k in m ==> more[k] == m[k];
    assert more[key] == value && key in more;
    forall v | v in m.Values ensures v in more.Values {
      var k :| k in m && m[k] == v;
      assert k in more && more[k] == v;
    }
  }

  /** The refusal names the first input that cannot be resolved, and why. */
  ghost predicate RefusedAt(columns: seq<Column>, entries: seq<Keyed<Json>>, i: int, r: Resolution, host: Host)
    requires r.Refused?
  {
    && 0 <= i < |entries| && entries[i].key == r.inputName && AllResolvable(columns, entries, i, host)
    && Explains(columns, entries[i], r.refusal, host)
  }

  /**
   * The run succeeds exactly when every input matches one internal name, whose column is neither hidden nor read-only
   * and takes the value; it then records each input's field and writes the fields in input order.
   */
  method ResolveListItemValues(raw: Json, entries: seq<Keyed<Json>>, host: Host) returns (r: Resolution)
    ensures var columns := Summaries(ValuesOf(raw));
            && (r.Resolved? <==> AllResolvable(columns, entries, |entries|, host))
            && (r.Resolved? ==> r.fields == FieldsAfter(columns, entries, |entries|, host))
            && (r.Resolved? ==> r.resolvedFields == ResolvedAfter(columns, entries, |entries|, host))
            && (r.Refused? ==> r.refusal != MissingInternalName)
            && (r.Refused? ==> exists i :: RefusedAt(columns, entries, i, r, host))
  {
    hide Resolvable, Summaries, ValuesOf, ColumnFor, HasOneName, LookUp, Scan, NameFor, ValueFor, Explains;
    var columns := SummarizeColumns(raw);
    var index := BuildIndex(columns, host);
    var fields: map<string, Json>, resolvedFields: map<string, string> := map[], map[];
    for i := 0 to |entries|
      invariant AllResolvable(columns, entries, i, host)
      invariant fields == FieldsAfter(columns, entries, i, host)
      invariant resolvedFields == ResolvedAfter(columns, entries, i, host)
    {
      var field := ResolveOne(index, entries[i], host, columns);
      if field.NoField? {
        assert RefusedAt(columns, entries, i, Refused(entries[i].key, field.refusal), host);
        return Refused(entries[i].key, field.refusal);
      }
      FieldIsItsOwn(columns, entries[i], field, host);
      fields := fields[field.name := field.value];
      resolvedFields := resolvedFields[entries[i].key := field.name];
    }
    return Resolved(fields, resolvedFields);
  }

  lemma FieldIsItsOwn(columns: seq<Column>, entry: Keyed<Json>, field: FieldResolution, host: Host)
    requires Resolvable(columns, entry, host) && field.Field?
    requires field.name == ColumnFor(columns, entry.key, host).name
    requires Some(field.value) == Coerce(ColumnFor(columns, entry.key, host), entry.value, host)
    ensures field.name == NameFor(columns, entry, host) && field.value == ValueFor(columns, entry, host)
  {
  }

  predicate Found(column: Column, columns: seq<Column>, inputName: string, host: Host) {
    column in columns && Named(column, NormalizedKey(inputName, host), host)
  }

  /**
   * The column taken is one found under the input's name, and every column found under it bears the same
   * internal name.
   */
  lemma ResolvedUniquely(columns: seq<Column>, inputName: string, host: Host)
    ensures HasOneName(columns, inputName, host) <==>
              (exists c :: Found(c, columns, inputName, host))
              && forall c, d :: Found(c, columns, inputName, host) && Found(d, columns, inputName, host)
                                ==> c.name == d.name
    ensures HasOneName(columns, inputName, host) ==>
              Found(ColumnFor(columns, inputName, host), columns, inputName, host)
  {
    hide Named, NormalizedKey, Scan;
    var key := NormalizedKey(inputName, host);
    var matches := Matches(columns, inputName, host);
    ScanExact(columns, key, host);
    if matches != [] { assert matches[0] in matches && matches[|matches| - 1] in matches; }
    forall k | 0 <= k < |matches| ensures Found(matches[k], columns, inputName, host) {
      assert matches[k] in matches;
    }
    if HasOneName(columns, inputName, host) {
      forall c, d | Found(c, columns, inputName, host) && Found(d, columns, inputName, host) ensures c.name == d.name {
        assert c in matches && d in matches;
      }
    }
  }
}
