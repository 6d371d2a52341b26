/** What resolving does to a list's raw column items and raw input values, without the summaries in between. */
module ListLaws {
  import opened Text
  import opened CanonicalJson
  import opened JsonMeaning
  import opened ListCompute

  // ----- Names ------------------------------------------------------------------------------------

  /** Single blanks between words, and no other white space. */
  predicate IsTidy(s: string) {
    && (forall k :: 0 <= k < |s| && IsSpace(s[k]) ==> s[k] == ' ')
    && (forall k :: 0 <= k < |s| - 1 ==> !(s[k] == ' ' && s[k + 1] == ' '))
  }

  lemma {:induction false} TidyIsKept(s: string)
    requires IsTidy(s)
    ensures Collapse(s) == s
  {
    if s != "" {
      TidyIsKept(s[1..]);
      assert s == [s[0]] + s[1..];
      if |s| > 1 && s[0] == ' ' { assert !(s[0] == ' ' && s[0 + 1] == ' '); }
    }
  }

  lemma TrimKeeps(s: string)
    requires s == "" || (!IsSpace(s[0]) && !IsSpace(s[|s| - 1]))
    ensures Trim(s) == s
  {
  }

  /** A tidy name is looked up as itself, in lower case. */
  lemma TidyNameIsItself(name: string, host: Host)
    requires name != "" && !IsSpace(name[0]) && !IsSpace(name[|name| - 1]) && IsTidy(host.lower(name))
    ensures NormalizedKey(name, host) == host.lower(name)
  {
    TrimKeeps(name);
    TidyIsKept(host.lower(name));
  }

  /** White space around a name makes no difference. */
  lemma PaddingIsIgnored(before: string, name: string, after: string, host: Host)
    requires AllSpace(before) && AllSpace(after) && name != "" && !IsSpace(name[0]) && !IsSpace(name[|name| - 1])
    ensures NormalizedKey(before + name + after, host) == NormalizedKey(name, host)
  {
    hide Collapse, IsSpace, TrimStart, TrimEnd;
    assert before + name + after == before + (name + after);
    TrimStartPads(before, name + after);
    TrimEndPads(name, after);
    TrimKeepsPlain(name);
  }

  lemma TrimKeepsPlain(s: string)
    requires s != "" && !IsSpace(s[0]) && !IsSpace(s[|s| - 1])
    ensures Trim(s) == s
  {
    hide IsSpace;
  }

  // ----- Raw items ----------------------------------------------------------------------------------

  /** A list of columns is given as an array or as the `value` of an object; anything else lists nothing. */
  predicate Lists(raw: Json, values: seq<Json>) {
    match raw
    case Arr(items) => values == items
    case Obj(fields) =>
      (match Get(fields, "value")
       case Some(Arr(items)) => values == items
       case _ => values == [])
    case _ => values == []
  }

  predicate HasText(item: Json, key: string, text: string) {
    item.Obj? && Get(item.fields, key) == Some(Str(text)) && text != ""
  }

  predicate Marked(item: Json, key: string) {
    item.Obj? && Get(item.fields, key) == Some(Bool(true))
  }

  predicate HasFacet(item: Json, key: string) {
    item.Obj? && Get(item.fields, key).Some? && Get(item.fields, key).value.Obj?
  }

  /** The item's `choice.choices` is an array that holds the text. */
  predicate OffersChoice(item: Json, text: string) {
    && HasFacet(item, "choice")
    && var choices := Get(Get(item.fields, "choice").value.fields, "choices");
       choices.Some? && choices.value.Arr? && Str(text) in choices.value.items
  }

  /** An item with an internal name, found under that name or its display name. */
  ghost predicate CalledBy(item: Json, inputName: string, host: Host) {
    && (exists id :: HasText(item, "id", id))
    && (exists name :: HasText(item, "name", name))
    && exists title :: (HasText(item, "name", title) || HasText(item, "displayName", title))
         && NormalizedKey(title, host) == NormalizedKey(inputName, host)
  }

  /** What a column item writes for an input value, by its first type facet. */
  predicate Takes(item: Json, value: Json, written: Json, host: Host) {
    if HasFacet(item, "choice") then
      value.Str? && written == value && (OffersChoice(item, value.text) || !OffersSome(item))
    else if HasFacet(item, "number") then
      (value.Num? && written == value)
      || (value.Str? && Trim(value.text) != "" && host.toNumber(value.text).Some?
          && written == Num(host.toNumber(value.text).value))
    else if HasFacet(item, "boolean") then
      (value.Bool? && written == value)
      || (value.Str? && written == Bool(true) && host.lower(Trim(value.text)) in ["true", "yes", "1"])
      || (value.Str? && written == Bool(false) && host.lower(Trim(value.text)) in ["false", "no", "0"])
    else if HasFacet(item, "dateTime") then
      value.Str? && written == value && host.isDate(value.text)
    else if HasFacet(item, "text") then
      match value
      case Str(text) => written == value
      case Num(number) => written == Str(PrintInt(number))
      case Bool(flag) => written == Str(if flag then "true" else "false")
      case _ => false
    else false
  }

  predicate OffersSome(item: Json) {
    && HasFacet(item, "choice")
    && var choices := Get(Get(item.fields, "choice").value.fields, "choices");
       choices.Some? && choices.value.Arr? && exists k :: 0 <= k < |choices.value.items| && choices.value.items[k].Str?
  }

  // ----- Summaries of raw items -----------------------------------------------------------------------

  /** An item is summarised exactly when it has an id and a name, and keeps its name, display name and flags. */
  lemma SummaryIsExact(item: Json)
    ensures SummaryOf(item).Some?
       <==> (exists id :: HasText(item, "id", id)) && exists name :: HasText(item, "name", name)
    ensures SummaryOf(item).Some? ==>
              && HasText(item, "id", SummaryOf(item).value.columnId)
              && HasText(item, "name", SummaryOf(item).value.name)
              && (forall title ::
                    HasText(item, "displayName", title) <==> SummaryOf(item).value.displayName == Some(title))
              && (SummaryOf(item).value.required <==> Marked(item, "required"))
              && (SummaryOf(item).value.hidden <==> Marked(item, "hidden"))
              && (SummaryOf(item).value.readOnly <==> Marked(item, "readOnly"))
  {
    hide Get, ColumnTypeOf, ChoicesOf;
    if item.Obj? {
      StrIsText(item, "id");
      StrIsText(item, "name");
      StrIsText(item, "displayName");
    }
  }

  lemma StrIsText(item: Json, key: string)
    requires item.Obj?
    ensures forall text :: HasText(item, key, text) <==> StrOf(Get(item.fields, key)) == Some(text)
  {
    hide Get;
  }

  lemma {:induction false} StringsAreTheStrings(items: seq<Json>)
    ensures forall text :: text in Strings(items) <==> Str(text) in items
    ensures Strings(items) == [] <==> forall k :: 0 <= k < |items| ==> !items[k].Str?
  {
    if items != [] {
      var rest := items[1..];
      StringsAreTheStrings(rest);
      assert items == [items[0]] + rest;
      assert forall k :: 1 <= k < |items| ==> items[k] == rest[k - 1];
    }
  }

  lemma ChoicesAreOffered(item: Json)
    requires item.Obj?
    ensures forall text :: text in ChoicesOf(item.fields) <==> OffersChoice(item, text)
    ensures ChoicesOf(item.fields) == [] <==> !OffersSome(item)
  {
    hide Get, Strings;
    var choice := Get(item.fields, "choice");
    if IsObject(choice) {
      var choices := Get(choice.value.fields, "choices");
      if choices.Some? && choices.value.Arr? {
        StringsAreTheStrings(choices.value.items);
      }
    }
  }

  /** Coercing to a summarised column is what the raw item takes. */
  lemma CoercesAsTaken(item: Json, value: Json, host: Host, written: Json)
    requires SummaryOf(item).Some?
    ensures Coerce(SummaryOf(item).value, value, host) == Some(written) <==> Takes(item, value, written, host)
  {
    hide Get, ChoicesOf, OffersChoice, OffersSome, IsTrueWord, IsFalseWord;
    ChoicesAreOffered(item);
    WordsAgree();
  }

  lemma WordsAgree()
    ensures forall s :: IsTrueWord(s) <==> s in ["true", "yes", "1"]
    ensures forall s :: IsFalseWord(s) <==> s in ["false", "no", "0"]
    ensures forall s :: !(IsTrueWord(s) && IsFalseWord(s))
  {
    assert "true"[0] == 't' && "yes"[0] == 'y' && "1"[0] == '1' && "false"[0] == 'f' && "no"[0] == 'n' && "0"[0] == '0';
  }

  // ----- Which item an input is resolved to ---------------------------------------------------------------

  lemma ValuesAreListed(raw: Json)
    ensures forall values :: Lists(raw, values) <==> values == ValuesOf(raw)
  {
    hide Get;
  }

  /** Item `k` answers an input: it is called by it, no later item is, and every other such item has its name. */
  ghost predicate Answers(values: seq<Json>, k: int, inputName: string, host: Host) {
    && 0 <= k < |values| && CalledBy(values[k], inputName, host)
    && (forall j :: k < j < |values| ==> !CalledBy(values[j], inputName, host))
    && (forall j, name :: 0 <= j < k && CalledBy(values[j], inputName, host) && HasText(values[k], "name", name) ==>
          HasText(values[j], "name", name))
  }

  lemma CalledIsNamed(item: Json, inputName: string, host: Host)
    ensures CalledBy(item, inputName, host)
       <==> SummaryOf(item).Some? && Named(SummaryOf(item).value, NormalizedKey(inputName, host), host)
  {
    hide SummaryOf, NormalizedKey, HasText;
    SummaryIsExact(item);
    if SummaryOf(item).Some? {
      var column := SummaryOf(item).value;
      OneText(item, "name");
    }
  }

  lemma OneText(item: Json, key: string)
    ensures forall a, b :: HasText(item, key, a) && HasText(item, key, b) ==> a == b
  {
    hide Get;
  }

  /** The scan finds exactly the summaries of the items called by the input. */
  lemma MatchesAreCalled(values: seq<Json>, inputName: string, host: Host)
    ensures forall c :: c in Matches(Summaries(values), inputName, host)
              <==> exists j :: 0 <= j < |values| && CalledBy(values[j], inputName, host)
                               && SummaryOf(values[j]) == Some(c)
  {
    hide SummaryOf, CalledBy, NormalizedKey, Named, Scan;
    var columns, key := Summaries(values), NormalizedKey(inputName, host);
    ScanExact(columns, key, host);
    var positions := SummariesPick(values);
    forall j | 0 <= j < |values|
      ensures CalledBy(values[j], inputName, host)
         <==> SummaryOf(values[j]).Some? && Named(SummaryOf(values[j]).value, key, host)
    {
      CalledIsNamed(values[j], inputName, host);
    }
    forall c | c in columns ensures exists j :: 0 <= j < |values| && SummaryOf(values[j]) == Some(c) {
      var i :| 0 <= i < |columns| && columns[i] == c;
      assert SummaryOf(values[positions[i]]) == Some(c);
    }
    forall j | 0 <= j < |values| && SummaryOf(values[j]).Some? ensures SummaryOf(values[j]).value in columns {
      var k: nat := j;
      assert k in positions;
      var i :| 0 <= i < |positions| && positions[i] == k;
      assert columns[i] == SummaryOf(values[j]).value;
    }
  }

  /** The scan ends with the summary of the last item called by the input. */
  lemma {:induction false} LastScanned(values: seq<Json>, k: nat, inputName: string, host: Host)
    requires k < |values| && CalledBy(values[k], inputName, host)
    requires forall j :: k < j < |values| ==> !CalledBy(values[j], inputName, host)
    ensures var matches := Matches(Summaries(values), inputName, host);
            matches != [] && SummaryOf(values[k]) == Some(matches[|matches| - 1])
  {
    hide SummaryOf, CalledBy, NormalizedKey, Named, Hits;
    var n: nat := |values| - 1;
    var init, last, key := values[..n], SummaryOf(values[n]), NormalizedKey(inputName, host);
    CalledIsNamed(values[n], inputName, host);
    if last.Some? {
      var hits := Hits(last.value, key, |KeysOf(last.value, host)|, host);
      HitsExact(last.value, key, host);
      assert Summaries(values)[..|Summaries(init)|] == Summaries(init);
      assert Matches(Summaries(values), inputName, host) == Matches(Summaries(init), inputName, host) + hits;
      if k == n {
        assert last.value in hits;
        HitsAreOne(last.value, key, |KeysOf(last.value, host)|, host);
      } else {
        assert !CalledBy(values[n], inputName, host);
        NoHits(last.value, key, host);
      }
    } else {
      assert Summaries(values) == Summaries(init);
    }
    if k < n {
      assert forall j :: 0 <= j < n ==> init[j] == values[j];
      LastScanned(init, k, inputName, host);
    }
  }

  lemma NoHits(column: Column, key: string, host: Host)
    requires !Named(column, key, host)
    ensures Hits(column, key, |KeysOf(column, host)|, host) == []
  {
    hide NormalizedKey;
    assert Hits(column, key, 0, host) == [];
    assert Hits(column, key, 1, host) == [];
  }

  lemma {:induction false} HitsAreOne(column: Column, key: string, n: nat, host: Host)
    requires n <= |KeysOf(column, host)|
    ensures forall k :: 0 <= k < |Hits(column, key, n, host)| ==> Hits(column, key, n, host)[k] == column
  {
    hide KeysOf;
    if n > 0 { HitsAreOne(column, key, n - 1, host); }
  }

  /** An answering item is the one whose summary is taken. */
  lemma AnswerIsTaken(values: seq<Json>, k: int, inputName: string, host: Host)
    requires 0 <= k < |values| && Answers(values, k, inputName, host)
    ensures HasOneName(Summaries(values), inputName, host)
    ensures SummaryOf(values[k]) == Some(ColumnFor(Summaries(values), inputName, host))
  {
    hide SummaryOf, CalledBy, NormalizedKey, Matches, Summaries;
    MatchesAreCalled(values, inputName, host);
    LastScanned(values, k, inputName, host);
    var matches := Matches(Summaries(values), inputName, host);
    CalledIsNamed(values[k], inputName, host);
    var name := SummaryOf(values[k]).value.name;
    SummaryIsExact(values[k]);
    forall i | 0 <= i < |matches| ensures matches[i].name == name {
      assert matches[i] in matches;
      var j :| 0 <= j < |values| && CalledBy(values[j], inputName, host) && SummaryOf(values[j]) == Some(matches[i]);
      SummaryIsExact(values[j]);
      OneText(values[j], "name");
    }
  }

  /** Without an answering item there is no column to write: nothing is called by the input, or two names are. */
  lemma NoAnswerNoColumn(values: seq<Json>, inputName: string, host: Host)
    requires HasOneName(Summaries(values), inputName, host)
    ensures exists k :: 0 <= k < |values| && Answers(values, k, inputName, host)
  {
    hide SummaryOf, CalledBy, NormalizedKey, Matches, Summaries, HasText;
    MatchesAreCalled(values, inputName, host);
    var matches := Matches(Summaries(values), inputName, host);
    assert matches[0] in matches;
    var k := LastCalled(values, inputName, host);
    CalledIsNamed(values[k], inputName, host);
    SummaryIsExact(values[k]);
    OneText(values[k], "name");
    forall j | 0 <= j < k && CalledBy(values[j], inputName, host)
      ensures HasText(values[j], "name", SummaryOf(values[k]).value.name)
    {
      CalledIsNamed(values[j], inputName, host);
      SummaryIsExact(values[j]);
      assert SummaryOf(values[j]).value in matches && SummaryOf(values[k]).value in matches;
    }
    assert Answers(values, k, inputName, host);
  }

  lemma {:induction false} LastCalled(values: seq<Json>, inputName: string, host: Host) returns (k: nat)
    requires exists j :: 0 <= j < |values| && CalledBy(values[j], inputName, host)
    ensures k < |values| && CalledBy(values[k], inputName, host)
    ensures forall j :: k < j < |values| ==> !CalledBy(values[j], inputName, host)
  {
    hide CalledBy;
    var n: nat := |values| - 1;
    if CalledBy(values[n], inputName, host) {
      k := n;
    } else {
      assert forall j :: 0 <= j < n ==> values[..n][j] == values[j];
      k := LastCalled(values[..n], inputName, host);
    }
  }

  // ----- The run ----------------------------------------------------------------------------------------------

  /** One input has one item to go to, open for writing, that takes the value. */
  ghost predicate Accepts(values: seq<Json>, k: int, entry: Keyed<Json>, written: Json, host: Host) {
    && Answers(values, k, entry.key, host) && !Marked(values[k], "hidden") && !Marked(values[k], "readOnly")
    && Takes(values[k], entry.value, written, host)
  }

  ghost predicate Accepted(values: seq<Json>, entry: Keyed<Json>, host: Host) {
    exists k, written :: 0 <= k < |values| && Accepts(values, k, entry, written, host)
  }

  lemma EntryIsAccepted(raw: Json, values: seq<Json>, entry: Keyed<Json>, host: Host)
    requires Lists(raw, values)
    ensures var columns := Summaries(ValuesOf(raw));
            && (Resolvable(columns, entry, host) <==> Accepted(values, entry, host))
            && (Resolvable(columns, entry, host) ==> forall k, written ::
                  0 <= k < |values| && Accepts(values, k, entry, written, host) ==>
                  && HasText(values[k], "name", NameFor(columns, entry, host))
                  && written == ValueFor(columns, entry, host))
  {
    hide SummaryOf, Summaries, ValuesOf, Answers, Takes, Marked, HasText, HasOneName, ColumnFor, Coerce;
    ValuesAreListed(raw);
    var columns := Summaries(values);
    forall k, written | 0 <= k < |values| && Accepts(values, k, entry, written, host)
      ensures Resolvable(columns, entry, host)
      ensures HasText(values[k], "name", NameFor(columns, entry, host)) && written == ValueFor(columns, entry, host)
    {
      AnswerIsTaken(values, k, entry.key, host);
      SummaryIsExact(values[k]);
      CoercesAsTaken(values[k], entry.value, host, written);
    }
    if Resolvable(columns, entry, host) {
      NoAnswerNoColumn(values, entry.key, host);
      var k :| 0 <= k < |values| && Answers(values, k, entry.key, host);
      AnswerIsTaken(values, k, entry.key, host);
      SummaryIsExact(values[k]);
      var written := ValueFor(columns, entry, host);
      CoercesAsTaken(values[k], entry.value, host, written);
      assert Accepts(values, k, entry, written, host);
    }
  }

  /**
   * From the raw list to the result: the run is refused exactly when some input has no single item to go to, or its
   * item is hidden or read-only, or does not take the value. Otherwise every input is resolved to the name of its own
   * item, and the last input of a field leaves there what its item takes.
   */
  lemma RunIsExact(raw: Json, values: seq<Json>, entries: seq<Keyed<Json>>, host: Host)
    requires Lists(raw, values) && DistinctKeys(entries)
    ensures var columns := Summaries(ValuesOf(raw));
            && (AllResolvable(columns, entries, |entries|, host)
                <==> forall i :: 0 <= i < |entries| ==> Accepted(values, entries[i], host))
            && (AllResolvable(columns, entries, |entries|, host) ==> forall i, k, written ::
                  0 <= i < |entries| && 0 <= k < |values| && Accepts(values, k, entries[i], written, host) ==>
                    var resolved := ResolvedAfter(columns, entries, |entries|, host);
                    && entries[i].key in resolved && HasText(values[k], "name", resolved[entries[i].key])
                    && (LastWriter(columns, entries, |entries|, i, resolved[entries[i].key], host) ==>
                          && resolved[entries[i].key] in FieldsAfter(columns, entries, |entries|, host)
                          && FieldsAfter(columns, entries, |entries|, host)[resolved[entries[i].key]] == written))
  {
    hide Accepts, Accepted, Summaries, ValuesOf, Resolvable, NameFor, ValueFor, HasText;
    var columns, n := Summaries(ValuesOf(raw)), |entries|;
    forall i | 0 <= i < n
      ensures Resolvable(columns, entries[i], host) <==> Accepted(values, entries[i], host)
    {
      EntryIsAccepted(raw, values, entries[i], host);
    }
    if AllResolvable(columns, entries, n, host) {
      ResolvedExactly(columns, entries, n, host);
      forall i, k, written | 0 <= i < n && 0 <= k < |values| && Accepts(values, k, entries[i], written, host)
        ensures HasText(values[k], "name", NameFor(columns, entries[i], host))
        ensures LastWriter(columns, entries, n, i, NameFor(columns, entries[i], host), host) ==>
                  && NameFor(columns, entries[i], host) in FieldsAfter(columns, entries, n, host)
                  && FieldsAfter(columns, entries, n, host)[NameFor(columns, entries[i], host)] == written
      {
        EntryIsAccepted(raw, values, entries[i], host);
        LastWriterWins(columns, entries, n, NameFor(columns, entries[i], host), host);
      }
    }
  }

  /** The reason given, from the raw items. */
  lemma RefusalIsExplained(raw: Json, values: seq<Json>, entry: Keyed<Json>, host: Host)
    requires Lists(raw, values)
    ensures var columns := Summaries(ValuesOf(raw));
            && (Explains(columns, entry, UnknownColumn, host)
                <==> forall j :: 0 <= j < |values| ==> !CalledBy(values[j], entry.key, host))
            && (Explains(columns, entry, AmbiguousColumn, host)
                <==> (exists j :: 0 <= j < |values| && CalledBy(values[j], entry.key, host))
                     && forall k :: 0 <= k < |values| ==> !Answers(values, k, entry.key, host))
            && (forall k :: 0 <= k < |values| && Answers(values, k, entry.key, host) ==>
                  && (Explains(columns, entry, HiddenColumn, host) <==> Marked(values[k], "hidden"))
                  && (Explains(columns, entry, ReadOnlyColumn, host)
                      <==> !Marked(values[k], "hidden") && Marked(values[k], "readOnly"))
                  && (Explains(columns, entry, Uncoercible, host)
                      <==> !Marked(values[k], "hidden") && !Marked(values[k], "readOnly")
                           && forall written :: !Takes(values[k], entry.value, written, host)))
  {
    hide SummaryOf, Summaries, ValuesOf, Answers, Takes, Marked, HasText, Matches, Coerce, CalledBy;
    ValuesAreListed(raw);
    var columns := Summaries(values);
    MatchesAreCalled(values, entry.key, host);
    CalledIsMatched(values, entry.key, host);
    if HasOneName(columns, entry.key, host) { NoAnswerNoColumn(values, entry.key, host); }
    forall k | 0 <= k < |values| && Answers(values, k, entry.key, host)
      ensures HasOneName(columns, entry.key, host)
      ensures ColumnFor(columns, entry.key, host).hidden <==> Marked(values[k], "hidden")
      ensures ColumnFor(columns, entry.key, host).readOnly <==> Marked(values[k], "readOnly")
      ensures Coerce(ColumnFor(columns, entry.key, host), entry.value, host).None?
         <==> forall written :: !Takes(values[k], entry.value, written, host)
    {
      AnswerIsTaken(values, k, entry.key, host);
      SummaryIsExact(values[k]);
      forall written
        ensures Coerce(ColumnFor(columns, entry.key, host), entry.value, host) == Some(written)
           <==> Takes(values[k], entry.value, written, host)
      {
        CoercesAsTaken(values[k], entry.value, host, written);
      }
    }
  }

  lemma CalledIsMatched(values: seq<Json>, inputName: string, host: Host)
    ensures Matches(Summaries(values), inputName, host) == []
       <==> forall j :: 0 <= j < |values| ==> !CalledBy(values[j], inputName, host)
  {
    hide SummaryOf, Summaries, Matches, CalledBy, NormalizedKey;
    var matches := Matches(Summaries(values), inputName, host);
    MatchesAreCalled(values, inputName, host);
    if matches != [] { assert matches[0] in matches; }
    forall j | 0 <= j < |values| && CalledBy(values[j], inputName, host) ensures matches != [] {
      CalledIsNamed(values[j], inputName, host);
      assert SummaryOf(values[j]).value in matches;
    }
  }
}
