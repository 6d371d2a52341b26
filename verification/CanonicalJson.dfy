/** Canonical JSON: object keys in order, no white space, so that equal values have equal texts. */
module CanonicalJson {
  import opened Text

  datatype Keyed<T> = Keyed(key: string, value: T)

  /** A JSON value as it is built; the fields of an object are in insertion order. */
  datatype Json =
    | Null
    | Bool(flag: bool)
    | Num(number: int)
    | Str(text: string)
    | Arr(items: seq<Json>)
    | Obj(fields: seq<Keyed<Json>>)

  // ----- Printing -----------------------------------------------------------------------------------
  // `before` is the comparison of keys by UTF-16 code units that `sort` uses.

  function HexChar(n: nat): char
    requires n < 16
  {
    if n < 10 then Digit(n) else ('a' as int + n - 10) as char
  }

  /** One character as `JSON.stringify` writes it inside a string. */
  function EscapeChar(c: char): (e: string)
    ensures e != ""
  {
    if c == '"' then "\\\""
    else if c == '\\' then "\\\\"
    else if c == '\U{8}' then "\\b"
    else if c == '\U{9}' then "\\t"
    else if c == '\U{A}' then "\\n"
    else if c == '\U{C}' then "\\f"
    else if c == '\U{D}' then "\\r"
    else if c < ' ' then "\\u00" + [HexChar(c as int / 16), HexChar(c as int % 16)]
    else [c]
  }

  function Escape(s: string): string {
    if s == "" then "" else EscapeChar(s[0]) + Escape(s[1..])
  }

  function Quote(s: string): string {
    "\"" + Escape(s) + "\""
  }

  function PrintInt(n: int): string {
    if n < 0 then "-" + Dec(-n) else Dec(n)
  }

  function Insert<T>(entry: Keyed<T>, sorted: seq<Keyed<T>>, before: (string, string) -> bool): seq<Keyed<T>> {
    if sorted != [] && before(sorted[0].key, entry.key) then [sorted[0]] + Insert(entry, sorted[1..], before)
    else [entry] + sorted
  }

  function Sort<T>(entries: seq<Keyed<T>>, before: (string, string) -> bool): seq<Keyed<T>> {
    if entries == [] then [] else Insert(entries[0], Sort(entries[1..], before), before)
  }

  function FieldTexts(entries: seq<Keyed<string>>): (texts: seq<string>)
    ensures |texts| == |entries|
    ensures forall k :: 0 <= k < |entries| ==> texts[k] == Quote(entries[k].key) + ":" + entries[k].value
  {
    seq(|entries|, k requires 0 <= k < |entries| => Quote(entries[k].key) + ":" + entries[k].value)
  }

  function Scalar(value: Json): string {
    match value
    case Null => "null"
    case Bool(flag) => if flag then "true" else "false"
    case Num(number) => PrintInt(number)
    case Str(text) => Quote(text)
    case _ => ""
  }

  function Canonical(value: Json, before: (string, string) -> bool): string
    decreases value
  {
    match value
    case Arr(items) => "[" + Join(CanonicalItems(items, before), ',') + "]"
    case Obj(fields) => "{" + Join(FieldTexts(Sort(CanonicalFields(fields, before), before)), ',') + "}"
    case _ => Scalar(value)
  }

  function CanonicalItems(items: seq<Json>, before: (string, string) -> bool): seq<string>
    decreases items
  {
    if items == [] then [] else [Canonical(items[0], before)] + CanonicalItems(items[1..], before)
  }

  function CanonicalFields(fields: seq<Keyed<Json>>, before: (string, string) -> bool): seq<Keyed<string>>
    decreases fields
  {
    if fields == [] then []
    else [Keyed(fields[0].key, Canonical(fields[0].value, before))] + CanonicalFields(fields[1..], before)
  }

  // ----- Parsing -----------------------------------------------------------------------------------------

  predicate StartsWith(s: string, prefix: string) {
    |prefix| <= |s| && s[..|prefix|] == prefix
  }

  function HexOf(c: char): Option<nat> {
    if IsDigit(c) then Some((c as int - '0' as int) as nat)
    else if 'a' <= c <= 'f' then Some((c as int - 'a' as int + 10) as nat)
    else if 'A' <= c <= 'F' then Some((c as int - 'A' as int + 10) as nat)
    else None
  }

  function FourHex(s: string): Option<nat>
    requires |s| >= 4
  {
    if HexOf(s[0]).Some? && HexOf(s[1]).Some? && HexOf(s[2]).Some? && HexOf(s[3]).Some? then
      Some(4096 * HexOf(s[0]).value + 256 * HexOf(s[1]).value + 16 * HexOf(s[2]).value + HexOf(s[3]).value)
    else None
  }

  /** The character of a two-character escape. */
  function Unescape(c: char): Option<char> {
    match c
    case '"' => Some('"')
    case '\\' => Some('\\')
    case '/' => Some('/')
    case 'b' => Some('\U{8}')
    case 't' => Some('\U{9}')
    case 'n' => Some('\U{A}')
    case 'f' => Some('\U{C}')
    case 'r' => Some('\U{D}')
    case _ => None
  }

  datatype Parsed<T> = Failed | Parsed(value: T, rest: string)

  /** One character of a string, escaped or not (section 7 of RFC 8259). */
  function ParseChar(s: string): (r: Parsed<char>)
    ensures r.Parsed? ==> |r.rest| < |s|
  {
    if s == "" || s[0] == '"' || s[0] < ' ' then Failed
    else if s[0] != '\\' then Parsed(s[0], s[1..])
    else if |s| < 2 then Failed
    else if s[1] != 'u' then
      var c := Unescape(s[1]);
      if c.Some? then Parsed(c.value, s[2..]) else Failed
    else if |s| < 6 then Failed
    else
      var code := FourHex(s[2..]);
      if code.Some? && (code.value < 0xD800 || 0xE000 <= code.value < 0x1_0000) then Parsed(code.value as char, s[6..])
      else Failed
  }

  /** The rest of a string after its opening quote. */
  function ParseChars(s: string): (r: Parsed<string>)
    ensures r.Parsed? ==> |r.rest| < |s|
    decreases |s|
  {
    if s != "" && s[0] == '"' then Parsed("", s[1..])
    else
      var first := ParseChar(s);
      if first.Failed? then Failed
      else
        var more := ParseChars(first.rest);
        if more.Failed? then Failed else Parsed([first.value] + more.value, more.rest)
  }

  function DigitSpan(s: string): (n: nat)
    ensures n <= |s|
  {
    if s == "" || !IsDigit(s[0]) then 0 else 1 + DigitSpan(s[1..])
  }

  /** An integer without leading zeros. */
  function ParseInt(s: string): (r: Parsed<int>)
    ensures r.Parsed? ==> |r.rest| < |s|
  {
    var digits := if s != "" && s[0] == '-' then s[1..] else s;
    var n := DigitSpan(digits);
    if n == 0 || (n > 1 && digits[0] == '0') then Failed
    else
      var magnitude: int := DecValue(digits[..n]);
      Parsed(if digits == s then magnitude else -magnitude, digits[n..])
  }

  function ParseValue(s: string): (r: Parsed<Json>)
    ensures r.Parsed? ==> |r.rest| < |s|
    decreases |s|, 0
  {
    if StartsWith(s, "null") then Parsed(Null, s[4..])
    else if StartsWith(s, "true") then Parsed(Bool(true), s[4..])
    else if StartsWith(s, "false") then Parsed(Bool(false), s[5..])
    else if StartsWith(s, "[]") then Parsed(Arr([]), s[2..])
    else if StartsWith(s, "{}") then Parsed(Obj([]), s[2..])
    else if StartsWith(s, "\"") then
      var r := ParseChars(s[1..]);
      if r.Failed? then Failed else Parsed(Str(r.value), r.rest)
    else if StartsWith(s, "[") then
      var r := ParseItems(s[1..]);
      if r.Failed? then Failed else Parsed(Arr(r.value), r.rest)
    else if StartsWith(s, "{") then
      var r := ParseFields(s[1..]);
      if r.Failed? then Failed else Parsed(Obj(r.value), r.rest)
    else
      var r := ParseInt(s);
      if r.Failed? then Failed else Parsed(Num(r.value), r.rest)
  }

  /** One or more items up to the closing bracket. */
  function ParseItems(s: string): (r: Parsed<seq<Json>>)
    ensures r.Parsed? ==> |r.rest| < |s|
    decreases |s|, 1
  {
    var first := ParseValue(s);
    if first.Failed? || first.rest == "" then Failed
    else if first.rest[0] == ']' then Parsed([first.value], first.rest[1..])
    else if first.rest[0] != ',' then Failed
    else
      var more := ParseItems(first.rest[1..]);
      if more.Failed? then Failed else Parsed([first.value] + more.value, more.rest)
  }

  function ParseField(s: string): (r: Parsed<Keyed<Json>>)
    ensures r.Parsed? ==> |r.rest| < |s|
    decreases |s|, 1
  {
    if !StartsWith(s, "\"") then Failed
    else
      var key := ParseChars(s[1..]);
      if key.Failed? || !StartsWith(key.rest, ":") then Failed
      else
        var value := ParseValue(key.rest[1..]);
        if value.Failed? then Failed else Parsed(Keyed(key.value, value.value), value.rest)
  }

  function ParseFields(s: string): (r: Parsed<seq<Keyed<Json>>>)
    ensures r.Parsed? ==> |r.rest| < |s|
    decreases |s|, 2
  {
    var first := ParseField(s);
    if first.Failed? || first.rest == "" then Failed
    else if first.rest[0] == '}' then Parsed([first.value], first.rest[1..])
    else if first.rest[0] != ',' then Failed
    else
      var more := ParseFields(first.rest[1..]);
      if more.Failed? then Failed else Parsed([first.value] + more.value, more.rest)
  }

  /** A whole text as one value. */
  function Parse(s: string): Option<Json> {
    var r := ParseValue(s);
    if r.Parsed? && r.rest == "" then Some(r.value) else None
  }

  // ----- Printing in the order given, and sorting the tree ----------------------------------------------

  function Print(value: Json): string
    decreases value
  {
    match value
    case Arr(items) => "[" + PrintItems(items) + "]"
    case Obj(fields) => "{" + PrintFields(fields) + "}"
    case _ => Scalar(value)
  }

  function PrintItems(items: seq<Json>): string
    decreases items
  {
    if items == [] then ""
    else if |items| == 1 then Print(items[0])
    else Print(items[0]) + "," + PrintItems(items[1..])
  }

  function PrintField(field: Keyed<Json>): string
    decreases field, 0
  {
    Quote(field.key) + ":" + Print(field.value)
  }

  function PrintFields(fields: seq<Keyed<Json>>): string
    decreases fields
  {
    if fields == [] then ""
    else if |fields| == 1 then PrintField(fields[0])
    else PrintField(fields[0]) + "," + PrintFields(fields[1..])
  }

  /** The tree with the keys of every object in order. */
  function SortKeys(value: Json, before: (string, string) -> bool): Json
    decreases value
  {
    match value
    case Arr(items) => Arr(SortItems(items, before))
    case Obj(fields) => Obj(Sort(SortFields(fields, before), before))
    case _ => value
  }

  function SortItems(items: seq<Json>, before: (string, string) -> bool): (sorted: seq<Json>)
    ensures |sorted| == |items|
    decreases items
  {
    if items == [] then [] else [SortKeys(items[0], before)] + SortItems(items[1..], before)
  }

  function SortFields(fields: seq<Keyed<Json>>, before: (string, string) -> bool): (sorted: seq<Keyed<Json>>)
    ensures |sorted| == |fields|
    decreases fields
  {
    if fields == [] then []
    else [Keyed(fields[0].key, SortKeys(fields[0].value, before))] + SortFields(fields[1..], before)
  }

  function PrintValues(fields: seq<Keyed<Json>>): (printed: seq<Keyed<string>>)
    ensures |printed| == |fields|
    ensures forall k :: 0 <= k < |fields| ==> printed[k] == Keyed(fields[k].key, Print(fields[k].value))
  {
    seq(|fields|, k requires 0 <= k < |fields| => Keyed(fields[k].key, Print(fields[k].value)))
  }

  lemma {:induction false} InsertPrinted(field: Keyed<Json>, fields: seq<Keyed<Json>>, before: (string, string) -> bool)
    ensures Insert(Keyed(field.key, Print(field.value)), PrintValues(fields), before)
         == PrintValues(Insert(field, fields, before))
  {
    hide Print;
    if fields != [] && before(fields[0].key, field.key) {
      InsertPrinted(field, fields[1..], before);
      assert PrintValues(fields)[1..] == PrintValues(fields[1..]);
      assert PrintValues(fields)[0].key == fields[0].key;
      var rest := Insert(field, fields[1..], before);
      assert PrintValues([fields[0]] + rest) == [Keyed(fields[0].key, Print(fields[0].value))] + PrintValues(rest);
    } else {
      assert PrintValues([field] + fields) == [Keyed(field.key, Print(field.value))] + PrintValues(fields);
    }
  }

  /** Sorting by key looks at keys only, so it commutes with printing the values. */
  lemma {:induction false} SortPrinted(fields: seq<Keyed<Json>>, before: (string, string) -> bool)
    ensures Sort(PrintValues(fields), before) == PrintValues(Sort(fields, before))
  {
    if fields != [] {
      SortPrinted(fields[1..], before);
      assert PrintValues(fields)[1..] == PrintValues(fields[1..]);
      InsertPrinted(fields[0], Sort(fields[1..], before), before);
    }
  }

  lemma {:induction false} JoinPrinted(fields: seq<Keyed<Json>>)
    ensures Join(FieldTexts(PrintValues(fields)), ',') == PrintFields(fields)
  {
    if |fields| > 0 {
      JoinPrinted(fields[1..]);
      assert FieldTexts(PrintValues(fields))[1..] == FieldTexts(PrintValues(fields[1..]));
      assert FieldTexts(PrintValues(fields))[0] == PrintField(fields[0]);
    }
  }

  /** Canonical text is the plain text of the sorted tree. */
  lemma {:induction false} CanonicalPrintsSorted(value: Json, before: (string, string) -> bool)
    ensures Canonical(value, before) == Print(SortKeys(value, before))
    decreases value
  {
    match value {
      case Arr(items) => ItemsPrintSorted(items, before);
      case Obj(fields) =>
        FieldsPrintSorted(fields, before);
        SortPrinted(SortFields(fields, before), before);
        JoinPrinted(Sort(SortFields(fields, before), before));
      case _ =>
    }
  }

  lemma {:induction false} ItemsPrintSorted(items: seq<Json>, before: (string, string) -> bool)
    ensures Join(CanonicalItems(items, before), ',') == PrintItems(SortItems(items, before))
    ensures |CanonicalItems(items, before)| == |items|
    decreases items
  {
    if items != [] {
      CanonicalPrintsSorted(items[0], before);
      ItemsPrintSorted(items[1..], before);
      assert CanonicalItems(items, before)[1..] == CanonicalItems(items[1..], before);
      assert SortItems(items, before)[1..] == SortItems(items[1..], before);
    }
  }

  lemma {:induction false} FieldsPrintSorted(fields: seq<Keyed<Json>>, before: (string, string) -> bool)
    ensures CanonicalFields(fields, before) == PrintValues(SortFields(fields, before))
    decreases fields
  {
    if fields != [] {
      CanonicalPrintsSorted(fields[0].value, before);
      FieldsPrintSorted(fields[1..], before);
      var sorted := SortFields(fields, before);
      assert sorted[1..] == SortFields(fields[1..], before);
      assert PrintValues(sorted) == [PrintValues(sorted)[0]] + PrintValues(sorted[1..]);
    }
  }

  // ----- The parser undoes the printer -----------------------------------------------------------------

  lemma EscapedCharParses(c: char, rest: string)
    ensures ParseChar(EscapeChar(c) + rest) == Parsed(c, rest)
    ensures EscapeChar(c)[0] != '"'
  {
    var e := EscapeChar(c);
    var s := e + rest;
    assert s[|e|..] == rest;
    if e[0] == '\\' && e[1] == 'u' {
      var n := c as int;
      assert s[2..][0] == '0' && s[2..][1] == '0' && s[2..][2] == HexChar(n / 16) && s[2..][3] == HexChar(n % 16);
      assert FourHex(s[2..]) == Some(n);
    }
  }

  lemma {:induction false} EscapeParses(text: string, rest: string)
    ensures ParseChars(Escape(text) + "\"" + rest) == Parsed(text, rest)
  {
    hide EscapeChar, ParseChar;
    var s := Escape(text) + "\"" + rest;
    if text == "" {
      assert s == "\"" + rest && s[1..] == rest;
    } else {
      var tail := Escape(text[1..]) + "\"" + rest;
      assert s == EscapeChar(text[0]) + tail;
      assert s[0] == EscapeChar(text[0])[0];
      assert text == [text[0]] + text[1..];
      EscapedCharParses(text[0], tail);
      EscapeParses(text[1..], rest);
    }
  }

  lemma {:induction false} SpanOfDigits(digits: string, rest: string)
    requires forall k :: 0 <= k < |digits| ==> IsDigit(digits[k])
    requires rest == "" || !IsDigit(rest[0])
    ensures DigitSpan(digits + rest) == |digits|
  {
    if digits == "" {
      assert digits + rest == rest;
    } else {
      SpanOfDigits(digits[1..], rest);
      assert (digits + rest)[1..] == digits[1..] + rest;
    }
  }

  lemma {:induction false} SingleDigitZero(n: nat)
    ensures Dec(n)[0] == '0' ==> |Dec(n)| == 1
  {
    DecNoLeadingZero(n);
  }

  lemma IntParses(n: int, rest: string)
    requires rest == "" || !IsDigit(rest[0])
    ensures ParseInt(PrintInt(n) + rest) == Parsed(n, rest)
  {
    hide Dec, DecValue, DigitSpan;
    var magnitude := if n < 0 then -n else n;
    var digits := Dec(magnitude);
    SpanOfDigits(digits, rest);
    SingleDigitZero(magnitude);
    DecValueOfDec(magnitude);
    var s := PrintInt(n) + rest;
    var text := digits + rest;
    assert text[..|digits|] == digits && text[|digits|..] == rest;
    assert text[0] == digits[0];
    if n < 0 {
      assert s[0] == '-' && s[1..] == text;
    } else {
      assert s == text;
    }
  }

  /** What may follow a value inside a canonical text. */
  predicate Follows(rest: string) {
    rest == "" || rest[0] == ',' || rest[0] == ']' || rest[0] == '}'
  }

  lemma WordParses(value: Json, rest: string)
    requires value.Null? || value.Bool?
    ensures ParseValue(Scalar(value) + rest) == Parsed(value, rest)
  {
    hide ParseInt, ParseChars, ParseItems, ParseFields;
    var word := Scalar(value);
    var s := word + rest;
    assert s[..|word|] == word && s[|word|..] == rest;
    assert "null"[0] == 'n' && "true"[0] == 't' && "false"[0] == 'f';
    assert s[0] == word[0];
  }

  lemma QuotedParses(text: string, rest: string)
    ensures ParseValue(Quote(text) + rest) == Parsed(Str(text), rest)
  {
    hide ParseInt, ParseChars, ParseItems, ParseFields, Escape;
    var s := Quote(text) + rest;
    EscapeParses(text, rest);
    assert s[0] == '"' && s[..1] == "\"";
    assert s[1..] == Escape(text) + "\"" + rest;
    assert "null"[0] == 'n' && "true"[0] == 't' && "false"[0] == 'f' && "[]"[0] == '[' && "{}"[0] == '{';
  }

  lemma NumberParses(n: int, rest: string)
    requires Follows(rest)
    ensures ParseValue(PrintInt(n) + rest) == Parsed(Num(n), rest)
  {
    hide ParseInt, ParseChars, ParseItems, ParseFields, PrintInt, StartsWith;
    var s := PrintInt(n) + rest;
    IntParses(n, rest);
    IntStarts(n);
    assert s[0] == PrintInt(n)[0];
    NoOtherStart(s);
  }

  lemma ScalarParses(value: Json, rest: string)
    requires !value.Arr? && !value.Obj? && Follows(rest)
    ensures ParseValue(Scalar(value) + rest) == Parsed(value, rest)
  {
    hide ParseValue, Quote, PrintInt;
    match value
    case Null => WordParses(value, rest);
    case Bool(_) => WordParses(value, rest);
    case Num(n) => NumberParses(n, rest);
    case Str(text) => QuotedParses(text, rest);
  }

  lemma IntStarts(n: int)
    ensures PrintInt(n) != "" && (PrintInt(n)[0] == '-' || IsDigit(PrintInt(n)[0]))
  {
  }

  lemma NoOtherStart(s: string)
    requires s != "" && (s[0] == '-' || IsDigit(s[0]))
    ensures !StartsWith(s, "null") && !StartsWith(s, "true") && !StartsWith(s, "false") && !StartsWith(s, "[]")
    ensures !StartsWith(s, "{}") && !StartsWith(s, "\"") && !StartsWith(s, "[") && !StartsWith(s, "{")
  {
    assert "null"[0] == 'n' && "true"[0] == 't' && "false"[0] == 'f' && "[]"[0] == '[' && "{}"[0] == '{';
  }

  /** A value's text is never empty and never starts like the end of a list. */
  lemma PrintStarts(value: Json)
    ensures Print(value) != "" && Print(value)[0] != ']' && Print(value)[0] != '}'
  {
    if value.Num? { IntStarts(value.number); }
  }

  lemma ItemsStart(items: seq<Json>)
    requires items != []
    ensures PrintItems(items) != "" && PrintItems(items)[0] != ']'
  {
    hide Print;
    PrintStarts(items[0]);
  }

  lemma OpensList(body: string, open: char, close: char)
    requires body != "" && body[0] != close && ((open == '[' && close == ']') || (open == '{' && close == '}'))
    ensures var s := [open] + body;
            && !StartsWith(s, "null") && !StartsWith(s, "true") && !StartsWith(s, "false") && !StartsWith(s, "\"")
            && !StartsWith(s, "[]") && !StartsWith(s, "{}")
            && (StartsWith(s, "[") <==> open == '[') && (StartsWith(s, "{") <==> open == '{') && s[1..] == body
  {
    assert "null"[0] == 'n' && "true"[0] == 't' && "false"[0] == 'f' && "[]"[1] == ']' && "{}"[1] == '}';
    var s := [open] + body;
    assert s[0] == open && s[1] == body[0];
    assert s[..1] == [open];
  }

  lemma ListParses(items: seq<Json>, rest: string)
    requires items != [] && ParseItems(PrintItems(items) + "]" + rest) == Parsed(items, rest)
    ensures ParseValue(Print(Arr(items)) + rest) == Parsed(Arr(items), rest)
  {
    hide StartsWith, ParseInt, ParseChars, ParseItems, ParseFields, PrintItems;
    var body := PrintItems(items) + "]" + rest;
    ItemsStart(items);
    OpensList(body, '[', ']');
    assert Print(Arr(items)) + rest == ['['] + body;
  }

  lemma ObjectParses(fields: seq<Keyed<Json>>, rest: string)
    requires fields != [] && ParseFields(PrintFields(fields) + "}" + rest) == Parsed(fields, rest)
    ensures ParseValue(Print(Obj(fields)) + rest) == Parsed(Obj(fields), rest)
  {
    hide StartsWith, ParseInt, ParseChars, ParseItems, ParseFields, PrintFields;
    var body := PrintFields(fields) + "}" + rest;
    FieldsStart(fields);
    OpensList(body, '{', '}');
    assert Print(Obj(fields)) + rest == ['{'] + body;
  }

  /** Printing then parsing gives the value back and leaves what follows. */
  lemma {:induction false} PrintedParses(value: Json, rest: string)
    requires Follows(rest)
    ensures ParseValue(Print(value) + rest) == Parsed(value, rest)
    decreases value, 0
  {
    hide Scalar, ParseValue, ParseItems, ParseFields;
    match value {
      case Arr(items) =>
        if items == [] {
          EmptyLists(rest);
        } else {
          ItemsParse(items, rest);
          ListParses(items, rest);
        }
      case Obj(fields) =>
        if fields == [] {
          EmptyLists(rest);
        } else {
          FieldsParse(fields, rest);
          ObjectParses(fields, rest);
        }
      case _ => ScalarParses(value, rest);
    }
  }

  lemma FieldsStart(fields: seq<Keyed<Json>>)
    requires fields != []
    ensures PrintFields(fields) != "" && PrintFields(fields)[0] == '"'
  {
  }

  lemma EmptyLists(rest: string)
    ensures ParseValue("[" + "" + "]" + rest) == Parsed(Arr([]), rest)
    ensures ParseValue("{" + "" + "}" + rest) == Parsed(Obj([]), rest)
  {
    var a, b := "[" + "" + "]" + rest, "{" + "" + "}" + rest;
    assert a[..2] == "[]" && a[2..] == rest && b[..2] == "{}" && b[2..] == rest;
    assert "null"[0] == 'n' && "true"[0] == 't' && "false"[0] == 'f' && "[]"[0] == '[';
    assert a[0] == '[' && b[0] == '{';
  }

  lemma {:induction false} ItemsParse(items: seq<Json>, rest: string)
    requires items != []
    ensures ParseItems(PrintItems(items) + "]" + rest) == Parsed(items, rest)
    decreases items, 1
  {
    hide Print, ParseValue;
    var s := PrintItems(items) + "]" + rest;
    if |items| == 1 {
      PrintedParses(items[0], "]" + rest);
      assert s == Print(items[0]) + ("]" + rest);
      assert ("]" + rest)[1..] == rest && items == [items[0]];
    } else {
      var tail := PrintItems(items[1..]) + "]" + rest;
      PrintedParses(items[0], "," + tail);
      assert s == Print(items[0]) + ("," + tail);
      assert ("," + tail)[1..] == tail;
      ItemsParse(items[1..], rest);
      assert items == [items[0]] + items[1..];
    }
  }

  lemma {:induction false} FieldParses(field: Keyed<Json>, rest: string)
    requires Follows(rest)
    ensures ParseField(PrintField(field) + rest) == Parsed(field, rest)
    decreases field, 1
  {
    hide Print, ParseValue, ParseChars, Escape;
    var s := PrintField(field) + rest;
    var value := Print(field.value) + rest;
    assert s[..1] == "\"";
    assert s[1..] == Escape(field.key) + "\"" + (":" + value);
    EscapeParses(field.key, ":" + value);
    assert (":" + value)[..1] == ":" && (":" + value)[1..] == value;
    PrintedParses(field.value, rest);
  }

  lemma {:induction false} FieldsParse(fields: seq<Keyed<Json>>, rest: string)
    requires fields != []
    ensures ParseFields(PrintFields(fields) + "}" + rest) == Parsed(fields, rest)
    decreases fields, 1
  {
    hide PrintField, ParseField;
    var s := PrintFields(fields) + "}" + rest;
    if |fields| == 1 {
      FieldParses(fields[0], "}" + rest);
      assert s == PrintField(fields[0]) + ("}" + rest);
      assert ("}" + rest)[1..] == rest && fields == [fields[0]];
    } else {
      var tail := PrintFields(fields[1..]) + "}" + rest;
      FieldParses(fields[0], "," + tail);
      assert s == PrintField(fields[0]) + ("," + tail);
      assert ("," + tail)[1..] == tail;
      FieldsParse(fields[1..], rest);
      assert fields == [fields[0]] + fields[1..];
    }
  }

  /** Parsing a canonical text gives the tree it was made from, with its keys in order. */
  lemma ParseUndoesCanonical(value: Json, before: (string, string) -> bool)
    ensures Parse(Canonical(value, before)) == Some(SortKeys(value, before))
  {
    CanonicalPrintsSorted(value, before);
    PrintedParses(SortKeys(value, before), "");
    assert Print(SortKeys(value, before)) + "" == Print(SortKeys(value, before));
  }
}
