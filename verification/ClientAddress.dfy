/** Forwarded client addresses: which texts are accepted, what each is read as, and the counter bucket it gets. */
module ClientAddress {
  import opened Text
  import opened AddressText

  // ----- canonical ----------------------------------------------------------------------------------

  function LowerChar(c: char): char {
    if 'A' <= c <= 'Z' then (c as int + 32) as char else c
  }

  function Lower(s: string): (l: string)
    ensures |l| == |s| && forall k :: 0 <= k < |s| ==> l[k] == LowerChar(s[k])
  {
    seq(|s|, k requires 0 <= k < |s| => LowerChar(s[k]))
  }

  predicate IsPort(s: string) {
    s != "" && AllDigits(s)
  }

  /** What stands between the brackets of `[…]` or `[…]:port`. */
  function Bracketed(s: string): Option<string> {
    if s == "" || s[0] != '[' then None
    else
      var close := IndexOf(s, ']');
      if 2 <= close < |s| && (s[close + 1..] == "" || (s[close + 1] == ':' && IsPort(s[close + 2..])))
      then Some(s[1..close]) else None
  }

  /** The host of `host:port`. */
  function WithPort(s: string): Option<string> {
    var colon := IndexOf(s, ':');
    if 1 <= colon < |s| && IsPort(s[colon + 1..]) then Some(s[..colon]) else None
  }

  /** The dotted tail of `::ffff:d.d.d.d`. */
  function Mapped(s: string): Option<string> {
    if |s| > 7 && s[..2] == "::" && Lower(s[2..6]) == "ffff" && s[6] == ':' && IsIPv4(s[7..]) then Some(s[7..])
    else None
  }

  function HexPrefix(s: string): string {
    if s != "" && IsHex(s[0]) then [s[0]] + HexPrefix(s[1..]) else ""
  }

  predicate HasHexMark(s: string) {
    |s| >= 2 && s[0] == '0' && (s[1] == 'x' || s[1] == 'X')
  }

  /** `parseInt` in base 16: a sign, `0x`, then the longest run of hexadecimal digits; whatever follows is dropped. */
  function Expand(group: string): string {
    var text := if group == "" then "0" else group;
    var body := if text[0] == '-' || text[0] == '+' then text[1..] else text;
    var digits := HexPrefix(if HasHexMark(body) then body[2..] else body);
    if digits == "" then "NaN"
    else if text[0] == '-' && HexValue(digits) > 0 then "-" + Dec(HexValue(digits))
    else Dec(HexValue(digits))
  }

  function ExpandAll(groups: seq<string>): (expanded: seq<string>)
    ensures |expanded| == |groups| && forall k :: 0 <= k < |groups| ==> expanded[k] == Expand(groups[k])
  {
    seq(|groups|, k requires 0 <= k < |groups| => Expand(groups[k]))
  }

  function Zeros(n: int): (zeros: seq<string>)
    ensures |zeros| == if n < 0 then 0 else n
    ensures forall k :: 0 <= k < |zeros| ==> zeros[k] == "0"
  {
    seq(if n < 0 then 0 else n, k => "0")
  }

  function NormalizeIPv6(address: string): string {
    if Mapped(address).Some? then Mapped(address).value
    else
      var lower := Lower(address);
      var cut := DoubleColon(lower);
      if cut == |lower| then Join(ExpandAll(Split(lower, ':')), ':')
      else
        var rest := lower[cut + 2..];
        var left, right := Pieces(lower[..cut]), Pieces(rest[..DoubleColon(rest)]);
        Join(ExpandAll(left + Zeros(8 - |left| - |right|) + right), ':')
  }

  function CanonicalOf(candidate: string): Option<string> {
    if IsIPv6(candidate) then Some(NormalizeIPv6(candidate))
    else if IsIPv4(candidate) then Some(candidate)
    else
      var host := WithPort(candidate);
      if host.Some? && IsIPv4(host.value) then host else None
  }

  function Canonical(address: string): Option<string> {
    var trimmed := Trim(address);
    if trimmed == "" then None
    else
      var inner := Bracketed(trimmed);
      CanonicalOf(if inner.Some? then inner.value else trimmed)
  }

  /** The first hop that parses; `digest` is the first 32 hexadecimal digits of SHA-256. */
  function FirstBucket(hops: seq<string>, digest: string -> string): Option<string> {
    if hops == [] then None
    else
      var address := Canonical(hops[0]);
      if address.Some? then Some("ip_" + digest(address.value)) else FirstBucket(hops[1..], digest)
  }

  function ClientAddressBucket(forwarded: Option<string>, digest: string -> string): Option<string> {
    if forwarded.None? then None else FirstBucket(Split(forwarded.value, ','), digest)
  }

  // ----- Addresses ----------------------------------------------------------------------------------------

  /** The address itself: four octets, or eight 16-bit groups. */
  datatype Address = V4(octets: seq<nat>) | V6(groups: seq<nat>) {
    predicate Valid() {
      match this
      case V4(octets) => |octets| == 4 && forall k :: 0 <= k < 4 ==> octets[k] < 256
      case V6(groups) => |groups| == 8 && forall k :: 0 <= k < 8 ==> groups[k] < 0x1_0000
    }

    /** Its canonical text: decimal octets with dots, or decimal groups with colons. */
    function Text(): string {
      match this
      case V4(octets) => Join(Decs(octets), '.')
      case V6(groups) => Join(Decs(groups), ':')
    }
  }

  function Decs(values: seq<nat>): (texts: seq<string>)
    ensures |texts| == |values| && forall k :: 0 <= k < |values| ==> texts[k] == Dec(values[k])
  {
    seq(|values|, k requires 0 <= k < |values| => Dec(values[k]))
  }

  // ----- What an accepted text is read as ------------------------------------------------------------------

  /**
   * What the code keeps of an accepted text: four octets, or a list of numbers in which `None` is the number read
   * from a piece without a leading hexadecimal digit.
   */
  datatype Reading = Dotted(octets: seq<nat>) | Numbers(numbers: seq<Option<nat>>) {
    function Text(): string {
      match this
      case Dotted(octets) => Join(Decs(octets), '.')
      case Numbers(numbers) => Join(Shown(numbers), ':')
    }
  }

  function Show(number: Option<nat>): string {
    if number.Some? then Dec(number.value) else "NaN"
  }

  function Shown(numbers: seq<Option<nat>>): (texts: seq<string>)
    ensures |texts| == |numbers| && forall k :: 0 <= k < |numbers| ==> texts[k] == Show(numbers[k])
  {
    seq(|numbers|, k requires 0 <= k < |numbers| => Show(numbers[k]))
  }

  function Somes(values: seq<nat>): (numbers: seq<Option<nat>>)
    ensures |numbers| == |values| && forall k :: 0 <= k < |values| ==> numbers[k] == Some(values[k])
  {
    seq(|values|, k requires 0 <= k < |values| => Some(values[k]))
  }

  /** A group is read whole; of a dotted address only the first octet is read, its digits taken as hexadecimal. */
  function ReadPiece(piece: string): nat {
    HexValue(Split(piece, '.')[0])
  }

  function ReadAll(parts: seq<string>): (numbers: seq<nat>)
    ensures |numbers| == |parts| && forall k :: 0 <= k < |parts| ==> numbers[k] == ReadPiece(parts[k])
  {
    seq(|parts|, k requires 0 <= k < |parts| => ReadPiece(parts[k]))
  }

  /** A zone is dropped with the piece it follows, but one that follows `::` is a piece of its own. */
  function Kept(form: Form, zoned: bool): seq<Option<nat>>
    requires form.Valid()
  {
    match form
    case Full(parts) => Somes(ReadAll(parts))
    case Short(left, right) =>
      if zoned && right == [] then Somes(ReadAll(left) + ZeroGroups(7 - |left|)) + [None]
      else Somes(ReadAll(left) + ZeroGroups(8 - |left| - |right|) + ReadAll(right))
  }

  predicate IsMapped(form: Form) {
    form.Short? && form.left == [] && |form.right| == 2 && Lower(form.right[0]) == "ffff" && IsIPv4(form.right[1])
  }

  /** A dotted address, alone, with a port or behind `::ffff:`. */
  ghost predicate WritesDotted(s: string, octets: seq<nat>) {
    && V4(octets).Valid()
    && (|| s == V4(octets).Text()
        || (exists port :: IsPort(port) && s == V4(octets).Text() + ":" + port)
        || (exists f :: Lower(f) == "ffff" && s == "::" + f + ":" + V4(octets).Text()))
  }

  /** Any other form of IPv6 text with any zone free of colons. */
  predicate WritesForm(s: string, form: Form, zone: Option<string>) {
    && form.Valid() && ZoneFits(zone) && s == form.Text() + Zoned(zone)
    && (zone.Some? ==> ':' !in zone.value)
    && !(IsMapped(form) && zone.None?)
  }

  ghost predicate ReadsBare(s: string, reading: Reading) {
    match reading
    case Dotted(octets) => WritesDotted(s, octets)
    case Numbers(numbers) => exists form, zone :: WritesForm(s, form, zone) && numbers == Kept(form, zone.Some?)
  }

  /** A bare address in the grammar, with any zone. */
  ghost predicate WrittenBare(s: string) {
    || (exists octets :: WritesDotted(s, octets))
    || (exists form: Form, zone :: form.Valid() && ZoneFits(zone) && s == form.Text() + Zoned(zone))
  }

  /** Forms 1 and 2, without a zone. */
  predicate IsHexForm(form: Form) {
    form.Valid() && !HasTail(form.Last())
  }

  /** A bare spelling of an address: dotted, or groups in form 1 or 2. */
  ghost predicate SpellsBare(s: string, a: Address) {
    match a
    case V4(octets) => WritesDotted(s, octets)
    case V6(groups) => exists form :: IsHexForm(form) && s == form.Text() && groups == form.Groups()
  }

  /** A bare address, or one in brackets with an optional port. */
  ghost predicate IsHostOf(host: string, bare: string) {
    host == bare || host == "[" + bare + "]" || exists port :: IsPort(port) && host == "[" + bare + "]:" + port
  }

  /** A host with space around it. */
  ghost predicate Dresses(raw: string, bare: string) {
    exists before, host, after ::
      AllSpace(before) && AllSpace(after) && IsHostOf(host, bare) && raw == before + host + after
  }

  ghost predicate Written(raw: string) {
    exists bare :: Dresses(raw, bare) && WrittenBare(bare)
  }

  ghost predicate Reads(raw: string, reading: Reading) {
    exists bare :: Dresses(raw, bare) && ReadsBare(bare, reading)
  }

  ghost predicate Spells(raw: string, a: Address) {
    exists bare :: Dresses(raw, bare) && SpellsBare(bare, a)
  }

  // ----- Canonical texts determine what was read -----------------------------------------------------------

  lemma DecsFree(values: seq<nat>, sep: char)
    requires !IsDigit(sep)
    ensures Free(Decs(values), sep)
  {
  }

  lemma JoinDecsInjective(v1: seq<nat>, v2: seq<nat>, sep: char)
    requires !IsDigit(sep) && v1 != [] && v2 != [] && Join(Decs(v1), sep) == Join(Decs(v2), sep)
    ensures v1 == v2
  {
    DecsFree(v1, sep);
    DecsFree(v2, sep);
    SplitJoin(Decs(v1), sep);
    SplitJoin(Decs(v2), sep);
    assert |v1| == |Decs(v1)| && |v2| == |Decs(v2)|;
    forall k | 0 <= k < |v1| ensures v1[k] == v2[k] {
      assert Decs(v1)[k] == Decs(v2)[k];
      DecInjective(v1[k], v2[k]);
    }
  }

  lemma ShowInjective(m: Option<nat>, n: Option<nat>)
    requires Show(m) == Show(n)
    ensures m == n
  {
    assert !IsDigit("NaN"[0]);
    if m.Some? && n.Some? { DecInjective(m.value, n.value); }
  }

  lemma ShowHasNoColon(n: Option<nat>)
    ensures ':' !in Show(n)
  {
  }

  lemma JoinShownInjective(v1: seq<Option<nat>>, v2: seq<Option<nat>>)
    requires v1 != [] && v2 != [] && Join(Shown(v1), ':') == Join(Shown(v2), ':')
    ensures v1 == v2
  {
    hide Join, Show;
    forall k | 0 <= k < |v1| ensures ':' !in Shown(v1)[k] { ShowHasNoColon(v1[k]); }
    forall k | 0 <= k < |v2| ensures ':' !in Shown(v2)[k] { ShowHasNoColon(v2[k]); }
    SplitJoin(Shown(v1), ':');
    SplitJoin(Shown(v2), ':');
    assert |v1| == |Shown(v1)| && |v2| == |Shown(v2)|;
    forall k | 0 <= k < |v1| ensures v1[k] == v2[k] {
      assert Shown(v1)[k] == Shown(v2)[k];
      ShowInjective(v1[k], v2[k]);
    }
  }

  lemma DottedHasNoColon(octets: seq<nat>)
    ensures ':' !in Join(Decs(octets), '.')
  {
    if ':' in Join(Decs(octets), '.') { JoinChars(Decs(octets), '.', ':'); }
  }

  lemma NumbersHaveColon(numbers: seq<Option<nat>>)
    requires |numbers| >= 2
    ensures ':' in Join(Shown(numbers), ':')
  {
    assert Join(Shown(numbers), ':')[|Show(numbers[0])|] == ':';
  }

  /** Different readings have different canonical texts. */
  lemma ReadingInjective(r1: Reading, r2: Reading)
    requires r1.Dotted? ==> r1.octets != []
    requires r2.Dotted? ==> r2.octets != []
    requires r1.Numbers? ==> |r1.numbers| >= 2
    requires r2.Numbers? ==> |r2.numbers| >= 2
    requires r1.Text() == r2.Text()
    ensures r1 == r2
  {
    hide Join;
    if r1.Dotted? { DottedHasNoColon(r1.octets); } else { NumbersHaveColon(r1.numbers); }
    if r2.Dotted? { DottedHasNoColon(r2.octets); } else { NumbersHaveColon(r2.numbers); }
    if r1.Dotted? && r2.Dotted? { JoinDecsInjective(r1.octets, r2.octets, '.'); }
    if r1.Numbers? && r2.Numbers? { JoinShownInjective(r1.numbers, r2.numbers); }
  }

  /** An address read as itself. */
  function Itself(a: Address): Reading {
    match a
    case V4(octets) => Dotted(octets)
    case V6(groups) => Numbers(Somes(groups))
  }

  lemma ItselfText(a: Address)
    ensures Itself(a).Text() == a.Text()
  {
    if a.V6? { assert Shown(Somes(a.groups)) == Decs(a.groups); }
  }

  /** Different addresses have different canonical texts, and the two families never meet. */
  lemma TextInjective(a: Address, b: Address)
    requires a.Valid() && b.Valid() && a.Text() == b.Text()
    ensures a == b
  {
    hide Reading.Text, Address.Text;
    ItselfText(a);
    ItselfText(b);
    ReadingInjective(Itself(a), Itself(b));
    if a.V6? {
      assert forall k :: 0 <= k < 8 ==> Itself(a).numbers[k] == Some(a.groups[k]);
      assert forall k :: 0 <= k < 8 ==> Itself(b).numbers[k] == Some(b.groups[k]);
    }
  }

  // ----- Lower case -------------------------------------------------------------------------------------

  function LowerAll(parts: seq<string>): (lowered: seq<string>)
    ensures |lowered| == |parts| && forall k :: 0 <= k < |parts| ==> lowered[k] == Lower(parts[k])
  {
    seq(|parts|, k requires 0 <= k < |parts| => Lower(parts[k]))
  }

  lemma {:induction false} LowerHex(s: string)
    requires AllHex(s)
    ensures HexValue(Lower(s)) == HexValue(s) && AllHex(Lower(s))
  {
    if s != "" {
      LowerHex(s[..|s| - 1]);
      assert Lower(s)[..|s| - 1] == Lower(s[..|s| - 1]);
    }
  }

  lemma LowerConcat(a: string, b: string)
    ensures Lower(a + b) == Lower(a) + Lower(b)
  {
  }

  lemma {:induction false} LowerJoin(parts: seq<string>)
    ensures Lower(Join(parts, ':')) == Join(LowerAll(parts), ':')
  {
    if |parts| > 1 {
      LowerJoin(parts[1..]);
      assert LowerAll(parts)[1..] == LowerAll(parts[1..]);
      LowerConcat(parts[0] + [':'], Join(parts[1..], ':'));
      LowerConcat(parts[0], [':']);
    }
  }

  lemma LowerColons()
    ensures Lower("::") == "::"
  {
  }

  function LowerForm(form: Form): Form {
    match form
    case Full(parts) => Full(LowerAll(parts))
    case Short(left, right) => Short(LowerAll(left), LowerAll(right))
  }

  lemma LowerText(form: Form)
    ensures Lower(form.Text()) == LowerForm(form).Text()
  {
    hide Join, Lower;
    match form {
      case Full(parts) => LowerJoin(parts);
      case Short(left, right) =>
        LowerJoin(left);
        LowerJoin(right);
        LowerConcat(Join(left, ':') + "::", Join(right, ':'));
        LowerConcat(Join(left, ':'), "::");
        LowerColons();
    }
  }

  lemma LowerPlain(parts: seq<string>)
    requires Plain(parts)
    ensures Plain(LowerAll(parts))
  {
    forall k | 0 <= k < |parts| ensures ':' !in Lower(parts[k]) {
      assert forall i :: 0 <= i < |parts[k]| ==> Lower(parts[k])[i] == LowerChar(parts[k][i]) && parts[k][i] != ':';
    }
  }

  // ----- Reading one piece ------------------------------------------------------------------------------

  lemma {:induction false} HexPrefixOf(lead: string, rest: string)
    requires AllHex(lead) && (rest == "" || !IsHex(rest[0]))
    ensures HexPrefix(lead + rest) == lead
  {
    if lead == "" {
      assert lead + rest == rest;
    } else {
      assert (lead + rest)[1..] == lead[1..] + rest;
      HexPrefixOf(lead[1..], rest);
    }
  }

  predicate Stops(rest: string) {
    rest == "" || rest[0] == '.' || rest[0] == '%'
  }

  lemma ExpandLead(lead: string, rest: string)
    requires lead != "" && AllHex(lead) && Stops(rest)
    ensures Expand(lead + rest) == Dec(HexValue(lead))
  {
    hide HexValue;
    HexPrefixOf(lead, rest);
    var text := lead + rest;
    assert text[0] == lead[0] && IsHex(lead[0]);
    if |text| >= 2 { assert text[1] == if |lead| >= 2 then lead[1] else rest[0]; }
  }

  /** A piece is its leading digits and whatever starts with the first dot. */
  lemma PieceLead(piece: string) returns (rest: string)
    requires IsPiece(piece)
    ensures var lead := Split(piece, '.')[0]; lead != "" && AllHex(lead) && Stops(rest) && piece == lead + rest
  {
    var parts := Split(piece, '.');
    JoinSplit(piece, '.');
    if |parts| == 1 {
      rest := "";
    } else {
      rest := ['.'] + Join(parts[1..], '.');
    }
    if IsIPv4(piece) {
      assert IsOctet(parts[0]);
    } else {
      SplitPart(piece, '.', "");
    }
  }

  /** A piece, in any case and with a zone after it, expands to what is read of it. */
  lemma ExpandPiece(piece: string, tail: string)
    requires IsPiece(piece) && (tail == "" || tail[0] == '%')
    ensures Expand(Lower(piece + tail)) == Dec(ReadPiece(piece))
  {
    hide IsPiece, Expand, HexValue, Split;
    var rest := PieceLead(piece);
    var lead := Split(piece, '.')[0];
    assert piece + tail == lead + (rest + tail);
    LowerConcat(lead, rest + tail);
    LowerHex(lead);
    ExpandLead(Lower(lead), Lower(rest + tail));
  }

  lemma ExpandMark(zone: string)
    ensures Expand(Lower("%" + zone)) == "NaN"
  {
    var text := Lower("%" + zone);
    assert text[0] == LowerChar('%') == '%';
    assert HexPrefix(text) == "";
  }

  // ----- Reading a form ------------------------------------------------------------------------------------

  /** The parts with a zone written after the last one. */
  function Append(parts: seq<string>, tail: string): seq<string> {
    if tail == "" then parts
    else if parts == [] then [tail]
    else parts[..|parts| - 1] + [parts[|parts| - 1] + tail]
  }

  lemma {:induction false} JoinAppend(parts: seq<string>, tail: string)
    ensures Join(Append(parts, tail), ':') == Join(parts, ':') + tail
  {
    if |parts| > 1 && tail != "" {
      JoinAppend(parts[1..], tail);
      assert Append(parts, tail)[1..] == Append(parts[1..], tail);
    }
  }

  function AppendForm(form: Form, tail: string): Form {
    match form
    case Full(parts) => Full(Append(parts, tail))
    case Short(left, right) => Short(left, Append(right, tail))
  }

  lemma AppendText(form: Form, tail: string)
    ensures AppendForm(form, tail).Text() == form.Text() + tail
  {
    hide Join, Append;
    match form {
      case Full(parts) => JoinAppend(parts, tail);
      case Short(left, right) => JoinAppend(right, tail);
    }
  }

  lemma AppendPlain(parts: seq<string>, tail: string)
    requires Plain(parts) && ':' !in tail
    ensures Plain(Append(parts, tail))
  {
  }

  lemma ExpandParts(parts: seq<string>, tail: string)
    requires forall k :: 0 <= k < |parts| ==> IsPiece(parts[k])
    requires parts != [] || tail == ""
    requires tail == "" || tail[0] == '%'
    ensures ExpandAll(LowerAll(Append(parts, tail))) == Shown(Somes(ReadAll(parts)))
  {
    hide IsPiece, Expand, Lower, ReadPiece;
    forall k | 0 <= k < |parts| ensures Expand(Lower(Append(parts, tail)[k])) == Dec(ReadPiece(parts[k])) {
      if k == |parts| - 1 && tail != "" {
        ExpandPiece(parts[k], tail);
      } else {
        assert parts[k] + "" == parts[k];
        ExpandPiece(parts[k], "");
      }
    }
  }

  /** The pieces of a lower-case text with the gap filled in, as the normaliser joins them. */
  function Filled(lower: Form): seq<string> {
    match lower
    case Full(parts) => parts
    case Short(left, right) => left + Zeros(8 - |left| - |right|) + right
  }

  lemma NormalizesByForm(s: string, lower: Form)
    requires Mapped(s).None? && PlainForm(lower) && Lower(s) == lower.Text()
    ensures NormalizeIPv6(s) == Join(ExpandAll(Filled(lower)), ':')
  {
    hide Mapped, Lower, DoubleColon, Join, Plain, ExpandAll, Pieces, Zeros;
    match lower {
      case Full(parts) =>
        PiecesOfJoin(parts);
        FullOfText(parts);
      case Short(left, right) =>
        CompressedCut(left, right);
        PiecesOfJoin(left);
        PiecesOfJoin(right);
        assert Join(right, ':')[..|Join(right, ':')|] == Join(right, ':');
    }
  }

  lemma ExpandZero()
    ensures Expand("0") == "0"
  {
    assert "0" + "" == "0" && "0"[..0] == "";
    ExpandLead("0", "");
  }

  lemma ExpandZeros(n: nat)
    ensures ExpandAll(Zeros(n)) == Shown(Somes(ZeroGroups(n)))
  {
    assert Expand("0") == "0" by { ExpandZero(); }
  }

  lemma ExpandConcat(a: seq<string>, b: seq<string>)
    ensures ExpandAll(a + b) == ExpandAll(a) + ExpandAll(b)
  {
  }

  lemma ShownSomesConcat(a: seq<nat>, b: seq<nat>)
    ensures Shown(Somes(a + b)) == Shown(Somes(a)) + Shown(Somes(b))
  {
  }

  lemma ShownConcat(a: seq<Option<nat>>, b: seq<Option<nat>>)
    ensures Shown(a + b) == Shown(a) + Shown(b)
  {
  }

  lemma ExpandFilled(form: Form, zone: Option<string>)
    requires form.Valid()
    ensures ExpandAll(Filled(LowerForm(AppendForm(form, Zoned(zone))))) == Shown(Kept(form, zone.Some?))
  {
    hide AllGroups, AllPieces, IsPiece, ExpandAll, Shown, Somes, ReadAll, LowerAll, ZeroGroups, Zeros, Append;
    match form {
      case Full(parts) =>
        PiecesArePieces(parts);
        ExpandParts(parts, Zoned(zone));
      case Short(left, right) =>
        ExpandShortForm(left, right, zone);
    }
  }

  lemma ExpandShortForm(left: seq<string>, right: seq<string>, zone: Option<string>)
    requires Short(left, right).Valid()
    ensures ExpandAll(Filled(LowerForm(Short(left, Append(right, Zoned(zone))))))
         == Shown(Kept(Short(left, right), zone.Some?))
  {
    hide AllGroups, AllPieces, HasTail, IsPiece, ExpandAll, Shown, Somes, ReadAll, ZeroGroups, Zeros, Append, LowerAll;
    GroupsArePieces(left);
    PiecesArePieces(right);
    ExpandParts(left, "");
    AppendNothing(left);
    if zone.Some? && right == [] {
      AppendMark(zone.value);
      ExpandMarked(left, zone.value);
    } else {
      AppendLength(right, Zoned(zone));
      ExpandShort(left, right, Zoned(zone));
    }
  }

  lemma AppendNothing(parts: seq<string>)
    ensures Append(parts, "") == parts
  {
  }

  lemma AppendMark(zone: string)
    ensures Append([], "%" + zone) == ["%" + zone]
  {
  }

  lemma AppendLength(parts: seq<string>, tail: string)
    requires parts != [] || tail == ""
    ensures |Append(parts, tail)| == |parts|
  {
  }

  lemma ExpandMarked(left: seq<string>, zone: string)
    requires |left| <= 7
    requires ExpandAll(LowerAll(left)) == Shown(Somes(ReadAll(left)))
    ensures ExpandAll(LowerAll(left) + Zeros(7 - |left|) + LowerAll(["%" + zone]))
         == Shown(Somes(ReadAll(left) + ZeroGroups(7 - |left|)) + [None])
  {
    hide Shown, Somes, ReadAll, Expand, Lower;
    ExpandConcat(LowerAll(left) + Zeros(7 - |left|), LowerAll(["%" + zone]));
    ExpandConcat(LowerAll(left), Zeros(7 - |left|));
    ExpandZeros(7 - |left|);
    ExpandMark(zone);
    ShownConcat(Somes(ReadAll(left) + ZeroGroups(7 - |left|)), [None]);
    ShownSomesConcat(ReadAll(left), ZeroGroups(7 - |left|));
    assert ExpandAll(LowerAll(["%" + zone])) == ["NaN"] == Shown([None]);
  }

  lemma ExpandShort(left: seq<string>, right: seq<string>, tail: string)
    requires |left| + |right| <= 8 && (right != [] || tail == "") && (tail == "" || tail[0] == '%')
    requires forall k :: 0 <= k < |right| ==> IsPiece(right[k])
    requires ExpandAll(LowerAll(left)) == Shown(Somes(ReadAll(left)))
    ensures ExpandAll(LowerAll(left) + Zeros(8 - |left| - |right|) + LowerAll(Append(right, tail)))
         == Shown(Somes(ReadAll(left) + ZeroGroups(8 - |left| - |right|) + ReadAll(right)))
  {
    hide Shown, Somes, ReadAll, ExpandAll, LowerAll, IsPiece, Zeros, ZeroGroups;
    var n := 8 - |left| - |right|;
    ExpandConcat(LowerAll(left) + Zeros(n), LowerAll(Append(right, tail)));
    ExpandConcat(LowerAll(left), Zeros(n));
    ExpandZeros(n);
    ExpandParts(right, tail);
    ShownSomesConcat(ReadAll(left) + ZeroGroups(n), ReadAll(right));
    ShownSomesConcat(ReadAll(left), ZeroGroups(n));
  }
}
