/** Address texts as `isIP` accepts them: dotted IPv4, and the three forms of IPv6 text with an optional zone. */
module AddressText {
  import opened Text

  // ----- Characters -------------------------------------------------------------------------------

  predicate IsHex(c: char) {
    IsDigit(c) || 'a' <= c <= 'f' || 'A' <= c <= 'F'
  }

  predicate AllHex(s: string) {
    forall k :: 0 <= k < |s| ==> IsHex(s[k])
  }

  function HexDigit(c: char): nat {
    if IsDigit(c) then c as int - '0' as int
    else if 'a' <= c <= 'f' then c as int - 'a' as int + 10
    else if 'A' <= c <= 'F' then c as int - 'A' as int + 10
    else 0
  }

  function HexValue(s: string): nat {
    if s == "" then 0 else 16 * HexValue(s[..|s| - 1]) + HexDigit(s[|s| - 1])
  }

  /** Everything an address text is made of: no space and no bracket. */
  predicate IsAddressChar(c: char) {
    IsDigit(c) || 'a' <= c <= 'z' || 'A' <= c <= 'Z' || c == '.' || c == ':' || c == '-' || c == '%'
  }

  predicate AllAddressChars(s: string) {
    forall k :: 0 <= k < |s| ==> IsAddressChar(s[k])
  }

  // ----- Dotted addresses and groups ----------------------------------------------------------------

  predicate IsOctet(s: string) {
    1 <= |s| <= 3 && AllDigits(s) && (|s| == 1 || s[0] != '0') && DecValue(s) <= 255
  }

  predicate IsIPv4(s: string) {
    var parts := Split(s, '.');
    |parts| == 4 && forall k :: 0 <= k < 4 ==> IsOctet(parts[k])
  }

  predicate IsGroup(s: string) {
    1 <= |s| <= 4 && AllHex(s)
  }

  predicate AllGroups(parts: seq<string>) {
    forall k :: 0 <= k < |parts| ==> IsGroup(parts[k])
  }

  /** The last piece of form 3 is a dotted address, which stands for two groups. */
  predicate HasTail(parts: seq<string>) {
    parts != [] && IsIPv4(parts[|parts| - 1])
  }

  function Heads(parts: seq<string>): seq<string> {
    if HasTail(parts) then parts[..|parts| - 1] else parts
  }

  predicate AllPieces(parts: seq<string>) {
    AllGroups(Heads(parts))
  }

  function Width(parts: seq<string>): nat {
    if HasTail(parts) then |parts| + 1 else |parts|
  }

  // ----- The groups a text denotes --------------------------------------------------------------------

  function Values(parts: seq<string>): (values: seq<nat>)
    ensures |values| == |parts| && forall k :: 0 <= k < |parts| ==> values[k] == HexValue(parts[k])
  {
    seq(|parts|, k requires 0 <= k < |parts| => HexValue(parts[k]))
  }

  function Octets(parts: seq<string>): (octets: seq<nat>)
    ensures |octets| == |parts| && forall k :: 0 <= k < |parts| ==> octets[k] == DecValue(parts[k])
  {
    seq(|parts|, k requires 0 <= k < |parts| => DecValue(parts[k]))
  }

  /** Two octets to a group. */
  function TailGroups(dotted: string): (groups: seq<nat>)
    requires IsIPv4(dotted)
    ensures |groups| == 2
  {
    var octets := Octets(Split(dotted, '.'));
    [256 * octets[0] + octets[1], 256 * octets[2] + octets[3]]
  }

  function Denoted(parts: seq<string>): (groups: seq<nat>)
    ensures |groups| == Width(parts)
  {
    if HasTail(parts) then Values(Heads(parts)) + TailGroups(parts[|parts| - 1]) else Values(parts)
  }

  function ZeroGroups(n: nat): (zeros: seq<nat>)
    ensures |zeros| == n && forall k :: 0 <= k < n ==> zeros[k] == 0
  {
    seq(n, k => 0)
  }

  /** The forms of section 2.2 of RFC 4291: eight groups' worth of pieces, or fewer around one `::`. */
  datatype Form = Full(parts: seq<string>) | Short(left: seq<string>, right: seq<string>) {
    predicate Valid() {
      match this
      case Full(parts) => AllPieces(parts) && Width(parts) == 8
      case Short(left, right) => AllGroups(left) && AllPieces(right) && |left| + Width(right) <= 7
    }

    function Text(): string {
      match this
      case Full(parts) => Join(parts, ':')
      case Short(left, right) => Join(left, ':') + "::" + Join(right, ':')
    }

    /** The pieces after `::`, or all of them. */
    function Last(): seq<string> {
      match this
      case Full(parts) => parts
      case Short(_, right) => right
    }

    /** The eight groups of the address, `::` standing for as many zero groups as are missing. */
    function Groups(): (groups: seq<nat>)
      requires Valid()
      ensures |groups| == 8
    {
      match this
      case Full(parts) => Denoted(parts)
      case Short(left, right) => Values(left) + ZeroGroups(8 - |left| - Width(right)) + Denoted(right)
    }
  }

  // ----- isIP -------------------------------------------------------------------------------------------

  /** Where the first `::` starts, or the length when there is none. */
  function DoubleColon(s: string): (i: nat)
    ensures i <= |s|
    ensures i < |s| ==> i + 1 < |s| && s[i] == ':' && s[i + 1] == ':'
    ensures forall k :: 0 <= k < i && k + 1 < |s| ==> !(s[k] == ':' && s[k + 1] == ':')
  {
    if |s| < 2 then |s|
    else if s[0] == ':' && s[1] == ':' then 0
    else 1 + DoubleColon(s[1..])
  }

  /** `"" -> []`, otherwise the colon-separated pieces. */
  function Pieces(s: string): seq<string> {
    if s == "" then [] else Split(s, ':')
  }

  function FormOf(s: string): Form {
    var cut := DoubleColon(s);
    if cut == |s| then Full(Split(s, ':')) else Short(Pieces(s[..cut]), Pieces(s[cut + 2..]))
  }

  predicate IsZoneChar(c: char) {
    IsAddressChar(c) && c != '%'
  }

  predicate IsZone(zone: string) {
    zone != "" && forall k :: 0 <= k < |zone| ==> IsZoneChar(zone[k])
  }

  function Zoned(zone: Option<string>): string {
    if zone.None? then "" else "%" + zone.value
  }

  predicate ZoneFits(zone: Option<string>) {
    zone.Some? ==> IsZone(zone.value)
  }

  predicate IsIPv6(s: string) {
    var percent := IndexOf(s, '%');
    FormOf(s[..percent]).Valid() && (percent < |s| ==> IsZone(s[percent + 1..]))
  }

  // ----- Pieces and joins -------------------------------------------------------------------------------

  predicate Plain(parts: seq<string>) {
    forall k :: 0 <= k < |parts| ==> parts[k] != "" && ':' !in parts[k]
  }

  /** Joined plain parts start and end with no colon and never put two colons together. */
  lemma {:induction false} JoinedPlain(parts: seq<string>)
    requires parts != [] && Plain(parts)
    ensures var s := Join(parts, ':');
            && s != "" && s[0] != ':' && s[|s| - 1] != ':'
            && DoubleColon(s) == |s|
  {
    if |parts| > 1 {
      JoinedPlain(parts[1..]);
      var rest := Join(parts[1..], ':');
      var s := parts[0] + [':'] + rest;
      forall k | 0 <= k < |s| - 1 ensures !(s[k] == ':' && s[k + 1] == ':') {
        if k > |parts[0]| {
          assert s[k] == rest[k - |parts[0]| - 1] && s[k + 1] == rest[k - |parts[0]|];
        }
      }
    }
  }

  lemma PiecesOfJoin(parts: seq<string>)
    requires Plain(parts)
    ensures Pieces(Join(parts, ':')) == parts && DoubleColon(Join(parts, ':')) == |Join(parts, ':')|
  {
    if parts != [] {
      JoinedPlain(parts);
      SplitJoin(parts, ':');
    }
  }

  lemma CompressedCut(left: seq<string>, right: seq<string>)
    requires Plain(left)
    ensures var s := Join(left, ':') + "::" + Join(right, ':');
            && DoubleColon(s) == |Join(left, ':')|
            && s[..DoubleColon(s)] == Join(left, ':')
            && s[DoubleColon(s) + 2..] == Join(right, ':')
  {
    var head := Join(left, ':');
    var s := head + "::" + Join(right, ':');
    if left != [] { JoinedPlain(left); }
    assert s[|head|] == ':' && s[|head| + 1] == ':';
    forall k | 0 <= k < |head| ensures !(s[k] == ':' && s[k + 1] == ':') {
      assert s[k] == head[k] && (k + 1 < |head| ==> s[k + 1] == head[k + 1]);
    }
  }

  /** Texts of plain parts are read back into those parts. */
  predicate PlainForm(form: Form) {
    match form
    case Full(parts) => parts != [] && Plain(parts)
    case Short(left, right) => Plain(left) && Plain(right)
  }

  lemma FormOfText(form: Form)
    requires PlainForm(form)
    ensures FormOf(form.Text()) == form
  {
    hide DoubleColon, Join, Plain;
    if form.Full? {
      FullOfText(form.parts);
    } else {
      CompressedCut(form.left, form.right);
      PiecesOfJoin(form.left);
      PiecesOfJoin(form.right);
    }
  }

  lemma FullOfText(parts: seq<string>)
    requires parts != [] && Plain(parts)
    ensures FormOf(Join(parts, ':')) == Full(parts)
  {
    JoinedPlain(parts);
    PiecesOfJoin(parts);
  }

  lemma TextOfForm(s: string)
    ensures FormOf(s).Text() == s
  {
    hide DoubleColon, Join;
    var cut := DoubleColon(s);
    if cut == |s| {
      JoinSplit(s, ':');
    } else {
      JoinPieces(s[..cut]);
      JoinPieces(s[cut + 2..]);
      assert s == s[..cut] + "::" + s[cut + 2..];
    }
  }

  lemma JoinPieces(s: string)
    ensures Join(Pieces(s), ':') == s
  {
    JoinSplit(s, ':');
  }

  // ----- Characters of a form -----------------------------------------------------------------------------

  /** Dotted texts hold digits and dots only. */
  lemma DottedChars(s: string, c: char)
    requires IsIPv4(s) && c in s
    ensures IsDigit(c) || c == '.'
  {
    JoinSplit(s, '.');
    JoinChars(Split(s, '.'), '.', c);
  }

  /** A piece: a group or a dotted address. */
  predicate IsPiece(s: string) {
    IsGroup(s) || IsIPv4(s)
  }

  lemma PieceChars(s: string)
    requires IsPiece(s)
    ensures s != "" && forall k :: 0 <= k < |s| ==> IsHex(s[k]) || s[k] == '.'
  {
    if IsIPv4(s) {
      forall k | 0 <= k < |s| ensures IsHex(s[k]) || s[k] == '.' { DottedChars(s, s[k]); }
    }
  }

  lemma PiecesArePieces(parts: seq<string>)
    requires AllPieces(parts)
    ensures Plain(parts) && forall k :: 0 <= k < |parts| ==> IsPiece(parts[k])
  {
    hide IsGroup, IsIPv4;
    forall k | 0 <= k < |parts| ensures IsPiece(parts[k]) && parts[k] != "" && ':' !in parts[k] {
      assert k < |Heads(parts)| ==> Heads(parts)[k] == parts[k];
      PieceChars(parts[k]);
    }
  }

  lemma GroupsArePieces(parts: seq<string>)
    requires AllGroups(parts)
    ensures Plain(parts) && forall k :: 0 <= k < |parts| ==> IsPiece(parts[k])
  {
  }

  lemma ValidIsPlain(form: Form)
    requires form.Valid()
    ensures PlainForm(form)
  {
    hide AllGroups, AllPieces, Plain;
    if form.Full? {
      PiecesArePieces(form.parts);
    } else {
      GroupsArePieces(form.left);
      PiecesArePieces(form.right);
    }
  }

  lemma PartsChars(parts: seq<string>, c: char)
    requires forall k :: 0 <= k < |parts| ==> IsPiece(parts[k])
    requires c in Join(parts, ':')
    ensures IsHex(c) || c == '.' || c == ':'
  {
    hide IsPiece, IsHex;
    JoinChars(parts, ':', c);
    if c != ':' {
      var k :| 0 <= k < |parts| && c in parts[k];
      PieceChars(parts[k]);
    }
  }

  lemma FormChars(form: Form, c: char)
    requires form.Valid() && c in form.Text()
    ensures IsHex(c) || c == '.' || c == ':'
  {
    hide AllGroups, AllPieces, Join, IsPiece;
    if form.Full? {
      PiecesArePieces(form.parts);
      PartsChars(form.parts, c);
    } else {
      GroupsArePieces(form.left);
      PiecesArePieces(form.right);
      if c in Join(form.left, ':') {
        PartsChars(form.left, c);
      } else if c in Join(form.right, ':') {
        PartsChars(form.right, c);
      }
    }
  }

  // ----- IPv6 texts are the forms with a zone ---------------------------------------------------------------

  lemma {:induction false} FormAccepted(form: Form, zone: Option<string>)
    requires form.Valid() && ZoneFits(zone)
    ensures IsIPv6(form.Text() + Zoned(zone))
  {
    hide IsHex, Form.Valid, Form.Text, FormOf, IsZone, PlainForm;
    var text := form.Text();
    var s := text + Zoned(zone);
    ValidIsPlain(form);
    FormOfText(form);
    if '%' in text {
      FormChars(form, '%');
      PercentIsNoHex();
    }
    assert s[..|text|] == text;
    IndexOfUnique(s, '%', |text|);
    if zone.Some? { assert s[|text| + 1..] == zone.value; }
  }

  lemma PercentIsNoHex()
    ensures !IsHex('%') && !IsHex('.')
  {
  }

  /** Reading back gives the one form and zone a text has. */
  lemma AcceptedForm(s: string) returns (form: Form, zone: Option<string>)
    requires IsIPv6(s)
    ensures form.Valid() && ZoneFits(zone) && s == form.Text() + Zoned(zone)
  {
    hide Form.Text, FormOf, Form.Valid;
    var percent := IndexOf(s, '%');
    form := FormOf(s[..percent]);
    TextOfForm(s[..percent]);
    zone := if percent < |s| then Some(s[percent + 1..]) else None;
    if percent < |s| { assert s == s[..percent] + "%" + s[percent + 1..]; }
  }

  lemma {:induction false} IPv6Chars(s: string)
    requires IsIPv6(s)
    ensures s != "" && AllAddressChars(s) && ':' in s
  {
    hide IsIPv6, Form.Text, IsHex;
    var form, zone := AcceptedForm(s);
    var text := form.Text();
    forall k | 0 <= k < |s| ensures IsAddressChar(s[k]) {
      if k < |text| {
        assert s[k] == text[k];
        FormChars(form, text[k]);
        HexIsAddressChar(text[k]);
      } else if k > |text| {
        assert s[k] == zone.value[k - |text| - 1];
      }
    }
    FormHasColon(form);
  }

  lemma HexIsAddressChar(c: char)
    requires IsHex(c) || c == '.' || c == ':'
    ensures IsAddressChar(c)
  {
  }

  lemma FormHasColon(form: Form)
    requires form.Valid()
    ensures ':' in form.Text()
  {
    match form {
      case Full(parts) =>
        assert Join(parts, ':') == parts[0] + [':'] + Join(parts[1..], ':');
        assert Join(parts, ':')[|parts[0]|] == ':';
      case Short(left, right) =>
        assert form.Text()[|Join(left, ':')|] == ':';
    }
  }
}
