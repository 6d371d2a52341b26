/**
 * The laws of client addresses: exactly the grammar is accepted, two texts meet exactly when they are read alike, and
 * spellings in forms 1 and 2 are read as their own address; a dotted tail or a zone may not be.
 */
module AddressReadings {
  import opened Text
  import opened AddressText
  import opened ClientAddress

  // ----- Dotted addresses --------------------------------------------------------------------------------

  lemma OctetOfDec(n: nat)
    requires n < 256
    ensures IsOctet(Dec(n))
  {
    DecValueOfDec(n);
    DecNoLeadingZero(n);
    assert n >= 10 ==> Dec(n) == Dec(n / 10) + [Digit(n % 10)];
    assert n >= 100 ==> Dec(n / 10) == Dec(n / 100) + [Digit(n / 10 % 10)];
  }

  /** Accepted IPv4 text is the canonical text of its address. */
  lemma DottedText(s: string) returns (octets: seq<nat>)
    requires IsIPv4(s)
    ensures V4(octets).Valid() && s == V4(octets).Text() && octets == Octets(Split(s, '.'))
  {
    var parts := Split(s, '.');
    JoinSplit(s, '.');
    octets := Octets(parts);
    forall k | 0 <= k < 4 ensures Dec(DecValue(parts[k])) == parts[k] { DecOfDecValue(parts[k]); }
    assert Decs(octets) == parts;
  }

  lemma TextIsDotted(octets: seq<nat>)
    requires V4(octets).Valid()
    ensures IsIPv4(V4(octets).Text())
  {
    var parts := Decs(octets);
    DecsFree(octets, '.');
    SplitJoin(parts, '.');
    forall k | 0 <= k < 4 ensures IsOctet(parts[k]) { OctetOfDec(octets[k]); }
  }

  lemma NoColonNoIPv6(s: string)
    requires ':' !in s
    ensures !IsIPv6(s) && WithPort(s).None?
  {
    if IsIPv6(s) { IPv6Chars(s); }
  }

  lemma PortIsNotIPv6(s: string, port: string)
    requires IsIPv4(s) && IsPort(port)
    ensures !IsIPv6(s + ":" + port)
  {
    hide IsIPv4;
    var t := s + ":" + port;
    forall k | 0 <= k < |s| ensures s[k] != ':' && s[k] != '%' { DottedChars(s, s[k]); }
    forall k | 0 <= k < |t| ensures t[k] != '%' {
      assert t[k] == if k < |s| then s[k] else if k == |s| then ':' else port[k - |s| - 1];
    }
    IndexOfUnique(t, '%', |t|);
    assert t[..|t|] == t;
    SplitPart(s, ':', port);
    SplitPart(port, ':', "");
    assert forall k :: 0 <= k < |t| && t[k] == ':' ==> k == |s|;
    assert Split(t, ':') == [s] + [port];
  }

  lemma PortIsNotDotted(s: string, port: string)
    requires IsIPv4(s) && IsPort(port)
    ensures !IsIPv4(s + ":" + port) && WithPort(s + ":" + port) == Some(s)
  {
    hide IsIPv4;
    var t := s + ":" + port;
    PieceChars(s);
    forall k | 0 <= k < |s| ensures s[k] != ':' { DottedChars(s, s[k]); }
    assert t[..|s|] == s && t[|s|] == ':' && t[|s| + 1..] == port;
    IndexOfUnique(t, ':', |s|);
    if IsIPv4(t) { DottedChars(t, t[|s|]); }
  }

  // ----- The mapped form -----------------------------------------------------------------------------------

  lemma LowerFs(f: string)
    requires Lower(f) == "ffff"
    ensures IsGroup(f)
  {
    forall k | 0 <= k < 4 ensures IsHex(f[k]) { assert LowerChar(f[k]) == "ffff"[k] == 'f'; }
  }

  function MappedForm(f: string, dotted: string): Form {
    Short([], [f, dotted])
  }

  lemma MappedFormFits(f: string, dotted: string)
    requires Lower(f) == "ffff" && IsIPv4(dotted)
    ensures var form := MappedForm(f, dotted);
            && form.Valid() && IsMapped(form) && form.Text() == "::" + f + ":" + dotted
            && Mapped(form.Text()) == Some(dotted)
  {
    hide IsIPv4, IsGroup;
    LowerFs(f);
    PieceChars(dotted);
    assert |f| == |Lower(f)| == 4;
    var parts := [f, dotted];
    assert Heads(parts) == [f];
    assert Join(parts[1..], ':') == dotted;
    var s := "::" + f + ":" + dotted;
    assert Join([], ':') + "::" == "::";
    assert s == "::" + Join(parts, ':');
    assert s[2..6] == f && s[7..] == dotted && s[..2] == "::";
  }

  /** The pattern for mapped addresses finds exactly the form it is named after. */
  lemma MappedExactly(form: Form, zone: Option<string>)
    requires form.Valid() && ZoneFits(zone)
    ensures Mapped(form.Text() + Zoned(zone)).Some? <==> IsMapped(form) && zone.None?
  {
    hide IsIPv4, Form.Text, Form.Valid, Mapped, FormOf;
    var s := form.Text() + Zoned(zone);
    if Mapped(s).Some? {
      MappedParts(s);
      MappedFormFits(s[2..6], s[7..]);
      if zone.Some? {
        assert s[|form.Text()|] == '%';
        NoPercent(s);
      }
      assert s == form.Text();
      ValidIsPlain(form);
      ValidIsPlain(MappedForm(s[2..6], s[7..]));
      FormOfText(form);
      FormOfText(MappedForm(s[2..6], s[7..]));
    }
    if IsMapped(form) && zone.None? {
      assert form == MappedForm(form.right[0], form.right[1]);
      MappedFormFits(form.right[0], form.right[1]);
      assert s == form.Text();
    }
  }

  lemma MappedParts(s: string)
    requires Mapped(s).Some?
    ensures Lower(s[2..6]) == "ffff" && IsIPv4(s[7..]) && Mapped(s).value == s[7..]
    ensures s == "::" + s[2..6] + ":" + s[7..]
  {
    assert s == s[..2] + s[2..6] + [s[6]] + s[7..];
  }

  lemma NoPercent(s: string)
    requires Mapped(s).Some?
    ensures '%' !in s
  {
    MappedParts(s);
    LowerFs(s[2..6]);
    if '%' in s[7..] { DottedChars(s[7..], '%'); }
  }

  // ----- Bare texts ------------------------------------------------------------------------------------------

  /** Every form with a colon-free zone, the mapped form alone excepted, normalises to what is kept of it. */
  lemma FormNormalizes(s: string, form: Form, zone: Option<string>)
    requires WritesForm(s, form, zone)
    ensures IsIPv6(s) && NormalizeIPv6(s) == Numbers(Kept(form, zone.Some?)).Text()
  {
    hide Form.Text, Form.Valid, Mapped, IsMapped, Lower, NormalizeIPv6, IsIPv6, Append, LowerAll, Filled, PlainForm;
    FormAccepted(form, zone);
    MappedExactly(form, zone);
    var tail := Zoned(zone);
    var whole := AppendForm(form, tail);
    AppendText(form, tail);
    LowerText(whole);
    ValidIsPlain(form);
    AppendedPlain(form, zone);
    NormalizesByForm(s, LowerForm(whole));
    ExpandFilled(form, zone);
  }

  lemma AppendedPlain(form: Form, zone: Option<string>)
    requires PlainForm(form) && (zone.Some? ==> ':' !in zone.value)
    ensures PlainForm(LowerForm(AppendForm(form, Zoned(zone))))
  {
    hide Plain, Append, LowerAll;
    var last := Append(form.Last(), Zoned(zone));
    AppendPlain(form.Last(), Zoned(zone));
    LowerPlain(last);
    AppendEmpty(form.Last(), Zoned(zone));
    if form.Short? { LowerPlain(form.left); }
  }

  lemma AppendEmpty(parts: seq<string>, tail: string)
    ensures parts != [] ==> |Append(parts, tail)| == |parts|
  {
  }

  lemma DottedIsCanonical(s: string, octets: seq<nat>)
    requires WritesDotted(s, octets)
    ensures CanonicalOf(s) == Some(Dotted(octets).Text())
  {
    hide IsIPv6, NormalizeIPv6, IsIPv4, WithPort, Mapped, Join;
    var text := V4(octets).Text();
    TextIsDotted(octets);
    if s == text {
      DottedHasNoColon(octets);
      NoColonNoIPv6(s);
    } else if port :| IsPort(port) && s == text + ":" + port {
      PortIsNotIPv6(text, port);
      PortIsNotDotted(text, port);
    } else {
      var f :| Lower(f) == "ffff" && s == "::" + f + ":" + text;
      MappedFormFits(f, text);
      FormAccepted(MappedForm(f, text), None);
      assert s + Zoned(None) == s;
      MappedIsItsTail(s);
    }
  }

  lemma MappedIsItsTail(s: string)
    requires Mapped(s).Some?
    ensures NormalizeIPv6(s) == Mapped(s).value
  {
  }

  /** What a bare text is read as has its canonical text. */
  lemma BareIsCanonical(s: string, reading: Reading)
    requires ReadsBare(s, reading)
    ensures CanonicalOf(s) == Some(reading.Text())
  {
    hide WritesDotted, Form.Text, Form.Valid, IsMapped, IsIPv6, NormalizeIPv6, IsIPv4, WithPort;
    if reading.Dotted? {
      DottedIsCanonical(s, reading.octets);
    } else {
      var form, zone :| WritesForm(s, form, zone) && reading.numbers == Kept(form, zone.Some?);
      FormNormalizes(s, form, zone);
    }
  }

  /** Bare texts are accepted exactly when they are written in the grammar. */
  lemma BareExactly(s: string)
    ensures CanonicalOf(s).Some? <==> WrittenBare(s)
  {
    hide IsIPv6, NormalizeIPv6, IsIPv4, Form.Valid, Form.Text;
    if IsIPv6(s) {
      var form, zone := AcceptedForm(s);
    } else if IsIPv4(s) {
      var octets := DottedText(s);
      assert WritesDotted(s, octets);
    } else if CanonicalOf(s).Some? {
      var colon := IndexOf(s, ':');
      var octets := DottedText(s[..colon]);
      assert s == s[..colon] + ":" + s[colon + 1..];
      assert WritesDotted(s, octets);
    } else if WrittenBare(s) {
      WrittenIsAccepted(s);
    }
  }

  lemma WrittenIsAccepted(s: string)
    requires WrittenBare(s)
    ensures CanonicalOf(s).Some?
  {
    hide IsIPv6, NormalizeIPv6, IsIPv4, Form.Valid, Form.Text, WritesDotted;
    if octets :| WritesDotted(s, octets) {
      DottedIsCanonical(s, octets);
    } else {
      var form: Form, zone :| form.Valid() && ZoneFits(zone) && s == form.Text() + Zoned(zone);
      FormAccepted(form, zone);
    }
  }

  /** Accepted bare texts hold no bracket and no space. */
  lemma BareChars(s: string)
    requires CanonicalOf(s).Some?
    ensures s != "" && AllAddressChars(s)
  {
    hide IsIPv6, NormalizeIPv6, IsIPv4, IsAddressChar;
    if IsIPv6(s) {
      IPv6Chars(s);
    } else if IsIPv4(s) {
      DottedAddressChars(s);
    } else {
      var colon := IndexOf(s, ':');
      DottedAddressChars(s[..colon]);
      forall k | 0 <= k < |s| ensures IsAddressChar(s[k]) {
        if k < colon { assert s[k] == s[..colon][k]; } else { PortChar(s, colon, k); }
      }
    }
  }

  lemma DottedAddressChars(s: string)
    requires IsIPv4(s)
    ensures s != "" && AllAddressChars(s)
  {
    PieceChars(s);
    forall k | 0 <= k < |s| ensures IsAddressChar(s[k]) { DottedChars(s, s[k]); }
  }

  lemma PortChar(s: string, colon: nat, k: nat)
    requires colon <= k < |s| && s[colon] == ':' && IsPort(s[colon + 1..])
    ensures IsAddressChar(s[k])
  {
    assert k > colon ==> s[k] == s[colon + 1..][k - colon - 1];
  }

  // ----- Brackets and space --------------------------------------------------------------------------------

  lemma BracketsFound(bare: string, tail: string)
    requires bare != "" && ']' !in bare && (tail == "" || (tail[0] == ':' && IsPort(tail[1..])))
    ensures Bracketed("[" + bare + "]" + tail) == Some(bare)
  {
    var host, close := "[" + bare + "]" + tail, 1 + |bare|;
    assert host[..close] == "[" + bare && host[close] == ']' && host[1..close] == bare;
    assert host[close + 1..] == tail;
    if tail != "" { assert host[close + 1] == ':' && host[close + 2..] == tail[1..]; }
    IndexOfUnique(host, ']', close);
  }

  lemma AddressCharIsPlain(c: char)
    requires IsAddressChar(c)
    ensures c != '[' && c != ']' && !IsSpace(c)
  {
  }

  lemma BracketsAreNoSpace()
    ensures !IsSpace('[') && !IsSpace(']')
  {
  }

  lemma DigitIsAddressChar(c: char)
    requires IsDigit(c)
    ensures IsAddressChar(c)
  {
  }

  /** A host's address is found through its brackets and port. */
  lemma HostIsBare(host: string, bare: string)
    requires bare != "" && AllAddressChars(bare) && IsHostOf(host, bare)
    ensures host != "" && !IsSpace(host[0]) && !IsSpace(host[|host| - 1])
    ensures (if Bracketed(host).Some? then Bracketed(host).value else host) == bare
  {
    hide IsSpace, IsAddressChar;
    forall k | 0 <= k < |bare| ensures bare[k] != ']' && bare[k] != '[' && !IsSpace(bare[k]) {
      AddressCharIsPlain(bare[k]);
    }
    if host != bare {
      BracketsAreNoSpace();
      if port :| IsPort(port) && host == "[" + bare + "]:" + port {
        assert host == "[" + bare + "]" + (":" + port) && (":" + port)[1..] == port;
        BracketsFound(bare, ":" + port);
        assert host[|host| - 1] == port[|port| - 1];
        DigitIsAddressChar(host[|host| - 1]);
        AddressCharIsPlain(host[|host| - 1]);
      } else {
        assert host == "[" + bare + "]" + "";
        BracketsFound(bare, "");
        assert host[|host| - 1] == ']';
      }
    }
  }

  /** Space, brackets and port make no difference. */
  lemma DressedIsBare(raw: string, bare: string)
    requires Dresses(raw, bare) && CanonicalOf(bare).Some?
    ensures Canonical(raw) == CanonicalOf(bare)
  {
    hide IsHostOf, CanonicalOf, Bracketed, AllSpace, IsSpace, TrimStart, TrimEnd;
    var before, host, after :|
      AllSpace(before) && AllSpace(after) && IsHostOf(host, bare) && raw == before + host + after;
    BareChars(bare);
    HostIsBare(host, bare);
    assert raw == before + (host + after);
    TrimStartPads(before, host + after);
    TrimEndPads(host, after);
  }

  lemma AcceptedIsDressed(raw: string) returns (bare: string)
    requires Canonical(raw).Some?
    ensures Dresses(raw, bare) && CanonicalOf(bare).Some?
  {
    hide CanonicalOf, AllSpace, IsSpace, TrimStart, TrimEnd, IsPort, IsHostOf, Bracketed;
    var before := TrimStartDrops(raw);
    var after := TrimEndDrops(TrimStart(raw));
    var host := Trim(raw);
    bare := if Bracketed(host).Some? then Bracketed(host).value else host;
    assert raw == before + host + after;
    HostSpelled(host);
  }

  lemma HostSpelled(host: string)
    ensures IsHostOf(host, if Bracketed(host).Some? then Bracketed(host).value else host)
  {
    hide IsPort;
    if Bracketed(host).Some? {
      var close := IndexOf(host, ']');
      assert host == "[" + host[1..close] + "]" + host[close + 1..];
      if host[close + 1..] != "" {
        assert host[close + 1..] == ":" + host[close + 2..];
        assert host == "[" + host[1..close] + "]:" + host[close + 2..];
      }
    }
  }

  // ----- Acceptance and meeting ----------------------------------------------------------------------------

  /** Exactly the texts written in the grammar are accepted. */
  lemma AcceptedExactly(raw: string)
    ensures Canonical(raw).Some? <==> Written(raw)
  {
    hide Canonical, CanonicalOf, Dresses, WrittenBare;
    if Canonical(raw).Some? {
      var bare := AcceptedIsDressed(raw);
      BareExactly(bare);
    } else if Written(raw) {
      var bare :| Dresses(raw, bare) && WrittenBare(bare);
      BareExactly(bare);
      DressedIsBare(raw, bare);
    }
  }

  /** What a text is read as gives its canonical text. */
  lemma CanonicalOfReading(raw: string, reading: Reading)
    requires Reads(raw, reading)
    ensures Canonical(raw) == Some(reading.Text())
  {
    hide Canonical, CanonicalOf, Dresses, ReadsBare, Reading.Text;
    var bare :| Dresses(raw, bare) && ReadsBare(bare, reading);
    BareIsCanonical(bare, reading);
    DressedIsBare(raw, bare);
  }

  predicate HasColonZone(s: string, form: Form, zone: string) {
    form.Valid() && IsZone(zone) && ':' in zone && s == form.Text() + "%" + zone
  }

  /** Every accepted text is read as something, except under a zone that itself holds a colon. */
  lemma AcceptedIsRead(raw: string) returns (bare: string)
    requires Canonical(raw).Some?
    ensures Dresses(raw, bare)
    ensures (exists reading :: ReadsBare(bare, reading)) || exists form, zone :: HasColonZone(bare, form, zone)
  {
    hide Canonical, CanonicalOf, Dresses, WritesDotted, Form.Text, Form.Valid, IsMapped, Kept;
    bare := AcceptedIsDressed(raw);
    BareExactly(bare);
    if octets :| WritesDotted(bare, octets) {
      assert ReadsBare(bare, Dotted(octets));
    } else {
      var form: Form, zone :| form.Valid() && ZoneFits(zone) && bare == form.Text() + Zoned(zone);
      FormIsRead(bare, form, zone);
    }
  }

  lemma FormIsRead(s: string, form: Form, zone: Option<string>)
    requires form.Valid() && ZoneFits(zone) && s == form.Text() + Zoned(zone)
    ensures (exists reading :: ReadsBare(s, reading)) || exists f, z :: HasColonZone(s, f, z)
  {
    hide WritesDotted, Form.Text, Form.Valid, IsMapped, Kept;
    if zone.Some? && ':' in zone.value {
      assert s == form.Text() + "%" + zone.value;
      assert HasColonZone(s, form, zone.value);
    } else if IsMapped(form) && zone.None? {
      MappedIsDotted(form);
      assert s == form.Text();
    } else {
      assert WritesForm(s, form, zone);
      assert ReadsBare(s, Numbers(Kept(form, zone.Some?)));
    }
  }

  lemma MappedIsDotted(form: Form)
    requires IsMapped(form)
    ensures exists reading :: ReadsBare(form.Text(), reading)
  {
    hide IsIPv4, Form.Valid;
    var f, dotted := form.right[0], form.right[1];
    assert form == MappedForm(f, dotted);
    MappedFormFits(f, dotted);
    var octets := DottedText(dotted);
    assert WritesDotted(form.Text(), octets);
    assert ReadsBare(form.Text(), Dotted(octets));
  }

  lemma ReadingShape(raw: string, reading: Reading)
    requires Reads(raw, reading)
    ensures reading.Dotted? ==> reading.octets != []
    ensures reading.Numbers? ==> |reading.numbers| >= 2
  {
  }

  /** Two texts meet exactly when they are read alike. */
  lemma MeetExactly(raw1: string, r1: Reading, raw2: string, r2: Reading)
    requires Reads(raw1, r1) && Reads(raw2, r2)
    ensures Canonical(raw1) == Canonical(raw2) <==> r1 == r2
  {
    hide Reads, Canonical, Reading.Text;
    CanonicalOfReading(raw1, r1);
    CanonicalOfReading(raw2, r2);
    ReadingShape(raw1, r1);
    ReadingShape(raw2, r2);
    if r1.Text() == r2.Text() { ReadingInjective(r1, r2); }
  }

  // ----- Addresses read as themselves ------------------------------------------------------------------------

  lemma {:induction false} HexBound(s: string)
    requires |s| <= 4
    ensures HexValue(s) < if |s| == 0 then 1 else if |s| == 1 then 16 else if |s| == 2 then 256
                          else if |s| == 3 then 4096 else 65536
  {
    if s != "" { HexBound(s[..|s| - 1]); }
  }

  lemma GroupsRead(parts: seq<string>)
    requires AllGroups(parts)
    ensures ReadAll(parts) == Values(parts)
    ensures forall k :: 0 <= k < |parts| ==> Values(parts)[k] < 0x1_0000
  {
    hide HexValue;
    forall k | 0 <= k < |parts| ensures ReadPiece(parts[k]) == HexValue(parts[k]) < 0x1_0000 {
      SplitPart(parts[k], '.', "");
      HexBound(parts[k]);
    }
  }

  lemma SomesInjective(a: seq<nat>, b: seq<nat>)
    ensures Somes(a) == Somes(b) <==> a == b
  {
    if Somes(a) == Somes(b) {
      assert |a| == |Somes(a)| == |b|;
      forall k | 0 <= k < |a| ensures a[k] == b[k] { assert Somes(a)[k] == Somes(b)[k]; }
    }
  }

  /**
   * `0` shifted in before the groups after `::`, and the two groups of the tail read as one, change nothing
   * only at zero.
   */
  lemma {:induction false} ShiftedZeros(groups: seq<nat>, high: nat, low: nat, read: nat)
    requires groups + [high, low] == [0] + groups + [read]
    ensures high == 0 && low == read && forall k :: 0 <= k < |groups| ==> groups[k] == 0
  {
    var a, b := groups + [high, low], [0] + groups + [read];
    forall k | 0 <= k <= |groups| ensures a[k] == 0 { ShiftedZero(groups, a, b, k); }
    assert a[|groups|] == high && a[|groups| + 1] == low && b[|groups| + 1] == read;
    forall k | 0 <= k < |groups| ensures groups[k] == 0 { assert a[k] == groups[k]; }
  }

  lemma {:induction false} ShiftedZero(groups: seq<nat>, a: seq<nat>, b: seq<nat>, k: nat)
    requires |a| == |b| == |groups| + 2 && a == b && k <= |groups|
    requires b[0] == 0
    requires forall i :: 0 <= i < |groups| ==> a[i] == groups[i] && b[i + 1] == groups[i]
    ensures a[k] == 0
  {
    if k > 0 {
      ShiftedZero(groups, a, b, k - 1);
      assert a[k - 1] == groups[k - 1] && b[k - 1 + 1] == groups[k - 1];
    }
  }

  /** Everything written after `::` is zero. */
  predicate EndsInZeros(form: Form) {
    form.Short? && Denoted(form.right) == ZeroGroups(Width(form.right))
  }

  /** The guard: no zone straight after `::`, and a dotted tail only among zeros after `::`. */
  predicate KeepsAddress(form: Form, zone: Option<string>) {
    if HasTail(form.Last()) then EndsInZeros(form) else form.Full? || form.right != [] || zone.None?
  }

  lemma TailRead(dotted: string)
    requires IsIPv4(dotted)
    ensures TailGroups(dotted)[0] == 0 ==> ReadPiece(dotted) == 0
  {
    var parts := Split(dotted, '.');
    if TailGroups(dotted)[0] == 0 {
      assert Octets(parts)[0] == 0;
      assert IsOctet(parts[0]);
      DecOfDecValue(parts[0]);
      assert parts[0] == Dec(0) == "0";
      assert "0"[..0] == "";
    }
  }

  lemma TailSplit(parts: seq<string>) returns (groups: seq<nat>, tail: seq<nat>, read: nat)
    requires AllPieces(parts) && HasTail(parts)
    ensures |groups| + 1 == |parts| && |tail| == 2 && (tail[0] == 0 ==> read == 0)
    ensures ReadAll(parts) == groups + [read] && Denoted(parts) == groups + tail
  {
    hide ReadPiece, TailGroups, IsIPv4, HexValue, IsGroup;
    var heads, dotted := Heads(parts), parts[|parts| - 1];
    groups, tail, read := Values(heads), TailGroups(dotted), ReadPiece(dotted);
    TailRead(dotted);
    assert parts == heads + [dotted];
    GroupsRead(heads);
    forall k | 0 <= k < |heads| ensures ReadPiece(parts[k]) == Values(heads)[k] {
      assert ReadAll(heads)[k] == ReadPiece(heads[k]);
    }
  }

  lemma {:induction false} ShiftedTail(left: seq<nat>, gap: nat, groups: seq<nat>, tail: seq<nat>, read: nat)
    requires |tail| == 2 && (tail[0] == 0 ==> read == 0)
    ensures left + ZeroGroups(gap + 1) + (groups + [read]) == left + ZeroGroups(gap) + (groups + tail)
            <==> groups + tail == ZeroGroups(|groups| + 2)
  {
    var before := left + ZeroGroups(gap);
    var kept, own := before + ([0] + groups + [read]), before + (groups + tail);
    assert ZeroGroups(gap + 1) == ZeroGroups(gap) + [0];
    assert left + ZeroGroups(gap + 1) + (groups + [read]) == kept;
    assert tail == [tail[0], tail[1]];
    if kept == own {
      assert kept[|before|..] == [0] + groups + [read] && own[|before|..] == groups + tail;
      ShiftedZeros(groups, tail[0], tail[1], read);
    }
    if groups + tail == ZeroGroups(|groups| + 2) {
      ZeroParts(groups, tail);
      assert [0] + groups + [read] == groups + tail;
    }
  }

  lemma ZeroParts(groups: seq<nat>, tail: seq<nat>)
    requires |tail| == 2 && groups + tail == ZeroGroups(|groups| + 2)
    ensures tail[0] == tail[1] == 0 && forall k :: 0 <= k < |groups| ==> groups[k] == 0
  {
    forall k | 0 <= k < |groups| ensures groups[k] == 0 { assert (groups + tail)[k] == groups[k]; }
    assert (groups + tail)[|groups|] == tail[0] && (groups + tail)[|groups| + 1] == tail[1];
  }

  lemma ShortTailKept(left: seq<string>, right: seq<string>)
    requires Short(left, right).Valid() && HasTail(right)
    ensures Values(left) + ZeroGroups(8 - |left| - |right|) + ReadAll(right) == Short(left, right).Groups()
            <==> EndsInZeros(Short(left, right))
  {
    hide Values, Denoted, ReadAll, HasTail, ZeroGroups, AllGroups, AllPieces;
    var groups, tail, read := TailSplit(right);
    ShiftedTail(Values(left), 7 - |left| - |right|, groups, tail, read);
  }

  /** A form is read as the groups it denotes exactly under the guard. */
  lemma KeptIsItself(form: Form, zone: Option<string>)
    requires form.Valid()
    ensures Kept(form, zone.Some?) == Somes(form.Groups()) <==> KeepsAddress(form, zone)
  {
    hide AllGroups, AllPieces, IsIPv4, ReadAll, Values, Somes, TailGroups, ZeroGroups, Denoted;
    match form {
      case Full(parts) =>
        if HasTail(parts) { TailIsShort(parts); } else { GroupsOnly(parts); }
      case Short(left, right) =>
        ShortIsItself(left, right, zone);
    }
  }

  lemma ShortIsItself(left: seq<string>, right: seq<string>, zone: Option<string>)
    requires Short(left, right).Valid()
    ensures var form := Short(left, right);
            Kept(form, zone.Some?) == Somes(form.Groups()) <==> KeepsAddress(form, zone)
  {
    hide AllGroups, AllPieces, HasTail, EndsInZeros, Somes, Form.Groups, Kept;
    if HasTail(right) {
      ShortTailIsItself(left, right, zone);
    } else if zone.Some? && right == [] {
      MarkIsNoGroup(Short(left, right));
    } else {
      ShortHexIsItself(left, right, zone);
    }
  }

  lemma ShortTailIsItself(left: seq<string>, right: seq<string>, zone: Option<string>)
    requires Short(left, right).Valid() && HasTail(right)
    ensures var form := Short(left, right);
            Kept(form, zone.Some?) == Somes(form.Groups()) <==> EndsInZeros(form)
  {
    hide AllGroups, AllPieces, HasTail, EndsInZeros, Values, ReadAll, ZeroGroups, Somes, Form.Groups;
    GroupsRead(left);
    EmptyHasNoTail();
    ShortTailKept(left, right);
    SomesInjective(Values(left) + ZeroGroups(8 - |left| - |right|) + ReadAll(right), Short(left, right).Groups());
  }

  lemma ShortHexIsItself(left: seq<string>, right: seq<string>, zone: Option<string>)
    requires Short(left, right).Valid() && !HasTail(right) && (zone.None? || right != [])
    ensures Kept(Short(left, right), zone.Some?) == Somes(Short(left, right).Groups())
  {
    hide AllGroups, AllPieces, HasTail, Values, ReadAll, ZeroGroups, Somes, Denoted;
    GroupsRead(left);
    GroupsOnly(right);
  }

  lemma EmptyHasNoTail()
    ensures !HasTail([])
  {
  }

  /** Eight groups with a dotted tail are kept as seven numbers. */
  lemma TailIsShort(parts: seq<string>)
    requires Width(parts) == 8 && HasTail(parts)
    ensures Somes(ReadAll(parts)) != Somes(Denoted(parts))
  {
    assert |Somes(ReadAll(parts))| == 7 && |Somes(Denoted(parts))| == 8;
  }

  lemma GroupsOnly(parts: seq<string>)
    requires AllPieces(parts) && !HasTail(parts)
    ensures AllGroups(parts) && Denoted(parts) == Values(parts) == ReadAll(parts) && Width(parts) == |parts|
  {
    GroupsRead(parts);
  }

  lemma MarkIsNoGroup(form: Form)
    requires form.Valid() && form.Short? && form.right == []
    ensures Kept(form, true) != Somes(form.Groups())
  {
    assert Kept(form, true)[7] == None && Somes(form.Groups())[7] == Some(form.Groups()[7]);
  }

  /**
   * Written in any form with any colon-free zone, an address has its own canonical text exactly under the guard: not
   * with a zone straight after `::`, and not with a dotted tail unless everything after `::` is zero.
   */
  lemma KeepsItsAddress(form: Form, zone: Option<string>)
    requires form.Valid() && ZoneFits(zone) && (zone.Some? ==> ':' !in zone.value)
    ensures CanonicalOf(form.Text() + Zoned(zone)) == Some(V6(form.Groups()).Text()) <==> KeepsAddress(form, zone)
  {
    hide Form.Text, Form.Valid, Form.Groups, CanonicalOf, Kept, KeepsAddress, Reading.Text, Address.Text, IsMapped;
    var s, kept, own := form.Text() + Zoned(zone), Kept(form, zone.Some?), Somes(form.Groups());
    KeptIsItself(form, zone);
    ItselfText(V6(form.Groups()));
    if IsMapped(form) && zone.None? {
      MappedIsNotItself(form);
      assert s == form.Text();
    } else {
      assert WritesForm(s, form, zone);
      BareIsCanonical(s, Numbers(kept));
      KeptLength(form, zone);
      if Numbers(kept).Text() == Numbers(own).Text() { ReadingInjective(Numbers(kept), Numbers(own)); }
    }
  }

  lemma KeptLength(form: Form, zone: Option<string>)
    requires form.Valid()
    ensures |Kept(form, zone.Some?)| >= 2 && |Somes(form.Groups())| >= 2
  {
  }

  /** The mapped form is read as its dotted address, and denotes a group that is not zero. */
  lemma MappedIsNotItself(form: Form)
    requires form.Valid() && IsMapped(form)
    ensures CanonicalOf(form.Text()) != Some(V6(form.Groups()).Text()) && !KeepsAddress(form, None)
  {
    hide IsIPv4, CanonicalOf, Form.Valid, Reading.Text, Address.Text, TailGroups;
    var f, dotted := form.right[0], form.right[1];
    MappedFormFits(f, dotted);
    assert form == MappedForm(f, dotted);
    var octets := DottedText(dotted);
    assert WritesDotted(form.Text(), octets);
    DottedIsCanonical(form.Text(), octets);
    ItselfText(V6(form.Groups()));
    KeptLength(form, None);
    if Dotted(octets).Text() == Itself(V6(form.Groups())).Text() {
      ReadingInjective(Dotted(octets), Itself(V6(form.Groups())));
    }
    assert Heads(form.right) == [f];
    assert Denoted(form.right)[0] == HexValue(f);
    FsAreNotZero(f);
  }

  lemma FsAreNotZero(f: string)
    requires Lower(f) == "ffff"
    ensures HexValue(f) > 0
  {
    assert LowerChar(f[3]) == "ffff"[3] == 'f';
  }

  // ----- Spellings ------------------------------------------------------------------------------------------

  lemma SpellsReads(raw: string, a: Address)
    requires Spells(raw, a)
    ensures Reads(raw, Itself(a)) && a.Valid()
  {
    hide Dresses, WritesDotted, WritesForm, Form.Text, Form.Groups, Form.Valid, HasTail, Kept, Somes;
    var bare :| Dresses(raw, bare) && SpellsBare(bare, a);
    if a.V6? {
      var form :| IsHexForm(form) && bare == form.Text() && a.groups == form.Groups();
      HexFormReads(form);
    } else {
      DottedValid(bare, a.octets);
    }
    assert ReadsBare(bare, Itself(a));
  }

  lemma DottedValid(s: string, octets: seq<nat>)
    requires WritesDotted(s, octets)
    ensures V4(octets).Valid()
  {
  }

  lemma HexFormReads(form: Form)
    requires IsHexForm(form)
    ensures WritesForm(form.Text(), form, None) && Kept(form, false) == Somes(form.Groups())
    ensures V6(form.Groups()).Valid()
  {
    hide Form.Groups, Form.Valid, Form.Text, Kept, Somes, IsIPv4;
    KeptIsItself(form, None);
    assert form.Text() + Zoned(None) == form.Text();
    HexGroupsFit(form);
  }

  lemma HexGroupsFit(form: Form)
    requires IsHexForm(form)
    ensures V6(form.Groups()).Valid()
  {
    hide AllGroups, HexValue, HasTail;
    GroupsOnly(form.Last());
    GroupsRead(form.Last());
    if form.Short? { GroupsRead(form.left); }
  }

  /** Every spelling of an address has the address's own canonical text. */
  lemma CanonicalOfSpelling(raw: string, a: Address)
    requires Spells(raw, a)
    ensures Canonical(raw) == Some(a.Text())
  {
    hide Spells, Reads, Canonical, Reading.Text, Address.Text;
    SpellsReads(raw, a);
    CanonicalOfReading(raw, Itself(a));
    ItselfText(a);
  }

  /** One visitor is one canonical text: two spellings meet exactly when they spell the same address. */
  lemma CanonicalIsTheAddress(raw1: string, a1: Address, raw2: string, a2: Address)
    requires Spells(raw1, a1) && Spells(raw2, a2)
    ensures Canonical(raw1) == Canonical(raw2) <==> a1 == a2
  {
    hide Spells, Reads, Canonical, Address.Text;
    CanonicalOfSpelling(raw1, a1);
    CanonicalOfSpelling(raw2, a2);
    SpellsReads(raw1, a1);
    SpellsReads(raw2, a2);
    if a1.Text() == a2.Text() { TextInjective(a1, a2); }
  }

  // ----- The bucket ---------------------------------------------------------------------------------------

  /** The bucket is the digest of the first accepted hop, and there is none exactly when no hop is in the grammar. */
  lemma {:induction false} BucketIsFirstAddress(hops: seq<string>, digest: string -> string)
    ensures FirstBucket(hops, digest).None? <==> forall k :: 0 <= k < |hops| ==> !Written(hops[k])
    ensures forall k, reading :: 0 <= k < |hops| && Reads(hops[k], reading)
              && (forall i :: 0 <= i < k ==> !Written(hops[i]))
              ==> FirstBucket(hops, digest) == Some("ip_" + digest(reading.Text()))
  {
    hide Written, Reads, Canonical, Reading.Text;
    if hops != [] {
      AcceptedExactly(hops[0]);
      forall reading | Reads(hops[0], reading) ensures Canonical(hops[0]) == Some(reading.Text()) {
        CanonicalOfReading(hops[0], reading);
      }
      if Canonical(hops[0]).None? {
        var rest := hops[1..];
        BucketIsFirstAddress(rest, digest);
        assert forall k :: 1 <= k < |hops| ==> hops[k] == rest[k - 1];
        forall k, reading | 0 <= k < |hops| && Reads(hops[k], reading) && (forall i :: 0 <= i < k ==> !Written(hops[i]))
          ensures FirstBucket(hops, digest) == Some("ip_" + digest(reading.Text()))
        {
          assert Reads(rest[k - 1], reading);
          assert forall i :: 0 <= i < k - 1 ==> rest[i] == hops[i + 1];
        }
      }
    }
  }

  /** From the header as received: its hops parted by commas, in order, and no bucket when the header is missing. */
  lemma ForwardedBucket(hops: seq<string>, digest: string -> string)
    requires hops != [] && forall k :: 0 <= k < |hops| ==> ',' !in hops[k]
    ensures ClientAddressBucket(None, digest).None?
    ensures ClientAddressBucket(Some(Join(hops, ',')), digest).None?
            <==> forall k :: 0 <= k < |hops| ==> !Written(hops[k])
    ensures forall k, reading :: 0 <= k < |hops| && Reads(hops[k], reading)
              && (forall i :: 0 <= i < k ==> !Written(hops[i]))
              ==> ClientAddressBucket(Some(Join(hops, ',')), digest) == Some("ip_" + digest(reading.Text()))
  {
    hide Written, Reads, Canonical, Reading.Text, FirstBucket;
    SplitJoin(hops, ',');
    BucketIsFirstAddress(hops, digest);
  }

  // ----- Texts that meet and texts that part ----------------------------------------------------------------

  lemma BareIsDressed(s: string)
    ensures Dresses(s, s)
  {
    assert s == "" + s + "";
    assert IsHostOf(s, s) && AllSpace("");
  }

  /** The dotted form and the exact `::ffff:` form are one visitor; the same bits spelled in hexadecimal are another. */
  lemma MappedFormsMeet(octets: seq<nat>, f: string, form: Form)
    requires V4(octets).Valid() && Lower(f) == "ffff" && IsHexForm(form)
    ensures Canonical("::" + f + ":" + V4(octets).Text()) == Canonical(V4(octets).Text())
    ensures Canonical(form.Text()) != Canonical(V4(octets).Text())
  {
    hide Dresses, Canonical, Join, HasTail, Form.Text, Form.Groups;
    var a, b := V4(octets), V6(form.Groups());
    var mapped := "::" + f + ":" + a.Text();
    BareIsDressed(a.Text());
    BareIsDressed(mapped);
    BareIsDressed(form.Text());
    assert SpellsBare(mapped, a) && SpellsBare(a.Text(), a) && SpellsBare(form.Text(), b);
    CanonicalIsTheAddress(mapped, a, a.Text(), a);
    CanonicalIsTheAddress(form.Text(), b, a.Text(), a);
  }

  lemma FormReads(form: Form, zone: Option<string>)
    requires WritesForm(form.Text() + Zoned(zone), form, zone)
    ensures Reads(form.Text() + Zoned(zone), Numbers(Kept(form, zone.Some?)))
  {
    hide Dresses, WritesForm, Kept;
    BareIsDressed(form.Text() + Zoned(zone));
    assert form.Valid() by { FormIsValid(form, zone); }
    assert ReadsBare(form.Text() + Zoned(zone), Numbers(Kept(form, zone.Some?)));
  }

  lemma FormIsValid(form: Form, zone: Option<string>)
    requires WritesForm(form.Text() + Zoned(zone), form, zone)
    ensures form.Valid()
  {
  }

  lemma PlainFormReads(form: Form)
    requires form.Valid() && !IsMapped(form)
    ensures Reads(form.Text(), Numbers(Kept(form, false)))
  {
    hide Form.Text, Form.Valid, IsMapped, Kept, Reads;
    assert form.Text() + Zoned(None) == form.Text();
    FormReads(form, None);
  }

  /** A short form whose last piece is a dotted tail. */
  function WithTail(left: seq<string>, right: seq<string>, tail: string): Form {
    Short(left, right + [tail])
  }

  lemma WithTailFits(left: seq<string>, right: seq<string>, tail: string)
    requires AllGroups(left) && AllGroups(right) && IsIPv4(tail) && |left| + |right| <= 5
    ensures var form, lead := WithTail(left, right, tail), Split(tail, '.')[0];
            && form.Valid() && HasTail(form.right)
            && Short(left, right + [lead]).Valid() && !HasTail(right + [lead])
            && ReadPiece(lead) == ReadPiece(tail)
  {
    hide DecValue, IsHex;
    var lead := Split(tail, '.')[0];
    assert IsOctet(lead);
    OctetIsGroup(lead);
    JoinSplit(tail, '.');
    SplitPart(lead, '.', "");
    assert Heads(right + [tail]) == right;
    assert Heads(right + [lead]) == right + [lead];
  }

  lemma OctetIsGroup(octet: string)
    requires IsOctet(octet)
    ensures IsGroup(octet)
  {
  }

  /** A dotted tail after `::` is read as its first octet alone, its digits taken as one hexadecimal group. */
  lemma TailMeetsGroup(left: seq<string>, right: seq<string>, tail: string)
    requires AllGroups(left) && AllGroups(right) && IsIPv4(tail) && |left| + |right| <= 5
    requires !IsMapped(WithTail(left, right, tail))
    ensures Canonical(WithTail(left, right, tail).Text())
         == Canonical(Short(left, right + [Split(tail, '.')[0]]).Text())
  {
    hide Canonical, Form.Text, Form.Valid, AllGroups, IsIPv4, Reads, ReadPiece, Split;
    var lead := Split(tail, '.')[0];
    var form, short := WithTail(left, right, tail), Short(left, right + [lead]);
    WithTailFits(left, right, tail);
    PlainFormReads(form);
    PlainFormReads(short);
    assert ReadAll(right + [tail]) == ReadAll(right + [lead]);
    MeetExactly(form.Text(), Numbers(Kept(form, false)), short.Text(), Numbers(Kept(short, false)));
  }

  lemma {:induction false} DigitsReadAlike(a: string, b: string)
    requires a != "" && AllDigits(a) && (|a| == 1 || a[0] != '0')
    requires b != "" && AllDigits(b) && (|b| == 1 || b[0] != '0')
    requires HexValue(a) == HexValue(b)
    ensures a == b
    decreases |a|
  {
    var init, last := a[..|a| - 1], b[..|b| - 1];
    assert a == init + [a[|a| - 1]] && b == last + [b[|b| - 1]];
    assert HexValue(init) == HexValue(last) && HexDigit(a[|a| - 1]) == HexDigit(b[|b| - 1]);
    if |a| > 1 { LeadingDigit(init); }
    if |b| > 1 { LeadingDigit(last); }
    if |a| > 1 && |b| > 1 {
      DigitsReadAlike(init, last);
    } else {
      assert HexValue("") == 0;
    }
  }

  lemma {:induction false} LeadingDigit(s: string)
    requires s != "" && AllDigits(s) && s[0] != '0'
    ensures HexValue(s) > 0
  {
    if |s| > 1 { LeadingDigit(s[..|s| - 1]); }
  }

  /** Behind the same groups, two dotted tails meet exactly when their first octets do, whatever the other octets. */
  lemma TailsMeet(left: seq<string>, right: seq<string>, tail1: string, tail2: string)
    requires AllGroups(left) && AllGroups(right) && |left| + |right| <= 5 && IsIPv4(tail1) && IsIPv4(tail2)
    requires !IsMapped(WithTail(left, right, tail1))
    ensures Canonical(WithTail(left, right, tail1).Text()) == Canonical(WithTail(left, right, tail2).Text())
            <==> Split(tail1, '.')[0] == Split(tail2, '.')[0]
  {
    hide Canonical, Form.Text, Form.Valid, AllGroups, Reads, IsGroup, ZeroGroups, HexValue;
    var f1, f2 := WithTail(left, right, tail1), WithTail(left, right, tail2);
    WithTailFits(left, right, tail1);
    WithTailFits(left, right, tail2);
    assert right + [tail1] == f1.right && right + [tail2] == f2.right;
    assert f1.right[..|right|] == right == f2.right[..|right|];
    PlainFormReads(f1);
    PlainFormReads(f2);
    MeetExactly(f1.Text(), Numbers(Kept(f1, false)), f2.Text(), Numbers(Kept(f2, false)));
    TailKept(left, right, tail1, tail2);
    assert IsOctet(Split(tail1, '.')[0]) && IsOctet(Split(tail2, '.')[0]);
    if ReadPiece(tail1) == ReadPiece(tail2) { DigitsReadAlike(Split(tail1, '.')[0], Split(tail2, '.')[0]); }
  }

  lemma TailKept(left: seq<string>, right: seq<string>, tail1: string, tail2: string)
    requires WithTail(left, right, tail1).Valid() && WithTail(left, right, tail2).Valid()
    ensures Kept(WithTail(left, right, tail1), false) == Kept(WithTail(left, right, tail2), false)
            <==> ReadPiece(tail1) == ReadPiece(tail2)
  {
    hide ReadPiece, AllGroups, AllPieces, Width;
    TailKeptIs(left, right, tail1);
    TailKeptIs(left, right, tail2);
    var before := ReadAll(left) + ZeroGroups(7 - |left| - |right|) + ReadAll(right);
    SomesInjective(before + [ReadPiece(tail1)], before + [ReadPiece(tail2)]);
    assert (before + [ReadPiece(tail1)])[|before|] == ReadPiece(tail1);
    assert (before + [ReadPiece(tail2)])[|before|] == ReadPiece(tail2);
  }

  lemma TailKeptIs(left: seq<string>, right: seq<string>, tail: string)
    requires WithTail(left, right, tail).Valid()
    ensures |left| + |right| <= 7
    ensures Kept(WithTail(left, right, tail), false)
         == Somes(ReadAll(left) + ZeroGroups(7 - |left| - |right|) + ReadAll(right) + [ReadPiece(tail)])
  {
    hide ReadPiece, AllGroups, AllPieces, Somes;
    assert ReadAll(right + [tail]) == ReadAll(right) + [ReadPiece(tail)];
    var gap := 7 - |left| - |right|;
    assert ReadAll(left) + ZeroGroups(gap) + (ReadAll(right) + [ReadPiece(tail)])
        == ReadAll(left) + ZeroGroups(gap) + ReadAll(right) + [ReadPiece(tail)];
  }

  /** One such meeting: `::1.2.3.4` gets the canonical text, and the bucket, of `::1`. */
  lemma DottedTailCollides()
    ensures Canonical("::1.2.3.4") == Canonical("::1")
  {
    hide Canonical, IsIPv4, Split, DecValue;
    SmallDotted();
    TailMeetsGroup([], [], "1.2.3.4");
    assert WithTail([], [], "1.2.3.4").Text() == "::1.2.3.4";
    assert [] + ["1"] == ["1"];
    assert Short([], ["1"]).Text() == "::1";
  }

  lemma SmallDotted()
    ensures IsIPv4("1.2.3.4") && Split("1.2.3.4", '.')[0] == "1"
  {
    var octets := [1, 2, 3, 4];
    assert Decs(octets) == ["1", "2", "3", "4"];
    assert Join(["3", "4"], '.') == "3.4";
    assert Join(["2", "3", "4"], '.') == "2.3.4";
    assert V4(octets).Text() == "1.2.3.4";
    TextIsDotted(octets);
    SplitPart("1", '.', "2.3.4");
    assert "1" + ['.'] + "2.3.4" == "1.2.3.4";
  }
}
