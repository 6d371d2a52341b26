/** The managed block inside a host file: wrapping, scanning, checking and replacing it around the user's own text. */
module ManagedBlock {
  import opened Text

  // The literals are functions, so that proofs can hide their characters.

  function Context(): string {
    "NOODLE AGENT CONTEXT -->"
  }

  const MANAGED_BEGIN := "<!-- BEGIN " + Context()
  const MANAGED_END := "<!-- END " + Context()

  /** A marker opens with the only `<` it has, and stays on one line. */
  predicate IsMarker(marker: string) {
    marker != "" && marker[0] == '<'
    && forall k :: 0 <= k < |marker| ==> marker[k] != '\n' && (k > 0 ==> marker[k] != '<')
  }

  /**
   * The markers, the package version written into blocks, and the hash: the first 16 hexadecimal digits of SHA-256.
   */
  datatype Kit = Kit(first: string, last: string, version: string, hash: string -> string) {
    predicate HasMarkers() {
      first != "" && last != ""
    }

    ghost predicate Valid() {
      && IsMarker(first) && IsMarker(last)
      && |first| > 5 && first[5] == 'B' && |last| > 5 && last[5] == 'E' && last[|last| - 1] == '>'
      && ':' !in version && '\n' !in version && '<' !in version
      && (forall text :: IsHash(hash(text)))
    }
  }

  function NoodleKit(version: string, hash: string -> string): Kit {
    Kit(MANAGED_BEGIN, MANAGED_END, version, hash)
  }

  lemma NoodleKitIsValid(version: string, hash: string -> string)
    requires ':' !in version && '\n' !in version && '<' !in version
    requires forall text :: IsHash(hash(text))
    ensures NoodleKit(version, hash).Valid()
  {
    hide Context;
    ContextFacts();
    assert |"<!-- END "| == 9 && |"<!-- BEGIN "| == 11;
  }

  lemma ContextFacts()
    ensures |Context()| == 24 && Context()[23] == '>' && '<' !in Context() && '\n' !in Context()
  {
    assert |"NOODLE AGENT CONTEXT -->"| == 24;
  }

  predicate IsHash(h: string) {
    IsHexDigest(h, 16)
  }

  // ----- Searching -----------------------------------------------------------------------------------------

  predicate At(s: string, pattern: string, i: nat) {
    i + |pattern| <= |s| && s[i..i + |pattern|] == pattern
  }

  /** The first occurrence of `pattern` at or after `from`. */
  function FindFrom(s: string, pattern: string, from: nat): (r: Option<nat>)
    ensures r.Some? ==> from <= r.value && At(s, pattern, r.value)
    ensures r.Some? ==> forall k :: from <= k < r.value ==> !At(s, pattern, k)
    ensures r.None? ==> forall k :: from <= k ==> !At(s, pattern, k)
    decreases |s| - from
  {
    if from + |pattern| > |s| then None
    else if s[from..from + |pattern|] == pattern then Some(from)
    else FindFrom(s, pattern, from + 1)
  }

  predicate Contains(s: string, pattern: string) {
    FindFrom(s, pattern, 0).Some?
  }

  // ----- Scanning ------------------------------------------------------------------------------------------

  datatype Range = Range(start: nat, end: nat)

  /** One turn of the scan: the first begin marker and the first end marker after it. */
  function NextRange(kit: Kit, content: string, offset: nat): (next: Option<Range>)
    requires kit.HasMarkers()
    ensures next.Some? ==> offset < next.value.end <= |content|
  {
    if offset >= |content| then None
    else
      var start := FindFrom(content, kit.first, offset);
      if start.None? then None
      else
        var endMarker := FindFrom(content, kit.last, start.value + |kit.first|);
        if endMarker.None? then None else Some(Range(start.value, endMarker.value + |kit.last|))
  }

  function RangesFrom(kit: Kit, content: string, offset: nat): seq<Range>
    requires kit.HasMarkers()
    decreases |content| - offset
  {
    var next := NextRange(kit, content, offset);
    if next.None? then [] else [next.value] + RangesFrom(kit, content, next.value.end)
  }

  method ManagedBlockRanges(kit: Kit, content: string) returns (ranges: seq<Range>)
    requires kit.HasMarkers()
    ensures ranges == RangesFrom(kit, content, 0)
  {
    hide NextRange;
    ranges := [];
    var offset := 0;
    while offset < |content|
      invariant offset <= |content|
      invariant ranges + RangesFrom(kit, content, offset) == RangesFrom(kit, content, 0)
      decreases |content| - offset
    {
      var next := NextRange(kit, content, offset);
      if next.None? { break; }
      ranges := ranges + [next.value];
      offset := next.value.end;
    }
    if offset == |content| { NothingPastTheEnd(kit, content); }
  }

  lemma NothingPastTheEnd(kit: Kit, content: string)
    requires kit.HasMarkers()
    ensures RangesFrom(kit, content, |content|) == []
  {
  }

  /** From a begin marker through the first end marker after it. */
  predicate IsBlock(kit: Kit, content: string, range: Range) {
    && |kit.first| + |kit.last| <= range.end - range.start
    && range.end <= |content|
    && At(content, kit.first, range.start)
    && At(content, kit.last, range.end - |kit.last|)
    && forall k :: range.start + |kit.first| <= k < range.end - |kit.last| ==> !At(content, kit.last, k)
  }

  /** No begin marker stands in `[from, to)`. */
  predicate NoBegin(kit: Kit, content: string, from: nat, to: nat) {
    forall k :: from <= k < to ==> !At(content, kit.first, k)
  }

  /** Nothing from `from` on is a begin marker followed by an end marker. */
  ghost predicate NoBlockAfter(kit: Kit, content: string, from: nat) {
    forall b, e :: from <= b && At(content, kit.first, b) && b + |kit.first| <= e ==> !At(content, kit.last, e)
  }

  lemma NextIsBlock(kit: Kit, content: string, offset: nat)
    requires kit.HasMarkers()
    ensures var next := NextRange(kit, content, offset);
            && (next.None? ==> NoBlockAfter(kit, content, offset))
            && (next.Some? ==> offset <= next.value.start && IsBlock(kit, content, next.value))
            && (next.Some? ==> NoBegin(kit, content, offset, next.value.start))
  {
    hide FindFrom;
  }

  /** Range `i` starts at or after the end of the one before it, with no begin marker in between. */
  predicate FollowsOn(kit: Kit, content: string, offset: nat, ranges: seq<Range>, i: nat)
    requires i < |ranges|
  {
    var from := if i == 0 then offset else ranges[i - 1].end;
    from <= ranges[i].start && NoBegin(kit, content, from, ranges[i].start)
  }

  /** The scan finds every block: ordered, disjoint, none skipped between, before or after. */
  lemma {:induction false} RangesAreBlocks(kit: Kit, content: string, offset: nat)
    requires kit.HasMarkers()
    ensures var ranges := RangesFrom(kit, content, offset);
            && (forall i :: 0 <= i < |ranges| ==> IsBlock(kit, content, ranges[i]))
            && (forall i :: 0 <= i < |ranges| ==> FollowsOn(kit, content, offset, ranges, i))
            && NoBlockAfter(kit, content, if ranges == [] then offset else ranges[|ranges| - 1].end)
    decreases |content| - offset
  {
    hide NextRange, IsBlock, NoBegin, NoBlockAfter;
    NextIsBlock(kit, content, offset);
    var ranges := RangesFrom(kit, content, offset);
    if ranges != [] {
      var rest := RangesFrom(kit, content, ranges[0].end);
      RangesAreBlocks(kit, content, ranges[0].end);
      assert ranges == [ranges[0]] + rest;
      forall i | 0 < i < |ranges|
        ensures FollowsOn(kit, content, offset, ranges, i)
      {
        assert FollowsOn(kit, content, ranges[0].end, rest, i - 1);
      }
    }
  }

  // ----- Wrapping and checking -------------------------------------------------------------------------------

  function Metadata(kit: Kit, hash: string): string {
    "<" + MetadataTail(kit, hash)
  }

  function MetadataTail(kit: Kit, hash: string): string {
    Opening() + kit.version + " hash:" + hash + " -->"
  }

  function Opening(): string {
    "!-- noodle-agent-kit:"
  }

  lemma OpeningFacts()
    ensures |Opening()| == 21 && Opening()[4] == 'n' && Opening()[19] == 't'
    ensures '<' !in Opening() && '\n' !in Opening() && forall k :: 0 <= k < 20 ==> Opening()[k] != ':'
  {
    assert |"!-- noodle-agent-kit:"| == 21;
  }

  /** A block without its final newline, around any text. */
  function Frame(kit: Kit, hash: string, text: string): string {
    kit.first + "\n" + Metadata(kit, hash) + "\n" + text + "\n" + kit.last
  }

  function WrapManagedBlock(kit: Kit, body: string): string {
    Join([kit.first, Metadata(kit, kit.hash(body)), body, kit.last, ""], '\n')
  }

  /** A block as the tool writes it: its five lines, spelled out. */
  lemma WrapIsSpelled(version: string, hash: string -> string, body: string)
    ensures WrapManagedBlock(NoodleKit(version, hash), body)
         == Join([MANAGED_BEGIN, "<!-- noodle-agent-kit:" + version + " hash:" + hash(body) + " -->", body,
                  MANAGED_END, ""], '\n')
  {
    hide Join, Opening;
    MetadataIsSpelled(NoodleKit(version, hash), hash(body));
  }

  lemma MetadataIsSpelled(kit: Kit, hash: string)
    ensures Metadata(kit, hash) == "<!-- noodle-agent-kit:" + kit.version + " hash:" + hash + " -->"
  {
    hide Opening;
    OpeningIsSpelled();
    var tail := " hash:" + hash + " -->";
    assert Metadata(kit, hash) == ("<" + Opening()) + kit.version + " hash:" + hash + " -->";
  }

  lemma OpeningIsSpelled()
    ensures "<" + Opening() == "<!-- noodle-agent-kit:"
  {
  }

  predicate HashAt(s: string, i: nat) {
    i + 21 <= |s| && s[i..i + 5] == "hash:" && IsHash(s[i + 5..i + 21])
  }

  /** The first `hash:` followed by 16 hexadecimal digits. */
  function FindHash(s: string, from: nat): Option<string>
    decreases |s| - from
  {
    if from + 21 > |s| then None
    else if HashAt(s, from) then Some(s[from + 5..from + 21])
    else FindHash(s, from + 1)
  }

  function DropNewline(s: string): string {
    if EndsWith(s, "\n") then s[..|s| - 1] else s
  }

  /** Removes a closing end marker with at most one newline on either side. */
  function StripEnd(kit: Kit, s: string): string {
    if EndsWith(s, kit.last + "\n") then DropNewline(s[..|s| - |kit.last| - 1])
    else if EndsWith(s, kit.last) then DropNewline(s[..|s| - |kit.last|])
    else s
  }

  predicate ManagedBlockHashMatches(kit: Kit, block: string) {
    var lines := Split(block, '\n');
    var found := FindHash(if |lines| > 1 then lines[1] else "", 0);
    found.Some?
    && kit.hash(TrimEnd(StripEnd(kit, Join(if |lines| > 2 then lines[2..] else [], '\n')))) == found.value
  }

  // ----- Reconciling -----------------------------------------------------------------------------------------

  datatype Action = Created | Unchanged | Updated | Skipped | Overwritten
  datatype Reason = NoReason | UserEditedManagedBlock | DuplicateManagedBlocks
  datatype Reconciled = Reconciled(content: string, action: Action, reason: Reason)

  function ReconcileManagedBlock(kit: Kit, existing: Option<string>, block: string, force: bool): Reconciled
    requires kit.HasMarkers()
  {
    if existing.None? then Reconciled(block, Created, NoReason)
    else
      var text := existing.value;
      var ranges := RangesFrom(kit, text, 0);
      if |ranges| > 1 && !force then Reconciled(text, Skipped, DuplicateManagedBlocks)
      else if |ranges| == 0 then
        Reconciled(text + (if EndsWith(text, "\n") then "\n" else "\n\n") + block, Updated, NoReason)
      else
        RangesAreBlocks(kit, text, 0);
        var range := ranges[0];
        var current := text[range.start..range.end];
        if current == block then Reconciled(text, Unchanged, NoReason)
        else if !ManagedBlockHashMatches(kit, current) && !force then Reconciled(text, Skipped, UserEditedManagedBlock)
        else
          var content := text[..range.start] + TrimEnd(block) + text[range.end..];
          Reconciled(if EndsWith(content, "\n") then content else content + "\n",
                     if force && !ManagedBlockHashMatches(kit, current) then Overwritten else Updated, NoReason)
  }

  // ----- Markers do not arise by accident --------------------------------------------------------------------

  /** An occurrence never runs across another opening or a line end. */
  lemma OccurrenceIsWhole(s: string, marker: string, i: nat, j: nat)
    requires IsMarker(marker) && At(s, marker, i) && i < j < |s| && (s[j] == '<' || s[j] == '\n')
    ensures i + |marker| <= j
  {
    var piece := s[i..i + |marker|];
    assert forall k {:trigger piece[k]} :: 0 <= k < |piece| ==> piece[k] == s[i + k];
    assert piece == marker && forall k {:trigger s[k]} :: i <= k < i + |marker| ==> s[k] == marker[k - i];
  }

  lemma AtPart(a: string, b: string, c: string, marker: string, i: nat)
    requires |a| <= i && i + |marker| <= |a| + |b|
    ensures At(a + b + c, marker, i) <==> At(b, marker, i - |a|)
  {
    assert (a + b + c)[i..i + |marker|] == b[i - |a|..i - |a| + |marker|];
  }

  /** A text without the marker, followed by an opening or a line end, has no occurrence that starts in it. */
  lemma NoneStartsIn(a: string, b: string, c: string, marker: string, i: nat)
    requires IsMarker(marker) && !Contains(b, marker)
    requires c == "" || c[0] == '<' || c[0] == '\n'
    requires |a| <= i < |a| + |b|
    ensures !At(a + b + c, marker, i)
  {
    if At(a + b + c, marker, i) {
      if c != "" {
        assert (a + b + c)[|a| + |b|] == c[0];
        OccurrenceIsWhole(a + b + c, marker, i, |a| + |b|);
      }
      AtPart(a, b, c, marker, i);
    }
  }

  lemma MetadataLine(kit: Kit, hash: string)
    requires kit.Valid() && IsHash(hash)
    ensures Metadata(kit, hash) != "" && Metadata(kit, hash)[0] == '<'
    ensures '\n' !in Metadata(kit, hash) && '<' !in Metadata(kit, hash)[1..]
    ensures |Metadata(kit, hash)| > 5 && Metadata(kit, hash)[5] == 'n'
  {
    hide Opening, IsHash;
    var m, tail := Metadata(kit, hash), MetadataTail(kit, hash);
    OpeningFacts();
    assert tail[4] == Opening()[4];
    HashHasNoOpening(hash);
    assert '<' !in tail && '\n' !in tail;
    assert m[1..] == tail;
  }

  lemma HashHasNoOpening(hash: string)
    requires IsHash(hash)
    ensures '<' !in hash && '\n' !in hash
  {
  }

  lemma MetadataHasNoEnd(kit: Kit, hash: string)
    requires kit.Valid() && IsHash(hash)
    ensures !Contains(Metadata(kit, hash), kit.last)
  {
    hide Metadata, IsHash;
    var m := Metadata(kit, hash);
    MetadataLine(kit, hash);
    forall i | 0 <= i ensures !At(m, kit.last, i) {
      if i + |kit.last| <= |m| {
        var piece := m[i..i + |kit.last|];
        assert piece[0] == m[i] && piece[5] == m[i + 5];
        if i > 0 { assert m[1..][i - 1] == m[i]; }
      }
    }
  }

  // ----- A framed block scans as one range --------------------------------------------------------------------

  /** What a frame holds between its markers. */
  function Middle(kit: Kit, hash: string, text: string): string {
    "\n" + Metadata(kit, hash) + "\n" + text + "\n"
  }

  lemma FrameParts(kit: Kit, hash: string, text: string)
    ensures Frame(kit, hash, text) == kit.first + Middle(kit, hash, text) + kit.last
  {
    hide Metadata;
  }

  lemma JoinFive(a: string, b: string, c: string, d: string)
    ensures Join([a, b, c, d, ""], '\n') == a + "\n" + b + "\n" + c + "\n" + d + "\n"
  {
    assert [a, b, c, d, ""][1..] == [b, c, d, ""] && [b, c, d, ""][1..] == [c, d, ""];
    assert [c, d, ""][1..] == [d, ""] && [d, ""][1..] == [""];
    assert Join([d, ""], '\n') == d + "\n";
    assert Join([c, d, ""], '\n') == c + "\n" + (d + "\n");
    assert Join([b, c, d, ""], '\n') == b + "\n" + (c + "\n" + (d + "\n"));
    assert Join([a, b, c, d, ""], '\n') == a + "\n" + (b + "\n" + (c + "\n" + (d + "\n")));
  }

  lemma WrapIsFrame(kit: Kit, body: string)
    requires kit.Valid()
    ensures WrapManagedBlock(kit, body) == Frame(kit, kit.hash(body), body) + "\n"
    ensures TrimEnd(WrapManagedBlock(kit, body)) == Frame(kit, kit.hash(body), body)
  {
    hide Metadata, Join;
    var frame := Frame(kit, kit.hash(body), body);
    JoinFive(kit.first, Metadata(kit, kit.hash(body)), body, kit.last);
    FrameCloses(kit, kit.hash(body), body);
    TrimEndPads(frame, "\n");
  }

  lemma FrameCloses(kit: Kit, hash: string, text: string)
    requires kit.Valid()
    ensures Frame(kit, hash, text) != "" && Frame(kit, hash, text)[|Frame(kit, hash, text)| - 1] == '>'
  {
    hide Metadata, IsHash;
    assert Frame(kit, hash, text)[|Frame(kit, hash, text)| - 1] == kit.last[|kit.last| - 1];
  }

  /** Between the markers of a frame there is no other end marker. */
  lemma MiddleHasNoEnd(kit: Kit, hash: string, text: string)
    requires kit.Valid() && IsHash(hash) && !Contains(text, kit.last)
    ensures !Contains(Middle(kit, hash, text), kit.last)
  {
    hide Metadata, IsHash;
    var m := Metadata(kit, hash);
    var middle := Middle(kit, hash, text);
    MetadataHasNoEnd(kit, hash);
    forall i | 0 <= i ensures !At(middle, kit.last, i) {
      if 1 <= i < 1 + |m| {
        assert middle == "\n" + m + ("\n" + text + "\n");
        NoneStartsIn("\n", m, "\n" + text + "\n", kit.last, i);
      } else if 2 + |m| <= i < 2 + |m| + |text| {
        assert middle == ("\n" + m + "\n") + text + "\n";
        NoneStartsIn("\n" + m + "\n", text, "\n", kit.last, i);
      } else if i + |kit.last| <= |middle| {
        assert middle[i..i + |kit.last|][0] == middle[i] == '\n';
      }
    }
  }

  lemma Regroup(a: string, b: string, c: string, d: string, e: string)
    ensures a + (b + c + d) + e == (a + b) + c + (d + e)
  {
  }

  lemma FoundAt(s: string, marker: string, from: nat, i: nat)
    requires from <= i && At(s, marker, i) && forall k :: from <= k < i ==> !At(s, marker, k)
    ensures FindFrom(s, marker, from) == Some(i)
  {
    hide At;
  }

  lemma AtSeam(a: string, marker: string, c: string)
    ensures At(a + (marker + c), marker, |a|)
  {
    assert (a + (marker + c))[|a|..|a| + |marker|] == marker;
  }

  lemma FirstBegin(kit: Kit, prior: string, frame: string, after: string)
    requires kit.Valid() && !Contains(prior, kit.first) && |frame| >= |kit.first| && frame[..|kit.first|] == kit.first
    ensures FindFrom(prior + frame + after, kit.first, 0) == Some(|prior|)
  {
    hide IsHash, FindFrom, Contains;
    var s := prior + frame + after;
    assert s[|prior|..|prior| + |kit.first|] == frame[..|kit.first|];
    assert s == "" + prior + (frame + after);
    assert frame[0] == frame[..|kit.first|][0] == '<';
    forall i | 0 <= i < |prior| ensures !At(s, kit.first, i) {
      NoneStartsIn("", prior, frame + after, kit.first, i);
    }
    FoundAt(s, kit.first, 0, |prior|);
  }

  lemma FirstEnd(kit: Kit, prior: string, middle: string, after: string)
    requires kit.Valid() && !Contains(middle, kit.last)
    ensures FindFrom(prior + middle + (kit.last + after), kit.last, |prior|) == Some(|prior| + |middle|)
  {
    hide IsHash, FindFrom, Contains, At;
    var s := prior + middle + (kit.last + after);
    forall i | |prior| <= i < |prior| + |middle| ensures !At(s, kit.last, i) {
      NoneStartsIn(prior, middle, kit.last + after, kit.last, i);
    }
    AtSeam(prior + middle, kit.last, after);
    FoundAt(s, kit.last, |prior|, |prior| + |middle|);
  }

  // ----- The hash check ---------------------------------------------------------------------------------------

  /** The check reads the recorded hash and compares it with the hash of the text it frames. */
  lemma FrameHash(kit: Kit, hash: string, text: string)
    requires kit.Valid() && IsHash(hash)
    ensures ManagedBlockHashMatches(kit, Frame(kit, hash, text)) <==> kit.hash(TrimEnd(text)) == hash
  {
    hide Metadata, IsHash, TrimEnd, StripEnd, FindHash, Join, Split;
    FrameLines(kit, hash, text);
    JoinSplit(text + "\n" + kit.last, '\n');
    MetadataHash(kit, hash);
    StripsTail(kit, text);
  }

  lemma FrameLines(kit: Kit, hash: string, text: string)
    requires kit.Valid() && IsHash(hash)
    ensures var lines := Split(Frame(kit, hash, text), '\n');
            |lines| > 2 && lines[1] == Metadata(kit, hash) && lines[2..] == Split(text + "\n" + kit.last, '\n')
  {
    hide Metadata, IsHash, Split;
    var m, frame := Metadata(kit, hash), Frame(kit, hash, text);
    var tail := text + "\n" + kit.last;
    MetadataLine(kit, hash);
    SplitPart(kit.first, '\n', m + "\n" + tail);
    SplitPart(m, '\n', tail);
    assert frame == kit.first + "\n" + (m + "\n" + tail);
    var lines := Split(frame, '\n');
    assert lines == [kit.first] + ([m] + Split(tail, '\n'));
  }

  lemma StripsTail(kit: Kit, text: string)
    requires kit.Valid()
    ensures StripEnd(kit, text + "\n" + kit.last) == text
  {
    hide IsHash;
    var tail, n := text + "\n" + kit.last, |kit.last|;
    assert tail[|tail| - 1] == kit.last[n - 1] == '>';
    assert (kit.last + "\n")[n] == '\n';
    NotNewlineEnded(tail, kit.last + "\n");
    assert tail[|tail| - n..] == kit.last && tail[..|tail| - n] == text + "\n";
    assert (text + "\n")[|text|..] == "\n" && (text + "\n")[..|text|] == text;
  }

  lemma NotNewlineEnded(s: string, suffix: string)
    requires s != "" && suffix != "" && s[|s| - 1] != suffix[|suffix| - 1]
    ensures !EndsWith(s, suffix)
  {
    if |suffix| <= |s| { assert s[|s| - |suffix|..][|suffix| - 1] == s[|s| - 1]; }
  }

  lemma MetadataHash(kit: Kit, hash: string)
    requires kit.Valid() && IsHash(hash)
    ensures FindHash(Metadata(kit, hash), 0) == Some(hash)
  {
    hide FindHash, IsDigestChar, Opening;
    OpeningFacts();
    var m := Metadata(kit, hash);
    var head := "<" + Opening() + kit.version + " ";
    assert m == head + "hash:" + hash + " -->";
    var at := |head|;
    assert m[at..at + 5] == "hash:" && m[at + 5..at + 21] == hash;
    forall i | 0 <= i < at ensures !HashAt(m, i) {
      ColonsOfMetadata(kit, hash, i + 4);
      NoHashAt(m, i);
    }
    FindHashAt(m, 0, at);
  }

  lemma NoHashAt(s: string, i: nat)
    requires i + 4 < |s| && (s[i + 4] != ':' || s[i + 3] != 'h')
    ensures !HashAt(s, i)
  {
    if i + 21 <= |s| {
      var piece := s[i..i + 5];
      assert piece[4] == s[i + 4] && piece[3] == s[i + 3];
      assert "hash:"[4] == ':' && "hash:"[3] == 'h';
    }
  }

  /** The only colons of the metadata line close `kit` and open the hash. */
  lemma ColonsOfMetadata(kit: Kit, hash: string, i: nat)
    requires kit.Valid() && IsHash(hash) && i < 22 + |kit.version| + 5
    ensures i < |Metadata(kit, hash)|
    ensures Metadata(kit, hash)[i] != ':' || (i > 0 && Metadata(kit, hash)[i - 1] == 't')
  {
    hide IsHash, Opening;
    OpeningFacts();
    var opening := "<" + Opening();
    assert opening[20] == Opening()[19];
    var rest := kit.version + " hash";
    assert Metadata(kit, hash) == opening + rest + (":" + hash + " -->");
    assert forall k :: 0 <= k < |rest| ==> rest[k] != ':';
  }

  lemma {:induction false} FindHashAt(s: string, from: nat, at: nat)
    requires from <= at && HashAt(s, at) && forall i :: from <= i < at ==> !HashAt(s, i)
    ensures FindHash(s, from) == Some(s[at + 5..at + 21])
    decreases at - from
  {
    if from < at { FindHashAt(s, from + 1, at); }
  }

  // ----- Scanning on ---------------------------------------------------------------------------------------

  function Shift(ranges: seq<Range>, offset: nat): (shifted: seq<Range>)
    ensures |shifted| == |ranges|
    ensures forall k :: 0 <= k < |ranges| ==> shifted[k] == Range(ranges[k].start + offset, ranges[k].end + offset)
  {
    seq(|ranges|, k requires 0 <= k < |ranges| => Range(ranges[k].start + offset, ranges[k].end + offset))
  }

  lemma AtShift(x: string, y: string, marker: string, i: nat)
    ensures At(x + y, marker, |x| + i) <==> At(y, marker, i)
  {
    if i + |marker| <= |y| { assert (x + y)[|x| + i..|x| + i + |marker|] == y[i..i + |marker|]; }
  }

  lemma FindShift(x: string, y: string, marker: string, from: nat)
    ensures FindFrom(x + y, marker, |x| + from)
         == if FindFrom(y, marker, from).Some? then Some(|x| + FindFrom(y, marker, from).value) else None
  {
    hide At;
    var there, here := FindFrom(x + y, marker, |x| + from), FindFrom(y, marker, from);
    if here.Some? {
      AtShift(x, y, marker, here.value);
      forall k | |x| + from <= k < |x| + here.value ensures !At(x + y, marker, k) { AtShift(x, y, marker, k - |x|); }
    }
    if there.Some? {
      AtShift(x, y, marker, there.value - |x|);
      forall k | from <= k < there.value - |x| ensures !At(y, marker, k) { AtShift(x, y, marker, k); }
    }
  }

  lemma NextShift(kit: Kit, x: string, y: string, offset: nat)
    requires kit.HasMarkers()
    ensures NextRange(kit, x + y, |x| + offset).Some? <==> NextRange(kit, y, offset).Some?
    ensures NextRange(kit, y, offset).Some? ==>
              NextRange(kit, x + y, |x| + offset).value
              == Range(NextRange(kit, y, offset).value.start + |x|, NextRange(kit, y, offset).value.end + |x|)
  {
    hide FindFrom;
    FindShift(x, y, kit.first, offset);
    var start := FindFrom(y, kit.first, offset);
    if start.Some? { FindShift(x, y, kit.last, start.value + |kit.first|); }
  }

  /** Scanning on from a point sees only what follows it. */
  lemma {:induction false} ScanShift(kit: Kit, x: string, y: string, offset: nat)
    requires kit.HasMarkers()
    ensures RangesFrom(kit, x + y, |x| + offset) == Shift(RangesFrom(kit, y, offset), |x|)
    decreases |y| - offset
  {
    hide NextRange;
    NextShift(kit, x, y, offset);
    var next := NextRange(kit, y, offset);
    if next.Some? { ScanShift(kit, x, y, next.value.end); }
  }

  /** User text, a frame, and anything after: the scan finds the frame and then what it finds after it. */
  lemma FrameScansFirst(kit: Kit, hash: string, text: string, prior: string, after: string)
    requires kit.Valid() && IsHash(hash) && !Contains(text, kit.last) && !Contains(prior, kit.first)
    ensures var frame := Frame(kit, hash, text);
            RangesFrom(kit, prior + frame + after, 0)
            == [Range(|prior|, |prior| + |frame|)] + Shift(RangesFrom(kit, after, 0), |prior| + |frame|)
  {
    hide Middle, IsHash, Contains, At, Frame, FindFrom, RangesFrom, IsMarker;
    ValidHasMarkers(kit);
    var middle, frame := Middle(kit, hash, text), Frame(kit, hash, text);
    FrameParts(kit, hash, text);
    BeginFound(kit, hash, text, prior, after);
    EndFound(kit, hash, text, prior, after);
    ScanShift(kit, prior + frame, after, 0);
    FirstRange(kit, prior + frame + after, |prior|, |prior| + |kit.first| + |middle|);
  }

  lemma ValidHasMarkers(kit: Kit)
    requires kit.Valid()
    ensures kit.HasMarkers()
  {
    hide IsHash;
  }

  lemma BeginFound(kit: Kit, hash: string, text: string, prior: string, after: string)
    requires kit.Valid() && !Contains(prior, kit.first)
    ensures FindFrom(prior + Frame(kit, hash, text) + after, kit.first, 0) == Some(|prior|)
  {
    hide Middle, IsHash, Contains, At, Frame, FindFrom, IsMarker;
    FrameParts(kit, hash, text);
    assert Frame(kit, hash, text)[..|kit.first|] == kit.first;
    FirstBegin(kit, prior, Frame(kit, hash, text), after);
  }

  lemma EndFound(kit: Kit, hash: string, text: string, prior: string, after: string)
    requires kit.Valid() && IsHash(hash) && !Contains(text, kit.last)
    ensures FindFrom(prior + Frame(kit, hash, text) + after, kit.last, |prior| + |kit.first|)
         == Some(|prior| + |kit.first| + |Middle(kit, hash, text)|)
  {
    hide Middle, IsHash, Contains, At, Frame, FindFrom, IsMarker;
    FrameParts(kit, hash, text);
    MiddleHasNoEnd(kit, hash, text);
    Regroup(prior, kit.first, Middle(kit, hash, text), kit.last, after);
    FirstEnd(kit, prior + kit.first, Middle(kit, hash, text), after);
  }

  lemma FirstRange(kit: Kit, s: string, start: nat, endMarker: nat)
    requires kit.HasMarkers() && FindFrom(s, kit.first, 0) == Some(start)
    requires FindFrom(s, kit.last, start + |kit.first|) == Some(endMarker)
    ensures RangesFrom(kit, s, 0) == [Range(start, endMarker + |kit.last|)] + RangesFrom(kit, s, endMarker + |kit.last|)
  {
    hide FindFrom;
    assert At(s, kit.first, start) && |s| > 0;
  }

  lemma {:induction false} NoneFrom(kit: Kit, text: string)
    requires kit.HasMarkers() && !Contains(text, kit.first)
    ensures RangesFrom(kit, text, 0) == []
  {
  }

  /** User text without a begin marker around one frame: the scan finds exactly the frame. */
  lemma FrameScansOnce(kit: Kit, hash: string, text: string, prior: string, after: string)
    requires kit.Valid() && IsHash(hash) && !Contains(text, kit.last)
    requires !Contains(prior, kit.first) && RangesFrom(kit, after, 0) == []
    ensures RangesFrom(kit, prior + Frame(kit, hash, text) + after, 0)
         == [Range(|prior|, |prior| + |Frame(kit, hash, text)|)]
  {
    hide IsHash, Contains, Frame, RangesFrom;
    FrameScansFirst(kit, hash, text, prior, after);
  }

  /** A scan finds nothing exactly when no begin marker is followed by an end marker. */
  lemma ScanIsEmpty(kit: Kit, text: string)
    requires kit.HasMarkers()
    ensures RangesFrom(kit, text, 0) == [] <==> NoBlockAfter(kit, text, 0)
  {
    hide FindFrom, At, NextRange;
    NextIsBlock(kit, text, 0);
  }
}
