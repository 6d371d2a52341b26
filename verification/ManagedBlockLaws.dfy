/** Laws of the managed block: what one run does to a file, and what a second run changes. */
module ManagedBlockLaws {
  import opened Text
  import opened ManagedBlock

  /** A body that carries no end marker and no trailing white space, so that its block passes its own check. */
  predicate CleanBody(kit: Kit, body: string) {
    !Contains(body, kit.last) && TrimEnd(body) == body
  }

  /** The block of a body as it stands in a file. */
  function Block(kit: Kit, body: string): string {
    Frame(kit, kit.hash(body), body)
  }

  /** The user's own text around one block the tool wrote, with no further block after it. */
  predicate HostedAs(kit: Kit, text: string, prior: string, body: string, after: string)
    requires kit.HasMarkers()
  {
    CleanBody(kit, body) && !Contains(prior, kit.first) && RangesFrom(kit, after, 0) == []
    && text == prior + Block(kit, body) + after
  }

  function EndLine(s: string): string {
    if EndsWith(s, "\n") then s else s + "\n"
  }

  function Separator(text: string): string {
    if EndsWith(text, "\n") then "\n" else "\n\n"
  }

  lemma BlockPasses(kit: Kit, body: string)
    requires kit.Valid() && CleanBody(kit, body)
    ensures ManagedBlockHashMatches(kit, Block(kit, body))
  {
    hide Frame, ManagedBlockHashMatches;
    FrameHash(kit, kit.hash(body), body);
  }

  /** Over the user's text around one clean block, the new block replaces the old and nothing else moves. */
  lemma ReplacesBlock(kit: Kit, text: string, prior: string, body: string, after: string, newBody: string)
    requires kit.HasMarkers() && kit.Valid() && HostedAs(kit, text, prior, body, after)
    ensures var r := ReconcileManagedBlock(kit, Some(text), WrapManagedBlock(kit, newBody), false);
            r == Reconciled(EndLine(prior + Block(kit, newBody) + after), Updated, NoReason)
  {
    hide Frame, ManagedBlockHashMatches, RangesFrom, WrapManagedBlock, TrimEnd, IsHash, Contains, EndsWith;
    var block := Block(kit, body);
    FrameScansOnce(kit, kit.hash(body), body, prior, after);
    assert text[|prior|..|prior| + |block|] == block;
    assert text[..|prior|] == prior && text[|prior| + |block|..] == after;
    BlockPasses(kit, body);
    WrapIsFrame(kit, newBody);
    NotABlock(kit, body, newBody);
  }

  /** A slice that ends in the end marker never equals a block that ends in a line end. */
  lemma NotABlock(kit: Kit, body: string, newBody: string)
    requires kit.Valid()
    ensures Block(kit, body) != WrapManagedBlock(kit, newBody)
  {
    hide Frame, WrapManagedBlock, IsHash;
    FrameCloses(kit, kit.hash(body), body);
    WrapIsFrame(kit, newBody);
    assert WrapManagedBlock(kit, newBody)[|WrapManagedBlock(kit, newBody)| - 1] == '\n';
  }

  /** For every file and either flag, a wrapped block is never reported as unchanged, even when it is. */
  lemma NeverUnchanged(kit: Kit, existing: Option<string>, body: string, force: bool)
    requires kit.HasMarkers() && kit.Valid()
    ensures !ReconcileManagedBlock(kit, existing, WrapManagedBlock(kit, body), force).action.Unchanged?
  {
    hide Frame, RangesFrom, WrapManagedBlock, IsHash, ManagedBlockHashMatches, TrimEnd, EndsWith;
    if existing.Some? && RangesFrom(kit, existing.value, 0) != [] {
      var text := existing.value;
      RangesInBounds(kit, text);
      var range := RangesFrom(kit, text, 0)[0];
      RangeCloses(kit, text);
      WrapIsFrame(kit, body);
      assert WrapManagedBlock(kit, body)[|WrapManagedBlock(kit, body)| - 1] == '\n';
    }
  }

  /** A range ends in the end marker. */
  lemma RangeCloses(kit: Kit, text: string)
    requires kit.HasMarkers() && kit.Valid() && RangesFrom(kit, text, 0) != []
    ensures var range := RangesFrom(kit, text, 0)[0];
            range.start < range.end <= |text| && text[range.start..range.end][range.end - range.start - 1] == '>'
  {
    hide RangesFrom, IsHash;
    RangesAreBlocks(kit, text, 0);
    var range := RangesFrom(kit, text, 0)[0];
    assert IsBlock(kit, text, range);
    assert text[range.end - |kit.last|..range.end][|kit.last| - 1] == text[range.end - 1];
  }

  /** Over a file without a block, the block is appended after a separator. */
  lemma AppendsBlock(kit: Kit, text: string, body: string)
    requires kit.Valid() && !Contains(text, kit.first)
    ensures var ended := text != "" && text[|text| - 1] == '\n';
            ReconcileManagedBlock(kit, Some(text), WrapManagedBlock(kit, body), false)
            == Reconciled(text + (if ended then "\n" else "\n\n") + WrapManagedBlock(kit, body), Updated, NoReason)
  {
    hide Frame, RangesFrom, WrapManagedBlock, IsHash;
    NoneFrom(kit, text);
    if text != "" { assert text[|text| - 1..] == [text[|text| - 1]]; }
  }

  /** A line end at the end of a text makes no marker. */
  lemma AtBeforeLineEnd(x: string, marker: string, k: nat)
    requires IsMarker(marker)
    ensures At(x + "\n", marker, k) <==> At(x, marker, k)
  {
    var s := x + "\n";
    if k + |marker| == |s| {
      var piece := s[k..k + |marker|];
      assert piece[|marker| - 1] == s[|s| - 1] == '\n';
    }
    if k + |marker| <= |x| { assert s[k..k + |marker|] == x[k..k + |marker|]; }
  }

  lemma AddedLineEnd(kit: Kit, x: string)
    requires kit.Valid()
    ensures kit.HasMarkers()
    ensures Contains(x, kit.first) <==> Contains(x + "\n", kit.first)
    ensures RangesFrom(kit, x, 0) == [] ==> RangesFrom(kit, x + "\n", 0) == []
  {
    hide IsHash, At, RangesFrom;
    ValidHasMarkers(kit);
    forall k: nat
      ensures At(x + "\n", kit.first, k) <==> At(x, kit.first, k)
      ensures At(x + "\n", kit.last, k) <==> At(x, kit.last, k)
    {
      AtBeforeLineEnd(x, kit.first, k);
      AtBeforeLineEnd(x, kit.last, k);
    }
    ScanIsEmpty(kit, x);
    ScanIsEmpty(kit, x + "\n");
  }

  /** The empty text and a lone line end hold no marker. */
  lemma NothingInNothing(kit: Kit)
    requires kit.Valid()
    ensures kit.HasMarkers() && !Contains("", kit.first)
    ensures RangesFrom(kit, "", 0) == [] && RangesFrom(kit, "\n", 0) == []
  {
    hide IsHash;
    ValidHasMarkers(kit);
    NoneFrom(kit, "");
    AddedLineEnd(kit, "");
    assert "" + "\n" == "\n";
  }

  lemma SeparatorIsPlain(kit: Kit, text: string)
    requires kit.Valid() && !Contains(text, kit.first)
    ensures !Contains(text + Separator(text), kit.first)
  {
    hide IsHash, Contains, EndsWith;
    AddedLineEnd(kit, text);
    AddedLineEnd(kit, text + "\n");
    assert text + "\n" + "\n" == text + "\n\n";
  }

  lemma WrapIsBlock(kit: Kit, body: string)
    requires kit.Valid()
    ensures WrapManagedBlock(kit, body) == Block(kit, body) + "\n"
  {
    hide Frame, WrapManagedBlock, IsHash;
    WrapIsFrame(kit, body);
  }

  lemma FirstRun(kit: Kit, block: string, force: bool)
    requires kit.HasMarkers()
    ensures ReconcileManagedBlock(kit, None, block, force) == Reconciled(block, Created, NoReason)
  {
  }

  /** The final line end belongs to the text after the block. */
  lemma EndLineOfTail(kit: Kit, prior: string, body: string, tail: string)
    requires kit.Valid()
    ensures EndLine(prior + Block(kit, body) + tail)
         == prior + Block(kit, body) + if EndsWith(tail, "\n") then tail else tail + "\n"
  {
    hide Frame, IsHash;
    FrameCloses(kit, kit.hash(body), body);
    var whole := prior + Block(kit, body) + tail;
    if tail != "" {
      assert whole[|whole| - 1] == tail[|tail| - 1];
    } else {
      assert whole == prior + Block(kit, body);
      assert whole[|whole| - 1] == Block(kit, body)[|Block(kit, body)| - 1];
    }
    EndsInNewline(whole);
    EndsInNewline(tail);
    assert whole + "\n" == prior + Block(kit, body) + (tail + "\n");
  }

  lemma EndsInNewline(s: string)
    ensures EndsWith(s, "\n") <==> s != "" && s[|s| - 1] == '\n'
  {
    if s != "" { assert s[|s| - 1..] == [s[|s| - 1]]; }
  }

  /** What a run without force leaves. */
  function ContentAfter(kit: Kit, existing: Option<string>, body: string): string
    requires kit.HasMarkers()
  {
    ReconcileManagedBlock(kit, existing, WrapManagedBlock(kit, body), false).content
  }

  // ----- Two runs in a row --------------------------------------------------------------------------------------

  /** Once a run has left user text around its block, the next run leaves the same text around its own. */
  lemma SecondRunReplaces(kit: Kit, first: string, prior: string, body1: string, after: string, body2: string)
    requires kit.HasMarkers() && kit.Valid() && HostedAs(kit, first, prior, body1, after) && EndsWith(after, "\n")
    ensures ContentAfter(kit, Some(first), body2) == prior + Block(kit, body2) + after
  {
    hide Frame, RangesFrom, WrapManagedBlock, IsHash, Contains, ReconcileManagedBlock, CleanBody, Block;
    ReplacesBlock(kit, first, prior, body1, after, body2);
    EndLineOfTail(kit, prior, body2, after);
  }

  lemma NewFileSettles(kit: Kit, body1: string, body2: string)
    requires kit.HasMarkers() && kit.Valid() && CleanBody(kit, body1)
    ensures ContentAfter(kit, Some(ContentAfter(kit, None, body1)), body2) == ContentAfter(kit, None, body2)
  {
    hide Frame, RangesFrom, WrapManagedBlock, IsHash, Contains, ReconcileManagedBlock, CleanBody, Block;
    FirstRun(kit, WrapManagedBlock(kit, body1), false);
    FirstRun(kit, WrapManagedBlock(kit, body2), false);
    WrapIsBlock(kit, body1);
    WrapIsBlock(kit, body2);
    NothingInNothing(kit);
    assert WrapManagedBlock(kit, body1) == "" + Block(kit, body1) + "\n";
    assert WrapManagedBlock(kit, body2) == "" + Block(kit, body2) + "\n";
    SecondRunReplaces(kit, WrapManagedBlock(kit, body1), "", body1, "\n", body2);
  }

  lemma PlainTextSettles(kit: Kit, text: string, body1: string, body2: string)
    requires kit.HasMarkers() && kit.Valid() && CleanBody(kit, body1) && !Contains(text, kit.first)
    ensures ContentAfter(kit, Some(ContentAfter(kit, Some(text), body1)), body2) == ContentAfter(kit, Some(text), body2)
  {
    hide Frame, RangesFrom, WrapManagedBlock, IsHash, Contains, ReconcileManagedBlock, CleanBody, Block;
    var prior := text + Separator(text);
    AppendsBlock(kit, text, body1);
    AppendsBlock(kit, text, body2);
    WrapIsBlock(kit, body1);
    WrapIsBlock(kit, body2);
    SeparatorIsPlain(kit, text);
    NothingInNothing(kit);
    assert prior + WrapManagedBlock(kit, body1) == prior + Block(kit, body1) + "\n";
    assert prior + WrapManagedBlock(kit, body2) == prior + Block(kit, body2) + "\n";
    SecondRunReplaces(kit, prior + WrapManagedBlock(kit, body1), prior, body1, "\n", body2);
  }

  lemma SeveralBlocksSettle(kit: Kit, text: string, body1: string, body2: string)
    requires kit.HasMarkers() && |RangesFrom(kit, text, 0)| > 1
    ensures ContentAfter(kit, Some(ContentAfter(kit, Some(text), body1)), body2) == ContentAfter(kit, Some(text), body2)
  {
    hide RangesFrom, WrapManagedBlock;
  }

  /** The text before and after a file's only block holds no block of its own. */
  lemma AroundOneBlock(kit: Kit, text: string)
    requires kit.HasMarkers() && |RangesFrom(kit, text, 0)| == 1
    ensures var range := RangesFrom(kit, text, 0)[0];
            && range.start <= range.end <= |text|
            && !Contains(text[..range.start], kit.first)
            && RangesFrom(kit, text[range.end..], 0) == []
  {
    hide NextRange, FindFrom;
    RangesAreBlocks(kit, text, 0);
    var ranges := RangesFrom(kit, text, 0);
    var range := ranges[0];
    assert FollowsOn(kit, text, 0, ranges, 0) && IsBlock(kit, text, range);
    var prior := text[..range.start];
    forall k: nat ensures !At(prior, kit.first, k) {
      if k + |kit.first| <= |prior| { assert prior[k..k + |kit.first|] == text[k..k + |kit.first|]; }
      assert At(prior, kit.first, k) ==> k < range.start && At(text, kit.first, k);
    }
    NothingFound(prior, kit.first);
    assert text == text[..range.end] + text[range.end..];
    ScanShift(kit, text[..range.end], text[range.end..], 0);
    assert ranges == [range] + RangesFrom(kit, text, range.end);
  }

  /** A run over a file with one block: the block is replaced when it passes its check, else nothing changes. */
  lemma OneBlockRun(kit: Kit, text: string, body: string)
    requires kit.HasMarkers() && kit.Valid() && |RangesFrom(kit, text, 0)| == 1
    ensures var range := RangesFrom(kit, text, 0)[0];
            && range.start <= range.end <= |text|
            && ContentAfter(kit, Some(text), body)
            == if ManagedBlockHashMatches(kit, text[range.start..range.end])
               then EndLine(text[..range.start] + Block(kit, body) + text[range.end..]) else text
  {
    hide RangesFrom, WrapManagedBlock, IsHash, ManagedBlockHashMatches, TrimEnd, Frame, EndsWith, Contains;
    AroundOneBlock(kit, text);
    WrapIsFrame(kit, body);
    NeverUnchanged(kit, Some(text), body, false);
  }

  lemma OneBlockSettles(kit: Kit, text: string, body1: string, body2: string)
    requires kit.HasMarkers() && kit.Valid() && CleanBody(kit, body1) && |RangesFrom(kit, text, 0)| == 1
    ensures ContentAfter(kit, Some(ContentAfter(kit, Some(text), body1)), body2) == ContentAfter(kit, Some(text), body2)
  {
    hide RangesFrom, WrapManagedBlock, IsHash, ManagedBlockHashMatches, Frame, Contains, ContentAfter, CleanBody, Block;
    OneBlockRun(kit, text, body1);
    OneBlockRun(kit, text, body2);
    AroundOneBlock(kit, text);
    var range := RangesFrom(kit, text, 0)[0];
    var prior, tail := text[..range.start], text[range.end..];
    var after := if EndsWith(tail, "\n") then tail else tail + "\n";
    if ManagedBlockHashMatches(kit, text[range.start..range.end]) {
      EndLineOfTail(kit, prior, body1, tail);
      EndLineOfTail(kit, prior, body2, tail);
      AddedLineEnd(kit, tail);
      EndsInNewline(after);
      SecondRunReplaces(kit, prior + Block(kit, body1) + after, prior, body1, after, body2);
    }
  }

  // ----- A begin marker of the user's own -------------------------------------------------------------------------

  /** User text with a begin marker and no end marker after it: no block, but the start of one. */
  predicate LoneMarker(kit: Kit, text: string)
    requires kit.HasMarkers()
  {
    RangesFrom(kit, text, 0) == [] && Contains(text, kit.first)
  }

  function MarkerAt(kit: Kit, text: string): (i: nat)
    requires kit.HasMarkers() && LoneMarker(kit, text)
    ensures FindFrom(text, kit.first, 0) == Some(i) && i < i + |kit.first| <= |text|
  {
    FindFrom(text, kit.first, 0).value
  }

  /** What the scan takes for a block once one has been appended: everything from the lone marker on. */
  function Swallowed(kit: Kit, text: string, body: string): string
    requires kit.HasMarkers() && LoneMarker(kit, text)
  {
    text[MarkerAt(kit, text)..] + Separator(text) + Block(kit, body)
  }

  /** No end marker stands between a lone marker and the end marker of the block appended after it. */
  lemma NoEndBetween(kit: Kit, tail: string, separator: string, body: string)
    requires kit.Valid() && CleanBody(kit, body) && !Contains(tail, kit.last)
    requires separator == "\n" || separator == "\n\n"
    ensures !Contains(tail + separator + kit.first + Middle(kit, kit.hash(body), body), kit.last)
  {
    hide IsHash, Middle, Contains;
    var middle := Middle(kit, kit.hash(body), body);
    var x := tail + separator + kit.first + middle;
    MiddleHasNoEnd(kit, kit.hash(body), body);
    forall k: nat ensures !At(x, kit.last, k) {
      if k < |tail| {
        assert x == "" + tail + (separator + kit.first + middle);
        NoneStartsIn("", tail, separator + kit.first + middle, kit.last, k);
      } else if k < |tail + separator + kit.first| {
        NotInMarker(kit, tail + separator, middle, k);
      } else {
        NotInMiddle(tail + separator + kit.first, middle, kit.last, k);
      }
    }
    NothingFound(x, kit.last);
  }

  lemma NotInMarker(kit: Kit, lead: string, rest: string, k: nat)
    requires kit.Valid() && (k < |lead| ==> lead[k] == '\n') && k < |lead + kit.first|
    ensures !At(lead + kit.first + rest, kit.last, k)
  {
    hide IsHash;
    var x := lead + kit.first + rest;
    if k + |kit.last| <= |x| {
      var piece := x[k..k + |kit.last|];
      assert piece[0] == x[k] && piece[5] == x[k + 5];
      if k == |lead| { assert x[k + 5] == kit.first[5]; }
    }
  }

  lemma NotInMiddle(lead: string, middle: string, marker: string, k: nat)
    requires |lead| <= k && !Contains(middle, marker)
    ensures !At(lead + middle, marker, k)
  {
    hide FindFrom;
    AtShift(lead, middle, marker, k - |lead|);
  }

  lemma NothingFound(s: string, marker: string)
    requires forall k: nat :: !At(s, marker, k)
    ensures !Contains(s, marker)
  {
    hide At;
  }

  /** Where a marker is first found does not change when text is added at the end. */
  lemma FoundInPrefix(text: string, more: string, marker: string)
    requires Contains(text, marker)
    ensures FindFrom(text + more, marker, 0) == FindFrom(text, marker, 0)
  {
    hide FindFrom;
    var i := FindFrom(text, marker, 0).value;
    assert "" + text + more == text + more;
    forall k | 0 <= k <= i ensures At(text + more, marker, k) <==> At(text, marker, k) {
      AtPart("", text, more, marker, k);
    }
    FoundAt(text + more, marker, 0, i);
  }

  /** After a lone marker the appended block is swallowed: the file scans as one range from the marker to its end. */
  lemma LoneMarkerScans(kit: Kit, text: string, body: string)
    requires kit.HasMarkers() && kit.Valid() && CleanBody(kit, body) && LoneMarker(kit, text)
    ensures var i := MarkerAt(kit, text);
            var appended := text + Separator(text) + Block(kit, body);
            && i < |text|
            && RangesFrom(kit, appended + "\n", 0) == [Range(i, |appended|)]
            && appended[i..] == Swallowed(kit, text, body) && appended[..i] == text[..i]
  {
    hide IsHash, Middle, Frame, EndsWith, FindFrom, RangesFrom, At, LoneMarker, Swallowed, MarkerAt, Block, CleanBody;
    var i, middle := MarkerAt(kit, text), Middle(kit, kit.hash(body), body);
    var appended := text + Separator(text) + Block(kit, body);
    SwallowedParts(kit, text, body);
    var lead := text[..i + |kit.first|];
    var x := text[i + |kit.first|..] + Separator(text) + kit.first + middle;
    TailHasNoEnd(kit, text);
    NoEndBetween(kit, text[i + |kit.first|..], Separator(text), body);
    FirstEnd(kit, lead, x, "\n");
    FoundInPrefix(text, Separator(text) + Block(kit, body) + "\n", kit.first);
    FirstRange(kit, appended + "\n", i, |lead + x|);
    ScanShift(kit, appended, "\n", 0);
    NothingInNothing(kit);
  }

  lemma SwallowedParts(kit: Kit, text: string, body: string)
    requires kit.HasMarkers() && LoneMarker(kit, text)
    ensures var i := MarkerAt(kit, text);
            var appended := text + Separator(text) + Block(kit, body);
            && appended[i..] == Swallowed(kit, text, body) && appended[..i] == text[..i]
            && appended + "\n" == text + (Separator(text) + Block(kit, body) + "\n")
            && var x := text[i + |kit.first|..] + Separator(text) + kit.first + Middle(kit, kit.hash(body), body);
               appended == text[..i + |kit.first|] + x + kit.last
               && appended + "\n" == text[..i + |kit.first|] + x + (kit.last + "\n")
  {
    hide Middle, Frame, Separator, MarkerAt, LoneMarker, FindFrom, RangesFrom;
    FrameParts(kit, kit.hash(body), body);
    Cuts(text, MarkerAt(kit, text), |kit.first|, Separator(text), kit.first,
         Middle(kit, kit.hash(body), body), kit.last);
  }

  lemma Cuts(text: string, i: nat, n: nat, separator: string, first: string, middle: string, last: string)
    requires i + n <= |text|
    ensures var block := first + middle + last;
            var appended := text + separator + block;
            var x := text[i + n..] + separator + first + middle;
            && appended[i..] == text[i..] + separator + block && appended[..i] == text[..i]
            && appended + "\n" == text + (separator + block + "\n")
            && appended == text[..i + n] + x + last && appended + "\n" == text[..i + n] + x + (last + "\n")
  {
    var x := text[i + n..] + separator + first + middle;
    var appended := text + separator + (first + middle + last);
    assert text == text[..i + n] + text[i + n..];
    assert appended == text[..i + n] + x + last;
  }

  lemma TailHasNoEnd(kit: Kit, text: string)
    requires kit.HasMarkers() && LoneMarker(kit, text)
    ensures !Contains(text[MarkerAt(kit, text) + |kit.first|..], kit.last)
  {
    hide FindFrom, RangesFrom;
    ScanIsEmpty(kit, text);
    var i := MarkerAt(kit, text);
    var lead, tail := text[..i + |kit.first|], text[i + |kit.first|..];
    assert text == lead + tail;
    forall k: nat ensures !At(tail, kit.last, k) {
      AtShift(lead, tail, kit.last, k);
      assert At(text, kit.first, i);
    }
    NothingFound(tail, kit.last);
  }

  /** Blocks tell their bodies. */
  lemma WrapTellsBody(kit: Kit, body1: string, body2: string)
    requires kit.Valid() && WrapManagedBlock(kit, body1) == WrapManagedBlock(kit, body2)
    ensures body1 == body2
  {
    hide Join, WrapManagedBlock, IsDigestChar;
    WrapIsFrame(kit, body1);
    WrapIsFrame(kit, body2);
    assert IsHash(kit.hash(body1)) && IsHash(kit.hash(body2));
    var head1 := kit.first + "\n" + Metadata(kit, kit.hash(body1)) + "\n";
    var head2 := kit.first + "\n" + Metadata(kit, kit.hash(body2)) + "\n";
    var wrap1, wrap2 := WrapManagedBlock(kit, body1), WrapManagedBlock(kit, body2);
    assert |head1| == |head2|;
    assert wrap1 == head1 + body1 + ("\n" + kit.last + "\n") && wrap2 == head2 + body2 + ("\n" + kit.last + "\n");
    assert |body1| == |body2|;
    assert wrap1[|head1|..|head1| + |body1|] == body1 && wrap2[|head2|..|head2| + |body2|] == body2;
  }

  lemma LoneMarkerAppends(kit: Kit, text: string, body: string)
    requires kit.HasMarkers() && kit.Valid() && LoneMarker(kit, text)
    ensures ContentAfter(kit, Some(text), body) == text + Separator(text) + WrapManagedBlock(kit, body)
    ensures ContentAfter(kit, Some(text), body) == text + Separator(text) + Block(kit, body) + "\n"
  {
    hide IsHash, Frame, EndsWith, FindFrom, WrapManagedBlock, Block, RangesFrom;
    WrapIsBlock(kit, body);
  }

  /**
   * After a lone marker the second run meets the swallowed text: it leaves it alone as edited by hand, or, should its
   * hash happen to match, replaces all of it.
   */
  lemma LoneMarkerRuns(kit: Kit, text: string, body1: string, body2: string)
    requires kit.HasMarkers() && kit.Valid() && CleanBody(kit, body1) && LoneMarker(kit, text)
    ensures var i := MarkerAt(kit, text);
            var first := ContentAfter(kit, Some(text), body1);
            && i < |text|
            && ContentAfter(kit, Some(first), body2)
            == if ManagedBlockHashMatches(kit, Swallowed(kit, text, body1))
               then text[..i] + Block(kit, body2) + "\n" else first
  {
    hide IsHash, EndsWith, FindFrom, ManagedBlockHashMatches, CleanBody, Block, RangesFrom, Separator, ContentAfter;
    hide LoneMarker, Swallowed, MarkerAt;
    var i := MarkerAt(kit, text);
    var appended := text + Separator(text) + Block(kit, body1);
    LoneMarkerAppends(kit, text, body1);
    LoneMarkerScans(kit, text, body1);
    OneBlockRun(kit, appended + "\n", body2);
    Slices(appended, i);
    EndsInNewline("\n");
    EndLineOfTail(kit, text[..i], body2, "\n");
  }

  lemma Slices(s: string, i: nat)
    requires i <= |s|
    ensures (s + "\n")[i..|s|] == s[i..] && (s + "\n")[..i] == s[..i] && (s + "\n")[|s|..] == "\n"
  {
  }

  lemma LoneMarkerSettles(kit: Kit, text: string, body1: string, body2: string)
    requires kit.HasMarkers() && kit.Valid() && CleanBody(kit, body1) && LoneMarker(kit, text)
    ensures ContentAfter(kit, Some(ContentAfter(kit, Some(text), body1)), body2) == ContentAfter(kit, Some(text), body2)
       <==> body1 == body2 && !ManagedBlockHashMatches(kit, Swallowed(kit, text, body1))
  {
    hide IsHash, EndsWith, FindFrom, ManagedBlockHashMatches, WrapManagedBlock, CleanBody, Block, RangesFrom;
    hide ContentAfter, LoneMarker, Swallowed, MarkerAt;
    LoneMarkerRuns(kit, text, body1, body2);
    LoneMarkerAppends(kit, text, body1);
    LoneMarkerAppends(kit, text, body2);
    var i, lead := MarkerAt(kit, text), text + Separator(text);
    if ManagedBlockHashMatches(kit, Swallowed(kit, text, body1)) {
      assert |text[..i] + Block(kit, body2) + "\n"| < |lead + Block(kit, body2) + "\n"|;
    } else if body1 != body2 {
      DifferentBodiesDiffer(kit, lead, body1, body2);
    }
  }

  lemma DifferentBodiesDiffer(kit: Kit, lead: string, body1: string, body2: string)
    requires kit.Valid() && body1 != body2
    ensures lead + WrapManagedBlock(kit, body1) != lead + WrapManagedBlock(kit, body2)
  {
    hide IsHash, WrapManagedBlock;
    var wrap1, wrap2 := WrapManagedBlock(kit, body1), WrapManagedBlock(kit, body2);
    assert (lead + wrap1)[|lead|..] == wrap1 && (lead + wrap2)[|lead|..] == wrap2;
    if wrap1 == wrap2 { WrapTellsBody(kit, body1, body2); }
  }

  /**
   * For every file: two runs in a row leave what the second alone would have left, unless the file has a begin marker
   * with no end marker after it. There the second run finds its way blocked by the first, so that only a repetition of
   * the same body settles, and that as long as the swallowed text does not have the recorded hash.
   */
  lemma LastBlockWins(kit: Kit, existing: Option<string>, body1: string, body2: string)
    requires kit.HasMarkers() && kit.Valid() && CleanBody(kit, body1)
    ensures ContentAfter(kit, Some(ContentAfter(kit, existing, body1)), body2) == ContentAfter(kit, existing, body2)
       <==> existing.None? || !LoneMarker(kit, existing.value)
            || (body1 == body2 && !ManagedBlockHashMatches(kit, Swallowed(kit, existing.value, body1)))
  {
    hide IsHash, ManagedBlockHashMatches, CleanBody, RangesFrom, ContentAfter, Contains, Swallowed;
    if existing.None? {
      NewFileSettles(kit, body1, body2);
    } else if LoneMarker(kit, existing.value) {
      LoneMarkerSettles(kit, existing.value, body1, body2);
    } else if RangesFrom(kit, existing.value, 0) == [] {
      PlainTextSettles(kit, existing.value, body1, body2);
    } else if |RangesFrom(kit, existing.value, 0)| > 1 {
      SeveralBlocksSettle(kit, existing.value, body1, body2);
    } else {
      OneBlockSettles(kit, existing.value, body1, body2);
    }
  }

  /** A file that is nothing but a begin marker: the first body stays for good and the second is never written. */
  lemma LoneMarkerKeepsFirstBody(kit: Kit, body1: string, body2: string)
    requires kit.HasMarkers() && kit.Valid() && CleanBody(kit, body1)
    ensures ContentAfter(kit, Some(ContentAfter(kit, Some(kit.first), body1)), body2)
         == ContentAfter(kit, Some(kit.first), body1) == kit.first + "\n\n" + WrapManagedBlock(kit, body1)
  {
    hide IsHash, Frame, FindFrom, ManagedBlockHashMatches, WrapManagedBlock, CleanBody, Block, RangesFrom, ContentAfter;
    OnlyAMarker(kit);
    LoneMarkerAppends(kit, kit.first, body1);
    LoneMarkerRuns(kit, kit.first, body1, body2);
    SwallowedFails(kit, body1);
  }

  lemma OnlyAMarker(kit: Kit)
    requires kit.HasMarkers() && kit.Valid()
    ensures LoneMarker(kit, kit.first) && Separator(kit.first) == "\n\n" && FindFrom(kit.first, kit.first, 0) == Some(0)
  {
    hide IsHash, RangesFrom;
    ScanIsEmpty(kit, kit.first);
    assert kit.first[..|kit.first|] == kit.first;
    EndsInNewline(kit.first);
    assert At(kit.first, kit.first, 0);
  }

  /** Its second line is empty and records no hash. */
  lemma SwallowedFails(kit: Kit, body: string)
    requires kit.HasMarkers() && kit.Valid() && LoneMarker(kit, kit.first)
    requires Separator(kit.first) == "\n\n" && FindFrom(kit.first, kit.first, 0) == Some(0)
    ensures !ManagedBlockHashMatches(kit, Swallowed(kit, kit.first, body))
  {
    hide IsHash, FindFrom, Frame, StripEnd, TrimEnd, Join;
    var block := Block(kit, body);
    var swallowed := Swallowed(kit, kit.first, body);
    assert swallowed == kit.first + "\n" + ("\n" + block);
    SplitPart(kit.first, '\n', "\n" + block);
    SplitPart("", '\n', block);
    assert "" + "\n" + block == "\n" + block;
    assert Split(swallowed, '\n') == [kit.first] + ([""] + Split(block, '\n'));
    assert FindHash("", 0).None?;
  }

  /** A body changed by hand between the markers is left alone, unless its trimmed text has the recorded hash. */
  lemma EditsAreRespected(kit: Kit, prior: string, body: string, edited: string, after: string, block: string)
    requires kit.Valid() && !Contains(edited, kit.last)
    requires kit.HasMarkers() && !Contains(prior, kit.first) && RangesFrom(kit, after, 0) == []
    requires kit.hash(TrimEnd(edited)) != kit.hash(body) && block != Frame(kit, kit.hash(body), edited)
    ensures var text := prior + Frame(kit, kit.hash(body), edited) + after;
            && ReconcileManagedBlock(kit, Some(text), block, false) == Reconciled(text, Skipped, UserEditedManagedBlock)
            && ReconcileManagedBlock(kit, Some(text), block, true)
            == Reconciled(EndLine(prior + TrimEnd(block) + after), Overwritten, NoReason)
  {
    hide Frame, ManagedBlockHashMatches, RangesFrom, TrimEnd, IsHash, Contains, EndsWith;
    var frame := Frame(kit, kit.hash(body), edited);
    var text := prior + frame + after;
    FrameScansOnce(kit, kit.hash(body), edited, prior, after);
    FrameHash(kit, kit.hash(body), edited);
    assert text[|prior|..|prior| + |frame|] == frame;
    assert text[..|prior|] == prior && text[|prior| + |frame|..] == after;
  }

  /** The line records a hash at the position: `hash:` and 16 hexadecimal digits. */
  predicate Records(line: string, i: nat) {
    i + 21 <= |line| && line[i..i + 5] == "hash:" && IsHexDigest(line[i + 5..i + 21], 16)
  }

  ghost predicate RecordsNone(lines: seq<string>) {
    |lines| < 2 || forall i :: !Records(lines[1], i)
  }

  /** A block whose second line records no hash counts as edited by hand: it is left alone unless forced. */
  lemma UnhashedIsRespected(kit: Kit, text: string, block: string)
    requires kit.HasMarkers() && |RangesFrom(kit, text, 0)| == 1
    ensures var range := RangesFrom(kit, text, 0)[0];
            && range.start <= range.end <= |text|
            && var current := text[range.start..range.end];
            RecordsNone(Split(current, '\n')) && current != block ==>
              ReconcileManagedBlock(kit, Some(text), block, false)
              == Reconciled(text, Skipped, UserEditedManagedBlock)
  {
    hide RangesFrom, TrimEnd, EndsWith, Split, Records;
    RangesInBounds(kit, text);
    var range := RangesFrom(kit, text, 0)[0];
    var lines := Split(text[range.start..range.end], '\n');
    FoundHashStands(if |lines| > 1 then lines[1] else "", 0);
  }

  lemma {:induction false} FoundHashStands(s: string, from: nat)
    ensures FindHash(s, from).Some? ==> exists i :: from <= i && Records(s, i)
    decreases |s| - from
  {
    hide IsHexDigest;
    if from + 21 <= |s| {
      if HashAt(s, from) { assert Records(s, from); } else { FoundHashStands(s, from + 1); }
    }
  }

  /** The content is both texts around something, with at most a line end added. */
  ghost predicate KeepsAround(content: string, prior: string, after: string) {
    exists middle :: content == prior + middle + after || content == prior + middle + after + "\n"
  }

  lemma RangesInBounds(kit: Kit, text: string)
    requires kit.HasMarkers()
    ensures forall i :: 0 <= i < |RangesFrom(kit, text, 0)| ==>
              RangesFrom(kit, text, 0)[i].start <= RangesFrom(kit, text, 0)[i].end <= |text|
  {
    hide RangesFrom, NoBegin, NoBlockAfter, FollowsOn;
    RangesAreBlocks(kit, text, 0);
  }

  lemma KeepsSelf(text: string, start: nat, end: nat)
    requires start <= end <= |text|
    ensures KeepsAround(text, text[..start], text[end..])
  {
    assert text == text[..start] + text[start..end] + text[end..];
  }

  /** For every file and block, what stands outside the first range is kept byte for byte, forced or not. */
  lemma OutsideIsKept(kit: Kit, text: string, block: string, force: bool)
    requires kit.HasMarkers()
    ensures var content := ReconcileManagedBlock(kit, Some(text), block, force).content;
            var ranges := RangesFrom(kit, text, 0);
            && (forall i :: 0 <= i < |ranges| ==> ranges[i].start <= ranges[i].end <= |text|)
            && (ranges == [] ==> content == text + Separator(text) + block)
            && (ranges != [] ==> KeepsAround(content, text[..ranges[0].start], text[ranges[0].end..]))
  {
    hide RangesFrom, ManagedBlockHashMatches, TrimEnd, FindFrom, EndsWith, IsBlock, NoBegin, NoBlockAfter, FollowsOn;
    RangesInBounds(kit, text);
    var ranges := RangesFrom(kit, text, 0);
    if ranges != [] { KeepsSelf(text, ranges[0].start, ranges[0].end); }
  }

  // ----- Several blocks ----------------------------------------------------------------------------------------

  /** Two blocks are left alone; forced, the first is replaced and the second stays with the user's text. */
  lemma TwoBlocksNeedForce(kit: Kit, prior: string, body1: string, between: string, body2: string, after: string,
                           block: string)
    requires kit.Valid() && CleanBody(kit, body1) && CleanBody(kit, body2) && block != Block(kit, body1)
    requires kit.HasMarkers() && !Contains(prior, kit.first) && !Contains(between, kit.first)
    requires RangesFrom(kit, after, 0) == []
    ensures var rest := between + Block(kit, body2) + after;
            var text := prior + Block(kit, body1) + rest;
            && ReconcileManagedBlock(kit, Some(text), block, false) == Reconciled(text, Skipped, DuplicateManagedBlocks)
            && ReconcileManagedBlock(kit, Some(text), block, true)
            == Reconciled(EndLine(prior + TrimEnd(block) + rest), Updated, NoReason)
  {
    hide Frame, ManagedBlockHashMatches, RangesFrom, TrimEnd, IsHash, Contains, EndsWith;
    var rest := between + Block(kit, body2) + after;
    var text := prior + Block(kit, body1) + rest;
    var size := |prior| + |Block(kit, body1)|;
    FrameScansFirst(kit, kit.hash(body1), body1, prior, rest);
    FrameScansOnce(kit, kit.hash(body2), body2, between, after);
    BlockPasses(kit, body1);
    assert text[|prior|..size] == Block(kit, body1);
    assert text[..|prior|] == prior && text[size..] == rest;
  }
}
