/** The registry in plain terms: which names, versions and paths are accepted, what is rendered where, when it fails. */
module RegistryLaws {
  import opened Text
  import opened AgentTargets
  import opened CanonicalJson
  import opened SkillRegistry
  import opened SkillManifest

  // ----- The grammars -----------------------------------------------------------------------------

  /** A word of lower-case letters and digits. */
  predicate IsWord(word: string) {
    word != "" && forall k :: 0 <= k < |word| ==> 'a' <= word[k] <= 'z' || '0' <= word[k] <= '9'
  }

  predicate AllWords(words: seq<string>) {
    words != [] && forall k :: 0 <= k < |words| ==> IsWord(words[k])
  }

  lemma WordsFree(words: seq<string>)
    requires AllWords(words)
    ensures Free(words, '-') && Free(words, '_')
  {
  }

  /** Names are exactly the words joined by single hyphens. */
  lemma NamesAreWords(name: string)
    ensures IsSkillName(name) <==> exists words :: AllWords(words) && name == Join(words, '-')
  {
    hide Split, Join;
    if IsSkillName(name) {
      JoinSplit(name, '-');
      forall k | 0 <= k < |Split(name, '-')| ensures IsWord(Split(name, '-')[k]) { PartIsWord(name, k); }
      assert AllWords(Split(name, '-'));
    }
    if words :| AllWords(words) && name == Join(words, '-') {
      WordsFree(words);
      SplitJoin(words, '-');
      forall k | 0 <= k < |words|
        ensures words[k] != "" && forall i :: 0 <= i < |words[k]| ==> IsSlugChar(words[k][i])
      {
      }
    }
  }

  lemma PartIsWord(name: string, k: nat)
    requires IsSkillName(name) && k < |Split(name, '-')|
    ensures IsWord(Split(name, '-')[k])
  {
  }

  lemma NumbersAreDecimals(s: string)
    ensures IsVersionNumber(s) <==> exists n :: s == Dec(n)
  {
    if IsVersionNumber(s) {
      DecOfDecValue(s);
      assert s == Dec(DecValue(s));
    }
    if n :| s == Dec(n) {
      DecNoLeadingZero(n);
      assert n == 0 ==> Dec(n) == "0";
    }
  }

  /** Versions are exactly three numbers in plain decimal, joined by dots. */
  lemma VersionsAreNumbers(version: string)
    ensures IsVersion(version)
       <==> exists major, minor, patch :: version == Dec(major) + "." + Dec(minor) + "." + Dec(patch)
  {
    hide IsVersion, Dec;
    if IsVersion(version) { VersionIsNumbers(version); }
    if major, minor, patch :| version == Dec(major) + "." + Dec(minor) + "." + Dec(patch) {
      NumbersAreVersion(major, minor, patch);
    }
  }

  lemma VersionIsNumbers(version: string)
    requires IsVersion(version)
    ensures exists major, minor, patch :: version == Dec(major) + "." + Dec(minor) + "." + Dec(patch)
  {
    hide IsVersionNumber, Dec;
    var parts := Split(version, '.');
    JoinSplit(version, '.');
    ThreeJoined(parts);
    NumbersAreDecimals(parts[0]);
    NumbersAreDecimals(parts[1]);
    NumbersAreDecimals(parts[2]);
    var major, minor, patch :| parts[0] == Dec(major) && parts[1] == Dec(minor) && parts[2] == Dec(patch);
    assert version == Dec(major) + "." + Dec(minor) + "." + Dec(patch);
  }

  lemma NumbersAreVersion(major: nat, minor: nat, patch: nat)
    ensures IsVersion(Dec(major) + "." + Dec(minor) + "." + Dec(patch))
  {
    hide IsVersionNumber, Dec;
    var parts := [Dec(major), Dec(minor), Dec(patch)];
    ThreeJoined(parts);
    assert Free(parts, '.');
    SplitJoin(parts, '.');
    NumbersAreDecimals(parts[0]);
    NumbersAreDecimals(parts[1]);
    NumbersAreDecimals(parts[2]);
  }

  lemma ThreeJoined(parts: seq<string>)
    requires |parts| == 3
    ensures Join(parts, '.') == parts[0] + "." + parts[1] + "." + parts[2]
  {
    assert Join(parts[2..], '.') == parts[2];
    assert Join(parts[1..], '.') == parts[1] + "." + parts[2];
    assert parts[0] + "." + (parts[1] + "." + parts[2]) == parts[0] + "." + parts[1] + "." + parts[2];
  }

  // ----- Paths --------------------------------------------------------------------------------------

  /** Where the segment with index `k` starts. */
  function Start(segments: seq<string>, k: nat): nat
    requires k <= |segments|
  {
    if k == 0 then 0 else Start(segments, k - 1) + |segments[k - 1]| + 1
  }

  lemma {:induction false} SegmentStands(segments: seq<string>, k: nat)
    requires k < |segments|
    ensures var s, i := Join(segments, '/'), Start(segments, k);
            && i + |segments[k]| <= |s| && s[i..i + |segments[k]|] == segments[k]
            && (i == 0 || s[i - 1] == '/') && (i == 0 <==> k == 0)
            && (k + 1 == |segments| ==> i + |segments[k]| == |s|)
            && (k + 1 < |segments| ==> i + |segments[k]| < |s| && s[i + |segments[k]|] == '/')
  {
    var s := Join(segments, '/');
    if |segments| > 1 {
      var rest := segments[1..];
      assert s == segments[0] + ['/'] + Join(rest, '/');
      if k > 0 {
        SegmentStands(rest, k - 1);
        StartShifts(segments, k);
        var i, j := Start(segments, k), Start(rest, k - 1);
        assert s[i..i + |segments[k]|] == Join(rest, '/')[j..j + |segments[k]|];
        if j > 0 { assert s[i - 1] == Join(rest, '/')[j - 1]; }
      }
    }
  }

  lemma {:induction false} StartShifts(segments: seq<string>, k: nat)
    requires 0 < k <= |segments|
    ensures Start(segments, k) == |segments[0]| + 1 + Start(segments[1..], k - 1)
  {
    if k > 1 { StartShifts(segments, k - 1); }
  }

  lemma {:induction false} SplitConcat(a: string, sep: char, b: string)
    ensures Split(a + [sep] + b, sep) == Split(a, sep) + Split(b, sep)
  {
    var s := a + [sep] + b;
    if a == "" {
      assert s == [sep] + b && s[1..] == b;
    } else {
      SplitConcat(a[1..], sep, b);
      assert s[1..] == a[1..] + [sep] + b && s[0] == a[0];
      FirstPart(a[0], Split(a[1..], sep), Split(b, sep), sep);
    }
  }

  /** Putting a character in front of the first part commutes with adding parts at the end. */
  lemma FirstPart(c: char, parts: seq<string>, more: seq<string>, sep: char)
    requires parts != []
    ensures [[c] + (parts + more)[0]] + (parts + more)[1..] == [[c] + parts[0]] + parts[1..] + more
    ensures [""] + (parts + more) == [""] + parts + more
  {
  }

  lemma {:induction false} StartAfter(parts: seq<string>, more: seq<string>)
    requires parts != []
    ensures Start(parts + more, |parts|) == |Join(parts, '/')| + 1
  {
    if |parts| > 1 {
      StartAfter(parts[1..], more);
      StartShifts(parts + more, |parts|);
      assert (parts + more)[1..] == parts[1..] + more;
    } else {
      assert Start(parts + more, 1) == Start(parts + more, 0) + |(parts + more)[0]| + 1;
    }
  }

  /** A climbing position is the start of a segment `..`. */
  lemma ClimbIsSegment(path: string, i: nat) returns (k: nat)
    requires ClimbsAt(path, i)
    ensures var segments := Split(path, '/'); k < |segments| && segments[k] == ".." && Start(segments, k) == i
  {
    hide Split, Join, IsLineEnd;
    var rest := path[i..];
    var tail := path[i + 2..];
    assert rest == ".." + tail;
    if tail == "" {
      SplitPart("..", '/', "");
      assert rest == "..";
    } else {
      SplitPart("..", '/', tail[1..]);
      assert rest == ".." + ['/'] + tail[1..];
    }
    assert Split(rest, '/')[0] == "..";
    if i == 0 {
      k := 0;
      assert path == rest;
    } else {
      var front := path[..i - 1];
      assert path == front + ['/'] + rest;
      SplitConcat(front, '/', rest);
      k := |Split(front, '/')|;
      JoinSplit(front, '/');
      StartAfter(Split(front, '/'), Split(rest, '/'));
    }
  }

  /**
   * A relative path is not empty, has no zero character, does not start with a slash, and has no segment `..` before
   * its first line end; a path of one line has no such segment at all.
   */
  lemma PathsNeverClimb(path: string)
    ensures IsRelativePath(path)
       <==> path != "" && path[0] != '/' && '\0' !in path
            && forall k :: 0 <= k < |Split(path, '/')| && Split(path, '/')[k] == ".." ==>
                 exists j :: 0 <= j < Start(Split(path, '/'), k) && j < |path| && IsLineEnd(path[j])
  {
    hide Split, Join, IsLineEnd;
    var segments := Split(path, '/');
    JoinSplit(path, '/');
    if !IsRelativePath(path) && path != "" && path[0] != '/' && '\0' !in path {
      var i :| 0 <= i < |path| && ClimbsAt(path, i);
      var k := ClimbIsSegment(path, i);
      assert !exists j :: 0 <= j < Start(segments, k) && j < |path| && IsLineEnd(path[j]);
    }
    if IsRelativePath(path) {
      forall k | 0 <= k < |segments| && segments[k] == ".."
        ensures exists j :: 0 <= j < Start(segments, k) && j < |path| && IsLineEnd(path[j])
      {
        SegmentStands(segments, k);
        var i := Start(segments, k);
        assert path[i..i + 2] == "..";
        assert path[i] == path[i..i + 2][0] && path[i + 1] == path[i..i + 2][1];
        assert !ClimbsAt(path, i);
      }
    }
  }

  // ----- The registry ---------------------------------------------------------------------------------

  /** What a definition must be to be accepted. */
  lemma ValidSkillIsSpelled(d: SkillDefinition)
    ensures ValidSkill(d)
       <==> && (exists words :: AllWords(words) && d.name == Join(words, '-')) && |d.name| <= 100
            && Trim(d.description) != "" && |d.description| <= 300 && '\n' !in d.description
            && (exists major, minor, patch :: d.version == Dec(major) + "." + Dec(minor) + "." + Dec(patch))
            && (d.supportedHosts == [Codex] || d.supportedHosts == [ClaudeCode]
                || d.supportedHosts == [Codex, ClaudeCode] || d.supportedHosts == [ClaudeCode, Codex])
            && (forall k :: 0 <= k < |d.files| ==>
                  && IsRelativePath(d.files[k].relPath) && d.files[k].relPath !in ["", "SKILL.md"]
                  && |d.files[k].relPath| <= 300 && d.files[k].relPath[|d.files[k].relPath| - 1] != '/')
            && (forall i, j :: 0 <= i < j < |d.files| ==> d.files[i].relPath != d.files[j].relPath)
  {
    hide IsSkillName, IsVersion, IsRelativePath, AllWords, Dec, Join, Trim;
    NamesAreWords(d.name);
    VersionsAreNumbers(d.version);
    HostLists(d.supportedHosts);
    forall k | 0 <= k < |d.files|
      ensures ValidFilePath(d.files[k].relPath)
         <==> && IsRelativePath(d.files[k].relPath) && d.files[k].relPath !in ["", "SKILL.md"]
              && |d.files[k].relPath| <= 300 && d.files[k].relPath[|d.files[k].relPath| - 1] != '/'
    {
      FilePathIsSpelled(d.files[k].relPath);
    }
  }

  lemma FilePathIsSpelled(path: string)
    ensures IsRelativePath(path) ==> path != ""
    ensures ValidFilePath(path)
       <==> IsRelativePath(path) && path != "SKILL.md" && |path| <= 300 && path[|path| - 1] != '/'
  {
    hide ClimbsAt;
    if path != "" {
      var n := |path| - 1;
      assert path[n..] == [path[n]];
    }
  }

  lemma HostLists(hosts: seq<AgentTarget>)
    ensures hosts != [] && DistinctHosts(hosts)
       <==> hosts == [Codex] || hosts == [ClaudeCode] || hosts == [Codex, ClaudeCode] || hosts == [ClaudeCode, Codex]
  {
    if |hosts| == 1 {
      assert hosts == [hosts[0]] && (hosts[0] == Codex || hosts[0] == ClaudeCode);
    } else if |hosts| == 2 {
      assert hosts == [hosts[0], hosts[1]] && (hosts[0] == Codex || hosts[0] == ClaudeCode);
    } else if |hosts| > 2 {
      assert hosts[0] == hosts[1] || hosts[0] == hosts[2] || hosts[1] == hosts[2];
    }
  }

  // ----- The files ------------------------------------------------------------------------------------

  /** The stamped `SKILL.md`: front matter, a line with the version and the body's hash, and the whole body. */
  lemma StampIsSpelled(d: SkillDefinition, body: string, hash: string -> string)
    ensures StampSkill(d, body, hash)
         == Join(["---", "name: " + d.name, "description: " + Quote(d.description), "---", "",
                  "<!-- noodle-skill version:" + d.version + " hash:" + hash(body) + " -->", ""], '\n')
            + "\n" + body + "\n"
  {
    hide Quote, Join;
    var lines := ["---", "name: " + d.name, "description: " + Quote(d.description), "---", "",
                  "<!-- noodle-skill version:" + d.version + " hash:" + hash(body) + " -->", "", body, ""];
    LastJoined(lines, 8);
    LastJoined(lines, 7);
    assert lines[..9] == lines && lines[..7] + [body, ""] == lines;
    assert lines[..7] == ["---", "name: " + d.name, "description: " + Quote(d.description), "---", "",
                          "<!-- noodle-skill version:" + d.version + " hash:" + hash(body) + " -->", ""];
  }

  lemma {:induction false} LastJoined(lines: seq<string>, n: nat)
    requires 0 < n < |lines|
    ensures Join(lines[..n + 1], '\n') == Join(lines[..n], '\n') + "\n" + lines[n]
  {
    var more, some := lines[..n + 1], lines[..n];
    if n > 1 {
      LastJoined(lines[1..], n - 1);
      assert more[1..] == lines[1..][..n] && some[1..] == lines[1..][..n - 1];
    } else {
      assert more[1..] == [lines[1]];
    }
  }

  /** The directory a skill is published in, and the one it is installed in. */
  function PublishedIn(d: SkillDefinition, host: AgentTarget): string {
    "skills/" + (match host case Codex => "codex" case ClaudeCode => "claude-code")
    + if d.publishAtTargetRoot then "" else "/" + d.name
  }

  function InstalledIn(d: SkillDefinition, host: AgentTarget): string {
    (match host case Codex => ".agents/skills" case ClaudeCode => ".claude/skills") + "/" + d.name
  }

  /** A rendered file: where it goes, what it holds and what it says of its skill. */
  predicate IsRendered(file: RegisteredFile, d: SkillDefinition, host: AgentTarget, relPath: string, content: string) {
    && file.skill == d.name && file.skillVersion == d.version && file.target == host
    && file.relPath == relPath && file.content == content
    && file.publishPath == PublishedIn(d, host) + "/" + relPath
    && file.installedPath == InstalledIn(d, host) + "/" + relPath
  }

  /** A supported skill's files: the stamped `SKILL.md` of its body for the host, then its own files in order. */
  lemma FilesAreSpelled(d: SkillDefinition, host: AgentTarget, hash: string -> string)
    ensures var files := FilesOf(d, host, hash);
            && (host !in d.supportedHosts ==> files == [])
            && (host in d.supportedHosts ==>
                  && |files| == |d.files| + 1
                  && IsRendered(files[0], d, host, "SKILL.md", StampSkill(d, d.renderBody(host), hash))
                  && forall k :: 0 <= k < |d.files| ==>
                       IsRendered(files[k + 1], d, host, d.files[k].relPath, d.files[k].render(host)))
  {
    hide StampSkill;
    forall relPath, content ensures IsRendered(FileOf(d, host, relPath, content), d, host, relPath, content) {
      assert PublishBase(d, host) == PublishedIn(d, host);
    }
  }

  // ----- When rendering fails ---------------------------------------------------------------------------

  /** What a skill's author must supply for a host: no blank body and no blank file. */
  predicate IsFilled(d: SkillDefinition, host: AgentTarget) {
    host in d.supportedHosts ==>
      && Trim(d.renderBody(host)) != ""
      && forall k :: 0 <= k < |d.files| ==> Trim(d.files[k].render(host)) != ""
  }

  /** A file of the target-root skill is called as another skill's `SKILL.md` or own file is published. */
  predicate Overlaps(root: SkillDefinition, other: SkillDefinition, host: AgentTarget) {
    && root.publishAtTargetRoot && !other.publishAtTargetRoot
    && host in root.supportedHosts && host in other.supportedHosts
    && exists k :: 0 <= k < |root.files| && Publishes(other, root.files[k].relPath)
  }

  predicate Publishes(d: SkillDefinition, path: string) {
    || path == d.name + "/" + "SKILL.md"
    || exists k :: 0 <= k < |d.files| && path == d.name + "/" + d.files[k].relPath
  }

  lemma {:induction false} FlatHolds(definitions: seq<SkillDefinition>, host: AgentTarget, hash: string -> string,
                                     m: nat, k: nat) returns (i: nat)
    requires m < |definitions| && k < |FilesOf(definitions[m], host, hash)|
    ensures i < |FlatFiles(definitions, host, hash)|
    ensures FlatFiles(definitions, host, hash)[i] == FilesOf(definitions[m], host, hash)[k]
    decreases |definitions|
  {
    hide FilesOf;
    var n: nat := |definitions| - 1;
    if m == n {
      i := |FlatFiles(definitions[..n], host, hash)| + k;
    } else {
      assert definitions[..n][m] == definitions[m];
      i := FlatHolds(definitions[..n], host, hash, m, k);
    }
  }

  lemma {:induction false} FlatComesFrom(definitions: seq<SkillDefinition>, host: AgentTarget, hash: string -> string,
                                         i: nat) returns (m: nat, k: nat)
    requires i < |FlatFiles(definitions, host, hash)|
    ensures m < |definitions| && k < |FilesOf(definitions[m], host, hash)|
    ensures FlatFiles(definitions, host, hash)[i] == FilesOf(definitions[m], host, hash)[k]
    decreases |definitions|
  {
    hide FilesOf;
    var n: nat := |definitions| - 1;
    var before := FlatFiles(definitions[..n], host, hash);
    if i < |before| {
      m, k := FlatComesFrom(definitions[..n], host, hash, i);
      assert definitions[..n][m] == definitions[m];
    } else {
      m, k := n, i - |before|;
    }
  }

  lemma NotBlank(s: string)
    requires s != "" && !IsSpace(s[0])
    ensures Trim(s) != ""
  {
    hide IsSpace;
    var after := TrimEndDrops(TrimStart(s));
  }

  lemma StampIsNotBlank(d: SkillDefinition, body: string, hash: string -> string)
    ensures Trim(StampSkill(d, body, hash)) != ""
  {
    hide Trim, Quote;
    assert StampSkill(d, body, hash)[0] == '-';
    NotBlank(StampSkill(d, body, hash));
  }

  /** Nothing rendered is blank exactly when every skill of the host is filled. */
  lemma FilledIsNonblank(definitions: seq<SkillDefinition>, host: AgentTarget, hash: string -> string)
    ensures NonblankBodies(definitions, host) && Nonblank(FlatFiles(definitions, host, hash))
       <==> forall m :: 0 <= m < |definitions| ==> IsFilled(definitions[m], host)
  {
    hide Trim, StampSkill, FlatFiles, FilesOf;
    var files := FlatFiles(definitions, host, hash);
    if NonblankBodies(definitions, host) && Nonblank(files) {
      forall m | 0 <= m < |definitions| ensures IsFilled(definitions[m], host) {
        var d := definitions[m];
        FilesAreSpelled(d, host, hash);
        if host in d.supportedHosts {
          forall k | 0 <= k < |d.files| ensures Trim(d.files[k].render(host)) != "" {
            var i := FlatHolds(definitions, host, hash, m, k + 1);
          }
        }
      }
    }
    if forall m :: 0 <= m < |definitions| ==> IsFilled(definitions[m], host) {
      forall i | 0 <= i < |files| ensures Trim(files[i].content) != "" {
        var m, k := FlatComesFrom(definitions, host, hash, i);
        var d := definitions[m];
        FilesAreSpelled(d, host, hash);
        StampIsNotBlank(d, d.renderBody(host), hash);
        if k > 0 { assert IsRendered(files[i], d, host, d.files[k - 1].relPath, d.files[k - 1].render(host)); }
      }
    }
  }

  lemma SkillMdHasNoSlash()
    ensures '/' !in "SKILL.md"
  {
  }

  lemma ClashIsOverlap(definitions: seq<SkillDefinition>, host: AgentTarget, hash: string -> string, i: nat, j: nat)
    requires Accepted(definitions)
    requires i < |FlatFiles(definitions, host, hash)| && j < |FlatFiles(definitions, host, hash)|
    requires Clash(definitions, FlatFiles(definitions, host, hash)[i], FlatFiles(definitions, host, hash)[j])
    ensures exists m, n :: 0 <= m < |definitions| && 0 <= n < |definitions|
              && Overlaps(definitions[m], definitions[n], host)
  {
    hide StampSkill, FlatFiles, FilesOf, ValidSkill, PublishedIn, InstalledIn, Accepted, AtRoot;
    var a, b := FlatFiles(definitions, host, hash)[i], FlatFiles(definitions, host, hash)[j];
    var m, k := FlatComesFrom(definitions, host, hash, i);
    var n, l := FlatComesFrom(definitions, host, hash, j);
    var root, other := definitions[m], definitions[n];
    FilesAreSpelled(root, host, hash);
    FilesAreSpelled(other, host, hash);
    RootOfOrigin(definitions, m);
    RootOfOrigin(definitions, n);
    if k > 0 { assert IsRendered(a, root, host, root.files[k - 1].relPath, root.files[k - 1].render(host)); }
    if l > 0 { assert IsRendered(b, other, host, other.files[l - 1].relPath, other.files[l - 1].render(host)); }
    assert a.relPath[|b.skill|] == '/';
    if k == 0 { SkillMdHasNoSlash(); }
    assert Publishes(other, root.files[k - 1].relPath);
    assert Overlaps(root, other, host);
  }

  lemma OverlapIsClash(definitions: seq<SkillDefinition>, host: AgentTarget, hash: string -> string, m: nat, n: nat)
    requires Accepted(definitions) && m < |definitions| && n < |definitions|
    requires Overlaps(definitions[m], definitions[n], host)
    ensures var files := FlatFiles(definitions, host, hash);
            exists i, j :: 0 <= i < |files| && 0 <= j < |files| && Clash(definitions, files[i], files[j])
  {
    hide StampSkill, FlatFiles, FilesOf, ValidSkill, PublishedIn, InstalledIn, Accepted, AtRoot;
    var root, other := definitions[m], definitions[n];
    FilesAreSpelled(root, host, hash);
    FilesAreSpelled(other, host, hash);
    RootOfOrigin(definitions, m);
    RootOfOrigin(definitions, n);
    var k :| 0 <= k < |root.files| && Publishes(other, root.files[k].relPath);
    var path := root.files[k].relPath;
    var i := FlatHolds(definitions, host, hash, m, k + 1);
    var l := if path == other.name + "/" + "SKILL.md" then 0
             else var l :| 0 <= l < |other.files| && path == other.name + "/" + other.files[l].relPath; l + 1;
    var j := FlatHolds(definitions, host, hash, n, l);
    assert Clash(definitions, FlatFiles(definitions, host, hash)[i], FlatFiles(definitions, host, hash)[j]);
  }

  /**
   * An accepted registry renders for a host exactly when every skill of the host is filled and no file of the
   * target-root skill overlaps another skill's published files.
   */
  lemma RendersExactly(definitions: seq<SkillDefinition>, host: AgentTarget, hash: string -> string)
    requires Accepted(definitions)
    ensures Renders(definitions, host, hash)
       <==> && (forall m :: 0 <= m < |definitions| ==> IsFilled(definitions[m], host))
            && (forall m, n :: 0 <= m < |definitions| && 0 <= n < |definitions| ==>
                  !Overlaps(definitions[m], definitions[n], host))
  {
    hide Accepted, FlatFiles, NonblankBodies, Nonblank, IsFilled, Overlaps, DistinctPublish, DistinctInstalled, Clash;
    var files := FlatFiles(definitions, host, hash);
    FilledIsNonblank(definitions, host, hash);
    DuplicatesComeFromTheRoot(definitions, host, hash);
    if i, j :| 0 <= i < |files| && 0 <= j < |files| && Clash(definitions, files[i], files[j]) {
      ClashIsOverlap(definitions, host, hash, i, j);
    } else {
      forall m, n | 0 <= m < |definitions| && 0 <= n < |definitions|
        ensures !Overlaps(definitions[m], definitions[n], host)
      {
        if Overlaps(definitions[m], definitions[n], host) { OverlapIsClash(definitions, host, hash, m, n); }
      }
    }
  }

  // ----- Both hosts -------------------------------------------------------------------------------------

  predicate HasFile(definitions: seq<SkillDefinition>, m: int, k: int, host: AgentTarget, hash: string -> string) {
    0 <= m < |definitions| && 0 <= k < |FilesOf(definitions[m], host, hash)|
  }

  /** A rendered file is file `k` of skill `m` for a host. */
  predicate IsFile(file: RegisteredFile, definitions: seq<SkillDefinition>, m: int, k: int, host: AgentTarget,
                   hash: string -> string) {
    HasFile(definitions, m, k, host, hash) && file == FilesOf(definitions[m], host, hash)[k]
  }

  /** What is published and listed is every file of every skill for each of its hosts, and nothing else. */
  lemma EveryFileIsListed(definitions: seq<SkillDefinition>, hash: string -> string)
    ensures forall file :: file in AllFiles(definitions, hash)
              <==> exists m, k, host :: IsFile(file, definitions, m, k, host, hash)
  {
    hide FilesOf, FlatFiles;
    var codex, claude := FlatFiles(definitions, Codex, hash), FlatFiles(definitions, ClaudeCode, hash);
    forall m, k, host | HasFile(definitions, m, k, host, hash)
      ensures FilesOf(definitions[m], host, hash)[k] in AllFiles(definitions, hash)
    {
      var i := FlatHolds(definitions, host, hash, m, k);
      assert FilesOf(definitions[m], host, hash)[k] in FlatFiles(definitions, host, hash);
      assert host == Codex || host == ClaudeCode;
    }
    forall file | file in AllFiles(definitions, hash)
      ensures exists m, k, host :: IsFile(file, definitions, m, k, host, hash)
    {
      var host := if file in codex then Codex else ClaudeCode;
      assert file in FlatFiles(definitions, host, hash);
      var i :| 0 <= i < |FlatFiles(definitions, host, hash)| && FlatFiles(definitions, host, hash)[i] == file;
      var m, k := FlatComesFrom(definitions, host, hash, i);
      assert IsFile(file, definitions, m, k, host, hash);
    }
  }

  /** An accepted registry renders for both hosts exactly when it renders for each of them. */
  lemma RendersEverywhere(definitions: seq<SkillDefinition>, hash: string -> string)
    requires Accepted(definitions)
    ensures RendersAll(definitions, hash)
       <==> && (forall m, host :: 0 <= m < |definitions| ==> IsFilled(definitions[m], host))
            && (forall m, n, host :: 0 <= m < |definitions| && 0 <= n < |definitions| ==>
                  !Overlaps(definitions[m], definitions[n], host))
  {
    hide Accepted, Renders, IsFilled, Overlaps;
    RendersExactly(definitions, Codex, hash);
    RendersExactly(definitions, ClaudeCode, hash);
    if RendersAll(definitions, hash) {
      forall m, host | 0 <= m < |definitions| ensures IsFilled(definitions[m], host) {
        assert host == Codex || host == ClaudeCode;
      }
      forall m, n, host | 0 <= m < |definitions| && 0 <= n < |definitions|
        ensures !Overlaps(definitions[m], definitions[n], host)
      {
        assert host == Codex || host == ClaudeCode;
      }
    }
  }
}
