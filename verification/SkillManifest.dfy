/** The published manifest: installed paths never meet, and every entry carries its own file's installed path. */
module SkillManifest {
  import opened Text
  import opened AgentTargets
  import opened SkillRegistry

  // ----- Paths tell their skill ------------------------------------------------------------------------------

  lemma NameHasNoSlash(name: string)
    requires IsSkillName(name)
    ensures '/' !in name
  {
    JoinSplit(name, '-');
    if '/' in name { JoinChars(Split(name, '-'), '-', '/'); }
  }

  lemma SlashSplit(n1: string, r1: string, n2: string, r2: string)
    requires '/' !in n1 && '/' !in n2 && n1 + "/" + r1 == n2 + "/" + r2
    ensures n1 == n2 && r1 == r2
  {
    var s := n1 + "/" + r1;
    assert s[..|n1|] == n1 && s[..|n2|] == n2;
    IndexOfUnique(s, '/', |n1|);
    IndexOfUnique(s, '/', |n2|);
    assert s[|n1| + 1..] == r1 && s[|n2| + 1..] == r2;
  }

  lemma RootsTell(h1: AgentTarget, x1: string, h2: AgentTarget, x2: string)
    requires InstalledRoot(h1) + "/" + x1 == InstalledRoot(h2) + "/" + x2
    ensures h1 == h2 && x1 == x2
  {
    var s := InstalledRoot(h1) + "/" + x1;
    assert |".agents/skills"| == 14 && |".claude/skills"| == 14;
    assert s[1] == InstalledRoot(h1)[1] && s[1] == InstalledRoot(h2)[1];
    assert s[15..] == x1 && s[15..] == x2;
  }

  /** An installed path names its host, skill and file. */
  lemma InstalledTells(h1: AgentTarget, n1: string, r1: string, h2: AgentTarget, n2: string, r2: string)
    requires InstalledPath(n1, h1, r1) == InstalledPath(n2, h2, r2) && '/' !in n1 && '/' !in n2
    ensures h1 == h2 && n1 == n2 && r1 == r2
  {
    hide InstalledRoot;
    assert InstalledPath(n1, h1, r1) == InstalledRoot(h1) + "/" + (n1 + "/" + r1);
    assert InstalledPath(n2, h2, r2) == InstalledRoot(h2) + "/" + (n2 + "/" + r2);
    RootsTell(h1, n1 + "/" + r1, h2, n2 + "/" + r2);
    SlashSplit(n1, r1, n2, r2);
  }

  /** A published path below its host's directory. */
  function Below(d: SkillDefinition, relPath: string): string {
    if d.publishAtTargetRoot then relPath else d.name + "/" + relPath
  }

  lemma PublishShape(d: SkillDefinition, host: AgentTarget, relPath: string)
    ensures PublishBase(d, host) + "/" + relPath == "skills/" + Name(host) + "/" + Below(d, relPath)
  {
    hide Name;
    if !d.publishAtTargetRoot {
      assert "skills/" + Name(host) + "/" + d.name + "/" + relPath
          == "skills/" + Name(host) + "/" + (d.name + "/" + relPath);
    }
  }

  lemma HostsTell(h1: AgentTarget, x1: string, h2: AgentTarget, x2: string)
    requires "skills/" + Name(h1) + "/" + x1 == "skills/" + Name(h2) + "/" + x2
    ensures h1 == h2 && x1 == x2
  {
    var s := "skills/" + Name(h1) + "/" + x1;
    assert s[8] == Name(h1)[1] && s[8] == Name(h2)[1];
    assert s[8 + |Name(h1)|..] == x1 && s[8 + |Name(h2)|..] == x2;
  }

  // ----- Files and their skills -------------------------------------------------------------------------------

  /** A rendered file is one of skill `d` for the host. */
  predicate FileFrom(file: RegisteredFile, d: SkillDefinition, host: AgentTarget) {
    && file == FileOf(d, host, file.relPath, file.content)
    && (file.relPath == SKILL_MD || exists k :: 0 <= k < |d.files| && d.files[k].relPath == file.relPath)
  }

  lemma {:induction false} FlatOrigin(definitions: seq<SkillDefinition>, host: AgentTarget, hash: string -> string,
                                      i: nat)
    returns (m: nat)
    requires i < |FlatFiles(definitions, host, hash)|
    ensures m < |definitions| && FileFrom(FlatFiles(definitions, host, hash)[i], definitions[m], host)
    decreases |definitions|
  {
    hide StampSkill, InstalledPath, PublishBase;
    var init, last := definitions[..|definitions| - 1], definitions[|definitions| - 1];
    var before := FlatFiles(init, host, hash);
    if i < |before| {
      m := FlatOrigin(init, host, hash, i);
    } else {
      m := |definitions| - 1;
      var file := FilesOf(last, host, hash)[i - |before|];
      if i > |before| { assert last.files[i - |before| - 1].relPath == file.relPath; }
    }
  }

  predicate DistinctFilesOf(files: seq<RegisteredFile>) {
    forall i, j :: 0 <= i < j < |files| ==> files[i].skill != files[j].skill || files[i].relPath != files[j].relPath
  }

  lemma OwnFilesDistinct(d: SkillDefinition, host: AgentTarget, hash: string -> string)
    requires ValidSkill(d)
    ensures DistinctFilesOf(FilesOf(d, host, hash))
  {
    hide StampSkill, InstalledPath, PublishBase, IsRelativePath;
    var files := FilesOf(d, host, hash);
    if files != [] {
      forall i, j | 0 <= i < j < |files| ensures files[i].relPath != files[j].relPath {
        assert ValidFilePath(d.files[j - 1].relPath);
      }
    }
  }

  lemma AcceptedPrefix(definitions: seq<SkillDefinition>)
    requires Accepted(definitions) && definitions != []
    ensures Accepted(definitions[..|definitions| - 1]) && ValidSkill(definitions[|definitions| - 1])
  {
    hide ValidSkill;
  }

  /** In an accepted registry no two files have both skill and relative path in common. */
  lemma {:induction false} SkillFilesDistinct(definitions: seq<SkillDefinition>, host: AgentTarget,
                                              hash: string -> string)
    requires Accepted(definitions)
    ensures DistinctFilesOf(FlatFiles(definitions, host, hash))
  {
    hide StampSkill, InstalledPath, PublishBase, ValidSkill, OneTargetRoot, FilesOf;
    if definitions != [] {
      var init, last := definitions[..|definitions| - 1], definitions[|definitions| - 1];
      AcceptedPrefix(definitions);
      SkillFilesDistinct(init, host, hash);
      OwnFilesDistinct(last, host, hash);
      var before, mine := FlatFiles(init, host, hash), FilesOf(last, host, hash);
      forall i, j | 0 <= i < |before| && 0 <= j < |mine| ensures before[i].skill != mine[j].skill {
        var m := FlatOrigin(init, host, hash, i);
        assert definitions[m].name != last.name;
        OwnSkill(last, host, hash, j);
      }
      var all := before + mine;
      assert all == FlatFiles(definitions, host, hash);
      forall i, j | 0 <= i < j < |all| ensures all[i].skill != all[j].skill || all[i].relPath != all[j].relPath {
        if j < |before| {
          assert all[i] == before[i] && all[j] == before[j];
        } else if i >= |before| {
          assert all[i] == mine[i - |before|] && all[j] == mine[j - |before|];
        } else {
          assert all[i] == before[i] && all[j] == mine[j - |before|];
        }
      }
    }
  }

  lemma OwnSkill(d: SkillDefinition, host: AgentTarget, hash: string -> string, j: nat)
    requires j < |FilesOf(d, host, hash)|
    ensures FilesOf(d, host, hash)[j].skill == d.name
  {
    hide StampSkill, InstalledPath, PublishBase;
    var files := FilesOf(d, host, hash);
    assert j > 0 ==> files[j] == FileOf(d, host, d.files[j - 1].relPath, d.files[j - 1].render(host));
    assert j == 0 ==> files[j] == FileOf(d, host, SKILL_MD, StampSkill(d, d.renderBody(host), hash));
  }

  // ----- Installed paths ---------------------------------------------------------------------------------------

  /** Two files with one installed path have the same host, skill and relative path. */
  lemma SameInstalled(definitions: seq<SkillDefinition>, h1: AgentTarget, h2: AgentTarget, hash: string -> string,
                      i: nat, j: nat)
    requires Accepted(definitions) && i < |FlatFiles(definitions, h1, hash)| && j < |FlatFiles(definitions, h2, hash)|
    requires FlatFiles(definitions, h1, hash)[i].installedPath == FlatFiles(definitions, h2, hash)[j].installedPath
    ensures h1 == h2
    ensures FlatFiles(definitions, h1, hash)[i].skill == FlatFiles(definitions, h2, hash)[j].skill
    ensures FlatFiles(definitions, h1, hash)[i].relPath == FlatFiles(definitions, h2, hash)[j].relPath
  {
    hide StampSkill, InstalledPath, PublishBase, FlatFiles, IsSkillName, IsVersion;
    var a, b := FlatFiles(definitions, h1, hash)[i], FlatFiles(definitions, h2, hash)[j];
    var m := FlatOrigin(definitions, h1, hash, i);
    var n := FlatOrigin(definitions, h2, hash, j);
    assert ValidSkill(definitions[m]) && ValidSkill(definitions[n]);
    NameHasNoSlash(a.skill);
    NameHasNoSlash(b.skill);
    InstalledTells(h1, a.skill, a.relPath, h2, b.skill, b.relPath);
  }

  /** Every file the tool renders, for both hosts. */
  function AllFiles(definitions: seq<SkillDefinition>, hash: string -> string): seq<RegisteredFile> {
    FlatFiles(definitions, Codex, hash) + FlatFiles(definitions, ClaudeCode, hash)
  }

  /** In every accepted registry the installed paths are pairwise distinct, across skills and hosts. */
  lemma InstalledPathsDistinct(definitions: seq<SkillDefinition>, hash: string -> string)
    requires Accepted(definitions)
    ensures DistinctInstalled(AllFiles(definitions, hash))
  {
    hide FlatFiles, Accepted;
    var x, y := FlatFiles(definitions, Codex, hash), FlatFiles(definitions, ClaudeCode, hash);
    SkillFilesDistinct(definitions, Codex, hash);
    SkillFilesDistinct(definitions, ClaudeCode, hash);
    var all := AllFiles(definitions, hash);
    forall i, j | 0 <= i < j < |all| ensures all[i].installedPath != all[j].installedPath {
      var h1 := if i < |x| then Codex else ClaudeCode;
      var h2 := if j < |x| then Codex else ClaudeCode;
      var p, q := if i < |x| then i else i - |x|, if j < |x| then j else j - |x|;
      assert all[i] == FlatFiles(definitions, h1, hash)[p] && all[j] == FlatFiles(definitions, h2, hash)[q];
      if all[i].installedPath == all[j].installedPath { SameInstalled(definitions, h1, h2, hash, p, q); }
    }
  }

  // ----- Publish paths -----------------------------------------------------------------------------------------

  predicate AtRoot(definitions: seq<SkillDefinition>, skill: string) {
    exists m :: 0 <= m < |definitions| && definitions[m].name == skill && definitions[m].publishAtTargetRoot
  }

  /** A file of the target-root skill whose relative path spells another skill's name and file. */
  predicate Clash(definitions: seq<SkillDefinition>, root: RegisteredFile, other: RegisteredFile) {
    && AtRoot(definitions, root.skill) && !AtRoot(definitions, other.skill)
    && root.relPath == other.skill + "/" + other.relPath
  }

  lemma RootOfOrigin(definitions: seq<SkillDefinition>, m: nat)
    requires Accepted(definitions) && m < |definitions|
    ensures AtRoot(definitions, definitions[m].name) <==> definitions[m].publishAtTargetRoot
  {
    hide ValidSkill;
  }

  /** Two files of one host share a publish path exactly when they clash, one way or the other. */
  lemma SamePublish(definitions: seq<SkillDefinition>, host: AgentTarget, hash: string -> string, i: nat, j: nat)
    requires Accepted(definitions) && i < |FlatFiles(definitions, host, hash)|
             && j < |FlatFiles(definitions, host, hash)| && i != j
    ensures var files := FlatFiles(definitions, host, hash);
            files[i].publishPath == files[j].publishPath
            <==> Clash(definitions, files[i], files[j]) || Clash(definitions, files[j], files[i])
  {
    hide StampSkill, InstalledPath, PublishBase, FlatFiles, IsSkillName;
    hide IsVersion, AtRoot, DistinctNames, ValidFilePath, Name;
    var files := FlatFiles(definitions, host, hash);
    var m := FlatOrigin(definitions, host, hash, i);
    var n := FlatOrigin(definitions, host, hash, j);
    SkillFilesDistinct(definitions, host, hash);
    assert files[i].skill != files[j].skill || files[i].relPath != files[j].relPath;
    var x, y := Below(definitions[m], files[i].relPath), Below(definitions[n], files[j].relPath);
    PublishShape(definitions[m], host, files[i].relPath);
    PublishShape(definitions[n], host, files[j].relPath);
    RootOfOrigin(definitions, m);
    RootOfOrigin(definitions, n);
    if files[i].publishPath == files[j].publishPath { HostsTell(host, x, host, y); }
    assert files[i].publishPath == files[j].publishPath <==> x == y;
    if definitions[m].publishAtTargetRoot && definitions[n].publishAtTargetRoot {
      assert m == n by { assert !(m < n) && !(n < m); }
    } else if !definitions[m].publishAtTargetRoot && !definitions[n].publishAtTargetRoot && x == y {
      assert ValidSkill(definitions[m]) && ValidSkill(definitions[n]);
      NameHasNoSlash(definitions[m].name);
      NameHasNoSlash(definitions[n].name);
      SlashSplit(definitions[m].name, files[i].relPath, definitions[n].name, files[j].relPath);
    }
  }

  /** A duplicate path can only come from the target-root skill, and comes exactly from such a clash. */
  lemma DuplicatesComeFromTheRoot(definitions: seq<SkillDefinition>, host: AgentTarget, hash: string -> string)
    requires Accepted(definitions)
    ensures DistinctInstalled(FlatFiles(definitions, host, hash))
    ensures var files := FlatFiles(definitions, host, hash);
            !DistinctPublish(files)
            <==> exists i, j :: 0 <= i < |files| && 0 <= j < |files| && Clash(definitions, files[i], files[j])
  {
    hide FlatFiles, Accepted, Clash;
    var files := FlatFiles(definitions, host, hash);
    SkillFilesDistinct(definitions, host, hash);
    forall i, j | 0 <= i < j < |files| ensures files[i].installedPath != files[j].installedPath {
      if files[i].installedPath == files[j].installedPath { SameInstalled(definitions, host, host, hash, i, j); }
    }
    forall i, j | 0 <= i < |files| && 0 <= j < |files| && i != j
      ensures files[i].publishPath == files[j].publishPath
         <==> Clash(definitions, files[i], files[j]) || Clash(definitions, files[j], files[i])
    {
      SamePublish(definitions, host, hash, i, j);
    }
    forall i | 0 <= i < |files| ensures !Clash(definitions, files[i], files[i]) { NoSelfClash(definitions, files[i]); }
  }

  lemma NoSelfClash(definitions: seq<SkillDefinition>, file: RegisteredFile)
    ensures !Clash(definitions, file, file)
  {
  }

  // ----- The manifest -------------------------------------------------------------------------------------------

  predicate RendersAll(definitions: seq<SkillDefinition>, hash: string -> string) {
    Renders(definitions, Codex, hash) && Renders(definitions, ClaudeCode, hash)
  }

  /** Whenever both hosts render, publish paths and installed paths are distinct: the mapping is a bijection. */
  lemma MappingIsBijection(definitions: seq<SkillDefinition>, hash: string -> string)
    requires RendersAll(definitions, hash)
    ensures DistinctPublish(AllFiles(definitions, hash)) && DistinctInstalled(AllFiles(definitions, hash))
  {
    hide FlatFiles, NonblankBodies, Nonblank;
    var x, y := FlatFiles(definitions, Codex, hash), FlatFiles(definitions, ClaudeCode, hash);
    var all := AllFiles(definitions, hash);
    forall i, j | 0 <= i < |x| && 0 <= j < |y|
      ensures x[i].publishPath != y[j].publishPath && x[i].installedPath != y[j].installedPath
    {
      HostsApart(definitions, hash, i, j);
    }
    forall i, j | 0 <= i < j < |all|
      ensures all[i].publishPath != all[j].publishPath && all[i].installedPath != all[j].installedPath
    {
      if j < |x| {
        assert all[i] == x[i] && all[j] == x[j];
      } else if i >= |x| {
        assert all[i] == y[i - |x|] && all[j] == y[j - |x|];
      } else {
        assert all[i] == x[i] && all[j] == y[j - |x|];
      }
    }
  }

  lemma HostsApart(definitions: seq<SkillDefinition>, hash: string -> string, i: nat, j: nat)
    requires i < |FlatFiles(definitions, Codex, hash)| && j < |FlatFiles(definitions, ClaudeCode, hash)|
    ensures var a, b := FlatFiles(definitions, Codex, hash)[i], FlatFiles(definitions, ClaudeCode, hash)[j];
            a.publishPath != b.publishPath && a.installedPath != b.installedPath
  {
    hide FlatFiles, Name, InstalledRoot, PublishBase;
    var a, b := FlatFiles(definitions, Codex, hash)[i], FlatFiles(definitions, ClaudeCode, hash)[j];
    var m := FlatOrigin(definitions, Codex, hash, i);
    var n := FlatOrigin(definitions, ClaudeCode, hash, j);
    PublishShape(definitions[m], Codex, a.relPath);
    PublishShape(definitions[n], ClaudeCode, b.relPath);
    if a.publishPath == b.publishPath {
      HostsTell(Codex, Below(definitions[m], a.relPath), ClaudeCode, Below(definitions[n], b.relPath));
    }
    assert a.installedPath == InstalledRoot(Codex) + "/" + (a.skill + "/" + a.relPath);
    assert b.installedPath == InstalledRoot(ClaudeCode) + "/" + (b.skill + "/" + b.relPath);
    if a.installedPath == b.installedPath {
      RootsTell(Codex, a.skill + "/" + a.relPath, ClaudeCode, b.skill + "/" + b.relPath);
    }
  }

  datatype Publishable = Publishable(path: string, content: string, target: AgentTarget, skill: string,
                                     skillVersion: string)

  datatype Mapping = Mapping(
    publishPath: string, installedPath: string, target: AgentTarget, skill: string, skillVersion: string)

  datatype ManifestEntry = ManifestEntry(
    path: string, installedPath: string, sha256: string, target: AgentTarget, skill: string, skillVersion: string)

  /** An entry is that of a file: its own path, installed path, digest, target, skill and version. */
  predicate EntryIsOf(entry: ManifestEntry, file: RegisteredFile, sha256: string -> string) {
    && entry.path == file.publishPath && entry.installedPath == file.installedPath
    && entry.sha256 == sha256(file.content) && entry.target == file.target
    && entry.skill == file.skill && entry.skillVersion == file.skillVersion
  }

  function Publishables(files: seq<RegisteredFile>): (out: seq<Publishable>)
    ensures |out| == |files|
    ensures forall k :: 0 <= k < |files| ==>
              out[k] == Publishable(files[k].publishPath, files[k].content, files[k].target, files[k].skill,
                                    files[k].skillVersion)
  {
    seq(|files|, k requires 0 <= k < |files| =>
      Publishable(files[k].publishPath, files[k].content, files[k].target, files[k].skill, files[k].skillVersion))
  }

  function Mappings(files: seq<RegisteredFile>): (out: seq<Mapping>)
    ensures |out| == |files|
    ensures forall k :: 0 <= k < |files| ==>
              out[k] == Mapping(files[k].publishPath, files[k].installedPath, files[k].target, files[k].skill,
                                files[k].skillVersion)
  {
    seq(|files|, k requires 0 <= k < |files| =>
      Mapping(files[k].publishPath, files[k].installedPath, files[k].target, files[k].skill, files[k].skillVersion))
  }

  /** Both hosts' files in turn; `None` is a rendering failure. */
  method RenderAll(definitions: seq<SkillDefinition>, hash: string -> string) returns (r: Option<seq<RegisteredFile>>)
    ensures r.Some? <==> RendersAll(definitions, hash)
    ensures r.Some? ==> r.value == AllFiles(definitions, hash)
  {
    hide FlatFiles, Renders;
    var files: seq<RegisteredFile> := [];
    for n := 0 to 2
      invariant n == 0 ==> files == []
      invariant n == 1 ==> Renders(definitions, Codex, hash) && files == FlatFiles(definitions, Codex, hash)
      invariant n == 2 ==> RendersAll(definitions, hash) && files == AllFiles(definitions, hash)
    {
      var rendering := RenderRegisteredSkillFiles(definitions, HOSTS[n], hash);
      if rendering.Unrendered? { return None; }
      files := files + rendering.files;
    }
    return Some(files);
  }

  method RenderPublishableSkills(definitions: seq<SkillDefinition>, hash: string -> string)
    returns (r: Option<seq<Publishable>>)
    ensures r.Some? <==> RendersAll(definitions, hash)
    ensures r.Some? ==> r.value == Publishables(AllFiles(definitions, hash))
  {
    hide RendersAll, AllFiles;
    var files := RenderAll(definitions, hash);
    return if files.Some? then Some(Publishables(files.value)) else None;
  }

  method SkillFileMappings(definitions: seq<SkillDefinition>, hash: string -> string) returns (r: Option<seq<Mapping>>)
    ensures r.Some? <==> RendersAll(definitions, hash)
    ensures r.Some? ==> r.value == Mappings(AllFiles(definitions, hash))
  {
    hide RendersAll, AllFiles;
    var files := RenderAll(definitions, hash);
    return if files.Some? then Some(Mappings(files.value)) else None;
  }

  datatype Manifest = Manifest(entries: seq<ManifestEntry>) | RenderFailed | MissingMapping(path: string)

  /** The look-up table from publish path to installed path; a later mapping replaces an earlier one. */
  method InstalledByPublish(mappings: seq<Mapping>) returns (table: map<string, string>)
    requires forall i, j :: 0 <= i < j < |mappings| ==> mappings[i].publishPath != mappings[j].publishPath
    ensures forall k :: 0 <= k < |mappings| ==>
              mappings[k].publishPath in table && table[mappings[k].publishPath] == mappings[k].installedPath
    ensures forall path :: path in table ==> exists k :: 0 <= k < |mappings| && mappings[k].publishPath == path
  {
    table := map[];
    for i := 0 to |mappings|
      invariant forall k :: 0 <= k < i ==>
                  mappings[k].publishPath in table && table[mappings[k].publishPath] == mappings[k].installedPath
      invariant forall path :: path in table ==> exists k :: 0 <= k < i && mappings[k].publishPath == path
    {
      table := table[mappings[i].publishPath := mappings[i].installedPath];
    }
  }

  /** The missing-mapping failure is unreachable, and each entry carries its own file's installed path and digest. */
  method RenderAgentKitManifest(definitions: seq<SkillDefinition>, hash: string -> string, sha256: string -> string)
    returns (r: Manifest)
    ensures !r.MissingMapping?
    ensures r.Manifest? <==> RendersAll(definitions, hash)
    ensures r.Manifest? ==> |r.entries| == |AllFiles(definitions, hash)|
    ensures r.Manifest? ==>
              forall k :: 0 <= k < |r.entries| ==> EntryIsOf(r.entries[k], AllFiles(definitions, hash)[k], sha256)
  {
    hide RendersAll, AllFiles;
    var files := RenderPublishableSkills(definitions, hash);
    if files.None? { return RenderFailed; }
    var mappings := SkillFileMappings(definitions, hash);
    if mappings.None? { return RenderFailed; }
    ghost var all := AllFiles(definitions, hash);
    MappingIsBijection(definitions, hash);
    var installedByPublish := InstalledByPublish(mappings.value);
    var entries: seq<ManifestEntry> := [];
    for i := 0 to |files.value|
      invariant |entries| == i && forall k :: 0 <= k < i ==> EntryIsOf(entries[k], all[k], sha256)
    {
      var file := files.value[i];
      assert file.path == all[i].publishPath == mappings.value[i].publishPath;
      if file.path !in installedByPublish { return MissingMapping(file.path); }
      entries := entries + [ManifestEntry(file.path, installedByPublish[file.path], sha256(file.content), file.target,
                                          file.skill, file.skillVersion)];
    }
    return Manifest(entries);
  }
}
