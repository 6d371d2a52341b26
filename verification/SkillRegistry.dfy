/** The registry of agent skills: what it accepts, the files it renders, and why their paths never collide silently. */
module SkillRegistry {
  import opened Text
  import opened AgentTargets
  import opened CanonicalJson

  datatype FileDefinition = FileDefinition(relPath: string, render: AgentTarget -> string)

  datatype SkillDefinition = SkillDefinition(
    name: string, description: string, version: string, supportedHosts: seq<AgentTarget>,
    renderBody: AgentTarget -> string, files: seq<FileDefinition>, publishAtTargetRoot: bool)

  // ----- What is accepted ------------------------------------------------------------------------------------

  predicate IsSlugChar(c: char) {
    'a' <= c <= 'z' || IsDigit(c)
  }

  /** Lower-case words of letters and digits joined by single hyphens. */
  predicate IsSkillName(s: string) {
    forall k :: 0 <= k < |Split(s, '-')| ==>
      Split(s, '-')[k] != "" && forall i :: 0 <= i < |Split(s, '-')[k]| ==> IsSlugChar(Split(s, '-')[k][i])
  }

  predicate IsVersionNumber(s: string) {
    s != "" && (forall k :: 0 <= k < |s| ==> IsDigit(s[k])) && (s[0] == '0' ==> |s| == 1)
  }

  predicate IsVersion(s: string) {
    var parts := Split(s, '.');
    |parts| == 3 && IsVersionNumber(parts[0]) && IsVersionNumber(parts[1]) && IsVersionNumber(parts[2])
  }

  predicate IsLineEnd(c: char) {
    c == '\n' || c == '\r' || c as int == 0x2028 || c as int == 0x2029
  }

  /** A `..` segment on the first line of the path, which is as far as the pattern looks. */
  predicate ClimbsAt(s: string, i: nat) {
    && i + 2 <= |s| && s[i] == '.' && s[i + 1] == '.'
    && (i == 0 || s[i - 1] == '/') && (i + 2 == |s| || s[i + 2] == '/')
    && forall k :: 0 <= k < i ==> !IsLineEnd(s[k])
  }

  predicate IsRelativePath(s: string) {
    s != "" && s[0] != '/' && '\0' !in s && forall i :: 0 <= i < |s| ==> !ClimbsAt(s, i)
  }

  const SKILL_MD := "SKILL.md"

  predicate ValidFilePath(s: string) {
    IsRelativePath(s) && s != SKILL_MD && !EndsWith(s, "/") && |s| <= 300
  }

  predicate ValidDescription(s: string) {
    Trim(s) != "" && |s| <= 300 && '\n' !in s
  }

  predicate DistinctHosts(hosts: seq<AgentTarget>) {
    forall i, j :: 0 <= i < j < |hosts| ==> hosts[i] != hosts[j]
  }

  predicate DistinctFiles(files: seq<FileDefinition>) {
    forall i, j :: 0 <= i < j < |files| ==> files[i].relPath != files[j].relPath
  }

  predicate ValidSkill(d: SkillDefinition) {
    && IsSkillName(d.name) && |d.name| <= 100
    && ValidDescription(d.description) && IsVersion(d.version)
    && d.supportedHosts != [] && DistinctHosts(d.supportedHosts)
    && (forall k :: 0 <= k < |d.files| ==> ValidFilePath(d.files[k].relPath))
    && DistinctFiles(d.files)
  }

  predicate DistinctNames(definitions: seq<SkillDefinition>) {
    forall i, j :: 0 <= i < j < |definitions| ==> definitions[i].name != definitions[j].name
  }

  predicate OneTargetRoot(definitions: seq<SkillDefinition>) {
    forall i, j :: 0 <= i < j < |definitions|
      ==> !(definitions[i].publishAtTargetRoot && definitions[j].publishAtTargetRoot)
  }

  predicate Accepted(definitions: seq<SkillDefinition>) {
    && (forall i :: 0 <= i < |definitions| ==> ValidSkill(definitions[i]))
    && DistinctNames(definitions) && OneTargetRoot(definitions)
  }

  datatype RegistryFault =
    | InvalidName | DuplicateName | InvalidDescription | InvalidVersion | NoHost | InvalidHosts
    | InvalidFilePath | DuplicateFile | TwoTargetRoots

  /** The first offending file of a list: an invalid path, or the valid path of an earlier file. */
  predicate FileCause(files: seq<FileDefinition>, k: int, fault: RegistryFault) {
    && 0 <= k < |files| && (forall i :: 0 <= i < k ==> ValidFilePath(files[i].relPath)) && DistinctFiles(files[..k])
    && (if ValidFilePath(files[k].relPath)
        then fault == DuplicateFile && exists i :: 0 <= i < k && files[i].relPath == files[k].relPath
        else fault == InvalidFilePath)
  }

  method CheckFiles(files: seq<FileDefinition>) returns (fault: Option<RegistryFault>)
    ensures fault.None? <==> (forall k :: 0 <= k < |files| ==> ValidFilePath(files[k].relPath)) && DistinctFiles(files)
    ensures fault.Some? ==> exists k :: FileCause(files, k, fault.value)
  {
    hide ValidFilePath;
    var paths: set<string> := {};
    for i := 0 to |files|
      invariant paths == set k | 0 <= k < i :: files[k].relPath
      invariant forall k :: 0 <= k < i ==> ValidFilePath(files[k].relPath)
      invariant forall k, m :: 0 <= k < m < i ==> files[k].relPath != files[m].relPath
    {
      if !ValidFilePath(files[i].relPath) {
        assert FileCause(files, i, InvalidFilePath);
        return Some(InvalidFilePath);
      }
      if files[i].relPath in paths {
        assert FileCause(files, i, DuplicateFile);
        return Some(DuplicateFile);
      }
      paths := paths + {files[i].relPath};
    }
    return None;
  }

  lemma {:induction false} HostSetSize(hosts: seq<AgentTarget>)
    ensures |set host | host in hosts| <= |hosts|
    ensures |set host | host in hosts| == |hosts| <==> DistinctHosts(hosts)
  {
    if hosts != [] {
      var init, last := hosts[..|hosts| - 1], hosts[|hosts| - 1];
      HostSetSize(init);
      assert hosts == init + [last];
      assert (set host | host in hosts) == (set host | host in init) + {last};
      if last in init {
        assert (set host | host in hosts) == (set host | host in init);
        var k :| 0 <= k < |init| && init[k] == last;
        assert hosts[k] == hosts[|hosts| - 1];
      } else {
        assert DistinctHosts(hosts) <==> DistinctHosts(init);
      }
    }
  }

  /** What each fault says of a definition: everything checked before it is in order, and it is not. */
  ghost predicate SkillCause(d: SkillDefinition, names: set<string>, fault: RegistryFault) {
    var named := IsSkillName(d.name) && |d.name| <= 100;
    var described := named && d.name !in names && ValidDescription(d.description);
    var hosted := described && IsVersion(d.version) && d.supportedHosts != [];
    match fault
    case InvalidName => !named
    case DuplicateName => named && d.name in names
    case InvalidDescription => named && d.name !in names && !described
    case InvalidVersion => described && !IsVersion(d.version)
    case NoHost => described && IsVersion(d.version) && d.supportedHosts == []
    case InvalidHosts => hosted && !DistinctHosts(d.supportedHosts)
    case InvalidFilePath => hosted && DistinctHosts(d.supportedHosts) && exists k :: FileCause(d.files, k, fault)
    case DuplicateFile => hosted && DistinctHosts(d.supportedHosts) && exists k :: FileCause(d.files, k, fault)
    case TwoTargetRoots => false
  }

  method CheckSkill(d: SkillDefinition, names: set<string>) returns (fault: Option<RegistryFault>)
    ensures fault.None? <==> ValidSkill(d) && d.name !in names
    ensures fault.Some? ==> SkillCause(d, names, fault.value) && fault.value != TwoTargetRoots
  {
    hide IsSkillName, ValidDescription, IsVersion, ValidFilePath;
    if !IsSkillName(d.name) || |d.name| > 100 { return Some(InvalidName); }
    if d.name in names { return Some(DuplicateName); }
    if !ValidDescription(d.description) { return Some(InvalidDescription); }
    if !IsVersion(d.version) { return Some(InvalidVersion); }
    if |d.supportedHosts| == 0 { return Some(NoHost); }
    HostSetSize(d.supportedHosts);
    var supportedHosts := set host | host in d.supportedHosts;
    if |supportedHosts| != |d.supportedHosts| { return Some(InvalidHosts); }
    fault := CheckFiles(d.files);
  }

  /** The first offending skill: all before it are valid and differ in name. */
  ghost predicate FirstCause(definitions: seq<SkillDefinition>, i: int, fault: RegistryFault) {
    && 0 <= i < |definitions| && (forall k :: 0 <= k < i ==> ValidSkill(definitions[k]))
    && DistinctNames(definitions[..i])
    && SkillCause(definitions[i], set k | 0 <= k < i :: definitions[k].name, fault)
  }

  /**
   * A registry is accepted exactly when every skill is valid, names differ and at most one publishes at the root; else
   * the fault is that of the first offending skill, or the second target root when all skills are in order.
   */
  method DefineSkillRegistry(definitions: seq<SkillDefinition>) returns (fault: Option<RegistryFault>)
    ensures fault.None? <==> Accepted(definitions)
    ensures fault.Some? && fault != Some(TwoTargetRoots) ==> exists i :: FirstCause(definitions, i, fault.value)
    ensures fault == Some(TwoTargetRoots) ==>
              && (forall i :: 0 <= i < |definitions| ==> ValidSkill(definitions[i]))
              && DistinctNames(definitions) && !OneTargetRoot(definitions)
  {
    hide ValidSkill, SkillCause;
    var names: set<string> := {};
    var targetRootCount := 0;
    ghost var root: nat := 0;
    for i := 0 to |definitions|
      invariant names == set k | 0 <= k < i :: definitions[k].name
      invariant forall k :: 0 <= k < i ==> ValidSkill(definitions[k])
      invariant forall k, m :: 0 <= k < m < i ==> definitions[k].name != definitions[m].name
      invariant targetRootCount == 0 ==> forall k :: 0 <= k < i ==> !definitions[k].publishAtTargetRoot
      invariant targetRootCount == 1 ==>
                  root < i && forall k :: 0 <= k < i ==> (definitions[k].publishAtTargetRoot <==> k == root)
      invariant targetRootCount > 1 ==> !OneTargetRoot(definitions)
    {
      fault := CheckSkill(definitions[i], names);
      if fault.Some? {
        assert FirstCause(definitions, i, fault.value);
        return;
      }
      names := names + {definitions[i].name};
      if definitions[i].publishAtTargetRoot {
        if targetRootCount == 0 { root := i; }
        if targetRootCount == 1 { assert definitions[root].publishAtTargetRoot && definitions[i].publishAtTargetRoot; }
        targetRootCount := targetRootCount + 1;
      }
    }
    if targetRootCount > 1 { return Some(TwoTargetRoots); }
    return None;
  }

  // ----- Rendering ---------------------------------------------------------------------------------------------

  datatype RegisteredFile = RegisteredFile(
    skill: string, skillVersion: string, target: AgentTarget, relPath: string, content: string,
    publishPath: string, installedPath: string)

  /** The hash is the first 16 hexadecimal digits of SHA-256. */
  function StampSkill(d: SkillDefinition, body: string, hash: string -> string): string {
    Join(["---", "name: " + d.name, "description: " + Quote(d.description), "---", "",
          "<!-- noodle-skill version:" + d.version + " hash:" + hash(body) + " -->", "", body, ""], '\n')
  }

  function PublishBase(d: SkillDefinition, host: AgentTarget): string {
    if d.publishAtTargetRoot then "skills/" + Name(host) else "skills/" + Name(host) + "/" + d.name
  }

  function InstalledPath(name: string, host: AgentTarget, relPath: string): string {
    InstalledRoot(host) + "/" + name + "/" + relPath
  }

  function FileOf(d: SkillDefinition, host: AgentTarget, relPath: string, content: string): RegisteredFile {
    RegisteredFile(d.name, d.version, host, relPath, content,
                   PublishBase(d, host) + "/" + relPath, InstalledPath(d.name, host, relPath))
  }

  /** A skill's files for one host: its stamped `SKILL.md` first, then its own files in order. */
  function FilesOf(d: SkillDefinition, host: AgentTarget, hash: string -> string): (files: seq<RegisteredFile>)
    ensures host in d.supportedHosts ==> |files| == |d.files| + 1
    ensures host !in d.supportedHosts ==> files == []
  {
    if host !in d.supportedHosts then []
    else
      [FileOf(d, host, SKILL_MD, StampSkill(d, d.renderBody(host), hash))]
      + seq(|d.files|, k requires 0 <= k < |d.files| => FileOf(d, host, d.files[k].relPath, d.files[k].render(host)))
  }

  function FlatFiles(definitions: seq<SkillDefinition>, host: AgentTarget,
                     hash: string -> string): seq<RegisteredFile> {
    if definitions == [] then []
    else
      FlatFiles(definitions[..|definitions| - 1], host, hash) + FilesOf(definitions[|definitions| - 1], host, hash)
  }

  predicate DistinctPublish(files: seq<RegisteredFile>) {
    forall i, j :: 0 <= i < j < |files| ==> files[i].publishPath != files[j].publishPath
  }

  predicate DistinctInstalled(files: seq<RegisteredFile>) {
    forall i, j :: 0 <= i < j < |files| ==> files[i].installedPath != files[j].installedPath
  }

  predicate Nonblank(files: seq<RegisteredFile>) {
    forall k :: 0 <= k < |files| ==> Trim(files[k].content) != ""
  }

  predicate NonblankBodies(definitions: seq<SkillDefinition>, host: AgentTarget) {
    forall i :: 0 <= i < |definitions| && host in definitions[i].supportedHosts ==>
      Trim(definitions[i].renderBody(host)) != ""
  }

  predicate Renders(definitions: seq<SkillDefinition>, host: AgentTarget, hash: string -> string) {
    var files := FlatFiles(definitions, host, hash);
    NonblankBodies(definitions, host) && Nonblank(files) && DistinctPublish(files) && DistinctInstalled(files)
  }

  datatype RenderFault = EmptyBody | EmptyFile | DuplicatePath

  datatype Rendering = Rendered(files: seq<RegisteredFile>) | Unrendered(fault: RenderFault)

  function PublishPaths(files: seq<RegisteredFile>): set<string> {
    set k | 0 <= k < |files| :: files[k].publishPath
  }

  function InstalledPaths(files: seq<RegisteredFile>): set<string> {
    set k | 0 <= k < |files| :: files[k].installedPath
  }

  predicate Clean(files: seq<RegisteredFile>) {
    Nonblank(files) && DistinctPublish(files) && DistinctInstalled(files)
  }

  /** Adding one file: the two path sets tell exactly whether the list stays clean. */
  lemma CleanStep(files: seq<RegisteredFile>, file: RegisteredFile)
    requires Clean(files)
    ensures Clean(files + [file]) <==> Trim(file.content) != "" && file.publishPath !in PublishPaths(files)
                                       && file.installedPath !in InstalledPaths(files)
    ensures PublishPaths(files + [file]) == PublishPaths(files) + {file.publishPath}
    ensures InstalledPaths(files + [file]) == InstalledPaths(files) + {file.installedPath}
  {
    hide Trim;
    var more := files + [file];
    assert forall k :: 0 <= k < |files| ==> more[k] == files[k];
    assert more[|files|] == file;
    if Clean(more) {
      forall k | 0 <= k < |files|
        ensures files[k].publishPath != file.publishPath && files[k].installedPath != file.installedPath
      {
        assert more[k].publishPath != more[|files|].publishPath && more[k].installedPath != more[|files|].installedPath;
      }
    }
  }

  lemma CleanPrefix(files: seq<RegisteredFile>, more: seq<RegisteredFile>)
    ensures Clean(files + more) ==> Clean(files)
    ensures !DistinctPublish(files) ==> !DistinctPublish(files + more)
    ensures !DistinctInstalled(files) ==> !DistinctInstalled(files + more)
  {
    hide Trim;
    var all := files + more;
    assert forall k :: 0 <= k < |files| ==> all[k] == files[k];
  }

  lemma {:induction false} FlatPrefix(definitions: seq<SkillDefinition>, n: nat, host: AgentTarget,
                                      hash: string -> string)
    returns (rest: seq<RegisteredFile>)
    requires n <= |definitions|
    ensures FlatFiles(definitions, host, hash) == FlatFiles(definitions[..n], host, hash) + rest
    decreases |definitions|
  {
    hide FilesOf;
    if n == |definitions| {
      rest := [];
      assert definitions[..n] == definitions;
    } else {
      var init := definitions[..|definitions| - 1];
      var before := FlatPrefix(init, n, host, hash);
      assert init[..n] == definitions[..n];
      rest := before + FilesOf(definitions[|definitions| - 1], host, hash);
    }
  }

  lemma DuplicateBlocks(files: seq<RegisteredFile>, file: RegisteredFile, more: seq<RegisteredFile>)
    requires file.publishPath in PublishPaths(files) || file.installedPath in InstalledPaths(files)
    ensures !DistinctPublish(files + [file] + more) || !DistinctInstalled(files + [file] + more)
  {
    var all := files + [file] + more;
    assert all[|files|] == file;
    if file.publishPath in PublishPaths(files) {
      var k :| 0 <= k < |files| && files[k].publishPath == file.publishPath;
      assert all[k].publishPath == all[|files|].publishPath;
    } else {
      var k :| 0 <= k < |files| && files[k].installedPath == file.installedPath;
      assert all[k].installedPath == all[|files|].installedPath;
    }
  }

  lemma BlankBlocks(files: seq<RegisteredFile>, file: RegisteredFile, more: seq<RegisteredFile>)
    requires Trim(file.content) == ""
    ensures !Clean(files + [file] + more)
  {
    hide Trim;
    assert (files + [file] + more)[|files|] == file;
  }

  lemma MineSplits(prior: seq<RegisteredFile>, mine: seq<RegisteredFile>, i: nat)
    requires i < |mine|
    ensures prior + mine == (prior + mine[..i]) + [mine[i]] + mine[i + 1..]
    ensures prior + mine[..i + 1] == (prior + mine[..i]) + [mine[i]]
  {
  }

  /** The first file that cannot be added to clean files: a blank one, or one whose path is taken. */
  ghost predicate AddFault(prior: seq<RegisteredFile>, mine: seq<RegisteredFile>, k: int, fault: RenderFault) {
    && 0 <= k < |mine| && Clean(prior + mine[..k]) && !Clean(prior + mine[..k + 1])
    && fault == if Trim(mine[k].content) == "" then EmptyFile else DuplicatePath
  }

  /** What a fault says of a skill rendered after clean files. */
  ghost predicate RenderCause(prior: seq<RegisteredFile>, d: SkillDefinition, host: AgentTarget, hash: string -> string,
                              fault: RenderFault) {
    if Trim(d.renderBody(host)) == "" then fault == EmptyBody
    else exists k :: AddFault(prior, FilesOf(d, host, hash), k, fault)
  }

  lemma StepBlocks(prior: seq<RegisteredFile>, mine: seq<RegisteredFile>, i: nat)
    requires i < |mine| && Clean(prior + mine[..i])
    ensures Clean(prior + mine[..i + 1])
       <==> Trim(mine[i].content) != "" && mine[i].publishPath !in PublishPaths(prior + mine[..i])
            && mine[i].installedPath !in InstalledPaths(prior + mine[..i])
  {
    hide Trim, Clean, PublishPaths, InstalledPaths;
    CleanStep(prior + mine[..i], mine[i]);
    assert prior + mine[..i + 1] == prior + mine[..i] + [mine[i]];
  }

  /** One skill's files, appended to what the skills before it rendered. */
  method RenderSkill(d: SkillDefinition, host: AgentTarget, hash: string -> string, prior: seq<RegisteredFile>,
                     priorPublish: set<string>, priorInstalled: set<string>)
    returns (fault: Option<RenderFault>, files: seq<RegisteredFile>, publishPaths: set<string>,
             installedPaths: set<string>)
    requires host in d.supportedHosts && Clean(prior)
    requires priorPublish == PublishPaths(prior) && priorInstalled == InstalledPaths(prior)
    ensures fault.None? ==> files == prior + FilesOf(d, host, hash) && Clean(files) && Trim(d.renderBody(host)) != ""
    ensures fault.None? ==> publishPaths == PublishPaths(files) && installedPaths == InstalledPaths(files)
    ensures fault.Some? ==> RenderCause(prior, d, host, hash, fault.value)
    ensures fault == Some(EmptyFile) ==> !Clean(prior + FilesOf(d, host, hash))
    ensures fault == Some(DuplicatePath) ==>
              var all := prior + FilesOf(d, host, hash); !DistinctPublish(all) || !DistinctInstalled(all)
  {
    hide Trim, StampSkill, Clean, DistinctPublish, DistinctInstalled;
    hide PublishPaths, InstalledPaths, InstalledPath, PublishBase;
    files, publishPaths, installedPaths := prior, priorPublish, priorInstalled;
    var body := d.renderBody(host);
    if Trim(body) == "" { return Some(EmptyBody), files, publishPaths, installedPaths; }
    ghost var mine := FilesOf(d, host, hash);
    var rendered := [(SKILL_MD, StampSkill(d, body, hash))]
      + seq(|d.files|, k requires 0 <= k < |d.files| => (d.files[k].relPath, d.files[k].render(host)));
    assert |mine| == |rendered|;
    assert forall k :: 0 <= k < |mine| ==> mine[k] == FileOf(d, host, rendered[k].0, rendered[k].1);
    assert files == prior + mine[..0];
    for i := 0 to |rendered|
      invariant files == prior + mine[..i] && Clean(files)
      invariant publishPaths == PublishPaths(files) && installedPaths == InstalledPaths(files)
    {
      var publishPath := PublishBase(d, host) + "/" + rendered[i].0;
      var installedPath := InstalledPath(d.name, host, rendered[i].0);
      var file := RegisteredFile(d.name, d.version, host, rendered[i].0, rendered[i].1, publishPath, installedPath);
      assert file == mine[i];
      MineSplits(prior, mine, i);
      if Trim(rendered[i].1) == "" {
        BlankBlocks(files, file, mine[i + 1..]);
        assert AddFault(prior, mine, i, EmptyFile) by { StepBlocks(prior, mine, i); }
        return Some(EmptyFile), files, publishPaths, installedPaths;
      }
      if publishPath in publishPaths || installedPath in installedPaths {
        DuplicateBlocks(files, file, mine[i + 1..]);
        assert AddFault(prior, mine, i, DuplicatePath) by { StepBlocks(prior, mine, i); }
        return Some(DuplicatePath), files, publishPaths, installedPaths;
      }
      CleanStep(files, file);
      publishPaths := publishPaths + {publishPath};
      installedPaths := installedPaths + {installedPath};
      files := files + [file];
    }
    assert prior + mine[..|mine|] == prior + mine;
    fault := None;
  }

  lemma FlatStep(definitions: seq<SkillDefinition>, i: nat, host: AgentTarget, hash: string -> string)
    requires i < |definitions|
    ensures FlatFiles(definitions[..i + 1], host, hash)
         == FlatFiles(definitions[..i], host, hash) + FilesOf(definitions[i], host, hash)
  {
    assert definitions[..i + 1][..i] == definitions[..i];
  }

  /** A fault met while rendering a prefix is a fault of the whole list. */
  lemma PrefixFault(definitions: seq<SkillDefinition>, n: nat, host: AgentTarget, hash: string -> string)
    requires n <= |definitions|
    ensures var part, all := FlatFiles(definitions[..n], host, hash), FlatFiles(definitions, host, hash);
            && (!Clean(part) ==> !Clean(all))
            && (!DistinctPublish(part) ==> !DistinctPublish(all))
            && (!DistinctInstalled(part) ==> !DistinctInstalled(all))
  {
    hide Clean, DistinctPublish, DistinctInstalled, FlatFiles;
    var rest := FlatPrefix(definitions, n, host, hash);
    CleanPrefix(FlatFiles(definitions[..n], host, hash), rest);
  }

  lemma NotClean(files: seq<RegisteredFile>)
    requires !DistinctPublish(files) || !DistinctInstalled(files)
    ensures !Clean(files)
  {
  }

  lemma RendersParts(definitions: seq<SkillDefinition>, host: AgentTarget, hash: string -> string)
    ensures Renders(definitions, host, hash)
       <==> NonblankBodies(definitions, host) && Clean(FlatFiles(definitions, host, hash))
  {
  }

  lemma EmptyBodyFails(definitions: seq<SkillDefinition>, i: nat, host: AgentTarget)
    requires i < |definitions| && host in definitions[i].supportedHosts && Trim(definitions[i].renderBody(host)) == ""
    ensures !NonblankBodies(definitions, host)
  {
    hide Trim;
  }

  /** The first skill of the host that cannot be rendered: all before it are, without a blank body. */
  ghost predicate FirstRenderCause(definitions: seq<SkillDefinition>, i: int, host: AgentTarget, hash: string -> string,
                                   fault: RenderFault) {
    && 0 <= i < |definitions| && host in definitions[i].supportedHosts
    && NonblankBodies(definitions[..i], host) && Clean(FlatFiles(definitions[..i], host, hash))
    && RenderCause(FlatFiles(definitions[..i], host, hash), definitions[i], host, hash, fault)
  }

  /**
   * Rendering yields every file of every skill for the host, in order, exactly when nothing is blank or doubled; else
   * the fault is that of the first skill, and in it the first file, that cannot be added.
   */
  method RenderRegisteredSkillFiles(definitions: seq<SkillDefinition>, host: AgentTarget, hash: string -> string)
    returns (r: Rendering)
    ensures r.Rendered? <==> Renders(definitions, host, hash)
    ensures r.Rendered? ==> r.files == FlatFiles(definitions, host, hash)
    ensures r.Unrendered? ==> exists i :: FirstRenderCause(definitions, i, host, hash, r.fault)
    ensures r == Unrendered(DuplicatePath) ==>
              var files := FlatFiles(definitions, host, hash); !DistinctPublish(files) || !DistinctInstalled(files)
  {
    hide Trim, Clean, DistinctPublish, DistinctInstalled, PublishPaths, InstalledPaths, FilesOf, Renders, FlatFiles;
    var files: seq<RegisteredFile> := [];
    var publishPaths: set<string>, installedPaths: set<string> := {}, {};
    RendersParts(definitions, host, hash);
    StartsClean(definitions, host, hash);
    for i := 0 to |definitions|
      invariant files == FlatFiles(definitions[..i], host, hash) && Clean(files)
      invariant publishPaths == PublishPaths(files) && installedPaths == InstalledPaths(files)
      invariant forall k :: 0 <= k < i && host in definitions[k].supportedHosts
                  ==> Trim(definitions[k].renderBody(host)) != ""
    {
      FlatStep(definitions, i, host, hash);
      PrefixFault(definitions, i + 1, host, hash);
      if host in definitions[i].supportedHosts {
        var fault: Option<RenderFault>;
        fault, files, publishPaths, installedPaths :=
          RenderSkill(definitions[i], host, hash, files, publishPaths, installedPaths);
        if fault.Some? {
          assert FirstRenderCause(definitions, i, host, hash, fault.value);
          if fault.value == EmptyBody { EmptyBodyFails(definitions, i, host); }
          if fault.value == DuplicatePath { NotClean(FlatFiles(definitions[..i + 1], host, hash)); }
          return Unrendered(fault.value);
        }
      }
    }
    assert definitions[..|definitions|] == definitions;
    return Rendered(files);
  }

  lemma StartsClean(definitions: seq<SkillDefinition>, host: AgentTarget, hash: string -> string)
    ensures Clean([]) && PublishPaths([]) == {} && InstalledPaths([]) == {}
            && FlatFiles(definitions[..0], host, hash) == []
  {
  }
}
