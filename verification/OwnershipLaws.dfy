/** Rendered bundles and ownership records in plain terms: literal paths, limits, keys and slugs. */
module OwnershipLaws {
  import opened Text
  import opened AgentTargets
  import opened CanonicalJson
  import opened JsonMeaning
  import opened SkillRegistry
  import opened RegistryLaws
  import opened ProductSkillRenderer
  import opened ProductSkillOwnership

  // ----- Paths and lines --------------------------------------------------------------------------

  /** Proper segments: not empty, neither `.` nor `..`, and without a slash of their own. */
  predicate AllProper(segments: seq<string>) {
    segments != [] && forall k :: 0 <= k < |segments| ==>
      segments[k] != "" && segments[k] != "." && segments[k] != ".." && '/' !in segments[k]
  }

  /** A safe path is proper segments joined by slashes, with no backslash and no zero character. */
  lemma SafePathsAreSegments(path: string)
    ensures SafeRelativePath(path)
       <==> '\\' !in path && '\0' !in path && exists segments :: AllProper(segments) && path == Join(segments, '/')
  {
    hide Split, Join;
    JoinSplit(path, '/');
    if SafeRelativePath(path) {
      forall k | 0 <= k < |Split(path, '/')| ensures SafePart(Split(path, '/')[k]) && '/' !in Split(path, '/')[k] { }
      assert AllProper(Split(path, '/'));
    }
    if segments :| AllProper(segments) && path == Join(segments, '/') {
      SplitJoin(segments, '/');
      ProperStart(segments);
      forall k | 0 <= k < |segments| ensures SafePart(segments[k]) { }
    }
  }

  lemma ProperStart(segments: seq<string>)
    requires AllProper(segments)
    ensures Join(segments, '/') != "" && Join(segments, '/')[0] != '/'
  {
    assert Join(segments, '/')[0] == segments[0][0];
  }

  /** Lines are counted by their line ends, a last line without one included. */
  lemma {:induction false} NewlinesAreCounted(s: string)
    ensures Newlines(s) == multiset(s)['\n']
  {
    if s != "" {
      NewlinesAreCounted(s[1..]);
      assert s == [s[0]] + s[1..];
    }
  }

  lemma LinesAreCounted(content: string)
    ensures LineCount(content)
         == multiset(content)['\n'] + if content == "" || content[|content| - 1] != '\n' then 1 else 0
  {
    NewlinesAreCounted(content);
    if content != "" { assert content[|content| - 1..] == [content[|content| - 1]]; }
  }

  // ----- Rendered files -----------------------------------------------------------------------------

  function Folder(target: AgentTarget, slug: string): string {
    (match target case Codex => ".agents/skills" case ClaudeCode => ".claude/skills") + "/" + slug
  }

  /** One file of a bundle: in one of its target's two places, described truly, and within the limits. */
  predicate FileFits(file: RenderedFile, slug: string, measure: Measure) {
    && (file.path == Folder(file.target, slug) + "/SKILL.md"
        || file.path == Folder(file.target, slug) + "/references/mcp-surface.md")
    && SafeRelativePath(file.path) && Trim(file.content) != ""
    && file.byteLength == measure.utf8Length(file.content) <= 65_536
    && file.sha256 == measure.sha256(file.content)
    && (file.path == Folder(file.target, slug) + "/SKILL.md" ==> LineCount(file.content) <= 500)
  }

  lemma FileFitsExactly(file: RenderedFile, slug: string, measure: Measure)
    ensures FileFits(file, slug, measure) <==> Sound(file, slug, measure) && !TooLarge(file, measure)
  {
    hide SafeRelativePath, LineCount, Trim;
    var folder := Folder(file.target, slug);
    assert InstalledRoot(file.target) + "/" + slug == folder;
    SkillMdEnds(folder);
    ReferenceEnds(folder);
    assert |"/SKILL.md"| != |"/references/mcp-surface.md"|;
  }

  lemma SkillMdEnds(folder: string)
    ensures EndsWith(folder + "/SKILL.md", "/SKILL.md")
  {
    assert (folder + "/SKILL.md")[|folder|..] == "/SKILL.md";
  }

  lemma ReferenceEnds(folder: string)
    ensures !EndsWith(folder + "/references/mcp-surface.md", "/SKILL.md")
  {
    var s, end := folder + "/references/mcp-surface.md", "/SKILL.md";
    assert |end| == 9 && |"/references/mcp-surface.md"| == 26;
    assert s[|s| - 9..][0] == "/references/mcp-surface.md"[17] == 'u';
  }

  /** A bundle is accepted exactly when it is four fitting files in four places, of 262 144 bytes at most in all. */
  lemma AcceptedBundles(files: seq<RenderedFile>, slug: string, measure: Measure)
    ensures Acceptable(files, slug, measure)
       <==> && |files| == 4
            && (forall k :: 0 <= k < 4 ==> FileFits(files[k], slug, measure))
            && (forall i, j :: 0 <= i < j < 4 ==> files[i].target != files[j].target || files[i].path != files[j].path)
            && files[0].byteLength + files[1].byteLength + files[2].byteLength + files[3].byteLength <= 262_144
  {
    hide FileFits, Sound, TooLarge;
    if |files| == 4 {
      forall k | 0 <= k < 4
        ensures FileFits(files[k], slug, measure) <==> Sound(files[k], slug, measure) && !TooLarge(files[k], measure)
        ensures FileFits(files[k], slug, measure) ==> files[k].byteLength == measure.utf8Length(files[k].content)
      {
        FileFitsExactly(files[k], slug, measure);
        FitsItsLength(files[k], slug, measure);
      }
      FourBytes(files, measure);
    }
  }

  lemma FitsItsLength(file: RenderedFile, slug: string, measure: Measure)
    ensures FileFits(file, slug, measure) ==> file.byteLength == measure.utf8Length(file.content)
  {
    hide SafeRelativePath, LineCount, Trim, Folder;
  }

  lemma FourBytes(files: seq<RenderedFile>, measure: Measure)
    requires |files| == 4
    ensures TotalBytes(files, measure)
         == measure.utf8Length(files[0].content) + measure.utf8Length(files[1].content)
            + measure.utf8Length(files[2].content) + measure.utf8Length(files[3].content)
  {
    var f3, f2, f1 := files[..3], files[..2], files[..1];
    assert f3[..2] == f2 && f2[..1] == f1 && f1[..0] == [];
    assert TotalBytes(f1, measure) == measure.utf8Length(files[0].content);
    assert TotalBytes(f2, measure) == TotalBytes(f1, measure) + measure.utf8Length(files[1].content);
    assert TotalBytes(f3, measure) == TotalBytes(f2, measure) + measure.utf8Length(files[2].content);
  }

  /** What is hashed: both provenance digests, and of each file in order its target, path and digest. */
  lemma BundleIsSaid(source: string, surface: string, files: seq<RenderedFile>)
    ensures var value := BundleValue(source, surface, files);
            && value.Obj? && |value.fields| == 3
            && HasText(value.fields, "sourceManifestSha256", source)
            && HasText(value.fields, "mcpSurfaceSha256", surface)
            && Get(value.fields, "files").Some? && Get(value.fields, "files").value.Arr?
            && |Get(value.fields, "files").value.items| == |files|
            && forall k :: 0 <= k < |files| ==> EntryIsSaid(Get(value.fields, "files").value.items[k], files[k])
  {
    var fields := BundleValue(source, surface, files).fields;
    KeysDiffer();
    assert DistinctKeys(fields);
    GetAt(fields, 0);
    GetAt(fields, 1);
    GetAt(fields, 2);
    forall k | 0 <= k < |files| ensures EntryIsSaid(FileValue(files[k]), files[k]) { FileIsSaid(files[k]); }
  }

  predicate EntryIsSaid(value: Json, file: RenderedFile) {
    && value.Obj? && |value.fields| == 3
    && HasText(value.fields, "target", match file.target case Codex => "codex" case ClaudeCode => "claude-code")
    && HasText(value.fields, "path", file.path) && HasText(value.fields, "sha256", file.sha256)
  }

  lemma FileIsSaid(file: RenderedFile)
    ensures EntryIsSaid(FileValue(file), file)
  {
    var fields := FileValue(file).fields;
    KeysDiffer();
    assert DistinctKeys(fields);
    GetAt(fields, 0);
    GetAt(fields, 1);
    GetAt(fields, 2);
  }

  // ----- Slugs ----------------------------------------------------------------------------------------

  /** The name can be its own slug: words joined by single underscores or hyphens, short, not shaped like a fallback. */
  ghost predicate IsSimple(name: string) {
    && |name| <= 64
    && (exists words :: AllWords(words) && Hyphenated(name) == Join(words, '-'))
    && !exists digest :: IsHexDigest(digest, 59) && Hyphenated(name) == "n-h" + digest + "-n"
  }

  /** A simple name is its own slug with hyphens; any other gets 59 digits of its digest. */
  lemma SlugIsSpelled(name: string, sha256: string -> string)
    requires IsSha256(sha256)
    ensures |sha256(name)| == 64
    ensures BundleV1SkillSlug(name, sha256)
         == if IsSimple(name) then Hyphenated(name) else "n-h" + sha256(name)[..59] + "-n"
  {
    hide IsSkillName, Join;
    assert IsHexDigest(sha256(name), 64);
    NamesAreWords(Hyphenated(name));
    ReservedIsSpelled(Hyphenated(name));
  }

  lemma ReservedIsSpelled(s: string)
    ensures IsReserved(s) <==> exists digest :: IsHexDigest(digest, 59) && s == "n-h" + digest + "-n"
  {
    if IsReserved(s) {
      assert s == s[..3] + s[3..62] + s[62..];
      assert s == "n-h" + s[3..62] + "-n";
    }
    if digest :| IsHexDigest(digest, 59) && s == "n-h" + digest + "-n" { FallbackIsReserved(digest); }
  }

  // ----- Records ----------------------------------------------------------------------------------------

  predicate HasText(fields: seq<Keyed<Json>>, key: string, text: string) {
    Get(fields, key) == Some(Str(text))
  }

  predicate HasDigest(fields: seq<Keyed<Json>>, key: string, digest: string) {
    HasText(fields, key, digest) && IsHexDigest(digest, 64)
  }

  /** One file of a record. */
  predicate IsFile(value: Json, file: StateFile) {
    && value.Obj? && |value.fields| == 3
    && HasText(value.fields, "path", file.path) && HasDigest(value.fields, "sha256", file.sha256)
    && Get(value.fields, "byteLength") == Some(Num(file.byteLength)) && 0 <= file.byteLength <= 9_007_199_254_740_991
  }

  predicate IsApp(value: Option<Json>, name: string, slug: string, sha256: string -> string)
    requires IsSha256(sha256)
  {
    && value.Some? && value.value.Obj? && |value.value.fields| == 2
    && HasText(value.value.fields, "name", name) && HasText(value.value.fields, "skillSlug", slug)
    && name != "" && (forall k :: 0 <= k < |name| ==> 'a' <= name[k] <= 'z' || '0' <= name[k] <= '9' || name[k] == '_')
    && slug == BundleV1SkillSlug(name, sha256)
  }

  predicate AreFiles(value: Option<Json>, files: seq<StateFile>, target: AgentTarget, slug: string) {
    && value.Some? && value.value.Arr? && |value.value.items| == |files| == 2
    && IsFile(value.value.items[0], files[0]) && IsFile(value.value.items[1], files[1])
    && files[0].path != files[1].path
    && forall k :: 0 <= k < 2 ==>
         files[k].path == Folder(target, slug) + "/SKILL.md"
         || files[k].path == Folder(target, slug) + "/references/mcp-surface.md"
  }

  /** A JSON record that says exactly this state: ten keys under schema 2, nine under schema 1. */
  predicate Says(value: Json, target: AgentTarget, d: Decoded, sha256: string -> string)
    requires IsSha256(sha256)
  {
    value.Obj? &&
    var fields, state := value.fields, d.state;
    && (if d.migrationRequired then |fields| == 9 && Get(fields, "schemaVersion") == Some(Num(1))
        else |fields| == 10 && Get(fields, "schemaVersion") == Some(Num(2))
             && Get(fields, "bundleSchemaVersion") == Some(Num(1)))
    && state.target == target
    && HasText(fields, "target", match target case Codex => "codex" case ClaudeCode => "claude-code")
    && HasText(fields, "packageSchemaVersion", "1")
    && HasText(fields, "rendererVersion", state.rendererVersion) && Trim(state.rendererVersion) != ""
    && HasDigest(fields, "sourceManifestSha256", state.sourceManifestSha256)
    && HasDigest(fields, "mcpSurfaceSha256", state.mcpSurfaceSha256)
    && HasDigest(fields, "bundleSha256", state.bundleSha256)
    && IsApp(Get(fields, "app"), state.appName, state.skillSlug, sha256)
    && AreFiles(Get(fields, "files"), state.files, target, state.skillSlug)
  }

  lemma FileIsDecoded(value: Json, file: StateFile)
    ensures DecodeFile(value) == Some(file) <==> IsFile(value, file)
  {
    hide Get, IsHexDigest;
    if value.Obj? {
      assert [PATH, SHA256, BYTE_LENGTH][0] == "path" && [PATH, SHA256, BYTE_LENGTH][1] == "sha256";
      assert [PATH, SHA256, BYTE_LENGTH][2] == "byteLength";
    }
  }

  lemma AppIsDecoded(value: Option<Json>, name: string, slug: string, sha256: string -> string)
    requires IsSha256(sha256)
    ensures DecodeApp(value, sha256) == Some((name, slug)) <==> IsApp(value, name, slug, sha256)
  {
    hide Get, BundleV1SkillSlug, IsSha256;
    if value.Some? && value.value.Obj? {
      assert [NAME, SKILL_SLUG][0] == "name" && [NAME, SKILL_SLUG][1] == "skillSlug";
    }
  }

  lemma OneDecoded(items: seq<Json>)
    requires |items| == 1
    ensures DecodeFiles(items) == if DecodeFile(items[0]).Some? then Some([DecodeFile(items[0]).value]) else None
  {
    hide DecodeFile;
    assert items[..|items| - 1] == [];
    var file := DecodeFile(items[0]);
    if file.Some? { assert [] + [file.value] == [file.value]; }
  }

  lemma TwoDecoded(items: seq<Json>)
    requires |items| == 2
    ensures DecodeFiles(items)
         == if DecodeFile(items[0]).Some? && DecodeFile(items[1]).Some?
               && DecodeFile(items[0]).value.path != DecodeFile(items[1]).value.path
            then Some([DecodeFile(items[0]).value, DecodeFile(items[1]).value]) else None
  {
    hide DecodeFile;
    OneDecoded(items[..1]);
    assert items[..|items| - 1] == items[..1];
    var first, second := DecodeFile(items[0]), DecodeFile(items[1]);
    if first.Some? {
      if second.Some? { assert [first.value] + [second.value] == [first.value, second.value]; }
      assert [first.value][0] == first.value;
      assert forall path :: HasPath([first.value], path) <==> first.value.path == path;
    }
  }

  lemma FilesAreDecoded(value: Option<Json>, files: seq<StateFile>, target: AgentTarget, slug: string)
    ensures value.Some? && value.value.Arr? && DecodeFiles(value.value.items) == Some(files)
            && CoversTarget(files, target, slug)
       <==> AreFiles(value, files, target, slug)
  {
    hide DecodeFile, IsFile, Folder;
    if value.Some? && value.value.Arr? && |value.value.items| == 2 && |files| == 2 {
      var items := value.value.items;
      TwoDecoded(items);
      FileIsDecoded(items[0], files[0]);
      FileIsDecoded(items[1], files[1]);
      FolderPaths(target, slug);
      if AreFiles(value, files, target, slug) { assert files == [files[0], files[1]]; }
    }
  }

  lemma FolderPaths(target: AgentTarget, slug: string)
    ensures SkillPath(target, slug) == Folder(target, slug) + "/SKILL.md"
    ensures ReferencePath(target, slug) == Folder(target, slug) + "/references/mcp-surface.md"
  {
  }

  lemma AtIsGet(fields: seq<Keyed<Json>>)
    ensures At(fields, SchemaVersion) == Get(fields, "schemaVersion")
    ensures At(fields, BundleSchemaVersion) == Get(fields, "bundleSchemaVersion")
    ensures At(fields, Target) == Get(fields, "target") && At(fields, App) == Get(fields, "app")
    ensures At(fields, PackageSchemaVersion) == Get(fields, "packageSchemaVersion")
    ensures At(fields, RendererVersion) == Get(fields, "rendererVersion")
    ensures At(fields, SourceManifestSha256) == Get(fields, "sourceManifestSha256")
    ensures At(fields, McpSurfaceSha256) == Get(fields, "mcpSurfaceSha256")
    ensures At(fields, BundleDigest) == Get(fields, "bundleSha256") && At(fields, Files) == Get(fields, "files")
  {
    hide Get;
  }

  lemma KeysArePresent(fields: seq<Keyed<Json>>, migrating: bool)
    ensures HasExactKeys(fields, Spellings(KeysOf(migrating)))
       <==> && |fields| == (if migrating then 9 else 10)
            && At(fields, SchemaVersion).Some? && (migrating || At(fields, BundleSchemaVersion).Some?)
            && At(fields, Target).Some? && At(fields, App).Some? && At(fields, PackageSchemaVersion).Some?
            && At(fields, RendererVersion).Some? && At(fields, SourceManifestSha256).Some?
            && At(fields, McpSurfaceSha256).Some? && At(fields, BundleDigest).Some? && At(fields, Files).Some?
  {
    hide Get, Spelling, At;
    EveryKeyPresent(fields, migrating);
  }

  lemma EveryKeyPresent(fields: seq<Keyed<Json>>, migrating: bool)
    ensures HasExactKeys(fields, Spellings(KeysOf(migrating)))
       <==> && |fields| == (if migrating then 9 else 10)
            && forall key :: key != BundleSchemaVersion || !migrating ==> At(fields, key).Some?
  {
    hide Get, Spelling;
    var keys := KeysOf(migrating);
    KeysAreDistinct(migrating);
    if HasExactKeys(fields, Spellings(keys)) {
      forall key | key != BundleSchemaVersion || !migrating ensures At(fields, key).Some? {
        assert key in keys;
        var k :| 0 <= k < |keys| && keys[k] == key;
        assert Get(fields, Spellings(keys)[k]).Some?;
      }
    }
    forall k | 0 <= k < |keys| ensures Get(fields, Spellings(keys)[k]) == At(fields, keys[k]) && keys[k] in keys { }
  }

  /** The header of a record of either schema, key by key. */
  lemma HeaderIsSaid(fields: seq<Keyed<Json>>, target: AgentTarget, migrating: bool)
    requires migrating <==> At(fields, SchemaVersion) == Some(Num(1))
    ensures HeaderIsValid(fields, target, migrating)
       <==> && |fields| == (if migrating then 9 else 10)
            && (migrating || (At(fields, SchemaVersion) == Some(Num(2))
                              && At(fields, BundleSchemaVersion) == Some(Num(1))))
            && At(fields, Target) == Some(Str(Name(target)))
            && At(fields, PackageSchemaVersion) == Some(Str("1"))
            && IsStr(At(fields, RendererVersion)) && Trim(At(fields, RendererVersion).value.text) != ""
            && ValidDigest(At(fields, SourceManifestSha256)) && ValidDigest(At(fields, McpSurfaceSha256))
            && ValidDigest(At(fields, BundleDigest))
            && At(fields, App).Some? && At(fields, Files).Some? && At(fields, Files).value.Arr?
  {
    hide At, Trim, Name, HasExactKeys, KeysOf, Spellings, IsHexDigest;
    KeysArePresent(fields, migrating);
  }

  /** A record decodes to a state exactly when it says that state, key by key, and nothing else. */
  lemma DecodedIsSaid(value: Json, target: AgentTarget, d: Decoded, sha256: string -> string)
    requires IsSha256(sha256)
    ensures Decode(value, target, sha256) == Some(d) <==> Says(value, target, d, sha256)
  {
    hide At, Get, Trim, IsHexDigest, DecodeApp, IsApp, AreFiles, DecodeFiles, CoversTarget, IsSha256, HeaderIsValid;
    if value.Obj? {
      var fields, state := value.fields, d.state;
      AtIsGet(fields);
      HeaderIsSaid(fields, target, At(fields, SchemaVersion) == Some(Num(1)));
      AppIsDecoded(Get(fields, "app"), state.appName, state.skillSlug, sha256);
      FilesAreDecoded(Get(fields, "files"), state.files, target, state.skillSlug);
      AppIsThere(Get(fields, "app"), sha256);
    }
  }

  lemma AppIsThere(value: Option<Json>, sha256: string -> string)
    requires IsSha256(sha256)
    ensures DecodeApp(value, sha256).Some? ==> value.Some?
  {
  }
}
