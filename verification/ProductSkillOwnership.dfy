/** The project-local ownership record: its slug, its two encodings, and decoding with one migration. */
module ProductSkillOwnership {
  import opened Text
  import opened AgentTargets
  import opened CanonicalJson
  import opened JsonMeaning
  import opened SkillRegistry
  import opened ProductSkillRenderer

  const MAX_BUNDLE_V1_SKILL_SLUG_CHARS := 64
  const BUNDLE_V1_FALLBACK_DIGEST_CHARS := 59
  const MAX_SAFE_INTEGER := 9_007_199_254_740_991

  // ----- The slug ----------------------------------------------------------------------------------------------

  /** SHA-256 in lower-case hexadecimal. */
  ghost predicate IsSha256(sha256: string -> string) {
    forall text :: IsHexDigest(sha256(text), 64)
  }

  function Hyphenated(name: string): (s: string)
    ensures |s| == |name| && forall k :: 0 <= k < |name| ==> s[k] == if name[k] == '_' then '-' else name[k]
  {
    seq(|name|, k requires 0 <= k < |name| => if name[k] == '_' then '-' else name[k])
  }

  predicate IsReserved(s: string) {
    |s| == 64 && s[..3] == "n-h" && IsHexDigest(s[3..62], 59) && s[62..] == "-n"
  }

  /** The name's own slug can be used as it is. */
  predicate IsPlainName(name: string) {
    var simple := Hyphenated(name);
    IsSkillName(simple) && |simple| <= MAX_BUNDLE_V1_SKILL_SLUG_CHARS && !IsReserved(simple)
  }

  function Fallback(digest: string): string {
    "n-h" + digest + "-n"
  }

  function BundleV1SkillSlug(name: string, sha256: string -> string): string
    requires IsSha256(sha256)
  {
    if IsPlainName(name) then Hyphenated(name)
    else Fallback(sha256(name)[..BUNDLE_V1_FALLBACK_DIGEST_CHARS])
  }

  lemma FallbackIsReserved(digest: string)
    requires IsHexDigest(digest, 59)
    ensures IsReserved(Fallback(digest)) && Fallback(digest)[3..62] == digest
  {
    var s := Fallback(digest);
    assert s[..3] == "n-h" && s[3..62] == digest && s[62..] == "-n";
  }

  /** The fallback is three words: `n`, `h` and the digest, `n`. */
  lemma FallbackIsName(digest: string)
    requires IsHexDigest(digest, 59)
    ensures IsSkillName(Fallback(digest))
  {
    var s := Fallback(digest);
    SplitPart("n", '-', "h" + digest + "-n");
    SplitPart("h" + digest, '-', "n");
    SplitPart("n", '-', "");
    assert s == "n" + "-" + ("h" + digest + "-n");
    assert "h" + digest + "-n" == "h" + digest + "-" + "n";
    var parts := Split(s, '-');
    assert parts == ["n", "h" + digest, "n"];
    forall i | 0 <= i < |parts[1]| ensures IsSlugChar(parts[1][i]) {
      assert i > 0 ==> parts[1][i] == digest[i - 1];
    }
  }

  /** Every name gets a slug of the slug grammar with at most 64 characters. */
  lemma SlugIsWellFormed(name: string, sha256: string -> string)
    requires IsSha256(sha256)
    ensures IsSkillName(BundleV1SkillSlug(name, sha256)) && |BundleV1SkillSlug(name, sha256)| <= 64
  {
    hide IsSkillName;
    assert IsHexDigest(sha256(name), 64);
    FallbackIsName(sha256(name)[..59]);
  }

  /** Application names use letters, digits and underscores, so hyphenation loses nothing. */
  predicate IsAppName(name: string) {
    name != "" && forall k :: 0 <= k < |name| ==> IsSlugChar(name[k]) || name[k] == '_'
  }

  lemma HyphenationInjective(a: string, b: string)
    requires IsAppName(a) && IsAppName(b) && Hyphenated(a) == Hyphenated(b)
    ensures a == b
  {
    forall k | 0 <= k < |a| ensures a[k] == b[k] { assert Hyphenated(a)[k] == Hyphenated(b)[k]; }
  }

  /** Two application names share a slug only when equal, or when both fall back on digests with one 59-digit prefix. */
  lemma SlugSharing(a: string, b: string, sha256: string -> string)
    requires IsSha256(sha256) && IsAppName(a) && IsAppName(b)
    ensures BundleV1SkillSlug(a, sha256) == BundleV1SkillSlug(b, sha256)
       <==> a == b || (!IsPlainName(a) && !IsPlainName(b) && sha256(a)[..59] == sha256(b)[..59])
  {
    hide IsSkillName;
    assert IsHexDigest(sha256(a), 64) && IsHexDigest(sha256(b), 64);
    FallbackIsReserved(sha256(a)[..59]);
    FallbackIsReserved(sha256(b)[..59]);
    if IsPlainName(a) && IsPlainName(b) && Hyphenated(a) == Hyphenated(b) { HyphenationInjective(a, b); }
  }

  // ----- Records -------------------------------------------------------------------------------------------------

  datatype StateFile = StateFile(path: string, sha256: string, byteLength: int)

  /** An ownership record of schema 2; the other schema fields are constants. */
  datatype ProductSkillState = ProductSkillState(
    target: AgentTarget, appName: string, skillSlug: string, rendererVersion: string,
    sourceManifestSha256: string, mcpSurfaceSha256: string, bundleSha256: string, files: seq<StateFile>)

  datatype Decoded = Decoded(state: ProductSkillState, migrationRequired: bool)

  function StateFiles(files: seq<RenderedFile>): (out: seq<StateFile>)
    ensures |out| == |files|
    ensures forall k :: 0 <= k < |files| ==> out[k] == StateFile(files[k].path, files[k].sha256, files[k].byteLength)
  {
    seq(|files|, k requires 0 <= k < |files| => StateFile(files[k].path, files[k].sha256, files[k].byteLength))
  }

  function CreateProductSkillState(target: AgentTarget, appName: string, sourceManifest: string, mcpSurface: string,
                                   rendererVersion: string, bundle: string, files: seq<RenderedFile>,
                                   sha256: string -> string): ProductSkillState
    requires IsSha256(sha256)
  {
    ProductSkillState(target, appName, BundleV1SkillSlug(appName, sha256), rendererVersion, sourceManifest, mcpSurface,
                      bundle, StateFiles(files))
  }

  datatype Key =
    | SchemaVersion | BundleSchemaVersion | Target | App | PackageSchemaVersion | RendererVersion
    | SourceManifestSha256 | McpSurfaceSha256 | BundleDigest | Files

  function Spelling(key: Key): string {
    match key
    case SchemaVersion => "schemaVersion"
    case BundleSchemaVersion => "bundleSchemaVersion"
    case Target => "target"
    case App => "app"
    case PackageSchemaVersion => "packageSchemaVersion"
    case RendererVersion => "rendererVersion"
    case SourceManifestSha256 => "sourceManifestSha256"
    case McpSurfaceSha256 => "mcpSurfaceSha256"
    case BundleDigest => "bundleSha256"
    case Files => "files"
  }

  lemma SpellingLengths(key: Key)
    ensures |Spelling(key)| == match key
      case SchemaVersion => 13 case BundleSchemaVersion => 19 case Target => 6 case App => 3
      case PackageSchemaVersion => 20 case RendererVersion => 15 case SourceManifestSha256 => 20
      case McpSurfaceSha256 => 16 case BundleDigest => 12 case Files => 5
    ensures key == PackageSchemaVersion ==> Spelling(key)[0] == 'p'
    ensures key == SourceManifestSha256 ==> Spelling(key)[0] == 's'
  {
  }

  lemma SpellingInjective(a: Key, b: Key)
    requires Spelling(a) == Spelling(b)
    ensures a == b
  {
    hide Spelling;
    SpellingLengths(a);
    SpellingLengths(b);
  }

  /** The keys of a record of the given schema. */
  function KeysOf(migrating: bool): seq<Key> {
    [SchemaVersion] + (if migrating then [] else [BundleSchemaVersion])
    + [Target, App, PackageSchemaVersion, RendererVersion, SourceManifestSha256, McpSurfaceSha256, BundleDigest, Files]
  }

  function Spellings(keys: seq<Key>): (s: seq<string>)
    ensures |s| == |keys| && forall k :: 0 <= k < |keys| ==> s[k] == Spelling(keys[k])
  {
    seq(|keys|, k requires 0 <= k < |keys| => Spelling(keys[k]))
  }

  // ----- Encoding ------------------------------------------------------------------------------------------------

  const PATH := "path"
  const SHA256 := "sha256"
  const BYTE_LENGTH := "byteLength"
  const NAME := "name"
  const SKILL_SLUG := "skillSlug"

  function FileJson(file: StateFile): Json {
    Obj([Keyed(PATH, Str(file.path)), Keyed(SHA256, Str(file.sha256)), Keyed(BYTE_LENGTH, Num(file.byteLength))])
  }

  function FilesJson(files: seq<StateFile>): (items: seq<Json>)
    ensures |items| == |files| && forall k :: 0 <= k < |files| ==> items[k] == FileJson(files[k])
  {
    seq(|files|, k requires 0 <= k < |files| => FileJson(files[k]))
  }

  function AppJson(name: string, slug: string): Json {
    Obj([Keyed(NAME, Str(name)), Keyed(SKILL_SLUG, Str(slug))])
  }

  function ValueOf(state: ProductSkillState, key: Key, migrating: bool): Json {
    match key
    case SchemaVersion => Num(if migrating then 1 else 2)
    case BundleSchemaVersion => Num(1)
    case Target => Str(Name(state.target))
    case App => AppJson(state.appName, state.skillSlug)
    case PackageSchemaVersion => Str("1")
    case RendererVersion => Str(state.rendererVersion)
    case SourceManifestSha256 => Str(state.sourceManifestSha256)
    case McpSurfaceSha256 => Str(state.mcpSurfaceSha256)
    case BundleDigest => Str(state.bundleSha256)
    case Files => Arr(FilesJson(state.files))
  }

  /** The record's fields under schema 2, or under schema 1 for a record that has yet to migrate. */
  function Encode(state: ProductSkillState, migrating: bool): (fields: seq<Keyed<Json>>)
    ensures |fields| == |KeysOf(migrating)|
    ensures forall k :: 0 <= k < |fields| ==>
              fields[k] == Keyed(Spelling(KeysOf(migrating)[k]), ValueOf(state, KeysOf(migrating)[k], migrating))
  {
    var keys := KeysOf(migrating);
    seq(|keys|, k requires 0 <= k < |keys| => Keyed(Spelling(keys[k]), ValueOf(state, keys[k], migrating)))
  }

  // ----- Decoding ------------------------------------------------------------------------------------------------

  predicate IsStr(value: Option<Json>) {
    value.Some? && value.value.Str?
  }

  predicate IsByteLength(value: Option<Json>) {
    value.Some? && value.value.Num? && 0 <= value.value.number <= MAX_SAFE_INTEGER
  }

  predicate ValidDigest(value: Option<Json>) {
    value.Some? && value.value.Str? && IsHexDigest(value.value.text, 64)
  }

  /** The app's name and slug, when they are well formed and agree. */
  function DecodeApp(value: Option<Json>, sha256: string -> string): Option<(string, string)>
    requires IsSha256(sha256)
  {
    if value.None? || !value.value.Obj? || !HasExactKeys(value.value.fields, [NAME, SKILL_SLUG]) then None
    else
      var name, slug := Get(value.value.fields, NAME), Get(value.value.fields, SKILL_SLUG);
      if !IsStr(name) || !IsAppName(name.value.text) then None
      else if !IsStr(slug) || slug.value.text != BundleV1SkillSlug(name.value.text, sha256) then None
      else Some((name.value.text, slug.value.text))
  }

  function DecodeFile(value: Json): Option<StateFile> {
    if !value.Obj? || !HasExactKeys(value.fields, [PATH, SHA256, BYTE_LENGTH]) then None
    else
      var path, digest, size := Get(value.fields, PATH), Get(value.fields, SHA256), Get(value.fields, BYTE_LENGTH);
      if !IsStr(path) || !ValidDigest(digest) || !IsByteLength(size) then None
      else Some(StateFile(path.value.text, digest.value.text, size.value.number))
  }

  predicate HasPath(files: seq<StateFile>, path: string) {
    exists k :: 0 <= k < |files| && files[k].path == path
  }

  /** The files of the list, all valid and with different paths. */
  function DecodeFiles(items: seq<Json>): (files: Option<seq<StateFile>>)
    ensures files.Some? ==> |files.value| == |items|
  {
    if items == [] then Some([])
    else
      var init := DecodeFiles(items[..|items| - 1]);
      var file := DecodeFile(items[|items| - 1]);
      if init.None? || file.None? || HasPath(init.value, file.value.path) then None
      else Some(init.value + [file.value])
  }

  predicate IsTargetPath(path: string, target: AgentTarget, slug: string) {
    path == SkillPath(target, slug) || path == ReferencePath(target, slug)
  }

  predicate CoversTarget(files: seq<StateFile>, target: AgentTarget, slug: string) {
    |files| == 2 && forall k :: 0 <= k < 2 ==> IsTargetPath(files[k].path, target, slug)
  }

  function At(fields: seq<Keyed<Json>>, key: Key): Option<Json> {
    Get(fields, Spelling(key))
  }

  predicate HeaderIsValid(fields: seq<Keyed<Json>>, target: AgentTarget, migrating: bool) {
    && HasExactKeys(fields, Spellings(KeysOf(migrating)))
    && (At(fields, SchemaVersion) == Some(Num(1)) || At(fields, SchemaVersion) == Some(Num(2)))
    && (migrating || At(fields, BundleSchemaVersion) == Some(Num(1)))
    && At(fields, Target) == Some(Str(Name(target)))
    && At(fields, PackageSchemaVersion) == Some(Str("1"))
    && IsStr(At(fields, RendererVersion))
    && Trim(At(fields, RendererVersion).value.text) != ""
    && ValidDigest(At(fields, SourceManifestSha256)) && ValidDigest(At(fields, McpSurfaceSha256))
    && ValidDigest(At(fields, BundleDigest))
    && At(fields, Files).Some? && At(fields, Files).value.Arr?
  }

  function Assemble(fields: seq<Keyed<Json>>, target: AgentTarget, migrating: bool, app: (string, string),
                    files: seq<StateFile>): Decoded
    requires HeaderIsValid(fields, target, migrating)
  {
    Decoded(
      ProductSkillState(target, app.0, app.1, At(fields, RendererVersion).value.text,
                        At(fields, SourceManifestSha256).value.text, At(fields, McpSurfaceSha256).value.text,
                        At(fields, BundleDigest).value.text, files),
      migrating)
  }

  function Decode(value: Json, target: AgentTarget, sha256: string -> string): Option<Decoded>
    requires IsSha256(sha256)
  {
    if !value.Obj? then None
    else
      var fields := value.fields;
      var migrating := At(fields, SchemaVersion) == Some(Num(1));
      var app := DecodeApp(At(fields, App), sha256);
      if !HeaderIsValid(fields, target, migrating) || app.None? then None
      else
        var files := DecodeFiles(At(fields, Files).value.items);
        if files.None? || !CoversTarget(files.value, target, app.value.1) then None
        else Some(Assemble(fields, target, migrating, app.value, files.value))
  }

  function PathsOf(files: seq<StateFile>): set<string> {
    set k | 0 <= k < |files| :: files[k].path
  }

  lemma PathsStep(files: seq<StateFile>, file: StateFile)
    ensures file.path in PathsOf(files) <==> HasPath(files, file.path)
    ensures PathsOf(files + [file]) == PathsOf(files) + {file.path}
  {
    var more := files + [file];
    assert forall k :: 0 <= k < |files| ==> more[k] == files[k];
    assert more[|files|] == file;
  }

  /** The loop over a record's files: each valid, no path twice. */
  method DecodeFileList(items: seq<Json>) returns (decoded: Option<seq<StateFile>>)
    ensures decoded == DecodeFiles(items)
  {
    hide DecodeFile, PathsOf, HasPath;
    var files: seq<StateFile> := [];
    var paths: set<string> := {};
    assert PathsOf([]) == {} by { NoPaths(); }
    for i := 0 to |items|
      invariant DecodeFiles(items[..i]) == Some(files)
      invariant paths == PathsOf(files)
    {
      assert items[..i + 1][..i] == items[..i];
      var file := DecodeFile(items[i]);
      if file.None? {
        FailsEarly(items, i + 1);
        return None;
      }
      PathsStep(files, file.value);
      if file.value.path in paths {
        FailsEarly(items, i + 1);
        return None;
      }
      paths := paths + {file.value.path};
      files := files + [file.value];
    }
    assert items[..|items|] == items;
    return Some(files);
  }

  lemma NoPaths()
    ensures PathsOf([]) == {}
  {
  }

  method DecodeProductSkillState(value: Json, target: AgentTarget, sha256: string -> string)
    returns (decoded: Option<Decoded>)
    requires IsSha256(sha256)
    ensures decoded == Decode(value, target, sha256)
  {
    hide HeaderIsValid, DecodeApp, DecodeFiles, CoversTarget, IsSha256, At, Assemble, SkillPath, ReferencePath;
    if !value.Obj? { return None; }
    var fields := value.fields;
    var migrationRequired := At(fields, SchemaVersion) == Some(Num(1));
    if !HeaderIsValid(fields, target, migrationRequired) { return None; }
    var app := DecodeApp(At(fields, App), sha256);
    if app.None? { return None; }
    HeaderHasFiles(fields, target, migrationRequired);
    var decodedFiles := DecodeFileList(At(fields, Files).value.items);
    if decodedFiles.None? { return None; }
    var files := decodedFiles.value;
    var expectedPaths := {SkillPath(target, app.value.1), ReferencePath(target, app.value.1)};
    TwoPaths(target, app.value.1);
    if |files| != |expectedPaths| || exists k :: 0 <= k < |files| && files[k].path !in expectedPaths {
      NotCovered(files, target, app.value.1);
      return None;
    }
    Covered(files, target, app.value.1);
    return Some(Assemble(fields, target, migrationRequired, app.value, files));
  }

  lemma HeaderHasFiles(fields: seq<Keyed<Json>>, target: AgentTarget, migrating: bool)
    requires HeaderIsValid(fields, target, migrating)
    ensures At(fields, Files).Some? && At(fields, Files).value.Arr?
  {
    hide At, HasExactKeys;
  }

  lemma TwoPaths(target: AgentTarget, slug: string)
    ensures |{SkillPath(target, slug), ReferencePath(target, slug)}| == 2
  {
    hide SkillPath, ReferencePath;
    PathsDiffer(target, slug);
  }

  lemma NotCovered(files: seq<StateFile>, target: AgentTarget, slug: string)
    requires |files| != 2
      || exists k :: 0 <= k < |files| && files[k].path !in {SkillPath(target, slug), ReferencePath(target, slug)}
    ensures !CoversTarget(files, target, slug)
  {
    hide SkillPath, ReferencePath;
  }

  lemma Covered(files: seq<StateFile>, target: AgentTarget, slug: string)
    requires |files| == 2
      && forall k :: 0 <= k < |files| ==> files[k].path in {SkillPath(target, slug), ReferencePath(target, slug)}
    ensures CoversTarget(files, target, slug)
  {
    hide SkillPath, ReferencePath;
  }

  lemma {:induction false} FailsEarly(items: seq<Json>, n: nat)
    requires n <= |items| && DecodeFiles(items[..n]).None?
    ensures DecodeFiles(items).None?
    decreases |items|
  {
    if n == |items| {
      assert items[..n] == items;
    } else {
      assert items[..|items| - 1][..n] == items[..n];
      FailsEarly(items[..|items| - 1], n);
    }
  }

  // ----- Round trips ---------------------------------------------------------------------------------------------

  predicate ValidFile(file: StateFile) {
    IsHexDigest(file.sha256, 64) && 0 <= file.byteLength <= MAX_SAFE_INTEGER
  }

  predicate DistinctPaths(files: seq<StateFile>) {
    forall i, j :: 0 <= i < j < |files| ==> files[i].path != files[j].path
  }

  predicate ValidFiles(files: seq<StateFile>) {
    DistinctPaths(files) && forall k :: 0 <= k < |files| ==> ValidFile(files[k])
  }

  /** A record the tool may own: its slug follows from its name and its files are exactly its target's two. */
  predicate Owned(state: ProductSkillState, sha256: string -> string)
    requires IsSha256(sha256)
  {
    && IsAppName(state.appName) && state.skillSlug == BundleV1SkillSlug(state.appName, sha256)
    && Trim(state.rendererVersion) != ""
    && IsHexDigest(state.sourceManifestSha256, 64) && IsHexDigest(state.mcpSurfaceSha256, 64)
    && IsHexDigest(state.bundleSha256, 64)
    && ValidFiles(state.files) && CoversTarget(state.files, state.target, state.skillSlug)
  }

  lemma KeysAreDistinct(migrating: bool)
    ensures forall i, j :: 0 <= i < j < |KeysOf(migrating)| ==> KeysOf(migrating)[i] != KeysOf(migrating)[j]
    ensures forall key :: key in KeysOf(migrating) <==> key != BundleSchemaVersion || !migrating
  {
  }

  lemma EncodedAt(state: ProductSkillState, migrating: bool, key: Key)
    requires key != BundleSchemaVersion || !migrating
    ensures At(Encode(state, migrating), key) == Some(ValueOf(state, key, migrating))
  {
    hide Spelling, ValueOf, KeysOf;
    var fields, keys := Encode(state, migrating), KeysOf(migrating);
    KeysAreDistinct(migrating);
    forall i, j | 0 <= i < j < |fields| ensures fields[i].key != fields[j].key {
      if Spelling(keys[i]) == Spelling(keys[j]) { SpellingInjective(keys[i], keys[j]); }
    }
    assert key in keys;
    var k :| 0 <= k < |keys| && keys[k] == key;
    GetAt(fields, k);
  }

  lemma EncodedKeys(state: ProductSkillState, migrating: bool)
    ensures HasExactKeys(Encode(state, migrating), Spellings(KeysOf(migrating)))
  {
    hide Spelling, ValueOf, KeysOf, Get;
    var keys := KeysOf(migrating);
    KeysAreDistinct(migrating);
    forall k | 0 <= k < |keys| ensures Get(Encode(state, migrating), Spellings(keys)[k]).Some? {
      assert keys[k] in keys;
      EncodedAt(state, migrating, keys[k]);
    }
  }

  lemma NamesDiffer(a: AgentTarget, b: AgentTarget)
    ensures Name(a) == Name(b) <==> a == b
  {
    assert |"codex"| == 5 && |"claude-code"| == 11;
  }

  lemma EncodedHeader(state: ProductSkillState, migrating: bool, target: AgentTarget)
    ensures HeaderIsValid(Encode(state, migrating), target, migrating)
       <==> target == state.target && Trim(state.rendererVersion) != "" && IsHexDigest(state.sourceManifestSha256, 64)
            && IsHexDigest(state.mcpSurfaceSha256, 64) && IsHexDigest(state.bundleSha256, 64)
  {
    hide At, Encode, HasExactKeys, KeysOf, IsHexDigest, Trim, Name;
    EncodedKeys(state, migrating);
    NamesDiffer(target, state.target);
    EncodedAt(state, migrating, SchemaVersion);
    if !migrating { EncodedAt(state, migrating, BundleSchemaVersion); }
    EncodedAt(state, migrating, Target);
    EncodedAt(state, migrating, PackageSchemaVersion);
    EncodedAt(state, migrating, RendererVersion);
    EncodedAt(state, migrating, SourceManifestSha256);
    EncodedAt(state, migrating, McpSurfaceSha256);
    EncodedAt(state, migrating, BundleDigest);
    EncodedAt(state, migrating, Files);
  }

  lemma AppDecodes(name: string, slug: string, sha256: string -> string)
    requires IsSha256(sha256)
    ensures DecodeApp(Some(AppJson(name, slug)), sha256)
         == if IsAppName(name) && slug == BundleV1SkillSlug(name, sha256) then Some((name, slug)) else None
  {
    hide IsAppName, BundleV1SkillSlug, IsSha256;
    assert |NAME| == 4 && |SKILL_SLUG| == 9;
    var fields := AppJson(name, slug).fields;
    assert fields[1..][0] == fields[1];
    assert Get(fields, NAME) == Some(Str(name)) && Get(fields, SKILL_SLUG) == Some(Str(slug));
  }

  lemma FileDecodes(file: StateFile)
    ensures DecodeFile(FileJson(file)) == if ValidFile(file) then Some(file) else None
  {
    hide IsHexDigest;
    assert |PATH| == 4 && |SHA256| == 6 && |BYTE_LENGTH| == 10;
    var fields := FileJson(file).fields;
    assert DistinctKeys(fields);
    GetAt(fields, 0);
    GetAt(fields, 1);
    GetAt(fields, 2);
  }

  lemma {:induction false} FilesDecode(files: seq<StateFile>)
    ensures DecodeFiles(FilesJson(files)) == if ValidFiles(files) then Some(files) else None
  {
    hide FileJson, DecodeFile, ValidFile;
    if files != [] {
      var init, last := files[..|files| - 1], files[|files| - 1];
      FilesDecode(init);
      FileDecodes(last);
      assert FilesJson(files)[..|files| - 1] == FilesJson(init);
      assert files == init + [last];
      ValidFilesStep(init, last);
    }
  }

  lemma ValidFilesStep(init: seq<StateFile>, last: StateFile)
    ensures ValidFiles(init + [last]) <==> ValidFiles(init) && ValidFile(last) && !HasPath(init, last.path)
  {
    hide ValidFile;
    var files := init + [last];
    assert files[|init|] == last;
    assert forall k :: 0 <= k < |init| ==> files[k] == init[k];
    if ValidFiles(files) {
      forall k | 0 <= k < |init| ensures init[k].path != last.path { assert files[k].path != files[|init|].path; }
    }
  }

  /**
   * Encoding then decoding gives the record back exactly when it is owned and its own target asks: with schema 2
   * nothing is left to migrate, with schema 1 the same state is marked for migration.
   */
  lemma EncodedDecodes(state: ProductSkillState, migrating: bool, target: AgentTarget, sha256: string -> string)
    requires IsSha256(sha256)
    ensures Decode(Obj(Encode(state, migrating)), target, sha256)
         == if Owned(state, sha256) && target == state.target then Some(Decoded(state, migrating)) else None
  {
    hide IsSha256, HeaderIsValid, DecodeApp, DecodeFiles, CoversTarget, At;
    hide Encode, IsHexDigest, IsAppName, Trim, BundleV1SkillSlug;
    hide ValidFiles;
    var fields := Encode(state, migrating);
    EncodedAt(state, migrating, SchemaVersion);
    EncodedAt(state, migrating, App);
    EncodedAt(state, migrating, RendererVersion);
    EncodedAt(state, migrating, SourceManifestSha256);
    EncodedAt(state, migrating, McpSurfaceSha256);
    EncodedAt(state, migrating, BundleDigest);
    EncodedAt(state, migrating, Files);
    EncodedHeader(state, migrating, target);
    AppDecodes(state.appName, state.skillSlug, sha256);
    FilesDecode(state.files);
  }

  lemma {:induction false} DecodedFilesAreValid(items: seq<Json>)
    requires DecodeFiles(items).Some?
    ensures ValidFiles(DecodeFiles(items).value)
  {
    hide DecodeFile, ValidFile;
    if items != [] {
      DecodedFilesAreValid(items[..|items| - 1]);
      DecodedFileIsValid(items[|items| - 1]);
      ValidFilesStep(DecodeFiles(items[..|items| - 1]).value, DecodeFile(items[|items| - 1]).value);
    }
  }

  lemma DecodedFileIsValid(item: Json)
    requires DecodeFile(item).Some?
    ensures ValidFile(DecodeFile(item).value)
  {
    hide Get, HasExactKeys;
  }

  /** Whatever decodes, from either schema, is an owned record of the target that asked. */
  lemma DecodedIsOwned(value: Json, target: AgentTarget, sha256: string -> string)
    requires IsSha256(sha256) && Decode(value, target, sha256).Some?
    ensures var d := Decode(value, target, sha256).value;
            Owned(d.state, sha256) && d.state.target == target
            && (d.migrationRequired <==> At(value.fields, SchemaVersion) == Some(Num(1)))
  {
    hide IsSha256, DecodeFiles, CoversTarget, At, IsHexDigest, IsAppName;
    hide Trim, BundleV1SkillSlug, ValidFiles, HasExactKeys, Get;
    DecodedFilesAreValid(At(value.fields, Files).value.items);
  }

  /**
   * Migration happens once: any decoded record, written back under schema 2, decodes unchanged with none left
   * to do.
   */
  lemma MigratesOnce(value: Json, target: AgentTarget, sha256: string -> string)
    requires IsSha256(sha256) && Decode(value, target, sha256).Some?
    ensures var state := Decode(value, target, sha256).value.state;
            Decode(Obj(Encode(state, false)), target, sha256) == Some(Decoded(state, false))
  {
    hide IsSha256, Decode, Owned, Encode;
    DecodedIsOwned(value, target, sha256);
    EncodedDecodes(Decode(value, target, sha256).value.state, false, target, sha256);
  }

  /** A record created with its target's two rendered files decodes to itself, with no migration. */
  lemma CreatedRoundTrips(target: AgentTarget, appName: string, source: string, surface: string, renderer: string,
                          bundle: string, files: seq<RenderedFile>, sha256: string -> string)
    requires IsSha256(sha256) && IsAppName(appName) && Trim(renderer) != ""
    requires IsHexDigest(source, 64) && IsHexDigest(surface, 64) && IsHexDigest(bundle, 64)
    requires |files| == 2 && files[0].path != files[1].path
    requires forall k :: 0 <= k < 2 ==> InPlace(target, files[k].path, BundleV1SkillSlug(appName, sha256))
    requires forall k :: 0 <= k < 2 ==> files[k].sha256 == sha256(files[k].content)
    requires forall k :: 0 <= k < 2 ==> 0 <= files[k].byteLength <= MAX_SAFE_INTEGER
    ensures var state := CreateProductSkillState(target, appName, source, surface, renderer, bundle, files, sha256);
            && state.target == target && state.appName == appName && state.rendererVersion == renderer
            && state.sourceManifestSha256 == source && state.mcpSurfaceSha256 == surface
            && state.bundleSha256 == bundle && |state.files| == 2
            && (forall k :: 0 <= k < 2 ==>
                  state.files[k] == StateFile(files[k].path, files[k].sha256, files[k].byteLength))
            && Decode(Obj(Encode(state, false)), target, sha256) == Some(Decoded(state, false))
            && Decode(Obj(Encode(state, true)), target, sha256) == Some(Decoded(state, true))
  {
    hide Decode, Encode, IsAppName, Trim, BundleV1SkillSlug, SkillPath, ReferencePath;
    var state := CreateProductSkillState(target, appName, source, surface, renderer, bundle, files, sha256);
    assert forall k :: 0 <= k < 2 ==> IsHexDigest(sha256(files[k].content), 64);
    assert Owned(state, sha256);
    EncodedDecodes(state, false, target, sha256);
    EncodedDecodes(state, true, target, sha256);
  }
}
