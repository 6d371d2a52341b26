/** The rendered product-skill bundle: which file lists are accepted, and the preimage of its digest. */
module ProductSkillRenderer {
  import opened Orders
  import opened Text
  import opened AgentTargets
  import opened CanonicalJson
  import opened JsonMeaning

  const MAX_FILE_BYTES := 64 * 1024
  const MAX_TOTAL_BYTES := 256 * 1024
  const MAX_SKILL_MD_LINES := 500

  datatype RenderedFile = RenderedFile(target: AgentTarget, path: string, content: string, sha256: string,
                                       byteLength: int)

  // ----- The digest's preimage ---------------------------------------------------------------------------

  function FileValue(file: RenderedFile): Json {
    Obj([Keyed("target", Str(Name(file.target))), Keyed("path", Str(file.path)), Keyed("sha256", Str(file.sha256))])
  }

  function FileValues(files: seq<RenderedFile>): (values: seq<Json>)
    ensures |values| == |files| && forall k :: 0 <= k < |files| ==> values[k] == FileValue(files[k])
  {
    seq(|files|, k requires 0 <= k < |files| => FileValue(files[k]))
  }

  function BundleValue(sourceManifest: string, mcpSurface: string, files: seq<RenderedFile>): Json {
    Obj([Keyed("sourceManifestSha256", Str(sourceManifest)), Keyed("mcpSurfaceSha256", Str(mcpSurface)),
         Keyed("files", Arr(FileValues(files)))])
  }

  lemma {:induction false} ItemMeaning(items: seq<Json>, k: nat)
    requires k < |items|
    ensures MeaningItems(items)[k] == Meaning(items[k])
  {
    if k > 0 { ItemMeaning(items[1..], k - 1); }
  }

  lemma MeaningOfThree(a: Keyed<Json>, b: Keyed<Json>, c: Keyed<Json>)
    requires a.key != b.key && a.key != c.key && b.key != c.key
    ensures Meaning(Obj([a, b, c])).Record?
    ensures var fields := Meaning(Obj([a, b, c])).fields;
            && a.key in fields && b.key in fields && c.key in fields
            && fields[a.key] == Meaning(a.value)
            && fields[b.key] == Meaning(b.value)
            && fields[c.key] == Meaning(c.value)
  {
    hide Meaning;
    ObjMeaning([a, b, c]);
    assert [a, b, c][1..] == [b, c] && [b, c][1..] == [c] && [c][1..] == [];
    assert MeaningFields([c]) == map[c.key := Meaning(c.value)];
    assert MeaningFields([b, c]) == MeaningFields([c])[b.key := Meaning(b.value)];
    assert MeaningFields([a, b, c]) == MeaningFields([b, c])[a.key := Meaning(a.value)];
  }

  lemma ObjMeaning(fields: seq<Keyed<Json>>)
    ensures Meaning(Obj(fields)) == Record(MeaningFields(fields))
  {
  }

  lemma KeysDiffer()
    ensures "target" != "path" && "target" != "sha256" && "path" != "sha256"
    ensures "sourceManifestSha256" != "mcpSurfaceSha256" && "sourceManifestSha256" != "files"
            && "mcpSurfaceSha256" != "files"
    ensures Name(Codex) != Name(ClaudeCode)
  {
    assert |"target"| == 6 && |"path"| == 4 && "target"[0] == 't' && "sha256"[0] == 's';
    assert |"sourceManifestSha256"| == 20 && |"mcpSurfaceSha256"| == 16 && |"files"| == 5;
    assert |"codex"| == 5 && |"claude-code"| == 11;
  }

  /** What the digest keeps of a file. */
  predicate SameEntry(a: RenderedFile, b: RenderedFile) {
    a.target == b.target && a.path == b.path && a.sha256 == b.sha256
  }

  lemma FileValueTells(a: RenderedFile, b: RenderedFile)
    requires Meaning(FileValue(a)) == Meaning(FileValue(b))
    ensures SameEntry(a, b)
  {
    hide Name;
    KeysDiffer();
    MeaningOfThree(Keyed("target", Str(Name(a.target))), Keyed("path", Str(a.path)), Keyed("sha256", Str(a.sha256)));
    MeaningOfThree(Keyed("target", Str(Name(b.target))), Keyed("path", Str(b.path)), Keyed("sha256", Str(b.sha256)));
  }

  lemma BundleWellFormed(sourceManifest: string, mcpSurface: string, files: seq<RenderedFile>)
    ensures WellFormed(BundleValue(sourceManifest, mcpSurface, files))
  {
    hide Name, WellFormed;
    KeysDiffer();
    forall k | 0 <= k < |files| ensures WellFormed(FileValues(files)[k]) {
      var file := files[k];
      StrWellFormed(Name(file.target));
      StrWellFormed(file.path);
      StrWellFormed(file.sha256);
      ThreeWellFormed(Keyed("target", Str(Name(file.target))), Keyed("path", Str(file.path)),
                      Keyed("sha256", Str(file.sha256)));
    }
    StrWellFormed(sourceManifest);
    StrWellFormed(mcpSurface);
    ArrWellFormed(FileValues(files));
    ThreeWellFormed(Keyed("sourceManifestSha256", Str(sourceManifest)), Keyed("mcpSurfaceSha256", Str(mcpSurface)),
                    Keyed("files", Arr(FileValues(files))));
  }

  lemma StrWellFormed(text: string)
    ensures WellFormed(Str(text))
  {
  }

  lemma ArrWellFormed(items: seq<Json>)
    requires forall k :: 0 <= k < |items| ==> WellFormed(items[k])
    ensures WellFormed(Arr(items))
  {
  }

  lemma ThreeWellFormed(a: Keyed<Json>, b: Keyed<Json>, c: Keyed<Json>)
    requires a.key != b.key && a.key != c.key && b.key != c.key
    requires WellFormed(a.value) && WellFormed(b.value) && WellFormed(c.value)
    ensures WellFormed(Obj([a, b, c]))
  {
    var fields := [a, b, c];
    assert forall k :: 0 <= k < 3 ==> WellFormedField(fields[k]);
  }

  /** Different provenance or different file lists give different preimages. */
  lemma BundlePreimageInjective(source1: string, surface1: string, files1: seq<RenderedFile>,
                                source2: string, surface2: string, files2: seq<RenderedFile>,
                                before: (string, string) -> bool)
    requires StrictTotalOrder(before)
    ensures Canonical(BundleValue(source1, surface1, files1), before)
         == Canonical(BundleValue(source2, surface2, files2), before)
       <==> source1 == source2 && surface1 == surface2 && |files1| == |files2|
            && forall k :: 0 <= k < |files1| ==> SameEntry(files1[k], files2[k])
  {
    hide Canonical, Meaning, WellFormed, FileValue;
    var a, b := BundleValue(source1, surface1, files1), BundleValue(source2, surface2, files2);
    BundleWellFormed(source1, surface1, files1);
    BundleWellFormed(source2, surface2, files2);
    CanonicalDecidesMeaning(a, b, before);
    if Meaning(a) == Meaning(b) {
      BundleMeaningTells(source1, surface1, files1, source2, surface2, files2);
    }
    if |files1| == |files2| && forall k :: 0 <= k < |files1| ==> SameEntry(files1[k], files2[k]) {
      SameValues(files1, files2);
    }
  }

  lemma SameValues(files1: seq<RenderedFile>, files2: seq<RenderedFile>)
    requires |files1| == |files2| && forall k :: 0 <= k < |files1| ==> SameEntry(files1[k], files2[k])
    ensures FileValues(files1) == FileValues(files2)
  {
    assert forall k :: 0 <= k < |files1| ==> FileValues(files1)[k] == FileValues(files2)[k];
  }

  lemma BundleMeaningTells(source1: string, surface1: string, files1: seq<RenderedFile>,
                           source2: string, surface2: string, files2: seq<RenderedFile>)
    requires Meaning(BundleValue(source1, surface1, files1)) == Meaning(BundleValue(source2, surface2, files2))
    ensures source1 == source2 && surface1 == surface2 && |files1| == |files2|
    ensures forall k :: 0 <= k < |files1| ==> SameEntry(files1[k], files2[k])
  {
    KeysDiffer();
    MeaningOfThree(Keyed("sourceManifestSha256", Str(source1)), Keyed("mcpSurfaceSha256", Str(surface1)),
                   Keyed("files", Arr(FileValues(files1))));
    MeaningOfThree(Keyed("sourceManifestSha256", Str(source2)), Keyed("mcpSurfaceSha256", Str(surface2)),
                   Keyed("files", Arr(FileValues(files2))));
    var trees1, trees2 := MeaningItems(FileValues(files1)), MeaningItems(FileValues(files2));
    assert trees1 == trees2;
    assert |trees1| == |files1| && |trees2| == |files2|;
    forall k | 0 <= k < |files1| ensures SameEntry(files1[k], files2[k]) {
      ItemMeaning(FileValues(files1), k);
      ItemMeaning(FileValues(files2), k);
      FileValueTells(files1[k], files2[k]);
    }
  }

  // ----- Which file lists are accepted --------------------------------------------------------------------

  datatype Fault = UnsafePath | Invalid | FileTooLarge | TotalTooLarge

  function SkillPath(target: AgentTarget, slug: string): string {
    InstalledRoot(target) + "/" + slug + "/SKILL.md"
  }

  function ReferencePath(target: AgentTarget, slug: string): string {
    InstalledRoot(target) + "/" + slug + "/references/mcp-surface.md"
  }

  /** A target's own two files. */
  predicate InPlace(target: AgentTarget, path: string, slug: string) {
    path == SkillPath(target, slug) || path == ReferencePath(target, slug)
  }

  function Newlines(s: string): nat {
    if s == "" then 0 else (if s[0] == '\n' then 1 else 0) + Newlines(s[1..])
  }

  function LineCount(content: string): nat {
    Newlines(content) + if EndsWith(content, "\n") then 0 else 1
  }

  predicate SafePart(part: string) {
    part != "" && part != "." && part != ".."
  }

  predicate SafeRelativePath(path: string) {
    path != "" && path[0] != '/' && '\\' !in path && '\0' !in path
    && forall k :: 0 <= k < |Split(path, '/')| ==> SafePart(Split(path, '/')[k])
  }

  /** The digests and byte lengths a file is checked against. */
  datatype Measure = Measure(sha256: string -> string, utf8Length: string -> nat)

  predicate Consistent(file: RenderedFile, measure: Measure) {
    Trim(file.content) != "" && file.byteLength == measure.utf8Length(file.content)
    && file.sha256 == measure.sha256(file.content)
  }

  predicate TooManyLines(file: RenderedFile) {
    EndsWith(file.path, "/SKILL.md") && LineCount(file.content) > MAX_SKILL_MD_LINES
  }

  predicate Sound(file: RenderedFile, slug: string, measure: Measure) {
    && InPlace(file.target, file.path, slug) && SafeRelativePath(file.path)
    && Consistent(file, measure) && !TooManyLines(file)
  }

  predicate SamePlace(a: RenderedFile, b: RenderedFile) {
    a.target == b.target && a.path == b.path
  }

  function TotalBytes(files: seq<RenderedFile>, measure: Measure): nat {
    if files == [] then 0
    else TotalBytes(files[..|files| - 1], measure) + measure.utf8Length(files[|files| - 1].content)
  }

  predicate TooLarge(file: RenderedFile, measure: Measure) {
    measure.utf8Length(file.content) > MAX_FILE_BYTES
  }

  /** The first `n` files are sound and stand in different places. */
  predicate Clean(files: seq<RenderedFile>, n: nat, slug: string, measure: Measure)
    requires n <= |files|
  {
    && (forall k :: 0 <= k < n ==> Sound(files[k], slug, measure))
    && (forall i, j :: 0 <= i < j < n ==> !SamePlace(files[i], files[j]))
  }

  /** Four sound files in four different places, so each expected place exactly once. */
  predicate Complete(files: seq<RenderedFile>, slug: string, measure: Measure) {
    |files| == 4 && Clean(files, 4, slug, measure)
  }

  predicate Acceptable(files: seq<RenderedFile>, slug: string, measure: Measure) {
    && Complete(files, slug, measure)
    && TotalBytes(files, measure) <= MAX_TOTAL_BYTES
    && (forall k :: 0 <= k < 4 ==> !TooLarge(files[k], measure))
  }

  function PairKey(target: AgentTarget, path: string): string {
    Name(target) + "\0" + path
  }

  lemma PairKeyInjective(t1: AgentTarget, p1: string, t2: AgentTarget, p2: string)
    ensures PairKey(t1, p1) == PairKey(t2, p2) <==> t1 == t2 && p1 == p2
  {
    var a, b := PairKey(t1, p1), PairKey(t2, p2);
    assert a[1] == Name(t1)[1] && b[1] == Name(t2)[1];
    assert a[|Name(t1)| + 1..] == p1 && b[|Name(t2)| + 1..] == p2;
  }

  function ExpectedKeys(slug: string): set<string> {
    {PairKey(Codex, SkillPath(Codex, slug)), PairKey(Codex, ReferencePath(Codex, slug)),
     PairKey(ClaudeCode, SkillPath(ClaudeCode, slug)), PairKey(ClaudeCode, ReferencePath(ClaudeCode, slug))}
  }

  lemma PathsDiffer(target: AgentTarget, slug: string)
    ensures SkillPath(target, slug) != ReferencePath(target, slug)
  {
    assert |"/SKILL.md"| == 9 && |"/references/mcp-surface.md"| == 26;
  }

  lemma FourExpectedKeys(slug: string)
    ensures |ExpectedKeys(slug)| == 4
  {
    hide PairKey, SkillPath, ReferencePath;
    PathsDiffer(Codex, slug);
    PathsDiffer(ClaudeCode, slug);
    var a, b := PairKey(Codex, SkillPath(Codex, slug)), PairKey(Codex, ReferencePath(Codex, slug));
    var c, d := PairKey(ClaudeCode, SkillPath(ClaudeCode, slug)), PairKey(ClaudeCode, ReferencePath(ClaudeCode, slug));
    PairKeyInjective(Codex, SkillPath(Codex, slug), Codex, ReferencePath(Codex, slug));
    PairKeyInjective(Codex, SkillPath(Codex, slug), ClaudeCode, SkillPath(ClaudeCode, slug));
    PairKeyInjective(Codex, SkillPath(Codex, slug), ClaudeCode, ReferencePath(ClaudeCode, slug));
    PairKeyInjective(Codex, ReferencePath(Codex, slug), ClaudeCode, SkillPath(ClaudeCode, slug));
    PairKeyInjective(Codex, ReferencePath(Codex, slug), ClaudeCode, ReferencePath(ClaudeCode, slug));
    PairKeyInjective(ClaudeCode, SkillPath(ClaudeCode, slug), ClaudeCode, ReferencePath(ClaudeCode, slug));
    assert |{a, b}| == 2 && |{a, b, c}| == 3 && |{a, b, c, d}| == 4;
  }

  lemma ExpectedExactly(target: AgentTarget, path: string, slug: string)
    ensures PairKey(target, path) in ExpectedKeys(slug) <==> InPlace(target, path, slug)
  {
    hide PairKey, SkillPath, ReferencePath;
    PairKeyInjective(target, path, Codex, SkillPath(Codex, slug));
    PairKeyInjective(target, path, Codex, ReferencePath(Codex, slug));
    PairKeyInjective(target, path, ClaudeCode, SkillPath(ClaudeCode, slug));
    PairKeyInjective(target, path, ClaudeCode, ReferencePath(ClaudeCode, slug));
  }

  /** Whether the path lies under either host's skill directory, at most one reference level deep. */
  predicate OneLevelReferenceDepth(path: string, slug: string) {
    InPlace(Codex, path, slug) || InPlace(ClaudeCode, path, slug)
  }

  function PairKeys(files: seq<RenderedFile>, n: nat): set<string>
    requires n <= |files|
  {
    set k | 0 <= k < n :: PairKey(files[k].target, files[k].path)
  }

  lemma KeySeen(files: seq<RenderedFile>, i: nat)
    requires i < |files|
    ensures PairKey(files[i].target, files[i].path) in PairKeys(files, i)
       <==> exists k :: 0 <= k < i && SamePlace(files[k], files[i])
    ensures PairKeys(files, i + 1) == PairKeys(files, i) + {PairKey(files[i].target, files[i].path)}
  {
    hide PairKey;
    forall k | 0 <= k < i
      ensures PairKey(files[k].target, files[k].path) == PairKey(files[i].target, files[i].path)
              <==> SamePlace(files[k], files[i])
    {
      PairKeyInjective(files[k].target, files[k].path, files[i].target, files[i].path);
    }
  }

  lemma CleanStep(files: seq<RenderedFile>, i: nat, slug: string, measure: Measure)
    requires i < |files| && Clean(files, i, slug, measure)
    ensures Clean(files, i + 1, slug, measure) <==>
              Sound(files[i], slug, measure) && !exists k :: 0 <= k < i && SamePlace(files[k], files[i])
    ensures Complete(files, slug, measure) ==> Clean(files, i + 1, slug, measure)
  {
    hide Sound, SamePlace;
  }

  predicate AnyTooLarge(files: seq<RenderedFile>, n: nat, measure: Measure)
    requires n <= |files|
  {
    exists k :: 0 <= k < n && TooLarge(files[k], measure)
  }

  /** The checks of one file's content: blank or misdescribed, then too many lines. */
  function ContentFault(file: RenderedFile, measure: Measure): (fault: Option<Fault>)
    ensures fault.None? <==> Consistent(file, measure) && !TooManyLines(file)
    ensures fault.Some? ==> fault.value == if Consistent(file, measure) then FileTooLarge else Invalid
  {
    if Trim(file.content) == "" then Some(Invalid)
    else if file.byteLength != measure.utf8Length(file.content) || file.sha256 != measure.sha256(file.content) then
      Some(Invalid)
    else if EndsWith(file.path, "/SKILL.md") && LineCount(file.content) > MAX_SKILL_MD_LINES then Some(FileTooLarge)
    else None
  }

  /** What each fault of a file says: everything checked before it is in order, and it is not. */
  predicate FileCause(files: seq<RenderedFile>, k: int, fault: Fault, slug: string, measure: Measure) {
    && 0 <= k < |files| && Clean(files, k, slug, measure)
    && var placed := && InPlace(files[k].target, files[k].path, slug) && SafeRelativePath(files[k].path)
                     && forall i :: 0 <= i < k ==> !SamePlace(files[i], files[k]);
       match fault
       case UnsafePath => !placed
       case Invalid => placed && !Consistent(files[k], measure)
       case FileTooLarge => placed && Consistent(files[k], measure) && TooManyLines(files[k])
       case TotalTooLarge => false
  }

  /** What is reported of sound files in different places: a missing one, then the total size, then one too large. */
  predicate WholeCause(files: seq<RenderedFile>, fault: Fault, slug: string, measure: Measure) {
    && Clean(files, |files|, slug, measure)
    && if |files| != 4 then fault == UnsafePath
       else if TotalBytes(files, measure) > MAX_TOTAL_BYTES then fault == TotalTooLarge
       else fault == FileTooLarge && exists k :: 0 <= k < 4 && TooLarge(files[k], measure)
  }

  /** A bundle passes exactly when it is complete and within the size limits; size faults are reported last. */
  method ValidateFiles(files: seq<RenderedFile>, slug: string, measure: Measure) returns (fault: Option<Fault>)
    ensures fault.None? <==> Acceptable(files, slug, measure)
    ensures fault.Some? ==> (exists k :: FileCause(files, k, fault.value, slug, measure))
                            || WholeCause(files, fault.value, slug, measure)
  {
    hide PairKey, PairKeys, ExpectedKeys, InPlace, SafeRelativePath;
    hide ContentFault, Consistent, TooManyLines, SamePlace, Clean;
    FourExpectedKeys(slug);
    var expected := ExpectedKeys(slug);
    var pairs: set<string> := {};
    var totalBytes := 0;
    var fileTooLarge := false;
    NothingSeen(files, slug, measure);
    for i := 0 to |files|
      invariant pairs == PairKeys(files, i) && |pairs| == i
      invariant Clean(files, i, slug, measure)
      invariant totalBytes == TotalBytes(files[..i], measure)
      invariant fileTooLarge <==> AnyTooLarge(files, i, measure)
    {
      var file := files[i];
      var pair := PairKey(file.target, file.path);
      ExpectedExactly(file.target, file.path, slug);
      InSomePlace(file.target, file.path, slug);
      KeySeen(files, i);
      CleanStep(files, i, slug, measure);
      assert !SafeRelativePath(file.path) || pair !in expected || pair in pairs ==>
        FileCause(files, i, UnsafePath, slug, measure);
      if !SafeRelativePath(file.path) || pair !in expected { return Some(UnsafePath); }
      if !OneLevelReferenceDepth(file.path, slug) { return Some(UnsafePath); }
      if pair in pairs { return Some(UnsafePath); }
      pairs := pairs + {pair};
      var contentFault := ContentFault(file, measure);
      if contentFault.Some? {
        assert FileCause(files, i, contentFault.value, slug, measure);
        return contentFault;
      }
      var byteLength := measure.utf8Length(file.content);
      if byteLength > MAX_FILE_BYTES { fileTooLarge := true; }
      totalBytes := totalBytes + byteLength;
      assert files[..i + 1][..i] == files[..i];
    }
    assert files[..|files|] == files;
    if |pairs| != |expected| || |expected| != |files| { return Some(UnsafePath); }
    if totalBytes > MAX_TOTAL_BYTES { return Some(TotalTooLarge); }
    if fileTooLarge { return Some(FileTooLarge); }
    return None;
  }

  lemma NothingSeen(files: seq<RenderedFile>, slug: string, measure: Measure)
    ensures PairKeys(files, 0) == {} && Clean(files, 0, slug, measure) && !AnyTooLarge(files, 0, measure)
  {
  }

  lemma InSomePlace(target: AgentTarget, path: string, slug: string)
    ensures InPlace(target, path, slug) ==> OneLevelReferenceDepth(path, slug)
  {
  }
}
