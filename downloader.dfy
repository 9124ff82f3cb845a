/**
 * Where a downloaded track is saved and under which name. The environment
 * variable `SUNO_OUTPUT_DIR` and the random identifier are parameters; the
 * directory creation and the HTTP download are not modelled.
 */
module Downloader {
  import opened Wrappers
  import opened Text

  const DefaultOutputDir := "./output"
  const Mp3 := ".mp3"

  // ---------------------------------------------------------------------
  // The output directory
  // ---------------------------------------------------------------------

  /** The argument when one is given (even an empty one), else the environment's setting, else "./output". */
  function OutputDir(outputDir: Option<string>, envDir: Option<string>): string {
    if outputDir.Some? then outputDir.value else envDir.GetOr(DefaultOutputDir)
  }

  /**
   * A given directory wins over the environment, whatever the environment
   * says; the environment wins over the default; the default is used only
   * when neither is set.
   */
  lemma OutputDirPrecedence(outputDir: Option<string>, envDir: Option<string>)
    ensures outputDir.Some? ==> OutputDir(outputDir, envDir) == outputDir.value
    ensures outputDir.Some? ==> forall e :: OutputDir(outputDir, e) == OutputDir(outputDir, envDir)
    ensures outputDir.None? && envDir.Some? ==> OutputDir(outputDir, envDir) == envDir.value
    ensures OutputDir(outputDir, envDir) == DefaultOutputDir <==>
      (outputDir.None? && envDir.None?) || outputDir == Some(DefaultOutputDir)
      || (outputDir.None? && envDir == Some(DefaultOutputDir))
  {
  }

  // ---------------------------------------------------------------------
  // The file name
  // ---------------------------------------------------------------------

  /** The URL's last path piece without its query: `url.split("/")[-1].split("?")[0]`. */
  function UrlFilename(url: string): string {
    BeforeFirst(AfterLast(url, '/'), '?')
  }

  /** The candidate is exactly what the two Python splits produce. */
  lemma UrlFilenameSplits(url: string)
    ensures UrlFilename(url) == SplitOn(SplitOn(url, '/')[|SplitOn(url, '/')| - 1], '?')[0]
  {
    SplitOnLast(url, '/');
    SplitOnFirst(AfterLast(url, '/'), '?');
  }

  /**
   * The candidate is a piece of the URL holding neither '/' nor '?'; a URL
   * without either is its own candidate.
   */
  lemma UrlFilenameShape(url: string)
    ensures '/' !in UrlFilename(url) && '?' !in UrlFilename(url)
    ensures Contains(url, UrlFilename(url))
    ensures '/' !in url && '?' !in url ==> UrlFilename(url) == url
  {
    var tail := AfterLast(url, '/');
    var r := UrlFilename(url);
    assert r == tail[..|r|];
    assert tail == url[|url| - |tail|..];
    assert url[|url| - |tail|..|url| - |tail| + |r|] == r;
    assert OccursAt(url, r, |url| - |tail|);
    forall c | c in r ensures c != '/' {
      assert c in tail;
    }
  }

  /** `url_filename and url_filename.endswith(".mp3")` */
  predicate Qualifies(name: string) {
    name != "" && EndsWith(name, Mp3)
  }

  /** `f"suno_{uuid.uuid4().hex[:8]}.mp3"`, the identifier's hex digits given. */
  function GeneratedName(uuidHex: string): string {
    "suno_" + uuidHex[..if |uuidHex| < 8 then |uuidHex| else 8] + Mp3
  }

  /** The generated name starts with "suno_", keeps at most eight hex digits and ends with ".mp3". */
  lemma GeneratedNameShape(uuidHex: string)
    ensures StartsWith(GeneratedName(uuidHex), "suno_") && EndsWith(GeneratedName(uuidHex), Mp3)
    ensures |uuidHex| >= 8 ==> |GeneratedName(uuidHex)| == 17 && GeneratedName(uuidHex)[5..13] == uuidHex[..8]
  {
    var n := if |uuidHex| < 8 then |uuidHex| else 8;
    assert GeneratedName(uuidHex)[..5] == "suno_";
    assert GeneratedName(uuidHex)[5..5 + n] == uuidHex[..n];
    EndsWithConcat("suno_" + uuidHex[..n], Mp3);
  }

  /** The extension rule: ".mp3" is appended to a name that does not already end with it. */
  function WithMp3(name: string): string {
    if EndsWith(name, Mp3) then name else name + Mp3
  }

  /** The name before the extension rule: the given one, else the URL's when it qualifies, else a generated one. */
  function BaseName(url: string, filename: Option<string>, uuidHex: string): string {
    match filename
    case Some(f) => f
    case None =>
      var candidate := UrlFilename(url);
      if Qualifies(candidate) then candidate else GeneratedName(uuidHex)
  }

  /** The name the track is saved under. */
  function FileName(url: string, filename: Option<string>, uuidHex: string): string {
    WithMp3(BaseName(url, filename, uuidHex))
  }

  /** The extension rule keeps its input as a prefix, adds ".mp3" at most once and always leaves it at the end. */
  lemma WithMp3Shape(name: string)
    ensures EndsWith(WithMp3(name), Mp3) && StartsWith(WithMp3(name), name)
    ensures WithMp3(name) == name <==> EndsWith(name, Mp3)
    ensures !EndsWith(name, Mp3) ==> WithMp3(name) == name + Mp3
  {
    if !EndsWith(name, Mp3) {
      EndsWithConcat(name, Mp3);
      assert (name + Mp3)[..|name|] == name;
      assert |name + Mp3| != |name|;
    }
  }

  /** Applying the extension rule twice is applying it once. */
  lemma WithMp3Idempotent(name: string)
    ensures WithMp3(WithMp3(name)) == WithMp3(name)
  {
    WithMp3Shape(name);
  }

  /** Every saved name ends with ".mp3". */
  lemma FileNameEndsWithMp3(url: string, filename: Option<string>, uuidHex: string)
    ensures EndsWith(FileName(url, filename, uuidHex), Mp3)
  {
    WithMp3Shape(BaseName(url, filename, uuidHex));
  }

  /**
   * Without a given name, the URL's piece is used exactly when it is a
   * non-empty ".mp3" name; otherwise the generated name is used.
   */
  lemma FileNameFromUrl(url: string, uuidHex: string)
    ensures FileName(url, None, uuidHex) == UrlFilename(url) <==> Qualifies(UrlFilename(url))
    ensures !Qualifies(UrlFilename(url)) ==> FileName(url, None, uuidHex) == GeneratedName(uuidHex)
  {
    var candidate := UrlFilename(url);
    WithMp3Shape(candidate);
    GeneratedNameShape(uuidHex);
    WithMp3Shape(GeneratedName(uuidHex));
    if !Qualifies(candidate) {
      assert FileName(url, None, uuidHex) == GeneratedName(uuidHex);
      assert EndsWith(GeneratedName(uuidHex), Mp3);
      assert !EndsWith(candidate, Mp3) || candidate == "";
      if candidate == "" {
        assert |GeneratedName(uuidHex)| > 0;
      }
    }
  }

  /**
   * A given name is used whatever the URL says: unchanged when it already
   * ends with ".mp3" (so even an empty one gets only the extension), with
   * ".mp3" appended otherwise.
   */
  lemma FileNameGiven(url: string, f: string, uuidHex: string)
    ensures FileName(url, Some(f), uuidHex) == (if EndsWith(f, Mp3) then f else f + Mp3)
    ensures forall url2, hex2 :: FileName(url2, Some(f), hex2) == FileName(url, Some(f), uuidHex)
    ensures FileName(url, Some(""), uuidHex) == Mp3
  {
    assert !EndsWith("", Mp3);
  }

  /** Passing a saved name back in as the file name leaves it unchanged. */
  lemma FileNameIdempotent(url: string, filename: Option<string>, uuidHex: string, url2: string, hex2: string)
    ensures FileName(url2, Some(FileName(url, filename, uuidHex)), hex2) == FileName(url, filename, uuidHex)
  {
    WithMp3Idempotent(BaseName(url, filename, uuidHex));
  }
}
