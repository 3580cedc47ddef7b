/** NodeLanguageDetector, the build-script generator's older Node.js detector: the Node.js
    platform detector's rule with a Hugo static-site test between the manifest rule and the
    typical-file rule, and a version range resolved only when it is not blank. */
module NodeLanguageDetector {
  import opened Wrappers
  import opened Text
  import opened Repository
  import opened Detector
  import Node = NodePlatformDetector

  const NodeJsName := "nodejs"
  const HugoTomlFileName := "config.toml"
  const HugoConfigFolderName := "config"

  /** Hugo configuration keys; a line counts when, after its leading spaces, it starts with one. */
  const HugoVariables: seq<string> := ["baseURL", "title", "languageCode", "theme"]

  /** LanguageDetectorResult: the language and its resolved version, None when no range applied. */
  datatype LanguageDetectorResult = LanguageDetectorResult(language: string, languageVersion: Option<string>)

  // ---------------------------------------------------------------------------------------
  // The Hugo test
  // ---------------------------------------------------------------------------------------

  /** l.TrimStart(' ').StartsWith(v) for some Hugo key v: a prefix test, and only ' ' is stripped.
      The code's StartsWith is culture-sensitive; here it is compared character by character. */
  predicate IsHugoLine(line: string) {
    exists k :: 0 <= k < |HugoVariables| && StartsWith(TrimStartChar(line, ' '), HugoVariables[k])
  }

  predicate HasHugoLine(lines: seq<string>) {
    exists l :: l in lines && IsHugoLine(l)
  }

  /** The lines first examined: root config.toml, else config/config.toml, else none.
      A read that throws is not caught. */
  function PrimaryConfigLines(repo: SourceRepo): Result<seq<string>, DetectorError> {
    var nested := Combine(HugoConfigFolderName, HugoTomlFileName);
    if FileExists(repo, HugoTomlFileName) then
      match ReadAllLines(repo, HugoTomlFileName)
      case None => Err(ReadFailed(HugoTomlFileName))
      case Some(lines) => Ok(lines)
    else if FileExists(repo, nested) then
      match ReadAllLines(repo, nested)
      case None => Err(ReadFailed(nested))
      case Some(lines) => Ok(lines)
    else Ok([])
  }

  /** Every *.toml file of the whole repository, searched recursively from the root (the code
      checks that config/ exists but does not search from it). */
  function TomlFiles(repo: SourceRepo): seq<string> {
    EnumerateFiles(repo, ".toml", true)
  }

  /** The scan of `files` in order: the first file with a Hugo line answers true, and a file
      whose read throws ends the scan with that exception. */
  function ScanConfigFiles(repo: SourceRepo, files: seq<string>): Result<bool, DetectorError> {
    if files == [] then Ok(false)
    else match ReadAllLines(repo, files[0])
      case None => Err(ReadFailed(files[0]))
      case Some(lines) => if HasHugoLine(lines) then Ok(true) else ScanConfigFiles(repo, files[1..])
  }

  /** What IsHugoSite answers or throws. */
  function HugoSite(repo: SourceRepo): Result<bool, DetectorError> {
    match PrimaryConfigLines(repo)
    case Err(e) => Err(e)
    case Ok(lines) =>
      if HasHugoLine(lines) then Ok(true)
      else if DirExists(repo, HugoConfigFolderName) then ScanConfigFiles(repo, TomlFiles(repo))
      else Ok(false)
  }

  /** IsHugoSite: `lines` is reassigned for the primary config file, then for each *.toml file. */
  method IsHugoSite(repo: SourceRepo) returns (r: Result<bool, DetectorError>)
    ensures r == HugoSite(repo)
    ensures r == Ok(true) ==> HasHugoLine(PrimaryConfigLines(repo).value) ||
                              exists f :: f in TomlFiles(repo) && ReadAllLines(repo, f).Some? && HasHugoLine(ReadAllLines(repo, f).value)
  {
    var lines: seq<string> := [];
    var nested := Combine(HugoConfigFolderName, HugoTomlFileName);
    if FileExists(repo, HugoTomlFileName) {
      var read := ReadAllLines(repo, HugoTomlFileName);
      if read.None? {
        return Err(ReadFailed(HugoTomlFileName));
      }
      lines := read.value;
    } else if FileExists(repo, nested) {
      var read := ReadAllLines(repo, nested);
      if read.None? {
        return Err(ReadFailed(nested));
      }
      lines := read.value;
    }

    if HasHugoLine(lines) {
      return Ok(true);
    }

    if DirExists(repo, HugoConfigFolderName) {
      var configFiles := TomlFiles(repo);
      var i := 0;
      while i < |configFiles|
        invariant 0 <= i <= |configFiles|
        invariant ScanConfigFiles(repo, configFiles[i..]) == ScanConfigFiles(repo, configFiles)
      {
        var read := ReadAllLines(repo, configFiles[i]);
        if read.None? {
          return Err(ReadFailed(configFiles[i]));
        }
        lines := read.value;
        if HasHugoLine(lines) {
          assert configFiles[i] in TomlFiles(repo);
          return Ok(true);
        }
        assert configFiles[i..][1..] == configFiles[i + 1..];
        i := i + 1;
      }
    }
    return Ok(false);
  }

  // ---------------------------------------------------------------------------------------
  // The version
  // ---------------------------------------------------------------------------------------

  /** engines.node when package.json declares it, else the configured NodeJsDefaultVersion. */
  function NodeVersionRange(enginesNode: Option<string>, nodeJsDefaultVersion: Option<string>): Option<string> {
    if enginesNode.Some? then enginesNode else nodeJsDefaultVersion
  }

  /** DetectNodeVersion: a blank range resolves nothing; otherwise a blank resolution throws. */
  function DetectNodeVersion(
    enginesNode: Option<string>, nodeJsDefaultVersion: Option<string>,
    supportedNodeVersions: seq<string>, resolve: Resolver): (r: Result<Option<string>, DetectorError>)
    ensures IsNullOrWhiteSpace(NodeVersionRange(enginesNode, nodeJsDefaultVersion)) <==> r == Ok(None)
    ensures r.Err? <==>
      var range := NodeVersionRange(enginesNode, nodeJsDefaultVersion);
      !IsNullOrWhiteSpace(range) && IsBlank(resolve(range.value, supportedNodeVersions))
    ensures r.Err? ==>
      r.error == UnsupportedVersion(NodeJsName, NodeVersionRange(enginesNode, nodeJsDefaultVersion).value, supportedNodeVersions)
    ensures r.Ok? && r.value.Some? ==>
      r.value.value == resolve(NodeVersionRange(enginesNode, nodeJsDefaultVersion).value, supportedNodeVersions)
  {
    var nodeVersionRange := NodeVersionRange(enginesNode, nodeJsDefaultVersion);
    if IsNullOrWhiteSpace(nodeVersionRange) then Ok(None)
    else
      var nodeVersion := resolve(nodeVersionRange.value, supportedNodeVersions);
      if IsBlank(nodeVersion) then Err(UnsupportedVersion(NodeJsName, nodeVersionRange.value, supportedNodeVersions))
      else Ok(Some(nodeVersion))
  }

  // ---------------------------------------------------------------------------------------
  // Detect
  // ---------------------------------------------------------------------------------------

  /** Whether the repository is a Node.js app, in the order the code asks: manifest or lock
      file, then the Hugo test, then the typical-file rule with its IIS veto. */
  function NodeAppDecision(repo: SourceRepo): Result<bool, DetectorError> {
    if Node.HasManifestOrLockFile(repo) then Ok(true)
    else match HugoSite(repo)
      case Err(e) => Err(e)
      case Ok(hugo) => Ok(hugo || (Node.HasTypicalNodeFile(repo) && !Node.HasIisStartupFile(repo)))
  }

  method Detect(
    context: RepositoryContext, nodeJsDefaultVersion: Option<string>, supportedNodeVersions: seq<string>,
    resolve: Resolver, readEnginesNode: Node.EnginesNodeReader)
    returns (r: Detection<LanguageDetectorResult>)
    ensures NodeAppDecision(context.sourceRepo).Err? ==> r == Failed(NodeAppDecision(context.sourceRepo).error)
    ensures r.NotDetected? <==> NodeAppDecision(context.sourceRepo) == Ok(false)
    ensures NodeAppDecision(context.sourceRepo) == Ok(true) ==>
      var enginesNode := Node.GetVersionFromPackageJson(context.sourceRepo, readEnginesNode);
      && (enginesNode.Err? ==> r == Failed(enginesNode.error))
      && (enginesNode.Ok? ==>
            var version := DetectNodeVersion(enginesNode.value, nodeJsDefaultVersion, supportedNodeVersions, resolve);
            r == (match version
                  case Ok(v) => Detected(LanguageDetectorResult(NodeJsName, v))
                  case Err(e) => Failed(e)))
  {
    var isNodeApp := false;
    var sourceRepo := context.sourceRepo;
    if FileExists(sourceRepo, Node.PackageJsonFileName) ||
       FileExists(sourceRepo, Node.PackageLockJsonFileName) ||
       FileExists(sourceRepo, Node.YarnLockFileName)
    {
      isNodeApp := true;
    } else {
      var staticSite := IsHugoSite(sourceRepo);
      if staticSite.Err? {
        return Failed(staticSite.error);
      }
      isNodeApp := staticSite.value;
    }

    if !isNodeApp {
      var mightBeNode := false;
      var i := 0;
      while i < |Node.TypicalNodeDetectionFiles|
        invariant 0 <= i <= |Node.TypicalNodeDetectionFiles|
        invariant !mightBeNode
        invariant forall j :: 0 <= j < i ==> !FileExists(sourceRepo, Node.TypicalNodeDetectionFiles[j])
      {
        if FileExists(sourceRepo, Node.TypicalNodeDetectionFiles[i]) {
          mightBeNode := true;
          break;
        }
        i := i + 1;
      }
      assert mightBeNode <==> Node.HasTypicalNodeFile(sourceRepo);

      if mightBeNode {
        var k := 0;
        while k < |Node.IisStartupFiles|
          invariant 0 <= k <= |Node.IisStartupFiles|
          invariant forall j :: 0 <= j < k ==> !FileExists(sourceRepo, Node.IisStartupFiles[j])
        {
          if FileExists(sourceRepo, Node.IisStartupFiles[k]) {
            assert Node.HasIisStartupFile(sourceRepo);
            return NotDetected;
          }
          k := k + 1;
        }
        isNodeApp := true;
      }
    }

    if isNodeApp {
      var enginesNode := Node.GetVersionFromPackageJson(sourceRepo, readEnginesNode);
      if enginesNode.Err? {
        return Failed(enginesNode.error);
      }
      var nodeVersion := DetectNodeVersion(enginesNode.value, nodeJsDefaultVersion, supportedNodeVersions, resolve);
      if nodeVersion.Err? {
        return Failed(nodeVersion.error);
      }
      return Detected(LanguageDetectorResult(NodeJsName, nodeVersion.value));
    }
    return NotDetected;
  }

  // ---------------------------------------------------------------------------------------
  // Properties
  // ---------------------------------------------------------------------------------------

  /** The key test is a prefix test: whatever follows the key is irrelevant, so a line
      `themesDir = "themes"` counts as `theme`. */
  lemma KeyLineIsHugoLine(k: nat, rest: string)
    requires k < |HugoVariables|
    ensures IsHugoLine(HugoVariables[k] + rest)
  {
    var v := HugoVariables[k];
    assert v[0] != ' ';
    assert TrimStartChar(v + rest, ' ') == v + rest;
    assert (v + rest)[..|v|] == v;
  }

  /** Leading spaces do not matter: a line indented by one more space is a Hugo line exactly
      when the unindented one is. */
  lemma LeadingSpaceIsIgnored(tail: string)
    ensures IsHugoLine(" " + tail) == IsHugoLine(tail)
  {
    var line := " " + tail;
    assert line[0] == ' ' && line[1..] == tail;
    assert TrimStartChar(line, ' ') == TrimStartChar(tail, ' ');
  }

  /** Only spaces are stripped: a tab-indented key does not count. */
  lemma TabIndentedKeyDoesNotCount()
    ensures !IsHugoLine("\ttitle = \"site\"")
  {
    var line := "\ttitle = \"site\"";
    assert line[0] == '\t';
    assert TrimStartChar(line, ' ') == line;
    forall k | 0 <= k < |HugoVariables| ensures !StartsWith(line, HugoVariables[k]) {
      assert HugoVariables[k][0] != '\t';
    }
  }

  /** With every file readable, the scan answers whether some file has a Hugo line. Applied
      to TomlFiles, which holds every *.toml file wherever it lies in the repository. */
  lemma {:induction false} ScanFindsAnyHugoFile(repo: SourceRepo, files: seq<string>)
    requires forall f :: f in files ==> ReadAllLines(repo, f).Some?
    ensures ScanConfigFiles(repo, files) == Ok(exists f :: f in files && HasHugoLine(ReadAllLines(repo, f).value))
  {
    if files != [] {
      ScanFindsAnyHugoFile(repo, files[1..]);
      assert forall f :: f in files <==> f == files[0] || f in files[1..];
    }
  }

  /** A Hugo site is a Node.js app even beside an IIS start page: the veto belongs to the
      typical-file rule only. */
  lemma HugoSiteIgnoresIisVeto(repo: SourceRepo)
    requires !Node.HasManifestOrLockFile(repo)
    requires HugoSite(repo) == Ok(true)
    requires Node.HasIisStartupFile(repo)
    ensures NodeAppDecision(repo) == Ok(true)
  {
  }

  /** An engines.node of "" does not fall back to the default: nothing is resolved. */
  lemma EmptyEnginesNodeResolvesNothing(nodeJsDefaultVersion: Option<string>, supported: seq<string>, resolve: Resolver)
    ensures DetectNodeVersion(Some(""), nodeJsDefaultVersion, supported, resolve) == Ok(None)
  {
  }
}
