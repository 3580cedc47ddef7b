/** NodePlatformDetector: is the repository a Node.js app, and which Node.js version does it ask for? */
module NodePlatformDetector {
  import opened Wrappers
  import opened Repository
  import opened Detector

  const PlatformName := "nodejs"
  const PackageJsonFileName := "package.json"
  const PackageLockJsonFileName := "package-lock.json"
  const YarnLockFileName := "yarn.lock"

  /** Start pages of an IIS site; any one of them vetoes the typical-file rule. */
  const IisStartupFiles: seq<string> := [
    "default.htm", "default.html", "default.asp", "index.htm",
    "index.html", "iisstart.htm", "default.aspx", "index.php"
  ]

  const TypicalNodeDetectionFiles: seq<string> := ["server.js", "app.js"]

  /** Deserialises the text of package.json and reads engines.node from it. JSON parsing is not
      part of this model. */
  type EnginesNodeReader = string -> ManifestField

  // ---------------------------------------------------------------------------------------
  // The structural rule
  // ---------------------------------------------------------------------------------------

  predicate HasManifestOrLockFile(repo: SourceRepo) {
    || FileExists(repo, PackageJsonFileName)
    || FileExists(repo, PackageLockJsonFileName)
    || FileExists(repo, YarnLockFileName)
  }

  predicate HasTypicalNodeFile(repo: SourceRepo) {
    exists f :: f in TypicalNodeDetectionFiles && FileExists(repo, f)
  }

  predicate HasIisStartupFile(repo: SourceRepo) {
    exists f :: f in IisStartupFiles && FileExists(repo, f)
  }

  /** A manifest or lock file decides alone; otherwise a typical entry file is needed and any
      IIS start page vetoes it. */
  predicate IsNodeApp(repo: SourceRepo) {
    HasManifestOrLockFile(repo) || (HasTypicalNodeFile(repo) && !HasIisStartupFile(repo))
  }

  // ---------------------------------------------------------------------------------------
  // The requested version
  // ---------------------------------------------------------------------------------------

  /** engines.node of package.json. A missing or unreadable file is null, since
      GetPackageJsonObject swallows every exception of the read and the deserialisation; the
      member accesses sit outside that try, so a wrongly shaped manifest throws. */
  function GetVersionFromPackageJson(repo: SourceRepo, readEnginesNode: EnginesNodeReader)
    : (r: Result<Option<string>, DetectorError>)
    ensures ReadFile(repo, PackageJsonFileName).None? ==> r == Ok(None)
    ensures ReadFile(repo, PackageJsonFileName).Some? ==>
      var field := readEnginesNode(ReadFile(repo, PackageJsonFileName).value);
      && (field.Field? ==> r == Ok(field.value))
      && (field.NoMembers? ==> r == Err(ManifestShapeInvalid(PackageJsonFileName)))
  {
    match ReadFile(repo, PackageJsonFileName)
    case None => Ok(None)
    case Some(text) =>
      match readEnginesNode(text)
      case Field(v) => Ok(v)
      case NoMembers => Err(ManifestShapeInvalid(PackageJsonFileName))
  }

  /** The version to resolve: the one resolved earlier (package.json is then not read), else
      engines.node, else the catalog default; a wrongly shaped package.json throws. */
  function GetVersion(context: RepositoryContext, catalog: Catalog, readEnginesNode: EnginesNodeReader)
    : (v: Result<string, DetectorError>)
    ensures context.resolvedNodeVersion.Some? ==> v == Ok(context.resolvedNodeVersion.value)
    ensures context.resolvedNodeVersion.None? ==>
      var fromManifest := GetVersionFromPackageJson(context.sourceRepo, readEnginesNode);
      && (fromManifest.Err? ==> v == Err(fromManifest.error))
      && (fromManifest.Ok? && fromManifest.value.Some? ==> v == Ok(fromManifest.value.value))
      && (fromManifest.Ok? && fromManifest.value.None? ==> v == GetDefaultVersionFromProvider(catalog))
  {
    if context.resolvedNodeVersion.Some? then Ok(context.resolvedNodeVersion.value)
    else match GetVersionFromPackageJson(context.sourceRepo, readEnginesNode)
      case Err(e) => Err(e)
      case Ok(Some(version)) => Ok(version)
      case Ok(None) => GetDefaultVersionFromProvider(catalog)
  }

  // ---------------------------------------------------------------------------------------
  // Detect
  // ---------------------------------------------------------------------------------------

  /** The structural scan: flags set by two loops, the second returning null at the first
      IIS start page. On a match the version is chosen and verified against the catalog. */
  method Detect(context: RepositoryContext, catalog: Catalog, resolve: Resolver, readEnginesNode: EnginesNodeReader)
    returns (r: Detection<PlatformDetectorResult>)
    ensures r.NotDetected? <==> !IsNodeApp(context.sourceRepo)
    ensures HasManifestOrLockFile(context.sourceRepo) ==> !r.NotDetected?
    ensures !HasManifestOrLockFile(context.sourceRepo) && HasIisStartupFile(context.sourceRepo) ==> r.NotDetected?
    ensures !r.NotDetected? && GetVersion(context, catalog, readEnginesNode).Err? ==>
      r == Failed(GetVersion(context, catalog, readEnginesNode).error)
    ensures !r.NotDetected? && GetVersion(context, catalog, readEnginesNode).Ok? ==>
      r == Report(PlatformName,
                  GetMaxSatisfyingVersionAndVerify(PlatformName, GetVersion(context, catalog, readEnginesNode).value, catalog, resolve))
  {
    var isNodeApp := false;
    var sourceRepo := context.sourceRepo;
    if FileExists(sourceRepo, PackageJsonFileName) ||
       FileExists(sourceRepo, PackageLockJsonFileName) ||
       FileExists(sourceRepo, YarnLockFileName)
    {
      isNodeApp := true;
    }

    if !isNodeApp {
      var mightBeNode := false;
      var i := 0;
      while i < |TypicalNodeDetectionFiles|
        invariant 0 <= i <= |TypicalNodeDetectionFiles|
        invariant !mightBeNode
        invariant forall j :: 0 <= j < i ==> !FileExists(sourceRepo, TypicalNodeDetectionFiles[j])
      {
        if FileExists(sourceRepo, TypicalNodeDetectionFiles[i]) {
          mightBeNode := true;
          break;
        }
        i := i + 1;
      }
      assert mightBeNode <==> HasTypicalNodeFile(sourceRepo);

      if mightBeNode {
        var k := 0;
        while k < |IisStartupFiles|
          invariant 0 <= k <= |IisStartupFiles|
          invariant forall j :: 0 <= j < k ==> !FileExists(sourceRepo, IisStartupFiles[j])
        {
          if FileExists(sourceRepo, IisStartupFiles[k]) {
            assert HasIisStartupFile(sourceRepo);
            return NotDetected;
          }
          k := k + 1;
        }
        isNodeApp := true;
      }
    }

    if !isNodeApp {
      return NotDetected;
    }

    var version := GetVersion(context, catalog, readEnginesNode);
    if version.Err? {
      return Failed(version.error);
    }
    var verified := GetMaxSatisfyingVersionAndVerify(PlatformName, version.value, catalog, resolve);
    r := Report(PlatformName, verified);
  }

  // ---------------------------------------------------------------------------------------
  // Properties
  // ---------------------------------------------------------------------------------------

  function RepoWith(files: seq<string>): SourceRepo {
    SourceRepo(files, {}, map[])
  }

  /** Only app.js: a Node.js app. */
  lemma AppJsAloneMatches()
    ensures IsNodeApp(RepoWith(["app.js"]))
  {
    var repo := RepoWith(["app.js"]);
    assert FileExists(repo, TypicalNodeDetectionFiles[1]);
    forall f | f in IisStartupFiles ensures !FileExists(repo, f) {
      assert f != "app.js";
    }
  }

  /** app.js next to iisstart.htm: the start page vetoes. */
  lemma IisStartPageVetoesAppJs()
    ensures !IsNodeApp(RepoWith(["app.js", "iisstart.htm"]))
  {
    var repo := RepoWith(["app.js", "iisstart.htm"]);
    assert FileExists(repo, IisStartupFiles[5]);
  }

  /** package.json next to index.html: the veto is never consulted. */
  lemma ManifestOverridesIisStartPage()
    ensures IsNodeApp(RepoWith(["index.html", "package.json"]))
  {
  }

  /** Only index.php: neither a manifest nor a typical file. */
  lemma IndexPhpAloneDoesNotMatch()
    ensures !IsNodeApp(RepoWith(["index.php"]))
  {
  }

  /** A package.json that does not deserialise behaves as one without engines.node: the
      catalog default is requested. */
  lemma MalformedPackageJsonUsesDefault(context: RepositoryContext, catalog: Catalog, readEnginesNode: EnginesNodeReader)
    requires context.resolvedNodeVersion.None?
    requires ReadFile(context.sourceRepo, PackageJsonFileName).Some?
    requires readEnginesNode(ReadFile(context.sourceRepo, PackageJsonFileName).value) == Field(None)
    ensures GetVersion(context, catalog, readEnginesNode) == GetDefaultVersionFromProvider(catalog)
  {
  }

  /** A package.json whose engines is not an object (`{"engines": null}`, say) aborts the
      detection of a Node.js app instead of falling back to the default; a version resolved
      earlier keeps package.json from being read at all. */
  lemma WrongShapedPackageJsonThrows(context: RepositoryContext, catalog: Catalog, readEnginesNode: EnginesNodeReader)
    requires ReadFile(context.sourceRepo, PackageJsonFileName).Some?
    requires readEnginesNode(ReadFile(context.sourceRepo, PackageJsonFileName).value) == NoMembers
    ensures context.resolvedNodeVersion.None? ==>
      GetVersion(context, catalog, readEnginesNode) == Err(ManifestShapeInvalid(PackageJsonFileName))
    ensures context.resolvedNodeVersion.Some? ==> GetVersion(context, catalog, readEnginesNode).Ok?
  {
  }
}
