/** PhpPlatformDetector: composer.json alone makes a PHP app; require.php names the version. */
module PhpPlatformDetector {
  import opened Wrappers
  import opened Repository
  import opened Detector

  const PlatformName := "php"
  const ComposerFileName := "composer.json"

  /** Deserialises the text of composer.json and reads require.php from it. JSON parsing is not
      part of this model. */
  type RequirePhpReader = string -> ManifestField

  /** require.php of composer.json. A failure to read or deserialise the file is swallowed and
      gives null; the member accesses sit outside the try, so a wrongly shaped file throws. */
  function GetVersionFromComposerFile(repo: SourceRepo, readRequirePhp: RequirePhpReader)
    : (r: Result<Option<string>, DetectorError>)
    ensures ReadFile(repo, ComposerFileName).None? ==> r == Ok(None)
    ensures ReadFile(repo, ComposerFileName).Some? ==>
      var field := readRequirePhp(ReadFile(repo, ComposerFileName).value);
      && (field.Field? ==> r == Ok(field.value))
      && (field.NoMembers? ==> r == Err(ManifestShapeInvalid(ComposerFileName)))
  {
    match ReadFile(repo, ComposerFileName)
    case None => Ok(None)
    case Some(text) =>
      match readRequirePhp(text)
      case Field(v) => Ok(v)
      case NoMembers => Err(ManifestShapeInvalid(ComposerFileName))
  }

  /** The version to resolve: the one resolved earlier (composer.json is then not read), else
      require.php, else the catalog default; a wrongly shaped composer.json throws. */
  function GetVersion(context: RepositoryContext, catalog: Catalog, readRequirePhp: RequirePhpReader)
    : (v: Result<string, DetectorError>)
    ensures context.resolvedPhpVersion.Some? ==> v == Ok(context.resolvedPhpVersion.value)
    ensures context.resolvedPhpVersion.None? ==>
      var fromManifest := GetVersionFromComposerFile(context.sourceRepo, readRequirePhp);
      && (fromManifest.Err? ==> v == Err(fromManifest.error))
      && (fromManifest.Ok? && fromManifest.value.Some? ==> v == Ok(fromManifest.value.value))
      && (fromManifest.Ok? && fromManifest.value.None? ==> v == GetDefaultVersionFromProvider(catalog))
  {
    if context.resolvedPhpVersion.Some? then Ok(context.resolvedPhpVersion.value)
    else match GetVersionFromComposerFile(context.sourceRepo, readRequirePhp)
      case Err(e) => Err(e)
      case Ok(Some(version)) => Ok(version)
      case Ok(None) => GetDefaultVersionFromProvider(catalog)
  }

  function Detect(context: RepositoryContext, catalog: Catalog, resolve: Resolver, readRequirePhp: RequirePhpReader)
    : (r: Detection<PlatformDetectorResult>)
    ensures r.NotDetected? <==> !FileExists(context.sourceRepo, ComposerFileName)
    ensures !r.NotDetected? && GetVersion(context, catalog, readRequirePhp).Err? ==>
      r == Failed(GetVersion(context, catalog, readRequirePhp).error)
    ensures !r.NotDetected? && GetVersion(context, catalog, readRequirePhp).Ok? ==>
      r == Report(PlatformName,
                  GetMaxSatisfyingVersionAndVerify(PlatformName, GetVersion(context, catalog, readRequirePhp).value, catalog, resolve))
    ensures r.Detected? ==>
      && catalog.Ok?
      && r.result.platform == PlatformName
      && r.result.platformVersion == resolve(GetVersion(context, catalog, readRequirePhp).value, catalog.value.supportedVersions)
      && r.result.platformVersion != ""
  {
    if !FileExists(context.sourceRepo, ComposerFileName) then NotDetected
    else match GetVersion(context, catalog, readRequirePhp)
      case Err(e) => Failed(e)
      case Ok(version) => Report(PlatformName, GetMaxSatisfyingVersionAndVerify(PlatformName, version, catalog, resolve))
  }

  // ---------------------------------------------------------------------------------------
  // Properties
  // ---------------------------------------------------------------------------------------

  /** A composer.json that does not deserialise (or has no require.php) falls back to the
      catalog default; the repository is still a PHP app. */
  lemma MalformedComposerFileUsesDefault(
    context: RepositoryContext, catalog: Catalog, resolve: Resolver, readRequirePhp: RequirePhpReader)
    requires FileExists(context.sourceRepo, ComposerFileName)
    requires context.resolvedPhpVersion.None?
    requires ReadFile(context.sourceRepo, ComposerFileName).Some?
    requires readRequirePhp(ReadFile(context.sourceRepo, ComposerFileName).value) == Field(None)
    ensures !Detect(context, catalog, resolve, readRequirePhp).NotDetected?
    ensures GetVersion(context, catalog, readRequirePhp) == GetDefaultVersionFromProvider(catalog)
  {
  }

  /** A composer.json whose require is not an object (`{"require": null}`, say) makes Detect
      throw instead of falling back to the default, unless a version was resolved earlier. */
  lemma WrongShapedComposerFileThrows(
    context: RepositoryContext, catalog: Catalog, resolve: Resolver, readRequirePhp: RequirePhpReader)
    requires ReadFile(context.sourceRepo, ComposerFileName).Some?
    requires readRequirePhp(ReadFile(context.sourceRepo, ComposerFileName).value) == NoMembers
    ensures context.resolvedPhpVersion.None? ==>
      Detect(context, catalog, resolve, readRequirePhp) == Failed(ManifestShapeInvalid(ComposerFileName))
    ensures context.resolvedPhpVersion.Some? ==> Detect(context, catalog, resolve, readRequirePhp) != Failed(ManifestShapeInvalid(ComposerFileName))
  {
  }

  /** A failed catalog load never touches a repository without composer.json; with one, it
      makes Detect fail unless composer.json has the wrong shape, which is seen first. */
  lemma CatalogFailureOnlyAfterMatch(
    context: RepositoryContext, catalog: Catalog, resolve: Resolver, readRequirePhp: RequirePhpReader)
    requires catalog.Err?
    ensures !FileExists(context.sourceRepo, ComposerFileName) ==> Detect(context, catalog, resolve, readRequirePhp) == NotDetected
    ensures FileExists(context.sourceRepo, ComposerFileName) &&
            !(context.resolvedPhpVersion.None? && GetVersionFromComposerFile(context.sourceRepo, readRequirePhp).Err?) ==>
      Detect(context, catalog, resolve, readRequirePhp) == Failed(CatalogUnavailable(catalog.error))
  {
  }
}
