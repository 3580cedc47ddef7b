/** What the platform detectors share: the catalog they resolve against, the resolver they call,
    their result and their errors. */
module Detector {
  import opened Wrappers

  /** PlatformVersionInfo: the supported versions and the default one. */
  datatype PlatformVersionInfo = PlatformVersionInfo(supportedVersions: seq<string>, defaultVersion: string)

  /** SemanticVersionResolver.GetMaxSatisfyingVersion(range, supported): the greatest supported
      version that satisfies the range, or "" (null or empty) when none does. The resolver is
      not part of this model; detectors take it as a parameter. */
  type Resolver = (string, seq<string>) -> string

  /** The exceptions that escape a catalog load. */
  datatype CatalogError =
    | BaseUrlMissing          // InvalidOperationException: the storage URL setting is null or empty
    | FetchFailed(url: string) // HttpRequestException or XmlException from the fetch of `url`
    | DefaultVersionEmpty     // InvalidOperationException: "Default version cannot be empty."
    | SdkVersionMissing       // NullReferenceException: a .NET runtime entry without an SDK entry

  /** IVersionProvider.GetVersionInfo(): the catalog, or the exception its load raised. A
      detection may ask twice (for the default and to verify); both calls get this answer. */
  type Catalog = Result<PlatformVersionInfo, CatalogError>

  /** UnsupportedVersionException; an IOException that escapes a detector; the
      RuntimeBinderException raised by a member access on a JSON value that has no members; and
      the exception of a catalog load, which escapes the detector unchanged. */
  datatype DetectorError =
    | UnsupportedVersion(platform: string, version: string, supportedVersions: seq<string>)
    | ReadFailed(path: string)
    | ManifestShapeInvalid(path: string)
    | CatalogUnavailable(cause: CatalogError)

  /** One string field read from a deserialised JSON manifest through `dynamic`, as in
      `json?.a?.b?.Value as string`. `Field(Some(s))` when the field is the string s;
      `Field(None)` when the text does not deserialise (that exception is swallowed and the
      object is null), when a member on the path is absent, or when the field is not a string;
      `NoMembers` when a value on the path is a JSON null, string, number or array, whose
      member access throws RuntimeBinderException. */
  datatype ManifestField = Field(value: Option<string>) | NoMembers

  /** PlatformDetectorResult. */
  datatype PlatformDetectorResult = PlatformDetectorResult(platform: string, platformVersion: string)

  /** A detector call: null (not this platform), a result, or an exception. */
  datatype Detection<T> = NotDetected | Detected(result: T) | Failed(error: DetectorError)

  /** GetMaxSatisfyingVersionAndVerify, written out identically in the Node, Python and PHP
      detectors with only the platform name changed. It asks the version provider for the
      catalog first, so a failed catalog load escapes before anything is resolved. */
  function GetMaxSatisfyingVersionAndVerify(
    platform: string, version: string, catalog: Catalog, resolve: Resolver): (r: Result<string, DetectorError>)
    ensures catalog.Err? ==> r == Err(CatalogUnavailable(catalog.error))
    ensures catalog.Ok? ==> (r.Ok? <==> resolve(version, catalog.value.supportedVersions) != "")
    ensures catalog.Ok? && r.Ok? ==> r.value == resolve(version, catalog.value.supportedVersions)
    ensures catalog.Ok? && r.Err? ==> r.error == UnsupportedVersion(platform, version, catalog.value.supportedVersions)
  {
    match catalog
    case Err(e) => Err(CatalogUnavailable(e))
    case Ok(versionInfo) =>
      var maxSatisfyingVersion := resolve(version, versionInfo.supportedVersions);
      if maxSatisfyingVersion == "" then Err(UnsupportedVersion(platform, version, versionInfo.supportedVersions))
      else Ok(maxSatisfyingVersion)
  }

  /** GetDefaultVersionFromProvider, also written out in each detector: the catalog default, or
      the failure of the catalog load. */
  function GetDefaultVersionFromProvider(catalog: Catalog): (r: Result<string, DetectorError>)
    ensures r.Ok? <==> catalog.Ok?
    ensures r.Ok? ==> r.value == catalog.value.defaultVersion
    ensures r.Err? ==> r.error == CatalogUnavailable(catalog.error)
  {
    match catalog
    case Err(e) => Err(CatalogUnavailable(e))
    case Ok(versionInfo) => Ok(versionInfo.defaultVersion)
  }

  /** The detector's return: a result carrying the verified version, or the exception. */
  function Report(platform: string, verified: Result<string, DetectorError>): (d: Detection<PlatformDetectorResult>)
    ensures !d.NotDetected?
  {
    match verified
    case Ok(v) => Detected(PlatformDetectorResult(platform, v))
    case Err(e) => Failed(e)
  }
}
