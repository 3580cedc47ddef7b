/** SdkStorageVersionProviderBase: a platform's catalog read from the SDK storage account, namely
    the versions named in the blob listing's metadata and the default version held in a text file. */
module SdkStorageVersionProviderBase {
  import opened Wrappers
  import opened Text
  import opened Detector

  /** The query of the container listing (the part of SdkStorageConstants.ContainerMetadataUrlFormat
      after "{0}/{1}") and the name of the default-version file. */
  const ContainerMetadataQuery := "?restype=container&comp=list&include=metadata"
  const DefaultVersionFileName := "defaultVersion.txt"

  /** A child of a //Blobs/Blob/Metadata element: its local name and its text. */
  datatype XElement = XElement(localName: string, value: string)

  /** The children of one Metadata element, in document order. */
  type Metadata = seq<XElement>

  /** The storage account as seen through HttpClient and XDocument: `listing` is the sequence of
      Metadata elements of the listing at a URL, `text` the text at a URL; None where the fetch
      or the parse throws. */
  datatype SdkStorage = SdkStorage(listing: string -> Option<seq<Metadata>>, text: string -> Option<string>)

  // ---------------------------------------------------------------------------------------
  // URLs
  // ---------------------------------------------------------------------------------------

  /** GetPlatformBinariesStorageBaseUrl: the configured storage URL less every trailing '/'. */
  function GetPlatformBinariesStorageBaseUrl(setting: Option<string>): (r: Result<string, CatalogError>)
    ensures r.Err? <==> IsNullOrEmpty(setting)
    ensures r.Err? ==> r.error == BaseUrlMissing
    ensures r.Ok? ==> StartsWith(setting.value, r.value)
    ensures r.Ok? ==> r.value == [] || r.value[|r.value| - 1] != '/'
    ensures r.Ok? ==> forall i :: |r.value| <= i < |setting.value| ==> setting.value[i] == '/'
  {
    if IsNullOrEmpty(setting) then Err(BaseUrlMissing)
    else Ok(TrimEndChar(setting.value, '/'))
  }

  function ContainerMetadataUrl(baseUrl: string, platformName: string): string {
    baseUrl + "/" + platformName + ContainerMetadataQuery
  }

  function DefaultVersionUrl(baseUrl: string, platformName: string): string {
    baseUrl + "/" + platformName + "/" + DefaultVersionFileName
  }

  // ---------------------------------------------------------------------------------------
  // The versions named in the listing
  // ---------------------------------------------------------------------------------------

  /** The first child whose local name equals `name`, ignoring case (FirstOrDefault). */
  function FirstChildNamed(children: Metadata, name: string): (r: Option<XElement>)
    ensures r.None? <==> forall i :: 0 <= i < |children| ==> !EqualsIgnoreCase(name, children[i].localName)
    ensures r.Some? ==> exists i :: (0 <= i < |children| && children[i] == r.value
      && EqualsIgnoreCase(name, children[i].localName)
      && forall j :: 0 <= j < i ==> !EqualsIgnoreCase(name, children[j].localName))
  {
    if children == [] then None
    else if EqualsIgnoreCase(name, children[0].localName) then Some(children[0])
    else
      var r := FirstChildNamed(children[1..], name);
      assert forall j :: 1 <= j < |children| ==> children[j] == children[1..][j - 1];
      r
  }

  /** The versions the loop appends for `elements`: one per Metadata element that has a child
      named `elementName`, in document order. */
  function ExtractVersions(elements: seq<Metadata>, elementName: string): (r: seq<string>)
    ensures |r| <= |elements|
    decreases |elements|
  {
    if elements == [] then []
    else
      var init := ExtractVersions(elements[..|elements| - 1], elementName);
      match FirstChildNamed(elements[|elements| - 1], elementName)
      case None => init
      case Some(e) => init + [e.value]
  }

  // ---------------------------------------------------------------------------------------
  // The default version
  // ---------------------------------------------------------------------------------------

  /** The test meant to skip comment lines. No line starts with both "#" and "//", so it holds
      for every line (CommentTestAlwaysHolds). */
  predicate SelectedAsWritten(line: string) {
    !StartsWith(line, "#") || !StartsWith(line, "//")
  }

  /** The first line the loop accepts, None when there is no line at all. */
  function FirstSelectedLine(lines: seq<string>): Option<string> {
    if lines == [] then None
    else if SelectedAsWritten(lines[0]) then Some(lines[0])
    else FirstSelectedLine(lines[1..])
  }

  /** The default version held in `content`, or the error the loader raises for it. */
  function DefaultVersionOf(content: string): Result<string, CatalogError> {
    match FirstSelectedLine(Lines(content))
    case None => Err(DefaultVersionEmpty)
    case Some(line) => if Trim(line) == "" then Err(DefaultVersionEmpty) else Ok(Trim(line))
  }

  /** What GetDefaultVersion returns or throws for the file of `platformName`. */
  function DefaultVersionAt(platformName: string, baseUrl: string, storage: SdkStorage): Result<string, CatalogError> {
    var url := DefaultVersionUrl(baseUrl, platformName);
    match storage.text(url)
    case None => Err(FetchFailed(url))
    case Some(content) => DefaultVersionOf(content)
  }

  /** GetDefaultVersion: lines are read until one passes the comment test; that line, trimmed,
      is the default, and a missing or empty default raises. */
  method GetDefaultVersion(platformName: string, baseUrl: string, storage: SdkStorage) returns (r: Result<string, CatalogError>)
    ensures r == DefaultVersionAt(platformName, baseUrl, storage)
    ensures r.Ok? ==> r.value != "" && r.value == Trim(r.value)
  {
    var defaultVersionUrl := DefaultVersionUrl(baseUrl, platformName);
    var fetched := storage.text(defaultVersionUrl);
    if fetched.None? {
      return Err(FetchFailed(defaultVersionUrl));
    }
    var defaultVersionContent := fetched.value;
    var defaultVersion: Option<string> := None;
    var rest := defaultVersionContent;
    while rest != []
      invariant FirstSelectedLine(Lines(rest)) == FirstSelectedLine(Lines(defaultVersionContent))
      invariant defaultVersion.None?
      decreases |rest|
    {
      var (line, next) := ReadLine(rest);
      if SelectedAsWritten(line) {
        defaultVersion := Some(Trim(line));
        break;
      }
      rest := next;
    }
    if IsNullOrEmpty(defaultVersion) {
      return Err(DefaultVersionEmpty);
    }
    TrimIsIdempotent(defaultVersion.value);
    return Ok(defaultVersion.value);
  }

  // ---------------------------------------------------------------------------------------
  // The catalog
  // ---------------------------------------------------------------------------------------

  /** What GetAvailableVersionsFromStorage returns or throws. */
  function AvailableVersions(platformName: string, elementName: string, setting: Option<string>, storage: SdkStorage)
    : Result<PlatformVersionInfo, CatalogError>
  {
    match GetPlatformBinariesStorageBaseUrl(setting)
    case Err(e) => Err(e)
    case Ok(baseUrl) =>
      var url := ContainerMetadataUrl(baseUrl, platformName);
      match storage.listing(url)
      case None => Err(FetchFailed(url))
      case Some(elements) =>
        match DefaultVersionAt(platformName, baseUrl, storage)
        case Err(e) => Err(e)
        case Ok(defaultVersion) => Ok(PlatformVersionInfo(ExtractVersions(elements, elementName), defaultVersion))
  }

  /** GetAvailableVersionsFromStorage: the listing is fetched and each Metadata element contributes
      the value of its first child named `versionMetadataElementName`; then the default version
      is fetched. Neither fetch's failure is caught. The Python provider calls this with
      "python" and "Version". */
  method GetAvailableVersionsFromStorage(platformName: string, versionMetadataElementName: string,
                                          setting: Option<string>, storage: SdkStorage)
    returns (r: Result<PlatformVersionInfo, CatalogError>)
    ensures r == AvailableVersions(platformName, versionMetadataElementName, setting, storage)
  {
    var sdkStorageBaseUrl := GetPlatformBinariesStorageBaseUrl(setting);
    if sdkStorageBaseUrl.Err? {
      return Err(sdkStorageBaseUrl.error);
    }
    var url := ContainerMetadataUrl(sdkStorageBaseUrl.value, platformName);
    var blobList := storage.listing(url);
    if blobList.None? {
      return Err(FetchFailed(url));
    }
    var elements := blobList.value;
    var supportedVersions: seq<string> := [];
    for i := 0 to |elements|
      invariant supportedVersions == ExtractVersions(elements[..i], versionMetadataElementName)
    {
      assert elements[..i + 1][..i] == elements[..i];
      var versionElement := FirstChildNamed(elements[i], versionMetadataElementName);
      if versionElement.Some? {
        supportedVersions := supportedVersions + [versionElement.value.value];
      }
    }
    assert elements[..|elements|] == elements;
    var defaultVersion := GetDefaultVersion(platformName, sdkStorageBaseUrl.value, storage);
    if defaultVersion.Err? {
      return Err(defaultVersion.error);
    }
    return Ok(PlatformVersionInfo(supportedVersions, defaultVersion.value));
  }

  // ---------------------------------------------------------------------------------------
  // Properties
  // ---------------------------------------------------------------------------------------

  /** Trimming the trailing slashes of the base URL a second time changes nothing. */
  lemma BaseUrlTrimIsIdempotent(s: string)
    ensures TrimEndChar(TrimEndChar(s, '/'), '/') == TrimEndChar(s, '/')
  {
  }

  /** A setting made only of slashes is accepted and gives an empty base URL. */
  lemma SlashesOnlyGiveEmptyBaseUrl(setting: string)
    requires setting != []
    requires forall i :: 0 <= i < |setting| ==> setting[i] == '/'
    ensures GetPlatformBinariesStorageBaseUrl(Some(setting)) == Ok("")
  {
  }

  lemma TrimIsIdempotent(s: string)
    ensures Trim(Trim(s)) == Trim(s)
  {
    var t := Trim(s);
    if t != [] {
      assert t == TrimStartWhiteSpace(s)[..|t|];
      TrimOfTrimmed(t);
    }
  }

  /** No line starts with both "#" and "//": the comment test never skips a line. */
  lemma CommentTestAlwaysHolds(line: string)
    ensures SelectedAsWritten(line)
  {
    if StartsWith(line, "#") {
      assert line[..1] == "#";
      assert line[0] == '#';
    }
  }

  /** The default version is the trimmed first line, comment or not; no content, or a first line
      that trims to nothing, is an error (a blank first line is not skipped). */
  lemma DefaultVersionIsFirstLine(content: string)
    ensures DefaultVersionOf(content).Err? <==> content == [] || Trim(Lines(content)[0]) == ""
    ensures DefaultVersionOf(content).Err? ==> DefaultVersionOf(content).error == DefaultVersionEmpty
    ensures DefaultVersionOf(content).Ok? ==> DefaultVersionOf(content).value == Trim(Lines(content)[0])
  {
    if content != [] {
      CommentTestAlwaysHolds(Lines(content)[0]);
    }
  }

  /** A default written alone on the first line, without surrounding blanks, is read back. */
  lemma DefaultVersionRoundTrip(v: string, rest: string)
    requires v != [] && !IsWhiteSpace(v[0]) && !IsWhiteSpace(v[|v| - 1])
    requires forall i :: 0 <= i < |v| ==> !IsLineBreak(v[i])
    ensures DefaultVersionOf(v + "\n" + rest) == Ok(v)
  {
    FirstLineOf(v, rest);
    DefaultVersionIsFirstLine(v + "\n" + rest);
    TrimOfTrimmed(v);
  }

  /** A first line "# comment" is taken as the default version itself. */
  lemma CommentLineIsTheDefault(rest: string)
    ensures DefaultVersionOf("# comment\n" + rest) == Ok("# comment")
  {
    var v := "# comment";
    assert "# comment\n" + rest == v + "\n" + rest;
    DefaultVersionRoundTrip(v, rest);
  }

  /** Extraction distributes over concatenation of listings. */
  lemma {:induction false} ExtractVersionsAppend(a: seq<Metadata>, b: seq<Metadata>, elementName: string)
    ensures ExtractVersions(a + b, elementName) == ExtractVersions(a, elementName) + ExtractVersions(b, elementName)
    decreases |b|
  {
    if b == [] {
      assert a + b == a;
    } else {
      var b' := b[..|b| - 1];
      ExtractVersionsAppend(a, b', elementName);
      assert (a + b)[..|a + b| - 1] == a + b';
      assert (a + b)[|a + b| - 1] == b[|b| - 1];
    }
  }

  /** When every element carries the version child, the i-th version comes from the i-th
      element: nothing is dropped or reordered. */
  lemma {:induction false} ExtractVersionsInDocumentOrder(elements: seq<Metadata>, elementName: string)
    requires forall i :: 0 <= i < |elements| ==> FirstChildNamed(elements[i], elementName).Some?
    ensures |ExtractVersions(elements, elementName)| == |elements|
    ensures forall i :: 0 <= i < |elements| ==>
      ExtractVersions(elements, elementName)[i] == FirstChildNamed(elements[i], elementName).value.value
    decreases |elements|
  {
    if elements != [] {
      var init := elements[..|elements| - 1];
      ExtractVersionsInDocumentOrder(init, elementName);
    }
  }

  /** An element without the version child contributes nothing. */
  lemma ElementWithoutVersionContributesNothing(a: seq<Metadata>, e: Metadata, b: seq<Metadata>, elementName: string)
    requires FirstChildNamed(e, elementName).None?
    ensures ExtractVersions(a + [e] + b, elementName) == ExtractVersions(a + b, elementName)
  {
    ExtractVersionsAppend(a + [e], b, elementName);
    ExtractVersionsAppend(a, b, elementName);
    assert (a + [e])[..|a + [e]| - 1] == a;
  }
}
