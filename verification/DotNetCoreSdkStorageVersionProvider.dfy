/** DotNetCoreSdkStorageVersionProvider: the .NET runtime-to-SDK map and default runtime version
    read from the SDK storage account, loaded on first use and then cached. */
module DotNetCoreSdkStorageVersionProvider {
  import opened Wrappers
  import opened Text
  import opened Detector
  import opened SdkStorageVersionProviderBase

  const PlatformName := "dotnet"
  const RuntimeVersionElementName := "Runtime_version"
  const SdkVersionElementName := "Sdk_version"

  // ---------------------------------------------------------------------------------------
  // The case-insensitive dictionary
  // ---------------------------------------------------------------------------------------

  /** Dictionary<string, string> with StringComparer.OrdinalIgnoreCase: each entry sits under
      its case-folded key and holds the key as first inserted together with the value. */
  type VersionMap = map<string, (string, string)>

  /** The indexer's set: a key already present (ignoring case) keeps its spelling and takes the
      new value; a new key is added. */
  function Put(m: VersionMap, key: string, value: string): (r: VersionMap)
    ensures Fold(key) in r && r[Fold(key)].1 == value
    ensures r.Keys == m.Keys + {Fold(key)}
    ensures Fold(key) in m ==> r[Fold(key)].0 == m[Fold(key)].0
    ensures forall k :: k in m && k != Fold(key) ==> r[k] == m[k]
  {
    if Fold(key) in m then m[Fold(key) := (m[Fold(key)].0, value)]
    else m[Fold(key) := (key, value)]
  }

  /** The indexer's get (TryGetValue): None when no key equals `key` ignoring case. */
  function Lookup(m: VersionMap, key: string): Option<string> {
    if Fold(key) in m then Some(m[Fold(key)].1) else None
  }

  /** One pass of the loop on `m`: an element without a runtime version adds nothing; one with
      a runtime version and no SDK version throws NullReferenceException; otherwise the SDK
      version is set under the runtime version. */
  function AddElement(m: VersionMap, metadataElement: Metadata): (r: Result<VersionMap, CatalogError>)
    ensures r.Err? <==> LacksSdkVersion(metadataElement)
    ensures r.Err? ==> r.error == SdkVersionMissing
    ensures FirstChildNamed(metadataElement, RuntimeVersionElementName).None? ==> r == Ok(m)
    ensures r.Ok? && FirstChildNamed(metadataElement, RuntimeVersionElementName).Some? ==>
      Lookup(r.value, FirstChildNamed(metadataElement, RuntimeVersionElementName).value.value)
        == Some(FirstChildNamed(metadataElement, SdkVersionElementName).value.value)
  {
    match FirstChildNamed(metadataElement, RuntimeVersionElementName)
    case None => Ok(m)
    case Some(runtimeVersionElement) =>
      match FirstChildNamed(metadataElement, SdkVersionElementName)
      case None => Err(SdkVersionMissing)
      case Some(sdkVersionElement) => Ok(Put(m, runtimeVersionElement.value, sdkVersionElement.value))
  }

  /** The map the loop fills from the Metadata elements, or the NullReferenceException raised
      by an element with a runtime version and no SDK version: the whole load fails exactly
      when such an element exists, wherever it stands. */
  function VersionMapOf(elements: seq<Metadata>): (r: Result<VersionMap, CatalogError>)
    ensures r.Err? <==> SomeLacksSdkVersion(elements)
    ensures r.Err? ==> r.error == SdkVersionMissing
    decreases |elements|
  {
    if elements == [] then Ok(map[])
    else
      var init := elements[..|elements| - 1];
      assert forall i :: 0 <= i < |init| ==> init[i] == elements[i];
      match VersionMapOf(init)
      case Err(e) => Err(e)
      case Ok(m) => AddElement(m, elements[|elements| - 1])
  }

  /** The map of one element more: the loop's step. */
  lemma VersionMapOfPrefix(elements: seq<Metadata>, i: nat)
    requires i < |elements|
    requires VersionMapOf(elements[..i]).Ok?
    ensures VersionMapOf(elements[..i + 1]) == AddElement(VersionMapOf(elements[..i]).value, elements[i])
  {
    assert elements[..i + 1][..i] == elements[..i];
  }

  /** A prefix whose build fails makes the whole build fail the same way. */
  lemma FailedPrefixFailsAll(elements: seq<Metadata>, k: nat)
    requires k <= |elements|
    requires VersionMapOf(elements[..k]).Err?
    ensures VersionMapOf(elements) == VersionMapOf(elements[..k])
  {
    ParseFailureIsFinal(elements[..k], elements[k..]);
    assert elements[..k] + elements[k..] == elements;
  }

  /** The loop of GetVersionInfo over the Metadata elements: each element with a runtime version
      sets its SDK version in the map, and the first one without an SDK version throws. */
  method ReadVersionMap(elements: seq<Metadata>) returns (r: Result<VersionMap, CatalogError>)
    ensures r == VersionMapOf(elements)
  {
    var supportedVersions: VersionMap := map[];
    for i := 0 to |elements|
      invariant VersionMapOf(elements[..i]) == Ok(supportedVersions)
    {
      VersionMapOfPrefix(elements, i);
      var childElements := elements[i];
      var runtimeVersionElement := FirstChildNamed(childElements, RuntimeVersionElementName);
      if runtimeVersionElement.Some? {
        var sdkVersionElement := FirstChildNamed(childElements, SdkVersionElementName);
        if sdkVersionElement.None? {
          FailedPrefixFailsAll(elements, i + 1);
          return Err(SdkVersionMissing);
        }
        supportedVersions := Put(supportedVersions, runtimeVersionElement.value.value, sdkVersionElement.value.value);
      }
    }
    assert elements[..|elements|] == elements;
    return Ok(supportedVersions);
  }

  /** An element with a runtime version and no SDK version. */
  predicate LacksSdkVersion(e: Metadata) {
    FirstChildNamed(e, RuntimeVersionElementName).Some? && FirstChildNamed(e, SdkVersionElementName).None?
  }

  /** Some element, wherever it stands, has a runtime version and no SDK version. */
  predicate SomeLacksSdkVersion(elements: seq<Metadata>) {
    exists i :: 0 <= i < |elements| && LacksSdkVersion(elements[i])
  }

  // ---------------------------------------------------------------------------------------
  // The lazy load
  // ---------------------------------------------------------------------------------------

  /** The provider's two fields: `versionMap` None while _versionMap is null. */
  datatype CacheState = CacheState(versionMap: Option<VersionMap>, defaultRuntimeVersion: Option<string>)

  /** GetVersionInfo on state `s`: nothing happens once the map is cached. Otherwise the base
      URL, the listing and the map are obtained (a failure leaves `s` as it was); the map is
      published; then the default is fetched, and a failure there leaves the map published and
      the default as it was. */
  function EnsureLoaded(s: CacheState, setting: Option<string>, storage: SdkStorage): (res: (CacheState, Result<(), CatalogError>))
    ensures res.1.Ok? ==> res.0.versionMap.Some?
  {
    if s.versionMap.Some? then (s, Ok(()))
    else match GetPlatformBinariesStorageBaseUrl(setting)
      case Err(e) => (s, Err(e))
      case Ok(baseUrl) =>
        var url := ContainerMetadataUrl(baseUrl, PlatformName);
        match storage.listing(url)
        case None => (s, Err(FetchFailed(url)))
        case Some(elements) =>
          match VersionMapOf(elements)
          case Err(e) => (s, Err(e))
          case Ok(m) =>
            match DefaultVersionAt(PlatformName, baseUrl, storage)
            case Err(e) => (CacheState(Some(m), s.defaultRuntimeVersion), Err(e))
            case Ok(d) => (CacheState(Some(m), Some(d)), Ok(()))
  }

  class Provider {
    /** DetectorOptions.OryxSdkStorageBaseUrl. */
    const setting: Option<string>
    const storage: SdkStorage
    var versionMap: Option<VersionMap>
    var defaultRuntimeVersion: Option<string>

    function State(): CacheState
      reads this
    {
      CacheState(versionMap, defaultRuntimeVersion)
    }

    constructor(setting: Option<string>, storage: SdkStorage)
      ensures this.setting == setting && this.storage == storage
      ensures State() == CacheState(None, None)
    {
      this.setting := setting;
      this.storage := storage;
      versionMap := None;
      defaultRuntimeVersion := None;
    }

    /** GetVersionInfo: loads the map and the default the first time round. */
    method GetVersionInfo() returns (r: Result<(), CatalogError>)
      modifies this
      ensures (State(), r) == EnsureLoaded(old(State()), setting, storage)
    {
      if versionMap.Some? {
        return Ok(());
      }
      var sdkStorageBaseUrl := GetPlatformBinariesStorageBaseUrl(setting);
      if sdkStorageBaseUrl.Err? {
        return Err(sdkStorageBaseUrl.error);
      }
      var url := ContainerMetadataUrl(sdkStorageBaseUrl.value, PlatformName);
      var blobList := storage.listing(url);
      if blobList.None? {
        return Err(FetchFailed(url));
      }
      var supportedVersions := ReadVersionMap(blobList.value);
      if supportedVersions.Err? {
        assert EnsureLoaded(old(State()), setting, storage) == (old(State()), Err(supportedVersions.error));
        return Err(supportedVersions.error);
      }
      var loaded := EnsureLoaded(old(State()), setting, storage);
      versionMap := Some(supportedVersions.value);
      var defaultVersion := GetDefaultVersion(PlatformName, sdkStorageBaseUrl.value, storage);
      if defaultVersion.Err? {
        assert loaded == (CacheState(Some(supportedVersions.value), old(defaultRuntimeVersion)), Err(defaultVersion.error));
        return Err(defaultVersion.error);
      }
      assert loaded == (CacheState(Some(supportedVersions.value), Some(defaultVersion.value)), Ok(()));
      defaultRuntimeVersion := Some(defaultVersion.value);
      return Ok(());
    }

    /** GetDefaultRuntimeVersion: the cached default after ensuring a load (None when a failed
        default fetch left it null). */
    method GetDefaultRuntimeVersion() returns (r: Result<Option<string>, CatalogError>)
      modifies this
      ensures State() == EnsureLoaded(old(State()), setting, storage).0
      ensures EnsureLoaded(old(State()), setting, storage).1.Err? ==> r == Err(EnsureLoaded(old(State()), setting, storage).1.error)
      ensures EnsureLoaded(old(State()), setting, storage).1.Ok? ==> r == Ok(defaultRuntimeVersion)
    {
      var loaded := GetVersionInfo();
      if loaded.Err? {
        return Err(loaded.error);
      }
      return Ok(defaultRuntimeVersion);
    }

    /** GetSupportedVersions: the cached map after ensuring a load. */
    method GetSupportedVersions() returns (r: Result<VersionMap, CatalogError>)
      modifies this
      ensures State() == EnsureLoaded(old(State()), setting, storage).0
      ensures EnsureLoaded(old(State()), setting, storage).1.Err? ==> r == Err(EnsureLoaded(old(State()), setting, storage).1.error)
      ensures EnsureLoaded(old(State()), setting, storage).1.Ok? ==> versionMap.Some? && r == Ok(versionMap.value)
    {
      var loaded := GetVersionInfo();
      if loaded.Err? {
        return Err(loaded.error);
      }
      return Ok(versionMap.value);
    }
  }

  // ---------------------------------------------------------------------------------------
  // Properties
  // ---------------------------------------------------------------------------------------

  /** A failure while filling the map is not undone by later elements. */
  lemma {:induction false} ParseFailureIsFinal(a: seq<Metadata>, b: seq<Metadata>)
    requires VersionMapOf(a).Err?
    ensures VersionMapOf(a + b) == VersionMapOf(a)
    decreases |b|
  {
    if b == [] {
      assert a + b == a;
    } else {
      ParseFailureIsFinal(a, b[..|b| - 1]);
      assert (a + b)[..|a + b| - 1] == a + b[..|b| - 1];
    }
  }

  /** Looking up after a Put: the new value under any spelling of the key, the old answer
      for every other key. */
  lemma LookupPut(m: VersionMap, key: string, value: string, probe: string)
    ensures Lookup(Put(m, key, value), probe) == if EqualsIgnoreCase(key, probe) then Some(value) else Lookup(m, probe)
  {
  }

  /** A later element with the same runtime version, in any letter case, overwrites the SDK
      version of an earlier one. */
  lemma LaterDuplicateOverwrites(elements: seq<Metadata>, e: Metadata, probe: string)
    requires VersionMapOf(elements).Ok?
    requires FirstChildNamed(e, RuntimeVersionElementName).Some?
    requires FirstChildNamed(e, SdkVersionElementName).Some?
    requires EqualsIgnoreCase(FirstChildNamed(e, RuntimeVersionElementName).value.value, probe)
    ensures VersionMapOf(elements + [e]).Ok?
    ensures Lookup(VersionMapOf(elements + [e]).value, probe) == Some(FirstChildNamed(e, SdkVersionElementName).value.value)
  {
    assert (elements + [e])[..|elements + [e]| - 1] == elements;
    var m := VersionMapOf(elements).value;
    LookupPut(m, FirstChildNamed(e, RuntimeVersionElementName).value.value,
              FirstChildNamed(e, SdkVersionElementName).value.value, probe);
  }

  /** An element without a runtime version adds nothing to the map. */
  lemma NoRuntimeVersionAddsNothing(elements: seq<Metadata>, e: Metadata)
    requires FirstChildNamed(e, RuntimeVersionElementName).None?
    ensures VersionMapOf(elements + [e]) == VersionMapOf(elements)
  {
    assert (elements + [e])[..|elements + [e]| - 1] == elements;
  }

  /** Once a load has published the map, later calls load nothing and change nothing. */
  lemma NoReloadOnceMapCached(s: CacheState, setting: Option<string>, storage: SdkStorage)
    ensures var s1 := EnsureLoaded(s, setting, storage).0;
      s1.versionMap.Some? ==> EnsureLoaded(s1, setting, storage) == (s1, Ok(()))
  {
  }

  /** A failed default fetch on the first load is never retried: the map stays cached and the
      default stays null, so later calls succeed with no default. */
  lemma DefaultFailureIsNotRetried(setting: Option<string>, storage: SdkStorage)
    requires !IsNullOrEmpty(setting)
    requires
      var baseUrl := GetPlatformBinariesStorageBaseUrl(setting).value;
      && storage.listing(ContainerMetadataUrl(baseUrl, PlatformName)).Some?
      && VersionMapOf(storage.listing(ContainerMetadataUrl(baseUrl, PlatformName)).value).Ok?
      && DefaultVersionAt(PlatformName, baseUrl, storage).Err?
    ensures
      var first := EnsureLoaded(CacheState(None, None), setting, storage);
      && first.1.Err?
      && first.0.versionMap.Some? && first.0.defaultRuntimeVersion.None?
      && EnsureLoaded(first.0, setting, storage) == (first.0, Ok(()))
  {
  }
}
