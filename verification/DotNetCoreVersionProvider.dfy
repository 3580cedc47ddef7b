/** DotNetCoreVersionProvider: the .NET default runtime version and supported versions, taken
    from the SDK storage provider when dynamic install is enabled and from the on-disk provider
    otherwise, each memoised in a field of its own. */
module DotNetCoreVersionProvider {
  import opened Wrappers
  import opened Text
  import opened Detector
  import opened SdkStorageVersionProviderBase
  import Sdk = DotNetCoreSdkStorageVersionProvider

  /** What the on-disk provider answers (it is not part of this model): its default runtime
      version and its supported versions, None where it returns null. */
  datatype OnDiskVersions = OnDiskVersions(defaultRuntimeVersion: Option<string>, supportedVersions: Option<Sdk.VersionMap>)

  /** The two memo fields. */
  datatype Memo = Memo(defaultRuntimeVersion: Option<string>, supportedVersions: Option<Sdk.VersionMap>)

  /** The answer of the source chosen for the default, with the storage provider's new state. */
  function DefaultFromSource(enableDynamicInstall: bool, onDisk: OnDiskVersions, sdk: Sdk.CacheState,
                             setting: Option<string>, storage: SdkStorage)
    : (Sdk.CacheState, Result<Option<string>, CatalogError>)
  {
    if enableDynamicInstall then
      var (sdk', loaded) := Sdk.EnsureLoaded(sdk, setting, storage);
      (sdk', if loaded.Err? then Err(loaded.error) else Ok(sdk'.defaultRuntimeVersion))
    else (sdk, Ok(onDisk.defaultRuntimeVersion))
  }

  /** The answer of the source chosen for the supported versions. */
  function SupportedFromSource(enableDynamicInstall: bool, onDisk: OnDiskVersions, sdk: Sdk.CacheState,
                               setting: Option<string>, storage: SdkStorage)
    : (Sdk.CacheState, Result<Option<Sdk.VersionMap>, CatalogError>)
  {
    if enableDynamicInstall then
      var (sdk', loaded) := Sdk.EnsureLoaded(sdk, setting, storage);
      (sdk', if loaded.Err? then Err(loaded.error) else Ok(sdk'.versionMap))
    else (sdk, Ok(onDisk.supportedVersions))
  }

  /** GetDefaultRuntimeVersion on memo `m`: a null or empty memo is filled from the chosen source
      (and stays as it was when the source throws); a non-empty one is returned as is. */
  function DefaultRuntimeStep(m: Memo, enableDynamicInstall: bool, onDisk: OnDiskVersions, sdk: Sdk.CacheState,
                              setting: Option<string>, storage: SdkStorage)
    : (res: (Memo, Sdk.CacheState, Result<Option<string>, CatalogError>))
    ensures res.0.supportedVersions == m.supportedVersions
    ensures !IsNullOrEmpty(m.defaultRuntimeVersion) ==> res == (m, sdk, Ok(m.defaultRuntimeVersion))
    ensures !enableDynamicInstall ==> res.1 == sdk
    ensures !enableDynamicInstall && IsNullOrEmpty(m.defaultRuntimeVersion) ==> res.2 == Ok(onDisk.defaultRuntimeVersion)
    ensures res.2.Ok? ==> res.2.value == res.0.defaultRuntimeVersion
  {
    if IsNullOrEmpty(m.defaultRuntimeVersion) then
      var (sdk', fetched) := DefaultFromSource(enableDynamicInstall, onDisk, sdk, setting, storage);
      match fetched
      case Err(e) => (m, sdk', Err(e))
      case Ok(v) => (m.(defaultRuntimeVersion := v), sdk', Ok(v))
    else (m, sdk, Ok(m.defaultRuntimeVersion))
  }

  /** GetSupportedVersions on memo `m`: a null memo is filled from the chosen source; a non-null
      one is returned as is. */
  function SupportedStep(m: Memo, enableDynamicInstall: bool, onDisk: OnDiskVersions, sdk: Sdk.CacheState,
                         setting: Option<string>, storage: SdkStorage)
    : (res: (Memo, Sdk.CacheState, Result<Option<Sdk.VersionMap>, CatalogError>))
    ensures res.0.defaultRuntimeVersion == m.defaultRuntimeVersion
    ensures m.supportedVersions.Some? ==> res == (m, sdk, Ok(m.supportedVersions))
    ensures !enableDynamicInstall ==> res.1 == sdk
    ensures !enableDynamicInstall && m.supportedVersions.None? ==> res.2 == Ok(onDisk.supportedVersions)
    ensures res.2.Ok? ==> res.2.value == res.0.supportedVersions
  {
    if m.supportedVersions.None? then
      var (sdk', fetched) := SupportedFromSource(enableDynamicInstall, onDisk, sdk, setting, storage);
      match fetched
      case Err(e) => (m, sdk', Err(e))
      case Ok(v) => (m.(supportedVersions := v), sdk', Ok(v))
    else (m, sdk, Ok(m.supportedVersions))
  }

  class VersionProvider {
    /** DetectorOptions.EnableDynamicInstall, read-only, so both getters use the same source. */
    const enableDynamicInstall: bool
    const onDisk: OnDiskVersions
    const sdkStorageProvider: Sdk.Provider
    var defaultRuntimeVersion: Option<string>
    var supportedVersions: Option<Sdk.VersionMap>

    function MemoState(): Memo
      reads this
    {
      Memo(defaultRuntimeVersion, supportedVersions)
    }

    constructor(enableDynamicInstall: bool, onDisk: OnDiskVersions, sdkStorageProvider: Sdk.Provider)
      ensures this.enableDynamicInstall == enableDynamicInstall
      ensures this.onDisk == onDisk && this.sdkStorageProvider == sdkStorageProvider
      ensures MemoState() == Memo(None, None)
    {
      this.enableDynamicInstall := enableDynamicInstall;
      this.onDisk := onDisk;
      this.sdkStorageProvider := sdkStorageProvider;
      defaultRuntimeVersion := None;
      supportedVersions := None;
    }

    method GetDefaultRuntimeVersion() returns (r: Result<Option<string>, CatalogError>)
      modifies this, sdkStorageProvider
      ensures (MemoState(), sdkStorageProvider.State(), r)
        == DefaultRuntimeStep(old(MemoState()), enableDynamicInstall, onDisk, old(sdkStorageProvider.State()),
                              sdkStorageProvider.setting, sdkStorageProvider.storage)
    {
      if IsNullOrEmpty(defaultRuntimeVersion) {
        if enableDynamicInstall {
          var fetched := sdkStorageProvider.GetDefaultRuntimeVersion();
          if fetched.Err? {
            return Err(fetched.error);
          }
          defaultRuntimeVersion := fetched.value;
        } else {
          defaultRuntimeVersion := onDisk.defaultRuntimeVersion;
        }
      }
      return Ok(defaultRuntimeVersion);
    }

    method GetSupportedVersions() returns (r: Result<Option<Sdk.VersionMap>, CatalogError>)
      modifies this, sdkStorageProvider
      ensures (MemoState(), sdkStorageProvider.State(), r)
        == SupportedStep(old(MemoState()), enableDynamicInstall, onDisk, old(sdkStorageProvider.State()),
                         sdkStorageProvider.setting, sdkStorageProvider.storage)
    {
      if supportedVersions.None? {
        if enableDynamicInstall {
          var fetched := sdkStorageProvider.GetSupportedVersions();
          if fetched.Err? {
            return Err(fetched.error);
          }
          supportedVersions := Some(fetched.value);
        } else {
          supportedVersions := onDisk.supportedVersions;
        }
      }
      return Ok(supportedVersions);
    }
  }

  // ---------------------------------------------------------------------------------------
  // Properties
  // ---------------------------------------------------------------------------------------

  /** Once the supported versions are fetched, every later call returns them and changes nothing. */
  lemma SupportedVersionsFetchedOnce(m: Memo, enableDynamicInstall: bool, onDisk: OnDiskVersions, sdk: Sdk.CacheState,
                                     setting: Option<string>, storage: SdkStorage)
    ensures
      var (m1, sdk1, r1) := SupportedStep(m, enableDynamicInstall, onDisk, sdk, setting, storage);
      r1.Ok? && m1.supportedVersions.Some? ==>
        SupportedStep(m1, enableDynamicInstall, onDisk, sdk1, setting, storage) == (m1, sdk1, r1)
  {
  }

  /** An empty default is fetched again on the next call: with the on-disk source answering "",
      every call asks it again and answers "". */
  lemma EmptyDefaultIsRefetched(m: Memo, onDisk: OnDiskVersions, sdk: Sdk.CacheState,
                                setting: Option<string>, storage: SdkStorage)
    requires onDisk.defaultRuntimeVersion == Some("")
    ensures
      var (m1, sdk1, r1) := DefaultRuntimeStep(m, false, onDisk, sdk, setting, storage);
      IsNullOrEmpty(m.defaultRuntimeVersion) ==> r1 == Ok(Some("")) && IsNullOrEmpty(m1.defaultRuntimeVersion)
  {
  }

  /** With dynamic install the default is the storage provider's, once it has loaded. */
  lemma DynamicDefaultComesFromStorage(m: Memo, onDisk: OnDiskVersions, sdk: Sdk.CacheState,
                                       setting: Option<string>, storage: SdkStorage)
    requires IsNullOrEmpty(m.defaultRuntimeVersion)
    requires Sdk.EnsureLoaded(sdk, setting, storage).1.Ok?
    ensures
      var (m1, sdk1, r1) := DefaultRuntimeStep(m, true, onDisk, sdk, setting, storage);
      && sdk1 == Sdk.EnsureLoaded(sdk, setting, storage).0
      && r1 == Ok(sdk1.defaultRuntimeVersion)
      && m1.defaultRuntimeVersion == sdk1.defaultRuntimeVersion
  {
  }

  /** With dynamic install the supported versions are the storage provider's map, once it has
      loaded; the memo keeps that map. */
  lemma DynamicSupportedComesFromStorage(m: Memo, onDisk: OnDiskVersions, sdk: Sdk.CacheState,
                                         setting: Option<string>, storage: SdkStorage)
    requires m.supportedVersions.None?
    requires Sdk.EnsureLoaded(sdk, setting, storage).1.Ok?
    ensures
      var (m1, sdk1, r1) := SupportedStep(m, true, onDisk, sdk, setting, storage);
      && sdk1 == Sdk.EnsureLoaded(sdk, setting, storage).0
      && sdk1.versionMap.Some?
      && r1 == Ok(sdk1.versionMap)
      && m1.supportedVersions == sdk1.versionMap
  {
  }
}
