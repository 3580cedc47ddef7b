# Oryx platform detection and version catalogs, in Dafny

This project models the detector library of Oryx, the build system that inspects a source
repository and decides which platform the application uses and which version of it to build with.
It covers two kinds of component.

- **Platform detectors.** These decide from which files exist, and what they contain, whether a
  repository is a Node.js, Python or PHP app. They then pick the version to request:
  1. a version an earlier pass already resolved;
  2. else a field of the platform's manifest;
  3. else the catalog default.

  The requested version is resolved against the supported versions, and an unsupported one
  raises `UnsupportedVersionException`.
  - Node.js has two detectors: `NodePlatformDetector` and the older `NodeLanguageDetector`. The
    older one also recognises Hugo static sites.
  - Python has `PythonPlatformDetector`, which reads `runtime.txt`.
  - PHP has `PhpPlatformDetector`.
- **Catalog builders.** These produce the supported versions and the default version.
  - `VersionProviderHelper` reads the names of an install directory's subdirectories.
  - `SdkStorageVersionProviderBase` reads the blob listing of the SDK storage account and its
    `defaultVersion.txt`.
  - `DotNetCoreSdkStorageVersionProvider` builds a lazily cached runtime-to-SDK map for .NET.
  - `DotNetCoreVersionProvider` memoises a choice between the on-disk and the storage source.
  - `PythonScriptGeneratorOptionsSetup` reads the Python defaults from the environment.

## How the model is laid out

- One module per source file, each in a file of the same name:
  - NodePlatformDetector, NodeLanguageDetector, PythonPlatformDetector, PhpPlatformDetector;
  - VersionProviderHelper, SdkStorageVersionProviderBase;
  - DotNetCoreSdkStorageVersionProvider, DotNetCoreVersionProvider;
  - PythonScriptGeneratorOptionsSetup.
- Four shared modules:
  - `Wrappers` holds `Option` and `Result`.
  - `Text` holds the .NET string operations: character-by-character prefix and suffix tests,
    case-insensitive comparison, `Trim`, `TrimStart(c)`, `TrimEnd(c)` and
    `StringReader.ReadLine`. The prefix test stands for the ordinal `StartsWith` and also for the
    culture-sensitive one the Hugo test calls; see "Left out".
  - `Repository` holds the repository, given as its files in enumeration order, its directories
    and the text of every readable file, plus the `RepositoryContext`.
  - `Detector` holds what the detectors share: `PlatformVersionInfo`, the `Catalog` (the answer
    of `GetVersionInfo`, or the failure of the catalog load), the result and error types,
    `GetDefaultVersionFromProvider` and `GetMaxSatisfyingVersionAndVerify`. Both methods are
    written out identically in the three
    platform detectors.
- Exceptions are values:
  - A detector answers `NotDetected` (null), `Detected(result)` or `Failed(error)`.
  - A catalog builder answers a `Result`.
- The pure parts of the code are functions. The parts that loop or update fields are methods,
  proved against those functions:
  - the detection loops;
  - the Hugo config-file scan;
  - the directory-name loop;
  - the metadata loop and the default-version line loop;
  - the two lazy caches, which are classes with `modifies` clauses;
  - `Configure`, which writes the fields of an options object.
- Outside inputs enter as parameters:
  - `SemanticVersionResolver.GetMaxSatisfyingVersion` is a `Resolver`, a function from a range and
    the supported list to a version, where "" means no supported version satisfies the range.
  - `SemVer.Version` is a `SemVerLibrary`: a partial parser, a comparison and `ToString`.
  - JSON field reads (`engines.node`, `require.php`) are functions from the file text to a
    `ManifestField`: the field as an optional string, or `NoMembers` when a value on the path is
    a JSON null, string, number or array. The member accesses lie outside the code's try blocks,
    so `NoMembers` makes the detector fail with `ManifestShapeInvalid`.
  - The storage account is an `SdkStorage`: the parsed Metadata elements of a listing URL and the
    text at a URL, either of which may fail.
  - The environment is a map.
- Where the code departs from its comments or evident intent, the model follows the code:
  - The comment test of the default-version loop
    (`!line.StartsWith("#") || !line.StartsWith("//")`) holds for every line. So the first line
    is always taken, comment or not, and a blank first line is an error rather than skipped.
    See `CommentTestAlwaysHolds` and `DefaultVersionIsFirstLine`.
  - `NodeLanguageDetector` searches every `*.toml` file of the whole repository once a `config`
    directory exists, not only the files under `config/`.
  - Reads in `IsHugoSite` are not guarded, so an unreadable config file makes the detector fail.

## Model

| member | source | states |
|---|---|---|
| `Repository.FilterFiles` | src/BuildScriptGenerator/Node/NodeLanguageDetector.cs:187 | a file is enumerated exactly when it has the extension and, for a non-recursive search, lies at the root |
| `Detector.GetMaxSatisfyingVersionAndVerify` | src/Detector/DetectorLibrary/Node/NodePlatformDetector.cs:116-136 | a failed catalog load fails first; otherwise the answer is the resolver's version exactly when that is not empty, and else UnsupportedVersionException carrying the platform, the requested version and the supported list |
| `NodePlatformDetector.GetVersionFromPackageJson` | src/Detector/DetectorLibrary/Node/NodePlatformDetector.cs:154-181 | a missing or unreadable package.json gives null; otherwise the reader's engines.node, or a failure when the manifest has the wrong shape |
| `NodePlatformDetector.GetVersion` | src/Detector/DetectorLibrary/Node/NodePlatformDetector.cs:138-164 | the context's resolved version wins, then engines.node of package.json, then the catalog default; a wrongly shaped package.json fails, and so does a failed catalog load when the default is needed |
| `NodePlatformDetector.Detect` | src/Detector/DetectorLibrary/Node/NodePlatformDetector.cs:45-114 | null exactly when there is no manifest or lock file and either no typical file or some IIS start page; a manifest or lock file always matches; the answer to null is independent of the catalog; a match carries the verified version of GetVersion, or GetVersion's failure, or the failure of the catalog load |
| `NodePlatformDetector.AppJsAloneMatches` | src/Detector/DetectorLibrary/Node/NodePlatformDetector.cs:63-98 | a repository holding only app.js is a Node.js app |
| `NodePlatformDetector.IisStartPageVetoesAppJs` | src/Detector/DetectorLibrary/Node/NodePlatformDetector.cs:80-89 | app.js beside iisstart.htm is not a Node.js app |
| `NodePlatformDetector.ManifestOverridesIisStartPage` | src/Detector/DetectorLibrary/Node/NodePlatformDetector.cs:50-63 | package.json beside index.html still matches: the veto is never consulted |
| `NodePlatformDetector.IndexPhpAloneDoesNotMatch` | src/Detector/DetectorLibrary/Node/NodePlatformDetector.cs:100-104 | without a manifest, lock file or typical file there is no match |
| `NodePlatformDetector.MalformedPackageJsonUsesDefault` | src/Detector/DetectorLibrary/Node/NodePlatformDetector.cs:165-181 | a package.json that does not deserialise behaves as one without engines.node: the catalog default (or the catalog's failure) is requested |
| `NodePlatformDetector.WrongShapedPackageJsonThrows` | src/Detector/DetectorLibrary/Node/NodePlatformDetector.cs:154-158 | a package.json whose engines has no members makes GetVersion fail unless a version was resolved earlier |
| `NodeLanguageDetector.IsHugoSite` | src/BuildScriptGenerator/Node/NodeLanguageDetector.cs:163-202 | the scan answers HugoSite: root config.toml before config/config.toml, then, when config/ exists, each *.toml file of the repository in order; a true answer names a file with a Hugo line; a failed read fails |
| `NodeLanguageDetector.KeyLineIsHugoLine` | src/BuildScriptGenerator/Node/NodeLanguageDetector.cs:179 | the key test is a prefix test: any line starting with a Hugo key counts, so themesDir counts as theme |
| `NodeLanguageDetector.LeadingSpaceIsIgnored` | src/BuildScriptGenerator/Node/NodeLanguageDetector.cs:179 | a leading space changes nothing: an indented line is a Hugo line exactly when the unindented one is |
| `NodeLanguageDetector.TabIndentedKeyDoesNotCount` | src/BuildScriptGenerator/Node/NodeLanguageDetector.cs:179 | only spaces are stripped: a tab-indented key is not a Hugo line |
| `NodeLanguageDetector.ScanFindsAnyHugoFile` | src/BuildScriptGenerator/Node/NodeLanguageDetector.cs:185-199 | with every file readable, the scan answers whether some file of the list has a Hugo line |
| `NodeLanguageDetector.DetectNodeVersion` | src/BuildScriptGenerator/Node/NodeLanguageDetector.cs:129-156 | no version exactly when the range (engines.node, else NodeJsDefaultVersion) is null or blank; otherwise the resolver's version, or UnsupportedVersionException when that is blank |
| `NodeLanguageDetector.Detect` | src/BuildScriptGenerator/Node/NodeLanguageDetector.cs:51-127 | manifest or lock file, then the Hugo test, then the typical-file rule with its veto; null exactly when all of them fail; a Hugo read failure fails; a wrongly shaped package.json fails; otherwise a match carries DetectNodeVersion's answer |
| `NodeLanguageDetector.HugoSiteIgnoresIisVeto` | src/BuildScriptGenerator/Node/NodeLanguageDetector.cs:56-102 | a Hugo site matches even beside an IIS start page |
| `NodeLanguageDetector.EmptyEnginesNodeResolvesNothing` | src/BuildScriptGenerator/Node/NodeLanguageDetector.cs:131-138 | an engines.node of "" is not replaced by the default, and nothing is resolved |
| `PythonPlatformDetector.DetectPythonVersionFromRuntimeFile` | src/Detector/DetectorLibrary/Python/PythonPlatformDetector.cs:120-162 | a version exactly when runtime.txt is readable and starts with "python-" ignoring case; it is the content less those seven characters |
| `PythonPlatformDetector.GetVersion` | src/Detector/DetectorLibrary/Python/PythonPlatformDetector.cs:99-118 | the context's resolved version wins, then the runtime.txt version (tested only for null), then the catalog default, or the catalog's failure |
| `PythonPlatformDetector.Detect` | src/Detector/DetectorLibrary/Python/PythonPlatformDetector.cs:29-75 | null exactly when requirements.txt and setup.py are both missing, or the runtime version is null or empty and no *.py file lies at the root; a match carries the verified version of GetVersion and the platform name, or the failure of GetVersion or of the catalog load |
| `PythonPlatformDetector.CatalogFailureOnlyAfterMatch` | src/Detector/DetectorLibrary/Python/PythonPlatformDetector.cs:29-79 | a failed catalog load makes Detect fail exactly when the repository is a Python app, and leaves it null otherwise |
| `PythonPlatformDetector.PrefixInAnyCaseIsRemoved` | src/Detector/DetectorLibrary/Python/PythonPlatformDetector.cs:132-142 | any letter case of the prefix is accepted, and exactly its characters are removed |
| `PythonPlatformDetector.UpperCasePrefixIsAccepted` | src/Detector/DetectorLibrary/Python/PythonPlatformDetector.cs:132 | "PYTHON-" followed by v gives v |
| `PythonPlatformDetector.VersionIsNotTrimmed` | src/Detector/DetectorLibrary/Python/PythonPlatformDetector.cs:142 | the version keeps a trailing newline of runtime.txt |
| `PythonPlatformDetector.EmptyRuntimeVersion` | src/Detector/DetectorLibrary/Python/PythonPlatformDetector.cs:53-109 | runtime.txt of exactly "python-" gives "", which still needs a root *.py file yet is requested instead of the default |
| `PythonPlatformDetector.RuntimeFileAloneOpensTheRule` | src/Detector/DetectorLibrary/Python/PythonPlatformDetector.cs:51-74 | with requirements.txt or setup.py, a non-empty runtime.txt version matches without any *.py file and is the version requested |
| `PythonPlatformDetector.PythonFilesAloneDoNotMatch` | src/Detector/DetectorLibrary/Python/PythonPlatformDetector.cs:32-38 | without requirements.txt and setup.py there is no match |
| `PhpPlatformDetector.GetVersionFromComposerFile` | src/Detector/DetectorLibrary/Php/PhpPlatformDetector.cs:84-102 | require.php of a readable composer.json; a missing or unreadable file gives null; a wrongly shaped file fails |
| `PhpPlatformDetector.GetVersion` | src/Detector/DetectorLibrary/Php/PhpPlatformDetector.cs:68-82 | the context's resolved version wins, then require.php, then the catalog default; a wrongly shaped composer.json fails, and so does a failed catalog load when the default is needed |
| `PhpPlatformDetector.Detect` | src/Detector/DetectorLibrary/Php/PhpPlatformDetector.cs:27-44 | null exactly when composer.json is missing, whatever the catalog; a match has platform php and the resolver's non-empty version; otherwise UnsupportedVersionException with the requested version and the supported list, or the failure of GetVersion or of the catalog load |
| `PhpPlatformDetector.MalformedComposerFileUsesDefault` | src/Detector/DetectorLibrary/Php/PhpPlatformDetector.cs:84-102 | a composer.json that does not deserialise still matches and requests the catalog default |
| `PhpPlatformDetector.CatalogFailureOnlyAfterMatch` | src/Detector/DetectorLibrary/Php/PhpPlatformDetector.cs:27-49 | a failed catalog load leaves a repository without composer.json undetected, and otherwise makes Detect fail, unless a wrongly shaped composer.json fails first |
| `PhpPlatformDetector.WrongShapedComposerFileThrows` | src/Detector/DetectorLibrary/Php/PhpPlatformDetector.cs:84-102 | a composer.json whose require has no members makes Detect fail, unless a version was resolved earlier |
| `VersionProviderHelper.Parsed` | src/Detector/DetectorLibrary/VersionProviderHelper.cs:41-53 | no more versions than names, each parsed from one of the names |
| `VersionProviderHelper.Insert` | src/Detector/DetectorLibrary/VersionProviderHelper.cs:55 | one more element: the inserted one |
| `VersionProviderHelper.SortVersions` | src/Detector/DetectorLibrary/VersionProviderHelper.cs:55 | the sort is a permutation of its input |
| `VersionProviderHelper.Shown` | src/Detector/DetectorLibrary/VersionProviderHelper.cs:56 | the i-th string is the i-th version's string form |
| `VersionProviderHelper.GetVersionsFromDirectory` | src/Detector/DetectorLibrary/VersionProviderHelper.cs:22-57 | no versions when listing throws; otherwise the parsed names sorted and shown, no more than there are subdirectories, each the string form of a parsed name |
| `VersionProviderHelper.GetSupportedVersions` | src/Detector/DetectorLibrary/VersionProviderHelper.cs:15-20 | explicit options are returned unchanged, even when empty; only without them is the directory read |
| `VersionProviderHelper.InsertKeepsSorted` | src/Detector/DetectorLibrary/VersionProviderHelper.cs:55 | under a total preorder, inserting into a sorted list keeps it sorted |
| `VersionProviderHelper.SortVersionsIsSorted` | src/Detector/DetectorLibrary/VersionProviderHelper.cs:55 | the output is in ascending version order |
| `VersionProviderHelper.ParsedAppend` | src/Detector/DetectorLibrary/VersionProviderHelper.cs:42-53 | parsing a listing in two parts gives the two parts' versions in order |
| `VersionProviderHelper.SkippedNameVanishes` | src/Detector/DetectorLibrary/VersionProviderHelper.cs:49-52 | a name that does not parse (latest, lts) leaves no trace |
| `VersionProviderHelper.ParsedPermutation` | src/Detector/DetectorLibrary/VersionProviderHelper.cs:42-53 | listings with the same names give the same versions up to order |
| `VersionProviderHelper.SortedUnique` | src/Detector/DetectorLibrary/VersionProviderHelper.cs:55 | under an antisymmetric total order a sorted arrangement of given elements is unique |
| `VersionProviderHelper.ListingOrderIsIrrelevant` | src/Detector/DetectorLibrary/VersionProviderHelper.cs:41-56 | the returned list does not depend on the order in which the directory lists its subdirectories |
| `SdkStorageVersionProviderBase.GetPlatformBinariesStorageBaseUrl` | src/Detector/DetectorLibrary/SdkStorageVersionProviderBase.cs:106-120 | InvalidOperationException exactly when the setting is null or empty; otherwise a prefix of the setting not ending with '/', only slashes removed |
| `SdkStorageVersionProviderBase.FirstChildNamed` | src/Detector/DetectorLibrary/SdkStorageVersionProviderBase.cs:50-55 | none exactly when no child has the name ignoring case; otherwise the first child that has it |
| `SdkStorageVersionProviderBase.ExtractVersions` | src/Detector/DetectorLibrary/SdkStorageVersionProviderBase.cs:46-60 | at most one version per Metadata element |
| `SdkStorageVersionProviderBase.GetDefaultVersion` | src/Detector/DetectorLibrary/SdkStorageVersionProviderBase.cs:66-104 | the line loop answers DefaultVersionAt on base/platform/defaultVersion.txt: a failed fetch fails; a result is non-empty and trimmed |
| `SdkStorageVersionProviderBase.GetAvailableVersionsFromStorage` | src/Detector/DetectorLibrary/SdkStorageVersionProviderBase.cs:35-64 | the metadata loop and the default fetch answer AvailableVersions: extracted versions paired with the default; no failure is caught |
| `SdkStorageVersionProviderBase.BaseUrlTrimIsIdempotent` | src/Detector/DetectorLibrary/SdkStorageVersionProviderBase.cs:118 | trimming trailing slashes twice is trimming once |
| `SdkStorageVersionProviderBase.SlashesOnlyGiveEmptyBaseUrl` | src/Detector/DetectorLibrary/SdkStorageVersionProviderBase.cs:112-119 | a setting of slashes only passes the check and gives an empty base URL |
| `SdkStorageVersionProviderBase.TrimIsIdempotent` | src/Detector/DetectorLibrary/SdkStorageVersionProviderBase.cs:87 | the default version is already trimmed |
| `SdkStorageVersionProviderBase.CommentTestAlwaysHolds` | src/Detector/DetectorLibrary/SdkStorageVersionProviderBase.cs:85 | the comment test accepts every line |
| `SdkStorageVersionProviderBase.DefaultVersionIsFirstLine` | src/Detector/DetectorLibrary/SdkStorageVersionProviderBase.cs:78-101 | the default is the trimmed first line; "Default version cannot be empty." exactly when there is no line or the first trims to nothing |
| `SdkStorageVersionProviderBase.DefaultVersionRoundTrip` | src/Detector/DetectorLibrary/SdkStorageVersionProviderBase.cs:78-103 | a version written alone on the first line is read back |
| `SdkStorageVersionProviderBase.CommentLineIsTheDefault` | src/Detector/DetectorLibrary/SdkStorageVersionProviderBase.cs:84-88 | a first line "# comment" is taken as the default |
| `SdkStorageVersionProviderBase.ExtractVersionsAppend` | src/Detector/DetectorLibrary/SdkStorageVersionProviderBase.cs:48-60 | extraction over two parts of a listing gives the two parts' versions in order |
| `SdkStorageVersionProviderBase.ExtractVersionsInDocumentOrder` | src/Detector/DetectorLibrary/SdkStorageVersionProviderBase.cs:48-60 | when every element has the child, the i-th version is the i-th element's child value |
| `SdkStorageVersionProviderBase.ElementWithoutVersionContributesNothing` | src/Detector/DetectorLibrary/SdkStorageVersionProviderBase.cs:56-59 | an element without the child contributes nothing |
| `DotNetCoreSdkStorageVersionProvider.Put` | src/Detector/DetectorLibrary/DotNetCore/VersionProviders/DotNetCoreSdkStorageVersionProvider.cs:76 | the key maps to the new value; an existing key keeps its first spelling; other entries stay |
| `DotNetCoreSdkStorageVersionProvider.AddElement` | src/Detector/DetectorLibrary/DotNetCore/VersionProviders/DotNetCoreSdkStorageVersionProvider.cs:60-76 | one element fails exactly when it has a runtime version and no SDK version, with NullReferenceException; without a runtime version it adds nothing; otherwise its runtime version then looks up its SDK version |
| `DotNetCoreSdkStorageVersionProvider.VersionMapOf` | src/Detector/DetectorLibrary/DotNetCore/VersionProviders/DotNetCoreSdkStorageVersionProvider.cs:57-78 | the build fails exactly when some element has a runtime version and no SDK version, wherever it stands, and that is its only failure |
| `DotNetCoreSdkStorageVersionProvider.ReadVersionMap` | src/Detector/DetectorLibrary/DotNetCore/VersionProviders/DotNetCoreSdkStorageVersionProvider.cs:56-77 | the loop over the Metadata elements answers VersionMapOf of the whole listing, stopping at the first element without an SDK version |
| `DotNetCoreSdkStorageVersionProvider.EnsureLoaded` | src/Detector/DetectorLibrary/DotNetCore/VersionProviders/DotNetCoreSdkStorageVersionProvider.cs:44-83 | a successful load leaves the map cached |
| `DotNetCoreSdkStorageVersionProvider.Provider.GetVersionInfo` | src/Detector/DetectorLibrary/DotNetCore/VersionProviders/DotNetCoreSdkStorageVersionProvider.cs:44-83 | the fields and the answer are EnsureLoaded of the fields before |
| `DotNetCoreSdkStorageVersionProvider.Provider.GetDefaultRuntimeVersion` | src/Detector/DetectorLibrary/DotNetCore/VersionProviders/DotNetCoreSdkStorageVersionProvider.cs:32-36 | after ensuring a load, the cached default, or the load's failure |
| `DotNetCoreSdkStorageVersionProvider.Provider.GetSupportedVersions` | src/Detector/DetectorLibrary/DotNetCore/VersionProviders/DotNetCoreSdkStorageVersionProvider.cs:38-42 | after ensuring a load, the cached map, or the load's failure |
| `DotNetCoreSdkStorageVersionProvider.ParseFailureIsFinal` | src/Detector/DetectorLibrary/DotNetCore/VersionProviders/DotNetCoreSdkStorageVersionProvider.cs:70-76 | once the map build fails, later elements do not matter |
| `DotNetCoreSdkStorageVersionProvider.LookupPut` | src/Detector/DetectorLibrary/DotNetCore/VersionProviders/DotNetCoreSdkStorageVersionProvider.cs:57 | after a set, every spelling of the key finds the new value and other keys their old one |
| `DotNetCoreSdkStorageVersionProvider.LaterDuplicateOverwrites` | src/Detector/DetectorLibrary/DotNetCore/VersionProviders/DotNetCoreSdkStorageVersionProvider.cs:76 | a later element with the same runtime version in any case overwrites the SDK version |
| `DotNetCoreSdkStorageVersionProvider.NoRuntimeVersionAddsNothing` | src/Detector/DetectorLibrary/DotNetCore/VersionProviders/DotNetCoreSdkStorageVersionProvider.cs:68 | an element without a runtime version adds nothing |
| `DotNetCoreSdkStorageVersionProvider.NoReloadOnceMapCached` | src/Detector/DetectorLibrary/DotNetCore/VersionProviders/DotNetCoreSdkStorageVersionProvider.cs:46 | once the map is cached, later loads change nothing and succeed |
| `DotNetCoreSdkStorageVersionProvider.DefaultFailureIsNotRetried` | src/Detector/DetectorLibrary/DotNetCore/VersionProviders/DotNetCoreSdkStorageVersionProvider.cs:80-81 | a failed default fetch leaves the map cached and the default null, and is never retried |
| `DotNetCoreVersionProvider.DefaultRuntimeStep` | src/Detector/DetectorLibrary/DotNetCore/VersionProviders/DotNetCoreVersionProvider.cs:33-44 | a non-empty memo is returned untouched; without dynamic install an empty memo takes the on-disk default and the storage provider is untouched; the supported-versions memo never changes |
| `DotNetCoreVersionProvider.SupportedStep` | src/Detector/DetectorLibrary/DotNetCore/VersionProviders/DotNetCoreVersionProvider.cs:47-58 | a non-null memo is returned untouched; without dynamic install a null memo takes the on-disk versions and the storage provider is untouched; the default memo never changes |
| `DotNetCoreVersionProvider.VersionProvider.GetDefaultRuntimeVersion` | src/Detector/DetectorLibrary/DotNetCore/VersionProviders/DotNetCoreVersionProvider.cs:33-45 | memo, storage provider and answer follow DefaultRuntimeStep |
| `DotNetCoreVersionProvider.VersionProvider.GetSupportedVersions` | src/Detector/DetectorLibrary/DotNetCore/VersionProviders/DotNetCoreVersionProvider.cs:47-59 | memo, storage provider and answer follow SupportedStep |
| `DotNetCoreVersionProvider.SupportedVersionsFetchedOnce` | src/Detector/DetectorLibrary/DotNetCore/VersionProviders/DotNetCoreVersionProvider.cs:49-54 | once fetched, the supported versions are returned unchanged on every call |
| `DotNetCoreVersionProvider.EmptyDefaultIsRefetched` | src/Detector/DetectorLibrary/DotNetCore/VersionProviders/DotNetCoreVersionProvider.cs:35-40 | an empty default is asked for again on the next call |
| `DotNetCoreVersionProvider.DynamicDefaultComesFromStorage` | src/Detector/DetectorLibrary/DotNetCore/VersionProviders/DotNetCoreVersionProvider.cs:37-39 | with dynamic install the default is the storage provider's after its load |
| `DotNetCoreVersionProvider.DynamicSupportedComesFromStorage` | src/Detector/DetectorLibrary/DotNetCore/VersionProviders/DotNetCoreVersionProvider.cs:51-53 | with dynamic install the supported versions are the storage provider's map after its load |
| `PythonScriptGeneratorOptionsSetup.Without` | src/BuildScriptGenerator/Python/PythonScriptGeneratorOptionsSetup.cs:41 | the removed character no longer occurs |
| `PythonScriptGeneratorOptionsSetup.Fields` | src/BuildScriptGenerator/Python/PythonScriptGeneratorOptionsSetup.cs:42 | at least one field, none holding a comma |
| `PythonScriptGeneratorOptionsSetup.NonEmpty` | src/BuildScriptGenerator/Python/PythonScriptGeneratorOptionsSetup.cs:42 | only non-empty fields of the input remain |
| `PythonScriptGeneratorOptionsSetup.SplitRemoveEmpty` | src/BuildScriptGenerator/Python/PythonScriptGeneratorOptionsSetup.cs:42 | no entry is empty or holds a comma |
| `PythonScriptGeneratorOptionsSetup.SupportedVersionsOf` | src/BuildScriptGenerator/Python/PythonScriptGeneratorOptionsSetup.cs:41-42 | no entry is empty or holds a comma or a space |
| `PythonScriptGeneratorOptionsSetup.DefaultVersionFrom` | src/BuildScriptGenerator/Python/PythonScriptGeneratorOptionsSetup.cs:29-35 | ORYX_PYTHON_DEFAULT_VERSION when set and not empty, else 3.7.1; never empty |
| `PythonScriptGeneratorOptionsSetup.Configure` | src/BuildScriptGenerator/Python/PythonScriptGeneratorOptionsSetup.cs:27-44 | sets the default version and /opt/python/; a null or blank PYTHON_SUPPORTED_VERSIONS leaves the list unchanged, otherwise it becomes SupportedVersionsOf the value |
| `PythonScriptGeneratorOptionsSetup.FieldsJoinBack` | src/BuildScriptGenerator/Python/PythonScriptGeneratorOptionsSetup.cs:42 | joining the fields with commas gives back the input |
| `PythonScriptGeneratorOptionsSetup.FieldsConcat` | src/BuildScriptGenerator/Python/PythonScriptGeneratorOptionsSetup.cs:42 | the fields, concatenated, are the input without commas |
| `PythonScriptGeneratorOptionsSetup.NonEmptyKeepsConcat` | src/BuildScriptGenerator/Python/PythonScriptGeneratorOptionsSetup.cs:42 | dropping empty fields does not change their concatenation |
| `PythonScriptGeneratorOptionsSetup.SupportedVersionsKeepInputOrder` | src/BuildScriptGenerator/Python/PythonScriptGeneratorOptionsSetup.cs:41-42 | the entries, in order, make up the setting without spaces and commas |
| `PythonScriptGeneratorOptionsSetup.SupportedVersionsRoundTrip` | src/BuildScriptGenerator/Python/PythonScriptGeneratorOptionsSetup.cs:38-42 | a comma-joined list of non-empty versions without spaces or commas is read back as that list |
| `PythonScriptGeneratorOptionsSetup.CommasOnlyGiveEmptyList` | src/BuildScriptGenerator/Python/PythonScriptGeneratorOptionsSetup.cs:39-42 | any setting made only of spaces and commas gives an empty list, and one that holds a comma is not blank, so it replaces the list |

## Left out

- HTTP, XML, JSON and the file system are not modelled. The model takes their results as
  inputs: the parsed Metadata elements, the fetched text, the deserialised field, and the
  repository's files and contents. Which exception type a failed fetch raises is not
  distinguished: every failure is `FetchFailed(url)`.
- `SemanticVersionResolver` and `SemVer.Version` are not part of this model. They are parameters,
  and no range syntax or version order is implemented.
- The sort assumes a total preorder. Order independence (`ListingOrderIsIrrelevant`) also assumes
  that only equal versions compare both ways.
- `List.Sort` is an unstable in-place sort. The model sorts a value with an insertion sort. Where
  the comparison ties distinct versions, the model fixes an order that the real sort does not
  promise.
- Logging and the `.Hash()` calls have no effect on results and are left out.
- The caches assume a single thread: concurrent first loads are not modelled.
- `GetSupportedVersions` hands out the cached dictionary itself. The model returns a value, so a
  caller that mutates the returned dictionary, and thereby the cache, is not captured.
- The case-insensitive comparisons (`OrdinalIgnoreCase`) fold only ASCII letters.
- NodeLanguageDetector.IsHugoLine, NodeLanguageDetector.IsHugoSite: model the
  culture-sensitive one-argument `StartsWith` of the Hugo key test as an ordinal prefix test.
  Characters that a culture comparison ignores, such as a leading soft hyphen, are not skipped,
  so such a line is not a Hugo line in the model although .NET may count it as one. The
  default-version comment test also uses this `StartsWith`; it holds for every line either way,
  because no line starts with both "#" and "//".
- Dictionary enumeration order is not modelled: a map has no order.
- The constants of files that are not part of this model take the repository's well-known
  values:
  - the manifest, lock and config file names;
  - `defaultVersion.txt` and the listing query `?restype=container&comp=list&include=metadata`;
  - the platform names `nodejs`, `python`, `php` and `dotnet`;
  - the .NET metadata element names `Runtime_version` and `Sdk_version`.
- The on-disk providers (`DotNetCoreOnDiskVersionProvider`, `PythonOnDiskVersionProvider`,
  `INodeVersionProvider`) are not part of this model:
  - The .NET one enters as the fixed answers `OnDiskVersions`.
  - The Node, Python and PHP catalogs enter as a `Catalog`: the `PlatformVersionInfo`, or the
    `CatalogError` of a failed load (with dynamic install, the storage provider's fetch).
    Each detection's calls to `GetVersionInfo` all get this one answer, so a provider that
    fails once and then succeeds within one detection is not modelled.
  - `PythonOnDiskVersionProvider` is `GetVersionsFromDirectory` on `/opt/python/` paired with the
    LTS default.
  - `PythonSdkStorageVersionProvider` is `GetAvailableVersionsFromStorage` called with `python`
    and `Version`. Neither gets a member of its own.
- Option binding, dependency injection and the command-line plumbing are not modelled.
- NodeLanguageDetector.Detect: reads package.json through `NodePlatform.GetPackageJsonObject`,
  which is not part of this model. The model takes it to behave as NodePlatformDetector's
  method of the same name and reuses `NodePlatformDetector.GetVersionFromPackageJson` and its
  `EnginesNodeReader`. The supported Node versions enter as a list, and a failure of the
  Node version provider behind them is not modelled.
- Repository.ReadFile: every failed read is an IOException. `PythonPlatformDetector` and
  `VersionProviderHelper` catch only IOException, so another exception, such as
  UnauthorizedAccessException, would escape them in .NET; the model treats it as swallowed.
- Text: a character outside the Basic Multilingual Plane is one `char` in the model and two
  UTF-16 code units in .NET, so lengths and indices differ for such text.
