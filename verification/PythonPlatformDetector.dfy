/** PythonPlatformDetector: a Python app needs requirements.txt or setup.py, and either a usable
    runtime.txt or a *.py file at the repository root. */
module PythonPlatformDetector {
  import opened Wrappers
  import opened Text
  import opened Repository
  import opened Detector

  const PlatformName := "python"
  const RequirementsFileName := "requirements.txt"
  const SetupDotPyFileName := "setup.py"
  const RuntimeFileName := "runtime.txt"
  const PythonFileExtension := ".py"
  const VersionPrefix := "python-"

  // ---------------------------------------------------------------------------------------
  // runtime.txt
  // ---------------------------------------------------------------------------------------

  /** The version written in runtime.txt: the whole content less a leading "python-" (in any
      letter case), untrimmed. None when the file is missing, cannot be read (the IOException is
      swallowed) or lacks the prefix. */
  function DetectPythonVersionFromRuntimeFile(repo: SourceRepo): (r: Option<string>)
    ensures r.Some? <==>
      ReadFile(repo, RuntimeFileName).Some? && StartsWithIgnoreCase(ReadFile(repo, RuntimeFileName).value, VersionPrefix)
    ensures r.Some? ==> ReadFile(repo, RuntimeFileName).value[|VersionPrefix|..] == r.value
    ensures r.Some? ==> |r.value| + |VersionPrefix| == |ReadFile(repo, RuntimeFileName).value|
  {
    if !FileExists(repo, RuntimeFileName) then None
    else match ReadFile(repo, RuntimeFileName)
      case None => None
      case Some(content) =>
        if !StartsWithIgnoreCase(content, VersionPrefix) then None
        else Some(content[|VersionPrefix|..])
  }

  // ---------------------------------------------------------------------------------------
  // The structural rule
  // ---------------------------------------------------------------------------------------

  predicate HasRequirementsOrSetup(repo: SourceRepo) {
    FileExists(repo, RequirementsFileName) || FileExists(repo, SetupDotPyFileName)
  }

  predicate HasRootPythonFile(repo: SourceRepo) {
    exists f :: f in repo.files && EndsWith(f, PythonFileExtension) && AtRoot(f)
  }

  /** requirements.txt or setup.py, and then either a non-empty runtime.txt version or a
      *.py file at the root (subdirectories are not searched). */
  predicate IsPythonApp(repo: SourceRepo) {
    && HasRequirementsOrSetup(repo)
    && (!IsNullOrEmpty(DetectPythonVersionFromRuntimeFile(repo)) || HasRootPythonFile(repo))
  }

  // ---------------------------------------------------------------------------------------
  // The requested version
  // ---------------------------------------------------------------------------------------

  /** The version to resolve: the one resolved earlier, else the runtime.txt version (even an
      empty one: the test is only for null), else the catalog default, whose load may fail. */
  function GetVersion(context: RepositoryContext, versionFromRuntimeFile: Option<string>, catalog: Catalog)
    : (v: Result<string, DetectorError>)
    ensures context.resolvedPythonVersion.Some? ==> v == Ok(context.resolvedPythonVersion.value)
    ensures context.resolvedPythonVersion.None? && versionFromRuntimeFile.Some? ==> v == Ok(versionFromRuntimeFile.value)
    ensures context.resolvedPythonVersion.None? && versionFromRuntimeFile.None? ==> v == GetDefaultVersionFromProvider(catalog)
  {
    if context.resolvedPythonVersion.Some? then Ok(context.resolvedPythonVersion.value)
    else if versionFromRuntimeFile.Some? then Ok(versionFromRuntimeFile.value)
    else GetDefaultVersionFromProvider(catalog)
  }

  // ---------------------------------------------------------------------------------------
  // Detect
  // ---------------------------------------------------------------------------------------

  function Detect(context: RepositoryContext, catalog: Catalog, resolve: Resolver): (r: Detection<PlatformDetectorResult>)
    ensures r.NotDetected? <==> !IsPythonApp(context.sourceRepo)
    ensures !r.NotDetected? ==>
      var requested := GetVersion(context, DetectPythonVersionFromRuntimeFile(context.sourceRepo), catalog);
      && (requested.Err? ==> r == Failed(requested.error))
      && (requested.Ok? ==> r == Report(PlatformName, GetMaxSatisfyingVersionAndVerify(PlatformName, requested.value, catalog, resolve)))
    ensures r.Detected? ==> r.result.platform == PlatformName && r.result.platformVersion != ""
  {
    var sourceRepo := context.sourceRepo;
    if !FileExists(sourceRepo, RequirementsFileName) && !FileExists(sourceRepo, SetupDotPyFileName) then
      NotDetected
    else
      var versionFromRuntimeFile := DetectPythonVersionFromRuntimeFile(sourceRepo);
      if IsNullOrEmpty(versionFromRuntimeFile) && |EnumerateFiles(sourceRepo, PythonFileExtension, false)| == 0 then
        NotDetected
      else
        assert HasRootPythonFile(sourceRepo) || !IsNullOrEmpty(versionFromRuntimeFile) by {
          if IsNullOrEmpty(versionFromRuntimeFile) {
            var files := EnumerateFiles(sourceRepo, PythonFileExtension, false);
            assert files[0] in files;
          }
        }
        match GetVersion(context, versionFromRuntimeFile, catalog)
        case Err(e) => Failed(e)
        case Ok(version) => Report(PlatformName, GetMaxSatisfyingVersionAndVerify(PlatformName, version, catalog, resolve))
  }

  // ---------------------------------------------------------------------------------------
  // Properties
  // ---------------------------------------------------------------------------------------

  /** Any letter case of the prefix is accepted, and exactly its seven characters are removed. */
  lemma {:induction false} PrefixInAnyCaseIsRemoved(repo: SourceRepo, prefix: string, v: string)
    requires EqualsIgnoreCase(prefix, VersionPrefix)
    requires ReadFile(repo, RuntimeFileName) == Some(prefix + v)
    ensures DetectPythonVersionFromRuntimeFile(repo) == Some(v)
  {
    var content := prefix + v;
    assert |prefix| == |Fold(prefix)| == |Fold(VersionPrefix)| == |VersionPrefix|;
    assert content[..|VersionPrefix|] == prefix;
    assert content[|VersionPrefix|..] == v;
  }

  /** runtime.txt written "PYTHON-" + v still gives v. */
  lemma UpperCasePrefixIsAccepted(repo: SourceRepo, v: string)
    requires ReadFile(repo, RuntimeFileName) == Some("PYTHON-" + v)
    ensures DetectPythonVersionFromRuntimeFile(repo) == Some(v)
  {
    assert Fold("PYTHON-") == Fold(VersionPrefix);
    PrefixInAnyCaseIsRemoved(repo, "PYTHON-", v);
  }

  /** The version is not trimmed: a trailing newline in runtime.txt stays part of it. */
  lemma VersionIsNotTrimmed(repo: SourceRepo)
    requires ReadFile(repo, RuntimeFileName) == Some("python-3.8.2\n")
    ensures DetectPythonVersionFromRuntimeFile(repo) == Some("3.8.2\n")
  {
    assert "python-3.8.2\n" == VersionPrefix + "3.8.2\n";
    assert EqualsIgnoreCase(VersionPrefix, VersionPrefix);
    PrefixInAnyCaseIsRemoved(repo, VersionPrefix, "3.8.2\n");
  }

  /** A runtime.txt of exactly "python-" gives the empty version: it does not open the
      structural rule (a root *.py file is still needed), yet it is requested instead of the
      catalog default. */
  lemma {:induction false} EmptyRuntimeVersion(context: RepositoryContext, catalog: Catalog)
    requires ReadFile(context.sourceRepo, RuntimeFileName) == Some(VersionPrefix)
    requires context.resolvedPythonVersion.None?
    ensures DetectPythonVersionFromRuntimeFile(context.sourceRepo) == Some("")
    ensures IsPythonApp(context.sourceRepo) <==>
      HasRequirementsOrSetup(context.sourceRepo) && HasRootPythonFile(context.sourceRepo)
    ensures GetVersion(context, DetectPythonVersionFromRuntimeFile(context.sourceRepo), catalog) == Ok("")
  {
    assert VersionPrefix == VersionPrefix + "";
    assert EqualsIgnoreCase(VersionPrefix, VersionPrefix);
    PrefixInAnyCaseIsRemoved(context.sourceRepo, VersionPrefix, "");
  }

  /** A non-empty runtime.txt version opens the structural rule without any *.py file, and it is
      the version requested (for instance "python-3.8.2" next to requirements.txt requests 3.8.2). */
  lemma RuntimeFileAloneOpensTheRule(context: RepositoryContext, v: string, catalog: Catalog, resolve: Resolver)
    requires HasRequirementsOrSetup(context.sourceRepo)
    requires ReadFile(context.sourceRepo, RuntimeFileName) == Some(VersionPrefix + v)
    requires v != ""
    requires context.resolvedPythonVersion.None?
    ensures Detect(context, catalog, resolve)
      == Report(PlatformName, GetMaxSatisfyingVersionAndVerify(PlatformName, v, catalog, resolve))
  {
    assert EqualsIgnoreCase(VersionPrefix, VersionPrefix);
    PrefixInAnyCaseIsRemoved(context.sourceRepo, VersionPrefix, v);
  }

  /** Without requirements.txt and setup.py nothing else is looked at. */
  lemma PythonFilesAloneDoNotMatch(repo: SourceRepo, context: RepositoryContext, catalog: Catalog, resolve: Resolver)
    requires context.sourceRepo == repo
    requires !FileExists(repo, RequirementsFileName) && !FileExists(repo, SetupDotPyFileName)
    ensures Detect(context, catalog, resolve) == NotDetected
  {
  }

  /** A failed catalog load surfaces exactly when the repository is a Python app: the structural
      test never asks for the catalog, and every match does. */
  lemma CatalogFailureOnlyAfterMatch(context: RepositoryContext, catalog: Catalog, resolve: Resolver)
    requires catalog.Err?
    ensures Detect(context, catalog, resolve)
      == if IsPythonApp(context.sourceRepo) then Failed(CatalogUnavailable(catalog.error)) else NotDetected
  {
  }
}
