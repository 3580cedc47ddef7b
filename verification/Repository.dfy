/** The read-only view of a source repository (ISourceRepo) and the per-pass detection context
    (RepositoryContext). Paths are '/'-separated and relative to the repository root. */
module Repository {
  import opened Wrappers
  import opened Text

  /** `files` lists every file in the order a directory walk enumerates them; `dirs` every
      directory; `contents` the text of each file that can be read: an existing file with no
      entry here is one whose read raises an IOException. */
  datatype SourceRepo = SourceRepo(files: seq<string>, dirs: set<string>, contents: map<string, string>)

  predicate FileExists(repo: SourceRepo, path: string) {
    path in repo.files
  }

  predicate DirExists(repo: SourceRepo, path: string) {
    path in repo.dirs
  }

  /** Path.Combine for the two-part FileExists/ReadAllLines overloads. */
  function Combine(dir: string, name: string): string {
    dir + "/" + name
  }

  /** ReadFile: None when the read throws (a missing file throws too). */
  function ReadFile(repo: SourceRepo, path: string): Option<string> {
    if FileExists(repo, path) && path in repo.contents then Some(repo.contents[path]) else None
  }

  /** ReadAllLines: None when the read throws. */
  function ReadAllLines(repo: SourceRepo, path: string): Option<seq<string>> {
    match ReadFile(repo, path)
    case None => None
    case Some(text) => Some(Lines(text))
  }

  predicate AtRoot(path: string) {
    forall i :: 0 <= i < |path| ==> path[i] != '/'
  }

  /** Whether EnumerateFiles("*" + extension, searchSubDirectories) lists `path`. */
  predicate Enumerated(path: string, extension: string, searchSubDirectories: bool) {
    EndsWith(path, extension) && (searchSubDirectories || AtRoot(path))
  }

  function FilterFiles(files: seq<string>, extension: string, searchSubDirectories: bool): (r: seq<string>)
    ensures forall f :: f in r <==> f in files && Enumerated(f, extension, searchSubDirectories)
    ensures |r| <= |files|
  {
    if files == [] then []
    else
      var rest := FilterFiles(files[1..], extension, searchSubDirectories);
      if Enumerated(files[0], extension, searchSubDirectories) then [files[0]] + rest else rest
  }

  /** EnumerateFiles("*" + extension, searchSubDirectories), in enumeration order. */
  function EnumerateFiles(repo: SourceRepo, extension: string, searchSubDirectories: bool): seq<string> {
    FilterFiles(repo.files, extension, searchSubDirectories)
  }

  /** The detection context: the repository and the versions an earlier pass already resolved
      (None where the property is null). */
  datatype RepositoryContext = RepositoryContext(
    sourceRepo: SourceRepo,
    resolvedNodeVersion: Option<string>,
    resolvedDotNetCoreRuntimeVersion: Option<string>,
    resolvedPhpVersion: Option<string>,
    resolvedPythonVersion: Option<string>)

  /** A context with no resolved versions, for stating examples. */
  function FreshContext(repo: SourceRepo): RepositoryContext {
    RepositoryContext(repo, None, None, None, None)
  }
}
