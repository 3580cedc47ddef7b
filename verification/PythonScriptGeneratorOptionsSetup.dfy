/** PythonScriptGeneratorOptionsSetup: fills the Python build options from the environment,
    namely the default version, the install directory and the supported-version list. */
module PythonScriptGeneratorOptionsSetup {
  import opened Wrappers
  import opened Text

  const PythonDefaultVersionEnvVariable := "ORYX_PYTHON_DEFAULT_VERSION"
  const PythonSupportedVersionsEnvVariable := "PYTHON_SUPPORTED_VERSIONS"
  const PythonLtsVersion := "3.7.1"
  const InstalledPythonVersionsDir := "/opt/python/"

  /** The environment: a variable absent from the map reads as null. */
  type Environment = map<string, string>

  function GetEnvironmentVariable(env: Environment, name: string): Option<string> {
    if name in env then Some(env[name]) else None
  }

  // ---------------------------------------------------------------------------------------
  // Replace(" ", "") and Split(',', RemoveEmptyEntries)
  // ---------------------------------------------------------------------------------------

  /** `s` without the character `c`, the other characters in order. */
  function Without(s: string, c: char): (r: string)
    ensures c !in r
    ensures |r| <= |s|
  {
    if s == [] then []
    else if s[0] == c then Without(s[1..], c)
    else [s[0]] + Without(s[1..], c)
  }

  /** Every field between commas, empty ones included: one more than there are commas. */
  function Fields(s: string): (r: seq<string>)
    ensures |r| >= 1
    ensures forall i :: 0 <= i < |r| ==> ',' !in r[i]
  {
    if s == [] then [""]
    else
      var rest := Fields(s[1..]);
      if s[0] == ',' then [""] + rest
      else [[s[0]] + rest[0]] + rest[1..]
  }

  /** The fields that are not empty, in order. */
  function NonEmpty(xs: seq<string>): (r: seq<string>)
    ensures forall i :: 0 <= i < |r| ==> r[i] != "" && r[i] in xs
    ensures |r| <= |xs|
  {
    if xs == [] then []
    else if xs[0] == "" then NonEmpty(xs[1..])
    else [xs[0]] + NonEmpty(xs[1..])
  }

  /** Split(',', StringSplitOptions.RemoveEmptyEntries). */
  function SplitRemoveEmpty(s: string): (r: seq<string>)
    ensures forall i :: 0 <= i < |r| ==> r[i] != "" && ',' !in r[i]
  {
    NonEmpty(Fields(s))
  }

  /** The list a non-blank PYTHON_SUPPORTED_VERSIONS value gives. */
  function SupportedVersionsOf(pythonVersions: string): (r: seq<string>)
    ensures forall i :: 0 <= i < |r| ==> r[i] != "" && ',' !in r[i] && ' ' !in r[i]
  {
    var r := SplitRemoveEmpty(Without(pythonVersions, ' '));
    assert forall i :: 0 <= i < |r| ==> ' ' !in r[i] by {
      FieldsCharsComeFromInput(Without(pythonVersions, ' '));
    }
    r
  }

  /** The strings of `xs` with `sep` between each two. */
  function Join(xs: seq<string>, sep: string): string {
    if xs == [] then ""
    else if |xs| == 1 then xs[0]
    else xs[0] + sep + Join(xs[1..], sep)
  }

  /** The strings of `xs` one after the other. */
  function Concat(xs: seq<string>): string {
    if xs == [] then "" else xs[0] + Concat(xs[1..])
  }

  // ---------------------------------------------------------------------------------------
  // Configure
  // ---------------------------------------------------------------------------------------

  /** The options Configure writes; None stands for a null property. */
  class PythonScriptGeneratorOptions {
    var pythonDefaultVersion: Option<string>
    var installedPythonVersionsDir: Option<string>
    var supportedPythonVersions: Option<seq<string>>

    constructor()
      ensures pythonDefaultVersion.None? && installedPythonVersionsDir.None? && supportedPythonVersions.None?
    {
      pythonDefaultVersion := None;
      installedPythonVersionsDir := None;
      supportedPythonVersions := None;
    }
  }

  /** ORYX_PYTHON_DEFAULT_VERSION when set and not empty, else the LTS version. */
  function DefaultVersionFrom(env: Environment): (v: string)
    ensures v != ""
    ensures !IsNullOrEmpty(GetEnvironmentVariable(env, PythonDefaultVersionEnvVariable)) ==>
      v == env[PythonDefaultVersionEnvVariable]
    ensures IsNullOrEmpty(GetEnvironmentVariable(env, PythonDefaultVersionEnvVariable)) ==> v == PythonLtsVersion
  {
    var defaultVersion := GetEnvironmentVariable(env, PythonDefaultVersionEnvVariable);
    if IsNullOrEmpty(defaultVersion) then PythonLtsVersion else defaultVersion.value
  }

  method Configure(env: Environment, options: PythonScriptGeneratorOptions)
    modifies options
    ensures options.pythonDefaultVersion == Some(DefaultVersionFrom(env))
    ensures options.installedPythonVersionsDir == Some(InstalledPythonVersionsDir)
    ensures IsNullOrWhiteSpace(GetEnvironmentVariable(env, PythonSupportedVersionsEnvVariable)) ==>
      options.supportedPythonVersions == old(options.supportedPythonVersions)
    ensures !IsNullOrWhiteSpace(GetEnvironmentVariable(env, PythonSupportedVersionsEnvVariable)) ==>
      options.supportedPythonVersions == Some(SupportedVersionsOf(env[PythonSupportedVersionsEnvVariable]))
  {
    var defaultVersion := GetEnvironmentVariable(env, PythonDefaultVersionEnvVariable);
    if IsNullOrEmpty(defaultVersion) {
      defaultVersion := Some(PythonLtsVersion);
    }
    options.pythonDefaultVersion := defaultVersion;
    options.installedPythonVersionsDir := Some(InstalledPythonVersionsDir);

    var pythonVersions := GetEnvironmentVariable(env, PythonSupportedVersionsEnvVariable);
    if !IsNullOrWhiteSpace(pythonVersions) {
      var withoutSpaces := Without(pythonVersions.value, ' ');
      options.supportedPythonVersions := Some(SplitRemoveEmpty(withoutSpaces));
    }
  }

  // ---------------------------------------------------------------------------------------
  // Properties
  // ---------------------------------------------------------------------------------------

  /** A field holds only characters of the input. */
  lemma {:induction false} FieldsCharsComeFromInput(s: string)
    ensures forall f, c :: f in Fields(s) && c in f ==> c in s
    decreases |s|
  {
    if s != [] {
      FieldsCharsComeFromInput(s[1..]);
      var rest := Fields(s[1..]);
      assert forall c :: c in s[1..] ==> c in s;
      if s[0] != ',' {
        assert rest[0] in rest;
        assert forall f :: f in rest[1..] ==> f in rest;
      }
    }
  }

  /** Splitting loses nothing but the commas: joining the fields back with commas gives the input. */
  lemma {:induction false} FieldsJoinBack(s: string)
    ensures Join(Fields(s), ",") == s
    decreases |s|
  {
    if s != [] {
      FieldsJoinBack(s[1..]);
      var rest := Fields(s[1..]);
      if s[0] == ',' {
        assert Join([""] + rest, ",") == "" + "," + Join(rest, ",");
        assert s == [s[0]] + s[1..];
      } else {
        var fs := [[s[0]] + rest[0]] + rest[1..];
        if |rest| == 1 {
          assert s == [s[0]] + rest[0];
        } else {
          assert Join(rest, ",") == rest[0] + "," + Join(rest[1..], ",");
          assert fs[1..] == rest[1..];
          assert s == [s[0]] + s[1..];
        }
      }
    }
  }

  /** Dropping empty strings does not change the concatenation. */
  lemma {:induction false} NonEmptyKeepsConcat(xs: seq<string>)
    ensures Concat(NonEmpty(xs)) == Concat(xs)
    decreases |xs|
  {
    if xs != [] {
      NonEmptyKeepsConcat(xs[1..]);
    }
  }

  /** The fields, concatenated, are the input without its commas. */
  lemma {:induction false} FieldsConcat(s: string)
    ensures Concat(Fields(s)) == Without(s, ',')
    decreases |s|
  {
    if s != [] {
      FieldsConcat(s[1..]);
      var rest := Fields(s[1..]);
      if s[0] != ',' {
        assert rest == [rest[0]] + rest[1..];
        assert Concat(rest) == rest[0] + Concat(rest[1..]);
      }
    }
  }

  /** The versions, in input order, make up the setting without its spaces and commas: nothing
      is reordered and no character other than ' ' and ',' is lost. */
  lemma SupportedVersionsKeepInputOrder(pythonVersions: string)
    ensures Concat(SupportedVersionsOf(pythonVersions)) == Without(Without(pythonVersions, ' '), ',')
  {
    NonEmptyKeepsConcat(Fields(Without(pythonVersions, ' ')));
    FieldsConcat(Without(pythonVersions, ' '));
  }

  /** A field followed by a comma splits off as the first field. */
  lemma {:induction false} FieldsOfCommaAfter(a: string, rest: string)
    requires ',' !in a
    ensures Fields(a + "," + rest) == [a] + Fields(rest)
    decreases |a|
  {
    if a == [] {
      assert a + "," + rest == [','] + rest;
      assert (a + "," + rest)[1..] == rest;
    } else {
      FieldsOfCommaAfter(a[1..], rest);
      assert (a + "," + rest)[1..] == a[1..] + "," + rest;
      assert [a[0]] + a[1..] == a;
    }
  }

  /** A field with no comma is a single field. */
  lemma {:induction false} FieldsOfPlain(a: string)
    requires ',' !in a
    ensures Fields(a) == [a]
    decreases |a|
  {
    if a != [] {
      FieldsOfPlain(a[1..]);
      assert [a[0]] + a[1..] == a;
    }
  }

  lemma {:induction false} WithoutAbsent(s: string, c: char)
    requires c !in s
    ensures Without(s, c) == s
    decreases |s|
  {
    if s != [] {
      WithoutAbsent(s[1..], c);
      assert [s[0]] + s[1..] == s;
    }
  }

  /** A list written as comma-separated versions, each non-empty and free of spaces and commas,
      is read back as the same list. */
  lemma {:induction false} SupportedVersionsRoundTrip(vs: seq<string>)
    requires vs != []
    requires forall i :: 0 <= i < |vs| ==> vs[i] != "" && ',' !in vs[i] && ' ' !in vs[i]
    ensures SupportedVersionsOf(Join(vs, ",")) == vs
    decreases |vs|
  {
    NoSpaceInJoin(vs);
    WithoutAbsent(Join(vs, ","), ' ');
    FieldsOfJoin(vs);
    NonEmptyOfNonEmpty(vs);
  }

  lemma {:induction false} NoSpaceInJoin(vs: seq<string>)
    requires forall i :: 0 <= i < |vs| ==> ' ' !in vs[i]
    ensures ' ' !in Join(vs, ",")
    decreases |vs|
  {
    if |vs| > 1 {
      NoSpaceInJoin(vs[1..]);
    }
  }

  lemma {:induction false} FieldsOfJoin(vs: seq<string>)
    requires vs != []
    requires forall i :: 0 <= i < |vs| ==> ',' !in vs[i]
    ensures Fields(Join(vs, ",")) == vs
    decreases |vs|
  {
    if |vs| == 1 {
      FieldsOfPlain(vs[0]);
    } else {
      FieldsOfJoin(vs[1..]);
      FieldsOfCommaAfter(vs[0], Join(vs[1..], ","));
      assert vs == [vs[0]] + vs[1..];
    }
  }

  lemma {:induction false} NonEmptyOfNonEmpty(vs: seq<string>)
    requires forall i :: 0 <= i < |vs| ==> vs[i] != ""
    ensures NonEmpty(vs) == vs
    decreases |vs|
  {
    if vs != [] {
      NonEmptyOfNonEmpty(vs[1..]);
      assert vs == [vs[0]] + vs[1..];
    }
  }

  /** Removing the spaces from a text of spaces and commas leaves only commas. */
  lemma {:induction false} WithoutSpacesLeavesCommas(s: string)
    requires forall i :: 0 <= i < |s| ==> s[i] == ' ' || s[i] == ','
    ensures forall i :: 0 <= i < |Without(s, ' ')| ==> Without(s, ' ')[i] == ','
    decreases |s|
  {
    if s != [] {
      WithoutSpacesLeavesCommas(s[1..]);
    }
  }

  /** Every field of a text of commas only is empty. */
  lemma {:induction false} FieldsOfCommasAreEmpty(s: string)
    requires forall i :: 0 <= i < |s| ==> s[i] == ','
    ensures forall i :: 0 <= i < |Fields(s)| ==> Fields(s)[i] == ""
    decreases |s|
  {
    if s != [] {
      FieldsOfCommasAreEmpty(s[1..]);
    }
  }

  /** Dropping the empty fields of a list of empty fields leaves nothing. */
  lemma {:induction false} NonEmptyOfEmpties(xs: seq<string>)
    requires forall i :: 0 <= i < |xs| ==> xs[i] == ""
    ensures NonEmpty(xs) == []
    decreases |xs|
  {
    if xs != [] {
      NonEmptyOfEmpties(xs[1..]);
    }
  }

  /** A setting made of spaces and commas gives an empty list; when it holds a comma it is not
      blank, so Configure replaces the list with that empty one. */
  lemma CommasOnlyGiveEmptyList(pythonVersions: string)
    requires forall i :: 0 <= i < |pythonVersions| ==> pythonVersions[i] == ' ' || pythonVersions[i] == ','
    ensures SupportedVersionsOf(pythonVersions) == []
    ensures ',' in pythonVersions ==> !IsNullOrWhiteSpace(Some(pythonVersions))
  {
    var withoutSpaces := Without(pythonVersions, ' ');
    WithoutSpacesLeavesCommas(pythonVersions);
    FieldsOfCommasAreEmpty(withoutSpaces);
    NonEmptyOfEmpties(Fields(withoutSpaces));
  }
}
