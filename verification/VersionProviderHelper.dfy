/** VersionProviderHelper: the supported versions from explicit options, or from the names of
    the subdirectories of an install directory that parse as semantic versions, sorted. */
module VersionProviderHelper {
  import opened Wrappers

  /** The parts of SemVer.Version the helper uses: the constructor, which throws ArgumentException
      on a string that is not a semantic version (None here), the comparison List.Sort uses, and
      ToString. The library itself is not part of this model. */
  datatype SemVerLibrary<!V> = SemVerLibrary(parse: string -> Option<V>, le: (V, V) -> bool, show: V -> string)

  /** The comparison is a total preorder: every two versions compare, and transitively. */
  ghost predicate IsTotalPreorder<V(!new)>(le: (V, V) -> bool) {
    && (forall a, b :: le(a, b) || le(b, a))
    && (forall a, b, c :: le(a, b) && le(b, c) ==> le(a, c))
  }

  /** Only equal versions compare both ways. */
  ghost predicate IsAntisymmetric<V(!new)>(le: (V, V) -> bool) {
    forall a, b :: le(a, b) && le(b, a) ==> a == b
  }

  predicate Sorted<V>(le: (V, V) -> bool, vs: seq<V>) {
    forall i, j :: 0 <= i < j < |vs| ==> le(vs[i], vs[j])
  }

  // ---------------------------------------------------------------------------------------
  // Parsing the directory names
  // ---------------------------------------------------------------------------------------

  /** The versions of `names` that parse, in enumeration order; the others ('latest', 'lts')
      are skipped. */
  function Parsed<V>(parse: string -> Option<V>, names: seq<string>): (vs: seq<V>)
    ensures |vs| <= |names|
    ensures forall v :: v in vs ==> exists n :: n in names && parse(n) == Some(v)
    decreases |names|
  {
    if names == [] then []
    else
      var init := Parsed(parse, names[..|names| - 1]);
      var last := names[|names| - 1];
      assert forall n :: n in names[..|names| - 1] ==> n in names;
      match parse(last)
      case None => init
      case Some(v) => init + [v]
  }

  // ---------------------------------------------------------------------------------------
  // Sorting (List.Sort with the version comparison)
  // ---------------------------------------------------------------------------------------

  /** `x` placed before the first element it does not follow. */
  function Insert<V>(le: (V, V) -> bool, x: V, vs: seq<V>): (r: seq<V>)
    ensures |r| == |vs| + 1
    ensures multiset(r) == multiset(vs) + multiset{x}
  {
    if vs == [] || le(x, vs[0]) then [x] + vs
    else
      assert vs == [vs[0]] + vs[1..];
      [vs[0]] + Insert(le, x, vs[1..])
  }

  function SortVersions<V>(le: (V, V) -> bool, vs: seq<V>): (r: seq<V>)
    ensures |r| == |vs|
    ensures multiset(r) == multiset(vs)
  {
    if vs == [] then []
    else
      assert vs == [vs[0]] + vs[1..];
      Insert(le, vs[0], SortVersions(le, vs[1..]))
  }

  /** Versions.Select(v => v.ToString()). */
  function Shown<V>(show: V -> string, vs: seq<V>): (r: seq<string>)
    ensures |r| == |vs|
    ensures forall i :: 0 <= i < |vs| ==> r[i] == show(vs[i])
  {
    seq(|vs|, i requires 0 <= i < |vs| => show(vs[i]))
  }

  /** What GetVersionsFromDirectory returns for the subdirectory names of one listing. */
  function VersionsFromNames<V>(lib: SemVerLibrary<V>, names: seq<string>): seq<string> {
    Shown(lib.show, SortVersions(lib.le, Parsed(lib.parse, names)))
  }

  // ---------------------------------------------------------------------------------------
  // The operations
  // ---------------------------------------------------------------------------------------

  /** GetVersionsFromDirectory: `listing` holds the names of the immediate subdirectories, None
      when listing throws an IOException (which yields no versions). Each name is parsed and the
      parsed versions are appended; the list is then sorted and turned back into strings. */
  method GetVersionsFromDirectory<V>(listing: Option<seq<string>>, lib: SemVerLibrary<V>) returns (r: seq<string>)
    ensures listing.None? ==> r == []
    ensures listing.Some? ==> r == VersionsFromNames(lib, listing.value)
    ensures listing.Some? ==> |r| <= |listing.value|
    ensures listing.Some? ==> forall i :: 0 <= i < |r| ==>
      exists n :: n in listing.value && lib.parse(n).Some? && r[i] == lib.show(lib.parse(n).value)
  {
    if listing.None? {
      return [];
    }
    var versionDirectories := listing.value;
    var versions: seq<V> := [];
    for i := 0 to |versionDirectories|
      invariant versions == Parsed(lib.parse, versionDirectories[..i])
    {
      assert versionDirectories[..i + 1][..i] == versionDirectories[..i];
      var version := lib.parse(versionDirectories[i]);
      if version.Some? {
        versions := versions + [version.value];
      }
    }
    assert versionDirectories[..|versionDirectories|] == versionDirectories;
    var sorted := SortVersions(lib.le, versions);
    r := Shown(lib.show, sorted);
    forall i | 0 <= i < |r|
      ensures exists n :: n in versionDirectories && lib.parse(n).Some? && r[i] == lib.show(lib.parse(n).value)
    {
      assert sorted[i] in multiset(versions);
      var n :| n in versionDirectories && lib.parse(n) == Some(sorted[i]);
    }
  }

  /** GetSupportedVersions: explicit options win, even an empty list, and the directory is then
      not listed. */
  method GetSupportedVersions<V>(optionsVersions: Option<seq<string>>, listing: Option<seq<string>>, lib: SemVerLibrary<V>)
    returns (r: seq<string>)
    ensures optionsVersions.Some? ==> r == optionsVersions.value
    ensures optionsVersions.None? && listing.None? ==> r == []
    ensures optionsVersions.None? && listing.Some? ==> r == VersionsFromNames(lib, listing.value)
  {
    if optionsVersions.Some? {
      return optionsVersions.value;
    }
    r := GetVersionsFromDirectory(listing, lib);
  }

  // ---------------------------------------------------------------------------------------
  // Properties
  // ---------------------------------------------------------------------------------------

  lemma {:induction false} InsertKeepsSorted<V(!new)>(le: (V, V) -> bool, x: V, vs: seq<V>)
    requires IsTotalPreorder(le)
    requires Sorted(le, vs)
    ensures Sorted(le, Insert(le, x, vs))
  {
    if vs != [] && !le(x, vs[0]) {
      InsertKeepsSorted(le, x, vs[1..]);
      var r := Insert(le, x, vs);
      var tail := Insert(le, x, vs[1..]);
      assert r == [vs[0]] + tail;
      forall j | 0 <= j < |tail| ensures le(vs[0], tail[j]) {
        assert tail[j] in multiset(vs[1..]) + multiset{x};
        if tail[j] in multiset(vs[1..]) {
          assert tail[j] in vs[1..];
        }
      }
    }
  }

  /** The output is in ascending version order, whatever order the directory listed. */
  lemma {:induction false} SortVersionsIsSorted<V(!new)>(le: (V, V) -> bool, vs: seq<V>)
    requires IsTotalPreorder(le)
    ensures Sorted(le, SortVersions(le, vs))
  {
    if vs != [] {
      SortVersionsIsSorted(le, vs[1..]);
      InsertKeepsSorted(le, vs[0], SortVersions(le, vs[1..]));
    }
  }

  /** Parsing distributes over concatenation of listings. */
  lemma {:induction false} ParsedAppend<V>(parse: string -> Option<V>, a: seq<string>, b: seq<string>)
    ensures Parsed(parse, a + b) == Parsed(parse, a) + Parsed(parse, b)
    decreases |b|
  {
    if b != [] {
      var b' := b[..|b| - 1];
      ParsedAppend(parse, a, b');
      assert (a + b)[..|a + b| - 1] == a + b';
      assert (a + b)[|a + b| - 1] == b[|b| - 1];
    } else {
      assert a + b == a;
    }
  }

  /** A name that does not parse (such as 'latest' or 'lts') leaves no trace. */
  lemma SkippedNameVanishes<V>(parse: string -> Option<V>, a: seq<string>, n: string, b: seq<string>)
    requires parse(n).None?
    ensures Parsed(parse, a + [n] + b) == Parsed(parse, a + b)
  {
    ParsedAppend(parse, a + [n], b);
    ParsedAppend(parse, a, b);
    assert (a + [n])[..|a + [n]| - 1] == a;
  }

  /** Taking the same name out of two listings with the same names leaves listings with the
      same names. */
  lemma RemoveFromBoth(init: seq<string>, x: string, a: seq<string>, b: seq<string>)
    requires multiset(init + [x]) == multiset(a + [x] + b)
    ensures multiset(init) == multiset(a + b)
  {
    calc {
      multiset(init);
      multiset(init + [x]) - multiset{x};
      multiset(a + [x] + b) - multiset{x};
      multiset(a) + multiset(b);
    }
  }

  /** The parsed versions, as a bag, do not depend on the order of the listing. */
  lemma {:induction false} ParsedPermutation<V>(parse: string -> Option<V>, names1: seq<string>, names2: seq<string>)
    requires multiset(names1) == multiset(names2)
    ensures multiset(Parsed(parse, names1)) == multiset(Parsed(parse, names2))
    decreases |names1|
  {
    if names1 != [] {
      var x := names1[|names1| - 1];
      var init1 := names1[..|names1| - 1];
      assert names1 == init1 + [x];
      assert x in multiset(names2) by { assert x in names1; }
      var j :| 0 <= j < |names2| && names2[j] == x;
      var a, b := names2[..j], names2[j + 1..];
      assert names2 == a + [x] + b;
      RemoveFromBoth(init1, x, a, b);
      ParsedPermutation(parse, init1, a + b);
      ParsedAppend(parse, init1, [x]);
      ParsedAppend(parse, a + [x], b);
      ParsedAppend(parse, a, [x]);
      ParsedAppend(parse, a, b);
    } else {
      assert |names2| == |multiset(names2)| == 0;
    }
  }

  /** The head of a sorted sequence comes before every element of it. */
  lemma SortedHeadComesFirst<V(!new)>(le: (V, V) -> bool, t: seq<V>, x: V)
    requires IsTotalPreorder(le) && Sorted(le, t)
    requires x in t
    ensures le(t[0], x)
  {
    var i :| 0 <= i < |t| && t[i] == x;
    if i == 0 {
      assert le(x, x) || le(x, x);
    } else {
      assert le(t[0], t[i]);
    }
  }

  lemma HeadAndTail<V>(s: seq<V>)
    requires s != []
    ensures s == [s[0]] + s[1..]
    ensures multiset(s[1..]) == multiset(s) - multiset{s[0]}
  {
    assert s == [s[0]] + s[1..];
  }

  /** Under a comparison where only equal versions compare both ways, two sorted sequences with
      the same elements are the same sequence. */
  lemma {:induction false} SortedUnique<V(!new)>(le: (V, V) -> bool, s: seq<V>, t: seq<V>)
    requires IsTotalPreorder(le) && IsAntisymmetric(le)
    requires Sorted(le, s) && Sorted(le, t)
    requires multiset(s) == multiset(t)
    ensures s == t
    decreases |s|
  {
    assert |t| == |multiset(t)| == |multiset(s)| == |s|;
    if s != [] {
      assert s[0] in multiset(t) && t[0] in multiset(s);
      SortedHeadComesFirst(le, t, s[0]);
      SortedHeadComesFirst(le, s, t[0]);
      assert s[0] == t[0];
      HeadAndTail(s);
      HeadAndTail(t);
      SortedUnique(le, s[1..], t[1..]);
    }
  }

  /** The catalog does not depend on the order in which the directory lists its subdirectories. */
  lemma ListingOrderIsIrrelevant<V(!new)>(lib: SemVerLibrary<V>, names1: seq<string>, names2: seq<string>)
    requires IsTotalPreorder(lib.le) && IsAntisymmetric(lib.le)
    requires multiset(names1) == multiset(names2)
    ensures VersionsFromNames(lib, names1) == VersionsFromNames(lib, names2)
  {
    var s := SortVersions(lib.le, Parsed(lib.parse, names1));
    var t := SortVersions(lib.le, Parsed(lib.parse, names2));
    ParsedPermutation(lib.parse, names1, names2);
    SortVersionsIsSorted(lib.le, Parsed(lib.parse, names1));
    SortVersionsIsSorted(lib.le, Parsed(lib.parse, names2));
    SortedUnique(lib.le, s, t);
  }
}
