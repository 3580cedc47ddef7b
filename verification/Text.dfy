/** The .NET string operations the detectors and catalog builders rely on, as functions on
    `string`. A Dafny `char` is a Unicode scalar value, while a .NET string holds UTF-16 code
    units; the model takes one character for one code unit, so a character outside the Basic
    Multilingual Plane, which .NET stores as a surrogate pair, counts once here. */
module Text {
  import opened Wrappers

  // ---------------------------------------------------------------------------------------
  // Case-insensitive comparison (StringComparison.OrdinalIgnoreCase)
  // ---------------------------------------------------------------------------------------

  /** Case folding of one character; only the ASCII letters are folded. */
  function FoldChar(c: char): char {
    if 'A' <= c <= 'Z' then (c as int + 32) as char else c
  }

  function Fold(s: string): string {
    seq(|s|, i requires 0 <= i < |s| => FoldChar(s[i]))
  }

  predicate EqualsIgnoreCase(a: string, b: string) {
    Fold(a) == Fold(b)
  }

  // ---------------------------------------------------------------------------------------
  // Prefix and suffix tests, character by character
  // ---------------------------------------------------------------------------------------

  /** The ordinal prefix test. It also stands for the culture-sensitive StartsWith(string),
      which would skip characters such as a soft hyphen that a culture comparison ignores. */
  predicate StartsWith(s: string, prefix: string) {
    |prefix| <= |s| && s[..|prefix|] == prefix
  }

  predicate StartsWithIgnoreCase(s: string, prefix: string) {
    |prefix| <= |s| && EqualsIgnoreCase(s[..|prefix|], prefix)
  }

  predicate EndsWith(s: string, suffix: string) {
    |suffix| <= |s| && s[|s| - |suffix|..] == suffix
  }

  // ---------------------------------------------------------------------------------------
  // Trimming
  // ---------------------------------------------------------------------------------------

  /** String.TrimStart(c): drops every leading occurrence of `c`. */
  function TrimStartChar(s: string, c: char): (r: string)
    ensures |r| <= |s| && r == s[|s| - |r|..]
    ensures r == [] || r[0] != c
    ensures forall i :: 0 <= i < |s| - |r| ==> s[i] == c
    decreases |s|
  {
    if |s| > 0 && s[0] == c then TrimStartChar(s[1..], c) else s
  }

  /** String.TrimEnd(c): drops every trailing occurrence of `c`. */
  function TrimEndChar(s: string, c: char): (r: string)
    ensures |r| <= |s| && r == s[..|r|]
    ensures r == [] || r[|r| - 1] != c
    ensures forall i :: |r| <= i < |s| ==> s[i] == c
    decreases |s|
  {
    if |s| > 0 && s[|s| - 1] == c then TrimEndChar(s[..|s| - 1], c) else s
  }

  /** Char.IsWhiteSpace: the Unicode White_Space code points of the Basic Multilingual Plane. */
  predicate IsWhiteSpace(c: char) {
    ('\U{9}' <= c <= '\U{D}') || c == ' ' || c == '\U{85}' || c == '\U{A0}' || c == '\U{1680}'
    || ('\U{2000}' <= c <= '\U{200A}') || c == '\U{2028}' || c == '\U{2029}' || c == '\U{202F}'
    || c == '\U{205F}' || c == '\U{3000}'
  }

  function TrimStartWhiteSpace(s: string): (r: string)
    ensures |r| <= |s| && r == s[|s| - |r|..]
    ensures r == [] || !IsWhiteSpace(r[0])
    ensures forall i :: 0 <= i < |s| - |r| ==> IsWhiteSpace(s[i])
    decreases |s|
  {
    if |s| > 0 && IsWhiteSpace(s[0]) then TrimStartWhiteSpace(s[1..]) else s
  }

  function TrimEndWhiteSpace(s: string): (r: string)
    ensures |r| <= |s| && r == s[..|r|]
    ensures r == [] || !IsWhiteSpace(r[|r| - 1])
    ensures forall i :: |r| <= i < |s| ==> IsWhiteSpace(s[i])
    decreases |s|
  {
    if |s| > 0 && IsWhiteSpace(s[|s| - 1]) then TrimEndWhiteSpace(s[..|s| - 1]) else s
  }

  /** String.Trim(): drops leading and trailing white space. */
  function Trim(s: string): string {
    TrimEndWhiteSpace(TrimStartWhiteSpace(s))
  }

  // ---------------------------------------------------------------------------------------
  // Null and blank tests (None stands for a null reference)
  // ---------------------------------------------------------------------------------------

  predicate IsNullOrEmpty(s: Option<string>) {
    s.None? || s.value == ""
  }

  predicate IsBlank(s: string) {
    forall i :: 0 <= i < |s| ==> IsWhiteSpace(s[i])
  }

  predicate IsNullOrWhiteSpace(s: Option<string>) {
    s.None? || IsBlank(s.value)
  }

  // ---------------------------------------------------------------------------------------
  // Line reading (TextReader.ReadLine, File.ReadAllLines)
  // ---------------------------------------------------------------------------------------

  predicate IsLineBreak(c: char) {
    c == '\n' || c == '\r'
  }

  /** Index of the first line break in `s`, or |s| when there is none. */
  function LineEnd(s: string): (k: nat)
    ensures k <= |s|
    ensures forall i :: 0 <= i < k ==> !IsLineBreak(s[i])
    ensures k < |s| ==> IsLineBreak(s[k])
    decreases |s|
  {
    if s == [] || IsLineBreak(s[0]) then 0 else 1 + LineEnd(s[1..])
  }

  /** One ReadLine on a reader positioned at `s` (not at the end): the text up to the first
      '\r' or '\n', and the text after that terminator, "\r\n" counting as one terminator. */
  function ReadLine(s: string): (res: (string, string))
    requires s != []
    ensures |res.1| < |s|
  {
    var k := LineEnd(s);
    if k == |s| then (s, [])
    else if s[k] == '\r' && k + 1 < |s| && s[k + 1] == '\n' then (s[..k], s[k + 2..])
    else (s[..k], s[k + 1..])
  }

  /** The lines ReadLine yields until it returns null: a final terminator adds no empty line. */
  function Lines(s: string): seq<string>
    decreases |s|
  {
    if s == [] then [] else [ReadLine(s).0] + Lines(ReadLine(s).1)
  }

  /** The first line of `v + "\n" + rest` is `v` when `v` holds no line break. */
  lemma {:induction false} FirstLineOf(v: string, rest: string)
    requires forall i :: 0 <= i < |v| ==> !IsLineBreak(v[i])
    ensures Lines(v + "\n" + rest) != [] && Lines(v + "\n" + rest)[0] == v
  {
    var s := v + "\n" + rest;
    var k := LineEnd(s);
    assert s[|v|] == '\n';
    assert forall i :: 0 <= i < |v| ==> s[i] == v[i];
    assert k == |v|;
    assert s[..k] == v;
  }

  /** Trimming a string that starts and ends with a non-blank character changes nothing. */
  lemma TrimOfTrimmed(v: string)
    requires v != [] && !IsWhiteSpace(v[0]) && !IsWhiteSpace(v[|v| - 1])
    ensures Trim(v) == v
  {
    assert TrimStartWhiteSpace(v) == v;
  }
}
