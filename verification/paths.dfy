/**
 * String and path helpers for src/main.py: the case-insensitive suffix test
 * (`s.lower().endswith(ext)`, `any(...)` over an extension list) and the
 * base name of a path.
 *
 * The program loads `msvcrt.dll` when it is imported, so it only runs on
 * Windows, where `os.path` is `ntpath`: both '/' and '\' separate path
 * components, a leading drive such as "C:" is not part of the base name, and
 * `os.path.join` inserts '\'.
 */
module Paths {

  /** Lower-cases one character as Python's `str.lower` does for every
      character whose lower-case form is ASCII: 'A'..'Z', and the Kelvin sign
      U+212A, which lowers to 'k'. Every other character is kept as it is:
      its Python lower-case form is not ASCII (or, for U+0130, ends in a
      non-ASCII combining mark), so no test for an ASCII suffix can tell the
      two apart. */
  function LowerChar(c: char): char {
    if 'A' <= c <= 'Z' then (c as int + 32) as char
    else if c == '\U{212A}' then 'k'
    else c
  }

  /** `s.lower()`, character by character. */
  function Lower(s: string): string {
    seq(|s|, i requires 0 <= i < |s| => LowerChar(s[i]))
  }

  /** Lower-casing commutes with concatenation. */
  lemma LowerAppend(a: string, b: string)
    ensures Lower(a + b) == Lower(a) + Lower(b)
  {
    assert forall i :: 0 <= i < |a + b| ==> Lower(a + b)[i] == (Lower(a) + Lower(b))[i];
  }

  /** Lower-casing a suffix of s gives the same suffix of s lower-cased. */
  lemma LowerDrop(s: string, k: nat)
    requires k <= |s|
    ensures Lower(s)[k..] == Lower(s[k..])
  {
  }

  /** Python's `s.endswith(suffix)`. */
  predicate EndsWith(s: string, suffix: string) {
    |suffix| <= |s| && s[|s| - |suffix|..] == suffix
  }

  /** Whether `s` ends with one of the suffixes, trying them from the front
      of the list. */
  function AnyEndsWith(s: string, exts: seq<string>): (b: bool)
    ensures b <==> exists i :: 0 <= i < |exts| && EndsWith(s, exts[i])
  {
    if exts == [] then false
    else if EndsWith(s, exts[0]) then true
    else
      var rest := AnyEndsWith(s, exts[1..]);
      assert forall i :: 1 <= i < |exts| ==> exts[i] == exts[1..][i - 1];
      rest
  }

  /** A path ending in a lower-case suffix still ends with it once
      lower-cased. */
  lemma EndsWithLower(s: string, suffix: string)
    requires EndsWith(s, suffix) && Lower(suffix) == suffix
    ensures EndsWith(Lower(s), suffix)
  {
    LowerDrop(s, |s| - |suffix|);
  }

  predicate IsSeparator(c: char) {
    c == '/' || c == '\\'
  }

  /** `ntpath.splitdrive` finds a drive "X:" when the second character is a
      colon and the first is not a separator. */
  predicate HasDrive(p: string) {
    |p| >= 2 && p[1] == ':' && !IsSeparator(p[0])
  }

  /** The longest suffix of p that holds no separator. */
  function Tail(p: string): (t: string)
    ensures |t| <= |p| && t == p[|p| - |t|..]
    ensures forall i :: 0 <= i < |t| ==> !IsSeparator(t[i])
    ensures |t| < |p| ==> IsSeparator(p[|p| - |t| - 1])
    decreases |p|
  {
    if p == [] || IsSeparator(p[|p| - 1]) then []
    else
      var init := p[..|p| - 1];
      var t := Tail(init);
      assert init[|init| - |t|..] == t;
      t + [p[|p| - 1]]
  }

  /** `os.path.basename(p)` under Windows path rules: whatever follows the
      last separator, or the drive when there is no separator. */
  function Basename(p: string): (b: string)
    ensures EndsWith(p, b)
    ensures forall i :: 0 <= i < |b| ==> !IsSeparator(b[i])
    ensures |b| < |p| ==> IsSeparator(p[|p| - |b| - 1]) || (HasDrive(p) && |b| == |p| - 2)
    ensures HasDrive(p) ==> |b| <= |p| - 2
  {
    if HasDrive(p) then
      var b := Tail(p[2..]);
      assert p[2..][|p| - 2 - |b|..] == p[|p| - |b|..];
      b
    else Tail(p)
  }

  /** `os.path.join(dir, name)` for a directory that does not end in a
      separator and a name that is neither rooted nor drive-qualified. */
  function Join(dir: string, name: string): string {
    dir + "\\" + name
  }

  /** A string starts with each of its prefixes. */
  lemma PrefixOfPrefix(s: string, a: string, b: string)
    requires |a + b| <= |s| && s[..|a + b|] == a + b
    ensures s[..|a|] == a
  {
    assert s[..|a|] == s[..|a + b|][..|a|];
    assert (a + b)[..|a|] == a;
  }

  /** A joined path starts with its directory. */
  lemma JoinPrefix(dir: string, name: string)
    ensures Join(dir, name)[..|dir|] == dir
  {
  }

  /** Joining onto one directory, names with a common suffix give one path
      exactly when their heads are equal. */
  lemma JoinInjective(dir: string, a: string, b: string, suffix: string)
    ensures Join(dir, a + suffix) == Join(dir, b + suffix) <==> a == b
  {
    var ja, jb := Join(dir, a + suffix), Join(dir, b + suffix);
    if ja == jb {
      assert ja[|dir| + 1..|ja| - |suffix|] == a;
      assert jb[|dir| + 1..|jb| - |suffix|] == b;
    }
  }

  predicate NoSeparator(s: string) {
    forall i :: 0 <= i < |s| ==> !IsSeparator(s[i])
  }

  /** A name without separators or drive is its own base name. */
  lemma BasenameOfName(name: string)
    requires NoSeparator(name) && !HasDrive(name)
    ensures Basename(name) == name
  {
  }

  /** The base name of a directory path ending in a separator followed by a
      name without separators is that name. */
  lemma BasenameAfterSeparator(dir: string, name: string)
    requires |dir| >= 2 && IsSeparator(dir[|dir| - 1]) && NoSeparator(name)
    ensures Basename(dir + name) == name
  {
    var p := dir + name;
    assert p[|p| - |name|..] == name;
  }
}
