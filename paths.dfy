/**
 * File-name arithmetic the scripts rely on: the last path component, `.stem`,
 * `.suffix`, `os.path.splitext` on a bare file name, and `str.rsplit(".", 1)[0]`.
 */
module Paths {
  import opened Wrappers

  /** Index of the last occurrence of `c` in `s` (`str.rfind`), if any. */
  function LastIndexOf(s: string, c: char): (r: Option<nat>)
    ensures r.Some? ==> r.value < |s| && s[r.value] == c && c !in s[r.value + 1..]
    ensures r.None? ==> c !in s
  {
    if s == [] then None
    else if s[|s| - 1] == c then Some(|s| - 1)
    else
      var r := LastIndexOf(s[..|s| - 1], c);
      assert s == s[..|s| - 1] + [s[|s| - 1]];
      r
  }

  /**
   * The text after the last '/'. This is `PurePath(s).name` on the paths the
   * scripts build; pathlib differs on "." (empty name) and on a trailing '/'
   * (the last component before it).
   */
  function BaseName(s: string): (r: string)
    ensures '/' !in r && EndsWithSeq(s, r)
  {
    match LastIndexOf(s, '/')
    case Some(i) => s[i + 1..]
    case None => s
  }

  predicate EndsWithSeq(s: string, t: string) { |t| <= |s| && s[|s| - |t|..] == t }

  /** Where pathlib splits a name into stem and suffix: the last '.', if it is neither first nor last. */
  function SuffixStart(name: string): (r: Option<nat>)
    ensures r.Some? ==> 0 < r.value < |name| - 1 && name[r.value] == '.'
  {
    match LastIndexOf(name, '.')
    case Some(i) => if 0 < i < |name| - 1 then Some(i) else None
    case None => None
  }

  /** `PurePath(name).suffix`. */
  function Suffix(name: string): string {
    match SuffixStart(name)
    case Some(i) => name[i..]
    case None => ""
  }

  /** `PurePath(name).stem`. */
  function Stem(name: string): string {
    match SuffixStart(name)
    case Some(i) => name[..i]
    case None => name
  }

  /** A name is its stem followed by its suffix, and a non-empty suffix is one dot and at least one more character. */
  lemma StemSuffix(name: string)
    ensures Stem(name) + Suffix(name) == name
    ensures Suffix(name) == "" || (|Suffix(name)| >= 2 && Suffix(name)[0] == '.' && '.' !in Suffix(name)[1..])
  {
    match SuffixStart(name)
    case Some(i) =>
      assert name[..i] + name[i..] == name;
    case None =>
  }

  /** `str.rsplit(".", 1)[0]`: the text before the last '.', or all of it. */
  function BeforeLastDot(s: string): (r: string)
    ensures '.' in s ==> |r| < |s| && s[..|r|] == r && s[|r|] == '.' && '.' !in s[|r| + 1..]
    ensures '.' !in s ==> r == s
  {
    match LastIndexOf(s, '.')
    case Some(i) => s[..i]
    case None => s
  }

  /** `os.path.splitext(name)[0]` for a name without directory separators: leading dots never start an extension. */
  function SplitExtRoot(name: string): (r: string)
    ensures |r| <= |name| && name[..|r|] == r
  {
    match LastIndexOf(name, '.')
    case Some(i) =>
      if exists k | 0 <= k < i :: name[k] != '.' then name[..i] else name
    case None => name
  }
}
