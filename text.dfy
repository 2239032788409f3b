/**
 * Character classes and string helpers shared by the Python scripts and the
 * TypeScript front end. Python's `str.strip()`, `re` `\s` and JavaScript's `\s`,
 * `trim()` use different whitespace sets; both are written out here.
 */
module Text {
  import opened Wrappers

  /** Python `str.isspace()`; `\s` in a Python `str` pattern matches the same set. */
  predicate PySpace(c: char) {
    || c == ' '
    || ('\t' <= c <= '\r')
    || ('\U{1C}' <= c <= '\U{1F}')
    || c == '\U{85}' || c == '\U{A0}' || c == '\U{1680}'
    || ('\U{2000}' <= c <= '\U{200A}')
    || c == '\U{2028}' || c == '\U{2029}' || c == '\U{202F}' || c == '\U{205F}' || c == '\U{3000}'
  }

  /** ECMAScript WhiteSpace and LineTerminator: what `\s` and `trim()` use. */
  predicate JsSpace(c: char) {
    || c == ' '
    || ('\t' <= c <= '\r')
    || c == '\U{A0}' || c == '\U{1680}'
    || ('\U{2000}' <= c <= '\U{200A}')
    || c == '\U{2028}' || c == '\U{2029}' || c == '\U{202F}' || c == '\U{205F}' || c == '\U{3000}'
    || c == '\U{FEFF}'
  }

  predicate IsDigit(c: char) { '0' <= c <= '9' }

  predicate IsLetter(c: char) { ('a' <= c <= 'z') || ('A' <= c <= 'Z') }

  /** `\w` on ASCII text: letters, digits and underscore. */
  predicate IsWordChar(c: char) { IsLetter(c) || IsDigit(c) || c == '_' }

  predicate AllDigits(s: string) { forall i | 0 <= i < |s| :: IsDigit(s[i]) }

  lemma AllDigitsConcat(a: string, b: string)
    requires AllDigits(a) && AllDigits(b)
    ensures AllDigits(a + b)
  {
    forall i | 0 <= i < |a + b| ensures IsDigit((a + b)[i]) {
      if i < |a| { assert (a + b)[i] == a[i]; } else { assert (a + b)[i] == b[i - |a|]; }
    }
  }

  /** The length of the run of characters satisfying `p` that `s` starts with. */
  function Run(s: string, p: char -> bool): (k: nat)
    ensures k <= |s| && (forall i | 0 <= i < k :: p(s[i])) && (k < |s| ==> !p(s[k]))
  {
    if s != [] && p(s[0]) then
      var k := Run(s[1..], p);
      assert forall i | 1 <= i < k + 1 :: s[i] == s[1..][i - 1];
      k + 1
    else 0
  }

  /** A run ends at the first character that fails `p`. */
  lemma RunExact(s: string, p: char -> bool, k: nat)
    requires k <= |s| && (forall i | 0 <= i < k :: p(s[i])) && (k < |s| ==> !p(s[k]))
    ensures Run(s, p) == k
  {
  }

  function LowerChar(c: char): char {
    if 'A' <= c <= 'Z' then (c as int + 32) as char else c
  }

  function UpperChar(c: char): char {
    if 'a' <= c <= 'z' then (c as int - 32) as char else c
  }

  /** `str.lower()` / `toLowerCase()` on ASCII letters. */
  function Lower(s: string): (r: string)
    ensures |r| == |s| && forall i | 0 <= i < |s| :: r[i] == LowerChar(s[i])
  {
    seq(|s|, i requires 0 <= i < |s| => LowerChar(s[i]))
  }

  /** `str.upper()` on ASCII letters. */
  function Upper(s: string): (r: string)
    ensures |r| == |s| && forall i | 0 <= i < |s| :: r[i] == UpperChar(s[i])
  {
    seq(|s|, i requires 0 <= i < |s| => UpperChar(s[i]))
  }

  function Repeat(c: char, n: nat): (r: string)
    ensures |r| == n && forall i | 0 <= i < n :: r[i] == c
  {
    if n == 0 then [] else [c] + Repeat(c, n - 1)
  }

  predicate StartsWith(s: string, p: string) { |p| <= |s| && s[..|p|] == p }

  predicate EndsWith(s: string, p: string) { |p| <= |s| && s[|s| - |p|..] == p }

  /** Substring test: Python `p in s`, JavaScript `s.includes(p)`. */
  predicate Contains(s: string, p: string)
    decreases |s|
  {
    StartsWith(s, p) || (s != [] && Contains(s[1..], p))
  }

  lemma {:induction false} ContainsAt(s: string, p: string, i: nat)
    requires i + |p| <= |s| && s[i..i + |p|] == p
    ensures Contains(s, p)
    decreases i
  {
    if i > 0 {
      assert s[1..][i - 1..i - 1 + |p|] == p;
      ContainsAt(s[1..], p, i - 1);
    }
  }

  lemma {:induction false} ContainsWitness(s: string, p: string) returns (i: nat)
    requires Contains(s, p)
    ensures i + |p| <= |s| && s[i..i + |p|] == p
    decreases |s|
  {
    if StartsWith(s, p) {
      i := 0;
    } else {
      var j := ContainsWitness(s[1..], p);
      i := j + 1;
      assert s[i..i + |p|] == s[1..][j..j + |p|];
    }
  }

  /** Every occurrence of `a` replaced by `b` (`str.replace` of one character). */
  function ReplaceChar(s: string, a: char, b: char): (r: string)
    ensures |r| == |s| && forall i | 0 <= i < |s| :: r[i] == (if s[i] == a then b else s[i])
  {
    seq(|s|, i requires 0 <= i < |s| => if s[i] == a then b else s[i])
  }

  lemma ReplaceCharAbsent(s: string, a: char, b: char)
    requires a !in s
    ensures ReplaceChar(s, a, b) == s
  {
  }

  /** `str.replace(c, "")`. */
  function RemoveChar(s: string, c: char): (r: string)
    ensures c !in r && |r| <= |s|
    ensures forall x :: x != c ==> multiset(r)[x] == multiset(s)[x]
  {
    if s == [] then []
    else
      assert s == [s[0]] + s[1..];
      (if s[0] == c then [] else [s[0]]) + RemoveChar(s[1..], c)
  }

  /** A string without `c` is left as it is by removing `c`. */
  lemma {:induction false} RemoveCharAbsent(s: string, c: char)
    requires c !in s
    ensures RemoveChar(s, c) == s
  {
    if s != [] {
      assert s == [s[0]] + s[1..];
      RemoveCharAbsent(s[1..], c);
    }
  }

  /** Index of the first occurrence of `c` in `s` (`str.find`), if any. */
  function IndexOf(s: string, c: char): (r: Option<nat>)
    ensures r.Some? ==> r.value < |s| && s[r.value] == c && c !in s[..r.value]
    ensures r.None? ==> c !in s
  {
    if s == [] then None
    else if s[0] == c then Some(0)
    else
      match IndexOf(s[1..], c)
      case Some(i) =>
        assert s[..i + 1] == [s[0]] + s[1..][..i];
        Some(i + 1)
      case None =>
        assert s == [s[0]] + s[1..];
        None
  }

  /** `s.split(c)` for a one-character separator: always at least one part. */
  function Split(s: string, c: char): (r: seq<string>)
    ensures |r| >= 1
    decreases |s|
  {
    match IndexOf(s, c)
    case Some(i) => [s[..i]] + Split(s[i + 1..], c)
    case None => [s]
  }

  lemma SplitNoSep(x: string, c: char)
    requires c !in x
    ensures Split(x, c) == [x]
  {
  }

  /** Splitting at the first separator. */
  lemma {:induction false} SplitSep(x: string, y: string, c: char)
    requires c !in x
    ensures Split(x + [c] + y, c) == [x] + Split(y, c)
  {
    var s := x + [c] + y;
    assert s[|x|] == c;
    assert forall k | 0 <= k < |x| :: s[k] == x[k];
    assert s[..|x|] == x && s[|x| + 1..] == y;
  }

  /** Python `sep.join(parts)`. */
  function Join(parts: seq<string>, sep: string): string {
    if parts == [] then []
    else if |parts| == 1 then parts[0]
    else parts[0] + sep + Join(parts[1..], sep)
  }

  // ---------------------------------------------------------------------------
  // Whitespace trimming and collapsing

  /** Leading characters of class `ws` removed. */
  function TrimLeft(s: string, ws: char -> bool): (r: string)
    ensures |r| <= |s| && r == s[|s| - |r|..]
    ensures forall k | 0 <= k < |s| - |r| :: ws(s[k])
    ensures r == [] || !ws(r[0])
  {
    if s != [] && ws(s[0]) then TrimLeft(s[1..], ws) else s
  }

  /** Trailing characters of class `ws` removed. */
  function TrimRight(s: string, ws: char -> bool): (r: string)
    ensures |r| <= |s| && r == s[..|r|]
    ensures forall k | |r| <= k < |s| :: ws(s[k])
    ensures r == [] || !ws(r[|r| - 1])
  {
    if s != [] && ws(s[|s| - 1]) then TrimRight(s[..|s| - 1], ws) else s
  }

  /** `str.strip()` (with `PySpace`) and `String.prototype.trim()` (with `JsSpace`). */
  function Trim(s: string, ws: char -> bool): (r: string)
    ensures |r| <= |s|
    ensures r == [] || (!ws(r[0]) && !ws(r[|r| - 1]))
  {
    TrimRight(TrimLeft(s, ws), ws)
  }

  /** `re.sub(r"\s+", " ", s)` and `s.replace(/\s+/g, ' ')`: every maximal run of `ws` becomes one space. */
  function Collapse(s: string, ws: char -> bool): (r: string)
    ensures |r| <= |s|
    decreases |s|
  {
    if s == [] then []
    else if ws(s[0]) then " " + Collapse(TrimLeft(s[1..], ws), ws)
    else [s[0]] + Collapse(s[1..], ws)
  }

  /** The text only holds single spaces between non-blank characters. */
  predicate Tidy(s: string, ws: char -> bool) {
    && (forall i | 0 <= i < |s| :: ws(s[i]) ==> s[i] == ' ')
    && (forall i | 0 <= i < |s| - 1 :: !(s[i] == ' ' && s[i + 1] == ' '))
  }

  /** Trimmed and tidy: no blank at either end, single spaces between words. */
  predicate Clean(s: string, ws: char -> bool) {
    Tidy(s, ws) && (s == [] || (s[0] != ' ' && s[|s| - 1] != ' '))
  }

  lemma {:induction false} CollapseTidy(s: string, ws: char -> bool)
    requires ws(' ')
    ensures Tidy(Collapse(s, ws), ws)
    ensures Collapse(s, ws) == [] || (Collapse(s, ws)[0] == ' ' <==> ws(s[0]))
    decreases |s|
  {
    if s == [] {
    } else if ws(s[0]) {
      var t := TrimLeft(s[1..], ws);
      CollapseTidy(t, ws);
    } else {
      CollapseTidy(s[1..], ws);
    }
  }

  lemma {:induction false} CollapseOfTidy(s: string, ws: char -> bool)
    requires Tidy(s, ws)
    ensures Collapse(s, ws) == s
    decreases |s|
  {
    if s == [] {
    } else if ws(s[0]) {
      assert s[0] == ' ';
      var t := TrimLeft(s[1..], ws);
      assert s[1..] == [] || !ws(s[1]);
      assert t == s[1..];
      CollapseOfTidy(s[1..], ws);
    } else {
      CollapseOfTidy(s[1..], ws);
    }
  }

  lemma {:induction false} TrimLeftOfClean(s: string, ws: char -> bool)
    requires s == [] || !ws(s[0])
    ensures TrimLeft(s, ws) == s
  {
  }

  lemma TrimLeftBlank(c: char, s: string, ws: char -> bool)
    requires ws(c)
    ensures TrimLeft([c] + s, ws) == TrimLeft(s, ws)
  {
    assert ([c] + s)[1..] == s;
  }

  lemma {:induction false} TrimRightOfClean(s: string, ws: char -> bool)
    requires s == [] || !ws(s[|s| - 1])
    ensures TrimRight(s, ws) == s
  {
  }

  lemma {:induction false} TrimLeftTidy(s: string, ws: char -> bool)
    requires Tidy(s, ws)
    ensures Tidy(TrimLeft(s, ws), ws)
  {
    var r := TrimLeft(s, ws);
    var d := |s| - |r|;
    forall i | 0 <= i < |r| ensures r[i] == s[d + i] { }
  }

  lemma {:induction false} TrimRightTidy(s: string, ws: char -> bool)
    requires Tidy(s, ws)
    ensures Tidy(TrimRight(s, ws), ws)
  {
  }

  /** The words of a clean text are its only content, so cleaning it again changes nothing. */
  lemma {:induction false} CleanFixpoint(s: string, ws: char -> bool)
    requires ws(' ') && Clean(s, ws)
    ensures Trim(Collapse(s, ws), ws) == s
  {
    CollapseOfTidy(s, ws);
    if s != [] {
      assert !ws(s[0]) && !ws(s[|s| - 1]);
    }
    TrimLeftOfClean(s, ws);
    TrimRightOfClean(s, ws);
  }

  /** Collapsing then trimming always yields clean text. */
  lemma {:induction false} TrimCollapseClean(s: string, ws: char -> bool)
    requires ws(' ')
    ensures Clean(Trim(Collapse(s, ws), ws), ws)
  {
    var c := Collapse(s, ws);
    CollapseTidy(s, ws);
    TrimLeftTidy(c, ws);
    TrimRightTidy(TrimLeft(c, ws), ws);
  }

  /** Collapsing only brings in spaces: a class that holds for `s` and for ' ' holds for the result. */
  lemma {:induction false} CollapseKeeps(s: string, ws: char -> bool, p: char -> bool)
    requires p(' ') && forall i | 0 <= i < |s| :: p(s[i])
    ensures forall i | 0 <= i < |Collapse(s, ws)| :: p(Collapse(s, ws)[i])
    decreases |s|
  {
    if s != [] {
      if ws(s[0]) {
        var t := TrimLeft(s[1..], ws);
        assert forall i | 0 <= i < |t| :: t[i] == s[1..][|s| - 1 - |t| + i];
        CollapseKeeps(t, ws, p);
      } else {
        CollapseKeeps(s[1..], ws, p);
      }
    }
  }

  /** Trimming keeps a slice of the text, so a class that holds for `s` holds for the result. */
  lemma TrimKeeps(s: string, ws: char -> bool, p: char -> bool)
    requires forall i | 0 <= i < |s| :: p(s[i])
    ensures forall i | 0 <= i < |Trim(s, ws)| :: p(Trim(s, ws)[i])
  {
    var l := TrimLeft(s, ws);
    assert forall i | 0 <= i < |l| :: l[i] == s[|s| - |l| + i];
  }

  // ---------------------------------------------------------------------------
  // Decimal numerals

  function DigitValue(c: char): nat
    requires IsDigit(c)
  {
    c as int - '0' as int
  }

  function DigitChar(d: nat): (c: char)
    requires d < 10
    ensures IsDigit(c) && DigitValue(c) == d
  {
    ('0' as int + d) as char
  }

  /** The value of a string of decimal digits, most significant first. */
  function DigitsValue(s: string): nat
    requires AllDigits(s)
  {
    if s == [] then 0 else 10 * DigitsValue(s[..|s| - 1]) + DigitValue(s[|s| - 1])
  }

  /** Python `str(n)` for a natural number: the shortest decimal numeral. */
  function NatToString(n: nat): (r: string)
    ensures 1 <= |r| && AllDigits(r)
    ensures DigitsValue(r) == n
    ensures r[0] == '0' ==> n == 0
  {
    if n < 10 then [DigitChar(n)]
    else
      var p := NatToString(n / 10);
      assert (p + [DigitChar(n % 10)])[..|p|] == p;
      p + [DigitChar(n % 10)]
  }

  /** Python `str(i)` for any integer. */
  function IntToString(i: int): (r: string)
    ensures |r| >= 1
  {
    if i < 0 then "-" + NatToString(-i) else NatToString(i)
  }

  lemma {:induction false} ZerosValue(z: string)
    requires forall k | 0 <= k < |z| :: z[k] == '0'
    ensures AllDigits(z) && DigitsValue(z) == 0
  {
    if z != [] {
      ZerosValue(z[..|z| - 1]);
    }
  }

  /** Leading zeros do not change the value of a numeral. */
  lemma {:induction false} LeadingZerosValue(z: string, s: string)
    requires forall k | 0 <= k < |z| :: z[k] == '0'
    requires AllDigits(s)
    ensures AllDigits(z + s) && DigitsValue(z + s) == DigitsValue(s)
  {
    if s == [] {
      assert z + s == z;
      ZerosValue(z);
    } else {
      var t := s[..|s| - 1];
      LeadingZerosValue(z, t);
      assert (z + s)[..|z + s| - 1] == z + t;
    }
  }

  /** Left-pad with '0' to at least `width` characters (`zfill`, `:0Nd` on a non-negative number). */
  function ZeroPad(s: string, width: nat): (r: string)
    ensures |r| == if |s| < width then width else |s|
    ensures EndsWith(r, s)
    ensures forall k | 0 <= k < |r| - |s| :: r[k] == '0'
  {
    if |s| < width then Repeat('0', width - |s|) + s else s
  }

  /** Padding never truncates: the padded numeral still denotes the same number. */
  lemma {:induction false} ZeroPadValue(s: string, width: nat)
    requires AllDigits(s)
    ensures AllDigits(ZeroPad(s, width)) && DigitsValue(ZeroPad(s, width)) == DigitsValue(s)
  {
    if |s| < width {
      LeadingZerosValue(Repeat('0', width - |s|), s);
    }
  }
}
