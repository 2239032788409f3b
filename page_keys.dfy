/**
 * Page keys of the per-document JSON files (d_generar_json_unico.py):
 * Python's `int()` on a key, the sort key `_orden_pagina`, the canonical
 * form `_normalizar_pagina` and the id suffix `_formatear_pagina`.
 */
module PageKeys {
  import opened Wrappers
  import opened Text
  import opened Ordering

  // ---------------------------------------------------------------------------
  // Python int() on a str

  /** Decimal digits with single underscores between them, as `int()` accepts. */
  predicate Numeral(t: string) {
    && t != [] && IsDigit(t[0]) && IsDigit(t[|t| - 1])
    && (forall i | 0 <= i < |t| :: IsDigit(t[i]) || t[i] == '_')
    && (forall i | 0 <= i < |t| - 1 :: !(t[i] == '_' && t[i + 1] == '_'))
  }

  /** The value of an unsigned numeral, underscores ignored. */
  function ParseUnsigned(body: string): Option<nat> {
    if Numeral(body) then Some(DigitsValue(Filter(body, IsDigit))) else None
  }

  /** `int(s)`: `None` where Python raises `ValueError`. */
  function ParseInt(s: string): Option<int> {
    var t := Trim(s, PySpace);
    if t != [] && (t[0] == '-' || t[0] == '+') then
      match ParseUnsigned(t[1..])
      case Some(n) => Some(if t[0] == '-' then -(n as int) else n as int)
      case None => None
    else
      match ParseUnsigned(t)
      case Some(n) => Some(n as int)
      case None => None
  }

  lemma NoSpaceTrim(s: string)
    requires s == [] || (!PySpace(s[0]) && !PySpace(s[|s| - 1]))
    ensures Trim(s, PySpace) == s
  {
    if s != [] {
      TrimLeftOfClean(s, PySpace);
      TrimRightOfClean(s, PySpace);
    }
  }

  /** A canonical numeral reads back as the number it was printed from. */
  lemma {:induction false} DigitsNumeral(s: string)
    requires s != [] && AllDigits(s)
    ensures ParseUnsigned(s) == Some(DigitsValue(s))
  {
    FilterAll(s, IsDigit);
  }

  lemma {:induction false} NatParse(s: string)
    requires s != [] && AllDigits(s)
    ensures ParseInt(s) == Some(DigitsValue(s))
  {
    assert IsDigit(s[0]) && IsDigit(s[|s| - 1]);
    NoSpaceTrim(s);
    var t := Trim(s, PySpace);
    assert t == s;
    assert IsDigit(t[0]);
    DigitsNumeral(s);
  }

  /** `int(str(n)) == n` for every integer. */
  lemma {:induction false} IntToStringParses(n: int)
    ensures ParseInt(IntToString(n)) == Some(n)
  {
    var s := IntToString(n);
    if n >= 0 {
      NatParse(s);
    } else {
      var d := NatToString(-n);
      assert s == "-" + d;
      assert IsDigit(s[|s| - 1]);
      NoSpaceTrim(s);
      assert s[1..] == d;
      DigitsNumeral(d);
    }
  }

  // ---------------------------------------------------------------------------
  // _orden_pagina, _normalizar_pagina, _formatear_pagina

  /** First component of `_orden_pagina`: the integer value, or 0 for a non-numeric key. */
  function Rank(p: string): int {
    ParseInt(p).GetOr(0)
  }

  /** Python's comparison of the tuples `(Rank(p), p)`. */
  predicate PageLe(a: string, b: string) {
    Rank(a) < Rank(b) || (Rank(a) == Rank(b) && StrLe(a, b))
  }

  /** `_normalizar_pagina`: `str(int(p))`, or `p` when it is not an integer. */
  function NormalizePage(p: string): string {
    match ParseInt(p)
    case Some(n) => IntToString(n)
    case None => p
  }

  /** `f"{n:03d}"`: zero-padded to three characters, the sign counting as one. */
  function Format03(n: int): string {
    if n < 0 then "-" + ZeroPad(NatToString(-n), 2) else ZeroPad(NatToString(n), 3)
  }

  /** `_formatear_pagina`. */
  function FormatPage(p: string): string {
    var q := NormalizePage(p);
    match ParseInt(q)
    case Some(n) => "page" + Format03(n)
    case None => "page" + q
  }

  /** Page keys are totally ordered by `(rank, raw key)`, so `sorted` is fully determined. */
  lemma PageLeTotalOrder()
    ensures TotalPreorder(PageLe)
    ensures forall a, b :: PageLe(a, b) && PageLe(b, a) ==> a == b
  {
    StrLeTotalOrder();
  }

  /** Numeric keys sort by integer value, whatever their spelling. */
  lemma NumericKeysByValue(a: string, b: string, x: int, y: int)
    requires ParseInt(a) == Some(x) && ParseInt(b) == Some(y) && x < y
    ensures PageLe(a, b) && !PageLe(b, a)
  {
  }

  /** A non-numeric key ranks as 0, so it sorts before every positive page. */
  lemma NonNumericBeforePositive(a: string, b: string, y: int)
    requires ParseInt(a).None? && ParseInt(b) == Some(y) && y > 0
    ensures PageLe(a, b) && !PageLe(b, a)
  {
  }

  /**
   * Normalisation keeps the number a key denotes, leaves non-numeric keys as
   * they are, and is idempotent.
   */
  lemma {:induction false} NormalizePageKeepsValue(p: string)
    ensures ParseInt(NormalizePage(p)) == ParseInt(p)
    ensures ParseInt(p).None? ==> NormalizePage(p) == p
    ensures NormalizePage(NormalizePage(p)) == NormalizePage(p)
  {
    match ParseInt(p)
    case Some(n) => IntToStringParses(n);
    case None =>
  }

  /** Keys spelling the same number normalise to the same string. */
  lemma {:induction false} NormalizePageSameNumber(p: string, q: string)
    requires ParseInt(p).Some? && ParseInt(p) == ParseInt(q)
    ensures NormalizePage(p) == NormalizePage(q)
  {
  }

  /** Leading zeros are dropped: "007" normalises to "7". */
  lemma {:induction false} NormalizePageDropsLeadingZeros(z: string, n: nat)
    requires forall k | 0 <= k < |z| :: z[k] == '0'
    ensures NormalizePage(z + NatToString(n)) == NatToString(n)
  {
    var d := NatToString(n);
    LeadingZerosValue(z, d);
    NatParse(z + d);
  }

  /**
   * A non-negative page is formatted as "page" and its number padded to three
   * digits; padding never truncates, so the number can be read back.
   */
  lemma {:induction false} FormatPageNumeric(p: string, n: nat)
    requires ParseInt(p) == Some(n)
    ensures FormatPage(p) == "page" + ZeroPad(NatToString(n), 3)
    ensures |FormatPage(p)| >= 7 && AllDigits(FormatPage(p)[4..])
    ensures DigitsValue(FormatPage(p)[4..]) == n
  {
    NormalizePageKeepsValue(p);
    ZeroPadValue(NatToString(n), 3);
    assert FormatPage(p)[4..] == ZeroPad(NatToString(n), 3);
  }

  /** A non-numeric key is appended to "page" unchanged. */
  lemma {:induction false} FormatPageNonNumeric(p: string)
    requires ParseInt(p).None?
    ensures FormatPage(p) == "page" + p
  {
    NormalizePageKeepsValue(p);
  }

  /** Distinct non-negative pages get distinct formatted ids. */
  lemma {:induction false} FormatPageInjective(p: string, q: string, m: nat, n: nat)
    requires ParseInt(p) == Some(m) && ParseInt(q) == Some(n) && m != n
    ensures FormatPage(p) != FormatPage(q)
  {
    FormatPageNumeric(p, m);
    FormatPageNumeric(q, n);
  }
}
