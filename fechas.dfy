/**
 * `_normalizar_fecha` (d_generar_json_unico.py): a day/month/year text is
 * cleaned, read with `datetime.strptime(.., "%d/%m/%Y")` and written back as
 * ISO `YYYY-MM-DD`.
 *
 * `strptime` is modelled on the regular expression CPython builds for the
 * format: `%d` is `3[01]|[12]\d|0[1-9]|[1-9]| [1-9]`, `%m` is
 * `1[0-2]|0[1-9]|[1-9]`, `%Y` is four digits, and the whole text must match;
 * the date must then exist in the proleptic Gregorian calendar.
 */
module Fechas {
  import opened Wrappers
  import opened Text
  import opened Ordering

  // ---------------------------------------------------------------------------
  // Fixed-width numerals (`%02d`, `%04d`)

  lemma DigitsValue1(x: char)
    requires IsDigit(x)
    ensures DigitsValue([x]) == DigitValue(x)
  {
    assert [x][..0] == [];
  }

  lemma DigitsValue2(x: char, y: char)
    requires IsDigit(x) && IsDigit(y)
    ensures DigitsValue([x, y]) == 10 * DigitValue(x) + DigitValue(y)
  {
    assert [x, y][..1] == [x];
    DigitsValue1(x);
  }

  function Pad2(n: nat): (r: string)
    requires n < 100
    ensures |r| == 2 && AllDigits(r) && DigitsValue(r) == n
  {
    DigitsValue2(DigitChar(n / 10), DigitChar(n % 10));
    [DigitChar(n / 10), DigitChar(n % 10)]
  }

  lemma {:induction false} DigitsValueAppend2(a: string, b: string)
    requires AllDigits(a) && AllDigits(b) && |b| == 2
    ensures AllDigits(a + b) && DigitsValue(a + b) == 100 * DigitsValue(a) + DigitsValue(b)
  {
    var s := a + b;
    assert s[..|s| - 1] == a + [b[0]];
    assert s[|s| - 1] == b[1];
    assert (a + [b[0]])[..|a|] == a;
    assert DigitsValue(a + [b[0]]) == 10 * DigitsValue(a) + DigitValue(b[0]);
    assert b == [b[0], b[1]];
    DigitsValue2(b[0], b[1]);
  }

  function Pad4(n: nat): (r: string)
    requires n < 10000
    ensures |r| == 4 && AllDigits(r) && DigitsValue(r) == n
  {
    DigitsValueAppend2(Pad2(n / 100), Pad2(n % 100));
    Pad2(n / 100) + Pad2(n % 100)
  }

  // ---------------------------------------------------------------------------
  // Calendar

  datatype Date = Date(year: nat, month: nat, day: nat)

  predicate LeapYear(y: nat) {
    y % 4 == 0 && (y % 100 != 0 || y % 400 == 0)
  }

  function DaysInMonth(m: nat, y: nat): nat
    requires 1 <= m <= 12
  {
    if m == 2 then (if LeapYear(y) then 29 else 28)
    else if m == 4 || m == 6 || m == 9 || m == 11 then 30
    else 31
  }

  /** What `datetime.date(year, month, day)` accepts (four-digit years only reach 9999). */
  predicate ValidDate(d: Date) {
    1 <= d.year <= 9999 && 1 <= d.month <= 12 && 1 <= d.day <= DaysInMonth(d.month, d.year)
  }

  /** `strftime("%Y-%m-%d")`. */
  function IsoDate(d: Date): (r: string)
    requires ValidDate(d)
    ensures |r| == 10 && r[4] == '-' && r[7] == '-'
  {
    Pad4(d.year) + "-" + Pad2(d.month) + "-" + Pad2(d.day)
  }

  // ---------------------------------------------------------------------------
  // The fields strptime accepts

  predicate NonZeroDigit(c: char) { '1' <= c <= '9' }

  /** `%d`. */
  predicate DayText(t: string) {
    || (|t| == 2 && t[0] == '3' && (t[1] == '0' || t[1] == '1'))
    || (|t| == 2 && (t[0] == '1' || t[0] == '2') && IsDigit(t[1]))
    || (|t| == 2 && t[0] == '0' && NonZeroDigit(t[1]))
    || (|t| == 1 && NonZeroDigit(t[0]))
    || (|t| == 2 && t[0] == ' ' && NonZeroDigit(t[1]))
  }

  /** `%m`. */
  predicate MonthText(t: string) {
    || (|t| == 2 && t[0] == '1' && '0' <= t[1] <= '2')
    || (|t| == 2 && t[0] == '0' && NonZeroDigit(t[1]))
    || (|t| == 1 && NonZeroDigit(t[0]))
  }

  /** `%Y`. */
  predicate YearText(t: string) {
    |t| == 4 && AllDigits(t)
  }

  /** The digits of a field, without the blank `%d` allows before a single digit. */
  function FieldDigits(t: string): string {
    if t != [] && t[0] == ' ' then t[1..] else t
  }

  /** `int(field)` for a matched field. */
  function FieldValue(t: string): nat
    requires AllDigits(FieldDigits(t))
  {
    DigitsValue(FieldDigits(t))
  }

  lemma DayTextValue(t: string)
    requires DayText(t)
    ensures AllDigits(FieldDigits(t)) && 1 <= FieldValue(t) <= 31
  {
    var f := FieldDigits(t);
    if |f| == 1 {
      assert f == [f[0]];
      DigitsValue1(f[0]);
    } else {
      assert f == [f[0], f[1]];
      DigitsValue2(f[0], f[1]);
    }
  }

  lemma MonthTextValue(t: string)
    requires MonthText(t)
    ensures AllDigits(FieldDigits(t)) && 1 <= FieldValue(t) <= 12
  {
    if |t| == 1 {
      assert t == [t[0]];
      DigitsValue1(t[0]);
    } else {
      assert t == [t[0], t[1]];
      DigitsValue2(t[0], t[1]);
    }
  }

  /**
   * `datetime.strptime(f, "%d/%m/%Y")`. No field can contain '/', so the three
   * fields are exactly the parts of `f` between slashes.
   */
  function StrptimeDMY(f: string): (r: Option<Date>)
    ensures r.Some? ==> ValidDate(r.value)
  {
    var parts := Split(f, '/');
    if |parts| == 3 && DayText(parts[0]) && MonthText(parts[1]) && YearText(parts[2]) then
      DayTextValue(parts[0]);
      MonthTextValue(parts[1]);
      var d := Date(DigitsValue(parts[2]), FieldValue(parts[1]), FieldValue(parts[0]));
      if ValidDate(d) then Some(d) else None
    else None
  }

  // ---------------------------------------------------------------------------
  // _normalizar_fecha

  /** `re.sub(r"\s+", "", s)`: every whitespace character removed. */
  function RemoveBlanks(s: string): string {
    if s == [] then [] else (if PySpace(s[0]) then [] else [s[0]]) + RemoveBlanks(s[1..])
  }

  lemma {:induction false} RemoveBlanksNone(s: string)
    requires forall i | 0 <= i < |s| :: '!' <= s[i] <= '~'
    ensures RemoveBlanks(s) == s
  {
    if s != [] {
      assert !PySpace(s[0]);
      RemoveBlanksNone(s[1..]);
    }
  }

  /** '-' and '.' turned into '/'. */
  function Slashes(s: string): string {
    ReplaceChar(ReplaceChar(s, '-', '/'), '.', '/')
  }

  /** Lines 77-83: strip, '-' and '.' to '/', then every whitespace character removed. */
  function CleanDate(f: string): string {
    RemoveBlanks(Slashes(Trim(f, PySpace)))
  }

  /** Lines 86-89: with exactly three parts and a two-digit last part, the year gets a "20" prefix. */
  function ExpandYear(f: string): string {
    var parts := Split(f, '/');
    if |parts| == 3 && |parts[2]| == 2 then parts[0] + "/" + parts[1] + "/" + ("20" + parts[2]) else f
  }

  /** `_normalizar_fecha`: `None` for a missing or empty text and for anything strptime rejects. */
  function NormalizeDate(fecha: Option<string>): (r: Option<string>)
    ensures fecha.None? || fecha == Some("") ==> r.None?
    ensures r.Some? ==> exists d :: ValidDate(d) && r.value == IsoDate(d)
    ensures r.Some? ==> |r.value| == 10 && r.value[4] == '-' && r.value[7] == '-'
  {
    if fecha.None? || fecha.value == "" then None
    else
      match StrptimeDMY(ExpandYear(CleanDate(fecha.value)))
      case Some(d) => Some(IsoDate(d))
      case None => None
  }

  // ---------------------------------------------------------------------------
  // Blanks anywhere in the text (line 83)

  predicate BlankFree(s: string) { forall i | 0 <= i < |s| :: !PySpace(s[i]) }

  lemma {:induction false} RemoveBlanksFree(s: string)
    ensures BlankFree(RemoveBlanks(s))
  {
    if s != [] {
      RemoveBlanksFree(s[1..]);
      var head: string := if PySpace(s[0]) then [] else [s[0]];
      var rest := RemoveBlanks(s[1..]);
      assert RemoveBlanks(s) == head + rest;
      assert BlankFree(head);
      forall i | 0 <= i < |head + rest| ensures !PySpace((head + rest)[i]) {
        if i >= |head| {
          assert (head + rest)[i] == rest[i - |head|];
        }
      }
    }
  }

  lemma {:induction false} RemoveBlanksKeeps(s: string)
    requires BlankFree(s)
    ensures RemoveBlanks(s) == s
  {
    if s != [] {
      RemoveBlanksKeeps(s[1..]);
    }
  }

  lemma {:induction false} RemoveBlanksAppend(a: string, b: string)
    ensures RemoveBlanks(a + b) == RemoveBlanks(a) + RemoveBlanks(b)
  {
    if a != [] {
      var head: string := if PySpace(a[0]) then [] else [a[0]];
      assert (a + b)[0] == a[0] && (a + b)[1..] == a[1..] + b;
      assert RemoveBlanks(a + b) == head + RemoveBlanks(a[1..] + b);
      RemoveBlanksAppend(a[1..], b);
      assert RemoveBlanks(a) == head + RemoveBlanks(a[1..]);
    } else {
      assert a + b == b;
    }
  }

  /** Removing blanks commutes with a replacement between two non-blank characters. */
  lemma {:induction false} RemoveBlanksReplace(s: string, a: char, b: char)
    requires !PySpace(a) && !PySpace(b)
    ensures RemoveBlanks(ReplaceChar(s, a, b)) == ReplaceChar(RemoveBlanks(s), a, b)
  {
    if s != [] {
      var r := ReplaceChar(s, a, b);
      assert r[0] == (if s[0] == a then b else s[0]) && r[1..] == ReplaceChar(s[1..], a, b);
      RemoveBlanksReplace(s[1..], a, b);
      var head := if PySpace(s[0]) then [] else [s[0]];
      assert ReplaceChar(head + RemoveBlanks(s[1..]), a, b) == ReplaceChar(head, a, b) + ReplaceChar(RemoveBlanks(s[1..]), a, b);
    }
  }

  lemma {:induction false} RemoveBlanksTrimLeft(s: string)
    ensures RemoveBlanks(TrimLeft(s, PySpace)) == RemoveBlanks(s)
  {
    if s != [] && PySpace(s[0]) {
      RemoveBlanksTrimLeft(s[1..]);
    }
  }

  lemma {:induction false} RemoveBlanksTrimRight(s: string)
    ensures RemoveBlanks(TrimRight(s, PySpace)) == RemoveBlanks(s)
  {
    if s != [] && PySpace(s[|s| - 1]) {
      var n := |s| - 1;
      RemoveBlanksTrimRight(s[..n]);
      assert s == s[..n] + [s[n]];
      RemoveBlanksAppend(s[..n], [s[n]]);
    }
  }

  lemma RemoveBlanksSlashes(s: string)
    ensures RemoveBlanks(Slashes(s)) == Slashes(RemoveBlanks(s))
  {
    RemoveBlanksReplace(s, '-', '/');
    RemoveBlanksReplace(ReplaceChar(s, '-', '/'), '.', '/');
  }

  /** The cleaning is the separator mapping of the text without its blanks. */
  lemma CleanDateSlashes(s: string)
    ensures CleanDate(s) == Slashes(RemoveBlanks(s))
  {
    RemoveBlanksSlashes(Trim(s, PySpace));
    RemoveBlanksTrimLeft(s);
    RemoveBlanksTrimRight(TrimLeft(s, PySpace));
  }

  /** Line 83: the blank removal sees every blank, so blanks anywhere in the text do not matter. */
  lemma CleanDateIgnoresBlanks(s: string)
    ensures CleanDate(RemoveBlanks(s)) == CleanDate(s)
  {
    CleanDateSlashes(s);
    CleanDateSlashes(RemoveBlanks(s));
    RemoveBlanksFree(s);
    RemoveBlanksKeeps(RemoveBlanks(s));
  }

  /**
   * Lines 81-83: blanks between the numbers are removed, so a date
   * normalises as it would without any blank, wherever they stand.
   */
  lemma NormalizeDateIgnoresBlanks(s: string)
    ensures NormalizeDate(Some(s)) == NormalizeDate(Some(RemoveBlanks(s)))
  {
    CleanDateIgnoresBlanks(s);
    if s != [] && RemoveBlanks(s) == [] {
      assert CleanDate(s) == CleanDate([]) == [];
      assert Split([], '/') == [[]];
    }
  }

  // ---------------------------------------------------------------------------
  // Properties

  /** Day, month and year written with one separator character between them. */
  function DmyText(day: string, month: string, year: string, sep: char): string {
    day + [sep] + month + [sep] + year
  }

  predicate Separator(c: char) { c == '/' || c == '-' || c == '.' }

  /** What the two `replace` calls do to one character. */
  function SepToSlash(c: char): char {
    if c == '-' || c == '.' then '/' else c
  }

  /** `t` is `s` with every '-' and '.' turned into '/', and holds no blank. */
  predicate SepMapped(s: string, t: string) {
    |s| == |t| && forall i | 0 <= i < |s| :: t[i] == SepToSlash(s[i]) && '!' <= t[i] <= '~'
  }

  lemma SepMappedConcat(a: string, a': string, b: string, b': string)
    requires SepMapped(a, a') && SepMapped(b, b')
    ensures SepMapped(a + b, a' + b')
  {
    forall i | 0 <= i < |a| + |b|
      ensures (a' + b')[i] == SepToSlash((a + b)[i]) && '!' <= (a' + b')[i] <= '~'
    {
      if i >= |a| {
        assert (a + b)[i] == b[i - |a|] && (a' + b')[i] == b'[i - |a|];
      }
    }
  }

  lemma DigitsSepMapped(a: string)
    requires AllDigits(a)
    ensures SepMapped(a, a)
  {
    forall i | 0 <= i < |a| ensures a[i] == SepToSlash(a[i]) && '!' <= a[i] <= '~' {
      assert IsDigit(a[i]);
    }
  }

  lemma SepMappedCleans(s: string, t: string)
    requires SepMapped(s, t) && s != [] && '!' <= s[0] <= '~' && '!' <= s[|s| - 1] <= '~'
    ensures CleanDate(s) == t
  {
    TrimLeftOfClean(s, PySpace);
    TrimRightOfClean(s, PySpace);
    assert Trim(s, PySpace) == s;
    assert ReplaceChar(ReplaceChar(s, '-', '/'), '.', '/') == t;
    RemoveBlanksNone(t);
  }

  /** Digit fields with any accepted separator clean up to the slash form. */
  lemma {:induction false} CleanDmy(day: string, month: string, year: string, sep: char)
    requires AllDigits(day) && AllDigits(month) && AllDigits(year)
    requires day != [] && year != [] && Separator(sep)
    ensures CleanDate(DmyText(day, month, year, sep)) == DmyText(day, month, year, '/')
  {
    DigitsSepMapped(day);
    DigitsSepMapped(month);
    DigitsSepMapped(year);
    assert SepMapped([sep], ['/']);
    SepMappedConcat(day, day, [sep], ['/']);
    SepMappedConcat(day + [sep], day + ['/'], month, month);
    SepMappedConcat(day + [sep] + month, day + ['/'] + month, [sep], ['/']);
    SepMappedConcat(day + [sep] + month + [sep], day + ['/'] + month + ['/'], year, year);
    var s := DmyText(day, month, year, sep);
    assert s[0] == day[0] && s[|s| - 1] == year[|year| - 1];
    assert IsDigit(s[0]) && IsDigit(s[|s| - 1]);
    SepMappedCleans(s, DmyText(day, month, year, '/'));
  }

  /** Slash-separated fields split back into the three fields. */
  lemma {:induction false} SplitDmy(day: string, month: string, year: string)
    requires '/' !in day && '/' !in month && '/' !in year
    ensures Split(DmyText(day, month, year, '/'), '/') == [day, month, year]
  {
    assert DmyText(day, month, year, '/') == day + ['/'] + (month + ['/'] + year);
    SplitSep(day, month + ['/'] + year, '/');
    SplitSep(month, year, '/');
    SplitNoSep(year, '/');
  }

  lemma {:induction false} DigitsNoSlash(t: string)
    requires AllDigits(t)
    ensures '/' !in t
  {
    forall i | 0 <= i < |t| ensures t[i] != '/' {
      assert IsDigit(t[i]);
    }
  }

  /** What strptime makes of a text whose slash-separated parts are known. */
  lemma StrptimeFields(f: string, dd: string, mm: string, yy: string)
    requires Split(f, '/') == [dd, mm, yy]
    ensures StrptimeDMY(f) == StrptimeOf(dd, mm, yy)
  {
  }

  function StrptimeOf(dd: string, mm: string, yy: string): Option<Date> {
    if DayText(dd) && MonthText(mm) && YearText(yy) then
      DayTextValue(dd);
      MonthTextValue(mm);
      var d := Date(DigitsValue(yy), FieldValue(mm), FieldValue(dd));
      if ValidDate(d) then Some(d) else None
    else None
  }

  lemma ValidDateBounds(d: Date)
    requires ValidDate(d)
    ensures 1 <= d.month <= 12 && 1 <= d.day <= 31 && d.year < 10000
  {
  }

  lemma {:induction false} StrptimePadded(d: Date)
    requires 1 <= d.month <= 12 && 1 <= d.day <= 31 && d.year < 10000
    ensures StrptimeOf(Pad2(d.day), Pad2(d.month), Pad4(d.year)) == (if ValidDate(d) then Some(d) else None)
  {
    var dd, mm, yy := Pad2(d.day), Pad2(d.month), Pad4(d.year);
    assert DayText(dd) && MonthText(mm);
  }

  /** The three fields of a date, cleaned and split at the slashes. */
  lemma {:induction false} CleanSplit(dd: string, mm: string, yy: string, sep: char)
    requires AllDigits(dd) && AllDigits(mm) && AllDigits(yy) && dd != [] && yy != [] && Separator(sep)
    ensures CleanDate(DmyText(dd, mm, yy, sep)) == DmyText(dd, mm, yy, '/')
    ensures Split(DmyText(dd, mm, yy, '/'), '/') == [dd, mm, yy]
  {
    CleanDmy(dd, mm, yy, sep);
    DigitsNoSlash(dd);
    DigitsNoSlash(mm);
    DigitsNoSlash(yy);
    SplitDmy(dd, mm, yy);
  }

  /** The normalisation of a text, from what its cleaned form reads as. */
  lemma NormalizeDateVia(s: string, c: string)
    requires s != "" && CleanDate(s) == c
    ensures NormalizeDate(Some(s)) == match StrptimeDMY(ExpandYear(c)) case Some(d) => Some(IsoDate(d)) case None => None
  {
  }

  /** A valid date written as dd/mm/yyyy, dd-mm-yyyy or dd.mm.yyyy normalises to its ISO form. */
  lemma {:induction false} DateRoundTrip(d: Date, sep: char)
    requires ValidDate(d) && Separator(sep)
    ensures NormalizeDate(Some(DmyText(Pad2(d.day), Pad2(d.month), Pad4(d.year), sep))) == Some(IsoDate(d))
  {
    var dd, mm, yy := Pad2(d.day), Pad2(d.month), Pad4(d.year);
    var s := DmyText(dd, mm, yy, sep);
    var c := DmyText(dd, mm, yy, '/');
    CleanSplit(dd, mm, yy, sep);
    assert ExpandYear(c) == c;
    StrptimeFields(c, dd, mm, yy);
    ValidDateBounds(d);
    StrptimePadded(d);
    NormalizeDateVia(s, c);
  }

  lemma ExpandYearParts(c: string, a: string, b: string, y: string)
    requires Split(c, '/') == [a, b, y] && |y| == 2
    ensures ExpandYear(c) == DmyText(a, b, "20" + y, '/')
  {
  }

  lemma TwentyPrefix(n: nat)
    requires 2000 <= n < 2100
    ensures "20" + Pad2(n - 2000) == Pad4(n)
  {
    assert n / 100 == 20 && n % 100 == n - 2000;
    assert Pad2(20) == "20";
  }

  /** A two-digit year yy is read as 20yy. */
  lemma {:induction false} TwoDigitYear(d: Date, sep: char)
    requires ValidDate(d) && 2000 <= d.year < 2100 && Separator(sep)
    ensures NormalizeDate(Some(DmyText(Pad2(d.day), Pad2(d.month), Pad2(d.year - 2000), sep))) == Some(IsoDate(d))
  {
    var dd, mm, yy, yyyy := Pad2(d.day), Pad2(d.month), Pad2(d.year - 2000), Pad4(d.year);
    var c := DmyText(dd, mm, yy, '/');
    var e := DmyText(dd, mm, yyyy, '/');
    CleanSplit(dd, mm, yy, sep);
    ExpandYearParts(c, dd, mm, yy);
    TwentyPrefix(d.year);
    assert ExpandYear(c) == e;
    CleanSplit(dd, mm, yyyy, '/');
    StrptimeFields(e, dd, mm, yyyy);
    ValidDateBounds(d);
    StrptimePadded(d);
    NormalizeDateVia(DmyText(dd, mm, yy, sep), c);
  }

  /** A day that does not exist in its month (31 April, 29 February of a common year, year 0) gives `None`. */
  lemma {:induction false} InvalidDateRejected(d: Date, sep: char)
    requires 1 <= d.month <= 12 && 1 <= d.day <= 31 && d.year < 10000 && !ValidDate(d) && Separator(sep)
    ensures NormalizeDate(Some(DmyText(Pad2(d.day), Pad2(d.month), Pad4(d.year), sep))).None?
  {
    var dd, mm, yy := Pad2(d.day), Pad2(d.month), Pad4(d.year);
    var c := DmyText(dd, mm, yy, '/');
    CleanSplit(dd, mm, yy, sep);
    assert ExpandYear(c) == c;
    StrptimeFields(c, dd, mm, yy);
    StrptimePadded(d);
    NormalizeDateVia(DmyText(dd, mm, yy, sep), c);
  }

  /**
   * Normalisation is not idempotent: its own `YYYY-MM-DD` output reads as day
   * YYYY, which `%d` rejects.
   */
  lemma {:induction false} NormalizeDateNotIdempotent(fecha: Option<string>)
    requires NormalizeDate(fecha).Some?
    ensures NormalizeDate(NormalizeDate(fecha)).None?
  {
    var d :| ValidDate(d) && NormalizeDate(fecha).value == IsoDate(d);
    IsoDateRejected(d);
  }

  lemma {:induction false} IsoDateRejected(d: Date)
    requires ValidDate(d)
    ensures NormalizeDate(Some(IsoDate(d))).None?
  {
    var c := IsoCleansUp(d);
    ExpandedIsoRejected(d, c);
    NormalizeDateVia(IsoDate(d), c);
  }

  lemma {:induction false} IsoCleansUp(d: Date) returns (c: string)
    requires ValidDate(d)
    ensures CleanDate(IsoDate(d)) == c
    ensures c == DmyText(Pad4(d.year), Pad2(d.month), Pad2(d.day), '/')
  {
    c := DmyText(Pad4(d.year), Pad2(d.month), Pad2(d.day), '/');
    assert IsoDate(d) == DmyText(Pad4(d.year), Pad2(d.month), Pad2(d.day), '-');
    CleanSplit(Pad4(d.year), Pad2(d.month), Pad2(d.day), '-');
  }

  lemma {:induction false} ExpandedIsoRejected(d: Date, c: string)
    requires ValidDate(d) && c == DmyText(Pad4(d.year), Pad2(d.month), Pad2(d.day), '/')
    ensures StrptimeDMY(ExpandYear(c)).None?
  {
    ValidDateBounds(d);
    var yy, mm, dd := Pad4(d.year), Pad2(d.month), Pad2(d.day);
    var e := ExpandedSplit(yy, mm, dd, c);
    StrptimeFields(e, yy, mm, "20" + dd);
    assert !DayText(yy);
  }

  /** Expanding the two-digit last field of a cleaned date, and splitting the result again. */
  lemma {:induction false} ExpandedSplit(yy: string, mm: string, dd: string, c: string) returns (e: string)
    requires AllDigits(yy) && AllDigits(mm) && AllDigits(dd) && yy != [] && |dd| == 2
    requires c == DmyText(yy, mm, dd, '/')
    ensures ExpandYear(c) == e && Split(e, '/') == [yy, mm, "20" + dd]
  {
    var dd' := "20" + dd;
    e := DmyText(yy, mm, dd', '/');
    SplitDigits(yy, mm, dd);
    ExpandYearParts(c, yy, mm, dd);
    assert AllDigits("20");
    AllDigitsConcat("20", dd);
    SplitDigits(yy, mm, dd');
  }

  lemma {:induction false} SplitDigits(a: string, b: string, c: string)
    requires AllDigits(a) && AllDigits(b) && AllDigits(c)
    ensures Split(DmyText(a, b, c, '/'), '/') == [a, b, c]
  {
    DigitsNoSlash(a);
    DigitsNoSlash(b);
    DigitsNoSlash(c);
    SplitDmy(a, b, c);
  }

  /** Four-digit numerals with the same value are equal. */
  lemma {:induction false} FourDigitsUnique(a: string, b: string)
    requires |a| == 4 && |b| == 4 && AllDigits(a) && AllDigits(b) && DigitsValue(a) == DigitsValue(b)
    ensures a == b
  {
    SameLengthDigitsUnique(a, b);
  }

  lemma {:induction false} SameLengthDigitsUnique(a: string, b: string)
    requires |a| == |b| && AllDigits(a) && AllDigits(b) && DigitsValue(a) == DigitsValue(b)
    ensures a == b
    decreases |a|
  {
    if a != [] {
      var n := |a| - 1;
      assert DigitsValue(a) == 10 * DigitsValue(a[..n]) + DigitValue(a[n]);
      assert DigitsValue(b) == 10 * DigitsValue(b[..n]) + DigitValue(b[n]);
      LastDigitSplit(DigitsValue(a[..n]), DigitsValue(b[..n]), DigitValue(a[n]), DigitValue(b[n]));
      SameLengthDigitsUnique(a[..n], b[..n]);
      forall i | 0 <= i < |a| ensures a[i] == b[i] {
        if i < n { assert a[i] == a[..n][i] && b[i] == b[..n][i]; }
      }
    }
  }

  /** A decimal numeral's value determines its last digit and the value of the rest. */
  lemma LastDigitSplit(x: nat, y: nat, d: nat, e: nat)
    requires d < 10 && e < 10 && 10 * x + d == 10 * y + e
    ensures x == y && d == e
  {
    assert x < y ==> 10 * x + d < 10 * (x + 1) <= 10 * y;
    assert y < x ==> 10 * y + e < 10 * (y + 1) <= 10 * x;
  }

}
