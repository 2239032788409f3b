/**
 * `_normalizar_hora` (d_generar_json_unico.py): a 12-hour or 24-hour clock
 * text is tidied, tried against six `strptime` formats in order, and written
 * back as 24-hour `HH:MM:SS`.
 *
 * `strptime` is modelled on the regular expressions CPython builds for the
 * directives (`%I` is `1[0-2]|0[1-9]|[1-9]`, `%H` is `2[0-3]|[01]\d|\d`, `%M`
 * is `[0-5]\d|\d`, `%S` is `6[01]|[0-5]\d|\d`, `%p` is `am|pm` in the C locale,
 * a blank in the format is `\s+`), matched case-insensitively against the
 * whole text; `datetime` then rejects seconds 60 and 61.
 */
module Horas {
  import opened Wrappers
  import opened Text
  import opened Fechas

  // ---------------------------------------------------------------------------
  // Clock values

  datatype Clock = Clock(hour: nat, minute: nat, second: nat)

  predicate ValidClock(c: Clock) {
    c.hour < 24 && c.minute < 60 && c.second < 60
  }

  /** `strftime("%H:%M:%S")`. */
  function ClockText(c: Clock): (r: string)
    requires ValidClock(c)
    ensures |r| == 8 && r[2] == ':' && r[5] == ':'
  {
    Pad2(c.hour) + ":" + Pad2(c.minute) + ":" + Pad2(c.second)
  }

  // ---------------------------------------------------------------------------
  // strptime formats

  datatype Directive = Hour12 | Hour24 | Minute | Second | AmPm | Colon | Blank

  /** The formats of lines 125-132, in the order they are tried. */
  function Formats(): seq<seq<Directive>> {
    [ [Hour12, Colon, Minute, Blank, AmPm],
      [Hour12, Colon, Minute, AmPm],
      [Hour12, Colon, Minute, Colon, Second, Blank, AmPm],
      [Hour12, Colon, Minute, Colon, Second, AmPm],
      [Hour24, Colon, Minute],
      [Hour24, Colon, Minute, Colon, Second] ]
  }

  /** `%I`. */
  predicate Hour12Text(t: string) {
    || (|t| == 2 && t[0] == '1' && '0' <= t[1] <= '2')
    || (|t| == 2 && t[0] == '0' && NonZeroDigit(t[1]))
    || (|t| == 1 && NonZeroDigit(t[0]))
  }

  /** `%H`. */
  predicate Hour24Text(t: string) {
    || (|t| == 2 && t[0] == '2' && '0' <= t[1] <= '3')
    || (|t| == 2 && (t[0] == '0' || t[0] == '1') && IsDigit(t[1]))
    || (|t| == 1 && IsDigit(t[0]))
  }

  /** `%M`. */
  predicate MinuteText(t: string) {
    || (|t| == 2 && '0' <= t[0] <= '5' && IsDigit(t[1]))
    || (|t| == 1 && IsDigit(t[0]))
  }

  /** `%S`: the minute forms, plus 60 and 61. */
  predicate SecondText(t: string) {
    || (|t| == 2 && t[0] == '6' && (t[1] == '0' || t[1] == '1'))
    || MinuteText(t)
  }

  predicate FieldText(d: Directive, t: string) {
    match d
    case Hour12 => Hour12Text(t)
    case Hour24 => Hour24Text(t)
    case Minute => MinuteText(t)
    case Second => SecondText(t)
    case _ => false
  }

  /** The most each numeric directive can read. */
  function FieldMax(d: Directive): nat {
    match d
    case Hour12 => 12
    case Hour24 => 23
    case Minute => 59
    case _ => 61
  }

  lemma FieldTextValue(d: Directive, t: string)
    requires FieldText(d, t)
    ensures AllDigits(t) && DigitsValue(t) <= FieldMax(d)
    ensures d == Hour12 ==> 1 <= DigitsValue(t)
  {
    if |t| == 1 {
      assert t == [t[0]];
      DigitsValue1(t[0]);
    } else {
      assert t == [t[0], t[1]];
      DigitsValue2(t[0], t[1]);
    }
  }

  /** What the directives matched so far have read. */
  datatype Fields = Fields(hour12: Option<nat>, hour24: Option<nat>, minute: nat, second: nat, pm: Option<bool>)

  const NoFields := Fields(None, None, 0, 0, None)

  predicate FieldsOk(fd: Fields) {
    && (fd.hour12.Some? ==> 1 <= fd.hour12.value <= 12)
    && (fd.hour24.Some? ==> fd.hour24.value <= 23)
    && fd.minute <= 59 && fd.second <= 61
  }

  function Store(acc: Fields, d: Directive, v: nat): Fields {
    match d
    case Hour12 => acc.(hour12 := Some(v))
    case Hour24 => acc.(hour24 := Some(v))
    case Minute => acc.(minute := v)
    case _ => acc.(second := v)
  }

  /** Length of the run of digits `s` starts with. */
  function DigitRun(s: string): (k: nat)
    ensures k <= |s| && AllDigits(s[..k])
    ensures k < |s| ==> !IsDigit(s[k])
  {
    if s != [] && IsDigit(s[0]) then
      var k := DigitRun(s[1..]);
      assert s[..k + 1] == [s[0]] + s[1..][..k];
      k + 1
    else 0
  }

  /**
   * Matches the whole of `s` against the directives `f`. No directive after a
   * numeric one can start with a digit, so a numeric directive reads exactly
   * the run of digits in front of it.
   */
  function MatchFormat(s: string, f: seq<Directive>, acc: Fields): (r: Option<Fields>)
    requires FieldsOk(acc)
    ensures r.Some? ==> FieldsOk(r.value)
    decreases |f|
  {
    if f == [] then (if s == [] then Some(acc) else None)
    else
      match f[0]
      case Colon =>
        if s != [] && s[0] == ':' then MatchFormat(s[1..], f[1..], acc) else None
      case Blank =>
        var t := TrimLeft(s, PySpace);
        if |t| < |s| then MatchFormat(t, f[1..], acc) else None
      case AmPm =>
        if |s| >= 2 && Lower(s[..2]) == "am" then MatchFormat(s[2..], f[1..], acc.(pm := Some(false)))
        else if |s| >= 2 && Lower(s[..2]) == "pm" then MatchFormat(s[2..], f[1..], acc.(pm := Some(true)))
        else None
      case _ =>
        var k := DigitRun(s);
        if FieldText(f[0], s[..k]) then
          FieldTextValue(f[0], s[..k]);
          MatchFormat(s[k..], f[1..], Store(acc, f[0], DigitsValue(s[..k])))
        else None
  }

  /** The hour `_strptime` derives: `%I` with `%p` (12 AM is 0, PM adds 12 except to 12), else `%H`. */
  function Hour(fd: Fields): nat {
    if fd.hour12.Some? then
      var h := fd.hour12.value;
      if fd.pm == Some(true) then (if h == 12 then 12 else h + 12)
      else (if h == 12 then 0 else h)
    else fd.hour24.GetOr(0)
  }

  /** `datetime(...)` on the fields read: seconds 60 and 61 are refused. */
  function ToClock(fd: Fields): (r: Option<Clock>)
    requires FieldsOk(fd)
    ensures r.Some? ==> ValidClock(r.value)
  {
    if fd.second <= 59 then Some(Clock(Hour(fd), fd.minute, fd.second)) else None
  }

  /** `datetime.strptime(h, fmt)`. */
  function ParseWith(h: string, fmt: seq<Directive>): (r: Option<Clock>)
    ensures r.Some? ==> ValidClock(r.value)
  {
    match MatchFormat(h, fmt, NoFields)
    case Some(fd) => ToClock(fd)
    case None => None
  }

  /** The first format that parses, as the loop of lines 134-139 finds it. */
  function ParseFirst(h: string, fmts: seq<seq<Directive>>): (r: Option<Clock>)
    ensures r.Some? ==> ValidClock(r.value)
  {
    if fmts == [] then None
    else
      match ParseWith(h, fmts[0])
      case Some(c) => Some(c)
      case None => ParseFirst(h, fmts[1..])
  }

  // ---------------------------------------------------------------------------
  // Lines 103-116: tidying the text

  predicate EndsMeridiem(h: string) {
    EndsWith(h, "AM") || EndsWith(h, "PM")
  }

  /** Line 109: a colon, possibly followed by blanks, right before a final AM/PM is dropped with the blanks. */
  function DropColonBeforeMeridiem(h: string): string {
    if EndsMeridiem(h) then
      var w := TrimRight(h[..|h| - 2], PySpace);
      if w != [] && w[|w| - 1] == ':' then w[..|w| - 1] + h[|h| - 2..] else h
    else h
  }

  /** Line 112: a final AM/PM right after a digit gets a space in front. */
  function SpaceAfterDigit(h: string): string {
    if EndsMeridiem(h) && |h| >= 3 && IsDigit(h[|h| - 3]) then h[..|h| - 2] + " " + h[|h| - 2..] else h
  }

  /** Line 113: the blanks before a final AM/PM become one space. */
  function OneSpaceBeforeMeridiem(h: string): string {
    if EndsMeridiem(h) then
      var w := TrimRight(h[..|h| - 2], PySpace);
      if |w| < |h| - 2 then w + " " + h[|h| - 2..] else h
    else h
  }

  /** Lines 103-116. */
  function Prepare(hora: string): string {
    var h := RemoveChar(Upper(Trim(hora, PySpace)), '.');
    Collapse(OneSpaceBeforeMeridiem(SpaceAfterDigit(DropColonBeforeMeridiem(h))), PySpace)
  }

  // ---------------------------------------------------------------------------
  // Lines 118-120: the "00:" hour fix

  /** `\b00:` at `p`. */
  predicate ZeroZeroAt(h: string, p: nat) {
    p + 3 <= |h| && h[p..p + 3] == "00:" && (p == 0 || !IsWordChar(h[p - 1]))
  }

  predicate Digits12(t: string) { 1 <= |t| <= 2 && AllDigits(t) }

  /** `\d{1,2}(?::\d{1,2})?`, matched whole. */
  predicate ClockDigits(u: string) {
    || Digits12(u)
    || (|u| >= 2 && u[1] == ':' && Digits12(u[..1]) && Digits12(u[2..]))
    || (|u| >= 3 && u[2] == ':' && Digits12(u[..2]) && Digits12(u[3..]))
  }

  /** `00:(\d{1,2})(?::\d{1,2})?\s*(AM|PM)$` matched from the start of `t`. */
  predicate MidnightTail(t: string) {
    StartsWith(t, "00:") && EndsMeridiem(t[3..]) && ClockDigits(TrimRight(t[3..|t| - 2], PySpace))
  }

  /** Line 119: `re.search` finds a match starting at `p` or later. */
  predicate SearchMidnight(h: string, p: nat)
    requires p <= |h|
    decreases |h| - p
  {
    (ZeroZeroAt(h, p) && MidnightTail(h[p..])) || (p < |h| && SearchMidnight(h, p + 1))
  }

  /** Line 120: where `re.sub(.., count=1)` rewrites, the first `\b00:` at `p` or later. */
  function FirstZeroZero(h: string, p: nat): (r: Option<nat>)
    requires p <= |h|
    ensures r.Some? ==> p <= r.value && ZeroZeroAt(h, r.value)
    ensures r.Some? ==> forall q | p <= q < r.value :: !ZeroZeroAt(h, q)
    decreases |h| - p
  {
    if ZeroZeroAt(h, p) then Some(p)
    else if p < |h| then FirstZeroZero(h, p + 1)
    else None
  }

  /**
   * Lines 119-120 as written: the search may match at the minutes of
   * "HH:00:SS AM", and the rewrite then turns those minutes into 12.
   */
  function MidnightFixAsWritten(h: string): string {
    if SearchMidnight(h, 0) then
      match FirstZeroZero(h, 0)
      case Some(q) => h[..q] + "12:" + h[q + 3..]
      case None => h
    else h
  }

  /** The intended fix: only an hour field "00" in front of AM/PM becomes "12". */
  function MidnightFix(h: string): string {
    if MidnightTail(h) then "12:" + h[3..] else h
  }

  // ---------------------------------------------------------------------------
  // _normalizar_hora

  /** `_normalizar_hora`, with the hour fix as intended. */
  function NormalizeTime(hora: Option<string>): (r: Option<string>)
    ensures hora.None? || hora == Some("") ==> r.None?
    ensures r.Some? ==> exists c :: ValidClock(c) && r.value == ClockText(c)
    ensures r.Some? ==> |r.value| == 8 && r.value[2] == ':' && r.value[5] == ':'
  {
    if hora.None? || hora.value == "" then None
    else
      match ParseFirst(MidnightFix(Prepare(hora.value)), Formats())
      case Some(c) => Some(ClockText(c))
      case None => None
  }

  /** `_normalizar_hora` exactly as lines 99-141 are written. */
  function NormalizeTimeAsWritten(hora: Option<string>): (r: Option<string>)
    ensures r.Some? ==> exists c :: ValidClock(c) && r.value == ClockText(c)
    ensures r.Some? ==> |r.value| == 8 && r.value[2] == ':' && r.value[5] == ':'
  {
    if hora.None? || hora.value == "" then None
    else
      match ParseFirst(MidnightFixAsWritten(Prepare(hora.value)), Formats())
      case Some(c) => Some(ClockText(c))
      case None => None
  }

  /** The loop over the candidate formats (lines 134-141). */
  method NormalizarHora(hora: Option<string>) returns (r: Option<string>)
    ensures r == NormalizeTime(hora)
  {
    if hora.None? || hora.value == "" {
      return None;
    }
    var h := MidnightFix(Prepare(hora.value));
    var formatos := Formats();
    for k := 0 to |formatos|
      invariant ParseFirst(h, formatos) == ParseFirst(h, formatos[k..])
    {
      assert formatos[k..][1..] == formatos[k + 1..];
      var c := ParseWith(h, formatos[k]);
      if c.Some? {
        return Some(ClockText(c.value));
      }
    }
    return None;
  }
}
