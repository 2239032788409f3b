/**
 * What `_normalizar_hora` does to the clock texts it is written for: 12-hour
 * texts with AM/PM, the "00" hour before AM/PM, and 24-hour texts; and where
 * the hour fix as written goes wrong.
 */
module HorasProps {
  import opened Wrappers
  import opened Text
  import opened Fechas
  import opened Horas
  import opened Seqs

  // ---------------------------------------------------------------------------
  // Canonical clock texts

  function Meridiem(pm: bool): (r: string)
    ensures |r| == 2 && r[1] == 'M' && (r[0] == 'A' || r[0] == 'P')
  {
    if pm then "PM" else "AM"
  }

  function SecondsPart(sec: Option<nat>): string
    requires sec.Some? ==> sec.value < 60
  {
    match sec
    case Some(s) => ":" + Pad2(s)
    case None => ""
  }

  /** "HH:MM" or "HH:MM:SS", every field two digits. */
  function ClockBody(h: nat, m: nat, sec: Option<nat>): string
    requires h < 100 && m < 60 && (sec.Some? ==> sec.value < 60)
  {
    Pad2(h) + (":" + (Pad2(m) + SecondsPart(sec)))
  }

  /** "HH:MM AM", "HH:MM:SS PM" and so on. */
  function Twelve(h: nat, m: nat, sec: Option<nat>, pm: bool): string
    requires h < 100 && m < 60 && (sec.Some? ==> sec.value < 60)
  {
    ClockBody(h, m, sec) + (" " + Meridiem(pm))
  }

  /** The 24-hour hour of a 12-hour clock reading. */
  function To24(h: nat, pm: bool): (r: nat)
    requires 1 <= h <= 12
    ensures r < 24
  {
    if pm then (if h == 12 then 12 else h + 12) else (if h == 12 then 0 else h)
  }

  /** Digits and colons only, starting and ending with a digit. */
  predicate BodyChars(d: string) {
    d != [] && IsDigit(d[0]) && IsDigit(d[|d| - 1]) && DigitsColons(d)
  }

  predicate DigitsColons(s: string) {
    forall i | 0 <= i < |s| :: IsDigit(s[i]) || s[i] == ':'
  }

  lemma ClockBodyChars(h: nat, m: nat, sec: Option<nat>)
    requires h < 100 && m < 60 && (sec.Some? ==> sec.value < 60)
    ensures BodyChars(ClockBody(h, m, sec))
    ensures |ClockBody(h, m, sec)| == if sec.Some? then 8 else 5
  {
    var d := ClockBody(h, m, sec);
    assert forall i | 0 <= i < |Pad2(h)| :: IsDigit(Pad2(h)[i]);
    assert forall i | 0 <= i < |Pad2(m)| :: IsDigit(Pad2(m)[i]);
    if sec.Some? {
      assert forall i | 0 <= i < |Pad2(sec.value)| :: IsDigit(Pad2(sec.value)[i]);
    }
  }

  // ---------------------------------------------------------------------------
  // Tidying leaves canonical texts alone

  lemma UpperFixed(s: string)
    requires forall i | 0 <= i < |s| :: !('a' <= s[i] <= 'z')
    ensures Upper(s) == s
  {
  }

  lemma TrimRightOneSpace(d: string)
    requires d != [] && !PySpace(d[|d| - 1])
    ensures TrimRight(d + " ", PySpace) == d
  {
    assert (d + " ")[..|d|] == d;
    TrimRightOfClean(d, PySpace);
  }

  /** Where the only space of `d + " " + mer` is. */
  lemma OneSpaceAt(d: string, mer: string)
    requires mer == Meridiem(true) || mer == Meridiem(false)
    requires BodyChars(d)
    ensures var t := d + (" " + mer);
      && (forall i | 0 <= i < |t| :: PySpace(t[i]) ==> i == |d| && t[i] == ' ')
      && (forall i | 0 <= i < |t| :: !('a' <= t[i] <= 'z'))
  {
  }

  /** Lines 103-105 leave alone a text with no lower-case letter, no '.' and no blank at either end. */
  lemma PrepareHead(t: string)
    requires t != [] && !PySpace(t[0]) && !PySpace(t[|t| - 1])
    requires forall i | 0 <= i < |t| :: !('a' <= t[i] <= 'z') && t[i] != '.'
    ensures RemoveChar(Upper(Trim(t, PySpace)), '.') == t
  {
    TrimLeftOfClean(t, PySpace);
    TrimRightOfClean(t, PySpace);
    assert Trim(t, PySpace) == t;
    UpperFixed(t);
    RemoveCharAbsent(t, '.');
  }

  lemma PrepareVia(hora: string, t: string)
    requires RemoveChar(Upper(Trim(hora, PySpace)), '.') == t
    ensures Prepare(hora) == Collapse(OneSpaceBeforeMeridiem(SpaceAfterDigit(DropColonBeforeMeridiem(t))), PySpace)
  {
  }

  lemma EndsMeridiemOf(d: string, pm: bool)
    ensures var t := d + (" " + Meridiem(pm));
      EndsMeridiem(t) && t[|t| - 2..] == Meridiem(pm) && t[..|t| - 2] == d + " " && t[|t| - 3] == ' '
  {
    var t := d + (" " + Meridiem(pm));
    assert t[|t| - 2..] == Meridiem(pm);
    assert t[..|t| - 2] == d + " ";
  }

  /** Lines 109-113 leave "D AM" alone when D ends with a digit. */
  lemma MeridiemStepsKeep(d: string, pm: bool)
    requires BodyChars(d)
    ensures var t := d + (" " + Meridiem(pm));
      OneSpaceBeforeMeridiem(SpaceAfterDigit(DropColonBeforeMeridiem(t))) == t
  {
    var t := d + (" " + Meridiem(pm));
    EndsMeridiemOf(d, pm);
    TrimRightOneSpace(d);
    DropColonKeeps(d, t);
    SpaceAfterDigitKeeps(t);
    OneSpaceKeeps(d, t);
  }

  lemma DropColonKeeps(d: string, t: string)
    requires d != [] && IsDigit(d[|d| - 1]) && EndsMeridiem(t) && t[..|t| - 2] == d + " "
    requires TrimRight(d + " ", PySpace) == d
    ensures DropColonBeforeMeridiem(t) == t
  {
  }

  lemma SpaceAfterDigitKeeps(t: string)
    requires |t| >= 3 && t[|t| - 3] == ' '
    ensures SpaceAfterDigit(t) == t
  {
  }

  lemma OneSpaceKeeps(d: string, t: string)
    requires EndsMeridiem(t) && t[..|t| - 2] == d + " " && TrimRight(d + " ", PySpace) == d
    ensures OneSpaceBeforeMeridiem(t) == t
  {
    assert d + " " + t[|t| - 2..] == t[..|t| - 2] + t[|t| - 2..] == t;
  }

  /** "D AM" has no blank at either end, no lower-case letter, no '.', and a single space. */
  lemma TwelveChars(d: string, pm: bool)
    requires BodyChars(d)
    ensures var t := d + (" " + Meridiem(pm));
      && t != [] && !PySpace(t[0]) && !PySpace(t[|t| - 1])
      && (forall i | 0 <= i < |t| :: !('a' <= t[i] <= 'z') && t[i] != '.')
      && Text.Tidy(t, PySpace)
  {
    OneSpaceAt(d, Meridiem(pm));
  }

  lemma TwelveCollapse(d: string, pm: bool)
    requires BodyChars(d)
    ensures var t := d + (" " + Meridiem(pm));
      Collapse(t, PySpace) == t
  {
    TwelveChars(d, pm);
    CollapseOfTidy(d + (" " + Meridiem(pm)), PySpace);
  }

  lemma TwelveHead(d: string, pm: bool)
    requires BodyChars(d)
    ensures var t := d + (" " + Meridiem(pm));
      RemoveChar(Upper(Trim(t, PySpace)), '.') == t
  {
    TwelveChars(d, pm);
    PrepareHead(d + (" " + Meridiem(pm)));
  }

  lemma PrepareTwelve(d: string, pm: bool)
    requires BodyChars(d)
    ensures Prepare(d + (" " + Meridiem(pm))) == d + (" " + Meridiem(pm))
  {
    var t := d + (" " + Meridiem(pm));
    TwelveHead(d, pm);
    PrepareVia(t, t);
    MeridiemStepsKeep(d, pm);
    TwelveCollapse(d, pm);
  }

  lemma NotEndsMeridiem(d: string)
    requires d != [] && IsDigit(d[|d| - 1])
    ensures !EndsMeridiem(d)
  {
  }

  /** Lines 109-113 only touch texts that end in AM or PM. */
  lemma MeridiemStepsNone(h: string)
    requires !EndsMeridiem(h)
    ensures OneSpaceBeforeMeridiem(SpaceAfterDigit(DropColonBeforeMeridiem(h))) == h
  {
  }

  lemma BodyTidy(d: string)
    requires BodyChars(d)
    ensures Text.Tidy(d, PySpace)
  {
    forall i | 0 <= i < |d|
      ensures !PySpace(d[i])
    {
      assert IsDigit(d[i]) || d[i] == ':';
    }
  }

  lemma PrepareBody(d: string)
    requires BodyChars(d)
    ensures Prepare(d) == d
  {
    PrepareHead(d);
    PrepareVia(d, d);
    NotEndsMeridiem(d);
    MeridiemStepsNone(d);
    BodyTidy(d);
    CollapseOfTidy(d, PySpace);
  }

  // ---------------------------------------------------------------------------
  // One directive at a time

  lemma {:induction false} DigitRunOf(x: string, y: string)
    requires AllDigits(x) && (y == [] || !IsDigit(y[0]))
    ensures DigitRun(x + y) == |x|
    decreases |x|
  {
    if x != [] {
      assert (x + y)[1..] == x[1..] + y;
      DigitRunOf(x[1..], y);
    } else {
      assert x + y == y;
    }
  }

  lemma MatchField(x: string, y: string, f: seq<Directive>, acc: Fields)
    requires FieldsOk(acc) && f != [] && FieldText(f[0], x) && AllDigits(x)
    requires y == [] || !IsDigit(y[0])
    ensures FieldsOk(Store(acc, f[0], DigitsValue(x)))
    ensures MatchFormat(x + y, f, acc) == MatchFormat(y, f[1..], Store(acc, f[0], DigitsValue(x)))
  {
    FieldTextValue(f[0], x);
    DigitRunOf(x, y);
    assert (x + y)[..|x|] == x && (x + y)[|x|..] == y;
  }

  lemma MatchFieldFails(x: string, y: string, f: seq<Directive>, acc: Fields)
    requires FieldsOk(acc) && f != [] && (f[0] == Hour12 || f[0] == Hour24 || f[0] == Minute || f[0] == Second)
    requires AllDigits(x) && !FieldText(f[0], x)
    requires y == [] || !IsDigit(y[0])
    ensures MatchFormat(x + y, f, acc).None?
  {
    DigitRunOf(x, y);
    assert (x + y)[..|x|] == x;
  }

  lemma MatchColon(y: string, f: seq<Directive>, acc: Fields)
    requires FieldsOk(acc) && f != [] && f[0] == Colon
    ensures MatchFormat(":" + y, f, acc) == MatchFormat(y, f[1..], acc)
  {
    assert (":" + y)[1..] == y;
  }

  lemma TrimLeftSpace(y: string)
    requires y == [] || !PySpace(y[0])
    ensures TrimLeft(" " + y, PySpace) == y
  {
    assert (" " + y)[1..] == y;
    TrimLeftOfClean(y, PySpace);
  }

  lemma MatchBlank(y: string, f: seq<Directive>, acc: Fields)
    requires FieldsOk(acc) && f != [] && f[0] == Blank
    requires y == [] || !PySpace(y[0])
    ensures MatchFormat(" " + y, f, acc) == MatchFormat(y, f[1..], acc)
  {
    TrimLeftSpace(y);
  }

  lemma MatchMeridiem(pm: bool, f: seq<Directive>, acc: Fields)
    requires FieldsOk(acc) && f == [AmPm]
    ensures MatchFormat(Meridiem(pm), f, acc) == Some(acc.(pm := Some(pm)))
  {
    var s := Meridiem(pm);
    assert s[..2] == s;
    if pm {
      assert Lower(s) == "pm";
    } else {
      assert Lower(s) == "am";
    }
  }

  lemma DigitsColonsSuffix(s: string, k: nat)
    requires DigitsColons(s) && k <= |s|
    ensures DigitsColons(s[k..])
  {
    forall i | 0 <= i < |s[k..]| ensures IsDigit(s[k..][i]) || s[k..][i] == ':' {
      assert s[k..][i] == s[k + i];
    }
  }

  lemma MeridiemInRest(f: seq<Directive>)
    requires (AmPm in f || Blank in f) && f != [] && f[0] != AmPm && f[0] != Blank
    ensures AmPm in f[1..] || Blank in f[1..]
  {
    assert f == [f[0]] + f[1..];
  }

  lemma ColonStep(s: string, f: seq<Directive>, acc: Fields)
    requires FieldsOk(acc) && f != [] && f[0] == Colon
    ensures MatchFormat(s, f, acc) == if s != [] && s[0] == ':' then MatchFormat(s[1..], f[1..], acc) else None
  {
  }

  lemma FieldStep(s: string, f: seq<Directive>, acc: Fields, k: nat)
    requires FieldsOk(acc) && f != [] && f[0] != Colon && f[0] != Blank && f[0] != AmPm && k == DigitRun(s)
    ensures MatchFormat(s, f, acc).Some? ==> FieldText(f[0], s[..k])
    ensures FieldText(f[0], s[..k]) ==>
      (FieldsOk(Store(acc, f[0], DigitsValue(s[..k])))
       && MatchFormat(s, f, acc) == MatchFormat(s[k..], f[1..], Store(acc, f[0], DigitsValue(s[..k]))))
  {
    if FieldText(f[0], s[..k]) {
      FieldTextValue(f[0], s[..k]);
    }
  }

  /** A format with a blank or AM/PM never matches text made of digits and colons. */
  lemma {:induction false} DigitsNeverMatchMeridiem(s: string, f: seq<Directive>, acc: Fields)
    requires FieldsOk(acc) && (AmPm in f || Blank in f) && DigitsColons(s)
    ensures MatchFormat(s, f, acc).None?
    decreases |f|
  {
    if f[0] == Blank {
      if s != [] {
        assert !PySpace(s[0]);
      }
      MatchBlankFails(s, f, acc);
    } else if f[0] == AmPm {
      if |s| >= 2 {
        assert IsDigit(s[0]) || s[0] == ':';
      }
      MatchMeridiemFails(s, f, acc);
    } else {
      MeridiemInRest(f);
      if f[0] == Colon {
        ColonStep(s, f, acc);
        if s != [] && s[0] == ':' {
          DigitsColonsSuffix(s, 1);
          DigitsNeverMatchMeridiem(s[1..], f[1..], acc);
        }
      } else {
        var k := DigitRun(s);
        FieldStep(s, f, acc, k);
        if FieldText(f[0], s[..k]) {
          DigitsColonsSuffix(s, k);
          DigitsNeverMatchMeridiem(s[k..], f[1..], Store(acc, f[0], DigitsValue(s[..k])));
        }
      }
    }
  }

  // ---------------------------------------------------------------------------
  // Two-digit fields

  lemma Pad2Minute(n: nat)
    requires n < 60
    ensures MinuteText(Pad2(n)) && SecondText(Pad2(n))
  {
  }

  lemma Pad2Hour24(n: nat)
    requires n < 24
    ensures Hour24Text(Pad2(n))
  {
  }

  lemma Pad2Hour12(n: nat)
    requires 1 <= n <= 12
    ensures Hour12Text(Pad2(n))
  {
  }

  /** "00" is the only two-digit spelling of zero. */
  lemma Pad2ZeroZero(n: nat)
    requires n < 100
    ensures Pad2(n)[0] == '0' && Pad2(n)[1] == '0' <==> n == 0
  {
    assert DigitValue('0') == 0;
  }

  lemma MatchBlankFails(y: string, f: seq<Directive>, acc: Fields)
    requires FieldsOk(acc) && f != [] && f[0] == Blank
    requires y == [] || !PySpace(y[0])
    ensures MatchFormat(y, f, acc).None?
  {
    TrimLeftOfClean(y, PySpace);
  }

  lemma MatchMeridiemFails(y: string, f: seq<Directive>, acc: Fields)
    requires FieldsOk(acc) && f != [] && f[0] == AmPm
    requires |y| < 2 || !IsLetter(y[0])
    ensures MatchFormat(y, f, acc).None?
  {
    if |y| >= 2 {
      assert Lower(y[..2])[0] == y[0];
    }
  }

  lemma MatchEndFails(y: string, acc: Fields)
    requires FieldsOk(acc) && y != []
    ensures MatchFormat(y, [], acc).None?
  {
  }

  // ---------------------------------------------------------------------------
  // The formats, one at a time

  /** "HH:MM AM" is read by the first format. */
  lemma MatchTwelveShort(h: nat, m: nat, pm: bool)
    requires 1 <= h <= 12 && m < 60
    ensures MatchFormat(Twelve(h, m, None, pm), Formats()[0], NoFields) == Some(Fields(Some(h), None, m, 0, Some(pm)))
  {
    var f := Formats()[0];
    var mer := Meridiem(pm);
    TwelveShortText(h, m, pm);
    MatchHourMinute(h, m, " " + mer, f);
    var acc2 := Fields(Some(h), None, m, 0, None);
    MatchBlank(mer, f[3..], acc2);
    MatchMeridiem(pm, f[3..][1..], acc2);
  }

  lemma TwelveShortText(h: nat, m: nat, pm: bool)
    requires h < 100 && m < 60
    ensures Twelve(h, m, None, pm) == Pad2(h) + (":" + (Pad2(m) + (" " + Meridiem(pm))))
  {
  }

  /** The first part of every 12-hour format, on "HH:MM:SS ..." */
  lemma MatchHourMinute(h: nat, m: nat, rest: string, f: seq<Directive>)
    requires 1 <= h <= 12 && m < 60 && |f| >= 3 && f[0] == Hour12 && f[1] == Colon && f[2] == Minute
    requires rest == [] || !IsDigit(rest[0])
    ensures MatchFormat(Pad2(h) + (":" + (Pad2(m) + rest)), f, NoFields)
         == MatchFormat(rest, f[3..], Fields(Some(h), None, m, 0, None))
  {
    var a, b := Pad2(h), Pad2(m);
    Pad2Hour12(h);
    Pad2Minute(m);
    MatchField(a, ":" + (b + rest), f, NoFields);
    var acc1 := Fields(Some(h), None, 0, 0, None);
    MatchColon(b + rest, f[1..], acc1);
    MatchField(b, rest, f[1..][1..], acc1);
    assert f[1..][1..][1..] == f[3..];
  }

  lemma TwelveLongText(h: nat, m: nat, s: nat, pm: bool)
    requires h < 100 && m < 60 && s < 60
    ensures Twelve(h, m, Some(s), pm) == Pad2(h) + (":" + (Pad2(m) + (":" + (Pad2(s) + (" " + Meridiem(pm))))))
  {
  }

  /** "HH:MM:SS AM" is not read by the first two formats. */
  lemma MatchTwelveLongFirstFail(h: nat, m: nat, s: nat, pm: bool)
    requires 1 <= h <= 12 && m < 60 && s < 60
    ensures MatchFormat(Twelve(h, m, Some(s), pm), Formats()[0], NoFields).None?
    ensures MatchFormat(Twelve(h, m, Some(s), pm), Formats()[1], NoFields).None?
  {
    var rest := ":" + (Pad2(s) + (" " + Meridiem(pm)));
    TwelveLongText(h, m, s, pm);
    MatchHourMinute(h, m, rest, Formats()[0]);
    MatchBlankFails(rest, Formats()[0][3..], Fields(Some(h), None, m, 0, None));
    MatchHourMinute(h, m, rest, Formats()[1]);
    MatchMeridiemFails(rest, Formats()[1][3..], Fields(Some(h), None, m, 0, None));
  }

  /** "HH:MM:SS AM" is read by the third format. */
  lemma MatchTwelveLong(h: nat, m: nat, s: nat, pm: bool)
    requires 1 <= h <= 12 && m < 60 && s < 60
    ensures MatchFormat(Twelve(h, m, Some(s), pm), Formats()[2], NoFields) == Some(Fields(Some(h), None, m, s, Some(pm)))
  {
    var f := Formats()[2];
    var c, mer := Pad2(s), Meridiem(pm);
    TwelveLongText(h, m, s, pm);
    MatchHourMinute(h, m, ":" + (c + (" " + mer)), f);
    var acc2 := Fields(Some(h), None, m, 0, None);
    MatchColon(c + (" " + mer), f[3..], acc2);
    Pad2Minute(s);
    MatchField(c, " " + mer, f[3..][1..], acc2);
    var acc3 := Fields(Some(h), None, m, s, None);
    MatchBlank(mer, f[3..][1..][1..], acc3);
    MatchMeridiem(pm, f[3..][1..][1..][1..], acc3);
  }

  /** The first part of both 24-hour formats. */
  lemma MatchHourMinute24(h: nat, m: nat, rest: string, f: seq<Directive>)
    requires h < 24 && m < 60 && |f| >= 3 && f[0] == Hour24 && f[1] == Colon && f[2] == Minute
    requires rest == [] || !IsDigit(rest[0])
    ensures MatchFormat(Pad2(h) + (":" + (Pad2(m) + rest)), f, NoFields)
         == MatchFormat(rest, f[3..], Fields(None, Some(h), m, 0, None))
  {
    var a, b := Pad2(h), Pad2(m);
    Pad2Hour24(h);
    Pad2Minute(m);
    MatchField(a, ":" + (b + rest), f, NoFields);
    var acc1 := Fields(None, Some(h), 0, 0, None);
    MatchColon(b + rest, f[1..], acc1);
    MatchField(b, rest, f[1..][1..], acc1);
    assert f[1..][1..][1..] == f[3..];
  }

  /** No 12-hour format reads a text of digits and colons. */
  lemma TwelveFormatsFail(d: string, k: nat)
    requires BodyChars(d) && k < 4
    ensures MatchFormat(d, Formats()[k], NoFields).None?
  {
    assert AmPm in Formats()[k] by {
      assert Formats()[k][|Formats()[k]| - 1] == AmPm;
    }
    DigitsNeverMatchMeridiem(d, Formats()[k], NoFields);
  }

  /** "HH:MM" is read by the fifth format. */
  lemma MatchShort24(h: nat, m: nat)
    requires h < 24 && m < 60
    ensures MatchFormat(ClockBody(h, m, None), Formats()[4], NoFields) == Some(Fields(None, Some(h), m, 0, None))
  {
    assert ClockBody(h, m, None) == Pad2(h) + (":" + (Pad2(m) + []));
    MatchHourMinute24(h, m, [], Formats()[4]);
  }

  /** "HH:MM:SS" is refused by the fifth format and read by the sixth. */
  lemma MatchLong24(h: nat, m: nat, s: nat)
    requires h < 24 && m < 60 && s < 60
    ensures MatchFormat(ClockBody(h, m, Some(s)), Formats()[4], NoFields).None?
    ensures MatchFormat(ClockBody(h, m, Some(s)), Formats()[5], NoFields) == Some(Fields(None, Some(h), m, s, None))
  {
    var c := Pad2(s);
    var rest := ":" + c;
    MatchHourMinute24(h, m, rest, Formats()[4]);
    MatchEndFails(rest, Fields(None, Some(h), m, 0, None));
    var f := Formats()[5];
    MatchHourMinute24(h, m, rest, f);
    var acc2 := Fields(None, Some(h), m, 0, None);
    MatchColon(c, f[3..], acc2);
    Pad2Minute(s);
    assert c == c + [];
    MatchField(c, [], f[3..][1..], acc2);
  }

  // ---------------------------------------------------------------------------
  // Trying the formats in order

  lemma ParseFirstSkip(h: string, fmts: seq<seq<Directive>>)
    requires fmts != [] && MatchFormat(h, fmts[0], NoFields).None?
    ensures ParseFirst(h, fmts) == ParseFirst(h, fmts[1..])
  {
  }

  lemma ParseFirstTake(h: string, fmts: seq<seq<Directive>>, fd: Fields)
    requires fmts != [] && MatchFormat(h, fmts[0], NoFields) == Some(fd) && FieldsOk(fd) && fd.second <= 59
    ensures ParseFirst(h, fmts) == Some(Clock(Hour(fd), fd.minute, fd.second))
  {
  }

  lemma ParseTwelveShort(h: nat, m: nat, pm: bool)
    requires 1 <= h <= 12 && m < 60
    ensures ParseFirst(Twelve(h, m, None, pm), Formats()) == Some(Clock(To24(h, pm), m, 0))
  {
    var fd := Fields(Some(h), None, m, 0, Some(pm));
    MatchTwelveShort(h, m, pm);
    ParseFirstTake(Twelve(h, m, None, pm), Formats(), fd);
    assert Hour(fd) == To24(h, pm);
  }

  /** The formats before index `k` all fail and the one at `k` matches. */
  lemma {:induction false} ParseFirstAt(h: string, fmts: seq<seq<Directive>>, k: nat, fd: Fields)
    requires k < |fmts| && forall j | 0 <= j < k :: MatchFormat(h, fmts[j], NoFields).None?
    requires MatchFormat(h, fmts[k], NoFields) == Some(fd) && FieldsOk(fd) && fd.second <= 59
    ensures ParseFirst(h, fmts) == Some(Clock(Hour(fd), fd.minute, fd.second))
    decreases k
  {
    if k == 0 {
      ParseFirstTake(h, fmts, fd);
    } else {
      ParseFirstSkip(h, fmts);
      ParseFirstAt(h, fmts[1..], k - 1, fd);
    }
  }

  lemma ParseTwelveLong(h: nat, m: nat, s: nat, pm: bool)
    requires 1 <= h <= 12 && m < 60 && s < 60
    ensures ParseFirst(Twelve(h, m, Some(s), pm), Formats()) == Some(Clock(To24(h, pm), m, s))
  {
    var t := Twelve(h, m, Some(s), pm);
    var fd := Fields(Some(h), None, m, s, Some(pm));
    MatchTwelveLongFirstFail(h, m, s, pm);
    MatchTwelveLong(h, m, s, pm);
    assert forall j | 0 <= j < 2 :: MatchFormat(t, Formats()[j], NoFields).None?;
    ParseFirstAt(t, Formats(), 2, fd);
    assert Hour(fd) == To24(h, pm);
  }

  /** A 12-hour text is read as the matching 24-hour clock. */
  lemma ParseTwelve(h: nat, m: nat, sec: Option<nat>, pm: bool)
    requires 1 <= h <= 12 && m < 60 && (sec.Some? ==> sec.value < 60)
    ensures ParseFirst(Twelve(h, m, sec, pm), Formats()) == Some(Clock(To24(h, pm), m, sec.GetOr(0)))
  {
    match sec
    case None => ParseTwelveShort(h, m, pm);
    case Some(s) => ParseTwelveLong(h, m, s, pm);
  }

  /** A 24-hour text is read as it stands. */
  lemma Parse24(h: nat, m: nat, sec: Option<nat>)
    requires h < 24 && m < 60 && (sec.Some? ==> sec.value < 60)
    ensures ParseFirst(ClockBody(h, m, sec), Formats()) == Some(Clock(h, m, sec.GetOr(0)))
  {
    var t := ClockBody(h, m, sec);
    ClockBodyChars(h, m, sec);
    forall k | 0 <= k < 4
      ensures MatchFormat(t, Formats()[k], NoFields).None?
    {
      TwelveFormatsFail(t, k);
    }
    match sec
    case None =>
      MatchShort24(h, m);
      ParseFirstAt(t, Formats(), 4, Fields(None, Some(h), m, 0, None));
    case Some(s) =>
      MatchLong24(h, m, s);
      ParseFirstAt(t, Formats(), 5, Fields(None, Some(h), m, s, None));
  }

  // ---------------------------------------------------------------------------
  // The hour fix

  /** The fix leaves alone a text whose hour is not "00". */
  lemma MidnightFixKeeps(t: string)
    requires |t| >= 2 && !(t[0] == '0' && t[1] == '0')
    ensures MidnightFix(t) == t
  {
  }

  /** The fix leaves alone a text that ends in a digit. */
  lemma MidnightFixNoMeridiem(t: string)
    requires |t| >= 4 && IsDigit(t[|t| - 1])
    ensures MidnightFix(t) == t
  {
    NotEndsMeridiem(t[3..]);
  }

  /** The minutes and seconds of a canonical text are what the fix's pattern expects after "00:". */
  lemma MinutesSecondsDigits(m: nat, sec: Option<nat>)
    requires m < 60 && (sec.Some? ==> sec.value < 60)
    ensures var u := Pad2(m) + SecondsPart(sec);
      u != [] && IsDigit(u[|u| - 1]) && ClockDigits(u)
  {
    var u := Pad2(m) + SecondsPart(sec);
    if sec.Some? {
      assert u[..2] == Pad2(m);
      assert u[3..] == Pad2(sec.value);
    }
  }

  lemma ZeroTail(u: string, pm: bool)
    requires u != [] && IsDigit(u[|u| - 1]) && ClockDigits(u)
    ensures MidnightTail("00:" + (u + (" " + Meridiem(pm))))
  {
    var t := "00:" + (u + (" " + Meridiem(pm)));
    assert t[3..] == u + (" " + Meridiem(pm));
    EndsMeridiemOf(u, pm);
    assert t[3..|t| - 2] == u + " ";
    TrimRightOneSpace(u);
  }

  /** "00:MM AM" becomes "12:MM AM". */
  lemma MidnightFixZero(m: nat, sec: Option<nat>, pm: bool)
    requires m < 60 && (sec.Some? ==> sec.value < 60)
    ensures MidnightFix(Twelve(0, m, sec, pm)) == Twelve(12, m, sec, pm)
  {
    var u := Pad2(m) + SecondsPart(sec);
    var tail := u + (" " + Meridiem(pm));
    TwelveParts(0, m, sec, pm);
    TwelveParts(12, m, sec, pm);
    Pad2Literals();
    MinutesSecondsDigits(m, sec);
    ZeroTail(u, pm);
    MidnightFixOf(tail);
  }

  /** A 12-hour text is its two hour digits, a colon, and the rest. */
  lemma TwelveParts(h: nat, m: nat, sec: Option<nat>, pm: bool)
    requires h < 100 && m < 60 && (sec.Some? ==> sec.value < 60)
    ensures Twelve(h, m, sec, pm) == [Pad2(h)[0], Pad2(h)[1], ':'] + ((Pad2(m) + SecondsPart(sec)) + (" " + Meridiem(pm)))
  {
    var u, v := Pad2(m) + SecondsPart(sec), " " + Meridiem(pm);
    AppendAssoc(Pad2(h), ":" + u, v);
    AppendAssoc(":", u, v);
    AppendAssoc(Pad2(h), ":", u + v);
    assert Pad2(h) + ":" == [Pad2(h)[0], Pad2(h)[1], ':'];
  }

  lemma MidnightFixOf(tail: string)
    requires MidnightTail("00:" + tail)
    ensures MidnightFix("00:" + tail) == "12:" + tail
  {
    assert ("00:" + tail)[3..] == tail;
  }

  /** The two-digit spellings the properties below mention. */
  lemma Pad2Literals()
    ensures Pad2(0) == "00" && Pad2(10) == "10" && Pad2(12) == "12"
    ensures Pad2(22) == "22" && Pad2(30) == "30"
  {
  }

  // ---------------------------------------------------------------------------
  // _normalizar_hora

  lemma NormalizeTimeVia(hora: string, t: string)
    requires hora != "" && MidnightFix(Prepare(hora)) == t
    ensures NormalizeTime(Some(hora)) == match ParseFirst(t, Formats())
      case Some(c) => Some(ClockText(c))
      case None => None
  {
  }

  /** "HH:MM AM" and "HH:MM:SS PM" give the 24-hour clock they denote. */
  lemma {:induction false} NormalizeTwelve(h: nat, m: nat, sec: Option<nat>, pm: bool)
    requires 1 <= h <= 12 && m < 60 && (sec.Some? ==> sec.value < 60)
    ensures NormalizeTime(Some(Twelve(h, m, sec, pm))) == Some(ClockText(Clock(To24(h, pm), m, sec.GetOr(0))))
  {
    var t := Twelve(h, m, sec, pm);
    TwelvePrepared(h, m, sec, pm);
    NormalizeTimeVia(t, t);
    ParseTwelve(h, m, sec, pm);
  }

  /** Lines 103-120 leave a canonical 12-hour text with hour 1 to 12 unchanged. */
  lemma TwelvePrepared(h: nat, m: nat, sec: Option<nat>, pm: bool)
    requires 1 <= h <= 12 && m < 60 && (sec.Some? ==> sec.value < 60)
    ensures MidnightFix(Prepare(Twelve(h, m, sec, pm))) == Twelve(h, m, sec, pm)
  {
    ClockBodyChars(h, m, sec);
    PrepareTwelve(ClockBody(h, m, sec), pm);
    Pad2ZeroZero(h);
    TwelveParts(h, m, sec, pm);
    MidnightFixKeeps(Twelve(h, m, sec, pm));
  }

  /** "00:MM AM" is midnight and "00:MM PM" is noon, as "12:MM AM" and "12:MM PM" are. */
  lemma {:induction false} NormalizeZeroHour(m: nat, sec: Option<nat>, pm: bool)
    requires m < 60 && (sec.Some? ==> sec.value < 60)
    ensures NormalizeTime(Some(Twelve(0, m, sec, pm))) == Some(ClockText(Clock(if pm then 12 else 0, m, sec.GetOr(0))))
  {
    var t := Twelve(0, m, sec, pm);
    ClockBodyChars(0, m, sec);
    PrepareTwelve(ClockBody(0, m, sec), pm);
    MidnightFixZero(m, sec, pm);
    NormalizeTimeVia(t, Twelve(12, m, sec, pm));
    ParseTwelve(12, m, sec, pm);
  }

  /** "HH:MM" and "HH:MM:SS" are kept, with seconds 00 added to the first. */
  lemma {:induction false} Normalize24(h: nat, m: nat, sec: Option<nat>)
    requires h < 24 && m < 60 && (sec.Some? ==> sec.value < 60)
    ensures NormalizeTime(Some(ClockBody(h, m, sec))) == Some(ClockText(Clock(h, m, sec.GetOr(0))))
  {
    var t := ClockBody(h, m, sec);
    ClockBodyChars(h, m, sec);
    PrepareBody(t);
    MidnightFixNoMeridiem(t);
    NormalizeTimeVia(t, t);
    Parse24(h, m, sec);
  }

  /** Every `HH:MM:SS` output reads back as itself. */
  lemma NormalizeClockText(c: Clock)
    requires ValidClock(c)
    ensures NormalizeTime(Some(ClockText(c))) == Some(ClockText(c))
  {
    assert ClockText(c) == ClockBody(c.hour, c.minute, Some(c.second));
    Normalize24(c.hour, c.minute, Some(c.second));
  }

  /** Normalising is idempotent. */
  lemma NormalizeTimeIdempotent(hora: Option<string>, t: string)
    requires NormalizeTime(hora) == Some(t)
    ensures NormalizeTime(Some(t)) == Some(t)
  {
    var c :| ValidClock(c) && t == ClockText(c);
    NormalizeClockText(c);
  }

  // ---------------------------------------------------------------------------
  // The hour fix as written rewrites minutes "00" followed by seconds

  lemma ZeroMinutesText(h: nat, s: nat, pm: bool)
    requires h < 100 && s < 60
    ensures var t := Twelve(h, 0, Some(s), pm);
      && t == Pad2(h) + (":" + ("00:" + (Pad2(s) + (" " + Meridiem(pm)))))
      && |t| == 11 && t[2] == ':' && t[3] == '0' && t[3..6] == "00:"
      && t[..3] + "12:" + t[6..] == Twelve(h, 12, Some(s), pm)
  {
    assert Pad2(0) == "00";
    assert Pad2(12) == "12";
  }

  /** The search of line 119 matches at the minutes, and the first `\b00:` is there too. */
  lemma SearchFindsMinutes(h: nat, s: nat, pm: bool)
    requires 1 <= h <= 12 && s < 60
    ensures var t := Twelve(h, 0, Some(s), pm);
      SearchMidnight(t, 0) && FirstZeroZero(t, 0) == Some(3)
  {
    var t := Twelve(h, 0, Some(s), pm);
    ZeroMinutesText(h, s, pm);
    var tail := Pad2(s) + (" " + Meridiem(pm));
    assert t[3..] == "00:" + tail;
    assert Digits12(Pad2(s));
    ZeroTail(Pad2(s), pm);
    assert ZeroZeroAt(t, 3);
    assert SearchMidnight(t, 3);
    Pad2ZeroZero(h);
    assert t[0..3][0] == t[0] && t[0..3][1] == t[1];
    assert !ZeroZeroAt(t, 0);
    assert t[1..4][2] == t[3];
    assert !ZeroZeroAt(t, 1);
    assert t[2..5][0] == t[2];
    assert !ZeroZeroAt(t, 2);
    assert SearchMidnight(t, 2) && SearchMidnight(t, 1);
    assert FirstZeroZero(t, 3) == Some(3);
    assert FirstZeroZero(t, 2) == Some(3);
    assert FirstZeroZero(t, 1) == Some(3);
  }

  lemma MidnightFixAsWrittenMinutes(h: nat, s: nat, pm: bool)
    requires 1 <= h <= 12 && s < 60
    ensures MidnightFixAsWritten(Twelve(h, 0, Some(s), pm)) == Twelve(h, 12, Some(s), pm)
  {
    SearchFindsMinutes(h, s, pm);
    ZeroMinutesText(h, s, pm);
  }

  lemma NormalizeTimeAsWrittenVia(hora: string, t: string)
    requires hora != "" && MidnightFixAsWritten(Prepare(hora)) == t
    ensures NormalizeTimeAsWritten(Some(hora)) == match ParseFirst(t, Formats())
      case Some(c) => Some(ClockText(c))
      case None => None
  {
  }

  /**
   * As written, "HH:00:SS AM" comes out with minutes 12: the hour fix meant
   * for "00:MM AM" matches the minutes instead.
   */
  lemma {:induction false} AsWrittenZeroMinutes(h: nat, s: nat, pm: bool)
    requires 1 <= h <= 12 && s < 60
    ensures NormalizeTimeAsWritten(Some(Twelve(h, 0, Some(s), pm))) == Some(ClockText(Clock(To24(h, pm), 12, s)))
  {
    var t := Twelve(h, 0, Some(s), pm);
    ClockBodyChars(h, 0, Some(s));
    PrepareTwelve(ClockBody(h, 0, Some(s)), pm);
    MidnightFixAsWrittenMinutes(h, s, pm);
    NormalizeTimeAsWrittenVia(t, Twelve(h, 12, Some(s), pm));
    ParseTwelveLong(h, 12, s, pm);
  }

  lemma CounterexampleText()
    ensures Twelve(10, 0, Some(30), true) == "10:00:30 PM"
    ensures ClockText(Clock(22, 12, 30)) == "22:12:30"
    ensures ClockText(Clock(22, 0, 30)) == "22:00:30"
  {
    Pad2Literals();
    TwelveParts(10, 0, Some(30), true);
  }

  /** "10:00:30 PM": "22:12:30" as written, "22:00:30" as intended. */
  lemma ZeroMinutesCounterexample()
    ensures NormalizeTimeAsWritten(Some("10:00:30 PM")) == Some("22:12:30")
    ensures NormalizeTime(Some("10:00:30 PM")) == Some("22:00:30")
  {
    CounterexampleText();
    AsWrittenZeroMinutes(10, 30, true);
    NormalizeTwelve(10, 0, Some(30), true);
  }
}
