/**
 * The document list of the scraper (notebooks/scraping/a_nuevos_documentos.py):
 * the scan over the agenda table's rows, which carries the parliamentary
 * period, the annual period and the legislature forward and takes each row's
 * first link with text; the extraction of the download link; and the merge
 * with the history, new documents first and one row per file name.
 *
 * The HTML arrives already cut into rows, fonts and anchors; the UUID5 of a
 * link is a parameter.
 */
module NuevosDocumentos {
  import opened Wrappers
  import opened Text
  import opened Ordering

  // ---------------------------------------------------------------------------
  // Lines 28-31: clean_text

  /** `re.sub(r"\s+", " ", text).strip()`. */
  function CleanText(s: string): string {
    Trim(Collapse(s, PySpace), PySpace)
  }

  /** The cleaned text has no blank at either end and single spaces between words. */
  lemma CleanTextClean(s: string)
    ensures Clean(CleanText(s), PySpace)
  {
    TrimCollapseClean(s, PySpace);
  }

  /** Cleaning a cleaned text changes nothing. */
  lemma CleanTextIdempotent(s: string)
    ensures CleanText(CleanText(s)) == CleanText(s)
  {
    CleanTextClean(s);
    CleanFixpoint(CleanText(s), PySpace);
  }

  // ---------------------------------------------------------------------------
  // Lines 20-82: the rows of the table

  /** An `<a>`: its `href` attribute, if present, and its text. */
  datatype Anchor = Anchor(href: Option<string>, text: string)

  /** A `<tr valign="top">`: the `.string` of each `<font>` (None when it has several children) and the anchors. */
  datatype Tr = Tr(fonts: seq<Option<string>>, anchors: seq<Anchor>)

  datatype Context = Context(periodoParlamentario: Option<string>, periodoAnual: Option<string>, legislatura: Option<string>)

  datatype Record = Record(context: Context, descripcion: string, link: string)

  const ParliamentMark := "Congreso de la Rep\U{fa}blica"
  const AnnualMark := "Per\U{ed}odo Anual de Sesiones"
  const LegislatureMark := "Legislatura"

  const NoContext := Context(None, None, None)

  /** Lines 37-39, 44-46, 51: the string of the first font whose string is non-empty and holds `mark`. */
  function FindFont(fonts: seq<Option<string>>, mark: string): Option<string> {
    if fonts == [] then None
    else if HasMark(fonts[0], mark) then fonts[0]
    else FindFont(fonts[1..], mark)
  }

  /** Lines 38, 45, 51: `text and mark in text`. */
  predicate HasMark(font: Option<string>, mark: string) {
    font.Some? && font.value != "" && Contains(font.value, mark)
  }

  /** The font found is the first that holds the mark, and none is found only when no font holds it. */
  lemma {:induction false} FindFontFirst(fonts: seq<Option<string>>, mark: string)
    ensures var r := FindFont(fonts, mark);
      && (r.None? <==> forall k | 0 <= k < |fonts| :: !HasMark(fonts[k], mark))
      && (r.Some? ==> exists k | 0 <= k < |fonts| :: fonts[k] == r && HasMark(fonts[k], mark)
                        && forall j | 0 <= j < k :: !HasMark(fonts[j], mark))
  {
    if fonts != [] && !HasMark(fonts[0], mark) {
      FindFontFirst(fonts[1..], mark);
      var t := fonts[1..];
      assert forall k | 1 <= k < |fonts| :: fonts[k] == t[k - 1];
      if FindFont(t, mark).Some? {
        var k :| 0 <= k < |t| && t[k] == FindFont(t, mark) && HasMark(t[k], mark)
          && forall j | 0 <= j < k :: !HasMark(t[j], mark);
        assert fonts[k + 1] == t[k];
      }
    } else if fonts != [] {
      assert HasMark(fonts[0], mark);
    }
  }

  /** One `current_*` variable after a row: the row's cleaned font text when it has one, else unchanged. */
  function Update(current: Option<string>, fonts: seq<Option<string>>, mark: string, clean: string -> string): Option<string> {
    var f := FindFont(fonts, mark);
    if f.Some? then Some(clean(f.value)) else current
  }

  /**
   * Lines 23-53: one `current_*` variable once the first `n` rows have been
   * read. Here and below `clean` is the text cleaning of lines 29-31
   * (`CleanText`); the properties proved hold for any cleaning.
   */
  function Track(rows: seq<Tr>, n: nat, mark: string, clean: string -> string): Option<string>
    requires n <= |rows|
  {
    if n == 0 then None else Update(Track(rows, n - 1, mark, clean), rows[n - 1].fonts, mark, clean)
  }

  /** The three `current_*` variables once the first `n` rows have been read. */
  function ContextAfter(rows: seq<Tr>, n: nat, clean: string -> string): Context
    requires n <= |rows|
  {
    Context(Track(rows, n, ParliamentMark, clean), Track(rows, n, AnnualMark, clean), Track(rows, n, LegislatureMark, clean))
  }

  /** Line 56: `find_all("a", href=True)`, as (href, text) pairs. */
  function ATags(anchors: seq<Anchor>): (r: seq<(string, string)>)
    ensures |r| <= |anchors|
  {
    if anchors == [] then []
    else (if anchors[0].href.Some? then [(anchors[0].href.value, anchors[0].text)] else []) + ATags(anchors[1..])
  }

  /** Lines 60-70: the first anchor, from position `i` on, whose cleaned text is not empty. */
  function FirstText(aTags: seq<(string, string)>, i: nat, clean: string -> string): (r: Option<nat>)
    requires i <= |aTags|
    ensures r.Some? ==> i <= r.value < |aTags| && clean(aTags[r.value].1) != ""
    decreases |aTags| - i
  {
    if i == |aTags| then None
    else if clean(aTags[i].1) != "" then Some(i)
    else FirstText(aTags, i + 1, clean)
  }

  /** The anchor taken is the first with text, and none is taken only when no anchor has text. */
  lemma {:induction false} FirstTextFirst(aTags: seq<(string, string)>, i: nat, clean: string -> string)
    requires i <= |aTags|
    ensures var r := FirstText(aTags, i, clean);
      && (r.Some? ==> clean(aTags[r.value].1) != "" && forall j | i <= j < r.value :: clean(aTags[j].1) == "")
      && (r.None? ==> forall j | i <= j < |aTags| :: clean(aTags[j].1) == "")
    decreases |aTags| - i
  {
    if i < |aTags| && clean(aTags[i].1) == "" {
      FirstTextFirst(aTags, i + 1, clean);
    }
  }

  /** Lines 59-82: the (link, text) a row emits, when its first texted anchor has a non-empty href. */
  function RowLink(tr: Tr, clean: string -> string): Option<(string, string)> {
    var aTags := ATags(tr.anchors);
    var k := FirstText(aTags, 0, clean);
    if k.Some? && aTags[k.value].0 != "" then Some((aTags[k.value].0, clean(aTags[k.value].1))) else None
  }

  predicate Emits(clean: string -> string, tr: Tr) { RowLink(tr, clean).Some? }

  /** The records of lines 73-82 once the first `n` rows have been read. */
  function Records(rows: seq<Tr>, n: nat, clean: string -> string): seq<Record>
    requires n <= |rows|
  {
    if n == 0 then []
    else
      var l := RowLink(rows[n - 1], clean);
      Records(rows, n - 1, clean) + if l.Some? then [Record(ContextAfter(rows, n, clean), l.value.1, l.value.0)] else []
  }

  /** Lines 61-70. */
  method EnlaceConTexto(aTags: seq<(string, string)>, clean: string -> string) returns (link: Option<string>, linkText: Option<string>)
    ensures FirstText(aTags, 0, clean).None? ==> link.None? && linkText.None?
    ensures FirstText(aTags, 0, clean).Some? ==>
      var k := FirstText(aTags, 0, clean).value;
      link == Some(aTags[k].0) && linkText == Some(clean(aTags[k].1))
  {
    link, linkText := None, None;
    var i := 0;
    while i < |aTags|
      invariant 0 <= i <= |aTags|
      invariant FirstText(aTags, 0, clean) == FirstText(aTags, i, clean)
    {
      var text := clean(aTags[i].1);
      if text != "" {
        link := Some(aTags[i].0);
        linkText := Some(text);
        return;
      }
      i := i + 1;
    }
  }

  /** Lines 60-70: the row's link and its cleaned text, when both are non-empty. */
  method EnlaceFila(tr: Tr, clean: string -> string) returns (l: Option<(string, string)>)
    ensures l == RowLink(tr, clean)
  {
    l := None;
    var aTags := ATags(tr.anchors);
    ghost var k := FirstText(aTags, 0, clean);
    if aTags != [] {
      var link, linkText := EnlaceConTexto(aTags, clean);
      if link.Some? && link.value != "" && linkText.Some? && linkText.value != "" {
        l := Some((link.value, linkText.value));
      }
    } else {
      assert k.None?;
    }
  }

  /**
   * Lines 23-82 for the row `rows[i]`: the three context updates, then the
   * record the row emits, if any.
   */
  method LeerFila(rows: seq<Tr>, i: nat, clean: string -> string,
                  periodoParlamentario: Option<string>, periodoAnual: Option<string>, legislatura: Option<string>)
    returns (periodoParlamentario': Option<string>, periodoAnual': Option<string>, legislatura': Option<string>,
             emitted: seq<Record>)
    requires i < |rows|
    requires periodoParlamentario == Track(rows, i, ParliamentMark, clean)
    requires periodoAnual == Track(rows, i, AnnualMark, clean)
    requires legislatura == Track(rows, i, LegislatureMark, clean)
    ensures periodoParlamentario' == Track(rows, i + 1, ParliamentMark, clean)
    ensures periodoAnual' == Track(rows, i + 1, AnnualMark, clean)
    ensures legislatura' == Track(rows, i + 1, LegislatureMark, clean)
    ensures Records(rows, i + 1, clean) == Records(rows, i, clean) + emitted
  {
    var tr := rows[i];
    periodoParlamentario', periodoAnual', legislatura' := periodoParlamentario, periodoAnual, legislatura;
    var fontPeriodoParlamentario := FindFont(tr.fonts, ParliamentMark);
    if fontPeriodoParlamentario.Some? {
      periodoParlamentario' := Some(clean(fontPeriodoParlamentario.value));
    }
    var fontPeriodoAnual := FindFont(tr.fonts, AnnualMark);
    if fontPeriodoAnual.Some? {
      periodoAnual' := Some(clean(fontPeriodoAnual.value));
    }
    var fontLegislatura := FindFont(tr.fonts, LegislatureMark);
    if fontLegislatura.Some? {
      legislatura' := Some(clean(fontLegislatura.value));
    }
    var rowLink := EnlaceFila(tr, clean);
    emitted := [];
    if rowLink.Some? {
      var ctx := Context(periodoParlamentario', periodoAnual', legislatura');
      emitted := [Record(ctx, rowLink.value.1, rowLink.value.0)];
    }
  }

  /**
   * Lines 20-82. `clean` is the `clean_text` of lines 29-31: the script
   * passes `CleanText`, and the scan is proved for any cleaning.
   */
  method LeerTabla(rows: seq<Tr>, clean: string -> string) returns (result: seq<Record>)
    ensures result == Records(rows, |rows|, clean)
  {
    result := [];
    var currentPeriodoParlamentario: Option<string> := None;
    var currentPeriodoAnual: Option<string> := None;
    var currentLegislatura: Option<string> := None;
    var i := 0;
    while i < |rows|
      invariant 0 <= i <= |rows|
      invariant currentPeriodoParlamentario == Track(rows, i, ParliamentMark, clean)
      invariant currentPeriodoAnual == Track(rows, i, AnnualMark, clean)
      invariant currentLegislatura == Track(rows, i, LegislatureMark, clean)
      invariant result == Records(rows, i, clean)
    {
      var emitted;
      currentPeriodoParlamentario, currentPeriodoAnual, currentLegislatura, emitted :=
        LeerFila(rows, i, clean, currentPeriodoParlamentario, currentPeriodoAnual, currentLegislatura);
      result := result + emitted;
      i := i + 1;
    }
  }

  /** The last of the first `n` rows that holds a font with `mark`. */
  function LatestRow(rows: seq<Tr>, n: nat, mark: string): (r: Option<nat>)
    requires n <= |rows|
    ensures r.Some? ==> r.value < n && FindFont(rows[r.value].fonts, mark).Some?
    ensures r.Some? ==> forall j | r.value < j < n :: FindFont(rows[j].fonts, mark).None?
    ensures r.None? ==> forall j | 0 <= j < n :: FindFont(rows[j].fonts, mark).None?
  {
    if n == 0 then None
    else if FindFont(rows[n - 1].fonts, mark).Some? then Some(n - 1)
    else LatestRow(rows, n - 1, mark)
  }

  /** The cleaned text of that row's font, or None before any has been seen. */
  function Latest(rows: seq<Tr>, n: nat, mark: string, clean: string -> string): Option<string>
    requires n <= |rows|
  {
    var k := LatestRow(rows, n, mark);
    if k.Some? then Some(clean(FindFont(rows[k.value].fonts, mark).value)) else None
  }

  /** Each `current_*` variable holds the latest of its kind seen so far, independently of the others. */
  lemma {:induction false} TrackIsLatest(rows: seq<Tr>, n: nat, mark: string, clean: string -> string)
    requires n <= |rows|
    ensures Track(rows, n, mark, clean) == Latest(rows, n, mark, clean)
  {
    if n > 0 {
      TrackIsLatest(rows, n - 1, mark, clean);
      var f := FindFont(rows[n - 1].fonts, mark);
      if f.Some? {
        assert LatestRow(rows, n, mark) == Some(n - 1);
      } else {
        assert LatestRow(rows, n, mark) == LatestRow(rows, n - 1, mark);
      }
    }
  }

  lemma ContextIsLatest(rows: seq<Tr>, n: nat, clean: string -> string)
    requires n <= |rows|
    ensures ContextAfter(rows, n, clean) ==
      Context(Latest(rows, n, ParliamentMark, clean), Latest(rows, n, AnnualMark, clean), Latest(rows, n, LegislatureMark, clean))
  {
    TrackIsLatest(rows, n, ParliamentMark, clean);
    TrackIsLatest(rows, n, AnnualMark, clean);
    TrackIsLatest(rows, n, LegislatureMark, clean);
  }

  /** A row emits at most one record, and a row emits exactly when it has a link with text. */
  lemma {:induction false} OneRecordPerRow(rows: seq<Tr>, n: nat, clean: string -> string)
    requires n <= |rows|
    ensures |Records(rows, n, clean)| == Count(rows[..n], tr => Emits(clean, tr))
  {
    if n > 0 {
      OneRecordPerRow(rows, n - 1, clean);
      assert rows[..n][..n - 1] == rows[..n - 1];
      CountSnoc(rows[..n], tr => Emits(clean, tr));
    }
  }

  /**
   * Every record is the link of some row, and carries the latest period,
   * annual period and legislature seen in that row or an earlier one.
   */
  lemma {:induction false} RecordsCarryLatest(rows: seq<Tr>, n: nat, r: Record, clean: string -> string)
    requires n <= |rows| && r in Records(rows, n, clean)
    ensures exists i | 0 <= i < n ::
      && RowLink(rows[i], clean) == Some((r.link, r.descripcion))
      && r.context == Context(Latest(rows, i + 1, ParliamentMark, clean), Latest(rows, i + 1, AnnualMark, clean),
                              Latest(rows, i + 1, LegislatureMark, clean))
  {
    var l := RowLink(rows[n - 1], clean);
    if l.Some? && r == Record(ContextAfter(rows, n, clean), l.value.1, l.value.0) {
      ContextIsLatest(rows, n, clean);
      var i := n - 1;
      assert RowLink(rows[i], clean) == Some((r.link, r.descripcion));
      assert r.context == Context(Latest(rows, i + 1, ParliamentMark, clean), Latest(rows, i + 1, AnnualMark, clean),
                                  Latest(rows, i + 1, LegislatureMark, clean));
    } else {
      RecordsCarryLatest(rows, n - 1, r, clean);
    }
  }

  // ---------------------------------------------------------------------------
  // Lines 126-157: the download link and the file name

  const OpenWindow := "javascript:openWindow("
  const OpenWindowQuote := "javascript:openWindow('"
  const BaseLink := "https://www2.congreso.gob.pe/Sicr/RelatAgenda/PlenoComiPerm20112016.nsf/"

  /** Line 133. */
  predicate IsOpenWindow(r: Record) { Contains(r.link, OpenWindow) }

  predicate NotQuote(c: char) { c != '\'' }

  /** The group of `javascript:openWindow\('([^']+)'\)` when a match starts at `i`. */
  function ArgAt(s: string, i: nat): (r: Option<string>)
    requires i <= |s|
    ensures r.Some? ==> r.value != [] && forall k | 0 <= k < |r.value| :: NotQuote(r.value[k])
  {
    var t := s[i..];
    if !StartsWith(t, OpenWindowQuote) then None
    else
      var u := t[|OpenWindowQuote|..];
      var k := Run(u, NotQuote);
      if k >= 1 && StartsWith(u[k..], "')") then Some(u[..k]) else None
  }

  /** Line 140: `str.extract`, the group of the leftmost match at or after `i`. */
  function ExtractFrom(s: string, i: nat): (r: Option<string>)
    requires i <= |s|
    ensures r.Some? ==> r.value != [] && forall k | 0 <= k < |r.value| :: NotQuote(r.value[k])
    decreases |s| - i
  {
    if ArgAt(s, i).Some? then ArgAt(s, i)
    else if i == |s| then None
    else ExtractFrom(s, i + 1)
  }

  function Extract(s: string): Option<string> { ExtractFrom(s, 0) }

  /** A link written as `javascript:openWindow('<arg>')` gives back its argument. */
  lemma ExtractWrapped(arg: string)
    requires arg != [] && forall k | 0 <= k < |arg| :: NotQuote(arg[k])
    ensures Extract(OpenWindowQuote + (arg + "')")) == Some(arg)
  {
    var tail := arg + "')";
    var s := OpenWindowQuote + tail;
    assert s[0..] == s;
    assert s[..|OpenWindowQuote|] == OpenWindowQuote && s[|OpenWindowQuote|..] == tail;
    RunExact(tail, NotQuote, |arg|);
    assert tail[..|arg|] == arg && tail[|arg|..] == "')";
  }

  /** A row of `df_result`, and of the history. */
  datatype Doc = Doc(context: Context, descripcion: string, cleanLink: string, fileName: Option<string>)

  /** Lines 126-129: the UUID5 of the link in the URL namespace, as `uuid`, then ".pdf". */
  function FileName(cleanLink: string, uuid: string -> string): string { uuid(cleanLink) + ".pdf" }

  /** Lines 140-145 for one record; None when the link has no `openWindow('...')` argument. */
  function ToDoc(r: Record, uuid: string -> string): (d: Option<Doc>)
    ensures d.Some? <==> Extract(r.link).Some?
    ensures d.Some? ==> d.value.cleanLink == BaseLink + Extract(r.link).value
    ensures d.Some? ==> d.value.fileName == Some(FileName(d.value.cleanLink, uuid))
  {
    var arg := Extract(r.link);
    if arg.Some? then
      var cleanLink := BaseLink + arg.value;
      Some(Doc(r.context, r.descripcion, cleanLink, Some(FileName(cleanLink, uuid))))
    else None
  }

  /** Documents built from the same link get the same file name. */
  lemma SameLinkSameName(r1: Record, r2: Record, uuid: string -> string)
    requires Extract(r1.link).Some? && Extract(r1.link) == Extract(r2.link)
    ensures ToDoc(r1, uuid).value.fileName == ToDoc(r2, uuid).value.fileName
  {
  }

  datatype Failure = KeyError | TypeError

  /**
   * Lines 133-157. With no openWindow link the frame has no "link" column
   * (KeyError); a kept link without an argument gives NaN, which `uuid5`
   * refuses (TypeError).
   */
  function GenerarDocs(result: seq<Record>, uuid: string -> string): (r: Result<seq<Doc>, Failure>)
    ensures r == Err(KeyError) <==> Filter(result, IsOpenWindow) == []
    ensures r.Ok? ==> |r.value| == |Filter(result, IsOpenWindow)|
    ensures r.Ok? ==> forall k | 0 <= k < |r.value| ::
      Some(r.value[k]) == ToDoc(Filter(result, IsOpenWindow)[k], uuid)
  {
    var cleanResults := Filter(result, IsOpenWindow);
    if cleanResults == [] then Err(KeyError) else ToDocs(cleanResults, uuid)
  }

  function ToDocs(records: seq<Record>, uuid: string -> string): (r: Result<seq<Doc>, Failure>)
    ensures r.Ok? || r == Err(TypeError)
    ensures r.Err? <==> exists k | 0 <= k < |records| :: ToDoc(records[k], uuid).None?
    ensures r.Ok? ==> |r.value| == |records| && forall k | 0 <= k < |records| :: Some(r.value[k]) == ToDoc(records[k], uuid)
  {
    if records == [] then Ok([])
    else
      var d := ToDoc(records[0], uuid);
      var rest := ToDocs(records[1..], uuid);
      if d.None? then Err(TypeError)
      else if rest.Err? then
        var k :| 0 <= k < |records[1..]| && ToDoc(records[1..][k], uuid).None?;
        assert records[k + 1] == records[1..][k];
        Err(TypeError)
      else
        var r := Ok([d.value] + rest.value);
        assert forall k | 1 <= k < |records| :: records[k] == records[1..][k - 1];
        r
  }

  // ---------------------------------------------------------------------------
  // Lines 163-181: the merge with the history

  /** The file names present, `None` standing for a missing one. */
  function Names(docs: seq<Doc>): set<Option<string>> { set d | d in docs :: d.fileName }

  predicate IsNew(existentes: set<Option<string>>, d: Doc) { d.fileName !in existentes }

  /** Line 175: the documents whose file name is not in the history, in their own order. */
  function Nuevos(docs: seq<Doc>, historico: seq<Doc>): seq<Doc> {
    Filter(docs, d => IsNew(Names(historico), d))
  }

  /** `drop_duplicates(subset="file_name", keep="first")`, with the names in `seen` already taken. */
  function DropDuplicates(docs: seq<Doc>, seen: set<Option<string>>): (r: seq<Doc>)
    ensures |r| <= |docs|
    ensures forall k | 0 <= k < |r| :: r[k] in docs && r[k].fileName !in seen
  {
    if docs == [] then []
    else if docs[0].fileName in seen then DropDuplicates(docs[1..], seen)
    else [docs[0]] + DropDuplicates(docs[1..], seen + {docs[0].fileName})
  }

  /** Lines 163-181, the history file read as `history` when it exists. */
  method Unificar(docs: seq<Doc>, historyExists: bool, history: seq<Doc>) returns (historico: seq<Doc>, nuevos: seq<Doc>)
    ensures var h := if historyExists then history else [];
      nuevos == Nuevos(docs, h) && historico == DropDuplicates(nuevos + h, {})
  {
    var dfHistorico := if historyExists then history else [];
    var documentosExistentes := Names(dfHistorico);
    nuevos := Filter(docs, d => IsNew(documentosExistentes, d));
    if nuevos != [] {
      dfHistorico := nuevos + dfHistorico;
    } else {
      assert nuevos + dfHistorico == dfHistorico;
    }
    historico := DropDuplicates(dfHistorico, {});
  }

  predicate UniqueNames(docs: seq<Doc>) {
    forall i, j | 0 <= i < j < |docs| :: docs[i].fileName != docs[j].fileName
  }

  /** After the merge no file name appears twice. */
  lemma {:induction false} DropDuplicatesUnique(docs: seq<Doc>, seen: set<Option<string>>)
    ensures UniqueNames(DropDuplicates(docs, seen))
  {
    if docs != [] && docs[0].fileName !in seen {
      var x := docs[0];
      DropDuplicatesUnique(docs[1..], seen + {x.fileName});
      var rest := DropDuplicates(docs[1..], seen + {x.fileName});
      var r := DropDuplicates(docs, seen);
      assert r == [x] + rest;
      forall i, j | 0 <= i < j < |r| ensures r[i].fileName != r[j].fileName {
        assert r[j] == rest[j - 1];
        if i > 0 {
          assert r[i] == rest[i - 1];
        }
      }
    } else if docs != [] {
      DropDuplicatesUnique(docs[1..], seen);
    }
  }

  /** No file name is lost: the merge holds one document for every name not already taken. */
  lemma {:induction false} DropDuplicatesNames(docs: seq<Doc>, seen: set<Option<string>>)
    ensures Names(DropDuplicates(docs, seen)) == Names(docs) - seen
  {
    if docs != [] {
      var x := docs[0];
      assert docs == [x] + docs[1..];
      assert Names(docs) == {x.fileName} + Names(docs[1..]);
      if x.fileName in seen {
        DropDuplicatesNames(docs[1..], seen);
      } else {
        DropDuplicatesNames(docs[1..], seen + {x.fileName});
        var rest := DropDuplicates(docs[1..], seen + {x.fileName});
        assert Names([x] + rest) == {x.fileName} + Names(rest);
      }
    }
  }

  /** The first document with a name not yet taken is the one kept. */
  lemma {:induction false} FirstKept(docs: seq<Doc>, seen: set<Option<string>>, i: nat)
    requires i < |docs| && docs[i].fileName !in seen
    requires forall j | 0 <= j < i :: docs[j].fileName != docs[i].fileName
    ensures docs[i] in DropDuplicates(docs, seen)
  {
    if i > 0 {
      var s' := if docs[0].fileName in seen then seen else seen + {docs[0].fileName};
      FirstKept(docs[1..], s', i - 1);
    }
  }

  /** The names taken by the first part are not taken again in the second. */
  lemma {:induction false} DropDuplicatesAppend(a: seq<Doc>, b: seq<Doc>, seen: set<Option<string>>)
    ensures DropDuplicates(a + b, seen) == DropDuplicates(a, seen) + DropDuplicates(b, seen + Names(a))
  {
    if a == [] {
      assert a + b == b && seen + Names(a) == seen;
    } else {
      var x := a[0];
      assert (a + b)[0] == x && (a + b)[1..] == a[1..] + b;
      assert Names(a) == {x.fileName} + Names(a[1..]) by { assert a == [x] + a[1..]; }
      var s' := if x.fileName in seen then seen else seen + {x.fileName};
      DropDuplicatesAppend(a[1..], b, s');
      assert s' + Names(a[1..]) == seen + Names(a);
    }
  }

  /**
   * Lines 174-181: the new documents come first, and a historic row that is
   * the first with its file name is never replaced.
   */
  lemma HistoryKept(docs: seq<Doc>, history: seq<Doc>, i: nat)
    requires i < |history| && forall j | 0 <= j < i :: history[j].fileName != history[i].fileName
    ensures var nuevos := Nuevos(docs, history);
      && DropDuplicates(nuevos + history, {}) ==
           DropDuplicates(nuevos, {}) + DropDuplicates(history, Names(nuevos))
      && history[i] in DropDuplicates(nuevos + history, {})
  {
    var nuevos := Nuevos(docs, history);
    DropDuplicatesAppend(nuevos, history, {});
    assert {} + Names(nuevos) == Names(nuevos);
    assert history[i].fileName in Names(history);
    FirstKept(history, Names(nuevos), i);
  }

  /** A document is new exactly when it was generated and its file name is not in the history. */
  lemma NuevosAreNew(docs: seq<Doc>, history: seq<Doc>, d: Doc)
    ensures d in Nuevos(docs, history) <==> d in docs && d.fileName !in Names(history)
  {
    var p := (d: Doc) => IsNew(Names(history), d);
    if d in Nuevos(docs, history) {
      FilterIn(docs, p, d);
    }
    if d in docs && d.fileName !in Names(history) {
      FilterKeeps(docs, p, d);
    }
  }

  /** The whole script: the table's rows, the UUID5 function and the history file. */
  method Ejecutar(rows: seq<Tr>, uuid: string -> string, historyExists: bool, history: seq<Doc>)
    returns (r: Result<(seq<Doc>, seq<Doc>), Failure>)
    ensures r.Err? <==> GenerarDocs(Records(rows, |rows|, CleanText), uuid).Err?
    ensures r.Ok? ==> var h := if historyExists then history else [];
      var nuevos := Nuevos(GenerarDocs(Records(rows, |rows|, CleanText), uuid).value, h);
      r.value == (DropDuplicates(nuevos + h, {}), nuevos)
  {
    var result := LeerTabla(rows, CleanText);
    var docs := GenerarDocs(result, uuid);
    if docs.Err? {
      return Err(docs.error);
    }
    var historico, nuevos := Unificar(docs.value, historyExists, history);
    return Ok((historico, nuevos));
  }
}
