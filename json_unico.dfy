/**
 * d_generar_json_unico.py: one record per page of every per-document JSON,
 * with its date and time combined, its id, page and PDF link; an error row
 * for every page whose date or time does not normalise; and the records
 * ordered newest first.
 */
module JsonUnico {
  import opened Wrappers
  import opened Text
  import opened Ordering
  import opened Seqs
  import opened JsonValue
  import opened PageKeys
  import Fechas
  import Horas

  /** The only way building the records can fail: a `str` method called on a truthy value that is not a string. */
  datatype Failure = AttributeError

  // ---------------------------------------------------------------------------
  // _combinar_fecha_hora

  /** `_normalizar_fecha` on whatever `pagina_data.get("fecha")` holds. */
  function DateOf(v: Json): (r: Result<Option<string>, Failure>)
    ensures !Truthy(v) ==> r == Ok(None)
    ensures v.JString? ==> r == Ok(Fechas.NormalizeDate(Some(v.s)))
    ensures Truthy(v) && !v.JString? ==> r.Err?
  {
    if !Truthy(v) then Ok(None)
    else
      match v
      case JString(s) => Ok(Fechas.NormalizeDate(Some(s)))
      case _ => Err(AttributeError)
  }

  /** `_normalizar_hora` on whatever `pagina_data.get("hora")` holds. */
  function TimeOf(v: Json): (r: Result<Option<string>, Failure>)
    ensures !Truthy(v) ==> r == Ok(None)
    ensures v.JString? ==> r == Ok(Horas.NormalizeTime(Some(v.s)))
    ensures Truthy(v) && !v.JString? ==> r.Err?
  {
    if !Truthy(v) then Ok(None)
    else
      match v
      case JString(s) => Ok(Horas.NormalizeTime(Some(s)))
      case _ => Err(AttributeError)
  }

  /** `_combinar_fecha_hora`: both parts are normalised before either is checked. */
  function CombineDateTime(fecha: Json, hora: Json): (r: Result<Option<string>, Failure>)
    ensures r.Err? <==> DateOf(fecha).Err? || TimeOf(hora).Err?
  {
    match DateOf(fecha)
    case Err(e) => Err(e)
    case Ok(d) =>
      match TimeOf(hora)
      case Err(e) => Err(e)
      case Ok(t) => if d.None? || t.None? then Ok(None) else Ok(Some(d.value + " " + t.value))
  }

  /**
   * For string fields, the combination is absent exactly when the date or the
   * time does not normalise, and is otherwise "YYYY-MM-DD HH:MM:SS".
   */
  lemma CombineStrings(fecha: string, hora: string)
    ensures var d, t := Fechas.NormalizeDate(Some(fecha)), Horas.NormalizeTime(Some(hora));
      CombineDateTime(JString(fecha), JString(hora)) == if d.None? || t.None? then Ok(None) else Ok(Some(d.value + " " + t.value))
  {
    var d, t := Fechas.NormalizeDate(Some(fecha)), Horas.NormalizeTime(Some(hora));
    assert DateOf(JString(fecha)) == Ok(d);
    assert TimeOf(JString(hora)) == Ok(t);
  }

  /** A combined value is "YYYY-MM-DD HH:MM:SS": the normalised date, a space, the normalised time. */
  lemma CombineShape(fecha: string, hora: string, v: string)
    requires CombineDateTime(JString(fecha), JString(hora)) == Ok(Some(v))
    ensures |v| == 19 && v[10] == ' '
    ensures Fechas.NormalizeDate(Some(fecha)) == Some(v[..10])
    ensures Horas.NormalizeTime(Some(hora)) == Some(v[11..])
  {
    CombineStrings(fecha, hora);
    var d, t := Fechas.NormalizeDate(Some(fecha)), Horas.NormalizeTime(Some(hora));
    JoinShape(d.value, t.value, v);
  }

  lemma JoinShape(d: string, t: string, v: string)
    requires |d| == 10 && |t| == 8 && v == d + " " + t
    ensures |v| == 19 && v[10] == ' ' && v[..10] == d && v[11..] == t
  {
  }

  // ---------------------------------------------------------------------------
  // cargar_urls

  /** A row of the history CSV: `fila.get(...)` is absent when the column is. */
  datatype CsvRow = CsvRow(fileName: Option<string>, cleanLink: Option<string>)

  /** Lines 64-67: a trailing ".pdf", in any case, is not part of the id. */
  function DocId(fileName: string): (r: string)
    ensures |r| <= |fileName| && fileName[..|r|] == r
  {
    if EndsWith(Lower(fileName), ".pdf") then fileName[..|fileName| - 4] else fileName
  }

  /** Lines 58-69: the (id, link) a row files, if both fields are non-blank. */
  function RowEntry(row: CsvRow): (r: Option<(string, string)>)
    ensures r.Some? ==> r.value.1 != []
  {
    var f := Trim(row.fileName.GetOr(""), PySpace);
    var l := Trim(row.cleanLink.GetOr(""), PySpace);
    if f == [] || l == [] then None else Some((DocId(f), l))
  }

  /** What each row files, row by row. */
  function Entries(rows: seq<CsvRow>): (es: seq<Option<(string, string)>>)
    ensures |es| == |rows| && forall i | 0 <= i < |rows| :: es[i] == RowEntry(rows[i])
  {
    seq(|rows|, i requires 0 <= i < |rows| => RowEntry(rows[i]))
  }

  /** A dict filled by `d[k] = v` for each filed entry, in order. */
  function FileMap(es: seq<Option<(string, string)>>): (m: map<string, string>)
  {
    if es == [] then map[]
    else
      var m := FileMap(es[..|es| - 1]);
      match es[|es| - 1]
      case Some(e) => m[e.0 := e.1]
      case None => m
  }

  /** The map lines 57-69 build. */
  function UrlMap(rows: seq<CsvRow>): map<string, string> {
    FileMap(Entries(rows))
  }

  lemma UrlMapStep(rows: seq<CsvRow>, i: nat)
    requires i < |rows|
    ensures UrlMap(rows[..i + 1]) == match RowEntry(rows[i])
      case Some(e) => UrlMap(rows[..i])[e.0 := e.1]
      case None => UrlMap(rows[..i])
  {
    var es := Entries(rows[..i + 1]);
    assert es[..i] == Entries(rows[..i]);
    assert es[i] == RowEntry(rows[i]);
  }

  lemma UrlMapSkip(rows: seq<CsvRow>, i: nat)
    requires i < |rows|
    requires Trim(rows[i].fileName.GetOr(""), PySpace) == [] || Trim(rows[i].cleanLink.GetOr(""), PySpace) == []
    ensures UrlMap(rows[..i + 1]) == UrlMap(rows[..i])
  {
    UrlMapStep(rows, i);
  }

  lemma UrlMapFile(rows: seq<CsvRow>, i: nat, docId: string, link: string)
    requires i < |rows|
    requires var f := Trim(rows[i].fileName.GetOr(""), PySpace);
      && f != [] && link == Trim(rows[i].cleanLink.GetOr(""), PySpace) && link != []
      && docId == (if EndsWith(Lower(f), ".pdf") then f[..|f| - 4] else f)
    ensures UrlMap(rows[..i + 1]) == UrlMap(rows[..i])[docId := link]
  {
    UrlMapStep(rows, i);
  }

  /** `cargar_urls`; `None` stands for a missing CSV, which gives the empty map. */
  method CargarUrls(rows: Option<seq<CsvRow>>) returns (urls: map<string, string>)
    ensures rows.None? ==> urls == map[]
    ensures rows.Some? ==> urls == UrlMap(rows.value)
  {
    if rows.None? {
      return map[];
    }
    var filas := rows.value;
    urls := map[];
    for i := 0 to |filas|
      invariant urls == UrlMap(filas[..i])
    {
      var fileName := Trim(filas[i].fileName.GetOr(""), PySpace);
      var cleanLink := Trim(filas[i].cleanLink.GetOr(""), PySpace);
      if fileName == [] || cleanLink == [] {
        UrlMapSkip(filas, i);
        continue;
      }
      var docId;
      if EndsWith(Lower(fileName), ".pdf") {
        docId := fileName[..|fileName| - 4];
      } else {
        docId := fileName;
      }
      UrlMapFile(filas, i, docId, cleanLink);
      urls := urls[docId := cleanLink];
    }
    assert filas[..|filas|] == filas;
  }

  /** Every filed link is non-blank. */
  lemma {:induction false} FileMapNonBlank(es: seq<Option<(string, string)>>)
    requires forall i | 0 <= i < |es| :: es[i].Some? ==> es[i].value.1 != []
    ensures forall k | k in FileMap(es) :: FileMap(es)[k] != []
  {
    if es != [] {
      FileMapNonBlank(es[..|es| - 1]);
    }
  }

  /** A key is in the map exactly when some entry files it. */
  lemma {:induction false} FileMapDomain(es: seq<Option<(string, string)>>, k: string)
    ensures k in FileMap(es) <==> exists i | 0 <= i < |es| :: es[i].Some? && es[i].value.0 == k
  {
    if es != [] {
      var init := es[..|es| - 1];
      FileMapDomain(init, k);
      assert forall i | 0 <= i < |init| :: init[i] == es[i];
    }
  }

  /** The last entry that files a key decides its value. */
  lemma {:induction false} FileMapLastWins(es: seq<Option<(string, string)>>, i: nat, k: string, v: string)
    requires i < |es| && es[i] == Some((k, v))
    requires forall j | i < j < |es| :: es[j].None? || es[j].value.0 != k
    ensures k in FileMap(es) && FileMap(es)[k] == v
  {
    var init := es[..|es| - 1];
    if i < |es| - 1 {
      assert forall j | i < j < |init| :: init[j] == es[j];
      FileMapLastWins(init, i, k, v);
    }
  }

  /** Every document id in the map has a non-blank link. */
  lemma UrlMapNonBlank(rows: seq<CsvRow>)
    ensures forall d | d in UrlMap(rows) :: UrlMap(rows)[d] != []
  {
    FileMapNonBlank(Entries(rows));
  }

  /** An id is in the map exactly when some row files it. */
  lemma UrlMapDomain(rows: seq<CsvRow>, k: string)
    ensures k in UrlMap(rows) <==> exists i | 0 <= i < |rows| :: Entries(rows)[i].Some? && Entries(rows)[i].value.0 == k
  {
    FileMapDomain(Entries(rows), k);
  }

  /** The last row that files an id decides its link. */
  lemma UrlMapLastWins(rows: seq<CsvRow>, i: nat, k: string, v: string)
    requires i < |rows| && RowEntry(rows[i]) == Some((k, v))
    requires forall j | i < j < |rows| :: Entries(rows)[j].None? || Entries(rows)[j].value.0 != k
    ensures k in UrlMap(rows) && UrlMap(rows)[k] == v
  {
    FileMapLastWins(Entries(rows), i, k, v);
  }

  /** "A.PDF", "A.pdf" and "A.Pdf" are all filed under "A"; any other name under itself. */
  lemma DocIdPdf(stem: string, ext: string)
    requires |ext| == 4 && Lower(ext) == ".pdf"
    ensures DocId(stem + ext) == stem
  {
    var s := stem + ext;
    assert Lower(s)[|s| - 4..] == Lower(ext);
    assert s[..|s| - 4] == stem;
  }

  // ---------------------------------------------------------------------------
  // construir_registros

  datatype Record = Record(id: string, tipo: Json, fechaHora: Option<string>, asunto: Json, pagina: string, url: Option<string>)

  datatype ErrorRow = ErrorRow(id: string, pagina: string, fecha: Json, hora: Json)

  /** One per-document JSON file: its stem, and its contents unless they are not valid JSON. */
  datatype DocFile = DocFile(stem: string, content: Option<Json>)

  /** Python's `(a, b) < (c, d)` order on `_orden_pagina(key)` for `data.items()`. */
  predicate KeyLe(a: (string, Json), b: (string, Json)) {
    PageLe(a.0, b.0)
  }

  /** Lines 198-202: the link of a page, when the document has a non-blank one. */
  function PageUrl(urls: map<string, string>, docId: string, pagina: string): Option<string> {
    if docId in urls && urls[docId] != "" then Some(urls[docId] + "#page=" + pagina) else None
  }

  /** What one dict-valued page gives, and what the pages of one file give. */
  type PageResult = Result<(Record, Option<ErrorRow>), Failure>
  type Output = Result<(seq<Record>, seq<ErrorRow>), Failure>

  /** A page's record and error row agree: an error row exactly when there is no date and time, for the same page. */
  predicate Consistent(out: (Record, Option<ErrorRow>)) {
    && (out.1.Some? <==> out.0.fechaHora.None?)
    && (out.1.Some? ==> out.1.value.pagina == out.0.pagina)
  }

  /** Lines 183-213 for one dict-valued page: its record, and its error row if the date or time fails. */
  function PageOutput(docId: string, key: string, page: seq<(string, Json)>, urls: map<string, string>): (r: PageResult)
    ensures r.Err? <==> CombineDateTime(GetOrNull(page, "fecha"), GetOrNull(page, "hora")).Err?
    ensures r.Ok? ==>
      && r.value.0.id == docId + "_" + FormatPage(key)
      && r.value.0.pagina == NormalizePage(key)
      && r.value.0.fechaHora == CombineDateTime(GetOrNull(page, "fecha"), GetOrNull(page, "hora")).value
      && Consistent(r.value)
      && (r.value.1.Some? ==> r.value.1.value.id == docId)
  {
    var pagina := NormalizePage(key);
    var fecha, hora := GetOrNull(page, "fecha"), GetOrNull(page, "hora");
    var fh := CombineDateTime(fecha, hora);
    if fh.Err? then Err(fh.error)
    else
      var rec := Record(docId + "_" + FormatPage(key), GetOrNull(page, "tipo"), fh.value, GetOrNull(page, "asunto"),
                        pagina, PageUrl(urls, docId, pagina));
      Ok((rec, if fh.value.None? then Some(ErrorRow(docId, pagina, fecha, hora)) else None))
  }

  /** Lines 180-213 over pages in the order given, `page` giving each dict-valued one; other pages are skipped. */
  function PagesFold(items: seq<(string, Json)>, page: (string, seq<(string, Json)>) -> PageResult): Output {
    if items == [] then Ok(([], []))
    else
      var prev := PagesFold(items[..|items| - 1], page);
      var item := items[|items| - 1];
      if prev.Err? || !item.1.JObject? then prev
      else
        var out := page(item.0, item.1.fields);
        if out.Err? then Err(out.error)
        else
          var (regs, errs) := prev.value;
          var (rec, err) := out.value;
          Ok((regs + [rec], if err.Some? then errs + [err.value] else errs))
  }

  /** The loop body of lines 183-213, for the pages of document `docId`. */
  function PageFn(docId: string, urls: map<string, string>): (string, seq<(string, Json)>) -> PageResult {
    (key, fields) => PageOutput(docId, key, fields, urls)
  }

  function PagesOutput(docId: string, items: seq<(string, Json)>, urls: map<string, string>): Output {
    PagesFold(items, PageFn(docId, urls))
  }

  /** Lines 169-180 for one file: unreadable files and non-objects add nothing; pages go in `_orden_pagina` order. */
  function DocOutput(doc: DocFile, urls: map<string, string>): Result<(seq<Record>, seq<ErrorRow>), Failure> {
    if doc.content.Some? && doc.content.value.JObject? then PagesOutput(doc.stem, SortBy(doc.content.value.fields, KeyLe), urls)
    else Ok(([], []))
  }

  /** Lines 166-214 over the files in the order given, `out` giving each file's records and error rows. */
  function DocsFold(docs: seq<DocFile>, out: DocFile -> Output): Output {
    if docs == [] then Ok(([], []))
    else
      var prev := DocsFold(docs[..|docs| - 1], out);
      var last := out(docs[|docs| - 1]);
      if prev.Err? then prev
      else if last.Err? then Err(last.error)
      else Ok((prev.value.0 + last.value.0, prev.value.1 + last.value.1))
  }

  /** The body of lines 169-214, for one file. */
  function DocFn(urls: map<string, string>): DocFile -> Output {
    doc => DocOutput(doc, urls)
  }

  /** `construir_registros` over the files in the order given. */
  function BuildRecords(docs: seq<DocFile>, urls: map<string, string>): Output {
    DocsFold(docs, DocFn(urls))
  }

  /** Once a prefix of the pages fails, the whole document fails the same way. */
  lemma {:induction false} PagesErrPrefix(items: seq<(string, Json)>, j: nat, page: (string, seq<(string, Json)>) -> PageResult)
    requires j <= |items| && PagesFold(items[..j], page).Err?
    ensures PagesFold(items, page) == PagesFold(items[..j], page)
    decreases |items|
  {
    if j < |items| {
      var init := items[..|items| - 1];
      assert init[..j] == items[..j];
      PagesErrPrefix(init, j, page);
    } else {
      assert items[..j] == items;
    }
  }

  /** Once a prefix of the files fails, the whole run does. */
  lemma {:induction false} DocsErrPrefix(docs: seq<DocFile>, i: nat, out: DocFile -> Output)
    requires i <= |docs| && DocsFold(docs[..i], out).Err?
    ensures DocsFold(docs, out) == DocsFold(docs[..i], out)
    decreases |docs|
  {
    if i < |docs| {
      var init := docs[..|docs| - 1];
      assert init[..i] == docs[..i];
      DocsErrPrefix(init, i, out);
    } else {
      assert docs[..i] == docs;
    }
  }

  lemma PagesStepOk(items: seq<(string, Json)>, j: nat, page: (string, seq<(string, Json)>) -> PageResult,
                    acc: (seq<Record>, seq<ErrorRow>), rec: Record, err: Option<ErrorRow>)
    requires j < |items| && PagesFold(items[..j], page) == Ok(acc) && items[j].1.JObject?
    requires page(items[j].0, items[j].1.fields) == Ok((rec, err))
    ensures PagesFold(items[..j + 1], page) == Ok((acc.0 + [rec], if err.Some? then acc.1 + [err.value] else acc.1))
  {
    var pre := items[..j + 1];
    assert pre[..|pre| - 1] == items[..j];
    assert pre[|pre| - 1] == items[j];
  }

  lemma PagesStepSkip(items: seq<(string, Json)>, j: nat, page: (string, seq<(string, Json)>) -> PageResult, acc: (seq<Record>, seq<ErrorRow>))
    requires j < |items| && PagesFold(items[..j], page) == Ok(acc) && !items[j].1.JObject?
    ensures PagesFold(items[..j + 1], page) == Ok(acc)
  {
    var pre := items[..j + 1];
    assert pre[..|pre| - 1] == items[..j];
    assert pre[|pre| - 1] == items[j];
  }

  lemma PagesStepErr(items: seq<(string, Json)>, j: nat, page: (string, seq<(string, Json)>) -> PageResult, acc: (seq<Record>, seq<ErrorRow>), e: Failure)
    requires j < |items| && PagesFold(items[..j], page) == Ok(acc) && items[j].1.JObject?
    requires page(items[j].0, items[j].1.fields) == Err(e)
    ensures PagesFold(items, page) == Err(e)
  {
    var pre := items[..j + 1];
    assert pre[..|pre| - 1] == items[..j];
    assert pre[|pre| - 1] == items[j];
    assert PagesFold(pre, page) == Err(e);
    PagesErrPrefix(items, j + 1, page);
  }

  lemma DocsStepOk(docs: seq<DocFile>, i: nat, out: DocFile -> Output, acc: (seq<Record>, seq<ErrorRow>), o: (seq<Record>, seq<ErrorRow>))
    requires i < |docs| && DocsFold(docs[..i], out) == Ok(acc) && out(docs[i]) == Ok(o)
    ensures DocsFold(docs[..i + 1], out) == Ok((acc.0 + o.0, acc.1 + o.1))
  {
    var pre := docs[..i + 1];
    assert pre[..|pre| - 1] == docs[..i];
    assert pre[|pre| - 1] == docs[i];
  }

  lemma DocsStepErr(docs: seq<DocFile>, i: nat, out: DocFile -> Output, acc: (seq<Record>, seq<ErrorRow>), e: Failure)
    requires i < |docs| && DocsFold(docs[..i], out) == Ok(acc) && out(docs[i]) == Err(e)
    ensures DocsFold(docs, out) == Err(e)
  {
    var pre := docs[..i + 1];
    assert pre[..|pre| - 1] == docs[..i];
    assert pre[|pre| - 1] == docs[i];
    assert DocsFold(pre, out) == Err(e);
    DocsErrPrefix(docs, i + 1, out);
  }

  lemma BuildStepEmpty(docs: seq<DocFile>, i: nat, urls: map<string, string>, acc: (seq<Record>, seq<ErrorRow>))
    requires i < |docs| && BuildRecords(docs[..i], urls) == Ok(acc)
    requires docs[i].content.None? || !docs[i].content.value.JObject?
    ensures BuildRecords(docs[..i + 1], urls) == Ok(acc)
  {
    assert DocFn(urls)(docs[i]) == Ok(([], []));
    DocsStepOk(docs, i, DocFn(urls), acc, ([], []));
    AppendNothing(acc.0);
    AppendNothing(acc.1);
  }

  lemma BuildStepOk(docs: seq<DocFile>, i: nat, urls: map<string, string>, acc: (seq<Record>, seq<ErrorRow>), out: (seq<Record>, seq<ErrorRow>))
    requires i < |docs| && BuildRecords(docs[..i], urls) == Ok(acc)
    requires DocOutput(docs[i], urls) == Ok(out)
    ensures BuildRecords(docs[..i + 1], urls) == Ok((acc.0 + out.0, acc.1 + out.1))
  {
    DocsStepOk(docs, i, DocFn(urls), acc, out);
  }

  lemma BuildStepErr(docs: seq<DocFile>, i: nat, urls: map<string, string>, acc: (seq<Record>, seq<ErrorRow>), e: Failure)
    requires i < |docs| && BuildRecords(docs[..i], urls) == Ok(acc)
    requires DocOutput(docs[i], urls) == Err(e)
    ensures BuildRecords(docs, urls) == Err(e)
  {
    DocsStepErr(docs, i, DocFn(urls), acc, e);
  }

  /** Lines 180-213: the inner loop over one document's pages, in the order given. */
  method AgregarPaginas(docId: string, items: seq<(string, Json)>, urls: map<string, string>) returns (r: Output)
    ensures r == PagesOutput(docId, items, urls)
  {
    ghost var page := PageFn(docId, urls);
    var registros: seq<Record> := [];
    var errores: seq<ErrorRow> := [];
    for j := 0 to |items|
      invariant PagesFold(items[..j], page) == Ok((registros, errores))
    {
      var (pagina, paginaData) := items[j];
      if !paginaData.JObject? {
        PagesStepSkip(items, j, page, (registros, errores));
        continue;
      }
      var out := PageOutput(docId, pagina, paginaData.fields, urls);
      assert page(pagina, paginaData.fields) == out;
      if out.Err? {
        PagesStepErr(items, j, page, (registros, errores), out.error);
        return Err(out.error);
      }
      var (rec, err) := out.value;
      PagesStepOk(items, j, page, (registros, errores), rec, err);
      if err.Some? {
        errores := errores + [err.value];
      }
      registros := registros + [rec];
    }
    assert items[..|items|] == items;
    return Ok((registros, errores));
  }

  /** `construir_registros`: files in order, pages sorted by `_orden_pagina`, records and error rows appended as they come. */
  method ConstruirRegistros(docs: seq<DocFile>, urls: map<string, string>)
    returns (r: Result<(seq<Record>, seq<ErrorRow>), Failure>)
    ensures r == BuildRecords(docs, urls)
  {
    var registros: seq<Record> := [];
    var errores: seq<ErrorRow> := [];
    for i := 0 to |docs|
      invariant BuildRecords(docs[..i], urls) == Ok((registros, errores))
    {
      var doc := docs[i];
      if doc.content.None? || !doc.content.value.JObject? {
        BuildStepEmpty(docs, i, urls, (registros, errores));
        continue;
      }
      var items := SortBy(doc.content.value.fields, KeyLe);
      var paginas := AgregarPaginas(doc.stem, items, urls);
      assert DocOutput(doc, urls) == paginas;
      if paginas.Err? {
        BuildStepErr(docs, i, urls, (registros, errores), paginas.error);
        return Err(paginas.error);
      }
      BuildStepOk(docs, i, urls, (registros, errores), paginas.value);
      registros := registros + paginas.value.0;
      errores := errores + paginas.value.1;
    }
    assert docs[..|docs|] == docs;
    return Ok((registros, errores));
  }

  // ---------------------------------------------------------------------------
  // What the records say

  predicate IsObjectPage(item: (string, Json)) { item.1.JObject? }

  /** Number of dict-valued pages of a file that holds an object. */
  function DocPages(doc: DocFile): nat {
    if doc.content.Some? && doc.content.value.JObject? then Count(doc.content.value.fields, IsObjectPage) else 0
  }

  function TotalPages(docs: seq<DocFile>): nat {
    if docs == [] then 0 else TotalPages(docs[..|docs| - 1]) + DocPages(docs[|docs| - 1])
  }

  /** The pages of the records that have no date and time, in order. */
  function UndatedPages(regs: seq<Record>): seq<string> {
    if regs == [] then []
    else UndatedPages(regs[..|regs| - 1]) + (if regs[|regs| - 1].fechaHora.None? then [regs[|regs| - 1].pagina] else [])
  }

  function ErrorPages(errs: seq<ErrorRow>): seq<string> {
    if errs == [] then [] else ErrorPages(errs[..|errs| - 1]) + [errs[|errs| - 1].pagina]
  }

  lemma {:induction false} UndatedPagesAppend(a: seq<Record>, b: seq<Record>)
    ensures UndatedPages(a + b) == UndatedPages(a) + UndatedPages(b)
    decreases |b|
  {
    if b == [] {
      assert a + b == a;
    } else {
      assert (a + b)[..|a + b| - 1] == a + b[..|b| - 1];
      UndatedPagesAppend(a, b[..|b| - 1]);
    }
  }

  lemma {:induction false} ErrorPagesAppend(a: seq<ErrorRow>, b: seq<ErrorRow>)
    ensures ErrorPages(a + b) == ErrorPages(a) + ErrorPages(b)
    decreases |b|
  {
    if b == [] {
      assert a + b == a;
    } else {
      assert (a + b)[..|a + b| - 1] == a + b[..|b| - 1];
      ErrorPagesAppend(a, b[..|b| - 1]);
    }
  }

  /**
   * One record per dict-valued page, and one error row per record without a
   * date and time, for that record's page, in the same order.
   */
  lemma {:induction false} PagesCounts(items: seq<(string, Json)>, page: (string, seq<(string, Json)>) -> PageResult)
    requires forall key, fields :: page(key, fields).Ok? ==> Consistent(page(key, fields).value)
    requires PagesFold(items, page).Ok?
    ensures var (regs, errs) := PagesFold(items, page).value;
      |regs| == Count(items, IsObjectPage) && ErrorPages(errs) == UndatedPages(regs)
  {
    if items != [] {
      var init := items[..|items| - 1];
      var item := items[|items| - 1];
      PagesCounts(init, page);
      var (regs, errs) := PagesFold(init, page).value;
      assert items == init + [item];
      CountAppend(init, [item], IsObjectPage);
      if item.1.JObject? {
        var (rec, err) := page(item.0, item.1.fields).value;
        assert Consistent((rec, err));
        UndatedPagesAppend(regs, [rec]);
        if err.Some? {
          ErrorPagesAppend(errs, [err.value]);
        }
      }
    }
  }

  /** The records and error rows of one file: one record per dict-valued page, whatever the page order. */
  lemma DocCounts(doc: DocFile, urls: map<string, string>)
    requires DocOutput(doc, urls).Ok?
    ensures var (regs, errs) := DocOutput(doc, urls).value;
      |regs| == DocPages(doc) && ErrorPages(errs) == UndatedPages(regs)
  {
    if doc.content.Some? && doc.content.value.JObject? {
      var fields := doc.content.value.fields;
      var items := SortBy(fields, KeyLe);
      var page := PageFn(doc.stem, urls);
      forall key, fields | page(key, fields).Ok? ensures Consistent(page(key, fields).value) {
        assert page(key, fields) == PageOutput(doc.stem, key, fields, urls);
      }
      PagesCounts(items, page);
      CountPermutation(items, fields, IsObjectPage);
    }
  }

  /**
   * Over all files: one record per dict-valued page of every file that holds
   * an object, and one error row per record without a date and time, for that
   * record's page, in the same order.
   */
  lemma {:induction false} BuildCounts(docs: seq<DocFile>, urls: map<string, string>)
    requires BuildRecords(docs, urls).Ok?
    ensures var (regs, errs) := BuildRecords(docs, urls).value;
      |regs| == TotalPages(docs) && ErrorPages(errs) == UndatedPages(regs)
  {
    if docs != [] {
      var init := docs[..|docs| - 1];
      var doc := docs[|docs| - 1];
      BuildCounts(init, urls);
      var (regs, errs) := BuildRecords(init, urls).value;
      var (dr, de) := DocOutput(doc, urls).value;
      DocCounts(doc, urls);
      UndatedPagesAppend(regs, dr);
      ErrorPagesAppend(errs, de);
    }
  }

  // ---------------------------------------------------------------------------
  // Lines 241-247: ordenar_registros_por_fecha_desc

  /** `r.get("fecha_hora")` is truthy: present and not the empty text. */
  predicate Dated(r: Record) { r.fechaHora.Some? && r.fechaHora.value != "" }

  predicate Undated(r: Record) { !Dated(r) }

  function DateKey(r: Record): string { if r.fechaHora.Some? then r.fechaHora.value else "" }

  /** The order of `sort(key=fecha_hora, reverse=True)`: a later text first, equal texts in input order. */
  predicate NewerOrSame(a: Record, b: Record) { StrLe(DateKey(b), DateKey(a)) }

  /** The records with a date, newest first, then the ones without, as they came. */
  function OrderByDateDesc(regs: seq<Record>): seq<Record> {
    SortBy(Filter(regs, Dated), NewerOrSame) + Filter(regs, Undated)
  }

  lemma NewerOrSameOrder()
    ensures TotalPreorder(NewerOrSame)
  {
    StrLeTotalOrder();
    forall a: Record, b: Record ensures NewerOrSame(a, b) || NewerOrSame(b, a) {
      assert StrLe(DateKey(b), DateKey(a)) || StrLe(DateKey(a), DateKey(b));
    }
    forall a: Record, b: Record, c: Record | NewerOrSame(a, b) && NewerOrSame(b, c) ensures NewerOrSame(a, c) {
      assert StrLe(DateKey(c), DateKey(b)) && StrLe(DateKey(b), DateKey(a));
    }
  }

  /** Two records are tied under the order exactly when their dates are the same text. */
  lemma TiedMeansSameDate(a: Record, b: Record)
    ensures Tied(NewerOrSame, a, b) <==> DateKey(a) == DateKey(b)
  {
    StrLeTotalOrder();
  }

  /** The result holds every input record as many times as the input does. */
  lemma {:induction false} OrderPermutation(regs: seq<Record>)
    ensures multiset(OrderByDateDesc(regs)) == multiset(regs)
  {
    FilterPartition(regs, Dated, Undated);
  }

  /** The dated records, sorted: all dated, in non-increasing `fecha_hora` order. */
  lemma DatedPart(regs: seq<Record>, sorted: seq<Record>)
    requires sorted == SortBy(Filter(regs, Dated), NewerOrSame)
    ensures forall i | 0 <= i < |sorted| :: Dated(sorted[i])
    ensures forall i, j | 0 <= i < j < |sorted| :: StrLe(DateKey(sorted[j]), DateKey(sorted[i]))
  {
    var dated := Filter(regs, Dated);
    MultisetAll(sorted, dated, Dated);
    NewerOrSameOrder();
    SortBySorted(dated, NewerOrSame);
    forall i, j | 0 <= i < j < |sorted| ensures StrLe(DateKey(sorted[j]), DateKey(sorted[i])) {
      assert NewerOrSame(sorted[i], sorted[j]);
    }
  }

  /** The records without a date are all undated, and with the dated ones they make up the input. */
  lemma UndatedPart(regs: seq<Record>)
    ensures |Filter(regs, Dated)| + |Filter(regs, Undated)| == |regs|
    ensures forall i | 0 <= i < |Filter(regs, Undated)| :: !Dated(Filter(regs, Undated)[i])
  {
    var undated := Filter(regs, Undated);
    FilterPartition(regs, Dated, Undated);
    assert |multiset(Filter(regs, Dated)) + multiset(undated)| == |multiset(regs)|;
    forall i | 0 <= i < |undated| ensures !Dated(undated[i]) {
      assert Undated(undated[i]);
    }
  }

  /**
   * The first `n` records, `n` the number of dated inputs, are the dated ones in
   * non-increasing `fecha_hora` order; the rest are the undated inputs in input order.
   */
  lemma {:induction false} OrderShape(regs: seq<Record>)
    ensures var r, n := OrderByDateDesc(regs), |Filter(regs, Dated)|;
      && |r| == |regs| && n <= |r|
      && (forall i | 0 <= i < n :: Dated(r[i]))
      && (forall i | n <= i < |r| :: !Dated(r[i]))
      && (forall i, j | 0 <= i < j < n :: StrLe(DateKey(r[j]), DateKey(r[i])))
      && r[n..] == Filter(regs, Undated)
  {
    var sorted, undated := SortBy(Filter(regs, Dated), NewerOrSame), Filter(regs, Undated);
    DatedPart(regs, sorted);
    UndatedPart(regs);
    ShapeOf(sorted, undated);
  }

  /** Dated records in non-increasing order, followed by undated ones: the shape `OrderShape` states. */
  lemma ShapeOf(sorted: seq<Record>, undated: seq<Record>)
    requires forall i | 0 <= i < |sorted| :: Dated(sorted[i])
    requires forall i, j | 0 <= i < j < |sorted| :: StrLe(DateKey(sorted[j]), DateKey(sorted[i]))
    requires forall i | 0 <= i < |undated| :: !Dated(undated[i])
    ensures var r, n := sorted + undated, |sorted|;
      && (forall i | 0 <= i < n :: Dated(r[i]))
      && (forall i | n <= i < |r| :: !Dated(r[i]))
      && (forall i, j | 0 <= i < j < n :: StrLe(DateKey(r[j]), DateKey(r[i])))
      && r[n..] == undated
  {
    var r := sorted + undated;
    assert r[|sorted|..] == undated;
  }

  /** Records with the same `fecha_hora` keep the order they had in the input. */
  lemma {:induction false} OrderStable(regs: seq<Record>, e: Record)
    ensures var n := |Filter(regs, Dated)|;
      n <= |OrderByDateDesc(regs)|
      && TiedWith(OrderByDateDesc(regs)[..n], NewerOrSame, e) == TiedWith(Filter(regs, Dated), NewerOrSame, e)
  {
    var dated := Filter(regs, Dated);
    var r := OrderByDateDesc(regs);
    assert r[..|dated|] == SortBy(dated, NewerOrSame);
    NewerOrSameOrder();
    SortByStable(dated, NewerOrSame, e);
  }
}
