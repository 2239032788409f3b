/**
 * `c_normalizar_jsons.py`: the per-page OCR outputs `<doc_id>_page<n>_.json`
 * are grouped into one object per document, and each document is written as
 * `<doc_id>.json` with its pages in key order.
 */
module NormalizarJsons {
  import opened Wrappers
  import opened Text
  import opened Ordering
  import opened JsonValue
  import opened Dicts

  // ---------------------------------------------------------------------------
  // Line 12: FILENAME_PATTERN, compiled with IGNORECASE

  /** `[a-f0-9-]` under IGNORECASE. */
  predicate DocIdChar(c: char) { ('0' <= c <= '9') || ('a' <= c <= 'f') || ('A' <= c <= 'F') || c == '-' }

  predicate EqualIgnoringCase(s: string, t: string) { Lower(s) == Lower(t) }

  /**
   * `FILENAME_PATTERN.match(name)`: the groups `doc_id` and `page` when the
   * whole name matches. Neither group can give characters back to the next
   * part of the pattern (that part starts with '_', which neither group
   * accepts), so each group is the longest run it can take.
   */
  function MatchFilename(name: string): Option<(string, string)> {
    var k := Run(name, DocIdChar);
    if k == 0 || |name| - k < 5 || !EqualIgnoringCase(name[k..k + 5], "_page") then None
    else
      var tail := name[k + 5..];
      var j := Run(tail, IsDigit);
      if j == 0 || !EqualIgnoringCase(tail[j..], "_.json") then None
      else Some((name[..k], tail[..j]))
  }

  /** `name` is `docId`, "_page" in any case, the digits `page`, and "_.json" in any case. */
  predicate Shaped(name: string, docId: string, page: string) {
    && docId != [] && (forall i | 0 <= i < |docId| :: DocIdChar(docId[i]))
    && page != [] && AllDigits(page)
    && |name| == |docId| + |page| + 11
    && name[..|docId|] == docId
    && EqualIgnoringCase(name[|docId|..|docId| + 5], "_page")
    && name[|docId| + 5..|docId| + 5 + |page|] == page
    && EqualIgnoringCase(name[|docId| + 5 + |page|..], "_.json")
  }

  lemma UnderscoreIgnoringCase(s: string, t: string)
    requires EqualIgnoringCase(s, t) && s != [] && t != [] && t[0] == '_'
    ensures s[0] == '_'
  {
    assert Lower(s)[0] == LowerChar(s[0]) && Lower(t)[0] == LowerChar(t[0]);
  }

  /** The parts `Run` finds, put together, have the shape. */
  lemma ShapedParts(name: string, k: nat, j: nat)
    requires 0 < k && k + 5 <= |name| && (forall i | 0 <= i < k :: DocIdChar(name[i]))
    requires EqualIgnoringCase(name[k..k + 5], "_page")
    requires 0 < j <= |name| - (k + 5) && (forall i | k + 5 <= i < k + 5 + j :: IsDigit(name[i]))
    requires EqualIgnoringCase(name[k + 5..][j..], "_.json")
    ensures Shaped(name, name[..k], name[k + 5..][..j])
  {
    var tail := name[k + 5..];
    assert |Lower(tail[j..])| == |tail[j..]|;
    assert name[k + 5..k + 5 + j] == tail[..j];
    assert name[k + 5 + j..] == tail[j..];
    forall i | 0 <= i < j ensures IsDigit(tail[..j][i]) {
      assert tail[..j][i] == name[i + (k + 5)];
    }
  }

  lemma MatchedIsShaped(name: string, docId: string, page: string)
    requires MatchFilename(name) == Some((docId, page))
    ensures Shaped(name, docId, page)
  {
    var k := Run(name, DocIdChar);
    var tail := name[k + 5..];
    var j := Run(tail, IsDigit);
    forall i | k + 5 <= i < k + 5 + j ensures IsDigit(name[i]) {
      assert name[i] == tail[i - (k + 5)];
    }
    ShapedParts(name, k, j);
  }

  lemma ShapedIsMatched(name: string, docId: string, page: string)
    requires Shaped(name, docId, page)
    ensures MatchFilename(name) == Some((docId, page))
  {
    var k, j := |docId|, |page|;
    UnderscoreIgnoringCase(name[k..k + 5], "_page");
    assert name[k] == name[k..k + 5][0];
    forall i | 0 <= i < k ensures DocIdChar(name[i]) {
      assert name[i] == docId[i];
    }
    RunExact(name, DocIdChar, k);
    var tail := name[k + 5..];
    assert tail[..j] == page && tail[j..] == name[k + 5 + j..];
    UnderscoreIgnoringCase(tail[j..], "_.json");
    assert tail[j] == tail[j..][0];
    forall i | 0 <= i < j ensures IsDigit(tail[i]) {
      assert tail[i] == page[i];
    }
    RunExact(tail, IsDigit, j);
  }

  /** The pattern accepts exactly the names of that shape, and its groups are those parts. */
  lemma MatchFilenameShaped(name: string, docId: string, page: string)
    ensures MatchFilename(name) == Some((docId, page)) <==> Shaped(name, docId, page)
  {
    if MatchFilename(name) == Some((docId, page)) {
      MatchedIsShaped(name, docId, page);
    }
    if Shaped(name, docId, page) {
      ShapedIsMatched(name, docId, page);
    }
  }

  // ---------------------------------------------------------------------------
  // Lines 15-41: agrupar_paginas_por_documento

  /** `data.get` on a decoded value that is not an object; the input directory missing (line 65). */
  datatype Failure = AttributeError | FileNotFoundError

  /** A file of the input directory: its name, and what `json.load` made of it (`None`: a decode error). */
  datatype JsonFile = JsonFile(name: string, data: Option<Json>)

  /** A document's pages: page id to OCR output, in insertion order. */
  type Pages = seq<(string, Json)>

  /** Document id to pages, in insertion order. */
  type Docs = seq<(string, Pages)>

  predicate IsJsonName(f: JsonFile) { EndsWith(f.name, ".json") }

  predicate NameLe(a: JsonFile, b: JsonFile) { StrLe(a.name, b.name) }

  /** Line 18: `sorted(input_dir.glob("*.json"))`; the paths share their directory, so they sort by name. */
  function Listing(entries: seq<JsonFile>): seq<JsonFile> {
    SortBy(Filter(entries, IsJsonName), NameLe)
  }

  /** Lines 19-37 on one file: the document, page and output it stores, if any. */
  function Contribution(f: JsonFile): Result<Option<(string, string, Json)>, Failure> {
    var m := MatchFilename(f.name);
    if m.None? || f.data.None? then Ok(None)
    else if !f.data.value.JObject? then Err(AttributeError)
    else
      var output := Lookup(f.data.value.fields, "output");
      if output.Some? && output.value.JObject? then Ok(Some((m.value.0, m.value.1, output.value))) else Ok(None)
  }

  predicate Accepted(f: JsonFile) { Contribution(f).Ok? && Contribution(f).value.Some? }

  /** Line 39: `documentos[doc_id][page_id] = output`, the inner dict created empty on first use. */
  function Store(docs: Docs, docId: string, pageId: string, output: Json): Docs {
    Put(docs, docId, Put(Lookup(docs, docId).GetOr([]), pageId, output))
  }

  /** The grouping after the files `files`, in that order. */
  function Group(files: seq<JsonFile>): Result<Docs, Failure> {
    if files == [] then Ok([])
    else
      var prev := Group(files[..|files| - 1]);
      var c := Contribution(files[|files| - 1]);
      if prev.Err? then prev
      else if c.Err? then Err(c.error)
      else if c.value.None? then prev
      else Ok(Store(prev.value, c.value.value.0, c.value.value.1, c.value.value.2))
  }

  lemma {:induction false} GroupErrPrefix(files: seq<JsonFile>, i: nat)
    requires i <= |files| && Group(files[..i]).Err?
    ensures Group(files) == Group(files[..i])
    decreases |files| - i
  {
    if i < |files| {
      var pre := files[..i + 1];
      assert pre[..|pre| - 1] == files[..i];
      GroupErrPrefix(files, i + 1);
    } else {
      assert files[..i] == files;
    }
  }

  lemma GroupStep(files: seq<JsonFile>, i: nat, docs: Docs)
    requires i < |files| && Group(files[..i]) == Ok(docs)
    ensures Group(files[..i + 1]) == match Contribution(files[i])
      case Err(e) => Err(e)
      case Ok(c) => if c.None? then Ok(docs) else Ok(Store(docs, c.value.0, c.value.1, c.value.2))
  {
    var pre := files[..i + 1];
    assert pre[..|pre| - 1] == files[..i];
    assert pre[|pre| - 1] == files[i];
  }

  /** Lines 15-41, over the directory listing. */
  method AgruparPaginasPorDocumento(entries: seq<JsonFile>) returns (r: Result<Docs, Failure>)
    ensures r == Group(Listing(entries))
  {
    var files := Listing(entries);
    var documentos: Docs := [];
    for i := 0 to |files|
      invariant Group(files[..i]) == Ok(documentos)
    {
      var jsonPath := files[i];
      GroupStep(files, i, documentos);
      var m := MatchFilename(jsonPath.name);
      if m.None? {
        continue;
      }
      var (docId, pageId) := m.value;
      if jsonPath.data.None? {
        continue;
      }
      var data := jsonPath.data.value;
      if !data.JObject? {
        GroupErrPrefix(files, i + 1);
        return Err(AttributeError);
      }
      var output := Lookup(data.fields, "output");
      if !(output.Some? && output.value.JObject?) {
        continue;
      }
      documentos := Store(documentos, docId, pageId, output.value);
    }
    assert files[..|files|] == files;
    r := Ok(documentos);
  }

  // ---------------------------------------------------------------------------
  // What the grouping holds

  /** `documentos[doc_id][page_id]`, if both keys are present. */
  function PageOf(docs: Docs, docId: string, pageId: string): Option<Json> {
    var pages := Lookup(docs, docId);
    if pages.Some? then Lookup(pages.value, pageId) else None
  }

  /** The output of the last accepted file among `files` for that document and page. */
  function LastOutput(files: seq<JsonFile>, docId: string, pageId: string): Option<Json> {
    if files == [] then None
    else
      var c := Contribution(files[|files| - 1]);
      if c.Ok? && c.value.Some? && c.value.value.0 == docId && c.value.value.1 == pageId then Some(c.value.value.2)
      else LastOutput(files[..|files| - 1], docId, pageId)
  }

  lemma StoreLookup(docs: Docs, d: string, p: string, o: Json, d': string, p': string)
    ensures PageOf(Store(docs, d, p, o), d', p') == if d' == d && p' == p then Some(o) else PageOf(docs, d', p')
  {
    var inner := Lookup(docs, d).GetOr([]);
    PutLookup(docs, d, Put(inner, p, o), d');
    PutLookup(inner, p, o, p');
  }

  /**
   * What the grouping stores under a document and page is the output of the
   * last accepted file for that pair: a name that does not match, a file that
   * does not decode, or an "output" that is not an object stores nothing, and
   * a later file for the same pair replaces an earlier one. The page key is
   * the raw digit text, so "01" and "1" are different pages.
   */
  lemma {:induction false} GroupLookup(files: seq<JsonFile>, docId: string, pageId: string)
    requires Group(files).Ok?
    ensures PageOf(Group(files).value, docId, pageId) == LastOutput(files, docId, pageId)
  {
    if files != [] {
      var init := files[..|files| - 1];
      GroupLookup(init, docId, pageId);
      var c := Contribution(files[|files| - 1]);
      if c.value.Some? {
        StoreLookup(Group(init).value, c.value.value.0, c.value.value.1, c.value.value.2, docId, pageId);
      }
    }
  }

  /** A file whose JSON is not an object, which stops the grouping. */
  predicate Rejected(f: JsonFile) { Contribution(f).Err? }

  lemma GroupErrStep(files: seq<JsonFile>)
    requires files != []
    ensures Group(files).Err? <==> Group(files[..|files| - 1]).Err? || Rejected(files[|files| - 1])
  {
  }

  lemma {:induction false} RejectedFails(files: seq<JsonFile>, i: nat)
    requires i < |files| && Rejected(files[i])
    ensures Group(files).Err?
  {
    var init := files[..|files| - 1];
    GroupErrStep(files);
    if i < |init| {
      assert init[i] == files[i];
      RejectedFails(init, i);
    }
  }

  lemma {:induction false} FailsRejected(files: seq<JsonFile>) returns (i: nat)
    requires Group(files).Err?
    ensures i < |files| && Rejected(files[i])
  {
    var init := files[..|files| - 1];
    GroupErrStep(files);
    if Rejected(files[|files| - 1]) {
      i := |files| - 1;
    } else {
      i := FailsRejected(init);
      assert init[i] == files[i];
    }
  }

  /** The grouping fails exactly when one of the files decodes to something that is not an object. */
  lemma GroupErr(files: seq<JsonFile>)
    ensures Group(files).Err? <==> exists i | 0 <= i < |files| :: Rejected(files[i])
  {
    if Group(files).Err? {
      var i := FailsRejected(files);
    }
    if exists i | 0 <= i < |files| :: Rejected(files[i]) {
      var i :| 0 <= i < |files| && Rejected(files[i]);
      RejectedFails(files, i);
    }
  }

  /** Every document has at least one page, and no key appears twice at either level. */
  predicate WellFormed(docs: Docs) {
    UniqueKeys(docs) && forall i | 0 <= i < |docs| :: docs[i].1 != [] && UniqueKeys(docs[i].1)
  }

  lemma StoreWellFormed(docs: Docs, d: string, p: string, o: Json)
    requires WellFormed(docs)
    ensures WellFormed(Store(docs, d, p, o))
  {
    var inner := Lookup(docs, d).GetOr([]);
    if Lookup(docs, d).Some? {
      LookupEntry(docs, d);
    }
    assert UniqueKeys(inner);
    var pages := Put(inner, p, o);
    PutUnique(inner, p, o);
    PutUnique(docs, d, pages);
    PutEntries(docs, d, pages);
  }

  lemma {:induction false} GroupWellFormed(files: seq<JsonFile>)
    requires Group(files).Ok?
    ensures WellFormed(Group(files).value)
  {
    if files != [] {
      var init := files[..|files| - 1];
      GroupWellFormed(init);
      var c := Contribution(files[|files| - 1]);
      if c.value.Some? {
        StoreWellFormed(Group(init).value, c.value.value.0, c.value.value.1, c.value.value.2);
      }
    }
  }

  // ---------------------------------------------------------------------------
  // Lines 75-76: the totals reported

  /** `sum(len(pages) for pages in documentos.values())`. */
  function TotalPages(docs: Docs): nat {
    if docs == [] then 0 else |docs[0].1| + TotalPages(docs[1..])
  }

  lemma {:induction false} PutTotal(docs: Docs, d: string, pages: Pages)
    ensures TotalPages(Put(docs, d, pages)) + |Lookup(docs, d).GetOr([])| == TotalPages(docs) + |pages|
  {
    if docs != [] {
      if docs[0].0 == d {
        assert Put(docs, d, pages)[1..] == docs[1..];
      } else {
        PutTotal(docs[1..], d, pages);
        assert Put(docs, d, pages)[1..] == Put(docs[1..], d, pages);
      }
    }
  }

  lemma StoreTotal(docs: Docs, d: string, p: string, o: Json)
    ensures TotalPages(Store(docs, d, p, o)) <= TotalPages(docs) + 1
  {
    var inner := Lookup(docs, d).GetOr([]);
    PutLength(inner, p, o);
    PutTotal(docs, d, Put(inner, p, o));
  }

  /** One more file leaves the grouping as it was, or stores the file's page. */
  lemma GroupSnoc(files: seq<JsonFile>)
    requires files != [] && Group(files).Ok?
    ensures var init, c := files[..|files| - 1], Contribution(files[|files| - 1]);
      && Group(init).Ok? && c.Ok?
      && Group(files).value == if c.value.None? then Group(init).value
                               else Store(Group(init).value, c.value.value.0, c.value.value.1, c.value.value.2)
  {
  }

  /** Each accepted file adds at most one page to the total. */
  lemma {:induction false} GroupTotal(files: seq<JsonFile>)
    requires Group(files).Ok?
    ensures TotalPages(Group(files).value) <= Count(files, Accepted)
  {
    if files != [] {
      var init := files[..|files| - 1];
      GroupSnoc(files);
      GroupTotal(init);
      CountSnoc(files, Accepted);
      var c := Contribution(files[|files| - 1]);
      if c.value.Some? {
        StoreTotal(Group(init).value, c.value.value.0, c.value.value.1, c.value.value.2);
      }
    }
  }

  // ---------------------------------------------------------------------------
  // Lines 44-56: escribir_documentos

  predicate PageKeyLe(a: (string, Json), b: (string, Json)) { StrLe(a.0, b.0) }

  /** Line 51: the pages of one document in order of their keys. */
  function OrderedPages(pages: Pages): Pages {
    SortBy(pages, PageKeyLe)
  }

  /** The files lines 47-56 write, as (file name, pages), skipping a document without pages. */
  function Written(docs: Docs): seq<(string, Pages)> {
    if docs == [] then []
    else
      var prev := Written(docs[..|docs| - 1]);
      var doc := docs[|docs| - 1];
      if doc.1 == [] then prev else prev + [(doc.0 + ".json", OrderedPages(doc.1))]
  }

  method EscribirDocumentos(documentos: Docs) returns (files: seq<(string, Pages)>)
    ensures files == Written(documentos)
  {
    files := [];
    for i := 0 to |documentos|
      invariant files == Written(documentos[..i])
    {
      var (docId, pages) := documentos[i];
      var pre := documentos[..i + 1];
      assert pre[..|pre| - 1] == documentos[..i] && pre[|pre| - 1] == documentos[i];
      if pages == [] {
        continue;
      }
      var paginasOrdenadas := OrderedPages(pages);
      files := files + [(docId + ".json", paginasOrdenadas)];
    }
    assert documentos[..|documentos|] == documentos;
  }

  lemma PageKeyOrder()
    ensures TotalPreorder(PageKeyLe)
  {
    StrLeTotalOrder();
    forall a: (string, Json), b: (string, Json) ensures PageKeyLe(a, b) || PageKeyLe(b, a) {
      assert StrLe(a.0, b.0) || StrLe(b.0, a.0);
    }
    forall a: (string, Json), b: (string, Json), c: (string, Json) | PageKeyLe(a, b) && PageKeyLe(b, c)
      ensures PageKeyLe(a, c)
    {
      assert StrLe(a.0, b.0) && StrLe(b.0, c.0);
    }
  }

  /** A document's pages are written in key order, none lost and none added. */
  lemma OrderedPagesSorted(pages: Pages)
    ensures multiset(OrderedPages(pages)) == multiset(pages)
    ensures forall i, j | 0 <= i < j < |pages| :: StrLe(OrderedPages(pages)[i].0, OrderedPages(pages)[j].0)
  {
    PageKeyOrder();
    SortBySorted(pages, PageKeyLe);
  }

  /** The file for document `d` is "`d`.json" holding its pages in key order; a name maps back to one document. */
  lemma {:induction false} WrittenLookup(docs: Docs, d: string)
    requires WellFormed(docs)
    ensures Lookup(Written(docs), d + ".json") == if Lookup(docs, d).Some? then Some(OrderedPages(Lookup(docs, d).value)) else None
  {
    if docs != [] {
      var init, last := docs[..|docs| - 1], docs[|docs| - 1];
      WellFormedInit(docs);
      WrittenLookup(init, d);
      LookupSnoc(init, last, d);
      WrittenSnoc(docs);
      LookupSnoc(Written(init), (last.0 + ".json", OrderedPages(last.1)), d + ".json");
      if last.0 + ".json" == d + ".json" {
        JsonNameInjective(last.0, d);
        UniqueLast(docs);
      }
    }
  }

  lemma WellFormedInit(docs: Docs)
    requires WellFormed(docs) && docs != []
    ensures WellFormed(docs[..|docs| - 1]) && docs[|docs| - 1].1 != []
    ensures docs == docs[..|docs| - 1] + [docs[|docs| - 1]]
  {
    var init := docs[..|docs| - 1];
    forall i, j | 0 <= i < j < |init| ensures init[i].0 != init[j].0 {
      assert init[i] == docs[i] && init[j] == docs[j];
    }
    forall i | 0 <= i < |init| ensures init[i].1 != [] && UniqueKeys(init[i].1) {
      assert init[i] == docs[i];
    }
  }

  lemma WrittenSnoc(docs: Docs)
    requires docs != [] && docs[|docs| - 1].1 != []
    ensures Written(docs) == Written(docs[..|docs| - 1]) + [(docs[|docs| - 1].0 + ".json", OrderedPages(docs[|docs| - 1].1))]
  {
  }

  /** Two documents never share an output file name. */
  lemma JsonNameInjective(a: string, b: string)
    requires a + ".json" == b + ".json"
    ensures a == b
  {
    assert |a| == |b|;
    assert a == (a + ".json")[..|a|];
  }

  lemma UniqueLast<K, V>(d: seq<(K, V)>)
    requires UniqueKeys(d) && d != []
    ensures d[|d| - 1].0 !in KeySeq(d[..|d| - 1])
  {
    var init := d[..|d| - 1];
    forall i | 0 <= i < |init| ensures KeySeq(init)[i] != d[|d| - 1].0 {
      assert init[i] == d[i];
    }
  }

  /** Every grouped document is written, one file each. */
  lemma {:induction false} WrittenCount(docs: Docs)
    requires forall i | 0 <= i < |docs| :: docs[i].1 != []
    ensures |Written(docs)| == |docs|
  {
    if docs != [] {
      var init := docs[..|docs| - 1];
      assert forall i | 0 <= i < |init| :: init[i] == docs[i];
      WrittenCount(init);
    }
  }

  // ---------------------------------------------------------------------------
  // Lines 59-77: main

  datatype Summary = Summary(written: seq<(string, Pages)>, totalDocs: nat, totalPages: nat)

  /** A run over the input directory: `None` when no document was found and nothing was written. */
  function Normalize(inputExists: bool, entries: seq<JsonFile>): (r: Result<Option<Summary>, Failure>)
    ensures !inputExists ==> r == Err(FileNotFoundError)
    ensures r.Ok? && r.value.Some? ==> r.value.value.totalDocs == |r.value.value.written|
    ensures r.Ok? && r.value.Some? ==> r.value.value.totalPages <= Count(Listing(entries), Accepted)
  {
    if !inputExists then Err(FileNotFoundError)
    else
      var g := Group(Listing(entries));
      if g.Err? then Err(g.error)
      else if g.value == [] then Ok(None)
      else
        GroupWellFormed(Listing(entries));
        WrittenCount(g.value);
        GroupTotal(Listing(entries));
        Ok(Some(Summary(Written(g.value), |g.value|, TotalPages(g.value))))
  }
}
