# parliament-voting-web, modelled in Dafny

The repository publishes the votes of the Peruvian Congress as a searchable web
page. Two Python pipelines build its data, and a React front end searches it.

* The **scraping** pipeline (`notebooks/scraping`):
  * reads the agenda table of the Congress web site and files every new document in a history CSV;
  * chooses the documents still to download, and downloads their PDFs with retries;
  * cuts every PDF into page images;
  * crops the header zone that a detector finds on each image.
* The **encabezados** pipeline (`notebooks/encabezados`):
  * lists the header crops;
  * sends each one to a vision model with retries, and cleans the JSON the model answers;
  * groups the answers per document;
  * normalises each page's date and time and joins the page's link;
  * orders the records newest first, and writes them to JSON and to an SQLite table.
* The **front end** (`src`):
  * a web worker loads the records, and filters and sorts them for a query;
  * a hook keeps the filters, the URL and the results in step;
  * a list shows the results fifty at a time;
  * two small stores hold the banner flag and the PDF being viewed.

Each core file has one Dafny module, except `d_generar_json_unico.py`, which has five:

* `PageKeys` holds its page keys;
* `Fechas` holds `_normalizar_fecha`;
* `Horas` holds `_normalizar_hora`, and `HorasProps` holds what it does to the clock texts it is written for;
* `JsonUnico` holds the rest of that file.

`Wrappers`, `Text`, `Seqs`, `Ordering`, `Dicts`, `JsonValue` and `Paths` are shared helpers that no single file owns. Across the modules:

* Pure transformations are functions over datatypes, with lemmas about them.
* Loops are methods, proved equal to the functions that specify them.
* State that the front end updates in place is a class:
  * `SearchWorker.Worker` is the worker;
  * `VotacionesSearch.SearchState` is the search hook;
  * `BannerStore.Banner` is the banner store;
  * `PdfModal.PdfModal` is the modal hook.

Every call into a library or the outside world is a parameter of the operation that makes it:

* file and directory listings;
* `json.loads` and `json.dumps`;
* `uuid5`;
* the vision model and the HTTP client;
* PDF rendering and the detector;
* `fetch`;
* Unicode NFD with `toLowerCase`;
* the local time-zone offset.

A retry loop's attempts are an oracle indexed by attempt number. Helper modules model:

* Python and JavaScript strings (`Text`);
* ordered dictionaries (`Dicts`);
* JSON values (`JsonValue`);
* paths (`Paths`);
* Option/Result (`Wrappers`);
* stable sorting and filtering (`Ordering`);
* sequence facts (`Seqs`).

## Model

| member | source | states |
|---|---|---|
| PageKeys.IntToStringParses | notebooks/encabezados/d_generar_json_unico.py:25 | `int(str(n)) == n` for every integer, negative ones included |
| PageKeys.NatParse | notebooks/encabezados/d_generar_json_unico.py:18 | a canonical numeral parses back to the number it was printed from |
| PageKeys.PageLeTotalOrder | notebooks/encabezados/d_generar_json_unico.py:16-20 | the `(int or 0, key)` order of page keys is a total preorder, so `sorted` by it is fully determined |
| PageKeys.NumericKeysByValue | notebooks/encabezados/d_generar_json_unico.py:16-18 | numeric page keys sort by the number they spell, whatever their spelling |
| PageKeys.NonNumericBeforePositive | notebooks/encabezados/d_generar_json_unico.py:16-20 | a non-numeric key ranks as page 0, before every positive page |
| PageKeys.NormalizePageKeepsValue | notebooks/encabezados/d_generar_json_unico.py:23-27 | normalising a page keeps the number it denotes, leaves non-numeric keys alone, and is idempotent |
| PageKeys.NormalizePageSameNumber | notebooks/encabezados/d_generar_json_unico.py:23-27 | two spellings of one number normalise to the same text |
| PageKeys.NormalizePageDropsLeadingZeros | notebooks/encabezados/d_generar_json_unico.py:23-27 | "007" normalises to "7" |
| PageKeys.FormatPageNumeric | notebooks/encabezados/d_generar_json_unico.py:30-33 | a non-negative page becomes "page" and its number zero-padded to 3 digits, which reads back as that number |
| PageKeys.FormatPageNonNumeric | notebooks/encabezados/d_generar_json_unico.py:30-35 | a non-numeric key is appended to "page" unchanged |
| PageKeys.FormatPageInjective | notebooks/encabezados/d_generar_json_unico.py:30-33 | distinct non-negative pages get distinct page ids |
| Fechas.IsoDate | notebooks/encabezados/d_generar_json_unico.py:96 | `strftime("%Y-%m-%d")` is ten characters with dashes at 4 and 7 |
| Fechas.StrptimeDMY | notebooks/encabezados/d_generar_json_unico.py:92 | `strptime("%d/%m/%Y")` only yields calendar-valid dates |
| Fechas.DayTextValue | notebooks/encabezados/d_generar_json_unico.py:92 | a text accepted by the `%d` pattern is digits with value 1 to 31 |
| Fechas.MonthTextValue | notebooks/encabezados/d_generar_json_unico.py:92 | a text accepted by the `%m` pattern is digits with value 1 to 12 |
| Fechas.StrptimeFields | notebooks/encabezados/d_generar_json_unico.py:92 | `strptime` on "dd/mm/yyyy" reads exactly those three fields |
| Fechas.StrptimePadded | notebooks/encabezados/d_generar_json_unico.py:92 | padded day, month and year parse back to the date exactly when it is a valid date |
| Fechas.NormalizeDate | notebooks/encabezados/d_generar_json_unico.py:73-96 | no date for a missing or empty text; any date given is a valid date in ISO form |
| Fechas.RemoveBlanksNone | notebooks/encabezados/d_generar_json_unico.py:83 | a text without blanks is untouched by the blank removal |
| Fechas.RemoveBlanksReplace | notebooks/encabezados/d_generar_json_unico.py:80-83 | removing blanks and replacing one non-blank character by another can be done in either order |
| Fechas.CleanDateSlashes | notebooks/encabezados/d_generar_json_unico.py:77-83 | the cleaned text is the input without any blank, with '-' and '.' turned into '/': the strip adds nothing to the blank removal |
| Fechas.CleanDateIgnoresBlanks | notebooks/encabezados/d_generar_json_unico.py:77-83 | removing the blanks first does not change the cleaned text |
| Fechas.NormalizeDateIgnoresBlanks | notebooks/encabezados/d_generar_json_unico.py:73-96 | blanks anywhere in a date text, between the numbers included, do not change its normalised date |
| Fechas.SepMappedCleans | notebooks/encabezados/d_generar_json_unico.py:77-83 | the strip, the '-'/'.' to '/' mapping and the blank removal give the cleaned text |
| Fechas.CleanDmy | notebooks/encabezados/d_generar_json_unico.py:77-83 | "d-m-y" and "d.m.y" clean up to "d/m/y" |
| Fechas.CleanSplit | notebooks/encabezados/d_generar_json_unico.py:77-86 | a date with any separator cleans to "d/m/y" and splits into its three parts |
| Fechas.SplitDmy | notebooks/encabezados/d_generar_json_unico.py:86 | "d/m/y" splits into `[d, m, y]` |
| Fechas.ExpandYearParts | notebooks/encabezados/d_generar_json_unico.py:86-89 | a two-digit year gets "20" in front |
| Fechas.NormalizeDateVia | notebooks/encabezados/d_generar_json_unico.py:73-96 | normalising is strptime on the cleaned, year-expanded text, then ISO formatting |
| Fechas.DateRoundTrip | notebooks/encabezados/d_generar_json_unico.py:73-96 | a padded "dd?mm?yyyy" of a valid date, with any of the three separators, normalises to that date in ISO form |
| Fechas.TwoDigitYear | notebooks/encabezados/d_generar_json_unico.py:86-89 | a two-digit year of 2000-2099 is read as that year |
| Fechas.InvalidDateRejected | notebooks/encabezados/d_generar_json_unico.py:91-94 | a padded date that is not a calendar date gives no date |
| Fechas.NormalizeDateNotIdempotent | notebooks/encabezados/d_generar_json_unico.py:73-96 | normalising an already normalised date gives nothing: ISO text is not accepted as input |
| Fechas.IsoDateRejected | notebooks/encabezados/d_generar_json_unico.py:92-94 | an ISO date is refused by `%d/%m/%Y` |
| Fechas.ExpandedIsoRejected | notebooks/encabezados/d_generar_json_unico.py:86-94 | the year expansion does not rescue an ISO date either |
| Horas.ClockText | notebooks/encabezados/d_generar_json_unico.py:137 | `strftime("%H:%M:%S")` is eight characters with colons at 2 and 5 |
| Horas.FieldTextValue | notebooks/encabezados/d_generar_json_unico.py:136 | a field accepted by a directive is digits within the directive's range, and `%I` is at least 1 |
| Horas.MatchFormat | notebooks/encabezados/d_generar_json_unico.py:136 | a successful match of a format yields fields within their ranges |
| Horas.ToClock | notebooks/encabezados/d_generar_json_unico.py:136-137 | matched fields give a valid 24-hour clock reading |
| Horas.ParseWith | notebooks/encabezados/d_generar_json_unico.py:136 | `strptime` with one format gives a valid clock reading or fails |
| Horas.ParseFirst | notebooks/encabezados/d_generar_json_unico.py:134-141 | the first format that parses gives a valid clock reading |
| Horas.FirstZeroZero | notebooks/encabezados/d_generar_json_unico.py:120 | finds the first position where `\b00:` matches |
| Horas.NormalizeTime | notebooks/encabezados/d_generar_json_unico.py:99-141 | the corrected normaliser: no time for a missing or empty text; any time given is a valid clock in "HH:MM:SS" form |
| Horas.NormalizeTimeAsWritten | notebooks/encabezados/d_generar_json_unico.py:99-141 | the normaliser as written, with the midnight fix of lines 119-120 applied where the search matches |
| Horas.NormalizarHora | notebooks/encabezados/d_generar_json_unico.py:134-141 | the loop over the six formats returns what the corrected normaliser specifies |
| HorasProps.To24 | notebooks/encabezados/d_generar_json_unico.py:126-129 | `%I` with `%p` denotes this 24-hour hour |
| HorasProps.PrepareHead | notebooks/encabezados/d_generar_json_unico.py:103-106 | strip, upper-casing and dot removal leave a tidy text alone |
| HorasProps.MeridiemStepsKeep | notebooks/encabezados/d_generar_json_unico.py:109-113 | the AM/PM respacing keeps "D AM" when D ends with a digit |
| HorasProps.MeridiemStepsNone | notebooks/encabezados/d_generar_json_unico.py:109-113 | the AM/PM respacing only touches texts ending in AM or PM |
| HorasProps.TwelveChars | notebooks/encabezados/d_generar_json_unico.py:103-116 | a canonical 12-hour text has nothing the clean-up steps remove |
| HorasProps.DigitsNeverMatchMeridiem | notebooks/encabezados/d_generar_json_unico.py:126-129 | a format with a blank or `%p` never matches a text of digits and colons |
| HorasProps.Pad2ZeroZero | notebooks/encabezados/d_generar_json_unico.py:119 | "00" is the only two-digit spelling of zero |
| HorasProps.MatchTwelveShort | notebooks/encabezados/d_generar_json_unico.py:126 | "HH:MM AM" is read by the first format |
| HorasProps.MatchHourMinute | notebooks/encabezados/d_generar_json_unico.py:126-129 | the hour-minute part of every 12-hour format reads "HH:MM" |
| HorasProps.MatchTwelveLongFirstFail | notebooks/encabezados/d_generar_json_unico.py:126-127 | "HH:MM:SS AM" is refused by the first two formats |
| HorasProps.MatchTwelveLong | notebooks/encabezados/d_generar_json_unico.py:128 | "HH:MM:SS AM" is read by the third format |
| HorasProps.MatchHourMinute24 | notebooks/encabezados/d_generar_json_unico.py:130-131 | the hour-minute part of both 24-hour formats |
| HorasProps.TwelveFormatsFail | notebooks/encabezados/d_generar_json_unico.py:126-129 | no 12-hour format reads a text of digits and colons |
| HorasProps.MatchShort24 | notebooks/encabezados/d_generar_json_unico.py:130 | "HH:MM" is read by the fifth format |
| HorasProps.MatchLong24 | notebooks/encabezados/d_generar_json_unico.py:130-131 | "HH:MM:SS" is refused by the fifth format and read by the sixth |
| HorasProps.ParseFirstAt | notebooks/encabezados/d_generar_json_unico.py:134-141 | when the formats before k fail and format k matches, the loop returns format k's reading |
| HorasProps.ParseTwelve | notebooks/encabezados/d_generar_json_unico.py:125-141 | a 12-hour text is read as the 24-hour clock it denotes |
| HorasProps.Parse24 | notebooks/encabezados/d_generar_json_unico.py:125-141 | a 24-hour text is read as it stands |
| HorasProps.MidnightFixKeeps | notebooks/encabezados/d_generar_json_unico.py:118-120 | the midnight fix leaves alone a text whose hour is not "00" |
| HorasProps.MidnightFixNoMeridiem | notebooks/encabezados/d_generar_json_unico.py:118-120 | the midnight fix leaves alone a text without AM/PM |
| HorasProps.MinutesSecondsDigits | notebooks/encabezados/d_generar_json_unico.py:119 | the minutes and seconds of a canonical text are what the fix's pattern expects after "00:" |
| HorasProps.MidnightFixZero | notebooks/encabezados/d_generar_json_unico.py:118-120 | "00:MM AM" becomes "12:MM AM" |
| HorasProps.TwelveParts | notebooks/encabezados/d_generar_json_unico.py:119-120 | a 12-hour text splits into its two hour digits, a colon and the rest |
| HorasProps.Pad2Literals | notebooks/encabezados/d_generar_json_unico.py:119-120 | the two-digit spellings of 0, 10, 12 and 30 used by the properties |
| HorasProps.NormalizeTwelve | notebooks/encabezados/d_generar_json_unico.py:99-141 | "HH:MM AM" and "HH:MM:SS PM" normalise to the 24-hour clock they denote |
| HorasProps.TwelvePrepared | notebooks/encabezados/d_generar_json_unico.py:103-120 | the clean-up leaves a canonical 12-hour text with hour 1 to 12 unchanged |
| HorasProps.NormalizeZeroHour | notebooks/encabezados/d_generar_json_unico.py:118-141 | "00:MM AM" is midnight and "00:MM PM" is noon, the same as "12:MM AM" and "12:MM PM" |
| HorasProps.Normalize24 | notebooks/encabezados/d_generar_json_unico.py:99-141 | "HH:MM" and "HH:MM:SS" are kept; the first gets seconds "00" |
| HorasProps.NormalizeClockText | notebooks/encabezados/d_generar_json_unico.py:99-141 | every "HH:MM:SS" output normalises to itself |
| HorasProps.NormalizeTimeIdempotent | notebooks/encabezados/d_generar_json_unico.py:99-141 | normalising a time twice is normalising it once |
| HorasProps.SearchFindsMinutes | notebooks/encabezados/d_generar_json_unico.py:119-120 | on "HH:00:SS AM" the search matches at the minutes, and the first `\b00:` is there too |
| HorasProps.AsWrittenZeroMinutes | notebooks/encabezados/d_generar_json_unico.py:119-120 | as written, "HH:00:SS AM/PM" with HH not "00" comes out with minutes 12 |
| HorasProps.ZeroMinutesCounterexample | notebooks/encabezados/d_generar_json_unico.py:119-120 | "10:00:30 PM" gives "22:12:30" as written and "22:00:30" corrected |
| JsonUnico.DateOf | notebooks/encabezados/d_generar_json_unico.py:73-77 | a falsy value has no date; a string is normalised; any other truthy value fails on `strip` |
| JsonUnico.TimeOf | notebooks/encabezados/d_generar_json_unico.py:99-103 | a falsy value has no time; a string goes through the corrected normaliser `Horas.NormalizeTime`; any other truthy value fails on `strip` |
| JsonUnico.CombineDateTime | notebooks/encabezados/d_generar_json_unico.py:144-151 | combining fails exactly when normalising the date or the time fails |
| JsonUnico.CombineStrings | notebooks/encabezados/d_generar_json_unico.py:144-151 | for string fields: nothing when either part does not normalise, otherwise "date time" |
| JsonUnico.CombineShape | notebooks/encabezados/d_generar_json_unico.py:144-151 | a combined value is 19 characters: the normalised date, a space, the normalised time |
| JsonUnico.DocId | notebooks/encabezados/d_generar_json_unico.py:63-66 | a document id is a prefix of its file name |
| JsonUnico.DocIdPdf | notebooks/encabezados/d_generar_json_unico.py:63-66 | "A.pdf", "A.PDF" and "A.Pdf" are all filed under "A" |
| JsonUnico.RowEntry | notebooks/encabezados/d_generar_json_unico.py:57-68 | a CSV row files a non-blank link, or nothing when the name or the link is blank |
| JsonUnico.Entries | notebooks/encabezados/d_generar_json_unico.py:56-68 | what each row of the CSV files, row by row |
| JsonUnico.UrlMapStep | notebooks/encabezados/d_generar_json_unico.py:56-68 | one more row updates the map with its entry, if it files one |
| JsonUnico.UrlMapFile | notebooks/encabezados/d_generar_json_unico.py:57-68 | a row with a non-blank name and link sets its id to its stripped link |
| JsonUnico.CargarUrls | notebooks/encabezados/d_generar_json_unico.py:45-70 | a missing CSV gives the empty map; otherwise the loop builds the map the rows specify |
| JsonUnico.UrlMapNonBlank | notebooks/encabezados/d_generar_json_unico.py:60-61 | every filed link is non-blank |
| JsonUnico.UrlMapDomain | notebooks/encabezados/d_generar_json_unico.py:56-68 | an id is in the map exactly when some row files it |
| JsonUnico.UrlMapLastWins | notebooks/encabezados/d_generar_json_unico.py:68 | the last row that files an id decides its link |
| JsonUnico.PageOutput | notebooks/encabezados/d_generar_json_unico.py:181-213 | a page's record has id "doc_pageNNN", the normalised page and the combined date; it fails exactly when combining fails; its error row matches its page |
| JsonUnico.PagesErrPrefix | notebooks/encabezados/d_generar_json_unico.py:174-213 | once a page fails, the whole document fails the same way |
| JsonUnico.DocsErrPrefix | notebooks/encabezados/d_generar_json_unico.py:160-213 | once a file fails, the whole run fails the same way |
| JsonUnico.AgregarPaginas | notebooks/encabezados/d_generar_json_unico.py:174-213 | the loop over one document's pages returns what the fold over its pages specifies |
| JsonUnico.ConstruirRegistros | notebooks/encabezados/d_generar_json_unico.py:154-215 | the loop over the files returns what the fold over the files specifies: unreadable and non-object files skipped, pages in `_orden_pagina` order |
| JsonUnico.PagesCounts | notebooks/encabezados/d_generar_json_unico.py:174-213 | one record per dict-valued page, and one error row for each record without a date, for that record's page and in the same order |
| JsonUnico.DocCounts | notebooks/encabezados/d_generar_json_unico.py:170-213 | the same for one file, whatever its page order |
| JsonUnico.BuildCounts | notebooks/encabezados/d_generar_json_unico.py:154-215 | over all files: one record per dict-valued page of every object file, and error rows exactly for the undated records |
| JsonUnico.NewerOrSameOrder | notebooks/encabezados/d_generar_json_unico.py:245 | ordering by `fecha_hora`, newest first, is a total preorder |
| JsonUnico.TiedMeansSameDate | notebooks/encabezados/d_generar_json_unico.py:245 | two records tie exactly when their dates are the same text |
| JsonUnico.OrderPermutation | notebooks/encabezados/d_generar_json_unico.py:241-247 | the ordering is a permutation of the records |
| JsonUnico.OrderShape | notebooks/encabezados/d_generar_json_unico.py:241-247 | dated records come first, newest first; undated records follow in input order |
| JsonUnico.OrderStable | notebooks/encabezados/d_generar_json_unico.py:245 | records with the same date keep their input order |
| NormalizarJsons.ShapedParts | notebooks/encabezados/c_normalizar_jsons.py:12 | an id of hex digits and dashes, "_page" in any case, digits and "_.json" make a name of the expected shape |
| NormalizarJsons.MatchedIsShaped | notebooks/encabezados/c_normalizar_jsons.py:12 | a name the pattern matches has the expected shape, with the groups as its parts |
| NormalizarJsons.ShapedIsMatched | notebooks/encabezados/c_normalizar_jsons.py:12 | a name of the expected shape is matched, with those groups |
| NormalizarJsons.MatchFilenameShaped | notebooks/encabezados/c_normalizar_jsons.py:12 | the pattern accepts exactly the names of that shape, and its groups are their parts |
| NormalizarJsons.GroupErrPrefix | notebooks/encabezados/c_normalizar_jsons.py:18-39 | once a file aborts the grouping, later files change nothing |
| NormalizarJsons.GroupStep | notebooks/encabezados/c_normalizar_jsons.py:18-39 | one more file aborts, is skipped, or stores its output under its document and page |
| NormalizarJsons.AgruparPaginasPorDocumento | notebooks/encabezados/c_normalizar_jsons.py:15-41 | the loop over the sorted listing returns what the grouping specifies |
| NormalizarJsons.StoreLookup | notebooks/encabezados/c_normalizar_jsons.py:39 | `documentos[d][p] = o` sets that page and leaves every other page alone |
| NormalizarJsons.GroupLookup | notebooks/encabezados/c_normalizar_jsons.py:18-39 | the page stored under a document and page number is the output of the last accepted file for that pair |
| NormalizarJsons.GroupErrStep | notebooks/encabezados/c_normalizar_jsons.py:27-37 | the grouping fails after one more file exactly when it failed before or that file is rejected |
| NormalizarJsons.RejectedFails | notebooks/encabezados/c_normalizar_jsons.py:34 | a decoded file that is not an object makes the grouping fail |
| NormalizarJsons.FailsRejected | notebooks/encabezados/c_normalizar_jsons.py:34 | a failed grouping names a file that is rejected |
| NormalizarJsons.GroupErr | notebooks/encabezados/c_normalizar_jsons.py:27-37 | the grouping fails exactly when some file decodes to something that is not an object |
| NormalizarJsons.StoreWellFormed | notebooks/encabezados/c_normalizar_jsons.py:16-39 | storing a page keeps documents unique and their page lists non-empty and unique |
| NormalizarJsons.GroupWellFormed | notebooks/encabezados/c_normalizar_jsons.py:15-41 | the grouping is well formed |
| NormalizarJsons.PutTotal | notebooks/encabezados/c_normalizar_jsons.py:39 | replacing a document's pages changes the total by the difference in length |
| NormalizarJsons.StoreTotal | notebooks/encabezados/c_normalizar_jsons.py:39 | storing a page adds at most one page to the total |
| NormalizarJsons.GroupSnoc | notebooks/encabezados/c_normalizar_jsons.py:18-39 | one more file leaves the grouping as it was, or stores that file's page |
| NormalizarJsons.GroupTotal | notebooks/encabezados/c_normalizar_jsons.py:15-41 | the total number of pages is at most the number of accepted files |
| NormalizarJsons.EscribirDocumentos | notebooks/encabezados/c_normalizar_jsons.py:44-56 | the loop writes exactly the files the grouping specifies |
| NormalizarJsons.PageKeyOrder | notebooks/encabezados/c_normalizar_jsons.py:51 | `sorted(pages)` orders page keys by a total preorder |
| NormalizarJsons.OrderedPagesSorted | notebooks/encabezados/c_normalizar_jsons.py:51 | a document's pages are written in key order, none lost and none added |
| NormalizarJsons.WrittenLookup | notebooks/encabezados/c_normalizar_jsons.py:47-52 | the file for document d is "d.json", holding d's pages in key order |
| NormalizarJsons.WrittenSnoc | notebooks/encabezados/c_normalizar_jsons.py:47-56 | one more non-empty document adds one file at the end |
| NormalizarJsons.JsonNameInjective | notebooks/encabezados/c_normalizar_jsons.py:52 | two documents never share an output file name |
| NormalizarJsons.WrittenCount | notebooks/encabezados/c_normalizar_jsons.py:47-56 | every non-empty grouped document is written, one file each |
| NormalizarJsons.Normalize | notebooks/encabezados/c_normalizar_jsons.py:59-77 | a missing input directory fails; the summary counts one document per file written and no more pages than accepted files |
| Listar.TagAt | notebooks/encabezados/a_listar.py:12 | a match of `_encabezado\d+_` at the start is at least 13 characters and lies within the text |
| Listar.ReplaceTags | notebooks/encabezados/a_listar.py:23 | `pattern.sub("_", stem)` never lengthens the stem |
| Listar.NoTagKept | notebooks/encabezados/a_listar.py:23-25 | a stem without the pattern is kept as is |
| Listar.TagShrinks | notebooks/encabezados/a_listar.py:23 | a stem with the pattern gets shorter |
| Listar.ReplaceTagsUnchanged | notebooks/encabezados/a_listar.py:23-25 | the stem is unchanged exactly when the pattern does not occur in it |
| Listar.ReplaceTagsExample | notebooks/encabezados/a_listar.py:12-23 | "x_encabezado12_y" becomes "x_y" |
| Listar.MakeRow | notebooks/encabezados/a_listar.py:21-27 | a row is the file name, the stem without header tags plus ".json", and the path in the directory |
| Listar.BuildRecords | notebooks/encabezados/a_listar.py:11-29 | the loop over the sorted directory returns the rows the listing specifies |
| Listar.RowsOfImages | notebooks/encabezados/a_listar.py:15-27 | one row per image entry, in entry order |
| Listar.NameOrder | notebooks/encabezados/a_listar.py:15 | the listing's name order is a total preorder |
| Listar.BuildRecordsOrder | notebooks/encabezados/a_listar.py:11-29 | every image file gives one row, nothing else does, and rows come in file-name order |
| Listar.CsvLines | notebooks/encabezados/a_listar.py:32-37 | the header line, then one line per row in order |
| Listar.Listar | notebooks/encabezados/a_listar.py:40-49 | a missing input directory fails; otherwise one line per image plus the header |
| SqliteGenerator.LoadRegistros | notebooks/encabezados/e_sqlite_generator.py:12-22 | a missing file fails with FileNotFoundError; content that is not a list fails with ValueError; a list is returned as is |
| SqliteGenerator.RemoveFirst | notebooks/encabezados/e_sqlite_generator.py:32 | `list.remove` takes out exactly one element |
| SqliteGenerator.PrepararColumnas | notebooks/encabezados/e_sqlite_generator.py:25-34 | the loop returns the columns the records specify, or fails on a record that is not an object |
| SqliteGenerator.FirstIndex | notebooks/encabezados/e_sqlite_generator.py:29-30 | the position of a key's first occurrence |
| SqliteGenerator.FirstSeenOrder | notebooks/encabezados/e_sqlite_generator.py:26-30 | every key of every record appears exactly once, in order of first occurrence |
| SqliteGenerator.RemoveFirstFilter | notebooks/encabezados/e_sqlite_generator.py:31-32 | among distinct columns, removing "id" is filtering it out |
| SqliteGenerator.MoveIdFirstOrder | notebooks/encabezados/e_sqlite_generator.py:31-33 | with "id" present it comes first and the other columns keep their order; otherwise nothing moves |
| SqliteGenerator.Definitions | notebooks/encabezados/e_sqlite_generator.py:44-49 | one definition per column, in order |
| SqliteGenerator.PrimaryKeyOnlyId | notebooks/encabezados/e_sqlite_generator.py:46-48 | only the "id" column is the primary key |
| SqliteGenerator.DefinitionNamesColumn | notebooks/encabezados/e_sqlite_generator.py:46 | every column is TEXT, under its own name in double quotes |
| SqliteGenerator.CrearTabla | notebooks/encabezados/e_sqlite_generator.py:41-53 | the table is dropped, then created with the definitions joined by ", " |
| SqliteGenerator.NormalizarValor | notebooks/encabezados/e_sqlite_generator.py:56-59 | scalars pass through; anything else becomes its JSON text |
| SqliteGenerator.NormalizarValorIdempotent | notebooks/encabezados/e_sqlite_generator.py:56-59 | normalising a value twice is normalising it once |
| SqliteGenerator.Fila | notebooks/encabezados/e_sqlite_generator.py:71 | a row has one normalised value per column, in column order |
| SqliteGenerator.MissingKeyNull | notebooks/encabezados/e_sqlite_generator.py:71 | a record without the key gets NULL in that column |
| SqliteGenerator.InsertarRegistros | notebooks/encabezados/e_sqlite_generator.py:62-75 | the loop builds the rows the records specify |
| SqliteGenerator.FilasShape | notebooks/encabezados/e_sqlite_generator.py:69-72 | one row per record, each as wide as the column list |
| SqliteGenerator.LastIdWins | notebooks/encabezados/e_sqlite_generator.py:46-67 | with an "id" column (the PRIMARY KEY), the table holds exactly one row with a given non-NULL id when some row has it, and it is the last such row; otherwise none |
| SqliteGenerator.UnkeyedKeepsAll | notebooks/encabezados/e_sqlite_generator.py:44-67 | without an "id" column there is no key, and INSERT OR REPLACE keeps every row, in order |
| SqliteGenerator.NullIdsKept | notebooks/encabezados/e_sqlite_generator.py:67 | rows with a NULL id never conflict: all of them stay in the table |
| SqliteGenerator.CaseVariantsClash | notebooks/encabezados/e_sqlite_generator.py:25-52 | records keyed "fecha" and "Fecha" give both as columns, which clash in SQLite's case-insensitive names |
| SqliteGenerator.GenerarSqlite | notebooks/encabezados/e_sqlite_generator.py:78-88 | fails when a step raises: FileNotFoundError for a missing file, ValueError for a file that is not a list, AttributeError for a record that is not an object, OperationalError when there is no column at all (`CREATE TABLE encabezados ();`) or two columns differ only in ASCII case, OverflowError when a bound int does not fit 64 bits (keys containing `"`: see Left out); otherwise the statements run are the DROP and the CREATE TABLE with one definition per column, the records' rows are bound, and the table ends as INSERT OR REPLACE leaves it |
| OcrUtils.ModelOf | notebooks/encabezados/utils_openai_ocr.py:140-142 | a known model is kept; any other name falls back to gpt-4o-mini |
| OcrUtils.ModelFallback | notebooks/encabezados/utils_openai_ocr.py:140-144 | the fallback name and the model it selects agree |
| OcrUtils.ModelOfName | notebooks/encabezados/utils_openai_ocr.py:132-144 | each known model is selected by its own name |
| OcrUtils.Messages | notebooks/encabezados/utils_openai_ocr.py:148-169 | a system message comes first exactly when the system prompt is truthy; the user message with the image comes last |
| OcrUtils.TokenKey | notebooks/encabezados/utils_openai_ocr.py:179-182 | gpt-5 models take `max_completion_tokens`; the others take `max_tokens` |
| OcrUtils.Request | notebooks/encabezados/utils_openai_ocr.py:132-182 | the request has model, messages, response_format and exactly one token limit: the model used, the system and user messages with the image, and the limit under the key that model takes |
| OcrUtils.BuildRequest | notebooks/encabezados/utils_openai_ocr.py:132-182 | the step-by-step construction (fallback, messages, token key) builds that request |
| OcrUtils.OneTokenKey | notebooks/encabezados/utils_openai_ocr.py:178-182 | a request never carries both token limits |
| OcrUtils.RequestShape | notebooks/encabezados/utils_openai_ocr.py:172-182 | adding the token limit keeps the three first keys and their values |
| OcrUtils.ExtractTextFromImage | notebooks/encabezados/utils_openai_ocr.py:124-212 | the request built from the arguments is the one sent; the result is that reply's content (`None` included, as `message.content` may be), the model used, its token counts and total = prompt + completion |
| OcrUtils.UnescapeCases | notebooks/encabezados/utils_openai_ocr.py:58-64 | an escaped text is decoded when decoding succeeds, and kept otherwise |
| OcrUtils.ParseJsonResponse | notebooks/encabezados/utils_openai_ocr.py:20-97 | the cleaned text is tried first, then the original, then the original with Python literals replaced; otherwise the original text is returned (`Parsing`); a `None` content fails every step and comes back as `None` |
| OcrUtils.Parsing | notebooks/encabezados/utils_openai_ocr.py:78-97 | a text content always gives a decoded value or text back, never `None`, and text returned unparsed is the content unchanged |
| OcrUtils.ParsingReply | notebooks/encabezados/utils_openai_ocr.py:20-97 | the outcome is the original `None` exactly when the content is `None`, and any text returned unparsed is the content itself |
| OcrUtils.FenceOpened | notebooks/encabezados/utils_openai_ocr.py:37 | an opening fence and an optional json tag are dropped |
| OcrUtils.TagSkipped | notebooks/encabezados/utils_openai_ocr.py:37 | the optional "json"/"JSON" tag after an opening fence is skipped up to the line break |
| OcrUtils.BlankLineSkipped | notebooks/encabezados/utils_openai_ocr.py:37 | the line break after the fence is part of the `\s*` the pattern consumes |
| OcrUtils.OpenFenceDropped | notebooks/encabezados/utils_openai_ocr.py:37 | "```json\nbody\n```" loses its opening fence |
| OcrUtils.CloseFenceDropped | notebooks/encabezados/utils_openai_ocr.py:38 | a closing fence is dropped |
| OcrUtils.NoFenceKept | notebooks/encabezados/utils_openai_ocr.py:37-48 | a tidy body without fences goes through the fence removal unchanged |
| OcrUtils.FenceIgnored | notebooks/encabezados/utils_openai_ocr.py:37-48 | a fenced body cleans up exactly as the bare body does |
| OcrUtils.NoWordKept | notebooks/encabezados/utils_openai_ocr.py:52-54 | a text with no whole-word occurrence is unchanged by the replacement |
| OcrUtils.WordInsideKept | notebooks/encabezados/utils_openai_ocr.py:52 | "NoneType" is not rewritten: `\b` guards the word |
| OcrUtils.WordAloneRewritten | notebooks/encabezados/utils_openai_ocr.py:52 | "[None]" becomes "[null]" |
| OcrUtils.ScaledBounds | notebooks/encabezados/utils_openai_ocr.py:105-106 | 100% keeps the size; a percentage up to 100 never enlarges; the result is the floor of size·p/100 |
| OcrUtils.ProcessImageOcr | notebooks/encabezados/utils_openai_ocr.py:216-277 | the image is sent at the scaled size with the given prompt, or the default one when none is given; the output is the parsed reply, or the reply's text as a JSON string when no parse succeeds, or `null` when the reply has no content; the meta names the model used with consistent token totals; the file is written exactly when an output path is given |
| OpenaiApi.Delays | notebooks/encabezados/b_openai_api.py:73-74 | the pause after attempt i is base·2^(i-1) |
| OpenaiApi.FirstSaved | notebooks/encabezados/b_openai_api.py:55-69 | the first attempt that saves, with every earlier one raising |
| OpenaiApi.ProcesarImagen | notebooks/encabezados/b_openai_api.py:30-85 | the retry loop gives the outcome, the attempts and the pauses the specification function gives |
| OpenaiApi.SuccessIffSaved | notebooks/encabezados/b_openai_api.py:49-83 | an image succeeds exactly when it exists and some attempt up to the maximum saves |
| OpenaiApi.AttemptsBounded | notebooks/encabezados/b_openai_api.py:49-85 | never more attempts than the maximum and none for a missing image; every attempt before the last raised; success exactly when there is no error message |
| OpenaiApi.LastMessageReported | notebooks/encabezados/b_openai_api.py:79-83 | when every attempt raises, the last attempt's message is reported |
| OpenaiApi.SleepsBetweenAttempts | notebooks/encabezados/b_openai_api.py:73-78 | one pause between consecutive attempts, doubling from the base |
| OpenaiApi.TotalDelay | notebooks/encabezados/b_openai_api.py:74 | n pauses add up to base·(2^n - 1) |
| OpenaiApi.DefaultSleeps | notebooks/encabezados/b_openai_api.py:9-10 | with 3 attempts and base 5, the pauses are none, 5, or 5 then 10 |
| OpenaiApi.ArchivosProcesados | notebooks/encabezados/b_openai_api.py:95-99 | the names ending in ".json" in the output directory, or none when it is missing |
| OpenaiApi.PendingRows | notebooks/encabezados/b_openai_api.py:108 | a row is pending exactly when its JSON name is not processed |
| OpenaiApi.PendingInOrder | notebooks/encabezados/b_openai_api.py:108 | the filter keeps rows in order |
| OpenaiApi.PrepararTareas | notebooks/encabezados/b_openai_api.py:127-134 | one task per pending row, numbered from 1 out of the total |
| OpenaiApi.Tally | notebooks/encabezados/b_openai_api.py:149-160 | successes are counted, successes plus failures is the number of results, and the error list is what the results specify |
| OpenaiApi.ErrorsAreFailures | notebooks/encabezados/b_openai_api.py:154-157 | there are no more errors listed than failures |
| OpenaiApi.TallyOrderFree | notebooks/encabezados/b_openai_api.py:149-160 | the counts do not depend on completion order |
| OpenaiApi.ErrorsOrderFree | notebooks/encabezados/b_openai_api.py:149-157 | the listed errors, as a multiset, do not depend on completion order |
| OpenaiApi.ErrorSummary | notebooks/encabezados/b_openai_api.py:178-185 | no errors print nothing; otherwise the first ten errors, then "... y N errores más" when there are more |
| OpenaiApi.ErrorLines | notebooks/encabezados/b_openai_api.py:181-182 | one line per error, in order |
| OpenaiApi.Completions | notebooks/encabezados/b_openai_api.py:144-157 | one completion per task |
| OpenaiApi.CompletionsCount | notebooks/encabezados/b_openai_api.py:144-157 | the successful completions are the rows whose image succeeds |
| OpenaiApi.EjecutarTareas | notebooks/encabezados/b_openai_api.py:144-147 | returns one completion per task, the `procesar_imagen` outcome for that task's file, image and retries, taken in task order (completion order: see Left out) |
| OpenaiApi.CompletionsErrors | notebooks/encabezados/b_openai_api.py:144-157 | the listed errors are one `(file_name, error_msg)` per pending row that fails with a non-empty message, in task order |
| OpenaiApi.Ejecutar | notebooks/encabezados/b_openai_api.py:92-185 | fails with ZeroDivisionError exactly when the CSV is empty and some JSON output exists (line 116); otherwise over the pending rows: successes plus failures is their number, successes are the rows whose image succeeds, `errores` holds one `(file_name, error_msg)` per pending row that fails with a non-empty message (in task order; see Left out), errors at most failures |
| NuevosDocumentos.CleanTextClean | notebooks/scraping/a_nuevos_documentos.py:29-31 | the result has no blank at either end and no two blanks in a row |
| NuevosDocumentos.CleanTextIdempotent | notebooks/scraping/a_nuevos_documentos.py:29-31 | cleaning twice is cleaning once |
| NuevosDocumentos.FindFontFirst | notebooks/scraping/a_nuevos_documentos.py:37-53 | `tr.find` returns the first font holding the mark, or nothing exactly when none holds it |
| NuevosDocumentos.ATags | notebooks/scraping/a_nuevos_documentos.py:56 | the anchors with an href, at most one per anchor |
| NuevosDocumentos.FirstText | notebooks/scraping/a_nuevos_documentos.py:65-70 | the first anchor whose cleaned text is non-empty |
| NuevosDocumentos.FirstTextFirst | notebooks/scraping/a_nuevos_documentos.py:65-70 | every anchor before it has empty text; nothing is found exactly when all are empty |
| NuevosDocumentos.EnlaceConTexto | notebooks/scraping/a_nuevos_documentos.py:59-70 | the loop returns the href and cleaned text of the first anchor with text, or nothing |
| NuevosDocumentos.EnlaceFila | notebooks/scraping/a_nuevos_documentos.py:56-73 | a row's link is what the specification of the row gives |
| NuevosDocumentos.LeerFila | notebooks/scraping/a_nuevos_documentos.py:35-82 | one row updates the three tracked headings and appends the record it emits |
| NuevosDocumentos.LeerTabla | notebooks/scraping/a_nuevos_documentos.py:35-82 | the loop over the rows returns the records the table specifies |
| NuevosDocumentos.LatestRow | notebooks/scraping/a_nuevos_documentos.py:37-53 | the last row before n holding the mark |
| NuevosDocumentos.TrackIsLatest | notebooks/scraping/a_nuevos_documentos.py:37-53 | the tracked heading is the cleaned font of the last row holding the mark |
| NuevosDocumentos.ContextIsLatest | notebooks/scraping/a_nuevos_documentos.py:37-53 | all three headings are those of the latest rows with their marks |
| NuevosDocumentos.OneRecordPerRow | notebooks/scraping/a_nuevos_documentos.py:59-82 | one record per row that has a link with text |
| NuevosDocumentos.RecordsCarryLatest | notebooks/scraping/a_nuevos_documentos.py:73-82 | each record is a row's link and text, with the headings in force at that row |
| NuevosDocumentos.ArgAt | notebooks/scraping/a_nuevos_documentos.py:140 | the group of `openWindow\('([^']+)'\)` is a non-empty text without quotes |
| NuevosDocumentos.ExtractFrom | notebooks/scraping/a_nuevos_documentos.py:140 | the first match from a position has a non-empty, quote-free argument |
| NuevosDocumentos.ExtractWrapped | notebooks/scraping/a_nuevos_documentos.py:140 | "javascript:openWindow('arg')" yields arg |
| NuevosDocumentos.ToDoc | notebooks/scraping/a_nuevos_documentos.py:138-145 | a document exists exactly when the link matches; its link is the base plus the argument and its name the UUID5 of that link |
| NuevosDocumentos.SameLinkSameName | notebooks/scraping/a_nuevos_documentos.py:126-145 | two records with the same argument get the same file name |
| NuevosDocumentos.GenerarDocs | notebooks/scraping/a_nuevos_documentos.py:133-145 | fails with KeyError exactly when no link is an openWindow link; otherwise one document per such record, in order |
| NuevosDocumentos.ToDocs | notebooks/scraping/a_nuevos_documentos.py:140-145 | fails exactly when some record's link does not match; otherwise one document per record |
| NuevosDocumentos.DropDuplicates | notebooks/scraping/a_nuevos_documentos.py:181 | keeps documents of the input whose names have not been seen |
| NuevosDocumentos.Unificar | notebooks/scraping/a_nuevos_documentos.py:163-181 | new documents are those not in the history; the history becomes new then old, without repeated names |
| NuevosDocumentos.DropDuplicatesUnique | notebooks/scraping/a_nuevos_documentos.py:181 | no file name appears twice afterwards |
| NuevosDocumentos.DropDuplicatesNames | notebooks/scraping/a_nuevos_documentos.py:181 | the names kept are all the input's names, except those seen before |
| NuevosDocumentos.FirstKept | notebooks/scraping/a_nuevos_documentos.py:181 | the first document with a given name is kept |
| NuevosDocumentos.DropDuplicatesAppend | notebooks/scraping/a_nuevos_documentos.py:178-181 | deduplicating a concatenation deduplicates each part, the second against the names of the first |
| NuevosDocumentos.HistoryKept | notebooks/scraping/a_nuevos_documentos.py:174-181 | a history entry whose name is new in the history survives the unification |
| NuevosDocumentos.NuevosAreNew | notebooks/scraping/a_nuevos_documentos.py:174-175 | a document is new exactly when its name is not in the history |
| NuevosDocumentos.Ejecutar | notebooks/scraping/a_nuevos_documentos.py:20-181 | fails exactly when generating the documents fails; otherwise gives the unified history and the new documents |
| ConstruirBaseScraper.ColumnIndex | notebooks/scraping/b_construir_base_scraper.py:22-23 | the position of a column, or nothing exactly when it is missing |
| ConstruirBaseScraper.HeaderStems | notebooks/scraping/b_construir_base_scraper.py:17 | exactly the stems of the ".json" files |
| ConstruirBaseScraper.ExclusionColumn | notebooks/scraping/b_construir_base_scraper.py:22-26 | "file_name" when present, else "nombre"; a KeyError when neither is present |
| ConstruirBaseScraper.ExcludedStemsMeaning | notebooks/scraping/b_construir_base_scraper.py:27 | a stem is excluded exactly when some non-empty cell of that column has it |
| ConstruirBaseScraper.BlankIgnored | notebooks/scraping/b_construir_base_scraper.py:27 | an empty cell excludes nothing (`dropna`) |
| ConstruirBaseScraper.ConstruirDocumentosScraper | notebooks/scraping/b_construir_base_scraper.py:11-36 | a missing history fails first; a history without "file_name" fails; otherwise a sub-list of the history's rows with the same columns |
| ConstruirBaseScraper.KeptIff | notebooks/scraping/b_construir_base_scraper.py:29-36 | a row is kept exactly when its stem is neither a header JSON nor excluded |
| ConstruirBaseScraper.KeptInOrder | notebooks/scraping/b_construir_base_scraper.py:35-36 | filtering keeps the rows in order |
| ConstruirBaseScraper.Idempotent | notebooks/scraping/b_construir_base_scraper.py:11-36 | filtering the output again changes nothing |
| ScraperParallel.Pauses | notebooks/scraping/c_scraper_parallel.py:66-67 | n pauses of the fixed delay |
| ScraperParallel.FirstOk | notebooks/scraping/c_scraper_parallel.py:53-59 | the first attempt answered with HTTP 200, with every earlier one failing |
| ScraperParallel.DownloadFile | notebooks/scraping/c_scraper_parallel.py:47-70 | the retry loop gives the outcome, attempts, pauses and written file the specification function gives |
| ScraperParallel.AttemptsBounded | notebooks/scraping/c_scraper_parallel.py:53-70 | never more attempts than the maximum; success exactly on an HTTP 200, which writes the body under the file name; success exactly when there is no error |
| ScraperParallel.SuccessIffOk | notebooks/scraping/c_scraper_parallel.py:53-59 | a download succeeds exactly when some attempt up to the maximum answers 200 |
| ScraperParallel.FixedPauses | notebooks/scraping/c_scraper_parallel.py:66-67 | one pause of the fixed delay between attempts, none after the last |
| ScraperParallel.LastErrorReported | notebooks/scraping/c_scraper_parallel.py:60-70 | after all attempts fail, the message names the count and the last error (HTTP status or exception text) |
| ScraperParallel.DefaultWait | notebooks/scraping/c_scraper_parallel.py:16-17 | with the defaults, at most four pauses of 60 seconds |
| ScraperParallel.Warnings | notebooks/scraping/c_scraper_parallel.py:80-85 | at most one warning per download |
| ScraperParallel.Downloads | notebooks/scraping/c_scraper_parallel.py:74-85 | one download per row, each with its row's index |
| ScraperParallel.Descargar | notebooks/scraping/c_scraper_parallel.py:36-85 | exits with 1 exactly when a required column is missing, its message printing the two column names in the set's order, which string hashing decides (`fileNameFirst`); otherwise downloads every row and warns for the failures |
| ScraperParallel.WarningsCount | notebooks/scraping/c_scraper_parallel.py:80-85 | one warning per failed download |
| ScraperParallel.FailuresWarned | notebooks/scraping/c_scraper_parallel.py:80-85 | every failed download is warned about |
| ExtractImages.PdfFiles | notebooks/scraping/d_extract_images.py:47 | only names ending in ".pdf" are taken |
| ExtractImages.PdfFilesIff | notebooks/scraping/d_extract_images.py:47 | a name is converted exactly when it is listed and ends in ".pdf" ("X.PDF" is not) |
| ExtractImages.ImagePaths | notebooks/scraping/d_extract_images.py:28-38 | one path per page, numbered from 1, in page order |
| ExtractImages.ProcessPdf | notebooks/scraping/d_extract_images.py:21-43 | the loop saves exactly those paths and reports the page count |
| ExtractImages.PaddedInjective | notebooks/scraping/d_extract_images.py:34 | `zfill(3)` never truncates, so two numbers never share a padded form |
| ExtractImages.ImageNameInjective | notebooks/scraping/d_extract_images.py:34 | an image name determines both the base name and the page |
| ExtractImages.PdfBaseName | notebooks/scraping/d_extract_images.py:26 | the base name of a ".pdf" name is the name without its extension |
| ExtractImages.PdfBaseNames | notebooks/scraping/d_extract_images.py:26 | different PDF names give different base names |
| ExtractImages.DistinctPaths | notebooks/scraping/d_extract_images.py:26-35 | no page image overwrites another, across all PDFs converted |
| ExtractImages.ExtractAll | notebooks/scraping/d_extract_images.py:46-62 | the images saved are those of every convertible PDF, and there is one report line per PDF |
| Zones.AplicarMargenesVerticales | notebooks/scraping/f_zones.py:24-47 | a non-header box is unchanged; a header box only changes its bottom, to the bottom plus the margin, clipped to the image height |
| Zones.MarginBounds | notebooks/scraping/f_zones.py:42-43 | a header box never extends below the image; a box inside the image grows by at most 4% of its height |
| Zones.IncrementBounds | notebooks/scraping/f_zones.py:42 | `int(h * 0.04)` is the floor of 4h/100 for h ≥ 0, and truncates symmetrically for negative h |
| Zones.Crops | notebooks/scraping/f_zones.py:87-108 | at most one crop per detection |
| Zones.ProcesarImagen | notebooks/scraping/f_zones.py:50-110 | an unreadable image gives no crops and the warning; otherwise the loop gives the crops the detections specify |
| Zones.OnlyHeadersCropped | notebooks/scraping/f_zones.py:92-94 | exactly the header detections are cropped, one crop each |
| Zones.CropsFromHeaders | notebooks/scraping/f_zones.py:87-108 | every crop is a header detection, widened and named by its position |
| Zones.CropNamesDistinct | notebooks/scraping/f_zones.py:105 | two detections with the same class get different crop names |
| Zones.ImageFiles | notebooks/scraping/f_zones.py:126 | only ".png", ".jpg" and ".jpeg" names are taken, in any case |
| Zones.WorkersBounds | notebooks/scraping/f_zones.py:131-135 | a positive setting gives between 1 and that many workers, leaving two CPUs free when it can |
| SearchWorker.NormalizeText | src/workers/searchWorker.ts:20-28 | the result has no blank at either end and no two blanks in a row, and holds only word characters and spaces |
| SearchWorker.NormalizeFixpoint | src/workers/searchWorker.ts:20-28 | a clean text of word characters that folding leaves alone is its own normal form |
| SearchWorker.NormalizeIdempotent | src/workers/searchWorker.ts:20-28 | normalising twice is normalising once |
| SearchWorker.EndOfDay | src/workers/searchWorker.ts:78-80 | `setHours(23, 59, 59, 999)` gives the last millisecond of the same local day |
| SearchWorker.UntilWholeDay | src/workers/searchWorker.ts:77-85 | for an end instant t, the filter keeps the whole local day holding t and drops every later item |
| SearchWorker.ChosenDayDroppedWest | src/workers/searchWorker.ts:77-85 | as written, west of UTC: an end date read as UTC midnight drops every vote of the chosen local day |
| SearchWorker.EveningBeforeAdmitted | src/workers/searchWorker.ts:68-74 | as written, west of UTC: a start date read as UTC midnight also admits votes from the evening of the day before |
| SearchWorker.ChosenDayCounterexample | src/workers/searchWorker.ts:77-85 | at UTC-5, a vote at 10:00 on the chosen end date is not found |
| SearchWorker.DayRangeKept | src/workers/searchWorker.ts:68-85 | with dates read as local midnight, a day range keeps exactly the votes from the start of the first local day to the end of the last, in any zone |
| SearchWorker.Found | src/workers/searchWorker.ts:51-93 | the results are a sub-multiset of the data |
| SearchWorker.NewestFirstPreorder | src/workers/searchWorker.ts:88-90 | newest-first by time is a total preorder |
| SearchWorker.FoundSorted | src/workers/searchWorker.ts:88-90 | the results are sorted newest first |
| SearchWorker.FoundIff | src/workers/searchWorker.ts:56-85 | an item is found exactly when it is in the data and passes the subject and both date filters |
| SearchWorker.FoundStable | src/workers/searchWorker.ts:88-90 | items with the same time keep their data order |
| SearchWorker.BlankQueryIgnored | src/workers/searchWorker.ts:59 | a blank subject query finds what no query finds |
| SearchWorker.EmptyRequestFindsAll | src/workers/searchWorker.ts:51-93 | an empty request returns every item |
| SearchWorker.LoadOutcome | src/workers/searchWorker.ts:34-46 | a rejected fetch reports its message; a non-ok response reports "Error al cargar datos: status"; otherwise the body |
| SearchWorker.Worker.LoadData | src/workers/searchWorker.ts:31-48 | loads once: a second call posts nothing and changes nothing; a failure posts the error and changes nothing |
| SearchWorker.Worker.Search | src/workers/searchWorker.ts:51-93 | before loading, nothing; afterwards the three filters in turn, then the sort, give exactly `Found` |
| SearchWorker.Worker.Dispatch | src/workers/searchWorker.ts:96-123 | unknown types post an error; "load" loads; "search" loads if needed, then posts the results and their count |
| SearchWorker.ThreeFilters | src/workers/searchWorker.ts:59-85 | the three filters in turn equal one filter by their conjunction |
| VotacionesSearch.OrUndefined | src/features/home/hooks/useVotacionesSearch.ts:87-88 | `x \|\| undefined` on a string: undefined exactly for the empty string |
| VotacionesSearch.Get | src/features/home/hooks/useVotacionesSearch.ts:10-12 | a non-empty value read from the URL is stored there under that key |
| VotacionesSearch.GetAppend | src/features/home/hooks/useVotacionesSearch.ts:29-33 | reading after appending parameters reads the first part when it holds the key |
| VotacionesSearch.Pair | src/features/home/hooks/useVotacionesSearch.ts:31-33 | a conditional `params.set` holds the key exactly when the value is non-empty |
| VotacionesSearch.UrlParams | src/features/home/hooks/useVotacionesSearch.ts:28-36 | the URL holds each filter exactly when it is non-empty, and no other key |
| VotacionesSearch.UrlRoundTrip | src/features/home/hooks/useVotacionesSearch.ts:10-36 | reading the filters back from the URL written from them gives the filters |
| VotacionesSearch.InitialRequest | src/features/home/hooks/useVotacionesSearch.ts:47-56 | with no URL filters the request is empty; otherwise subject, and dates or undefined |
| VotacionesSearch.LatestDate | src/features/home/hooks/useVotacionesSearch.ts:58-60 | the latest date changes only to the non-empty date of the first result |
| VotacionesSearch.SearchState.constructor | src/features/home/hooks/useVotacionesSearch.ts:7-25 | the filters are read from the URL; no results, not searching, limit 50 |
| VotacionesSearch.SearchState.SyncUrl | src/features/home/hooks/useVotacionesSearch.ts:28-36 | the URL is rewritten from the filters and nothing else changes |
| VotacionesSearch.SearchState.SetAsunto | src/features/home/hooks/useVotacionesSearch.ts:134 | only the subject changes, and the URL follows it |
| VotacionesSearch.SearchState.SetFechaDesde | src/features/home/hooks/useVotacionesSearch.ts:135 | only the start date changes, and the URL follows it |
| VotacionesSearch.SearchState.SetFechaHasta | src/features/home/hooks/useVotacionesSearch.ts:136 | only the end date changes, and the URL follows it |
| VotacionesSearch.SearchState.StartSearch | src/features/home/hooks/useVotacionesSearch.ts:80-89 | the request carries the filters; searching and searched are set |
| VotacionesSearch.SearchState.FinishSearch | src/features/home/hooks/useVotacionesSearch.ts:90-96 | on success the results replace the old ones and the limit resets to 50; searching ends either way |
| VotacionesSearch.SearchState.HandleSearch | src/features/home/hooks/useVotacionesSearch.ts:80-97 | a whole search: the request from the filters, then the new state for success or failure |
| VotacionesSearch.SearchState.ClearFilters | src/features/home/hooks/useVotacionesSearch.ts:100-108 | filters, results and URL emptied; limit back to 50; not searched |
| VotacionesSearch.SearchState.LoadMore | src/features/home/hooks/useVotacionesSearch.ts:111-113 | the limit grows by 50 and nothing else changes |
| VotacionesSearch.SearchState.InitialLoad | src/features/home/hooks/useVotacionesSearch.ts:39-77 | runs once, when loading is over and nothing was searched: the URL's request, then results and latest date |
| VotacionesSearch.SearchState.BeginInitialLoad | src/features/home/hooks/useVotacionesSearch.ts:42-56 | the first search's request is built from the URL's filters, and the flags are set |
| VotacionesSearch.SearchState.CompleteInitialLoad | src/features/home/hooks/useVotacionesSearch.ts:57-65 | the results and the latest date are stored on success; searching ends either way |
| VotacionesList.SliceTo | src/features/home/components/VotacionesList.tsx:43 | `slice(0, end)` is a prefix of the clamped length, counting a negative end from the back |
| VotacionesList.Render | src/features/home/components/VotacionesList.tsx:18-75 | empty state exactly for no results; count heading exactly with filters; counter and button exactly when results exceed the limit, with the remaining number; the first `displayLimit` results shown |
| VotacionesList.ShownPlusRemaining | src/features/home/components/VotacionesList.tsx:43-69 | the votes shown plus the remaining count are all the results |
| VotacionesList.LoadMoreExtends | src/features/home/components/VotacionesList.tsx:43 | raising the limit extends the list shown, by the step or what is left |
| VotacionesList.EveryResultReachable | src/features/home/components/VotacionesList.tsx:43-69 | every result is shown after enough pages of 50 |
| BannerStore.Rehydrate | src/store/bannerStore.ts:15-35 | visible unless the session storage holds a saved flag, which is then used |
| BannerStore.Banner.constructor | src/store/bannerStore.ts:13-15 | the store starts with the rehydrated flag |
| BannerStore.Banner.ToggleBanner | src/store/bannerStore.ts:16-19 | the flag flips |
| BannerStore.Banner.HideBanner | src/store/bannerStore.ts:20-23 | the banner is hidden |
| BannerStore.Banner.ShowBanner | src/store/bannerStore.ts:24-27 | the banner is shown |
| BannerStore.Banner.Partialize | src/store/bannerStore.ts:32-35 | the persisted part holds the flag |
| BannerStore.PersistRoundTrip | src/store/bannerStore.ts:29-35 | a persisted flag rehydrates to itself |
| PdfModal.PdfModal.constructor | src/features/home/hooks/usePdfModal.ts:5 | no PDF is selected at first |
| PdfModal.PdfModal.OpenModal | src/features/home/hooks/usePdfModal.ts:7-9 | the item becomes the selected PDF |
| PdfModal.PdfModal.CloseModal | src/features/home/hooks/usePdfModal.ts:11-13 | no PDF is selected |

## Left out

- I/O: directories, files, CSV and JSON reading and writing, SQLite, HTTP and the OpenAI client are values passed in. Their syntax (CSV quoting, JSON text, SQL type affinity) is not modelled.
- Printing, progress bars and timing: all `print`, `safe_print`, tqdm and `time.time` output is dropped.
- Concurrency: the thread pools (b_openai_api.py, c_scraper_parallel.py), the process pools (d_extract_images.py, f_zones.py) and the web worker's message queue run one task at a time, in input order. Three lists then take input order where the source takes completion order (`as_completed`):
  - `errores` in b_openai_api.py:149-157, and with it which ten errors lines 178-183 print (`OpenaiApi.Ejecutar`, `OpenaiApi.ErrorSummary`);
  - the warnings of c_scraper_parallel.py:80-85 (`ScraperParallel.Warnings`);
  - the `[idx/total]` numbering of d_extract_images.py:55-59 (the report lines of `ExtractImages.ExtractAll`).
  What does not depend on that order is proved: the counts (`OpenaiApi.TallyOrderFree`) and the multiset of listed errors (`OpenaiApi.ErrorsOrderFree`). `executor.map` in f_zones.py keeps input order, as the model does.
- Library calls are parameters: `json.loads` and `json.dumps`, `unicode-escape` decoding, `uuid5`, PIL resizing and base64, `convert_from_path`, YOLO detection, `cv2.imread` and slicing, `requests.get`, `fetch`, NFD with `toLowerCase`, and `new Date` with the local time zone.
- Zones.ProcesarImagen: takes one detector result per image, as `predict` on one image gives. It returns the crops' boxes rather than the pixel slices `cv2.imwrite` saves.
- Zones.Increment: `int(h * 0.04)` is modelled on exact fractions. The double 0.04 is slightly above 4/100, so the two could only differ at an exact product, which truncation treats alike.
- Sorting: `sorted`, `list.sort` and `Array.prototype.sort` are one stable sort on values, not in place.
- Text: Python `str` methods, regex `\s`, `\w` and `\d`, and JavaScript `\s` and `\w` are modelled on ASCII and the usual Unicode blanks. Case folding is ASCII.
- Fechas.StrptimeDMY: models CPython's `%d/%m/%Y` regexes and range checks, not locale-dependent parsing.
- Horas.ParseWith: models `%I`, `%H`, `%M`, `%S` and the C-locale `%p`, not other locales.
- TimeOf (JsonUnico.TimeOf): normalises with the corrected `Horas.NormalizeTime`. The notebook runs `_normalizar_hora` as written (`Horas.NormalizeTimeAsWritten`), which turns "HH:00:SS AM/PM" into minutes 12 (see Findings). So for those times the model's time differs from the file the notebook writes.
- CombineDateTime (JsonUnico.CombineDateTime): combines through `TimeOf`, so its `fecha_hora` is the corrected one for "HH:00:SS AM/PM" times, not the minutes-12 value of lines 119-120.
- PageOutput (JsonUnico.PageOutput): a record's `fecha_hora` is the corrected one for "HH:00:SS AM/PM" times, not what lines 186 and 205 write.
- AgregarPaginas (JsonUnico.AgregarPaginas): its records inherit the corrected `fecha_hora` from `PageOutput`.
- ConstruirRegistros (JsonUnico.ConstruirRegistros): records with "HH:00:SS AM/PM" times get the corrected `fecha_hora`, not the minutes-12 value the notebook writes. The order and the counts of records and error rows do not depend on which normaliser is used.
- JsonUnico.DocId: `Path.stem` of the per-document JSON files is taken as given. The glob and the `sorted` of paths are an input order.
- JsonUnico.CargarUrls: a missing column in the CSV reads as an empty cell, as `DictReader` does. Duplicate keys in JSON objects are not modelled (the last one wins in Python).
- SqliteGenerator.GenerarSqlite: an error result carries no database. When the CREATE fails (no column, or a case clash) the source has already created the directory and run `DROP TABLE IF EXISTS encabezados;`, so a table from an earlier run is gone. On an OverflowError the table was created and committed and is left empty. The model does not show that state.
- SqliteGenerator.GenerarSqlite: a column name containing `"` is pasted between double quotes unescaped (lines 46 and 66). What SQLite then makes of the statement text depends on the rest of the name: a syntax error, or other SQL. The model returns the statements as built and does not decide their outcome. Other SQLite limits (identifier length, column count) are not modelled either.
- SqliteGenerator.NormalizarValor: booleans count as scalars, as `isinstance(True, int)` does. Floats are opaque values.
- OcrUtils.ExtractTextFromImage: the cost estimate and the pricing table use floating point and are left out; the token counts are kept.
- OcrUtils.ParseJsonResponse: the brace-count warning of lines 66-76 only prints, and is left out.
- OcrUtils.ScaledBounds: `int(size * p / 100)` is modelled on exact integers; float rounding is left out.
- NuevosDocumentos: HTML parsing is left out. A row is its fonts' texts and its anchors, as BeautifulSoup would give them.
- NuevosDocumentos: `clean_filename` (lines 118-123) is defined but never called, so it is not modelled.
- NuevosDocumentos: the debug counters of lines 84-105 only print, and are left out.
- NuevosDocumentos.Unificar: the history's missing-column fill (`pd.NA`) and pandas dtype inference are not modelled.
- ScraperParallel.Descargar: the failure to read the CSV (lines 27-33) is an exit the caller sees before the model starts. NaN cells in the CSV are not modelled.
- SearchWorker.Found: items and requests carry times as milliseconds. Parsing the records' "YYYY-MM-DD HH:MM:SS" strings is left to the caller. The page's "YYYY-MM-DD" filter dates are taken as day numbers by `DayRequest` (see Findings).
- SearchWorker.EndOfDay: uses a fixed local offset, so days with a daylight-saving change are not modelled.
- SearchWorker.LoadOutcome: the 'Error desconocido' branch is not modelled; every value thrown there is an `Error`.
- SearchWorker: null subject or date fields of a record are excluded by their types.
- VotacionesSearch.SearchState: React scheduling is not modelled. A search is its start and its completion; interleavings beyond that split are not.
- VotacionesSearch.SearchState: `isLoading` and the worker are inputs.
- VotacionesList.Render: the markup, `toLocaleString` and `formatDate` are left out.
- BannerStore: the `useBannerStoreDispatch` selectors only read the store, and are left out.
- Scraping to encabezados: the chain of file names from f_zones.py to a_listar.py is not stated as one property.
- notebooks/scraping/e_classifier_images.py and the favicon generator are not part of this model.

## Findings

| source | as written | input that shows it | evidently intended | confidence | as-written member | corrected member |
|---|---|---|---|---|---|---|
| notebooks/encabezados/d_generar_json_unico.py:119-120 | the search `\b00:(\d{1,2})(?::\d{1,2})?\s*(AM\|PM)$` can match at the minutes, and `re.sub(r"\b00:", "12:", count=1)` then rewrites the first `\b00:`, which is the minutes | "10:00:30 PM" becomes "10:12:30 PM", normalised to "22:12:30" | only an hour of "00" is rewritten, giving "22:00:30" | not executed | HorasProps.ZeroMinutesCounterexample | Horas.NormalizeTime |
| src/workers/searchWorker.ts:68-85 | the filters parse the page's "YYYY-MM-DD" dates with `new Date`, which reads a date-only string as midnight UTC; `setHours(23, 59, 59, 999)` then works in local time | at UTC-5, an end date of day D becomes 23:59:59.999 local on D-1, so a vote at 10:00 on D is dropped; a start date of D admits votes from 19:00 on D-1 | the dates read as local midnight, so the range covers whole local days ("Agregar 23:59:59 al día seleccionado") | not executed | SearchWorker.ChosenDayCounterexample | SearchWorker.DayRangeKept |
