/**
 * The download list of the scraper (notebooks/scraping/b_construir_base_scraper.py):
 * the history of documents minus those whose header JSON already exists and
 * those on the exclusion list, compared by file stem.
 *
 * The CSV files arrive as tables of text cells, a blank cell being `None`
 * (pandas' NaN); the header directory arrives as its listing.
 */
module ConstruirBaseScraper {
  import opened Wrappers
  import opened Text
  import opened Ordering
  import opened Paths

  /** A CSV file as `pd.read_csv` reads it: the header, and each row's cells by column position. */
  datatype Table = Table(columns: seq<string>, rows: seq<Row>)

  type Row = seq<Option<string>>

  /** One entry of the header directory: its name and whether it is a regular file. */
  datatype Entry = Entry(name: string, isFile: bool)

  datatype Failure = FileNotFound(message: string) | KeyError(message: string)

  /** `str(DOCUMENTOS_HISTORICO_PATH)`: pathlib drops the leading "./". */
  const HistoryMissing := "No se encontr\U{f3} el archivo hist\U{f3}rico en data/documentos_historico.csv"
  const ExcludedColumnMissing := "El archivo de excluidos debe contener la columna 'nombre' o 'file_name'."
  const HistoryColumnMissing := "El archivo hist\U{f3}rico debe contener la columna 'file_name'."

  /** Position of the first column called `name`, if any. */
  function ColumnIndex(columns: seq<string>, name: string): (r: Option<nat>)
    ensures r.Some? ==> r.value < |columns| && columns[r.value] == name
    ensures r.None? <==> name !in columns
  {
    if columns == [] then None
    else if columns[0] == name then Some(0)
    else
      var r := ColumnIndex(columns[1..], name);
      assert columns == [columns[0]] + columns[1..];
      if r.Some? then Some(r.value + 1) else None
  }

  /** A row's cell in column `k`; pandas fills a short row with NaN. */
  function Cell(row: Row, k: nat): Option<string> {
    if k < |row| then row[k] else None
  }

  /** `str(valor)`: a NaN cell prints as "nan". */
  function Str(cell: Option<string>): string {
    if cell.Some? then cell.value else "nan"
  }

  /** `Path(s).stem`. */
  function PathStem(s: string): string {
    Stem(BaseName(s))
  }

  // ---------------------------------------------------------------------------
  // Line 17: the stems of the header JSONs already produced

  /** `{path.stem for path in ENCABEZADOS_PATH.glob("*.json") if path.is_file()}`. */
  function HeaderStems(entries: seq<Entry>): (r: set<string>)
    ensures forall e | e in entries && e.isFile && EndsWith(e.name, ".json") :: Stem(e.name) in r
    ensures forall s | s in r :: exists e | e in entries :: e.isFile && EndsWith(e.name, ".json") && Stem(e.name) == s
  {
    set e | e in entries && e.isFile && EndsWith(e.name, ".json") :: Stem(e.name)
  }

  // ---------------------------------------------------------------------------
  // Lines 19-27: the exclusion list

  /** Lines 22-26: "file_name" when present, else "nombre", else a KeyError. */
  function ExclusionColumn(columns: seq<string>): (r: Result<string, Failure>)
    ensures r.Ok? <==> "file_name" in columns || "nombre" in columns
    ensures r.Ok? ==> r.value in columns && (r.value == "file_name" <==> "file_name" in columns)
    ensures r.Ok? ==> r.value == "file_name" || r.value == "nombre"
    ensures r.Err? ==> r.error == KeyError(ExcludedColumnMissing)
  {
    var columna := if "file_name" in columns then "file_name" else "nombre";
    if columna !in columns then Err(KeyError(ExcludedColumnMissing)) else Ok(columna)
  }

  /** The stems of the non-blank cells of column `k`. */
  function StemsOf(rows: seq<Row>, k: nat): set<string> {
    set row | row in rows && Cell(row, k).Some? :: PathStem(Cell(row, k).value)
  }

  /** Line 27, with the exclusion list read as `t` when the file exists. */
  function ExcludedStems(excluidos: Option<Table>): Result<set<string>, Failure> {
    if excluidos.None? then Ok({})
    else
      var t := excluidos.value;
      var columna := ExclusionColumn(t.columns);
      if columna.Err? then Err(columna.error)
      else Ok(StemsOf(t.rows, ColumnIndex(t.columns, columna.value).value))
  }

  /** A name is excluded exactly when a non-blank cell of the chosen column has its stem. */
  lemma ExcludedStemsMeaning(t: Table, s: string)
    requires ExcludedStems(Some(t)).Ok?
    ensures var k := ColumnIndex(t.columns, ExclusionColumn(t.columns).value).value;
      s in ExcludedStems(Some(t)).value <==>
        exists i | 0 <= i < |t.rows| :: Cell(t.rows[i], k).Some? && PathStem(Cell(t.rows[i], k).value) == s
  {
    var k := ColumnIndex(t.columns, ExclusionColumn(t.columns).value).value;
    if s in ExcludedStems(Some(t)).value {
      var row :| row in t.rows && Cell(row, k).Some? && PathStem(Cell(row, k).value) == s;
      var i :| 0 <= i < |t.rows| && t.rows[i] == row;
    }
  }

  /** Line 27, `dropna()`: a row whose cell is blank excludes nothing. */
  lemma {:induction false} BlankIgnored(t: Table, row: Row)
    requires ExcludedStems(Some(t)).Ok?
    requires Cell(row, ColumnIndex(t.columns, ExclusionColumn(t.columns).value).value).None?
    ensures ExcludedStems(Some(Table(t.columns, t.rows + [row]))) == ExcludedStems(Some(t))
  {
    var k := ColumnIndex(t.columns, ExclusionColumn(t.columns).value).value;
    assert StemsOf(t.rows + [row], k) == StemsOf(t.rows, k) by {
      forall s | s in StemsOf(t.rows + [row], k) ensures s in StemsOf(t.rows, k) {
        var r :| r in t.rows + [row] && Cell(r, k).Some? && PathStem(Cell(r, k).value) == s;
        assert r in t.rows;
      }
    }
  }

  // ---------------------------------------------------------------------------
  // Lines 29-36: the filter

  /** Line 35: the row's `file_name` stem is in neither set. */
  predicate Kept(exclusiones: set<string>, k: nat, row: Row) {
    PathStem(Str(Cell(row, k))) !in exclusiones
  }

  /** What line 39 writes: the history's columns and the rows kept, or the error raised first. */
  function ConstruirDocumentosScraper(historyExists: bool, encabezados: seq<Entry>, excluidos: Option<Table>, df: Table)
    : (r: Result<Table, Failure>)
    ensures r == Err(FileNotFound(HistoryMissing)) <==> !historyExists
    ensures r.Ok? ==> r.value.columns == df.columns && |r.value.rows| <= |df.rows|
    ensures r.Ok? ==> forall i | 0 <= i < |r.value.rows| :: r.value.rows[i] in df.rows
    ensures r == Err(KeyError(HistoryColumnMissing)) <==>
      historyExists && ExcludedStems(excluidos).Ok? && "file_name" !in df.columns
  {
    if !historyExists then Err(FileNotFound(HistoryMissing))
    else
      var excluded := ExcludedStems(excluidos);
      if excluded.Err? then Err(excluded.error)
      else
        var exclusiones := HeaderStems(encabezados) + excluded.value;
        var k := ColumnIndex(df.columns, "file_name");
        if k.None? then Err(KeyError(HistoryColumnMissing))
        else
          var kept := Filter(df.rows, row => Kept(exclusiones, k.value, row));
          assert forall i | 0 <= i < |kept| :: kept[i] in df.rows by {
            forall i | 0 <= i < |kept| ensures kept[i] in df.rows {
              FilterIn(df.rows, row => Kept(exclusiones, k.value, row), kept[i]);
            }
          }
          Ok(Table(df.columns, kept))
  }

  /**
   * Lines 17, 27, 29, 35: a history row is written exactly when the stem of
   * its file name is neither the stem of a header JSON nor an excluded stem.
   */
  lemma KeptIff(historyExists: bool, encabezados: seq<Entry>, excluidos: Option<Table>, df: Table, row: Row)
    requires ConstruirDocumentosScraper(historyExists, encabezados, excluidos, df).Ok?
    ensures var k := ColumnIndex(df.columns, "file_name").value;
      var stem := PathStem(Str(Cell(row, k)));
      row in ConstruirDocumentosScraper(historyExists, encabezados, excluidos, df).value.rows <==>
        row in df.rows && stem !in HeaderStems(encabezados) && stem !in ExcludedStems(excluidos).value
  {
    var k := ColumnIndex(df.columns, "file_name").value;
    var exclusiones := HeaderStems(encabezados) + ExcludedStems(excluidos).value;
    var p := (row: Row) => Kept(exclusiones, k, row);
    if row in Filter(df.rows, p) {
      FilterIn(df.rows, p, row);
    }
    if row in df.rows && p(row) {
      FilterKeeps(df.rows, p, row);
    }
  }

  /** Line 36: the rows written keep their order; those of an earlier part of the history come first. */
  lemma KeptInOrder(historyExists: bool, encabezados: seq<Entry>, excluidos: Option<Table>,
                    columns: seq<string>, a: seq<Row>, b: seq<Row>)
    requires ConstruirDocumentosScraper(historyExists, encabezados, excluidos, Table(columns, a + b)).Ok?
    ensures ConstruirDocumentosScraper(historyExists, encabezados, excluidos, Table(columns, a + b)).value.rows ==
      ConstruirDocumentosScraper(historyExists, encabezados, excluidos, Table(columns, a)).value.rows +
      ConstruirDocumentosScraper(historyExists, encabezados, excluidos, Table(columns, b)).value.rows
  {
    var k := ColumnIndex(columns, "file_name").value;
    var exclusiones := HeaderStems(encabezados) + ExcludedStems(excluidos).value;
    FilterAppend(a, b, row => Kept(exclusiones, k, row));
  }

  /** Building the list again from the list written, with the same exclusions, writes it unchanged. */
  lemma Idempotent(historyExists: bool, encabezados: seq<Entry>, excluidos: Option<Table>, df: Table)
    requires ConstruirDocumentosScraper(historyExists, encabezados, excluidos, df).Ok?
    ensures var out := ConstruirDocumentosScraper(historyExists, encabezados, excluidos, df).value;
      ConstruirDocumentosScraper(historyExists, encabezados, excluidos, out) == Ok(out)
  {
    var k := ColumnIndex(df.columns, "file_name").value;
    var exclusiones := HeaderStems(encabezados) + ExcludedStems(excluidos).value;
    var p := (row: Row) => Kept(exclusiones, k, row);
    FilterAll(Filter(df.rows, p), p);
  }
}
