/**
 * `e_sqlite_generator.py`: the unified records loaded as a JSON list, the
 * table's columns gathered from their keys, the CREATE TABLE definitions,
 * the rows bound to the INSERT OR REPLACE statement, and the table they leave.
 */
module SqliteGenerator {
  import opened Wrappers
  import opened Text
  import opened Ordering
  import opened JsonValue
  import opened Dicts
  import opened Seqs

  datatype Failure = FileNotFoundError | ValueError | AttributeError | OperationalError | OverflowError

  // ---------------------------------------------------------------------------
  // Lines 12-22: load_registros

  /** The decoded file content, when the file exists and holds a JSON list. */
  function LoadRegistros(fileExists: bool, data: Json): (r: Result<seq<Json>, Failure>)
    ensures r.Ok? <==> fileExists && data.JArray?
    ensures r.Ok? ==> r.value == data.items
    ensures !fileExists ==> r == Err(FileNotFoundError)
    ensures fileExists && !data.JArray? ==> r == Err(ValueError)
  {
    if !fileExists then Err(FileNotFoundError)
    else if !data.JArray? then Err(ValueError)
    else Ok(data.items)
  }

  // ---------------------------------------------------------------------------
  // Lines 25-34: preparar_columnas

  /** `registro.keys()`; only an object has keys. */
  function KeysOf(v: Json): seq<string> {
    if v.JObject? then KeySeq(v.fields) else []
  }

  predicate AllObjects(rs: seq<Json>) { forall i | 0 <= i < |rs| :: rs[i].JObject? }

  /** The keys of the records, record after record. */
  function AllKeys(rs: seq<Json>): seq<string> {
    if rs == [] then [] else AllKeys(rs[..|rs| - 1]) + KeysOf(rs[|rs| - 1])
  }

  /** `if clave not in columnas: columnas.append(clave)`, over the keys `ks`. */
  function FirstSeen(ks: seq<string>): seq<string> {
    if ks == [] then []
    else
      var cols := FirstSeen(ks[..|ks| - 1]);
      if ks[|ks| - 1] in cols then cols else cols + [ks[|ks| - 1]]
  }

  /** `list.remove(x)`: the first occurrence of `x` taken out. */
  function RemoveFirst(s: seq<string>, x: string): (r: seq<string>)
    requires x in s
    ensures |r| == |s| - 1
  {
    if s[0] == x then s[1..] else [s[0]] + RemoveFirst(s[1..], x)
  }

  /** Lines 31-33: "id", when present, moved to the front. */
  function MoveIdFirst(cols: seq<string>): seq<string> {
    if "id" in cols then ["id"] + RemoveFirst(cols, "id") else cols
  }

  /** What `preparar_columnas` returns, or the error `.keys()` raises on a record that is not an object. */
  function Columns(rs: seq<Json>): Result<seq<string>, Failure> {
    if AllObjects(rs) then Ok(MoveIdFirst(FirstSeen(AllKeys(rs)))) else Err(AttributeError)
  }

  lemma FirstSeenSnoc(ks: seq<string>, k: string)
    ensures FirstSeen(ks + [k]) == if k in FirstSeen(ks) then FirstSeen(ks) else FirstSeen(ks) + [k]
  {
    assert (ks + [k])[..|ks|] == ks;
  }

  lemma AllKeysSnoc(rs: seq<Json>, i: nat)
    requires i < |rs|
    ensures AllKeys(rs[..i + 1]) == AllKeys(rs[..i]) + KeysOf(rs[i])
  {
    var pre := rs[..i + 1];
    assert pre[..|pre| - 1] == rs[..i] && pre[|pre| - 1] == rs[i];
  }

  lemma AllObjectsSnoc(rs: seq<Json>, i: nat)
    requires i < |rs| && AllObjects(rs[..i]) && rs[i].JObject?
    ensures AllObjects(rs[..i + 1])
  {
    var pre := rs[..i + 1];
    forall k | 0 <= k < |pre| ensures pre[k].JObject? {
      if k < i {
        assert pre[k] == rs[..i][k];
      }
    }
  }

  method PrepararColumnas(registros: seq<Json>) returns (r: Result<seq<string>, Failure>)
    ensures r == Columns(registros)
  {
    var columnas: seq<string> := [];
    for i := 0 to |registros|
      invariant AllObjects(registros[..i])
      invariant columnas == FirstSeen(AllKeys(registros[..i]))
    {
      var registro := registros[i];
      if !registro.JObject? {
        assert registros[i] == registro;
        return Err(AttributeError);
      }
      var claves := KeySeq(registro.fields);
      var seen := AllKeys(registros[..i]);
      AllKeysSnoc(registros, i);
      assert seen + claves[..0] == seen;
      for j := 0 to |claves|
        invariant columnas == FirstSeen(seen + claves[..j])
      {
        var clave := claves[j];
        PrefixSnoc(seen, claves, j);
        FirstSeenSnoc(seen + claves[..j], clave);
        if clave !in columnas {
          columnas := columnas + [clave];
        }
      }
      assert claves[..|claves|] == claves;
      AllObjectsSnoc(registros, i);
    }
    assert registros[..|registros|] == registros;
    if "id" in columnas {
      columnas := RemoveFirst(columnas, "id");
      columnas := ["id"] + columnas;
    }
    r := Ok(columnas);
  }

  predicate Distinct(s: seq<string>) { forall i, j | 0 <= i < j < |s| :: s[i] != s[j] }

  /** Where `k` first occurs in `ks`. */
  function FirstIndex(ks: seq<string>, k: string): (n: nat)
    requires k in ks
    ensures n < |ks| && ks[n] == k && k !in ks[..n]
  {
    if ks[0] == k then 0 else 1 + FirstIndex(ks[1..], k)
  }

  lemma FirstIndexSnoc(ks: seq<string>, k: string, x: string)
    requires x in ks
    ensures FirstIndex(ks + [k], x) == FirstIndex(ks, x)
  {
    var n := FirstIndex(ks, x);
    FirstIndexUnique(ks + [k], x, n);
  }

  lemma FirstIndexUnique(ks: seq<string>, x: string, n: nat)
    requires n < |ks| && ks[n] == x && x !in ks[..n]
    ensures FirstIndex(ks, x) == n
  {
  }

  /**
   * Lines 26-30: every key of every record appears exactly once, and in the
   * order in which the keys first occur.
   */
  lemma {:induction false} FirstSeenOrder(ks: seq<string>)
    ensures var cols := FirstSeen(ks);
      && Distinct(cols)
      && (forall k :: k in cols <==> k in ks)
      && (forall i, j | 0 <= i < j < |cols| :: FirstIndex(ks, cols[i]) < FirstIndex(ks, cols[j]))
  {
    if ks != [] {
      var init, k := ks[..|ks| - 1], ks[|ks| - 1];
      assert ks == init + [k];
      FirstSeenOrder(init);
      FirstSeenSnoc(init, k);
      var prev := FirstSeen(init);
      forall x | x in prev ensures FirstIndex(ks, x) == FirstIndex(init, x) {
        FirstIndexSnoc(init, k, x);
      }
      if k !in prev {
        assert k !in init;
        FirstIndexUnique(ks, k, |init|);
        forall x | x in prev ensures FirstIndex(ks, x) < |init| {
          FirstIndexSnoc(init, k, x);
        }
        var cols := prev + [k];
        forall i, j | 0 <= i < j < |cols| ensures FirstIndex(ks, cols[i]) < FirstIndex(ks, cols[j]) {
          assert cols[i] == prev[i] && cols[i] in prev;
          if j < |prev| {
            assert cols[j] == prev[j] && cols[j] in prev;
          }
        }
      }
    }
  }

  predicate NotId(c: string) { c != "id" }

  lemma {:induction false} RemoveFirstFilter(s: seq<string>)
    requires "id" in s && Distinct(s)
    ensures RemoveFirst(s, "id") == Filter(s, NotId)
  {
    FilterCons(s[0], s[1..], NotId);
    assert s == [s[0]] + s[1..];
    if s[0] == "id" {
      forall i | 0 <= i < |s[1..]| ensures NotId(s[1..][i]) {
        assert s[1..][i] == s[i + 1] != s[0];
      }
      FilterAll(s[1..], NotId);
    } else {
      assert Distinct(s[1..]) by {
        forall i, j | 0 <= i < j < |s[1..]| ensures s[1..][i] != s[1..][j] {
          assert s[1..][i] == s[i + 1] && s[1..][j] == s[j + 1];
        }
      }
      RemoveFirstFilter(s[1..]);
    }
  }

  /**
   * Lines 31-33: with "id" among distinct columns it comes first and the
   * others keep their order; without it nothing moves.
   */
  lemma MoveIdFirstOrder(cols: seq<string>)
    requires Distinct(cols)
    ensures "id" in cols ==> MoveIdFirst(cols) == ["id"] + Filter(cols, NotId)
    ensures "id" !in cols ==> MoveIdFirst(cols) == cols
  {
    if "id" in cols {
      RemoveFirstFilter(cols);
    }
  }

  // ---------------------------------------------------------------------------
  // Lines 41-53: crear_tabla

  /** Line 46-48: one column definition. */
  function Definition(columna: string): string {
    var definicion := "\"" + columna + "\" TEXT";
    if columna == "id" then definicion + " PRIMARY KEY" else definicion
  }

  /** The definitions the loop at lines 45-49 builds, one per column, in order. */
  function Definitions(cols: seq<string>): (defs: seq<string>)
    ensures |defs| == |cols| && forall i | 0 <= i < |cols| :: defs[i] == Definition(cols[i])
  {
    if cols == [] then [] else Definitions(cols[..|cols| - 1]) + [Definition(cols[|cols| - 1])]
  }

  /** Only the "id" column is the primary key. */
  lemma PrimaryKeyOnlyId(columna: string)
    ensures EndsWith(Definition(columna), " PRIMARY KEY") <==> columna == "id"
  {
    var d := Definition(columna);
    if columna != "id" {
      assert d[|d| - 1] == 'T';
    }
  }

  /** Every column is stored as TEXT, under its own name in double quotes. */
  lemma DefinitionNamesColumn(columna: string)
    ensures StartsWith(Definition(columna), "\"" + columna + "\" TEXT")
  {
  }

  method CrearTabla(columnas: seq<string>) returns (sentencias: seq<string>)
    ensures |sentencias| == 2 && sentencias[0] == "DROP TABLE IF EXISTS encabezados;"
    ensures sentencias[1] == "CREATE TABLE encabezados (" + Join(Definitions(columnas), ", ") + ");"
  {
    var definiciones: seq<string> := [];
    for i := 0 to |columnas|
      invariant definiciones == Definitions(columnas[..i])
    {
      var definicion := "\"" + columnas[i] + "\" TEXT";
      if columnas[i] == "id" {
        definicion := definicion + " PRIMARY KEY";
      }
      var pre := columnas[..i + 1];
      assert pre[..|pre| - 1] == columnas[..i];
      definiciones := definiciones + [definicion];
    }
    assert columnas[..|columnas|] == columnas;
    sentencias := ["DROP TABLE IF EXISTS encabezados;", "CREATE TABLE encabezados (" + Join(definiciones, ", ") + ");"];
  }

  // ---------------------------------------------------------------------------
  // Lines 56-59: normalizar_valor

  /** `isinstance(valor, (str, int, float)) or valor is None`; a Python bool is an int. */
  predicate Scalar(v: Json) { !v.JArray? && !v.JObject? }

  /** Scalars pass through; anything else becomes its JSON text (`json.dumps`, a parameter here). */
  function NormalizarValor(valor: Json, dumps: Json -> string): (r: Json)
    ensures Scalar(r)
    ensures Scalar(valor) ==> r == valor
    ensures !Scalar(valor) ==> r == JString(dumps(valor))
  {
    if Scalar(valor) then valor else JString(dumps(valor))
  }

  /** Normalising twice is normalising once. */
  lemma NormalizarValorIdempotent(valor: Json, dumps: Json -> string)
    ensures NormalizarValor(NormalizarValor(valor, dumps), dumps) == NormalizarValor(valor, dumps)
  {
  }

  // ---------------------------------------------------------------------------
  // Lines 62-75: insertar_registros

  /** Line 71: the values of one record, one per column in column order, `None` for a missing key. */
  function Fila(columnas: seq<string>, fields: seq<(string, Json)>, dumps: Json -> string): (fila: seq<Json>)
    ensures |fila| == |columnas|
    ensures forall i | 0 <= i < |columnas| :: fila[i] == NormalizarValor(GetOrNull(fields, columnas[i]), dumps)
  {
    if columnas == [] then []
    else Fila(columnas[..|columnas| - 1], fields, dumps) + [NormalizarValor(GetOrNull(fields, columnas[|columnas| - 1]), dumps)]
  }

  /** A record without the key gets `None` in that column. */
  lemma MissingKeyNull(columnas: seq<string>, fields: seq<(string, Json)>, dumps: Json -> string, i: nat)
    requires i < |columnas| && columnas[i] !in KeySeq(fields)
    ensures Fila(columnas, fields, dumps)[i] == JNull
  {
  }

  function Filas(columnas: seq<string>, registros: seq<Json>, dumps: Json -> string): seq<seq<Json>>
    requires AllObjects(registros)
  {
    if registros == [] then []
    else Filas(columnas, registros[..|registros| - 1], dumps) + [Fila(columnas, registros[|registros| - 1].fields, dumps)]
  }

  /**
   * Lines 69-72; `generar_sqlite` only calls it after `preparar_columnas`
   * has gone through every record, so each record is an object.
   */
  method InsertarRegistros(columnas: seq<string>, registros: seq<Json>, dumps: Json -> string) returns (filas: seq<seq<Json>>)
    requires AllObjects(registros)
    ensures filas == Filas(columnas, registros, dumps)
  {
    filas := [];
    for i := 0 to |registros|
      invariant filas == Filas(columnas, registros[..i], dumps)
    {
      var pre := registros[..i + 1];
      assert pre[..|pre| - 1] == registros[..i] && pre[|pre| - 1] == registros[i];
      var fila := Fila(columnas, registros[i].fields, dumps);
      filas := filas + [fila];
    }
    assert registros[..|registros|] == registros;
  }

  /** One row per record, each as wide as the column list. */
  lemma {:induction false} FilasShape(columnas: seq<string>, registros: seq<Json>, dumps: Json -> string)
    requires AllObjects(registros)
    ensures var filas := Filas(columnas, registros, dumps);
      |filas| == |registros| && forall i | 0 <= i < |filas| :: |filas[i]| == |columnas|
  {
    if registros != [] {
      FilasShape(columnas, registros[..|registros| - 1], dumps);
    }
  }

  /**
   * Lines 46-48 and 67: the table has a primary key exactly when "id" is a
   * column, and then it is the first one (`MoveIdFirst`).
   */
  predicate KeyedById(columnas: seq<string>) {
    columnas != [] && columnas[0] == "id"
  }

  /** The rows of `t` whose id cell is `id`, in order. */
  function WithId(t: seq<seq<Json>>, id: Json): (r: seq<seq<Json>>)
    requires forall i | 0 <= i < |t| :: t[i] != []
    ensures forall i | 0 <= i < |r| :: r[i] in t && r[i][0] == id
  {
    if t == [] then []
    else
      var rest := WithId(t[..|t| - 1], id);
      if t[|t| - 1][0] == id then rest + [t[|t| - 1]] else rest
  }

  /** The rows of `t` whose id cell is not `id`, in order: what REPLACE deletes before it inserts. */
  function WithoutId(t: seq<seq<Json>>, id: Json): (r: seq<seq<Json>>)
    requires forall i | 0 <= i < |t| :: t[i] != []
    ensures forall i | 0 <= i < |r| :: r[i] in t && r[i][0] != id
  {
    if t == [] then []
    else
      var rest := WithoutId(t[..|t| - 1], id);
      if t[|t| - 1][0] == id then rest else rest + [t[|t| - 1]]
  }

  /**
   * The table after INSERT OR REPLACE of the rows in order, in insertion
   * order. A row conflicts only through the PRIMARY KEY: when the table has
   * one and the row's id is not NULL, the row with that id is deleted and
   * the new row inserted. Otherwise the row is simply added.
   */
  function Table(columnas: seq<string>, filas: seq<seq<Json>>): (r: seq<seq<Json>>)
    requires forall i | 0 <= i < |filas| :: |filas[i]| == |columnas|
    ensures forall i | 0 <= i < |r| :: r[i] in filas
  {
    if filas == [] then []
    else
      var before := Table(columnas, filas[..|filas| - 1]);
      var last := filas[|filas| - 1];
      if KeyedById(columnas) && last[0] != JNull then
        assert forall i | 0 <= i < |before| :: before[i] in filas;
        WithoutId(before, last[0]) + [last]
      else before + [last]
  }

  /** The last of `filas` whose id is `id`. */
  function LastWithId(filas: seq<seq<Json>>, id: Json): (r: Option<seq<Json>>)
    requires forall i | 0 <= i < |filas| :: filas[i] != []
    ensures r.Some? ==> r.value in filas && r.value[0] == id
  {
    if filas == [] then None
    else if filas[|filas| - 1][0] == id then Some(filas[|filas| - 1])
    else LastWithId(filas[..|filas| - 1], id)
  }

  /** No row, or the one row found. */
  function OptionSeq(o: Option<seq<Json>>): seq<seq<Json>> {
    if o.Some? then [o.value] else []
  }

  lemma WithIdSnoc(t: seq<seq<Json>>, row: seq<Json>, id: Json)
    requires forall i | 0 <= i < |t| :: t[i] != []
    requires row != []
    ensures WithId(t + [row], id) == WithId(t, id) + (if row[0] == id then [row] else [])
  {
    assert (t + [row])[..|t|] == t;
  }

  lemma {:induction false} WithIdWithout(t: seq<seq<Json>>, x: Json, id: Json)
    requires forall i | 0 <= i < |t| :: t[i] != []
    ensures WithId(WithoutId(t, x), id) == if x == id then [] else WithId(t, id)
  {
    if t != [] {
      var pre := t[..|t| - 1];
      var last := t[|t| - 1];
      WithIdWithout(pre, x, id);
      if last[0] != x {
        WithIdSnoc(WithoutId(pre, x), last, id);
      }
    }
  }

  /**
   * Line 67: with an "id" column, the table holds exactly one row with a
   * given non-NULL id when some row has it, and that row is the last such;
   * otherwise it holds none.
   */
  lemma {:induction false} LastIdWins(columnas: seq<string>, filas: seq<seq<Json>>, id: Json)
    requires forall i | 0 <= i < |filas| :: |filas[i]| == |columnas|
    requires KeyedById(columnas) && id != JNull
    ensures forall i | 0 <= i < |filas| :: filas[i] != []
    ensures WithId(Table(columnas, filas), id) == OptionSeq(LastWithId(filas, id))
  {
    if filas != [] {
      var pre := filas[..|filas| - 1];
      var last := filas[|filas| - 1];
      LastIdWins(columnas, pre, id);
      var before := Table(columnas, pre);
      if last[0] != JNull {
        assert Table(columnas, filas) == WithoutId(before, last[0]) + [last];
        WithIdWithout(before, last[0], id);
        WithIdSnoc(WithoutId(before, last[0]), last, id);
      } else {
        assert Table(columnas, filas) == before + [last];
        WithIdSnoc(before, last, id);
      }
    }
  }

  /** Lines 44-48 and 67: without an "id" column there is no key, and every row is kept in order. */
  lemma {:induction false} UnkeyedKeepsAll(columnas: seq<string>, filas: seq<seq<Json>>)
    requires forall i | 0 <= i < |filas| :: |filas[i]| == |columnas|
    requires !KeyedById(columnas)
    ensures Table(columnas, filas) == filas
  {
    if filas != [] {
      UnkeyedKeepsAll(columnas, filas[..|filas| - 1]);
    }
  }

  /** NULL ids never conflict: every row with a NULL id stays in the table. */
  lemma {:induction false} NullIdsKept(columnas: seq<string>, filas: seq<seq<Json>>)
    requires forall i | 0 <= i < |filas| :: |filas[i]| == |columnas|
    requires KeyedById(columnas)
    ensures forall i | 0 <= i < |filas| :: filas[i] != []
    ensures WithId(Table(columnas, filas), JNull) == WithId(filas, JNull)
  {
    if filas != [] {
      var pre := filas[..|filas| - 1];
      var last := filas[|filas| - 1];
      NullIdsKept(columnas, pre);
      var before := Table(columnas, pre);
      assert filas == pre + [last];
      WithIdSnoc(pre, last, JNull);
      if last[0] != JNull {
        WithIdWithout(before, last[0], JNull);
        WithIdSnoc(WithoutId(before, last[0]), last, JNull);
      } else {
        WithIdSnoc(before, last, JNull);
      }
    }
  }

  // ---------------------------------------------------------------------------
  // What SQLite refuses

  /**
   * SQLite compares column names ignoring ASCII case, so CREATE TABLE
   * (line 52) fails with "duplicate column name" when two columns differ only
   * in case; `preparar_columnas` (line 29) compares case-sensitively and keeps both.
   */
  predicate CaseClash(columnas: seq<string>) {
    exists i, j | 0 <= i < j < |columnas| :: Lower(columnas[i]) == Lower(columnas[j])
  }

  const MinInt64 := -0x8000_0000_0000_0000
  const MaxInt64 := 0x7fff_ffff_ffff_ffff

  /** Line 74: `executemany` binds a Python int only when it fits SQLite's 64-bit INTEGER. */
  predicate Binds(v: Json) { v.JInt? ==> MinInt64 <= v.i <= MaxInt64 }

  predicate RowsBind(filas: seq<seq<Json>>) {
    forall i, j | 0 <= i < |filas| && 0 <= j < |filas[i]| :: Binds(filas[i][j])
  }

  lemma KeysOfOne(k: string, v: Json)
    ensures KeysOf(JObject([(k, v)])) == [k]
  {
    var r := KeySeq([(k, v)]);
    assert |r| == 1 && r[0] == k;
  }

  lemma AllKeysPair(a: Json, b: Json)
    ensures AllKeys([a, b]) == KeysOf(a) + KeysOf(b)
  {
    assert [a][..0] == [];
    assert AllKeys([a]) == AllKeys([]) + KeysOf(a);
    assert [a, b][..1] == [a];
    assert AllKeys([a, b]) == AllKeys([a]) + KeysOf(b);
  }

  lemma FirstSeenPair(x: string, y: string)
    requires x != y
    ensures FirstSeen([x, y]) == [x, y]
  {
    assert [x][..0] == [];
    assert FirstSeen([x]) == [x];
    assert [x, y][..1] == [x];
    assert y !in [x];
    assert FirstSeen([x, y]) == [x] + [y];
  }

  /** Records keyed "fecha" and "Fecha" give two columns, which SQLite takes for one. */
  lemma CaseVariantsClash()
    ensures var cols := Columns([JObject([("fecha", JNull)]), JObject([("Fecha", JNull)])]);
      cols == Ok(["fecha", "Fecha"]) && CaseClash(cols.value)
  {
    var x, y := "fecha", "Fecha";
    var a, b := JObject([(x, JNull)]), JObject([(y, JNull)]);
    KeysOfOne(x, JNull);
    KeysOfOne(y, JNull);
    AllKeysPair(a, b);
    assert x != y by { assert x[0] != y[0]; }
    FirstSeenPair(x, y);
    assert "id" !in [x, y];
    assert Lower(x) == Lower(y);
  }

  // ---------------------------------------------------------------------------
  // Lines 78-88: generar_sqlite

  /** The table's columns, the statements run, the rows bound, and the rows the table ends with. */
  datatype Database = Database(columns: seq<string>, statements: seq<string>, rows: seq<seq<Json>>, table: seq<seq<Json>>)

  /**
   * The whole run: load, gather the columns, create the table, insert the
   * rows. Each step's exception ends the run: a missing file, a file that
   * is not a list, a record that is not an object, and, with no column at
   * all or with two columns equal up to case, the CREATE TABLE that SQLite
   * refuses; and an int beyond 64 bits, which `executemany` cannot bind.
   */
  method GenerarSqlite(fileExists: bool, data: Json, dumps: Json -> string) returns (r: Result<Database, Failure>)
    ensures r.Err? <==> (LoadRegistros(fileExists, data).Err?
      || Columns(LoadRegistros(fileExists, data).value).Err?
      || Columns(LoadRegistros(fileExists, data).value).value == []
      || CaseClash(Columns(LoadRegistros(fileExists, data).value).value)
      || !RowsBind(Filas(Columns(LoadRegistros(fileExists, data).value).value, LoadRegistros(fileExists, data).value, dumps)))
    ensures !fileExists ==> r == Err(FileNotFoundError)
    ensures fileExists && !data.JArray? ==> r == Err(ValueError)
    ensures fileExists && data.JArray? && !AllObjects(data.items) ==> r == Err(AttributeError)
    ensures r == Err(OperationalError) <==> (LoadRegistros(fileExists, data).Ok?
      && Columns(LoadRegistros(fileExists, data).value).Ok?
      && (Columns(LoadRegistros(fileExists, data).value).value == [] || CaseClash(Columns(LoadRegistros(fileExists, data).value).value)))
    ensures r == Err(OverflowError) ==> (LoadRegistros(fileExists, data).Ok?
      && Columns(LoadRegistros(fileExists, data).value).Ok?
      && !RowsBind(Filas(Columns(LoadRegistros(fileExists, data).value).value, LoadRegistros(fileExists, data).value, dumps)))
    ensures r.Ok? ==> var registros := LoadRegistros(fileExists, data).value;
      && r.value.columns == Columns(registros).value
      && r.value.statements == ["DROP TABLE IF EXISTS encabezados;",
                                "CREATE TABLE encabezados (" + Join(Definitions(r.value.columns), ", ") + ");"]
      && r.value.rows == Filas(r.value.columns, registros, dumps)
      && (FilasShape(r.value.columns, registros, dumps);
          r.value.table == Table(r.value.columns, r.value.rows))
  {
    var loaded := LoadRegistros(fileExists, data);
    if loaded.Err? {
      return Err(loaded.error);
    }
    var registros := loaded.value;
    var columnas := PrepararColumnas(registros);
    if columnas.Err? {
      return Err(columnas.error);
    }
    if columnas.value == [] {
      return Err(OperationalError);
    }
    var sentencias := CrearTabla(columnas.value);
    if CaseClash(columnas.value) {
      return Err(OperationalError);
    }
    var filas := InsertarRegistros(columnas.value, registros, dumps);
    if !RowsBind(filas) {
      return Err(OverflowError);
    }
    FilasShape(columnas.value, registros, dumps);
    r := Ok(Database(columnas.value, sentencias, filas, Table(columnas.value, filas)));
  }
}
