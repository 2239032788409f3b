/**
 * `a_listar.py`: the header crops of one directory listed as CSV rows
 * (file name, JSON name, image path), the JSON name being the crop's stem
 * with every `_encabezado<n>_` tag collapsed to `_`.
 */
module Listar {
  import opened Wrappers
  import opened Text
  import opened Ordering
  import opened Paths

  /** An entry of the input directory: its name and whether it is a regular file. */
  datatype Entry = Entry(name: string, isFile: bool)

  /** One record: (file_name, json_name, image_path). */
  datatype Row = Row(fileName: string, jsonName: string, imagePath: string)

  datatype Failure = FileNotFoundError

  // ---------------------------------------------------------------------------
  // Line 12: the pattern `_encabezado\d+_`

  const Tag := "_encabezado"

  /**
   * Length of a match of `_encabezado\d+_` at the start of `s`, if any. The
   * digit run cannot give digits back to the final `_`, so it is the longest one.
   */
  function TagAt(s: string): (r: Option<nat>)
    ensures r.Some? ==> 13 <= r.value <= |s|
  {
    if |s| < 11 || s[..11] != Tag then None
    else
      var j := Run(s[11..], IsDigit);
      if j == 0 || 11 + j >= |s| || s[11 + j] != '_' then None else Some(12 + j)
  }

  /** `pattern.sub("_", s)`: matches replaced from left to right, never overlapping. */
  function ReplaceTags(s: string): (r: string)
    ensures |r| <= |s|
    decreases |s|
  {
    if s == [] then []
    else
      var m := TagAt(s);
      if m.Some? then "_" + ReplaceTags(s[m.value..]) else [s[0]] + ReplaceTags(s[1..])
  }

  /** `pattern.search(s)` finds something. */
  predicate HasTag(s: string) { exists i | 0 <= i < |s| :: TagAt(s[i..]).Some? }

  lemma {:induction false} NoTagKept(s: string)
    requires !HasTag(s)
    ensures ReplaceTags(s) == s
  {
    if s != [] {
      assert s[0..] == s;
      assert !HasTag(s[1..]) by {
        forall i | 0 <= i < |s[1..]| ensures TagAt(s[1..][i..]).None? {
          assert s[1..][i..] == s[i + 1..];
        }
      }
      NoTagKept(s[1..]);
    }
  }

  lemma {:induction false} TagShrinks(s: string, i: nat)
    requires i < |s| && TagAt(s[i..]).Some?
    ensures |ReplaceTags(s)| < |s|
    decreases i
  {
    if TagAt(s).None? && i > 0 {
      assert s[1..][i - 1..] == s[i..];
      TagShrinks(s[1..], i - 1);
    }
  }

  /** Lines 23-25: the stem comes back unchanged exactly when the pattern does not occur in it. */
  lemma ReplaceTagsUnchanged(s: string)
    ensures ReplaceTags(s) == s <==> !HasTag(s)
  {
    if HasTag(s) {
      var i :| 0 <= i < |s| && TagAt(s[i..]).Some?;
      TagShrinks(s, i);
    } else {
      NoTagKept(s);
    }
  }

  /** "x_encabezado12_y" becomes "x_y". */
  lemma ReplaceTagsExample()
    ensures ReplaceTags("x_encabezado12_y") == "x_y"
  {
    var s := "x_encabezado12_y";
    assert TagAt(s).None?;
    var t := s[1..];
    assert t[..11] == Tag;
    assert t[11..] == "12_y";
    RunExact("12_y", IsDigit, 2);
    assert TagAt(t) == Some(14);
    assert t[14..] == "y";
    assert TagAt("y").None?;
  }

  // ---------------------------------------------------------------------------
  // Lines 11-29: build_records

  /** Lines 16-19: a regular file whose suffix, lower-cased, is .jpg, .jpeg or .png. */
  predicate IsImage(e: Entry) {
    e.isFile && Lower(Suffix(e.name)) in {".jpg", ".jpeg", ".png"}
  }

  /** `str(input_dir / name)`. */
  function PathIn(dir: string, name: string): string { dir + "/" + name }

  /** Lines 21-27: the record of one image. */
  function MakeRow(dir: string, name: string): (r: Row)
    ensures r.fileName == name && r.imagePath == PathIn(dir, name)
    ensures r.jsonName == ReplaceTags(Stem(name)) + ".json"
    ensures !HasTag(Stem(name)) ==> r.jsonName == Stem(name) + ".json"
  {
    ReplaceTagsUnchanged(Stem(name));
    Row(name, ReplaceTags(Stem(name)) + ".json", PathIn(dir, name))
  }

  predicate NameLe(a: Entry, b: Entry) { StrLe(a.name, b.name) }

  /** Line 15: `sorted(input_dir.iterdir())`; the paths share their directory, so they sort by name. */
  function Listing(entries: seq<Entry>): seq<Entry> {
    SortBy(entries, NameLe)
  }

  /** The records the loop has after the entries `files`. */
  function Rows(dir: string, files: seq<Entry>): seq<Row> {
    if files == [] then []
    else
      var prev := Rows(dir, files[..|files| - 1]);
      var e := files[|files| - 1];
      if IsImage(e) then prev + [MakeRow(dir, e.name)] else prev
  }

  method BuildRecords(dir: string, entries: seq<Entry>) returns (records: seq<Row>)
    ensures records == Rows(dir, Listing(entries))
  {
    var files := Listing(entries);
    records := [];
    for i := 0 to |files|
      invariant records == Rows(dir, files[..i])
    {
      var imagePath := files[i];
      var pre := files[..i + 1];
      assert pre[..|pre| - 1] == files[..i] && pre[|pre| - 1] == imagePath;
      if !imagePath.isFile {
        continue;
      }
      if Lower(Suffix(imagePath.name)) !in {".jpg", ".jpeg", ".png"} {
        continue;
      }
      records := records + [MakeRow(dir, imagePath.name)];
    }
    assert files[..|files|] == files;
  }

  /** The records are those of the image entries, one each, in the order of the entries. */
  lemma {:induction false} RowsOfImages(dir: string, files: seq<Entry>)
    ensures var rows, images := Rows(dir, files), Filter(files, IsImage);
      |rows| == |images| && forall i | 0 <= i < |rows| :: rows[i] == MakeRow(dir, images[i].name)
  {
    if files != [] {
      var init, e := files[..|files| - 1], files[|files| - 1];
      RowsOfImages(dir, init);
      assert files == init + [e];
      FilterSnoc(init, e, IsImage);
    }
  }

  lemma NameOrder()
    ensures TotalPreorder(NameLe)
  {
    StrLeTotalOrder();
    forall a: Entry, b: Entry ensures NameLe(a, b) || NameLe(b, a) {
      assert StrLe(a.name, b.name) || StrLe(b.name, a.name);
    }
    forall a: Entry, b: Entry, c: Entry | NameLe(a, b) && NameLe(b, c) ensures NameLe(a, c) {
      assert StrLe(a.name, b.name) && StrLe(b.name, c.name);
    }
  }

  /**
   * Every image entry gives one record, nothing else does, and the records
   * come in the order of their file names.
   */
  lemma BuildRecordsOrder(dir: string, entries: seq<Entry>)
    ensures |Rows(dir, Listing(entries))| == Count(entries, IsImage)
    ensures forall r | r in Rows(dir, Listing(entries)) :: exists e | e in entries && IsImage(e) :: r == MakeRow(dir, e.name)
    ensures forall i, j | 0 <= i < j < |Rows(dir, Listing(entries))| ::
      StrLe(Rows(dir, Listing(entries))[i].fileName, Rows(dir, Listing(entries))[j].fileName)
  {
    var files := Listing(entries);
    NameOrder();
    SortBySorted(entries, NameLe);
    FilterSorted(files, NameLe, IsImage);
    RowsOfImages(dir, files);
    CountPermutation(files, entries, IsImage);
    CountFilter(files, IsImage);
    var rows, images := Rows(dir, files), Filter(files, IsImage);
    forall r | r in rows ensures exists e | e in entries && IsImage(e) :: r == MakeRow(dir, e.name) {
      var i :| 0 <= i < |rows| && rows[i] == r;
      assert images[i] in images;
      FilterIn(files, IsImage, images[i]);
      assert images[i] in multiset(files);
      assert images[i] in multiset(entries);
      assert images[i] in entries && IsImage(images[i]) && rows[i] == MakeRow(dir, images[i].name);
    }
  }

  lemma {:induction false} CountFilter<T>(s: seq<T>, p: T -> bool)
    ensures |Filter(s, p)| == Count(s, p)
  {
    if s != [] {
      FilterCons(s[0], s[1..], p);
      assert s == [s[0]] + s[1..];
      CountFilter(s[1..], p);
    }
  }

  // ---------------------------------------------------------------------------
  // Lines 32-37: write_csv, as the cells of each line

  const Header: seq<string> := ["file_name", "json_name", "image_path"]

  function Cells(r: Row): seq<string> { [r.fileName, r.jsonName, r.imagePath] }

  /** The header line, then one line per record in record order. */
  function CsvLines(records: seq<Row>): (t: seq<seq<string>>)
    ensures |t| == |records| + 1 && t[0] == Header
    ensures forall i | 0 <= i < |records| :: t[i + 1] == Cells(records[i])
  {
    if records == [] then [Header]
    else
      var t := CsvLines(records[..|records| - 1]);
      t + [Cells(records[|records| - 1])]
  }

  // ---------------------------------------------------------------------------
  // Lines 40-49: main

  /** A missing input directory fails before any file is written; otherwise the lines written. */
  function Listar(inputExists: bool, dir: string, entries: seq<Entry>): (r: Result<seq<seq<string>>, Failure>)
    ensures r.Err? <==> !inputExists
    ensures r.Ok? ==> |r.value| == Count(entries, IsImage) + 1
  {
    if !inputExists then Err(FileNotFoundError)
    else
      BuildRecordsOrder(dir, entries);
      Ok(CsvLines(Rows(dir, Listing(entries))))
  }
}
