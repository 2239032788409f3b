/**
 * The page rasteriser of the scraper (notebooks/scraping/d_extract_images.py):
 * which files of the PDF directory are converted, and the name under which
 * each page image is saved.
 *
 * The rendering itself is an oracle giving each PDF's page count, or the
 * message of the exception it raises; the images saved are returned as
 * their paths.
 */
module ExtractImages {
  import opened Wrappers
  import opened Text
  import opened Ordering
  import opened Paths

  /** Line 8. */
  const ImagesFolder := "./data/images"

  // ---------------------------------------------------------------------------
  // Line 47: the PDF listing

  /** A name taken by line 47: it ends in ".pdf", in lower case. */
  predicate IsPdf(f: string) { EndsWith(f, ".pdf") }

  /** Line 47: the names of the listing that end in ".pdf", in listing order. */
  function PdfFiles(listing: seq<string>): (r: seq<string>)
    ensures forall i | 0 <= i < |r| :: IsPdf(r[i])
  {
    Filter(listing, IsPdf)
  }

  /** A name is converted exactly when it is listed and ends in ".pdf"; "X.PDF" is not. */
  lemma PdfFilesIff(listing: seq<string>, f: string)
    ensures f in PdfFiles(listing) <==> f in listing && IsPdf(f)
  {
    if f in PdfFiles(listing) {
      FilterIn(listing, IsPdf, f);
    }
    if f in listing && IsPdf(f) {
      FilterKeeps(listing, IsPdf, f);
    }
  }

  // ---------------------------------------------------------------------------
  // Lines 21-43: process_pdf

  /** Line 34: `f"{base_name}_page{str(i).zfill(3)}_.jpg"`. */
  function ImageName(base: string, i: nat): string {
    base + "_page" + ZeroPad(NatToString(i), 3) + "_.jpg"
  }

  /** Lines 34-35: where page `i` of `file` is saved. */
  function ImagePath(file: string, i: nat): string {
    ImagesFolder + "/" + ImageName(BeforeLastDot(file), i)
  }

  /** Lines 28-38: the paths of pages `1` to `n`, in page order. */
  function ImagePaths(file: string, n: nat): (r: seq<string>)
    ensures |r| == n
    ensures forall i | 0 <= i < n :: r[i] == ImagePath(file, i + 1)
  {
    if n == 0 then [] else ImagePaths(file, n - 1) + [ImagePath(file, n)]
  }

  /** Line 43. */
  function Completed(file: string, totalPages: nat): string {
    file + " completado (" + NatToString(totalPages) + " p\U{e1}ginas)"
  }

  /** Lines 21-43 for a PDF of `totalPages` pages: one image per page, numbered from 1. */
  method ProcessPdf(file: string, totalPages: nat) returns (saved: seq<string>, summary: string)
    ensures saved == ImagePaths(file, totalPages)
    ensures summary == Completed(file, totalPages)
  {
    var baseName := BeforeLastDot(file);
    saved := [];
    var i := 1;
    while i <= totalPages
      invariant 1 <= i <= totalPages + 1
      invariant saved == ImagePaths(file, i - 1)
    {
      var imageFilename := baseName + "_page" + ZeroPad(NatToString(i), 3) + "_.jpg";
      var imagePath := ImagesFolder + "/" + imageFilename;
      saved := saved + [imagePath];
      i := i + 1;
    }
    summary := file + " completado (" + NatToString(totalPages) + " p\U{e1}ginas)";
  }

  /** Two numerals padded to width 3 are equal only for the same number: padding never truncates. */
  lemma PaddedInjective(i: nat, j: nat)
    requires ZeroPad(NatToString(i), 3) == ZeroPad(NatToString(j), 3)
    ensures i == j
  {
    ZeroPadValue(NatToString(i), 3);
    ZeroPadValue(NatToString(j), 3);
  }

  /** A padded numeral is all digits. */
  lemma PaddedDigits(i: nat)
    ensures AllDigits(ZeroPad(NatToString(i), 3))
  {
    ZeroPadValue(NatToString(i), 3);
  }

  /** A string ending in a non-digit, then a numeral, splits there in one way only. */
  lemma SplitBeforeDigits(b1: string, p1: string, b2: string, p2: string, m: string)
    requires m != [] && !IsDigit(m[|m| - 1]) && AllDigits(p1) && AllDigits(p2)
    requires b1 + m + p1 == b2 + m + p2
    ensures b1 == b2 && p1 == p2
  {
    var s1, s2 := b1 + m + p1, b2 + m + p2;
    CharBefore(b1, m, p1);
    CharBefore(b2, m, p2);
    CharWithin(b1, m, p1, |p2|);
    CharWithin(b2, m, p2, |p1|);
    assert |p1| == |p2|;
    assert p1 == s1[|s1| - |p1|..] && p2 == s2[|s2| - |p2|..];
    assert b1 == s1[..|b1|] && b2 == s2[..|b2|];
  }

  /** The character just before the last part `p` of `b + m + p` is the last of `m`. */
  lemma CharBefore(b: string, m: string, p: string)
    ensures m != [] ==> (b + m + p)[|b + m + p| - |p| - 1] == m[|m| - 1]
  {
  }

  /** Counting from the end, the `k`-th character of `b + m + p` lies in `p` when `k < |p|`. */
  lemma CharWithin(b: string, m: string, p: string, k: nat)
    ensures k < |p| ==> (b + m + p)[|b + m + p| - k - 1] == p[|p| - k - 1]
  {
  }

  lemma CancelSuffix(x: string, y: string, t: string)
    requires x + t == y + t
    ensures x == y
  {
    assert x == (x + t)[..|x|] && y == (y + t)[..|y|];
  }

  /**
   * Line 34: an image name determines both its base name and its page: the
   * text after the last "_page" is all digits. So no two pages, of the same
   * PDF or of two PDFs with different base names, are saved under one name.
   */
  lemma ImageNameInjective(b1: string, i: nat, b2: string, j: nat)
    requires ImageName(b1, i) == ImageName(b2, j)
    ensures b1 == b2 && i == j
  {
    var m, t := "_page", "_.jpg";
    var p1, p2 := ZeroPad(NatToString(i), 3), ZeroPad(NatToString(j), 3);
    CancelSuffix(b1 + m + p1, b2 + m + p2, t);
    PaddedDigits(i);
    PaddedDigits(j);
    SplitBeforeDigits(b1, p1, b2, p2, m);
    PaddedInjective(i, j);
  }

  /** The base name of a name ending in ".pdf" is the name without those four characters. */
  lemma PdfBaseName(f: string)
    requires IsPdf(f)
    ensures f == BeforeLastDot(f) + ".pdf"
  {
    var t := ".pdf";
    assert f[|f| - 4..] == t;
    assert f[|f| - 4] == '.' && '.' !in f[|f| - 3..];
  }

  /** Two different names ending in ".pdf" have different base names. */
  lemma PdfBaseNames(f1: string, f2: string)
    requires IsPdf(f1) && IsPdf(f2) && f1 != f2
    ensures BeforeLastDot(f1) != BeforeLastDot(f2)
  {
    PdfBaseName(f1);
    PdfBaseName(f2);
  }

  /** No image overwrites another: pages of the PDFs converted are saved under distinct paths. */
  lemma DistinctPaths(f1: string, i: nat, f2: string, j: nat)
    requires IsPdf(f1) && IsPdf(f2)
    requires ImagePath(f1, i) == ImagePath(f2, j)
    ensures f1 == f2 && i == j
  {
    var prefix := ImagesFolder + "/";
    assert ImageName(BeforeLastDot(f1), i) == ImagePath(f1, i)[|prefix|..];
    assert ImageName(BeforeLastDot(f2), j) == ImagePath(f2, j)[|prefix|..];
    ImageNameInjective(BeforeLastDot(f1), i, BeforeLastDot(f2), j);
    if f1 != f2 {
      PdfBaseNames(f1, f2);
    }
  }

  // ---------------------------------------------------------------------------
  // Lines 46-64: the run over the listing

  /** The images saved for the PDFs, in turn; `pages` gives each PDF's page count or the message it raises. */
  function AllImages(files: seq<string>, pages: string -> Result<nat, string>): seq<string> {
    if files == [] then []
    else
      var last := files[|files| - 1];
      AllImages(files[..|files| - 1], pages) + if pages(last).Ok? then ImagePaths(last, pages(last).value) else []
  }

  /**
   * Lines 46-62, one PDF after another: every PDF of the listing is
   * converted; the images of all of them are saved, and one line per PDF
   * says how it went.
   */
  method ExtractAll(listing: seq<string>, pages: string -> Result<nat, string>) returns (saved: seq<string>, lines: seq<string>)
    ensures saved == AllImages(PdfFiles(listing), pages)
    ensures |lines| == |PdfFiles(listing)|
  {
    var pdfFiles := PdfFiles(listing);
    var totalPdfs := |pdfFiles|;
    saved, lines := [], [];
    var idx := 0;
    while idx < totalPdfs
      invariant 0 <= idx <= totalPdfs && |lines| == idx
      invariant saved == AllImages(pdfFiles[..idx], pages)
    {
      var file := pdfFiles[idx];
      assert pdfFiles[..idx + 1][..idx] == pdfFiles[..idx];
      var result := pages(file);
      if result.Ok? {
        var images, summary := ProcessPdf(file, result.value);
        saved := saved + images;
        lines := lines + ["\U{2705} [" + NatToString(idx + 1) + "/" + NatToString(totalPdfs) + "] " + summary];
      } else {
        lines := lines + ["\U{274c} Error procesando " + file + ": " + result.error];
      }
      idx := idx + 1;
    }
    assert pdfFiles[..idx] == pdfFiles;
  }
}
