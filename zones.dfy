/**
 * The header-zone cropper of the scraper (notebooks/scraping/f_zones.py):
 * the downward margin added to a header box, the choice of the detections
 * that are cropped and the names of the crops, and the number of worker
 * processes.
 *
 * The detector is an oracle: each image arrives with its height (or as
 * unreadable) and its detections, each a box in integer pixels and the
 * name of its class.
 */
module Zones {
  import opened Wrappers
  import opened Text
  import opened Ordering
  import opened Paths
  import opened Seqs

  /** Line 11. */
  const InputDir := "./data/classification/votacion"
  /** Line 12. */
  const OutputDir := "./data/zones"
  /** Line 17. */
  const NumWorkers: int := 8

  const HeaderMark := "encabezado"

  /** `(x_min, y_min, x_max, y_max)` in pixels. */
  datatype Box = Box(xMin: int, yMin: int, xMax: int, yMax: int)

  /** One detection of `result.boxes`, with the class name `result.names` gives it. */
  datatype Detection = Detection(box: Box, name: string)

  /** A crop written by line 108: its path and the box cut out. */
  datatype Crop = Crop(path: string, box: Box)

  // ---------------------------------------------------------------------------
  // Lines 24-47: aplicar_margenes_verticales

  /** Lines 37, 40, 90, 93: the class name marks a header zone, ignoring case. */
  predicate IsHeader(name: string) { Contains(Lower(name), HeaderMark) }

  /**
   * Line 42: `int(alto_zona * 0.04)`; `int` truncates toward zero. The
   * double 0.04 lies just above 4/100, so the product truncates as the exact
   * fraction does.
   */
  function Increment(alto: int): int {
    if alto >= 0 then alto * 4 / 100 else -((-alto) * 4 / 100)
  }

  /** Lines 24-47. */
  function AplicarMargenesVerticales(b: Box, name: string, imgHeight: int): (r: Box)
    ensures !IsHeader(name) ==> r == b
    ensures r.xMin == b.xMin && r.yMin == b.yMin && r.xMax == b.xMax
    ensures IsHeader(name) ==> r.yMax == Min(b.yMax + Increment(b.yMax - b.yMin), imgHeight)
  {
    var altoZona := b.yMax - b.yMin;
    if IsHeader(name) then
      var incremento := Increment(altoZona);
      Box(b.xMin, b.yMin, b.xMax, Min(b.yMax + incremento, imgHeight))
    else b
  }

  function Min(a: int, b: int): int { if a <= b then a else b }

  /**
   * Lines 42-43: a header box never reaches below the image; a box inside
   * the image with a non-negative height only grows, by at most 4% of its
   * height.
   */
  lemma MarginBounds(b: Box, name: string, imgHeight: int)
    requires IsHeader(name)
    ensures var r := AplicarMargenesVerticales(b, name, imgHeight);
      && r.yMax <= imgHeight
      && (b.yMax <= imgHeight && b.yMin <= b.yMax ==>
            b.yMax <= r.yMax && 100 * (r.yMax - b.yMax) <= 4 * (b.yMax - b.yMin))
  {
  }

  /** The margin is `floor(4 * h / 100)` for a non-negative height, and mirrors it for a negative one. */
  lemma IncrementBounds(alto: int)
    ensures alto >= 0 ==> 0 <= Increment(alto) && 100 * Increment(alto) <= 4 * alto < 100 * (Increment(alto) + 1)
    ensures Increment(-alto) == -Increment(alto)
  {
  }

  // ---------------------------------------------------------------------------
  // Lines 50-110: procesar_imagen

  /** Line 105: `f"{base_name}{label_lower}{i+1}.jpg"`. */
  function CropName(base: string, name: string, i: nat): string {
    base + Lower(name) + NatToString(i + 1) + ".jpg"
  }

  /** Lines 87-108 for the first `n` detections: each header detection, widened and named by its position. */
  function Crops(base: string, detections: seq<Detection>, imgHeight: int, n: nat): (r: seq<Crop>)
    requires n <= |detections|
    ensures |r| <= n
  {
    if n == 0 then []
    else
      var d := detections[n - 1];
      Crops(base, detections, imgHeight, n - 1) +
        if IsHeader(d.name) then
          [Crop(OutputDir + "/" + CropName(base, d.name, n - 1), AplicarMargenesVerticales(d.box, d.name, imgHeight))]
        else []
  }

  const Unreadable := "[\U{26a0}\U{fe0f}] No se pudo leer la imagen: "
  const Processed := "\U{2705} Procesada: "

  /** Lines 50-110 for one image: `image` is its height, or None when `cv2.imread` fails. */
  method ProcesarImagen(imgFile: string, image: Option<int>, detecciones: seq<Detection>)
    returns (crops: seq<Crop>, message: string)
    ensures image.None? ==> crops == [] && message == Unreadable + InputDir + "/" + imgFile
    ensures image.Some? ==> crops == Crops(SplitExtRoot(imgFile), detecciones, image.value, |detecciones|)
    ensures image.Some? ==> message == Processed + imgFile
  {
    crops := [];
    var imagePath := InputDir + "/" + imgFile;
    if image.None? {
      return crops, Unreadable + imagePath;
    }
    var baseName := SplitExtRoot(imgFile);
    var imgHeight := image.value;
    var i := 0;
    while i < |detecciones|
      invariant 0 <= i <= |detecciones|
      invariant crops == Crops(baseName, detecciones, imgHeight, i)
    {
      var box := detecciones[i].box;
      var name := detecciones[i].name;
      var labelLower := Lower(name);
      if Contains(labelLower, HeaderMark) {
        var ajustada := AplicarMargenesVerticales(box, name, imgHeight);
        var zonaFilename := baseName + labelLower + NatToString(i + 1) + ".jpg";
        var zonaPath := OutputDir + "/" + zonaFilename;
        crops := crops + [Crop(zonaPath, ajustada)];
      }
      i := i + 1;
    }
    return crops, Processed + imgFile;
  }

  /** Lines 92-94: exactly the header detections are cropped, one crop each. */
  lemma {:induction false} OnlyHeadersCropped(base: string, detections: seq<Detection>, imgHeight: int, n: nat)
    requires n <= |detections|
    ensures |Crops(base, detections, imgHeight, n)| == Count(detections[..n], (d: Detection) => IsHeader(d.name))
  {
    if n > 0 {
      OnlyHeadersCropped(base, detections, imgHeight, n - 1);
      assert detections[..n][..n - 1] == detections[..n - 1];
      CountSnoc(detections[..n], (d: Detection) => IsHeader(d.name));
    }
  }

  /** Each crop is a header detection `i`, widened, and saved under the name of its position. */
  lemma {:induction false} CropsFromHeaders(base: string, detections: seq<Detection>, imgHeight: int, n: nat, c: Crop)
    requires n <= |detections| && c in Crops(base, detections, imgHeight, n)
    ensures exists i | 0 <= i < n ::
      && IsHeader(detections[i].name)
      && c == Crop(OutputDir + "/" + CropName(base, detections[i].name, i),
                   AplicarMargenesVerticales(detections[i].box, detections[i].name, imgHeight))
  {
    var d := detections[n - 1];
    var last := Crop(OutputDir + "/" + CropName(base, d.name, n - 1), AplicarMargenesVerticales(d.box, d.name, imgHeight));
    if IsHeader(d.name) && c == last {
      assert IsHeader(detections[n - 1].name);
    } else {
      CropsFromHeaders(base, detections, imgHeight, n - 1, c);
    }
  }

  /** Two detections with the same name get different crop names. */
  lemma CropNamesDistinct(base: string, name: string, i: nat, j: nat)
    requires i != j
    ensures CropName(base, name, i) != CropName(base, name, j)
  {
    var p := base + Lower(name);
    CancelEnds(p, NatToString(i + 1), NatToString(j + 1), ".jpg");
  }

  // ---------------------------------------------------------------------------
  // Lines 125-140: the listing and the workers

  predicate IsImage(f: string) {
    var l := Lower(f);
    EndsWith(l, ".png") || EndsWith(l, ".jpg") || EndsWith(l, ".jpeg")
  }

  /** Line 126: the names ending in ".png", ".jpg" or ".jpeg", in any case. */
  function ImageFiles(listing: seq<string>): (r: seq<string>)
    ensures forall i | 0 <= i < |r| :: IsImage(r[i])
  {
    Filter(listing, IsImage)
  }

  /** Lines 131-135: the pool size, or None (no explicit size) when the setting is not positive. */
  function Workers(numWorkers: int, cpuCount: nat): Option<int> {
    if numWorkers > 0 then
      var maxAvailable := if cpuCount - 2 > 1 then cpuCount - 2 else 1;
      Some(Min(numWorkers, maxAvailable))
    else None
  }

  /** With a positive setting the pool has between 1 and that many workers, and leaves two CPUs free when it can. */
  lemma WorkersBounds(numWorkers: int, cpuCount: nat)
    ensures Workers(numWorkers, cpuCount).Some? <==> numWorkers > 0
    ensures numWorkers > 0 ==> var w := Workers(numWorkers, cpuCount).value;
      && 1 <= w <= numWorkers
      && (cpuCount >= 3 ==> w <= cpuCount - 2)
      && (w == numWorkers || w == if cpuCount >= 3 then cpuCount - 2 else 1)
  {
  }
}
