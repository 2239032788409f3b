/**
 * The batch OCR driver of the header pipeline (notebooks/encabezados/b_openai_api.py):
 * per-image attempts with exponential back-off, the filter that skips images
 * whose JSON output already exists, and the tally of the results.
 *
 * The OCR call is an oracle from the attempt number to what that attempt
 * does; the pauses are returned instead of slept.
 */
module OpenaiApi {
  import opened Wrappers
  import opened Text
  import opened Ordering
  import opened Seqs
  import Listar

  /** Line 9. */
  const MaxRetries: nat := 3
  /** Line 10, in seconds. */
  const RetryDelayBase: nat := 5

  const MissingImage := "Archivo no existe"
  const Exhausted := "N\U{fa}mero m\U{e1}ximo de reintentos alcanzado"

  /** One call of `process_image_ocr`: it returns, or raises an exception whose `str` is `message`. */
  datatype Attempt = Saved | Raised(message: string)

  /** The tuple `procesar_imagen` returns: `(success, file_name, error_msg)`. */
  datatype Outcome = Outcome(success: bool, fileName: string, errorMsg: Option<string>)

  /** The outcome, how many OCR calls were made, and the pauses between them. */
  datatype Trace = Trace(outcome: Outcome, tries: nat, sleeps: seq<nat>)

  // ---------------------------------------------------------------------------
  // Lines 30-85: procesar_imagen

  function Pow2(k: nat): (r: nat)
    ensures r >= 1
  {
    if k == 0 then 1 else 2 * Pow2(k - 1)
  }

  /** Line 74: the pause after failed attempt `intento`, counted from 1. */
  function Delay(base: nat, intento: nat): nat
    requires intento >= 1
  {
    base * Pow2(intento - 1)
  }

  /** The pauses after failed attempts 1 to `n`, in order. */
  function Delays(base: nat, n: nat): (r: seq<nat>)
    ensures |r| == n
    ensures forall i | 0 <= i < n :: r[i] == Delay(base, i + 1)
  {
    if n == 0 then [] else Delays(base, n - 1) + [Delay(base, n)]
  }

  function Sum(s: seq<nat>): nat {
    if s == [] then 0 else Sum(s[..|s| - 1]) + s[|s| - 1]
  }

  /** The first attempt among `lo` to `hi` that returns, if any. */
  function FirstSaved(ocr: nat -> Attempt, lo: nat, hi: nat): (r: Option<nat>)
    ensures r.Some? ==> lo <= r.value <= hi && ocr(r.value).Saved?
    ensures r.Some? ==> forall j | lo <= j < r.value :: ocr(j).Raised?
    ensures r.None? ==> forall j | lo <= j <= hi :: ocr(j).Raised?
    decreases hi + 1 - lo
  {
    if lo > hi then None
    else if ocr(lo).Saved? then Some(lo)
    else FirstSaved(ocr, lo + 1, hi)
  }

  /**
   * Lines 30-85: a missing image is skipped without any call; otherwise the
   * first attempt that returns succeeds, and when all `maxRetries` attempts
   * raise, the last message is reported. Only with no attempts at all is
   * line 85 reached.
   */
  function Procesar(fileName: string, imageExists: bool, ocr: nat -> Attempt, maxRetries: nat, base: nat): Trace {
    if !imageExists then Trace(Outcome(false, fileName, Some(MissingImage)), 0, [])
    else
      var first := FirstSaved(ocr, 1, maxRetries);
      if first.Some? then Trace(Outcome(true, fileName, None), first.value, Delays(base, first.value - 1))
      else if maxRetries == 0 then Trace(Outcome(false, fileName, Some(Exhausted)), 0, [])
      else Trace(Outcome(false, fileName, Some(ocr(maxRetries).message)), maxRetries, Delays(base, maxRetries - 1))
  }

  method ProcesarImagen(fileName: string, imageExists: bool, ocr: nat -> Attempt, maxRetries: nat, delayBase: nat)
    returns (res: Outcome, tries: nat, sleeps: seq<nat>)
    ensures Trace(res, tries, sleeps) == Procesar(fileName, imageExists, ocr, maxRetries, delayBase)
  {
    tries, sleeps := 0, [];
    if !imageExists {
      return Outcome(false, fileName, Some(MissingImage)), tries, sleeps;
    }
    var intento := 1;
    while intento <= maxRetries
      invariant 1 <= intento <= maxRetries + 1
      invariant maxRetries == 0 || intento <= maxRetries
      invariant tries == intento - 1
      invariant sleeps == Delays(delayBase, intento - 1)
      invariant FirstSaved(ocr, 1, maxRetries) == FirstSaved(ocr, intento, maxRetries)
    {
      tries := tries + 1;
      var attempt := ocr(intento);
      if attempt.Saved? {
        return Outcome(true, fileName, None), tries, sleeps;
      }
      var errorMsg := attempt.message;
      if intento < maxRetries {
        sleeps := sleeps + [Delay(delayBase, intento)];
      } else {
        return Outcome(false, fileName, Some(errorMsg)), tries, sleeps;
      }
      intento := intento + 1;
    }
    return Outcome(false, fileName, Some(Exhausted)), tries, sleeps;
  }

  /** Success exactly when the image exists and one of the allowed attempts returns. */
  lemma SuccessIffSaved(fileName: string, imageExists: bool, ocr: nat -> Attempt, maxRetries: nat, base: nat)
    ensures Procesar(fileName, imageExists, ocr, maxRetries, base).outcome.success <==>
      imageExists && exists k | 1 <= k <= maxRetries :: ocr(k).Saved?
  {
    if imageExists && exists k | 1 <= k <= maxRetries :: ocr(k).Saved? {
      var k :| 1 <= k <= maxRetries && ocr(k).Saved?;
      assert FirstSaved(ocr, 1, maxRetries).Some?;
    }
  }

  /**
   * At most `maxRetries` calls; every call but the last raised, and the last
   * returned exactly on success. A success carries no message.
   */
  lemma AttemptsBounded(fileName: string, imageExists: bool, ocr: nat -> Attempt, maxRetries: nat, base: nat)
    ensures var t := Procesar(fileName, imageExists, ocr, maxRetries, base);
      && t.tries <= maxRetries
      && (!imageExists ==> t.tries == 0)
      && (forall j | 1 <= j < t.tries :: ocr(j).Raised?)
      && (t.outcome.success <==> t.tries >= 1 && ocr(t.tries).Saved?)
      && (t.outcome.success <==> t.outcome.errorMsg.None?)
      && t.outcome.fileName == fileName
  {
  }

  /** Lines 79-85: with at least one attempt allowed, a failure reports the last exception's message. */
  lemma LastMessageReported(fileName: string, ocr: nat -> Attempt, maxRetries: nat, base: nat)
    requires maxRetries >= 1
    requires forall k | 1 <= k <= maxRetries :: ocr(k).Raised?
    ensures Procesar(fileName, true, ocr, maxRetries, base).outcome ==
      Outcome(false, fileName, Some(ocr(maxRetries).message))
  {
  }

  /** Lines 73-78: a pause follows each failed attempt but the last; none follows the final one. */
  lemma SleepsBetweenAttempts(fileName: string, imageExists: bool, ocr: nat -> Attempt, maxRetries: nat, base: nat)
    ensures var t := Procesar(fileName, imageExists, ocr, maxRetries, base);
      && |t.sleeps| == (if t.tries == 0 then 0 else t.tries - 1)
      && forall i | 0 <= i < |t.sleeps| :: t.sleeps[i] == base * Pow2(i)
  {
  }

  /** The pauses of `n` failed attempts add up to `base * (2^n - 1)`. */
  lemma {:induction false} TotalDelay(base: nat, n: nat)
    ensures Sum(Delays(base, n)) + base == base * Pow2(n)
  {
    if n > 0 {
      var d := Delays(base, n);
      assert d[..|d| - 1] == Delays(base, n - 1);
      TotalDelay(base, n - 1);
      assert base * Pow2(n) == 2 * (base * Pow2(n - 1));
    }
  }

  /** With the script's constants the pauses are 5 s then 10 s at most: the third attempt is the last. */
  lemma DefaultSleeps(fileName: string, imageExists: bool, ocr: nat -> Attempt)
    ensures var s := Procesar(fileName, imageExists, ocr, MaxRetries, RetryDelayBase).sleeps;
      s == [] || s == [5] || s == [5, 10]
  {
    var t := Procesar(fileName, imageExists, ocr, MaxRetries, RetryDelayBase);
    assert Pow2(1) == 2;
    assert t.sleeps == Delays(5, |t.sleeps|);
    assert Delays(5, 1) == [5];
    assert Delays(5, 2) == Delays(5, 1) + [10];
  }

  // ---------------------------------------------------------------------------
  // Lines 94-134: the skip filter and the task list

  /** Lines 95-99: the names in the output directory that end in ".json". */
  function Processed(outputExists: bool, listing: seq<string>): set<string> {
    if outputExists then set a | a in listing && EndsWith(a, ".json") else {}
  }

  method ArchivosProcesados(outputExists: bool, listing: seq<string>) returns (procesados: set<string>)
    ensures procesados == Processed(outputExists, listing)
  {
    procesados := {};
    if outputExists {
      var i := 0;
      while i < |listing|
        invariant 0 <= i <= |listing|
        invariant procesados == set a | a in listing[..i] && EndsWith(a, ".json")
      {
        var archivo := listing[i];
        assert listing[..i + 1] == listing[..i] + [archivo];
        if EndsWith(archivo, ".json") {
          procesados := procesados + {archivo};
        }
        i := i + 1;
      }
      assert listing[..i] == listing;
    }
  }

  predicate NotProcessed(procesados: set<string>, r: Listar.Row) { r.jsonName !in procesados }

  /** Line 108: the CSV rows whose `json_name` is not among the processed files, in CSV order. */
  function Pending(rows: seq<Listar.Row>, procesados: set<string>): seq<Listar.Row> {
    Filter(rows, r => NotProcessed(procesados, r))
  }

  /** A row is pending exactly when it is in the CSV and its JSON file is not there yet. */
  lemma PendingRows(rows: seq<Listar.Row>, procesados: set<string>, r: Listar.Row)
    ensures r in Pending(rows, procesados) <==> r in rows && r.jsonName !in procesados
  {
    var p := (r: Listar.Row) => NotProcessed(procesados, r);
    if r in Pending(rows, procesados) {
      FilterIn(rows, p, r);
    }
    if r in rows && r.jsonName !in procesados {
      FilterKeeps(rows, p, r);
    }
  }

  /** The filter keeps the CSV order: it works on each part of the CSV separately. */
  lemma PendingInOrder(rows1: seq<Listar.Row>, rows2: seq<Listar.Row>, procesados: set<string>)
    ensures Pending(rows1 + rows2, procesados) == Pending(rows1, procesados) + Pending(rows2, procesados)
  {
    FilterAppend(rows1, rows2, r => NotProcessed(procesados, r));
  }

  /** Line 134: the row, its position counted from 1 and the number of pending rows. */
  datatype Task = Task(row: Listar.Row, idx: nat, total: nat)

  /** Lines 127-134. */
  method PrepararTareas(pending: seq<Listar.Row>) returns (tareas: seq<Task>)
    ensures |tareas| == |pending|
    ensures forall i | 0 <= i < |tareas| :: tareas[i] == Task(pending[i], i + 1, |pending|)
  {
    tareas := [];
    var idx := 1;
    while idx <= |pending|
      invariant 1 <= idx <= |pending| + 1
      invariant |tareas| == idx - 1
      invariant forall i | 0 <= i < |tareas| :: tareas[i] == Task(pending[i], i + 1, |pending|)
    {
      tareas := tareas + [Task(pending[idx - 1], idx, |pending|)];
      idx := idx + 1;
    }
  }

  // ---------------------------------------------------------------------------
  // Lines 149-160: the tally

  /** What `future.result()` gives: the returned tuple, or an exception the worker let escape. */
  datatype Completion = Returned(outcome: Outcome) | Crashed(message: string)

  predicate Succeeded(c: Completion) { c.Returned? && c.outcome.success }

  /** Line 156: a failure whose message is truthy (neither `None` nor empty) is listed. */
  predicate Reported(c: Completion) {
    && c.Returned? && !c.outcome.success
    && c.outcome.errorMsg.Some? && c.outcome.errorMsg.value != ""
  }

  /** What one completion adds to `errores` (lines 153-156). */
  function ErrorOf(c: Completion): seq<(string, string)> {
    if Reported(c) then [(c.outcome.fileName, c.outcome.errorMsg.value)] else []
  }

  /** The `(file_name, error_msg)` pairs of the listed failures, in completion order. */
  function Errors(results: seq<Completion>): seq<(string, string)> {
    if results == [] then []
    else Errors(results[..|results| - 1]) + ErrorOf(results[|results| - 1])
  }

  method Tally(results: seq<Completion>) returns (exitosos: nat, fallidos: nat, errores: seq<(string, string)>)
    ensures exitosos == Count(results, Succeeded)
    ensures exitosos + fallidos == |results|
    ensures errores == Errors(results)
  {
    exitosos, fallidos, errores := 0, 0, [];
    var i := 0;
    while i < |results|
      invariant 0 <= i <= |results|
      invariant exitosos == Count(results[..i], Succeeded)
      invariant exitosos + fallidos == i
      invariant errores == Errors(results[..i])
    {
      var c := results[i];
      assert results[..i + 1][..i] == results[..i] && results[..i + 1][i] == c;
      CountSnoc(results[..i + 1], Succeeded);
      if c.Returned? {
        if c.outcome.success {
          exitosos := exitosos + 1;
        } else {
          fallidos := fallidos + 1;
          if c.outcome.errorMsg.Some? && c.outcome.errorMsg.value != "" {
            errores := errores + [(c.outcome.fileName, c.outcome.errorMsg.value)];
          }
        }
      } else {
        fallidos := fallidos + 1;
      }
      i := i + 1;
    }
    assert results[..i] == results;
  }

  /** Only failures are listed, so there are never more listed errors than failures. */
  lemma {:induction false} ErrorsAreFailures(results: seq<Completion>)
    ensures |Errors(results)| <= |results| - Count(results, Succeeded)
  {
    if results != [] {
      ErrorsAreFailures(results[..|results| - 1]);
      CountSnoc(results, Succeeded);
    }
  }

  /** The counts do not depend on the order in which the workers finish. */
  lemma TallyOrderFree(results: seq<Completion>, reordered: seq<Completion>)
    requires multiset(results) == multiset(reordered)
    ensures Count(results, Succeeded) == Count(reordered, Succeeded)
    ensures |results| - Count(results, Succeeded) == |reordered| - Count(reordered, Succeeded)
  {
    CountPermutation(results, reordered, Succeeded);
    assert |results| == |multiset(results)| == |reordered|;
  }

  lemma {:induction false} ErrorsAppend(a: seq<Completion>, b: seq<Completion>)
    ensures Errors(a + b) == Errors(a) + Errors(b)
    decreases |b|
  {
    if b == [] {
      assert a + b == a;
    } else {
      var n := |b| - 1;
      ErrorsAppend(a, b[..n]);
      assert (a + b)[..|a + b| - 1] == a + b[..n] && (a + b)[|a + b| - 1] == b[n];
    }
  }

  lemma ErrorsOne(x: Completion)
    ensures Errors([x]) == ErrorOf(x)
  {
    assert [x][..0] == [];
  }

  lemma ErrorsCons(results: seq<Completion>)
    requires results != []
    ensures Errors(results) == ErrorOf(results[0]) + Errors(results[1..])
  {
    assert results == [results[0]] + results[1..];
    ErrorsAppend([results[0]], results[1..]);
    ErrorsOne(results[0]);
  }

  /** The errors around one position: those before it, its own, and those after it. */
  lemma ErrorsAround(b: seq<Completion>, k: nat)
    requires k < |b|
    ensures Errors(b) == Errors(b[..k]) + ErrorOf(b[k]) + Errors(b[k + 1..])
  {
    var before, x, after := b[..k], b[k], b[k + 1..];
    SplitAround(b, k);
    ErrorsAppend(before + [x], after);
    ErrorsAppend(before, [x]);
    ErrorsOne(x);
  }

  /**
   * Which failures are listed does not depend on the order in which the
   * workers finish; only their order in `errores` (and so which ten the
   * summary shows) does.
   */
  lemma {:induction false} ErrorsOrderFree(results: seq<Completion>, reordered: seq<Completion>)
    requires multiset(results) == multiset(reordered)
    ensures multiset(Errors(results)) == multiset(Errors(reordered))
    decreases |results|
  {
    if results == [] {
      assert |reordered| == |multiset(reordered)| == 0;
    } else {
      assert results[0] in multiset(reordered);
      var k :| 0 <= k < |reordered| && reordered[k] == results[0];
      MultisetWithout(results, reordered, k);
      ErrorsOrderFree(results[1..], reordered[..k] + reordered[k + 1..]);
      ErrorsMoved(results, reordered, k);
    }
  }

  /** The first completion listed first or at position `k` of the others: the same errors. */
  lemma ErrorsMoved(results: seq<Completion>, reordered: seq<Completion>, k: nat)
    requires results != [] && k < |reordered| && reordered[k] == results[0]
    requires multiset(Errors(results[1..])) == multiset(Errors(reordered[..k] + reordered[k + 1..]))
    ensures multiset(Errors(results)) == multiset(Errors(reordered))
  {
    var before, after := reordered[..k], reordered[k + 1..];
    var ex, er, eb, ea := ErrorOf(results[0]), Errors(results[1..]), Errors(before), Errors(after);
    ErrorsCons(results);
    ErrorsAround(reordered, k);
    ErrorsAppend(before, after);
    MovedOne(ex, er, eb, ea);
  }

  /** Putting one piece back in the middle of a permutation gives a permutation. */
  lemma MovedOne<T>(x: seq<T>, rest: seq<T>, before: seq<T>, after: seq<T>)
    requires multiset(rest) == multiset(before + after)
    ensures multiset(x + rest) == multiset(before + x + after)
  {
  }

  // ---------------------------------------------------------------------------
  // Lines 178-185: the error summary

  function ErrorLine(e: (string, string)): string { "  \U{2022} " + e.0 + ": " + e.1 }

  function Min(a: nat, b: nat): nat { if a <= b then a else b }

  /** The lines printed after "ERRORES ENCONTRADOS:": at most ten errors, then how many were not shown. */
  function ErrorSummary(errores: seq<(string, string)>): (lines: seq<string>)
    ensures errores == [] ==> lines == []
    ensures errores != [] ==> |lines| == 3 + Min(|errores|, 10) + (if |errores| > 10 then 1 else 0)
    ensures errores != [] ==> forall i | 0 <= i < Min(|errores|, 10) :: lines[2 + i] == ErrorLine(errores[i])
    ensures |errores| > 10 ==> lines[12] == "  ... y " + NatToString(|errores| - 10) + " errores m\U{e1}s"
  {
    if errores == [] then []
    else
      var shown := errores[..Min(|errores|, 10)];
      var more := if |errores| > 10 then ["  ... y " + NatToString(|errores| - 10) + " errores m\U{e1}s"] else [];
      ["\nERRORES ENCONTRADOS:", Repeat('-', 60)] + ErrorLines(shown) + more + [Repeat('-', 60)]
  }

  function ErrorLines(errores: seq<(string, string)>): (lines: seq<string>)
    ensures |lines| == |errores|
    ensures forall i | 0 <= i < |errores| :: lines[i] == ErrorLine(errores[i])
  {
    if errores == [] then [] else [ErrorLine(errores[0])] + ErrorLines(errores[1..])
  }

  // ---------------------------------------------------------------------------
  // The script

  /** The completion of each task, the OCR of each image path an oracle. */
  function Completions(tareas: seq<Task>, imageExists: string -> bool, ocr: string -> nat -> Attempt): (r: seq<Completion>)
    ensures |r| == |tareas|
  {
    if tareas == [] then []
    else
      var t := tareas[|tareas| - 1].row;
      Completions(tareas[..|tareas| - 1], imageExists, ocr)
        + [Returned(Procesar(t.fileName, imageExists(t.imagePath), ocr(t.imagePath), MaxRetries, RetryDelayBase).outcome)]
  }

  predicate RowSucceeds(imageExists: string -> bool, ocr: string -> nat -> Attempt, r: Listar.Row) {
    Procesar(r.fileName, imageExists(r.imagePath), ocr(r.imagePath), MaxRetries, RetryDelayBase).outcome.success
  }

  /** The successes among the completions are the pending rows whose OCR succeeds. */
  lemma {:induction false} CompletionsCount(tareas: seq<Task>, pending: seq<Listar.Row>,
                                            imageExists: string -> bool, ocr: string -> nat -> Attempt)
    requires |tareas| == |pending| && forall i | 0 <= i < |tareas| :: tareas[i].row == pending[i]
    ensures Count(Completions(tareas, imageExists, ocr), Succeeded) == Count(pending, r => RowSucceeds(imageExists, ocr, r))
  {
    if tareas != [] {
      var n := |tareas| - 1;
      CompletionsCount(tareas[..n], pending[..n], imageExists, ocr);
      var cs := Completions(tareas, imageExists, ocr);
      assert cs[..n] == Completions(tareas[..n], imageExists, ocr);
      CountSnoc(cs, Succeeded);
      CountSnoc(pending, r => RowSucceeds(imageExists, ocr, r));
    }
  }

  /** What a pending row adds to `errores`: its file name and message, when it fails with a message. */
  function RowError(imageExists: string -> bool, ocr: string -> nat -> Attempt, r: Listar.Row): seq<(string, string)> {
    var o := Procesar(r.fileName, imageExists(r.imagePath), ocr(r.imagePath), MaxRetries, RetryDelayBase).outcome;
    if !o.success && o.errorMsg.Some? && o.errorMsg.value != "" then [(r.fileName, o.errorMsg.value)] else []
  }

  /** The errors of the pending rows, row after row. */
  function RowErrors(pending: seq<Listar.Row>, imageExists: string -> bool, ocr: string -> nat -> Attempt): seq<(string, string)> {
    if pending == [] then []
    else RowErrors(pending[..|pending| - 1], imageExists, ocr) + RowError(imageExists, ocr, pending[|pending| - 1])
  }

  /** The listed errors are one per pending row that fails with a non-empty message, in task order. */
  lemma {:induction false} CompletionsErrors(tareas: seq<Task>, pending: seq<Listar.Row>,
                                             imageExists: string -> bool, ocr: string -> nat -> Attempt)
    requires |tareas| == |pending| && forall i | 0 <= i < |tareas| :: tareas[i].row == pending[i]
    ensures Errors(Completions(tareas, imageExists, ocr)) == RowErrors(pending, imageExists, ocr)
  {
    if tareas != [] {
      var n := |tareas| - 1;
      var t := pending[n];
      var c := Returned(Procesar(t.fileName, imageExists(t.imagePath), ocr(t.imagePath), MaxRetries, RetryDelayBase).outcome);
      var init := Completions(tareas[..n], imageExists, ocr);
      assert Completions(tareas, imageExists, ocr) == init + [c];
      CompletionsErrors(tareas[..n], pending[..n], imageExists, ocr);
      ErrorsAppend(init, [c]);
      ErrorsOne(c);
      assert ErrorOf(c) == RowError(imageExists, ocr, t);
      assert pending[..n] == pending[..|pending| - 1];
    }
  }

  /** Lines 144-147: every task is submitted and runs to its completion. */
  method EjecutarTareas(tareas: seq<Task>, imageExists: string -> bool, ocr: string -> nat -> Attempt)
    returns (results: seq<Completion>)
    ensures results == Completions(tareas, imageExists, ocr)
  {
    results := [];
    var i := 0;
    while i < |tareas|
      invariant 0 <= i <= |tareas|
      invariant results == Completions(tareas[..i], imageExists, ocr)
    {
      var row := tareas[i].row;
      var res, _, _ := ProcesarImagen(row.fileName, imageExists(row.imagePath), ocr(row.imagePath), MaxRetries, RetryDelayBase);
      assert tareas[..i + 1][..i] == tareas[..i];
      results := results + [Returned(res)];
      i := i + 1;
    }
    assert tareas[..i] == tareas;
  }

  datatype Summary = Summary(exitosos: nat, fallidos: nat, errores: seq<(string, string)>)

  /** Line 116 divides by the number of CSV rows when some JSON file is already there. */
  datatype RunFailure = ZeroDivisionError

  /**
   * Lines 88-185 with the pool's workers run one after the other: the
   * progress line of 115-117 fails on an empty CSV once some output exists;
   * otherwise every pending row is processed once, and the tally counts one
   * success per pending row whose OCR succeeds.
   */
  method Ejecutar(rows: seq<Listar.Row>, outputExists: bool, listing: seq<string>,
                  imageExists: string -> bool, ocr: string -> nat -> Attempt)
    returns (r: Result<Summary, RunFailure>)
    ensures r.Err? <==> |rows| == 0 && |Processed(outputExists, listing)| > 0
    ensures r.Ok? ==> var pending := Pending(rows, Processed(outputExists, listing));
      && r.value.exitosos + r.value.fallidos == |pending|
      && r.value.exitosos == Count(pending, row => RowSucceeds(imageExists, ocr, row))
      && r.value.errores == RowErrors(pending, imageExists, ocr)
      && |r.value.errores| <= r.value.fallidos
  {
    var procesados := ArchivosProcesados(outputExists, listing);
    if |procesados| > 0 && |rows| == 0 {
      return Err(ZeroDivisionError);
    }
    var pending := Pending(rows, procesados);
    if |pending| == 0 {
      return Ok(Summary(0, 0, []));
    }
    var tareas := PrepararTareas(pending);
    var results := EjecutarTareas(tareas, imageExists, ocr);
    var exitosos, fallidos, errores := Tally(results);
    CompletionsCount(tareas, pending, imageExists, ocr);
    CompletionsErrors(tareas, pending, imageExists, ocr);
    ErrorsAreFailures(results);
    return Ok(Summary(exitosos, fallidos, errores));
  }
}
