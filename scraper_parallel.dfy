/**
 * The PDF downloader of the scraper (notebooks/scraping/c_scraper_parallel.py):
 * the required-column check, and for every row a bounded number of GET
 * attempts with a fixed pause between them, writing the file on the first
 * status 200.
 *
 * The network is an oracle from the URL and the attempt number to what that
 * GET does; the pauses are returned instead of slept, and the file written
 * is returned instead of stored.
 */
module ScraperParallel {
  import opened Wrappers
  import opened Text
  import opened Ordering

  /** Line 16. */
  const MaxRetries: nat := 5
  /** Line 17, in seconds. */
  const RetryDelay: nat := 60
  /** Line 21. */
  const DownloadDir := "./data/pdfs"

  /** One `requests.get`: a response with its status code and body, or a `RequestException` whose `str` is `message`. */
  datatype Response = Reply(status: nat, content: string) | Failed(message: string)

  /** The tuple `download_file` returns: `(index, success, error)`. */
  datatype Outcome = Outcome(index: nat, success: bool, error: Option<string>)

  /** The outcome, the GET calls made, the pauses between them, and the file written (path and bytes), if any. */
  datatype Trace = Trace(outcome: Outcome, tries: nat, sleeps: seq<nat>, written: Option<(string, string)>)

  /** A row of the download list: the columns `download_file` reads. */
  datatype Row = Row(fileName: string, cleanLink: string)

  // ---------------------------------------------------------------------------
  // Lines 47-70: download_file

  predicate Ok200(r: Response) { r.Reply? && r.status == 200 }

  /** Lines 60-63: what `last_error` becomes after a failed attempt. */
  function ErrorText(r: Response): string {
    if r.Reply? then "HTTP " + NatToString(r.status) else r.message
  }

  /** Line 70; `last_error` prints as "None" when no attempt was made. */
  function FailureMessage(maxRetries: nat, lastError: Option<string>): string {
    "Fall\U{f3} despu\U{e9}s de " + NatToString(maxRetries) + " intentos. \U{da}ltimo error: " +
      (if lastError.Some? then lastError.value else "None")
  }

  /** `n` pauses of `delay` seconds. */
  function Pauses(delay: nat, n: nat): (r: seq<nat>)
    ensures |r| == n && forall i | 0 <= i < n :: r[i] == delay
  {
    if n == 0 then [] else Pauses(delay, n - 1) + [delay]
  }

  /** The first attempt among `lo` to `hi` whose status is 200, if any. */
  function FirstOk(get: (string, nat) -> Response, url: string, lo: nat, hi: nat): (r: Option<nat>)
    ensures r.Some? ==> lo <= r.value <= hi && Ok200(get(url, r.value))
    ensures r.Some? ==> forall j | lo <= j < r.value :: !Ok200(get(url, j))
    ensures r.None? ==> forall j | lo <= j <= hi :: !Ok200(get(url, j))
    decreases hi + 1 - lo
  {
    if lo > hi then None
    else if Ok200(get(url, lo)) then Some(lo)
    else FirstOk(get, url, lo + 1, hi)
  }

  /**
   * Lines 47-70: the first attempt with status 200 writes its body and
   * succeeds; otherwise all `maxRetries` attempts are made, with a pause
   * after each but the last, and the last attempt's error is reported.
   */
  function Download(index: nat, row: Row, get: (string, nat) -> Response, maxRetries: nat, delay: nat): Trace {
    var first := FirstOk(get, row.cleanLink, 1, maxRetries);
    if first.Some? then
      Trace(Outcome(index, true, None), first.value, Pauses(delay, first.value - 1),
            Some((Join(DownloadDir, row.fileName), get(row.cleanLink, first.value).content)))
    else if maxRetries == 0 then
      Trace(Outcome(index, false, Some(FailureMessage(0, None))), 0, [], None)
    else
      var lastError := ErrorText(get(row.cleanLink, maxRetries));
      Trace(Outcome(index, false, Some(FailureMessage(maxRetries, Some(lastError)))), maxRetries,
            Pauses(delay, maxRetries - 1), None)
  }

  method DownloadFile(index: nat, row: Row, get: (string, nat) -> Response, maxRetries: nat, delay: nat)
    returns (res: Outcome, tries: nat, sleeps: seq<nat>, written: Option<(string, string)>)
    ensures Trace(res, tries, sleeps, written) == Download(index, row, get, maxRetries, delay)
  {
    var filePath := Join(DownloadDir, row.fileName);
    var url := row.cleanLink;
    tries, sleeps, written := 0, [], None;
    var lastError: Option<string> := None;
    var attempt := 1;
    while attempt <= maxRetries
      invariant 1 <= attempt <= maxRetries + 1
      invariant tries == attempt - 1 && written == None
      invariant sleeps == Pauses(delay, if attempt <= maxRetries || attempt == 1 then attempt - 1 else attempt - 2)
      invariant lastError == if attempt == 1 then None else Some(ErrorText(get(url, attempt - 1)))
      invariant FirstOk(get, url, 1, maxRetries) == FirstOk(get, url, attempt, maxRetries)
    {
      tries := tries + 1;
      var response := get(url, attempt);
      if response.Reply? && response.status == 200 {
        written := Some((filePath, response.content));
        return Outcome(index, true, None), tries, sleeps, written;
      } else if response.Reply? {
        lastError := Some("HTTP " + NatToString(response.status));
      } else {
        lastError := Some(response.message);
      }
      if attempt < maxRetries {
        sleeps := sleeps + [delay];
      }
      attempt := attempt + 1;
    }
    return Outcome(index, false, Some(FailureMessage(maxRetries, lastError))), tries, sleeps, written;
  }

  /**
   * Line 53: at most `maxRetries` GETs; every GET but the last got no status
   * 200, and the file is written, with the body of the last GET, exactly on
   * success.
   */
  lemma AttemptsBounded(index: nat, row: Row, get: (string, nat) -> Response, maxRetries: nat, delay: nat)
    ensures var t := Download(index, row, get, maxRetries, delay);
      && t.tries <= maxRetries
      && (forall j | 1 <= j < t.tries :: !Ok200(get(row.cleanLink, j)))
      && (t.outcome.success <==> t.tries >= 1 && Ok200(get(row.cleanLink, t.tries)))
      && (t.outcome.success <==> t.written.Some?)
      && (t.outcome.success ==> t.written == Some((Join(DownloadDir, row.fileName), get(row.cleanLink, t.tries).content)))
      && (t.outcome.success <==> t.outcome.error.None?)
      && t.outcome.index == index
  {
  }

  /** Success exactly when one of the allowed GETs answers with status 200. */
  lemma SuccessIffOk(index: nat, row: Row, get: (string, nat) -> Response, maxRetries: nat, delay: nat)
    ensures Download(index, row, get, maxRetries, delay).outcome.success <==>
      exists k | 1 <= k <= maxRetries :: Ok200(get(row.cleanLink, k))
  {
    if exists k | 1 <= k <= maxRetries :: Ok200(get(row.cleanLink, k)) {
      var k :| 1 <= k <= maxRetries && Ok200(get(row.cleanLink, k));
      assert FirstOk(get, row.cleanLink, 1, maxRetries).Some?;
    }
  }

  /** Lines 66-67: a fixed pause, with no back-off, only between attempts: at most `maxRetries - 1` of them. */
  lemma FixedPauses(index: nat, row: Row, get: (string, nat) -> Response, maxRetries: nat, delay: nat)
    ensures var t := Download(index, row, get, maxRetries, delay);
      && |t.sleeps| == (if t.tries == 0 then 0 else t.tries - 1)
      && |t.sleeps| < maxRetries + (if maxRetries == 0 then 1 else 0)
      && forall i | 0 <= i < |t.sleeps| :: t.sleeps[i] == delay
  {
  }

  /** Lines 60-63, 70: after `maxRetries` failed GETs the message names the count and the last GET's error. */
  lemma LastErrorReported(index: nat, row: Row, get: (string, nat) -> Response, maxRetries: nat, delay: nat)
    requires maxRetries >= 1
    requires forall k | 1 <= k <= maxRetries :: !Ok200(get(row.cleanLink, k))
    ensures var last := get(row.cleanLink, maxRetries);
      Download(index, row, get, maxRetries, delay).outcome.error ==
        Some("Fall\U{f3} despu\U{e9}s de " + NatToString(maxRetries) + " intentos. \U{da}ltimo error: " +
             if last.Reply? then "HTTP " + NatToString(last.status) else last.message)
  {
  }

  /** With the script's constants a file waits at most four minutes between its GETs. */
  lemma DefaultWait(index: nat, row: Row, get: (string, nat) -> Response)
    ensures var s := Download(index, row, get, MaxRetries, RetryDelay).sleeps;
      |s| <= 4 && forall i | 0 <= i < |s| :: s[i] == 60
  {
    FixedPauses(index, row, get, MaxRetries, RetryDelay);
  }

  // ---------------------------------------------------------------------------
  // Lines 26-43, 73-85: the script

  /** `os.path.join(DOWNLOAD_DIR, file_name)`: an absolute name replaces the directory. */
  function Join(dir: string, name: string): string {
    if |name| > 0 && name[0] == '/' then name else dir + "/" + name
  }

  /** How the script ends: `exit(1)` with its message, or every row's trace and the warnings printed. */
  datatype Run = Exit(code: int, message: string) | Completed(traces: seq<Trace>, warnings: seq<string>)

  /**
   * Line 38: the message printing the set `required_cols`. A set of strings
   * iterates in an order fixed by the run's string hashing, so either element
   * may come first; `fileNameFirst` stands for that order.
   */
  function MissingColumnsText(fileNameFirst: bool): string {
    "\U{274c} El archivo debe contener las columnas: "
      + if fileNameFirst then "{'file_name', 'clean_link'}" else "{'clean_link', 'file_name'}"
  }

  /** Either rendering of the line 38 message. */
  predicate MissingColumnsMessage(m: string) {
    m == MissingColumnsText(true) || m == MissingColumnsText(false)
  }

  /** Line 85. */
  function Warning(o: Outcome): string {
    "\U{26a0}\U{fe0f} Error en \U{ed}ndice " + NatToString(o.index) + ": " + (if o.error.Some? then o.error.value else "None")
  }

  /** Lines 80-85: one warning per failed download, in the order of the traces. */
  function Warnings(traces: seq<Trace>): (w: seq<string>)
    ensures |w| <= |traces|
  {
    if traces == [] then []
    else
      var last := traces[|traces| - 1];
      Warnings(traces[..|traces| - 1]) + if last.outcome.success then [] else [Warning(last.outcome)]
  }

  /** The traces of the first `n` rows, each downloaded in turn with the script's constants. */
  function Downloads(rows: seq<Row>, get: (string, nat) -> Response, n: nat): (r: seq<Trace>)
    requires n <= |rows|
    ensures |r| == n
    ensures forall i | 0 <= i < n :: r[i] == Download(i, rows[i], get, MaxRetries, RetryDelay)
  {
    if n == 0 then [] else Downloads(rows, get, n - 1) + [Download(n - 1, rows[n - 1], get, MaxRetries, RetryDelay)]
  }

  /**
   * Lines 35-43, 74-85, run one download after another: with both required
   * columns every row is downloaded, with no skip of files already present.
   */
  method Descargar(columns: seq<string>, rows: seq<Row>, get: (string, nat) -> Response, fileNameFirst: bool)
    returns (run: Run)
    ensures ("file_name" !in columns || "clean_link" !in columns) <==> run.Exit?
    ensures run.Exit? ==> run.code == 1 && MissingColumnsMessage(run.message)
    ensures run.Exit? ==> run.message == MissingColumnsText(fileNameFirst)
    ensures run.Completed? ==> run.traces == Downloads(rows, get, |rows|)
    ensures run.Completed? ==> run.warnings == Warnings(run.traces)
  {
    if "file_name" !in columns || "clean_link" !in columns {
      return Exit(1, MissingColumnsText(fileNameFirst));
    }
    var traces: seq<Trace> := [];
    var warnings: seq<string> := [];
    var i := 0;
    while i < |rows|
      invariant 0 <= i <= |rows|
      invariant traces == Downloads(rows, get, i)
      invariant warnings == Warnings(traces)
    {
      var res, tries, sleeps, written := DownloadFile(i, rows[i], get, MaxRetries, RetryDelay);
      var t := Trace(res, tries, sleeps, written);
      traces := traces + [t];
      if !res.success {
        warnings := warnings + [Warning(res)];
      }
      i := i + 1;
    }
    return Completed(traces, warnings);
  }

  predicate Succeeded(t: Trace) { t.outcome.success }

  /** One warning per failed download. */
  lemma {:induction false} WarningsCount(traces: seq<Trace>)
    ensures |Warnings(traces)| == |traces| - Count(traces, Succeeded)
  {
    if traces != [] {
      WarningsCount(traces[..|traces| - 1]);
      CountSnoc(traces, Succeeded);
    }
  }

  /** Every failed download is warned about. */
  lemma {:induction false} FailuresWarned(traces: seq<Trace>, k: nat)
    requires k < |traces| && !Succeeded(traces[k])
    ensures Warning(traces[k].outcome) in Warnings(traces)
  {
    var init := traces[..|traces| - 1];
    if k < |init| {
      assert traces[k] == init[k];
      FailuresWarned(init, k);
    }
  }
}
