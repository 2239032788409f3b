/**
 * The search worker of the web front end (src/workers/searchWorker.ts): the
 * text normalisation, the three filters and the newest-first order of a
 * search, the one-time loading of the votes and the dispatch of the
 * messages the page sends.
 *
 * Dates are integer timestamps in milliseconds, as `new Date(...)` yields
 * them; the local time zone is a fixed offset from UTC. The download of the
 * data is an oracle outcome, and so are Unicode case mapping and canonical
 * decomposition.
 */
module SearchWorker {
  import opened Wrappers
  import opened Text
  import opened Ordering

  /** Lines 1-8: one vote of the loaded JSON, its `fecha_hora` as a timestamp. */
  datatype VotacionItem = VotacionItem(id: string, tipo: string, fechaHora: int, asunto: string, pagina: string, url: string)

  /**
   * Lines 10-14: a search request. A date that is absent or the empty string
   * is `None` (line 68 and 77 test it for truth); a date that is present is
   * the timestamp `new Date` gives it.
   */
  datatype SearchParams = SearchParams(asunto: Option<string>, fechaDesde: Option<int>, fechaHasta: Option<int>)

  // ---------------------------------------------------------------------------
  // Lines 20-28: normalizeText

  /** Line 24: the combining diacritical marks. */
  predicate IsMark(c: char) { '\U{300}' <= c <= '\U{36F}' }

  /** Line 25: what `[^\w\s]` does not remove (`\w` is ASCII without the `u` flag). */
  predicate WordOrSpace(c: char) { IsWordChar(c) || JsSpace(c) }

  /**
   * Lines 20-28. `fold` is `toLowerCase().normalize('NFD')`: Unicode case
   * mapping and canonical decomposition. The marks are then dropped, then
   * everything but word characters and white space, then every run of white
   * space becomes one space and the ends are trimmed.
   */
  function NormalizeText(text: string, fold: string -> string): (r: string)
    ensures Clean(r, JsSpace)
    ensures forall i | 0 <= i < |r| :: IsWordChar(r[i]) || r[i] == ' '
  {
    var stripped := Filter(fold(text), c => !IsMark(c));
    var kept := Filter(stripped, WordOrSpace);
    NormalizedChars(kept);
    Trim(Collapse(kept, JsSpace), JsSpace)
  }

  /** The last two steps of `NormalizeText` leave clean text of word characters and single spaces. */
  lemma NormalizedChars(kept: string)
    requires forall i | 0 <= i < |kept| :: WordOrSpace(kept[i])
    ensures var r := Trim(Collapse(kept, JsSpace), JsSpace);
      Clean(r, JsSpace) && forall i | 0 <= i < |r| :: IsWordChar(r[i]) || r[i] == ' '
  {
    CollapseKeeps(kept, JsSpace, WordOrSpace);
    TrimKeeps(Collapse(kept, JsSpace), JsSpace, WordOrSpace);
    TrimCollapseClean(kept, JsSpace);
  }

  /** Normalised text on which `fold` changes nothing normalises to itself. */
  lemma NormalizeFixpoint(s: string, fold: string -> string)
    requires Clean(s, JsSpace) && fold(s) == s
    requires forall i | 0 <= i < |s| :: IsWordChar(s[i]) || s[i] == ' '
    ensures NormalizeText(s, fold) == s
  {
    FilterAll(s, c => !IsMark(c));
    FilterAll(s, WordOrSpace);
    CleanFixpoint(s, JsSpace);
  }

  /** Normalising twice is normalising once, when `fold` leaves the normalised text alone. */
  lemma NormalizeIdempotent(text: string, fold: string -> string)
    requires fold(NormalizeText(text, fold)) == NormalizeText(text, fold)
    ensures NormalizeText(NormalizeText(text, fold), fold) == NormalizeText(text, fold)
  {
    NormalizeFixpoint(NormalizeText(text, fold), fold);
  }

  // ---------------------------------------------------------------------------
  // Lines 51-93: search

  const DayMs: int := 86_400_000

  /**
   * Line 80, `setHours(23, 59, 59, 999)`: the last millisecond of the local
   * day holding `t`, in a zone `offset` milliseconds east of UTC.
   */
  function EndOfDay(t: int, offset: int): (r: int)
    ensures t <= r < t + DayMs
    ensures (r + offset + 1) % DayMs == 0
  {
    var local := t + offset;
    local - local % DayMs + DayMs - 1 - offset
  }

  /** Line 59: the subject filter applies to a query that is not blank. */
  predicate SubjectFilterOn(p: SearchParams) {
    p.asunto.Some? && Trim(p.asunto.value, JsSpace) != []
  }

  /** Lines 60-63: the normalised subject contains the normalised query. */
  predicate MatchesSubject(query: string, item: VotacionItem, fold: string -> string) {
    Contains(NormalizeText(item.asunto, fold), NormalizeText(query, fold))
  }

  /** Lines 59-85: the item passes every filter the request turns on. */
  predicate Keeps(p: SearchParams, fold: string -> string, offset: int, item: VotacionItem) {
    && (SubjectFilterOn(p) ==> MatchesSubject(p.asunto.value, item, fold))
    && (p.fechaDesde.Some? ==> item.fechaHora >= p.fechaDesde.value)
    && (p.fechaHasta.Some? ==> item.fechaHora <= EndOfDay(p.fechaHasta.value, offset))
  }

  /** Line 89: `b - a` orders the newest first. */
  predicate NewestFirst(a: VotacionItem, b: VotacionItem) { a.fechaHora >= b.fechaHora }

  /** Lines 56-92 on loaded data: the items kept, sorted newest first by a stable sort. */
  function Found(data: seq<VotacionItem>, p: SearchParams, fold: string -> string, offset: int): (r: seq<VotacionItem>)
    ensures |r| <= |data|
    ensures multiset(r) <= multiset(data)
  {
    var keeps := (x: VotacionItem) => Keeps(p, fold, offset, x);
    FilterPartition(data, keeps, x => !keeps(x));
    SortBy(Filter(data, keeps), NewestFirst)
  }

  lemma NewestFirstPreorder()
    ensures TotalPreorder(NewestFirst)
  {
  }

  /** Line 88: the results are newest first. */
  lemma FoundSorted(data: seq<VotacionItem>, p: SearchParams, fold: string -> string, offset: int)
    ensures Sorted(Found(data, p, fold, offset), NewestFirst)
  {
    NewestFirstPreorder();
    SortBySorted(Filter(data, x => Keeps(p, fold, offset, x)), NewestFirst);
  }

  /** Lines 59-85: an item is found exactly when it is loaded and passes the filters. */
  lemma FoundIff(data: seq<VotacionItem>, p: SearchParams, fold: string -> string, offset: int, x: VotacionItem)
    ensures x in Found(data, p, fold, offset) <==> x in data && Keeps(p, fold, offset, x)
  {
    var keeps := (y: VotacionItem) => Keeps(p, fold, offset, y);
    var kept := Filter(data, keeps);
    assert x in Found(data, p, fold, offset) <==> x in multiset(kept);
    if x in kept {
      FilterIn(data, keeps, x);
    }
    if x in data && keeps(x) {
      FilterKeeps(data, keeps, x);
    }
  }

  /** Line 88: `Array.prototype.sort` is stable, so votes of the same date stay in data order. */
  lemma FoundStable(data: seq<VotacionItem>, p: SearchParams, fold: string -> string, offset: int, e: VotacionItem)
    ensures TiedWith(Found(data, p, fold, offset), NewestFirst, e) ==
      TiedWith(Filter(data, x => Keeps(p, fold, offset, x)), NewestFirst, e)
  {
    NewestFirstPreorder();
    SortByStable(Filter(data, x => Keeps(p, fold, offset, x)), NewestFirst, e);
  }

  /** Line 59: a blank query filters nothing; the request behaves as one without a subject. */
  lemma BlankQueryIgnored(data: seq<VotacionItem>, q: string, d: Option<int>, h: Option<int>, fold: string -> string, offset: int)
    requires Trim(q, JsSpace) == []
    ensures Found(data, SearchParams(Some(q), d, h), fold, offset) == Found(data, SearchParams(None, d, h), fold, offset)
  {
    FilterCongruent(data, x => Keeps(SearchParams(Some(q), d, h), fold, offset, x),
                          x => Keeps(SearchParams(None, d, h), fold, offset, x));
  }

  /** A request without filters finds every loaded vote. */
  lemma EmptyRequestFindsAll(data: seq<VotacionItem>, fold: string -> string, offset: int)
    ensures multiset(Found(data, SearchParams(None, None, None), fold, offset)) == multiset(data)
  {
    FilterAll(data, x => Keeps(SearchParams(None, None, None), fold, offset, x));
  }

  /** Lines 77-85: the upper date keeps the whole day, and nothing from the next one. */
  lemma UntilWholeDay(p: SearchParams, fold: string -> string, offset: int, item: VotacionItem)
    requires !SubjectFilterOn(p) && p.fechaDesde.None? && p.fechaHasta.Some?
    ensures var t := p.fechaHasta.value;
      var dayStart := EndOfDay(t, offset) + 1 - DayMs;
      (dayStart <= item.fechaHora < dayStart + DayMs ==> Keeps(p, fold, offset, item))
      && (item.fechaHora >= dayStart + DayMs ==> !Keeps(p, fold, offset, item))
  {
  }

  // ---------------------------------------------------------------------------
  // The dates the page sends: "YYYY-MM-DD", as a count of days since 1970-01-01

  /** `new Date("YYYY-MM-DD")`: a date-only string is read as midnight UTC. */
  function DateOnlyAsWritten(day: int): int { day * DayMs }

  /** Midnight at the start of `day` in the local zone, `offset` milliseconds east of UTC. */
  function LocalMidnight(day: int, offset: int): int { day * DayMs - offset }

  /** The request the page's date filters make, from day numbers, through a given date reading. */
  function DayRequest(desde: Option<int>, hasta: Option<int>, read: int -> int): SearchParams {
    SearchParams(None, if desde.Some? then Some(read(desde.value)) else None,
                 if hasta.Some? then Some(read(hasta.value)) else None)
  }

  /**
   * As written, west of UTC (the site's own zone is UTC-5): the end date is
   * read as UTC midnight, which is the evening before locally, and
   * `setHours(23, 59, 59, 999)` then ends the previous local day. Every vote
   * of the chosen day is dropped.
   */
  lemma {:induction false} ChosenDayDroppedWest(day: int, offset: int, fold: string -> string, item: VotacionItem)
    requires -DayMs < offset < 0
    requires LocalMidnight(day, offset) <= item.fechaHora < LocalMidnight(day + 1, offset)
    ensures !Keeps(DayRequest(None, Some(day), DateOnlyAsWritten), fold, offset, item)
  {
    var t := DateOnlyAsWritten(day);
    var local := t + offset;
    assert (day - 1) * DayMs < local < day * DayMs;
    assert local == (day - 1) * DayMs + (DayMs + offset);
    assert local % DayMs == DayMs + offset;
    assert EndOfDay(t, offset) == LocalMidnight(day, offset) - 1;
  }

  /** As written, west of UTC, the start date also admits the evening of the day before it. */
  lemma {:induction false} EveningBeforeAdmitted(day: int, offset: int, fold: string -> string, item: VotacionItem)
    requires -DayMs < offset < 0
    requires DateOnlyAsWritten(day) <= item.fechaHora < LocalMidnight(day, offset)
    ensures Keeps(DayRequest(Some(day), None, DateOnlyAsWritten), fold, offset, item)
  {
  }

  /** At UTC-5, a vote at 10:00 local time on the chosen day is not found as written. */
  lemma ChosenDayCounterexample(fold: string -> string)
    ensures var offset := -5 * 3_600_000;
      var day := 20_000;
      var item := VotacionItem("", "", LocalMidnight(day, offset) + 10 * 3_600_000, "", "", "");
      && LocalMidnight(day, offset) <= item.fechaHora < LocalMidnight(day + 1, offset)
      && !Keeps(DayRequest(None, Some(day), DateOnlyAsWritten), fold, offset, item)
  {
    var offset := -5 * 3_600_000;
    var day := 20_000;
    var item := VotacionItem("", "", LocalMidnight(day, offset) + 10 * 3_600_000, "", "", "");
    ChosenDayDroppedWest(day, offset, fold, item);
  }

  /**
   * Intended ("Agregar 23:59:59 al día seleccionado"): with the dates read as
   * local midnight, a request from one day to another keeps exactly the votes
   * from the start of the first local day to the end of the last, in any zone.
   */
  lemma {:induction false} DayRangeKept(desde: int, hasta: int, offset: int, fold: string -> string, item: VotacionItem)
    ensures Keeps(DayRequest(Some(desde), Some(hasta), d => LocalMidnight(d, offset)), fold, offset, item)
      <==> LocalMidnight(desde, offset) <= item.fechaHora < LocalMidnight(hasta + 1, offset)
  {
    var t := LocalMidnight(hasta, offset);
    assert t + offset == hasta * DayMs;
    assert (hasta * DayMs) % DayMs == 0;
    assert EndOfDay(t, offset) == LocalMidnight(hasta + 1, offset) - 1;
  }

  // ---------------------------------------------------------------------------
  // Lines 31-48, 96-123: the worker's state, the load and the dispatch

  /** What `fetch` of the data file comes to: a response, or the message of the error it rejects with. */
  datatype Fetch =
    | Response(status: nat, ok: bool, body: Result<seq<VotacionItem>, string>)
    | Rejected(message: string)

  /** The messages the worker posts. */
  datatype Reply =
    | DataLoaded(count: nat)
    | SearchResults(results: seq<VotacionItem>, count: nat)
    | Error(message: string)

  /** The messages the page sends; any other `type` is `Unknown`. */
  datatype Message = Load | Search(params: SearchParams) | Unknown(kind: string)

  /** Lines 35-39: the votes downloaded, or the message of the error thrown on the way. */
  function LoadOutcome(fetch: Fetch): (r: Result<seq<VotacionItem>, string>)
    ensures fetch.Rejected? ==> r == Err(fetch.message)
    ensures fetch.Response? && !fetch.ok ==> r == Err("Error al cargar datos: " + NatToString(fetch.status))
    ensures fetch.Response? && fetch.ok ==> r == fetch.body
  {
    match fetch
    case Rejected(message) => Err(message)
    case Response(status, ok, body) =>
      if !ok then Err("Error al cargar datos: " + NatToString(status)) else body
  }

  /** Lines 41-46: the message `loadData` posts for an outcome. */
  function LoadReply(outcome: Result<seq<VotacionItem>, string>): Reply {
    if outcome.Ok? then DataLoaded(|outcome.value|) else Error(outcome.error)
  }

  const UnknownType := "Tipo de mensaje desconocido: "

  /** Lines 16-17: the module-level `votacionesData` and `dataLoaded`. */
  class Worker {
    var votacionesData: seq<VotacionItem>
    var dataLoaded: bool

    constructor()
      ensures votacionesData == [] && !dataLoaded
    {
      votacionesData := [];
      dataLoaded := false;
    }

    /**
     * Lines 31-48: once loaded, nothing happens; otherwise the data is stored
     * and counted on success, and the error is posted on failure, leaving the
     * worker unloaded.
     */
    method LoadData(fetch: Fetch) returns (posted: seq<Reply>)
      modifies this
      ensures old(dataLoaded) ==> posted == [] && unchanged(this)
      ensures !old(dataLoaded) ==> posted == [LoadReply(LoadOutcome(fetch))]
      ensures !old(dataLoaded) && LoadOutcome(fetch).Ok? ==> dataLoaded && votacionesData == LoadOutcome(fetch).value
      ensures !old(dataLoaded) && LoadOutcome(fetch).Err? ==> unchanged(this)
    {
      if dataLoaded {
        return [];
      }
      var outcome := LoadOutcome(fetch);
      if outcome.Err? {
        return [Error(outcome.error)];
      }
      votacionesData := outcome.value;
      dataLoaded := true;
      posted := [DataLoaded(|votacionesData|)];
    }

    /**
     * Lines 51-93: nothing until the data is loaded; then the filters the
     * request turns on, one after the other, on a copy of the data, and a
     * stable sort newest first. The stored data is left as it is.
     */
    method Search(p: SearchParams, fold: string -> string, offset: int) returns (results: seq<VotacionItem>)
      ensures !dataLoaded ==> results == []
      ensures dataLoaded ==> results == Found(votacionesData, p, fold, offset)
    {
      if !dataLoaded {
        return [];
      }
      results := votacionesData;
      var subject := (x: VotacionItem) => SubjectFilterOn(p) ==> MatchesSubject(p.asunto.value, x, fold);
      var from := (x: VotacionItem) => p.fechaDesde.Some? ==> x.fechaHora >= p.fechaDesde.value;
      var until := (x: VotacionItem) => p.fechaHasta.Some? ==> x.fechaHora <= EndOfDay(p.fechaHasta.value, offset);
      if p.asunto.Some? && Trim(p.asunto.value, JsSpace) != [] {
        var normalizedSearch := NormalizeText(p.asunto.value, fold);
        var matches := (item: VotacionItem) => Contains(NormalizeText(item.asunto, fold), normalizedSearch);
        results := Filter(results, matches);
        FilterCongruent(votacionesData, matches, subject);
      } else {
        FilterAll(votacionesData, subject);
      }
      assert results == Filter(votacionesData, subject);
      var before := results;
      if p.fechaDesde.Some? {
        var fechaDesde := p.fechaDesde.value;
        var onOrAfter := (item: VotacionItem) => item.fechaHora >= fechaDesde;
        results := Filter(results, onOrAfter);
        FilterCongruent(before, onOrAfter, from);
      } else {
        FilterAll(before, from);
      }
      assert results == Filter(before, from);
      before := results;
      if p.fechaHasta.Some? {
        var fechaHasta := EndOfDay(p.fechaHasta.value, offset);
        var onOrBefore := (item: VotacionItem) => item.fechaHora <= fechaHasta;
        results := Filter(results, onOrBefore);
        FilterCongruent(before, onOrBefore, until);
      } else {
        FilterAll(before, until);
      }
      assert results == Filter(before, until);
      ThreeFilters(votacionesData, p, fold, offset, subject, from, until);
      results := SortBy(results, NewestFirst);
    }

    /**
     * Lines 96-123: 'load' loads; 'search' loads first when needed, then
     * posts the results and their count; any other type gets an error reply.
     */
    method Dispatch(msg: Message, fetch: Fetch, fold: string -> string, offset: int) returns (posted: seq<Reply>)
      modifies this
      ensures msg.Unknown? ==> posted == [Error(UnknownType + msg.kind)] && unchanged(this)
      ensures !msg.Unknown? && old(dataLoaded) ==> unchanged(this)
      ensures !msg.Unknown? && !old(dataLoaded) ==>
        (dataLoaded <==> LoadOutcome(fetch).Ok?) &&
        (dataLoaded ==> votacionesData == LoadOutcome(fetch).value) &&
        (!dataLoaded ==> unchanged(this))
      ensures msg.Load? ==> posted == if old(dataLoaded) then [] else [LoadReply(LoadOutcome(fetch))]
      ensures msg.Search? ==>
        var r := if dataLoaded then Found(votacionesData, msg.params, fold, offset) else [];
        posted == (if old(dataLoaded) then [] else [LoadReply(LoadOutcome(fetch))]) + [SearchResults(r, |r|)]
    {
      match msg
      case Load =>
        posted := LoadData(fetch);
      case Search(params) =>
        posted := [];
        if !dataLoaded {
          posted := LoadData(fetch);
        }
        var results := Search(params, fold, offset);
        posted := posted + [SearchResults(results, |results|)];
      case Unknown(kind) =>
        posted := [Error(UnknownType + kind)];
    }
  }

  /** The three filters of lines 59-85, applied in turn, keep what `Keeps` keeps. */
  lemma ThreeFilters(data: seq<VotacionItem>, p: SearchParams, fold: string -> string, offset: int,
                     subject: VotacionItem -> bool, from: VotacionItem -> bool, until: VotacionItem -> bool)
    requires forall x :: subject(x) == (SubjectFilterOn(p) ==> MatchesSubject(p.asunto.value, x, fold))
    requires forall x :: from(x) == (p.fechaDesde.Some? ==> x.fechaHora >= p.fechaDesde.value)
    requires forall x :: until(x) == (p.fechaHasta.Some? ==> x.fechaHora <= EndOfDay(p.fechaHasta.value, offset))
    ensures Filter(Filter(Filter(data, subject), from), until) == Filter(data, x => Keeps(p, fold, offset, x))
  {
    var first := (x: VotacionItem) => subject(x) && from(x);
    FilterFilter(data, subject, from, first);
    FilterFilter(data, first, until, x => Keeps(p, fold, offset, x));
  }
}
