/**
 * The search state of the home page (src/features/home/hooks/useVotacionesSearch.ts):
 * the three filters, the results and how many of them are shown, the flags
 * of a search in progress, and the query string of the page's URL, which
 * mirrors the filters.
 *
 * Each React state variable is a field; each action is a method. A search
 * goes to the worker and comes back later: `StartSearch` is what happens
 * before the `await`, `FinishSearch` what happens after it, with the
 * worker's reply (the results, or the message of the error the promise
 * rejects with).
 */
module VotacionesSearch {
  import opened Wrappers

  /** src/workers/useSearchWorker.ts:3-10: a vote as the page receives it; the nullable fields are options. */
  datatype VotacionItem = VotacionItem(id: string, tipo: Option<string>, fechaHora: Option<string>,
                                       asunto: Option<string>, pagina: string, url: string)

  /** src/workers/useSearchWorker.ts:12-16: a request to the worker; a field left `undefined` is `None`. */
  datatype SearchRequest = SearchRequest(asunto: Option<string>, fechaDesde: Option<string>, fechaHasta: Option<string>)

  /** A key of the query string: the three the page writes, or any other. */
  datatype Key = Asunto | FechaDesde | FechaHasta | Other(name: string)

  /** The query string, as `URLSearchParams` holds it: its pairs in order. */
  type Params = seq<(Key, string)>

  /** Lines 23, 91, 106, 112. */
  const PageSize: int := 50

  /** Lines 87-88: `value || undefined`, the empty string sent as absent. */
  function OrUndefined(s: string): (r: Option<string>)
    ensures r.None? <==> s == ""
    ensures r.Some? ==> r.value == s
  {
    if s == "" then None else Some(s)
  }

  /** Lines 10-12: `searchParams.get(key) || ''`, the first value under `key`, or the empty string. */
  function Get(params: Params, key: Key): (r: string)
    ensures r != "" ==> (key, r) in params
  {
    if params == [] then ""
    else if params[0].0 == key then params[0].1
    else Get(params[1..], key)
  }

  /** `searchParams.has(key)`. */
  predicate HasKey(params: Params, key: Key) {
    params != [] && (params[0].0 == key || HasKey(params[1..], key))
  }

  /** Reading a key of two query strings put together: the first one that has it answers. */
  lemma {:induction false} GetAppend(a: Params, b: Params, key: Key)
    ensures Get(a + b, key) == if HasKey(a, key) then Get(a, key) else Get(b, key)
    ensures HasKey(a + b, key) <==> HasKey(a, key) || HasKey(b, key)
  {
    if a == [] {
      assert a + b == b;
    } else {
      assert (a + b)[0] == a[0] && (a + b)[1..] == a[1..] + b;
      GetAppend(a[1..], b, key);
    }
  }

  /** Lines 31-33: the pair for one filter, when it is not empty. */
  function Pair(key: Key, value: string): (r: Params)
    ensures forall k :: HasKey(r, k) <==> k == key && value != ""
    ensures forall k :: Get(r, k) == if k == key then value else ""
  {
    if value != "" then [(key, value)] else []
  }

  /** Lines 29-33: one pair per filter that is not empty, in this order. */
  function UrlParams(asunto: string, fechaDesde: string, fechaHasta: string): (r: Params)
    ensures HasKey(r, Asunto) <==> asunto != ""
    ensures HasKey(r, FechaDesde) <==> fechaDesde != ""
    ensures HasKey(r, FechaHasta) <==> fechaHasta != ""
    ensures forall k: Key | k.Other? :: !HasKey(r, k)
  {
    var a, d, h := Pair(Asunto, asunto), Pair(FechaDesde, fechaDesde), Pair(FechaHasta, fechaHasta);
    forall k ensures HasKey(a + d + h, k) <==> HasKey(a, k) || HasKey(d, k) || HasKey(h, k) {
      GetAppend(a, d, k);
      GetAppend(a + d, h, k);
    }
    a + d + h
  }

  /** The URL written by lines 28-36 reads back, by lines 10-12, as the filters it was written from. */
  lemma UrlRoundTrip(asunto: string, fechaDesde: string, fechaHasta: string)
    ensures var params := UrlParams(asunto, fechaDesde, fechaHasta);
      Get(params, Asunto) == asunto && Get(params, FechaDesde) == fechaDesde && Get(params, FechaHasta) == fechaHasta
  {
    var a, d, h := Pair(Asunto, asunto), Pair(FechaDesde, fechaDesde), Pair(FechaHasta, fechaHasta);
    forall k ensures Get(a + d + h, k) == if HasKey(a, k) then Get(a, k) else if HasKey(d, k) then Get(d, k) else Get(h, k) {
      GetAppend(a, d, k);
      GetAppend(a + d, h, k);
    }
  }

  /** Lines 47-55: the request of the initial load, from the filters read off the URL. */
  function InitialRequest(asunto: string, fechaDesde: string, fechaHasta: string): (r: SearchRequest)
    ensures (asunto == "" && fechaDesde == "" && fechaHasta == "") <==> r == SearchRequest(None, None, None)
    ensures r.asunto.Some? ==> r == SearchRequest(Some(asunto), OrUndefined(fechaDesde), OrUndefined(fechaHasta))
  {
    if asunto != "" || fechaDesde != "" || fechaHasta != "" then
      SearchRequest(Some(asunto), OrUndefined(fechaDesde), OrUndefined(fechaHasta))
    else SearchRequest(None, None, None)
  }

  /** Lines 58-60: the newest date, when the first result has a non-empty one. */
  function LatestDate(results: seq<VotacionItem>, current: string): (r: string)
    ensures r != current ==> results != [] && results[0].fechaHora == Some(r) && r != ""
  {
    if results != [] && results[0].fechaHora.Some? && results[0].fechaHora.value != "" then results[0].fechaHora.value
    else current
  }

  /** Every state variable of the hook, together. */
  datatype View = View(asunto: string, fechaDesde: string, fechaHasta: string, results: seq<VotacionItem>,
                       isSearching: bool, hasSearched: bool, displayLimit: int, latestDate: string,
                       isInitialized: bool, urlParams: Params)

  /** Lines 5-143: the hook's state, and the URL query string it keeps in step. */
  class SearchState {
    var asunto: string
    var fechaDesde: string
    var fechaHasta: string
    var results: seq<VotacionItem>
    var isSearching: bool
    var hasSearched: bool
    var displayLimit: int
    var latestDate: string
    var isInitialized: bool
    var urlParams: Params

    function Snapshot(): View
      reads this
    {
      View(asunto, fechaDesde, fechaHasta, results, isSearching, hasSearched, displayLimit, latestDate,
           isInitialized, urlParams)
    }

    /** What every action keeps: a whole number of pages is shown, and the URL mirrors the filters. */
    predicate Valid()
      reads this
    {
      && displayLimit >= PageSize && displayLimit % PageSize == 0
      && urlParams == UrlParams(asunto, fechaDesde, fechaHasta)
    }

    /** Lines 7-25, then the URL effect of lines 28-36 on mount: the filters start as the URL gives them. */
    constructor(url: Params)
      ensures Valid()
      ensures asunto == Get(url, Asunto) && fechaDesde == Get(url, FechaDesde) && fechaHasta == Get(url, FechaHasta)
      ensures results == [] && !isSearching && !hasSearched && displayLimit == PageSize
      ensures latestDate == "" && !isInitialized
    {
      asunto := Get(url, Asunto);
      fechaDesde := Get(url, FechaDesde);
      fechaHasta := Get(url, FechaHasta);
      results := [];
      isSearching := false;
      hasSearched := false;
      displayLimit := PageSize;
      latestDate := "";
      isInitialized := false;
      new;
      SyncUrl();
    }

    /** Lines 28-36: the URL is rewritten from the filters. */
    method SyncUrl()
      modifies this
      ensures Snapshot() == old(Snapshot()).(urlParams := UrlParams(asunto, fechaDesde, fechaHasta))
    {
      var params := [];
      if asunto != "" { params := params + [(Asunto, asunto)]; }
      if fechaDesde != "" { params := params + [(FechaDesde, fechaDesde)]; }
      if fechaHasta != "" { params := params + [(FechaHasta, fechaHasta)]; }
      urlParams := params;
    }

    /** Line 134, then the URL effect. */
    method SetAsunto(value: string)
      requires Valid()
      modifies this
      ensures Valid()
      ensures Snapshot() == old(Snapshot()).(asunto := value, urlParams := urlParams)
    {
      asunto := value;
      SyncUrl();
    }

    /** Line 135, then the URL effect. */
    method SetFechaDesde(value: string)
      requires Valid()
      modifies this
      ensures Valid()
      ensures Snapshot() == old(Snapshot()).(fechaDesde := value, urlParams := urlParams)
    {
      fechaDesde := value;
      SyncUrl();
    }

    /** Line 136, then the URL effect. */
    method SetFechaHasta(value: string)
      requires Valid()
      modifies this
      ensures Valid()
      ensures Snapshot() == old(Snapshot()).(fechaHasta := value, urlParams := urlParams)
    {
      fechaHasta := value;
      SyncUrl();
    }

    /** Lines 81-89: the search is marked in progress, and the request built from the filters. */
    method StartSearch() returns (request: SearchRequest)
      requires Valid()
      modifies this
      ensures Valid()
      ensures request == SearchRequest(Some(asunto), OrUndefined(fechaDesde), OrUndefined(fechaHasta))
      ensures Snapshot() == old(Snapshot()).(isSearching := true, hasSearched := true)
    {
      isSearching := true;
      hasSearched := true;
      request := SearchRequest(Some(asunto), OrUndefined(fechaDesde), OrUndefined(fechaHasta));
    }

    /**
     * Lines 90-96: results arrive and the first page is shown again; an
     * error leaves both as they were. Either way the search is over.
     */
    method FinishSearch(reply: Result<seq<VotacionItem>, string>)
      requires Valid()
      modifies this
      ensures Valid()
      ensures reply.Ok? ==> Snapshot() == old(Snapshot()).(results := reply.value, displayLimit := PageSize, isSearching := false)
      ensures reply.Err? ==> Snapshot() == old(Snapshot()).(isSearching := false)
    {
      if reply.Ok? {
        results := reply.value;
        displayLimit := PageSize;
      }
      isSearching := false;
    }

    /** Lines 80-97: `StartSearch`, the worker's reply, `FinishSearch`. */
    method HandleSearch(reply: Result<seq<VotacionItem>, string>) returns (request: SearchRequest)
      requires Valid()
      modifies this
      ensures Valid()
      ensures request == SearchRequest(Some(asunto), OrUndefined(fechaDesde), OrUndefined(fechaHasta))
      ensures reply.Ok? ==> Snapshot() == old(Snapshot()).(results := reply.value, displayLimit := PageSize,
                                                        isSearching := false, hasSearched := true)
      ensures reply.Err? ==> Snapshot() == old(Snapshot()).(isSearching := false, hasSearched := true)
    {
      request := StartSearch();
      FinishSearch(reply);
    }

    /** Lines 100-108: the filters, the results and the URL are emptied, and the first page limit restored. */
    method ClearFilters()
      requires Valid()
      modifies this
      ensures Valid()
      ensures Snapshot() == old(Snapshot()).(asunto := "", fechaDesde := "", fechaHasta := "", results := [],
                                            hasSearched := false, displayLimit := PageSize, urlParams := [])
    {
      asunto := "";
      fechaDesde := "";
      fechaHasta := "";
      results := [];
      hasSearched := false;
      displayLimit := PageSize;
      urlParams := [];
    }

    /** Lines 111-113: one more page. */
    method LoadMore()
      requires Valid()
      modifies this
      ensures Valid()
      ensures Snapshot() == old(Snapshot()).(displayLimit := old(displayLimit) + PageSize)
    {
      displayLimit := displayLimit + PageSize;
    }

    /**
     * Lines 39-77: once the worker has loaded, and only if no search has
     * happened and this has not run before, the filters in the URL are
     * searched. It runs at most once: it sets `isInitialized`, which nothing
     * clears, not even `ClearFilters`.
     */
    method InitialLoad(isLoading: bool, reply: Result<seq<VotacionItem>, string>) returns (request: Option<SearchRequest>)
      requires Valid()
      modifies this
      ensures Valid()
      ensures (isLoading || old(hasSearched) || old(isInitialized)) ==> request.None? && unchanged(this)
      ensures !(isLoading || old(hasSearched) || old(isInitialized)) ==>
        && request == Some(InitialRequest(asunto, fechaDesde, fechaHasta))
        && (reply.Ok? ==> Snapshot() == old(Snapshot()).(results := reply.value, latestDate := LatestDate(reply.value, old(latestDate)),
                                                         hasSearched := true, isInitialized := true, isSearching := false))
        && (reply.Err? ==> Snapshot() == old(Snapshot()).(hasSearched := true, isInitialized := true, isSearching := false))
    {
      if isLoading || hasSearched || isInitialized {
        return None;
      }
      var sent := BeginInitialLoad();
      CompleteInitialLoad(reply);
      request := Some(sent);
    }

    /** Lines 42-56: the flags are set, and the request built from the filters the URL holds. */
    method BeginInitialLoad() returns (request: SearchRequest)
      requires Valid()
      modifies this
      ensures Valid()
      ensures request == InitialRequest(asunto, fechaDesde, fechaHasta)
      ensures Snapshot() == old(Snapshot()).(isSearching := true, hasSearched := true, isInitialized := true)
    {
      isSearching := true;
      hasSearched := true;
      isInitialized := true;
      var initialAsunto := Get(urlParams, Asunto);
      var initialFechaDesde := Get(urlParams, FechaDesde);
      var initialFechaHasta := Get(urlParams, FechaHasta);
      UrlRoundTrip(asunto, fechaDesde, fechaHasta);
      var hasUrlFilters := initialAsunto != "" || initialFechaDesde != "" || initialFechaHasta != "";
      request := if hasUrlFilters
        then SearchRequest(Some(initialAsunto), OrUndefined(initialFechaDesde), OrUndefined(initialFechaHasta))
        else SearchRequest(None, None, None);
    }

    /** Lines 57-65: the results and the newest date are taken; an error leaves them. The search is over. */
    method CompleteInitialLoad(reply: Result<seq<VotacionItem>, string>)
      requires Valid()
      modifies this
      ensures Valid()
      ensures reply.Ok? ==> Snapshot() == old(Snapshot()).(results := reply.value, latestDate := LatestDate(reply.value, old(latestDate)),
                                                          isSearching := false)
      ensures reply.Err? ==> Snapshot() == old(Snapshot()).(isSearching := false)
    {
      if reply.Ok? {
        var searchResults := reply.value;
        results := searchResults;
        if |searchResults| > 0 && searchResults[0].fechaHora.Some? && searchResults[0].fechaHora.value != "" {
          latestDate := searchResults[0].fechaHora.value;
        }
      }
      isSearching := false;
    }
  }
}
