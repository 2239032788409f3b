/**
 * What the result list of the home page shows
 * (src/features/home/components/VotacionesList.tsx): the empty state, the
 * heading, which votes are listed, and the counter and the button that
 * appear while some remain hidden. The markup is left out: a rendering is
 * the data it is built from.
 */
module VotacionesList {
  import opened Wrappers
  import VotacionesSearch

  /** Lines 31-33: the result count when filters are active, "Votaciones más recientes" otherwise. */
  datatype Heading = ResultCount(count: nat) | MostRecent

  /**
   * Lines 19-75, as data: the empty-state message alone, or the heading, the
   * "Mostrando {displayLimit} de {total}" counter, the votes listed, and the
   * number of remaining votes the load-more button announces.
   */
  datatype Listing<T> =
    | EmptyState
    | Shown(heading: Heading, counter: Option<(int, nat)>, items: seq<T>, remaining: Option<int>)

  /** `Array.prototype.slice(0, end)`: a prefix; a negative end counts from the back. */
  function SliceTo<T>(s: seq<T>, end: int): (r: seq<T>)
    ensures |r| <= |s| && r == s[..|r|]
    ensures 0 <= end ==> |r| == if end < |s| then end else |s|
    ensures end < 0 ==> |r| == if |s| + end < 0 then 0 else |s| + end
  {
    var k := if end < 0 then (if |s| + end < 0 then 0 else |s| + end) else if end < |s| then end else |s|;
    s[..k]
  }

  /** Lines 18-75: the list for `results`, `displayLimit` and `hasFilters`. */
  function Render<T>(results: seq<T>, displayLimit: int, hasFilters: bool): (r: Listing<T>)
    ensures r.EmptyState? <==> results == []
    ensures r.Shown? ==> (r.heading.ResultCount? <==> hasFilters) && (hasFilters ==> r.heading.count == |results|)
    ensures r.Shown? ==> (r.remaining.Some? <==> |results| > displayLimit) && (r.counter.Some? <==> |results| > displayLimit)
    ensures r.Shown? && r.counter.Some? ==> r.counter.value == (displayLimit, |results|)
    ensures r.Shown? && r.remaining.Some? ==> r.remaining.value > 0 && r.remaining.value == |results| - displayLimit
    ensures r.Shown? ==> |r.items| <= |results| && r.items == results[..|r.items|]
    ensures r.Shown? && displayLimit >= 0 ==> |r.items| == if displayLimit < |results| then displayLimit else |results|
  {
    if |results| == 0 then EmptyState
    else
      var more := |results| > displayLimit;
      Shown(if hasFilters then ResultCount(|results|) else MostRecent,
            if more then Some((displayLimit, |results|)) else None,
            SliceTo(results, displayLimit),
            if more then Some(|results| - displayLimit) else None)
  }

  /** Lines 43, 69: the votes listed and the votes announced as remaining are all the results. */
  lemma ShownPlusRemaining<T>(results: seq<T>, displayLimit: int, hasFilters: bool)
    requires results != [] && displayLimit >= 0
    ensures var r := Render(results, displayLimit, hasFilters);
      (r.remaining.Some? ==> r.items + results[|r.items|..] == results && |r.items| + r.remaining.value == |results|)
      && (r.remaining.None? ==> r.items == results)
  {
    var r := Render(results, displayLimit, hasFilters);
    assert r.items + results[|r.items|..] == results;
  }

  /** One more page keeps the votes already listed, in place, and lists up to `step` more. */
  lemma LoadMoreExtends<T>(results: seq<T>, displayLimit: int, step: nat, hasFilters: bool)
    requires results != [] && displayLimit >= 0
    ensures var before := Render(results, displayLimit, hasFilters).items;
      var after := Render(results, displayLimit + step, hasFilters).items;
      before == after[..|before|] && |after| - |before| == (if |results| - |before| < step then |results| - |before| else step)
  {
  }

  /**
   * Every result is listed after enough pages: with the hook's limit of
   * whole pages of 50, vote `i` is listed from page `i / 50 + 1` on.
   */
  lemma EveryResultReachable<T>(results: seq<T>, i: nat, pages: nat, hasFilters: bool)
    requires i < |results| && pages > i / VotacionesSearch.PageSize
    ensures var r := Render(results, pages * VotacionesSearch.PageSize, hasFilters);
      i < |r.items| && r.items[i] == results[i]
  {
    var d := pages * VotacionesSearch.PageSize;
    assert d >= (i / VotacionesSearch.PageSize + 1) * VotacionesSearch.PageSize;
  }
}
