/** The live dashboard component: the selection string, the row table and its
    page cursor, and the actions that connect them. `fetchPage` is asynchronous:
    its synchronous part is `FetchPage`, which returns the pending request (the
    page, the replace flag and the selection list its closure captured), and the
    code after the `await` is `CompleteFetch`, given the request and what the data
    source answered. */
module Dashboard {

  import opened Wrappers
  import opened Lists
  import opened Selection
  import opened Aggregation
  import opened Interactions

  /** A load in flight. */
  datatype Request = Request(page: int, replace: bool, filter: seq<string>)

  /** What the data source answered: a page of items, or the message of the error it threw. */
  datatype FetchOutcome = Fetched(items: seq<Row>) | Failed(message: string)

  /** The simulated server-side filter: with a non-empty selection only the items of
      selected countries are kept, in their order; with none every item is kept. */
  function ServerFilter(items: seq<Row>, filter: seq<string>): (kept: seq<Row>)
    ensures |filter| == 0 ==> kept == items
    ensures |kept| <= |items|
    ensures forall i :: 0 <= i < |kept| ==> kept[i] in items && (|filter| == 0 || kept[i].country in filter)
    ensures forall i :: 0 <= i < |items| && (|filter| == 0 || items[i].country in filter) ==> items[i] in kept
  {
    if |filter| == 0 then items else Filter(items, (r: Row) => r.country in filter)
  }

  /** The rows a filtered load keeps all have countries in the filter that load
      captured, so after a filtered replace-load every chart category is in that
      filter. */
  lemma FilteredCategoriesSelected(items: seq<Row>, filter: seq<string>)
    requires |filter| > 0
    ensures forall c :: c in Categories(ServerFilter(items, filter)) ==> c in filter
  {
    var kept := ServerFilter(items, filter);
    CategoriesExactlyOnce(kept);
  }

  /** JavaScript truthiness of `nextPage`: not null and not 0. */
  predicate HasNextPage(nextPage: Option<int>)
    ensures nextPage.None? ==> !HasNextPage(nextPage)
    ensures nextPage.Some? && nextPage.value >= 1 ==> HasNextPage(nextPage)
  {
    nextPage.Some? && nextPage.value != 0
  }

  /** The loads the `[selected]` effect issues when the persisted string changes from
      `prev` to `next`: none if it is unchanged, otherwise one replace-load of page 1
      filtered by the new selection. */
  function SelectionEffect(prev: string, next: string): (reqs: seq<Request>)
    ensures |reqs| <= 1
    ensures reqs == [] <==> next == prev
    ensures forall j :: 0 <= j < |reqs| ==> reqs[j].page == 1 && reqs[j].replace && reqs[j].filter == Parse(next)
  {
    if next == prev then [] else [Request(1, true, Parse(next))]
  }

  class FinancialDashboard {
    var selected: string
    var data: seq<Row>
    var page: int
    var nextPage: Option<int>
    var loading: bool
    var error: Option<string>

    /** The cursor never reaches the terminal marker: it starts at page 1 and every
        successful load of a page `p >= 1` sets it to `p + 1`. */
    ghost predicate Valid()
      reads this
    {
      page >= 1 && nextPage.Some? && nextPage.value >= 1
    }

    /** The component's initial state, with the selection read from the URL. */
    constructor (persisted: string)
      ensures Valid()
      ensures selected == persisted && data == [] && page == 1 && nextPage == Some(1)
      ensures !loading && error == None
    {
      selected := persisted;
      data := [];
      page := 1;
      nextPage := Some(1);
      loading := false;
      error := None;
    }

    /** The synchronous part of `fetchPage(pageToLoad, replace)`. */
    method FetchPage(pageToLoad: int, replace: bool) returns (req: Request)
      modifies this`loading, this`error
      ensures loading && error == None
      ensures req == Request(pageToLoad, replace, Parse(selected))
    {
      loading := true;
      error := None;
      req := Request(pageToLoad, replace, Parse(selected));
    }

    /** The continuation of `fetchPage` once the data source has answered. */
    method CompleteFetch(req: Request, outcome: FetchOutcome)
      modifies this`data, this`page, this`nextPage, this`loading, this`error
      ensures !loading
      ensures outcome.Fetched? ==>
                && data == (if req.replace then ServerFilter(outcome.items, req.filter)
                            else old(data) + ServerFilter(outcome.items, req.filter))
                && page == req.page && nextPage == Some(req.page + 1) && error == old(error)
      ensures outcome.Failed? ==>
                && error == Some(outcome.message)
                && data == old(data) && page == old(page) && nextPage == old(nextPage)
      ensures old(Valid()) && req.page >= 1 ==> Valid()
    {
      match outcome {
        case Fetched(items) =>
          var filtered := ServerFilter(items, req.filter);
          data := if req.replace then filtered else data + filtered;
          nextPage := Some(req.page + 1);
          page := req.page;
        case Failed(message) =>
          error := Some(message);
      }
      loading := false;
    }

    /** The first render's effect: a replace-load of page 1. */
    method Mount() returns (req: Request)
      modifies this`loading, this`error
      ensures loading && error == None
      ensures req == Request(1, true, Parse(selected))
    {
      req := FetchPage(1, true);
    }

    /** Writes the persisted selection; the effect on `selected` then reloads page 1,
        but only if the string actually changed. */
    method ApplySelection(next: string) returns (reqs: seq<Request>)
      modifies this`selected, this`loading, this`error
      ensures selected == next
      ensures reqs == SelectionEffect(old(selected), next)
      ensures reqs == [] ==> loading == old(loading) && error == old(error)
      ensures reqs != [] ==> loading && error == None
    {
      var prev := selected;
      selected := next;
      if next == prev {
        reqs := [];
      } else {
        var req := FetchPage(1, true);
        reqs := [req];
      }
    }

    /** `toggleSelection(v)`. */
    method ToggleSelection(v: string) returns (reqs: seq<Request>)
      modifies this`selected, this`loading, this`error
      ensures selected == ToggleSelected(old(selected), v)
      ensures reqs == SelectionEffect(old(selected), selected)
      ensures reqs == [] ==> loading == old(loading) && error == old(error)
      ensures reqs != [] ==> loading && error == None
    {
      reqs := ApplySelection(ToggleSelected(selected, v));
    }

    /** `setSelectedRange(vals)`: the selection becomes exactly `vals`, whatever it was. */
    method SetSelectedRange(vals: seq<string>) returns (reqs: seq<Request>)
      modifies this`selected, this`loading, this`error
      ensures selected == Join(vals)
      ensures reqs == SelectionEffect(old(selected), selected)
      ensures reqs == [] ==> loading == old(loading) && error == old(error)
      ensures reqs != [] ==> loading && error == None
      ensures AllKeys(vals) ==> Parse(selected) == vals
    {
      reqs := ApplySelection(Join(vals));
      if AllKeys(vals) {
        ParseJoinKeys(vals);
      }
    }

    /** The Reset button: `setSelected("")`, then a replace-load through the
        current closure, whose selection list is still the one before the reset;
        the effect on `selected` adds an unfiltered reload if the string changed. */
    method Reset() returns (reqs: seq<Request>)
      modifies this`selected, this`loading, this`error
      ensures selected == ""
      ensures reqs == [Request(1, true, Parse(old(selected)))] + SelectionEffect(old(selected), "")
      ensures loading && error == None
    {
      var first := FetchPage(1, true);
      var more := ApplySelection("");
      reqs := [first] + more;
    }

    /** The Refresh button: a replace-load of page 1 with the selection untouched. */
    method Refresh() returns (req: Request)
      modifies this`loading, this`error
      ensures loading && error == None
      ensures req == Request(1, true, Parse(selected))
    {
      req := FetchPage(1, true);
    }

    /** `loadMore`: append the next page, if there is one. */
    method LoadMore() returns (reqs: seq<Request>)
      modifies this`loading, this`error
      ensures HasNextPage(nextPage) ==>
                reqs == [Request(nextPage.value, false, Parse(selected))] && loading && error == None
      ensures !HasNextPage(nextPage) ==> reqs == [] && loading == old(loading) && error == old(error)
      ensures Valid() ==> forall r :: r in reqs ==> r.page >= 1
    {
      if HasNextPage(nextPage) {
        var req := FetchPage(nextPage.value, false);
        reqs := [req];
      } else {
        reqs := [];
      }
    }

    /** The sentinel's observer callback for one entry: load more only when the
        sentinel is intersecting, a next page exists and `loading` is false (which,
        with overlapping loads, does not mean that none is pending). */
    method OnSentinel(isIntersecting: bool) returns (reqs: seq<Request>)
      modifies this`loading, this`error
      ensures old(loading) ==> reqs == [] && loading
      ensures var fires := isIntersecting && HasNextPage(nextPage) && !old(loading);
              && (fires ==> reqs == [Request(nextPage.value, false, Parse(selected))] && loading && error == None)
              && (!fires ==> reqs == [] && loading == old(loading) && error == old(error))
      ensures Valid() && isIntersecting && !old(loading) ==> |reqs| == 1
    {
      if isIntersecting && HasNextPage(nextPage) && !loading {
        reqs := LoadMore();
      } else {
        reqs := [];
      }
    }

    /** The chart brush handler: the brushed categories replace the selection; a
        brush that resolves to nothing leaves everything as it was. */
    method OnBrushSelected(payload: Option<BrushIndex>) returns (reqs: seq<Request>)
      modifies this`selected, this`loading, this`error
      ensures var countries := ResolveBrush(Categories(data), payload);
              && (countries == [] ==> reqs == [] && unchanged(this))
              && (countries != [] ==> selected == Join(countries) && reqs == SelectionEffect(old(selected), selected))
      ensures (forall i :: 0 <= i < |Categories(data)| ==> Separator !in Categories(data)[i]) &&
              ResolveBrush(Categories(data), payload) != [] ==>
                Parse(selected) == ResolveBrush(Categories(data), payload)
      ensures reqs == [] ==> loading == old(loading) && error == old(error)
      ensures reqs != [] ==> loading && error == None
    {
      var categories, gbpValues, usdValues := ChartBase(data);
      var countries := ResolveBrush(categories, payload);
      if |countries| > 0 {
        reqs := SetSelectedRange(countries);
      } else {
        reqs := [];
      }
    }

    /** The chart click handler: toggle the clicked category if it exists and is not empty. */
    method OnChartClick(dataIndex: int) returns (reqs: seq<Request>)
      modifies this`selected, this`loading, this`error
      ensures var target := ClickTarget(Categories(data), dataIndex);
              && (target.None? ==> reqs == [] && unchanged(this))
              && (target.Some? ==> selected == ToggleSelected(old(selected), target.value)
                                   && reqs == SelectionEffect(old(selected), selected))
      ensures reqs == [] ==> loading == old(loading) && error == old(error)
      ensures reqs != [] ==> loading && error == None
    {
      var categories, gbpValues, usdValues := ChartBase(data);
      var c := CategoryAt(categories, dataIndex);
      if c != "" {
        reqs := ToggleSelection(c);
      } else {
        reqs := [];
      }
    }

    /** A click on a table row toggles that row's country. */
    method OnRowClick(row: Row) returns (reqs: seq<Request>)
      modifies this`selected, this`loading, this`error
      ensures selected == ToggleSelected(old(selected), row.country)
      ensures reqs == SelectionEffect(old(selected), selected)
      ensures reqs == [] ==> loading == old(loading) && error == old(error)
      ensures reqs != [] ==> loading && error == None
    {
      reqs := ToggleSelection(row.country);
    }
  }
}
