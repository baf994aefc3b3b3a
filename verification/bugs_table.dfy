/** The bugs table's view state: results, loading flag, sort direction and arrow,
    active sort field, page number, last-page flag and search box text. Every
    user action is a request step that returns the new state and the service call
    it issues (if any); every server answer is a separate response step. */
module BugsTable {
  import opened Wrappers
  import opened BugsData
  import opened BugsService
  import QueryParams
  import Decimal

  datatype ArrowDir = Up | Down

  datatype TableState = TableState(
    results: Option<seq<Bug>>,      // None until the first list arrives
    loading: bool,
    ascSort: bool,
    arrowDir: ArrowDir,
    displayArrow: bool,
    titleWithArrow: Option<string>, // None until the first sort
    pageNumber: int,
    lastPage: bool,
    searchTitle: string             // the search box's current text
  )

  datatype Step = Step(state: TableState, call: Option<Call>)

  /** Field values of a freshly constructed table. */
  const Constructed: TableState := TableState(None, true, false, Up, false, None, 0, false, "")

  /** `ngOnInit`: re-creates the search form with an empty title and asks for every bug. */
  function LoadRequest(s: TableState): (r: Step)
    ensures r.call == Some(GetDataCall)
    ensures r.state == s.(searchTitle := "")
  {
    Step(s.(searchTitle := ""), Some(GetDataCall))
  }

  /** The answer to `getData`: on success the list is shown and loading ends; an error changes nothing. */
  function LoadResponse(s: TableState, resp: Response<seq<Bug>>): (r: TableState)
    ensures resp.Ok? ==> r.results == Some(resp.data) && !r.loading
    ensures resp.Ok? ==> r == s.(results := r.results, loading := false)
    ensures resp.Failed? ==> r == s
  {
    match resp
    case Ok(data) => s.(results := Some(data), loading := false)
    case Failed(_) => s
  }

  /** `deleteData(id)`: asks the server to delete; the view is untouched until it answers. */
  function DeleteRequest(s: TableState, id: Option<int>): (r: Step)
    ensures r.state == s && r.call == Some(DeleteDataCall(id))
  {
    Step(s, Some(DeleteDataCall(id)))
  }

  /** The answer to a delete: only a `true` answer hides the arrow, returns to
      page 0, clears the last-page flag and reloads; sort direction and sort
      field are kept and the search text is emptied. Any other answer, and an
      error, change nothing. */
  function DeleteResponse(s: TableState, resp: Response<bool>): (r: Step)
    ensures resp == Ok(true) ==>
      && r.call == Some(GetDataCall)
      && !r.state.displayArrow && r.state.pageNumber == 0 && !r.state.lastPage
      && r.state.ascSort == s.ascSort && r.state.titleWithArrow == s.titleWithArrow
      && r.state.arrowDir == s.arrowDir && r.state.results == s.results && r.state.loading == s.loading
      && r.state.searchTitle == ""
    ensures resp != Ok(true) ==> r == Step(s, None)
  {
    if resp == Ok(true) then LoadRequest(s.(displayArrow := false, pageNumber := 0, lastPage := false))
    else Step(s, None)
  }

  function ToggleArrow(d: ArrowDir): ArrowDir {
    if d == Down then Up else Down
  }

  /** `sortData(field)`: shows the arrow on `field` and turns it at once; the
      request carries the direction, page and search text as they are now. */
  function SortRequest(s: TableState, field: string): (r: Step)
    ensures r.call == Some(SortDataCall(field, s.ascSort, s.pageNumber, s.searchTitle))
    ensures r.state.displayArrow && r.state.titleWithArrow == Some(field) && r.state.arrowDir != s.arrowDir
    ensures r.state == s.(displayArrow := true, titleWithArrow := Some(field), arrowDir := r.state.arrowDir)
  {
    Step(s.(displayArrow := true, titleWithArrow := Some(field), arrowDir := ToggleArrow(s.arrowDir)),
         Some(SortDataCall(field, s.ascSort, s.pageNumber, s.searchTitle)))
  }

  /** The answer to a sort: on success the results are replaced and then, on
      completion, the direction flips for the next sort; an error flips nothing. */
  function SortResponse(s: TableState, resp: Response<seq<Bug>>): (r: TableState)
    ensures resp.Ok? ==> r.results == Some(resp.data) && r.ascSort == !s.ascSort
    ensures resp.Ok? ==> r == s.(results := r.results, ascSort := r.ascSort)
    ensures resp.Failed? ==> r == s
  {
    match resp
    case Ok(data) => s.(results := Some(data), ascSort := !s.ascSort)
    case Failed(_) => s
  }

  /** `paginateData(action)`: "next" moves forward unless the last page is known,
      "prev" moves back unless on page 0 or below; any other action does nothing.
      A request is issued exactly when the page moved, for the new page, in the
      direction opposite to the stored flag, with the active sort field and search text. */
  function PaginateRequest(s: TableState, action: string): (r: Step)
    ensures r.call.Some? <==> (action == "next" && !s.lastPage) || (action == "prev" && s.pageNumber > 0)
    ensures r.call.None? <==> r.state == s
    ensures r.state == s.(pageNumber := r.state.pageNumber)
    ensures r.call.Some? && action == "next" ==> r.state.pageNumber == s.pageNumber + 1
    ensures r.call.Some? && action == "prev" ==> r.state.pageNumber == s.pageNumber - 1
    ensures r.call.Some? ==>
      r.call.value == PaginateDataCall(r.state.pageNumber, !s.ascSort, s.titleWithArrow, s.searchTitle)
  {
    var page :=
      if action == "next" && !s.lastPage then s.pageNumber + 1
      else if action == "prev" && s.pageNumber > 0 then s.pageNumber - 1
      else s.pageNumber;
    if page != s.pageNumber then
      Step(s.(pageNumber := page), Some(PaginateDataCall(page, !s.ascSort, s.titleWithArrow, s.searchTitle)))
    else
      Step(s, None)
  }

  /** The answer to a paginate request: a non-empty page replaces the results and
      clears the last-page flag; an empty page keeps the results, steps the page
      number back by one and marks the last page; an error changes nothing. */
  function PaginateResponse(s: TableState, resp: Response<seq<Bug>>): (r: TableState)
    ensures resp.Ok? && |resp.data| > 0 ==> r == s.(results := Some(resp.data), lastPage := false)
    ensures resp.Ok? && |resp.data| == 0 ==> r == s.(pageNumber := s.pageNumber - 1, lastPage := true)
    ensures resp.Failed? ==> r == s
  {
    match resp
    case Ok(data) =>
      if |data| > 0 then s.(results := Some(data), lastPage := false)
      else s.(pageNumber := s.pageNumber - 1, lastPage := true)
    case Failed(_) => s
  }

  /** `searchByTitle()`: asks for the bugs whose title matches the search box. */
  function SearchRequest(s: TableState): (r: Step)
    ensures r.state == s && r.call == Some(GetDataByTitleCall(s.searchTitle))
  {
    Step(s, Some(GetDataByTitleCall(s.searchTitle)))
  }

  /** The answer to a search: replaces the results only; page and sort state are not touched. */
  function SearchResponse(s: TableState, resp: Response<seq<Bug>>): (r: TableState)
    ensures resp.Ok? ==> r == s.(results := Some(resp.data))
    ensures resp.Failed? ==> r == s
  {
    match resp
    case Ok(data) => s.(results := Some(data))
    case Failed(_) => s
  }

  /** A user action together with the server's answer(s) to what it issued,
      applied one after the other. `Remove` carries the answer to the delete and
      the answer to the reload it may trigger. */
  datatype Event =
    | Load(resp: Response<seq<Bug>>)
    | Remove(id: Option<int>, deleted: Response<bool>, reload: Response<seq<Bug>>)
    | SortBy(field: string, resp: Response<seq<Bug>>)
    | Page(action: string, resp: Response<seq<Bug>>)
    | Search(resp: Response<seq<Bug>>)
    | TypeTitle(title: string)

  function Apply(s: TableState, e: Event): TableState {
    match e
    case Load(resp) => LoadResponse(LoadRequest(s).state, resp)
    case Remove(id, deleted, reload) =>
      var d := DeleteResponse(DeleteRequest(s, id).state, deleted);
      if d.call.Some? then LoadResponse(d.state, reload) else d.state
    case SortBy(field, resp) => SortResponse(SortRequest(s, field).state, resp)
    case Page(action, resp) =>
      var p := PaginateRequest(s, action);
      if p.call.Some? then PaginateResponse(p.state, resp) else p.state
    case Search(resp) => SearchResponse(SearchRequest(s).state, resp)
    case TypeTitle(title) => s.(searchTitle := title)
  }

  function Run(s: TableState, evs: seq<Event>): TableState
    decreases |evs|
  {
    if |evs| == 0 then s else Apply(Run(s, evs[..|evs| - 1]), evs[|evs| - 1])
  }

  /** Number of sort requests that completed successfully. */
  function CompletedSorts(evs: seq<Event>): nat
    decreases |evs|
  {
    if |evs| == 0 then 0
    else CompletedSorts(evs[..|evs| - 1]) + (if evs[|evs| - 1].SortBy? && evs[|evs| - 1].resp.Ok? then 1 else 0)
  }

  /** Facts that hold in every reachable state: results exist once loading is
      over; a visible arrow belongs to a sort field; the page number never goes
      below -1, and a negative page only occurs with the last-page flag set. */
  predicate Inv(s: TableState) {
    && (!s.loading ==> s.results.Some?)
    && (s.displayArrow ==> s.titleWithArrow.Some?)
    && s.pageNumber >= -1
    && (s.pageNumber < 0 ==> s.lastPage)
  }

  /** Construction and the initial load: page 0, no last page, descending, arrow
      up and hidden, loading; a successful load shows the list and ends loading. */
  lemma InitialLoad(data: seq<Bug>)
    ensures Constructed.pageNumber == 0 && !Constructed.lastPage && !Constructed.ascSort
    ensures Constructed.arrowDir == Up && !Constructed.displayArrow && Constructed.loading
    ensures Inv(Constructed)
    ensures LoadRequest(Constructed) == Step(Constructed, Some(GetDataCall))
    ensures var s := LoadResponse(LoadRequest(Constructed).state, Ok(data));
      s.results == Some(data) && !s.loading && Inv(s)
  {
  }

  lemma ApplyPreservesInv(s: TableState, e: Event)
    requires Inv(s)
    ensures Inv(Apply(s, e))
  {
  }

  lemma {:induction false} RunPreservesInv(s: TableState, evs: seq<Event>)
    requires Inv(s)
    ensures Inv(Run(s, evs))
    decreases |evs|
  {
    if |evs| > 0 {
      RunPreservesInv(s, evs[..|evs| - 1]);
      ApplyPreservesInv(Run(s, evs[..|evs| - 1]), evs[|evs| - 1]);
    }
  }

  /** Page boundary detection: asking for the next page and getting nothing back
      leaves the view on the page it was on, with the same results, marked as last. */
  lemma NextPageEmptyRestoresPage(s: TableState)
    requires !s.lastPage
    ensures var p := PaginateRequest(s, "next");
      p.call.Some? && PaginateResponse(p.state, Ok([])) == s.(lastPage := true)
  {
  }

  /** The roll-back always subtracts one, whichever way the page moved: an empty
      answer after going back from page 1 leaves the page number at -1. */
  lemma PrevPageEmptyGoesBelowZero(s: TableState)
    requires s.pageNumber == 1
    ensures var p := PaginateRequest(s, "prev");
      p.call.Some? && PaginateResponse(p.state, Ok([])) == s.(pageNumber := -1, lastPage := true)
  {
  }

  /** From a negative page neither "next" nor "prev" issues a request: only a
      sort, a search or a successful delete leaves that state's paging. */
  lemma NegativePageStalls(s: TableState, action: string)
    requires Inv(s) && s.pageNumber < 0
    ensures PaginateRequest(s, action) == Step(s, None)
  {
  }

  /** The sort direction flag changes only when a sort completes successfully:
      after any run it equals the start value flipped once per completed sort. */
  lemma {:induction false} AscSortParity(s: TableState, evs: seq<Event>)
    ensures Run(s, evs).ascSort == (s.ascSort != (CompletedSorts(evs) % 2 == 1))
    decreases |evs|
  {
    if |evs| > 0 {
      var pre := evs[..|evs| - 1];
      AscSortParity(s, pre);
      ApplyFlipsOnlyOnCompletedSort(Run(s, pre), evs[|evs| - 1]);
    }
  }

  lemma ApplyFlipsOnlyOnCompletedSort(s: TableState, e: Event)
    ensures Apply(s, e).ascSort == (s.ascSort != (e.SortBy? && e.resp.Ok?))
  {
  }

  /** Two sorts that both complete send opposite directions, whatever paging,
      searching, deleting or failed sorts happen between them. */
  lemma SortDirectionsAlternate(s: TableState, f: string, data: seq<Bug>, between: seq<Event>, g: string)
    requires CompletedSorts(between) == 0
    ensures var s1 := Apply(s, SortBy(f, Ok(data)));
      SortRequest(Run(s1, between), g).call.value.ascSort == !SortRequest(s, f).call.value.ascSort
  {
    AscSortParity(Apply(s, SortBy(f, Ok(data))), between);
  }

  /** After a completed sort, the next page request (if any) asks for the same
      direction that sort request used, until another sort completes. */
  lemma PaginateFollowsLastSort(s: TableState, f: string, data: seq<Bug>, between: seq<Event>, action: string)
    requires CompletedSorts(between) == 0
    ensures var t := Run(Apply(s, SortBy(f, Ok(data))), between);
      PaginateRequest(t, action).call.Some? ==>
        PaginateRequest(t, action).call.value.ascSort == SortRequest(s, f).call.value.ascSort
  {
    AscSortParity(Apply(s, SortBy(f, Ok(data))), between);
  }

  /** Two sort clicks turn the arrow back to where it was. */
  lemma ArrowTogglesBack(s: TableState, f: string, g: string)
    ensures SortRequest(SortRequest(s, f).state, g).state.arrowDir == s.arrowDir
  {
  }

  /** On the wire, a page request carries the new page number and, once a sort
      field is set, that field with the direction opposite to the stored flag. */
  lemma PaginateRequestOnTheWire(s: TableState, action: string, now: Date, later: Date)
    requires PaginateRequest(s, action).call.Some?
    ensures var p := PaginateRequest(s, action);
      var r := Request(p.call.value, now, later);
      && Decimal.ParseInt(QueryParams.Get(r.params, "page").value) == Some(p.state.pageNumber)
      && QueryParams.Get(r.params, "title") == Some(s.searchTitle)
      && (HasSortField(s.titleWithArrow) ==>
            ParseSort(QueryParams.Get(r.params, "sort").value) == Some((s.titleWithArrow.value, !s.ascSort)))
      && (!HasSortField(s.titleWithArrow) ==> QueryParams.Get(r.params, "sort").None?)
  {
    ListParamsRoundTrip(PaginateRequest(s, action).call.value, now, later);
  }
}
