/** The remote access layer: which HTTP request each service method builds from
    its arguments. Sending it, the retry and the error wrapping are not modelled;
    a call's outcome reaches the components as a `Response`. */
module BugsService {
  import opened Wrappers
  import opened BugsData
  import opened QueryParams
  import Decimal

  const BaseUrl: string := "https://bug-report-system-server.herokuapp.com/"

  datatype HttpMethod = GET | POST | PUT | DELETE

  /** The JSON body of a create or update. It has no `id` field: the id travels
      in the URL of an update and is assigned by the server on create. The
      priority is whatever the form control held, which may be empty. */
  datatype BugBody = BugBody(
    title: string,
    description: string,
    priority: Option<int>,
    reporter: string,
    status: string,
    updatedAt: Date,
    createdAt: Date,
    comments: Option<seq<Comment>>
  )

  datatype HttpRequest = HttpRequest(verb: HttpMethod, url: string, params: Params, body: Option<BugBody>)

  /** What a component hands the service: a method name and its arguments. */
  datatype Call =
    | GetDataCall
    | DeleteDataCall(id: Option<int>)
    | SortDataCall(field: string, ascSort: bool, currentPage: int, searchTitle: string)
    | PaginateDataCall(newPage: int, ascSort: bool, sortField: Option<string>, searchTitle: string)
    | GetDataByTitleCall(searchTitle: string)
    | PostDataCall(title: string, priority: Option<int>, reporter: string, status: string, description: string)
    | PutDataCall(id: Option<int>, title: string, priority: Option<int>, reporter: string, status: string,
                  description: string, createdAt: Date, comments: seq<Comment>)

  /** The eventual outcome of a call: its data, or the "Something went wrong" rejection. */
  datatype Response<T> = Ok(data: T) | Failed(error: string)

  function ListUrl(): string {
    BaseUrl + "bugs"
  }

  /** `${id}` of a record's optional id: an absent id renders as "undefined". */
  function IdText(id: Option<int>): (t: string)
    ensures |t| > 0
  {
    match id
    case Some(i) => Decimal.IntToString(i)
    case None => "undefined"
  }

  function ItemUrl(id: Option<int>): string {
    BaseUrl + "bugs/" + IdText(id)
  }

  /** Distinct ids address distinct items, and no item URL is the list URL. */
  lemma ItemUrlInjective(a: Option<int>, b: Option<int>)
    ensures ItemUrl(a) == ItemUrl(b) ==> a == b
    ensures ItemUrl(a) != ListUrl()
  {
    if ItemUrl(a) == ItemUrl(b) {
      var n := |BaseUrl + "bugs/"|;
      assert IdText(a) == ItemUrl(a)[n..];
      assert IdText(b) == ItemUrl(b)[n..];
      if a.Some? && b.Some? {
        Decimal.IntToStringInjective(a.value, b.value);
      } else if a.Some? != b.Some? {
        assert IdText(a)[0] == IdText(b)[0];
      }
    }
    assert |ItemUrl(a)| > |ListUrl()|;
  }

  /** The `sort` parameter: field, a comma, then "asc" or "desc". */
  function SortValue(field: string, ascSort: bool): string {
    field + "," + (if ascSort then "asc" else "desc")
  }

  /** Position of the last occurrence of `c` in `s`. */
  function LastIndexOf(s: string, c: char): (r: Option<nat>)
    ensures r.Some? ==> r.value < |s| && s[r.value] == c
    ensures r.Some? ==> forall j :: r.value < j < |s| ==> s[j] != c
    ensures r.None? ==> forall j :: 0 <= j < |s| ==> s[j] != c
  {
    if |s| == 0 then None
    else if s[|s| - 1] == c then Some(|s| - 1)
    else LastIndexOf(s[..|s| - 1], c)
  }

  /** Splits a `sort` value at its last comma into field and direction. */
  function ParseSort(v: string): Option<(string, bool)> {
    match LastIndexOf(v, ',')
    case None => None
    case Some(k) =>
      if v[k + 1..] == "asc" then Some((v[..k], true))
      else if v[k + 1..] == "desc" then Some((v[..k], false))
      else None
  }

  /** The field and direction can be read back from the `sort` value, whatever the field holds. */
  lemma SortValueRoundTrip(field: string, ascSort: bool)
    ensures ParseSort(SortValue(field, ascSort)) == Some((field, ascSort))
  {
    var dir := if ascSort then "asc" else "desc";
    var v := SortValue(field, ascSort);
    assert v[|field|] == ',';
    forall j | |field| < j < |v|
      ensures v[j] != ','
    {
      assert v[j] == dir[j - |field| - 1];
    }
    var k := LastIndexOf(v, ',');
    assert k == Some(|field|);
    assert v[|field| + 1..] == dir;
    assert v[..|field|] == field;
  }

  /** The list URL addresses no single record. */
  lemma NoItemIsTheList()
    ensures forall id :: ItemUrl(id) != ListUrl()
  {
  }

  /** An item URL names exactly one id. */
  lemma ItemUrlsAreDistinct(id: Option<int>)
    ensures forall other :: ItemUrl(other) == ItemUrl(id) ==> other == id
  {
    forall other {
      ItemUrlInjective(other, id);
    }
  }

  /** `getData()`: every bug, no parameters. */
  function GetData(): (r: HttpRequest)
    ensures r.verb == GET && r.url == ListUrl() && r.params == [] && r.body == None
    ensures forall id :: r.url != ItemUrl(id)
  {
    NoItemIsTheList();
    HttpRequest(GET, ListUrl(), [], None)
  }

  /** `deleteData(bugId)`: addresses the one record with that id. */
  function DeleteData(id: Option<int>): (r: HttpRequest)
    ensures r.verb == DELETE && r.url == ItemUrl(id) && r.params == [] && r.body == None
    ensures forall other :: ItemUrl(other) == r.url ==> other == id
  {
    ItemUrlsAreDistinct(id);
    HttpRequest(DELETE, ItemUrl(id), [], None)
  }

  /** `sortData(field, ascSort, currentPage, searchTitle)`: always sends `sort`,
      then `page`, then `title`, even when the title is empty. */
  function SortData(field: string, ascSort: bool, currentPage: int, searchTitle: string): (r: HttpRequest)
    ensures r.verb == GET && r.url == ListUrl() && r.body == None
    ensures Keys(r.params) == ["sort", "page", "title"]
    ensures Get(r.params, "sort") == Some(SortValue(field, ascSort))
    ensures Get(r.params, "page") == Some(Decimal.IntToString(currentPage))
    ensures Get(r.params, "title") == Some(searchTitle)
  {
    var withSort := Set([], "sort", SortValue(field, ascSort));
    var withPage := Set(withSort, "page", Decimal.IntToString(currentPage));
    var params := Set(withPage, "title", searchTitle);
    SetKeepsOtherKeys(withSort, "page", Decimal.IntToString(currentPage), "sort");
    SetKeepsOtherKeys(withPage, "title", searchTitle, "sort");
    SetKeepsOtherKeys(withPage, "title", searchTitle, "page");
    HttpRequest(GET, ListUrl(), params, None)
  }

  /** JavaScript truthiness of the sort field: neither undefined nor empty. */
  predicate HasSortField(field: Option<string>) {
    field.Some? && field.value != ""
  }

  /** `paginateData(newPage, ascSort, field, searchTitle)`: always sends `page`
      and `title`, and appends `sort` only when a sort field is set. */
  function PaginateData(newPage: int, ascSort: bool, field: Option<string>, searchTitle: string): (r: HttpRequest)
    ensures r.verb == GET && r.url == ListUrl() && r.body == None
    ensures Keys(r.params) == ["page", "title"] + (if HasSortField(field) then ["sort"] else [])
    ensures Get(r.params, "page") == Some(Decimal.IntToString(newPage))
    ensures Get(r.params, "title") == Some(searchTitle)
    ensures HasSortField(field) ==> Get(r.params, "sort") == Some(SortValue(field.value, ascSort))
  {
    var withPage := Set([], "page", Decimal.IntToString(newPage));
    assert Keys(withPage) == ["page"];
    var params := Set(withPage, "title", searchTitle);
    assert Keys(params) == ["page", "title"];
    SetKeepsOtherKeys(withPage, "title", searchTitle, "page");
    assert Get(params, "sort").None?;
    if HasSortField(field) then
      var sortValue := SortValue(field.value, ascSort);
      SetKeepsOtherKeys(params, "sort", sortValue, "page");
      SetKeepsOtherKeys(params, "sort", sortValue, "title");
      HttpRequest(GET, ListUrl(), Set(params, "sort", sortValue), None)
    else
      HttpRequest(GET, ListUrl(), params, None)
  }

  /** `getDataByTitle(searchTitle)`: only the `title` parameter. */
  function GetDataByTitle(searchTitle: string): (r: HttpRequest)
    ensures r.verb == GET && r.url == ListUrl() && r.body == None
    ensures Keys(r.params) == ["title"] && Get(r.params, "title") == Some(searchTitle)
  {
    HttpRequest(GET, ListUrl(), Set([], "title", searchTitle), None)
  }

  /** `postData(...)`: the five caller fields and two fresh clock readings
      (`updatedAt` read first); no comments. */
  function PostData(title: string, priority: Option<int>, reporter: string, status: string, description: string,
                    updatedAt: Date, createdAt: Date): (r: HttpRequest)
    ensures r.verb == POST && r.url == ListUrl() && r.params == []
    ensures r.body.Some? && r.body.value.comments.None?
    ensures r.body.value.title == title && r.body.value.priority == priority && r.body.value.reporter == reporter
    ensures r.body.value.status == status && r.body.value.description == description
  {
    HttpRequest(POST, ListUrl(), [],
      Some(BugBody(title, description, priority, reporter, status, updatedAt, createdAt, None)))
  }

  /** `putData(...)`: the caller's fields, its `createdAt` and comments verbatim,
      and a fresh clock reading for `updatedAt`. */
  function PutData(id: Option<int>, title: string, priority: Option<int>, reporter: string, status: string,
                   description: string, createdAt: Date, comments: seq<Comment>, updatedAt: Date): (r: HttpRequest)
    ensures r.verb == PUT && r.url == ItemUrl(id) && r.params == []
    ensures r.body.Some? && r.body.value.createdAt == createdAt && r.body.value.comments == Some(comments)
    ensures r.body.value.title == title && r.body.value.priority == priority && r.body.value.reporter == reporter
    ensures r.body.value.status == status && r.body.value.description == description
  {
    HttpRequest(PUT, ItemUrl(id), [],
      Some(BugBody(title, description, priority, reporter, status, updatedAt, createdAt, Some(comments))))
  }

  /** The request a call produces; `now` and `later` are the clock readings
      taken by `new Date()` in evaluation order (only create and update read them). */
  function Request(call: Call, now: Date, later: Date): HttpRequest {
    match call
    case GetDataCall => GetData()
    case DeleteDataCall(id) => DeleteData(id)
    case SortDataCall(field, asc, page, title) => SortData(field, asc, page, title)
    case PaginateDataCall(page, asc, field, title) => PaginateData(page, asc, field, title)
    case GetDataByTitleCall(title) => GetDataByTitle(title)
    case PostDataCall(title, priority, reporter, status, description) =>
      PostData(title, priority, reporter, status, description, now, later)
    case PutDataCall(id, title, priority, reporter, status, description, createdAt, comments) =>
      PutData(id, title, priority, reporter, status, description, createdAt, comments, now)
  }

  /** List-style calls and create address the collection; delete and update
      address the item of their own id. Only the list-style calls are GETs, only
      sort, paginate and search carry query parameters, and only create and
      update carry a body. */
  lemma RequestUrls(call: Call, now: Date, later: Date)
    ensures var r := Request(call, now, later);
      (call.DeleteDataCall? || call.PutDataCall?) <==> r.url != ListUrl()
    ensures var r := Request(call, now, later);
      (call.DeleteDataCall? || call.PutDataCall?) ==> r.url == ItemUrl(call.id)
    ensures var r := Request(call, now, later);
      (r.verb == GET) <==> !(call.DeleteDataCall? || call.PutDataCall? || call.PostDataCall?)
    ensures var r := Request(call, now, later);
      call.DeleteDataCall? ==> r.verb == DELETE
    ensures var r := Request(call, now, later);
      (r.params == []) <==> (call.GetDataCall? || call.DeleteDataCall? || call.PostDataCall? || call.PutDataCall?)
    ensures var r := Request(call, now, later);
      r.body.Some? <==> (call.PostDataCall? || call.PutDataCall?)
  {
    if call.DeleteDataCall? || call.PutDataCall? {
      ItemUrlInjective(call.id, call.id);
    }
  }

  /** The `page` and `sort` parameters of a sort or paginate request can be
      read back to the page number and the (field, direction) pair the caller passed. */
  lemma ListParamsRoundTrip(call: Call, now: Date, later: Date)
    requires call.SortDataCall? || call.PaginateDataCall?
    ensures var r := Request(call, now, later);
      Get(r.params, "page").Some? &&
      Decimal.ParseInt(Get(r.params, "page").value) == Some(if call.SortDataCall? then call.currentPage else call.newPage)
    ensures var r := Request(call, now, later);
      call.SortDataCall? ==> ParseSort(Get(r.params, "sort").value) == Some((call.field, call.ascSort))
    ensures var r := Request(call, now, later);
      call.PaginateDataCall? && HasSortField(call.sortField) ==>
        ParseSort(Get(r.params, "sort").value) == Some((call.sortField.value, call.ascSort))
    ensures var r := Request(call, now, later);
      call.PaginateDataCall? && !HasSortField(call.sortField) ==> Get(r.params, "sort").None?
  {
    if call.SortDataCall? {
      Decimal.IntToStringRoundTrip(call.currentPage);
      SortValueRoundTrip(call.field, call.ascSort);
    } else {
      Decimal.IntToStringRoundTrip(call.newPage);
      if HasSortField(call.sortField) {
        SortValueRoundTrip(call.sortField.value, call.ascSort);
      }
    }
  }
}
