# Bug Reporting System — view-state and request model

A Dafny model of the logic inside the Angular front-end of the bug-reporting
system. Three parts are modelled:

- the **bugs table** (`BugsTableComponent`). Its view state is the results, the
  loading flag, the sort direction flag and arrow, the active sort field, the
  page number, the last-page flag and the search text. Every user action
  (initial load, sort, paginate, search, delete) is a pure *request* step. It
  returns the new state and the service call it issues, or no call. Each server
  answer is a separate *response* step;
- the **bug form** (`BugsFormComponent`). It covers the choice between create
  and edit mode, `fillData`, the field validators, `addComment`, and the submit.
  The status field is required only when the reporter is "QA". An edit submit
  sends the existing comments followed by the pending ones;
- the **service** (`BugsService`). This part gives the URL, the ordered query
  parameters and the JSON body that each API method builds. It also models the
  single-slot hand-off through which the table passes the record being edited to
  the form. The slot's one-second expiry timer is an explicit event.

Modules: `Wrappers` (Option), `Decimal` (how `${n}` renders an integer, plus the
parser that reads it back), `QueryParams` (Angular `HttpParams`: ordered pairs;
`set` replaces a key where it stands or appends it), `BugsData` (the records),
`BugsService` (calls, requests, responses), `EditHandOff` (the slot),
`BugsTable`, and `BugsForm`.

In these places the code behaves differently from what its names or comments
suggest; the model follows the code:

- `sortData` always sends `page` and `title`, and `paginateData` always sends
  `title`, even when the search text is empty. Nothing is omitted.
- After a successful delete, the arrow is hidden. The sort field and the
  direction flag are kept, so the next page request still sorts by that field.
  The reload re-creates the search form, which empties the search text.
- An empty answer to a page request always steps the page number back by one.
  After "prev" from page 1 the page number becomes -1 and the last-page flag is
  set. From there neither "next" nor "prev" issues a request. See
  `BugsTable.PrevPageEmptyGoesBelowZero` and `BugsTable.NegativePageStalls`. The
  page number is therefore not always non-negative. `BugsTable.RunPreservesInv`
  proves that it never goes below -1.
- Each `passDataEdit` starts its own timer, and any timer empties the slot.
  After two quick publishes, the first timer removes the second record early
  (`EditHandOff.EarlierTimerClearsLaterRecord`).
- `postData` reads the clock twice, so the model takes two independent clock
  readings. It does not claim that `createdAt == updatedAt` on create.

## Model

| member | source | states |
|---|---|---|
| `Decimal.IntToStringRoundTrip` | src/app/services/bugs.service.ts:62 | The decimal text an id or page number is rendered as parses back to that same integer. |
| `QueryParams.Set` | src/app/services/bugs.service.ts:104-109 | After `set(k, v)` the key reads `v`. An existing key keeps its place; a new key goes at the end. |
| `QueryParams.SetKeepsOtherKeys` | src/app/services/bugs.service.ts:104-109 | Setting one key leaves what every other key reads unchanged. |
| `BugsService.ItemUrlInjective` | src/app/services/bugs.service.ts:62 | Distinct ids, including an absent one rendered as "undefined", give distinct item URLs. No item URL equals the list URL. |
| `BugsService.GetData` | src/app/services/bugs.service.ts:41-54 | `getData` is a GET with no parameters and no body, to the list URL `bugs`, which is no record's item URL. |
| `BugsService.DeleteData` | src/app/services/bugs.service.ts:59-72 | `deleteData(id)` is a DELETE with no parameters and no body, to the item URL of that id and of no other id. |
| `BugsService.SortValueRoundTrip` | src/app/services/bugs.service.ts:81 | The `sort` value "field,asc" or "field,desc" splits back into the same field and direction, even when the field contains commas. |
| `BugsService.SortData` | src/app/services/bugs.service.ts:77-89 | Always sends exactly `sort`, `page` and `title`, in that order. `sort` is field + "," + asc/desc. |
| `BugsService.PaginateData` | src/app/services/bugs.service.ts:101-115 | Always sends `page` then `title`. It appends `sort` if and only if the field is set and non-empty. |
| `BugsService.GetDataByTitle` | src/app/services/bugs.service.ts:128-137 | Sends only the `title` parameter, to the list URL. |
| `BugsService.PostData` | src/app/services/bugs.service.ts:150-167 | A POST to the list URL whose body carries the five caller fields and no comments. |
| `BugsService.PutData` | src/app/services/bugs.service.ts:193-212 | A PUT to the item URL whose body carries the five fields, plus the caller's `createdAt` and comments unchanged. |
| `BugsService.RequestUrls` | src/app/services/bugs.service.ts:41-212 | Only delete and update address an item URL, and it is the one for their id. Every other call addresses the list. Only list-style calls are GETs, and delete is a DELETE. Only sort, paginate and search send query parameters. Only create and update send a body. |
| `BugsService.ListParamsRoundTrip` | src/app/services/bugs.service.ts:80-109 | The page number, sort field and direction of a sort or page call can be read back from its query parameters. A page call without a sort field has no `sort`. |
| `EditHandOff.PassDataEdit` | src/app/services/bugs.service.ts:180-189 | Publishing puts the record in the slot and starts one more expiry timer. |
| `EditHandOff.Expire` | src/app/services/bugs.service.ts:187-189 | A firing timer empties the slot, whatever it held, and consumes one pending timer. |
| `EditHandOff.RunMatchesLatest` | src/app/services/bugs.service.ts:21-22 | After any possible event sequence, the slot holds the record of the last publish. It is empty if an expiry came later, and reads have no effect. One timer stays pending per unmatched publish. |
| `EditHandOff.RunPossible` | src/app/services/bugs.service.ts:183-189 | A sequence can happen exactly when, at every point, expiries do not outnumber the timers started. |
| `EditHandOff.PublishThenExpire` | src/app/services/bugs.service.ts:183-189 | After `passDataEdit(bug)` the slot holds the bug, however often it is read. The expiry after that empties it. |
| `EditHandOff.EarlierTimerClearsLaterRecord` | src/app/services/bugs.service.ts:187-189 | The first publish's timer empties a slot that already holds a second record, while that record's own timer is still pending. |
| `BugsTable.InitialLoad` | src/app/bugs-table/bugs-table.component.ts:21-55 | The table starts on page 0: not last page, descending, arrow up and hidden, loading. Loading asks for every bug. A successful answer shows the list and ends loading. |
| `BugsTable.LoadRequest` | src/app/bugs-table/bugs-table.component.ts:41-49 | `ngOnInit` empties the search text and issues `getData`. |
| `BugsTable.LoadResponse` | src/app/bugs-table/bugs-table.component.ts:49-57 | On success the results become the data and loading ends. An error changes nothing. |
| `BugsTable.DeleteRequest` | src/app/bugs-table/bugs-table.component.ts:77-80 | A delete issues the delete call and leaves the view alone. |
| `BugsTable.DeleteResponse` | src/app/bugs-table/bugs-table.component.ts:80-89 | Only a `true` answer hides the arrow, sets page 0, clears the last-page flag, empties the search text and reloads. The direction, sort field, arrow direction and results stay. Any other answer changes nothing. |
| `BugsTable.SortRequest` | src/app/bugs-table/bugs-table.component.ts:99-109 | Sorting shows the arrow on the field and turns it at once. It asks for the current direction flag, page and search text. |
| `BugsTable.SortResponse` | src/app/bugs-table/bugs-table.component.ts:109-122 | Success replaces the results and flips the direction flag. An error flips nothing. |
| `BugsTable.PaginateRequest` | src/app/bugs-table/bugs-table.component.ts:127-141 | A request is issued if and only if the page moved: "next" when not on the last page, "prev" when above page 0. Otherwise the state is unchanged. The request asks for the new page, the opposite of the stored direction, the sort field and the search text. |
| `BugsTable.PaginateResponse` | src/app/bugs-table/bugs-table.component.ts:141-157 | A non-empty page replaces the results and clears the last-page flag, keeping the page. An empty page keeps the results, steps the page back by one and sets the last-page flag. An error changes nothing. |
| `BugsTable.SearchRequest` | src/app/bugs-table/bugs-table.component.ts:166-169 | A search asks for the search box's text and leaves the view alone. |
| `BugsTable.SearchResponse` | src/app/bugs-table/bugs-table.component.ts:169-175 | Success replaces only the results. Page and sort state are untouched. |
| `BugsTable.RunPreservesInv` | src/app/bugs-table/bugs-table.component.ts:130-153 | In every reachable state: results exist once loading is over, a visible arrow has a sort field, and the page is at least -1. A negative page only occurs on the last page. |
| `BugsTable.NextPageEmptyRestoresPage` | src/app/bugs-table/bugs-table.component.ts:134-153 | "next" answered by an empty page returns to the pre-click page with unchanged results, now marked as the last page. |
| `BugsTable.PrevPageEmptyGoesBelowZero` | src/app/bugs-table/bugs-table.component.ts:135-153 | "prev" from page 1 answered by an empty page leaves the page number at -1. |
| `BugsTable.NegativePageStalls` | src/app/bugs-table/bugs-table.component.ts:134-138 | On a negative page, no paging action issues a request. |
| `BugsTable.AscSortParity` | src/app/bugs-table/bugs-table.component.ts:119-121 | Over any sequence of actions and answers, the direction flag flips once per successfully completed sort and at no other time. |
| `BugsTable.SortDirectionsAlternate` | src/app/bugs-table/bugs-table.component.ts:109-121 | Two sorts that both complete send opposite directions, whatever paging, searching, deleting or failed sorts come between. |
| `BugsTable.PaginateFollowsLastSort` | src/app/bugs-table/bugs-table.component.ts:109-141 | After a completed sort, every later page request asks for the direction that sort used, until another sort completes. |
| `BugsTable.ArrowTogglesBack` | src/app/bugs-table/bugs-table.component.ts:105 | Two sort clicks turn the arrow back to its earlier direction. |
| `BugsTable.PaginateRequestOnTheWire` | src/app/bugs-table/bugs-table.component.ts:131-141 | The HTTP request of a page move carries the new page and the search text. Once a field is set, it also carries that field with the opposite of the stored direction. Otherwise it has no `sort`. |
| `BugsForm.Init` | src/app/bugs-form/bugs-form.component.ts:35-68 | Edit mode is chosen if and only if the hand-off delivers a record. The form is then filled from it; otherwise the form stays empty in create mode. Status starts without a validator and no comments are pending. |
| `BugsForm.FillData` | src/app/bugs-form/bugs-form.component.ts:86-93 | Exactly title, priority, reporter, status and description are copied from the record. The comment drafts are untouched. |
| `BugsForm.ValidateStatus` | src/app/bugs-form/bugs-form.component.ts:74-83 | Status carries the required validator if and only if the reporter is "QA". Nothing else changes. |
| `BugsForm.Utf16LengthOfBmp` | src/app/bugs-form/bugs-form.component.ts:57-61 | The length the validators compare is JavaScript's, in UTF-16 code units; for text without characters beyond the Basic Multilingual Plane it is the character count. |
| `BugsForm.FieldRules` | src/app/bugs-form/bugs-form.component.ts:57-61 | Title is valid if and only if its JavaScript length is at least 4. Description is valid if and only if its length is 50 to 1000. Priority and reporter are valid if and only if filled. |
| `BugsForm.TitleCountsSurrogatePairs` | src/app/bugs-form/bugs-form.component.ts:57 | A title of two emoji (length 4 in UTF-16 code units) passes `minLength(4)`; a title of one emoji does not. |
| `BugsForm.ValidityMatchesRequiredFields` | src/app/bugs-form/bugs-form.component.ts:57-83 | Once status is re-validated, the form is valid if and only if every required field is filled and the length rules hold, lengths counted in UTF-16 code units. Status is required only for reporter "QA". |
| `BugsForm.StatusRuleExamples` | src/app/bugs-form/bugs-form.component.ts:74-83 | With the other fields valid and status empty, reporter "QA" fails and reporter "Dev" passes. |
| `BugsForm.AddComment` | src/app/bugs-form/bugs-form.component.ts:96-107 | Exactly one comment, built from the two drafts, is appended. Earlier entries stay and both drafts are cleared. |
| `BugsForm.AddCommentsAppends` | src/app/bugs-form/bugs-form.component.ts:96-107 | Adding drafts one by one yields the earlier list followed by the new comments, in order. |
| `BugsForm.MergeComments` | src/app/bugs-form/bugs-form.component.ts:148 | The sent comments are the existing ones followed by the pending ones. The length is the sum, and the multiset is the union. Without existing comments, only the pending ones are sent. |
| `BugsForm.SubmitRequest` | src/app/bugs-form/bugs-form.component.ts:111-152 | Create is used if and only if in create mode, otherwise update, with the form's fields. An update keeps the record's id and `createdAt` and sends the merged comments. |
| `BugsForm.SubmitResponse` | src/app/bugs-form/bugs-form.component.ts:125-164 | Success sets the saved flag and resets every control. Mode, validators and pending comments stay. An error leaves everything as it was. |
| `BugsForm.EditSubmitKeepsIdentity` | src/app/bugs-form/bugs-form.component.ts:147-152 | The HTTP request of an edit submit is a PUT to the record's own URL. Its body carries the original `createdAt` and the merged comments, whose length is the sum of both lists. |
| `BugsForm.CreateSubmitBody` | src/app/bugs-form/bugs-form.component.ts:121-124 | The HTTP request of a create submit is a POST to the list URL. Its body carries the form's title, priority, reporter, status and description, and no comments. |
| `BugsForm.EditUnchangedEchoesRecord` | src/app/bugs-form/bugs-form.component.ts:144-152 | Submitting an edit form without changes sends back the record's own fields, id, `createdAt` and comments. |
| `BugsForm.ModeFixedCommentsGrow` | src/app/bugs-form/bugs-form.component.ts:39-53 | After initialisation the mode never changes. Pending comments are only ever appended to. |
| `BugsForm.HandOffDecidesMode` | src/app/bugs-form/bugs-form.component.ts:39-47 | A form initialised while the published record is in the slot edits that record. One initialised after the expiry creates a new bug. |

## Left out

- HTTP transport, the automatic retry (`retry(1)`) and the error wrapping (`catchError`): each call's outcome enters the model as `Response` (`Ok` with data, or `Failed`).
- The fixed `Content-Type` and `Authorization` headers: every request sends the same ones, so `HttpRequest` does not carry them.
- JSON serialisation of the body.
- Timers: the one-second hand-off expiry is the `Expiry` event. The five-second navigation after a successful submit is dropped, along with all routing (`navigateAddForm`, the route change in `navigateEditForm`, module wiring).
- Interleaving of several requests in flight, including a slow answer overwriting a newer one: each request is followed by its own answer.
- Clock values: `Date` is opaque. `new Date()` readings are parameters of `Request`.
- `console.log` output, HTML templates and the template bindings that call `validateStatus`, `paginateData('next'/'prev')` and the search. The model does not decide when the template calls them.
- Angular form internals: a control reset to `null` is modelled like an empty text (`""`) or an empty priority (`None`). Only the search form's `bugTitle` control is kept, as `searchTitle`.
- `BugsData.Bug`: `priority` is a JavaScript `number`, modelled as an integer. Ids are `bigint`, modelled as optional integers. The service renders an absent id as "undefined", as the template literal does.
- `BugsService.PostData`: the `priority` argument is `Option<int>` rather than a number, because the form passes the control's value, which may be empty.
- The delete answer is modelled as a boolean. The loose comparison `data == true` would also accept some non-boolean JSON values; the model does not cover that.
- `Decimal.IntToString`: page numbers of magnitude 10^21 or more, which JavaScript renders in exponent form, are rendered in plain decimal; page numbers never get near that size.
- `tableTitles`, the list of column headers, is display-only.
