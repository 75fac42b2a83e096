/**
 * The listing query: its cache key, when it runs, the request it sends and how
 * the response envelope becomes rows and pagination. Only the page number and
 * the page size reach the server; filters and sort rules are applied to the
 * returned page afterwards.
 */
module FetchData {
  import opened Wrappers
  import Json
  import Text
  import Objects
  import Http
  import ApiConfig
  import TableContext

  /** The options of `useFetchData`; a missing page size is 10. */
  datatype FetchOptions = FetchOptions(tableState: Option<TableContext.TableState>, pageSize: Option<int>)

  function PageSize(options: FetchOptions): int {
    options.pageSize.GetOr(10)
  }

  datatype Pagination = Pagination(currentPage: Json.Value, lastPage: Json.Value, pageSize: Json.Value, totalCount: Json.Value)

  /** What the query resolves to. */
  datatype Fetched = Fetched(data: Json.Value, pagination: Option<Pagination>)

  /** `['data', endpoint, tableState?.page, pageSize]`. */
  function QueryKey(endpoint: string, options: FetchOptions): (key: seq<Json.Value>)
    ensures |key| == 4 && key[..2] == [Json.JStr("data"), Json.JStr(endpoint)]
    ensures options.tableState.Some? ==> key[2] == Json.JNum(options.tableState.value.page)
    ensures options.tableState.None? ==> key[2] == Json.JUndefined
    ensures key[3] == Json.JNum(if options.pageSize.Some? then options.pageSize.value else 10)
  {
    var page := if options.tableState.Some? then Json.JNum(options.tableState.value.page) else Json.JUndefined;
    [Json.JStr("data"), Json.JStr(endpoint), page, Json.JNum(PageSize(options))]
  }

  /** The cache key does not see filters or sort rules: two table states on the
      same page share one cached page. */
  lemma QueryKeyIgnoresRules(endpoint: string, options: FetchOptions, state: TableContext.TableState)
    requires options.tableState.Some? && options.tableState.value.page == state.page
    ensures QueryKey(endpoint, options) == QueryKey(endpoint, options.(tableState := Some(state)))
  {
  }

  /** `enabled: !!endpoint && !!token`. */
  predicate Enabled(endpoint: string, token: Option<string>) {
    endpoint != "" && ApiConfig.TokenPresent(token)
  }

  /** `URLSearchParams` text of already-safe pairs: `key=value` joined by "&". */
  function QueryString(params: seq<(string, string)>): string {
    if params == [] then ""
    else if |params| == 1 then params[0].0 + "=" + params[0].1
    else params[0].0 + "=" + params[0].1 + "&" + QueryString(params[1..])
  }

  /** The query text of a listing request: empty without a table state. */
  function PageQuery(options: FetchOptions): string {
    if options.tableState.None? then ""
    else "page=" + Text.IntToDecimal(options.tableState.value.page) + "&pageSize=" + Text.IntToDecimal(PageSize(options))
  }

  lemma QueryStringOfPage(page: string, size: string)
    ensures QueryString([("page", page), ("pageSize", size)]) == "page=" + page + "&pageSize=" + size
  {
    var params := [("page", page), ("pageSize", size)];
    assert params[1..] == [("pageSize", size)];
  }

  lemma ReadsBack(n: int)
    ensures Text.ParseInt(Text.IntToDecimal(n)) == Some(n)
  {
    Text.ParseIntDecimal(n, []);
    assert Text.IntToDecimal(n) + [] == Text.IntToDecimal(n);
  }

  /** The search parameters: `page` and `pageSize` are appended only when a table
      state is given, and each reads back (with `parseInt`) as the number it came from. */
  method SearchParams(options: FetchOptions) returns (params: seq<(string, string)>)
    ensures options.tableState.None? ==> params == []
    ensures options.tableState.Some? ==>
      params == [("page", Text.IntToDecimal(options.tableState.value.page)), ("pageSize", Text.IntToDecimal(PageSize(options)))]
    ensures options.tableState.Some? ==>
      Text.ParseInt(params[0].1) == Some(options.tableState.value.page) &&
      Text.ParseInt(params[1].1) == Some(PageSize(options))
  {
    params := [];
    if options.tableState.Some? {
      var page := Text.IntToDecimal(options.tableState.value.page);
      var size := Text.IntToDecimal(PageSize(options));
      ReadsBack(options.tableState.value.page);
      ReadsBack(PageSize(options));
      params := params + [("page", page)];
      params := params + [("pageSize", size)];
    }
  }

  /** The first truthy of `result.user`, `result.subject`, `result.task`, else `result`. */
  function SingleRecord(result: Json.Value): (r: Json.Value)
    ensures r == result || (Json.Truthy(r) && r in [Json.Get(result, "user"), Json.Get(result, "subject"), Json.Get(result, "task")])
    ensures Json.Truthy(Json.Get(result, "user")) ==> r == Json.Get(result, "user")
    ensures !Json.Truthy(Json.Get(result, "user")) && Json.Truthy(Json.Get(result, "subject")) ==> r == Json.Get(result, "subject")
    ensures !Json.Truthy(Json.Get(result, "user")) && !Json.Truthy(Json.Get(result, "subject")) && Json.Truthy(Json.Get(result, "task")) ==>
      r == Json.Get(result, "task")
    ensures !Json.Truthy(Json.Get(result, "user")) && !Json.Truthy(Json.Get(result, "subject")) && !Json.Truthy(Json.Get(result, "task")) ==>
      r == result
  {
    var user, subject, task := Json.Get(result, "user"), Json.Get(result, "subject"), Json.Get(result, "task");
    if Json.Truthy(user) then user
    else if Json.Truthy(subject) then subject
    else if Json.Truthy(task) then task
    else result
  }

  /** The response envelope: a truthy `records` gives the rows and the pagination
      fields; anything else is a single record with no pagination. Reading
      `records` of a `null` body throws. */
  function Normalize(result: Json.Value): (r: Result<Fetched, Http.Failure>)
    ensures r.Err? <==> result.JNull? || result.JUndefined?
    ensures r.Err? ==> r.error == Http.NullAccess("records")
    ensures r.Ok? ==> (r.value.pagination.Some? <==> Json.Truthy(Json.Get(result, "records")))
    ensures r.Ok? && Json.Truthy(Json.Get(result, "records")) ==>
      && r.value.data == Json.Get(result, "records")
      && r.value.pagination.value == Pagination(
           Json.Get(result, "current_page"), Json.Get(result, "last_page"),
           Json.Get(result, "page_size"), Json.Get(result, "total_count"))
    ensures r.Ok? && !Json.Truthy(Json.Get(result, "records")) ==> r.value.data == SingleRecord(result)
  {
    if result.JNull? || result.JUndefined? then Err(Http.NullAccess("records"))
    else
      var records := Json.Get(result, "records");
      if Json.Truthy(records) then
        Ok(Fetched(records, Some(Pagination(
          Json.Get(result, "current_page"), Json.Get(result, "last_page"),
          Json.Get(result, "page_size"), Json.Get(result, "total_count")))))
      else
        Ok(Fetched(SingleRecord(result), None))
  }

  /** The request of the query function, sent once a truthy token is known: one
      GET to the endpoint with the page parameters and the bearer and JSON headers. */
  method BuildRequest(baseUrl: string, endpoint: string, options: FetchOptions, token: Option<string>)
    returns (request: Http.Request)
    requires ApiConfig.TokenPresent(token)
    ensures request.verb == "GET" && request.body == Http.NoBody
    ensures request.url == baseUrl + endpoint + "?" + PageQuery(options)
    ensures Objects.Find(request.headers, "Authorization") == Some("Bearer " + token.value)
    ensures Objects.Find(request.headers, "Content-Type") == Some("application/json")
  {
    var params := SearchParams(options);
    var headers := ApiConfig.CreateHeaders(token, false);
    var query := QueryString(params);
    if options.tableState.Some? {
      QueryStringOfPage(Text.IntToDecimal(options.tableState.value.page), Text.IntToDecimal(PageSize(options)));
    }
    request := Http.Request("GET", baseUrl + endpoint + "?" + query, headers, Http.NoBody);
  }

  /** The query function. Without a truthy token it throws before any request;
      otherwise it sends the request above, fails on a non-OK status or a body
      that is not JSON, and normalises the envelope. */
  method QueryFn(baseUrl: string, endpoint: string, options: FetchOptions, token: Option<string>, response: Http.Response)
    returns (request: Option<Http.Request>, outcome: Result<Fetched, Http.Failure>)
    ensures !ApiConfig.TokenPresent(token) ==> request.None? && outcome == Err(Http.Thrown(Http.NoTokenError))
    ensures ApiConfig.TokenPresent(token) ==> request.Some? && request.value.verb == "GET" && request.value.body == Http.NoBody
    ensures request.Some? ==>
      && request.value.url == baseUrl + endpoint + "?" + PageQuery(options)
      && Objects.Find(request.value.headers, "Authorization") == Some("Bearer " + token.value)
      && Objects.Find(request.value.headers, "Content-Type") == Some("application/json")
    ensures request.Some? && !Http.IsOk(response) ==> outcome == Err(Http.Thrown(Http.StatusError(response.status)))
    ensures request.Some? && Http.IsOk(response) && response.json.None? ==> outcome == Err(Http.UnparsableJson)
    ensures request.Some? && Http.IsOk(response) && response.json.Some? ==> outcome == Normalize(response.json.value)
  {
    if !ApiConfig.TokenPresent(token) {
      return None, Err(Http.Thrown(Http.NoTokenError));
    }
    var sent := BuildRequest(baseUrl, endpoint, options, token);
    request := Some(sent);
    if !Http.IsOk(response) {
      return request, Err(Http.Thrown(Http.StatusError(response.status)));
    }
    match response.json {
      case None => outcome := Err(Http.UnparsableJson);
      case Some(result) => outcome := Normalize(result);
    }
  }

  /** The query as the hook runs it: only when it is enabled, that is with a
      non-empty endpoint and a truthy token. A disabled query sends nothing and
      has no result (`None`); an enabled one always sends its request, so its
      "no token" error can never be seen. */
  method RunQuery(baseUrl: string, endpoint: string, options: FetchOptions, token: Option<string>, response: Http.Response)
    returns (request: Option<Http.Request>, outcome: Option<Result<Fetched, Http.Failure>>)
    ensures outcome.None? <==> !Enabled(endpoint, token)
    ensures request.Some? <==> Enabled(endpoint, token)
    ensures request.Some? ==>
      && request.value.verb == "GET"
      && request.value.url == baseUrl + endpoint + "?" + PageQuery(options)
      && Objects.Find(request.value.headers, "Authorization") == Some("Bearer " + token.value)
    ensures outcome.Some? ==> outcome.value != Err(Http.Thrown(Http.NoTokenError))
    ensures outcome.Some? && Http.IsOk(response) && response.json.Some? ==> outcome.value == Normalize(response.json.value)
  {
    if !Enabled(endpoint, token) {
      return None, None;
    }
    var result;
    request, result := QueryFn(baseUrl, endpoint, options, token, response);
    assert Http.StatusError(response.status)[0] != Http.NoTokenError[0];
    outcome := Some(result);
  }

  /** The object the query function resolves to: `{ data, pagination }`, with
      `pagination: null` when the response holds a single record. */
  function Envelope(f: Fetched): (v: Json.Value)
    ensures v.JObj? && Json.Get(v, "data") == f.data
    ensures f.pagination.None? <==> Json.Get(v, "pagination") == Json.JNull
    ensures f.pagination.Some? ==> Json.Get(Json.Get(v, "pagination"), "total_count") == f.pagination.value.totalCount
  {
    var pagination := match f.pagination
      case None => Json.JNull
      case Some(p) =>
        var fields := [("current_page", p.currentPage), ("last_page", p.lastPage),
                       ("page_size", p.pageSize), ("total_count", p.totalCount)];
        assert Objects.Find(fields[3..], "total_count") == Some(p.totalCount);
        assert Objects.Find(fields[2..], "total_count") == Some(p.totalCount);
        assert Objects.Find(fields[1..], "total_count") == Some(p.totalCount);
        Json.JObj(fields);
    var fields := [("data", f.data), ("pagination", pagination)];
    assert Objects.Find(fields[1..], "pagination") == Some(pagination);
    Json.JObj(fields)
  }

  /** What the table provider takes from the query: its page data and
      `pagination?.total_count` (`None` when `pagination` is missing). */
  datatype TableFeed = TableFeed(pageData: Json.Value, totalCount: Option<Json.Value>)

  /** The hand-off as written: the provider destructures `data` and
      `pagination` from the query result itself. Its `data` is the whole
      envelope, and the query result has no `pagination` field. */
  function FeedAsWritten(f: Fetched): TableFeed {
    TableFeed(Envelope(f), None)
  }

  /** The hand-off as intended: the page data and the total are read from the
      envelope's own `data` and `pagination` fields. */
  function Feed(f: Fetched): (feed: TableFeed)
    ensures feed.pageData == Json.Get(Envelope(f), "data")
    ensures Json.Get(Envelope(f), "pagination") == Json.JNull ==> feed.totalCount.None?
    ensures feed.totalCount.Some? ==> feed.totalCount.value == Json.Get(Json.Get(Envelope(f), "pagination"), "total_count")
  {
    TableFeed(f.data, if f.pagination.Some? then Some(f.pagination.value.totalCount) else None)
  }

  /** As written, the table shows no rows and a total of 0 for every response
      the query function accepts, whatever the rules. */
  lemma TableShowsNothingAsWritten(result: Json.Value, state: TableContext.TableState)
    requires Normalize(result).Ok?
    ensures var feed := FeedAsWritten(Normalize(result).value);
      TableContext.Process(feed.pageData, state) == [] && TableContext.TotalRecords(feed.totalCount) == Json.JNum(0)
  {
  }

  /** A list response with records: the intended hand-off shows them, the
      hand-off as written shows none. */
  lemma ListResponseLostAsWritten(result: Json.Value, items: seq<Json.Value>, page: int)
    requires result.JObj? && Json.Get(result, "records") == Json.JArr(items) && |items| > 0
    ensures Normalize(result).Ok?
    ensures TableContext.Process(FeedAsWritten(Normalize(result).value).pageData, TableContext.TableState(page, [], [])) == []
    ensures TableContext.Process(Feed(Normalize(result).value).pageData, TableContext.TableState(page, [], [])) == items
  {
  }

  /** Through the intended hand-off, a list response gives the table its
      `total_count`; a single-record response gives a total of 0. */
  lemma TotalRecordsOfResponse(result: Json.Value)
    requires Normalize(result).Ok?
    ensures TableContext.TotalRecords(Feed(Normalize(result).value).totalCount)
      == if Json.Truthy(Json.Get(result, "records")) && Json.Truthy(Json.Get(result, "total_count"))
         then Json.Get(result, "total_count") else Json.JNum(0)
  {
  }

  /** Through the intended hand-off, a list response gives the table its
      `records`, even an empty array (which is truthy): with no rules the table
      shows exactly those rows. */
  lemma ListResponseRows(result: Json.Value, items: seq<Json.Value>, page: int)
    requires result.JObj? && Json.Get(result, "records") == Json.JArr(items)
    ensures Normalize(result).Ok? && Normalize(result).value.pagination.Some?
    ensures TableContext.Process(Feed(Normalize(result).value).pageData, TableContext.TableState(page, [], [])) == items
  {
  }

  /** Through the intended hand-off, a response that carries one record in
      `user`, `subject` or `task` (an object, not an array) leaves the table
      with no rows. */
  lemma SingleRecordShowsNoRows(result: Json.Value, state: TableContext.TableState)
    requires result.JObj? && !Json.Truthy(Json.Get(result, "records"))
    requires !Json.Get(result, "user").JArr? && !Json.Get(result, "subject").JArr? && !Json.Get(result, "task").JArr?
    ensures Normalize(result).Ok? && TableContext.Process(Feed(Normalize(result).value).pageData, state) == []
  {
  }
}
