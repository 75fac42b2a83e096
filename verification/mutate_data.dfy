/**
 * The write path: the request a mutation sends, the error it surfaces for a
 * failed response, and the listing whose cached pages it invalidates on success.
 */
module MutateData {
  import opened Wrappers
  import Json
  import Text
  import Objects
  import Http
  import ApiConfig
  import TableContext
  import FetchData

  /** A mutation body: a `FormData` object, or any other value (`undefined` when omitted). */
  datatype Payload = Form(id: nat) | Data(value: Json.Value)

  /** The `{ endpoint, method, body }` that the mutation function destructures. */
  datatype Variables = Variables(endpoint: Json.Value, verb: Json.Value, body: Payload)

  /** Destructuring `{ endpoint, method, body }` out of whatever value the caller passed. */
  function Destructure(arg: Json.Value): (v: Variables)
    ensures !arg.JObj? ==> v == Variables(Json.JUndefined, Json.JUndefined, Data(Json.JUndefined))
  {
    Variables(Json.Get(arg, "endpoint"), Json.Get(arg, "method"), Data(Json.Get(arg, "body")))
  }

  /** The method `fetch` uses: the given one, `GET` when it is `undefined`. */
  function Verb(verb: Json.Value): string {
    if verb.JUndefined? then "GET" else Json.ToJsString(verb)
  }

  /** The error thrown for a non-OK response: the body's truthy `message`; else,
      when the body is not JSON, "Request failed with status N"; else
      "HTTP error! status: N". A `null` body throws on reading `message`. */
  function ErrorFailure(status: int, json: Option<Json.Value>): Http.Failure {
    var fallback := Json.JObj([("message", Json.JStr("Request failed with status " + Text.IntToDecimal(status)))]);
    var errorData := json.GetOr(fallback);
    if errorData.JNull? || errorData.JUndefined? then Http.NullAccess("message")
    else
      var message := Json.Get(errorData, "message");
      Http.Thrown(if Json.Truthy(message) then Json.ToJsString(message) else Http.StatusError(status))
  }

  /** The three messages a failed mutation can surface. */
  lemma ErrorMessages(status: int, json: Option<Json.Value>)
    ensures json.None? ==> ErrorFailure(status, json) == Http.Thrown("Request failed with status " + Text.IntToDecimal(status))
    ensures json.Some? && json.value.JObj? && Json.Get(json.value, "message").JStr? && Json.Get(json.value, "message").s != "" ==>
      ErrorFailure(status, json) == Http.Thrown(Json.Get(json.value, "message").s)
    ensures json.Some? && json.value.JObj? && !Json.Truthy(Json.Get(json.value, "message")) ==>
      ErrorFailure(status, json) == Http.Thrown(Http.StatusError(status))
    ensures json == Some(Json.JNull) ==> ErrorFailure(status, json) == Http.NullAccess("message")
  {
    if json.None? {
      var text := "Request failed with status " + Text.IntToDecimal(status);
      assert Objects.Find([("message", Json.JStr(text))], "message") == Some(Json.JStr(text));
      assert Json.Truthy(Json.JStr(text)) by { assert |text| > 0; }
    }
  }

  /** The mutation function. Without a truthy token it throws before any request;
      otherwise it sends one request to the endpoint with the given method
      (`GET` when none), a `FormData` body as is with no JSON content type, any
      other truthy body as JSON, and no body for a falsy one. */
  method MutationFn(baseUrl: string, vars: Variables, token: Option<string>, response: Http.Response)
    returns (request: Option<Http.Request>, outcome: Result<Json.Value, Http.Failure>)
    ensures !ApiConfig.TokenPresent(token) ==> request.None? && outcome == Err(Http.Thrown(Http.NoTokenError))
    ensures ApiConfig.TokenPresent(token) ==> request.Some?
    ensures request.Some? ==>
      && request.value.verb == Verb(vars.verb)
      && request.value.url == baseUrl + Json.ToJsString(vars.endpoint)
      && Objects.Find(request.value.headers, "Authorization") == Some("Bearer " + token.value)
      && Objects.Find(request.value.headers, "Content-Type") == (if vars.body.Form? then None else Some("application/json"))
    ensures request.Some? && vars.body.Form? ==> request.value.body == Http.FormBody(vars.body.id)
    ensures request.Some? && vars.body.Data? ==>
      request.value.body == if Json.Truthy(vars.body.value) then Http.JsonText(vars.body.value) else Http.NoBody
    ensures request.Some? && !Http.IsOk(response) ==> outcome == Err(ErrorFailure(response.status, response.json))
    ensures request.Some? && Http.IsOk(response) ==>
      outcome == if response.json.Some? then Ok(response.json.value) else Err(Http.UnparsableJson)
  {
    if !ApiConfig.TokenPresent(token) {
      return None, Err(Http.Thrown(Http.NoTokenError));
    }
    var isFormData := vars.body.Form?;
    var headers := ApiConfig.CreateHeaders(token, isFormData);
    var body: Http.RequestBody;
    match vars.body {
      case Form(id) => body := Http.FormBody(id);
      case Data(v) => body := if Json.Truthy(v) then Http.JsonText(v) else Http.NoBody;
    }
    request := Some(Http.Request(Verb(vars.verb), baseUrl + Json.ToJsString(vars.endpoint), headers, body));
    if !Http.IsOk(response) {
      return request, Err(ErrorFailure(response.status, response.json));
    }
    outcome := if response.json.Some? then Ok(response.json.value) else Err(Http.UnparsableJson);
  }

  /** `endpoint.split('/')[2]`: `None` (undefined) when there are fewer than three pieces. */
  function ResourceType(endpoint: string): (r: Option<string>)
    ensures r.Some? ==> '/' !in r.value
  {
    var parts := Text.Split(endpoint, '/');
    if |parts| > 2 then Some(parts[2]) else None
  }

  /** The key prefix invalidated after a successful mutation, if any:
      `['data', '/admin/' + resourceType]` when the resource type is non-empty. */
  function Invalidation(endpoint: string): (r: Option<seq<Json.Value>>)
    ensures r.Some? <==> ResourceType(endpoint).Some? && ResourceType(endpoint).value != ""
  {
    match ResourceType(endpoint)
    case Some(t) => if t != "" then Some([Json.JStr("data"), Json.JStr("/admin/" + t)]) else None
    case None => None
  }

  /** The resource type is the segment after the second slash: "/admin/users/5/role" gives "users". */
  lemma ResourceTypeOfPath(a: string, t: string, rest: string)
    requires '/' !in a && '/' !in t
    requires rest == [] || rest[0] == '/'
    ensures ResourceType("/" + a + "/" + t + rest) == Some(t)
  {
    var s := "/" + a + "/" + t + rest;
    assert s == [] + ['/'] + (a + ['/'] + (t + rest));
    Text.SplitAtSeparator([], a + ['/'] + (t + rest), '/');
    Text.SplitAtSeparator(a, t + rest, '/');
    if rest == [] {
      assert t + rest == t;
      Text.SplitWithoutSeparator(t, '/');
    } else {
      assert t + rest == t + ['/'] + rest[1..];
      Text.SplitAtSeparator(t, rest[1..], '/');
    }
  }

  /** Deleting or editing a row of a listing invalidates exactly that listing's
      cached pages: the invalidated key is the first half of every query key of
      the listing's endpoint. */
  lemma InvalidatesOwnListing(table: TableContext.EntityType, id: string, options: FetchData.FetchOptions)
    requires '/' !in id
    ensures Invalidation(TableContext.Endpoint(table) + "/" + id) == Some(FetchData.QueryKey(TableContext.Endpoint(table), options)[..2])
  {
    var name := TableContext.Name(table);
    assert '/' !in name;
    assert TableContext.Endpoint(table) + "/" + id == "/" + "admin" + "/" + name + ("/" + id);
    ResourceTypeOfPath("admin", name, "/" + id);
  }

  /** The delete button calls `mutate(endpoint, 'DELETE')`, passing the endpoint
      string where the mutation expects its variables object: destructuring a
      string finds neither `endpoint` nor `method`, so the request is a GET to
      the base URL followed by "undefined". */
  lemma DeleteCallAsWritten(endpoint: string)
    ensures Destructure(Json.JStr(endpoint)) == Variables(Json.JUndefined, Json.JUndefined, Data(Json.JUndefined))
    ensures Verb(Destructure(Json.JStr(endpoint)).verb) == "GET"
    ensures Json.ToJsString(Destructure(Json.JStr(endpoint)).endpoint) == "undefined"
  {
  }

  /** The variables the delete button means to send: `{ endpoint, method: 'DELETE' }`. */
  function DeleteVariables(endpoint: string): (v: Variables)
    ensures Verb(v.verb) == "DELETE" && Json.ToJsString(v.endpoint) == endpoint
  {
    Variables(Json.JStr(endpoint), Json.JStr("DELETE"), Data(Json.JUndefined))
  }
}
