/**
 * Requests the dashboard sends and the responses it reads. A response is an
 * input: its status and the JSON its body parses to (`None` when
 * `response.json()` rejects). Failures are the errors a request step throws.
 */
module Http {
  import opened Wrappers
  import Json
  import Text

  /** What `fetch` is given as `body`. */
  datatype RequestBody =
    | NoBody
    | FormBody(form: nat)
    | JsonText(value: Json.Value)

  datatype Request = Request(verb: string, url: string, headers: seq<(string, string)>, body: RequestBody)

  datatype Response = Response(status: int, json: Option<Json.Value>)

  /** `response.ok`: a status in the range 200 to 299. */
  predicate IsOk(r: Response) {
    200 <= r.status <= 299
  }

  datatype Failure =
    | Thrown(message: string)        // `throw new Error(message)`
    | UnparsableJson                 // `response.json()` rejected
    | NullAccess(property: string)   // a property read on `null` or `undefined`

  const NoTokenError := "No authentication token found."

  /** `HTTP error! status: ${status}`. */
  function StatusError(status: int): string {
    "HTTP error! status: " + Text.IntToDecimal(status)
  }
}
