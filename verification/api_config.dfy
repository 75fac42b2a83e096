/** The request headers every call to the API carries. */
module ApiConfig {
  import opened Wrappers
  import Objects

  /** A token is truthy when it is present and not empty. */
  predicate TokenPresent(token: Option<string>) {
    token.Some? && token.value != ""
  }

  /** `createHeaders(token, isFormData)`: an `Authorization` bearer header when the
      token is truthy, `Content-Type: application/json` unless the body is form
      data, and nothing else. Callers that omit `isFormData` pass `false`. */
  method CreateHeaders(token: Option<string>, isFormData: bool) returns (headers: seq<(string, string)>)
    ensures Objects.Find(headers, "Authorization") == if TokenPresent(token) then Some("Bearer " + token.value) else None
    ensures Objects.Find(headers, "Content-Type") == if isFormData then None else Some("application/json")
    ensures forall i :: 0 <= i < |headers| ==> headers[i].0 == "Authorization" || headers[i].0 == "Content-Type"
    ensures Objects.DistinctKeys(headers)
  {
    headers := [];
    if TokenPresent(token) {
      Objects.FindPut(headers, "Authorization", "Bearer " + token.value, "Content-Type");
      headers := Objects.Put(headers, "Authorization", "Bearer " + token.value);
    }
    if !isFormData {
      Objects.FindPut(headers, "Content-Type", "application/json", "Authorization");
      Objects.PutDistinct(headers, "Content-Type", "application/json");
      headers := Objects.Put(headers, "Content-Type", "application/json");
    }
  }
}
