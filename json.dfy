/**
 * Decoded JSON values and the outcome of one HTTP request, as the ArcGIS REST
 * client sees them after `requests.get(...)`, `raise_for_status()` and
 * `response.json()`. The transport and the decoder themselves are not modelled.
 */
module Json {

  /** A Python value produced by `json.loads`; numbers are integers here. */
  datatype Json =
    | JNull
    | JBool(b: bool)
    | JNumber(n: int)
    | JString(s: string)
    | JArray(items: seq<Json>)
    | JObject(fields: map<string, Json>)

  /**
   * One request: either the decoded body (a JSON object) or the
   * `requests.RequestException` it raised, given by its message `str(e)`.
   */
  datatype Response =
    | Fetched(data: map<string, Json>)
    | RequestError(message: string)

}
