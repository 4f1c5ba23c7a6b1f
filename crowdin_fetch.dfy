/**
 * The older, stand-alone fetch helper (lib/crowdin-fetch.js). It builds the
 * same POST request as the API client's `_crowdinFetch`, but takes the
 * project identifier and key from the values lib/config.js loads.
 */
module CrowdinFetch {
  import opened CrowdinApi

  /**
   * `crowdinFetch(apiMethod, rawParams, isJsonResponse)`: a POST to the
   * method's URL whose body is the key, an empty `json` field and the
   * parameters' fields, read as JSON unless `isJsonResponse` is false.
   */
  method CrowdinFetch(projectIdentifier: string, projectKey: string, apiMethod: string,
                      rawParams: seq<Param>, isJsonResponse: bool, response: HttpResponse)
    returns (http: HttpRequest, result: FetchResult)
    ensures http.verb == "POST"
    ensures http.url == Url(projectIdentifier, apiMethod)
    ensures http.body == Form(projectKey, rawParams)
    ensures result.RawResponse? <==> !isJsonResponse
    ensures result == Resolve(isJsonResponse, response)
  {
    var body := BuildForm(projectKey, rawParams);
    http := HttpRequest("POST", Url(projectIdentifier, apiMethod), body);
    result := if isJsonResponse then JsonBody(response.body) else RawResponse(response);
  }
}
