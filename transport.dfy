/**
 * The Tempo transport layer: requests, replies, the `next` cursor and the
 * checked call (`_checked_get` / `_checked_post`). The HTTP session itself is
 * not modelled: the reply to the k-th request a function sends is given as
 * `replies[k](request)`.
 */
module Transport {
  import opened Outcomes

  /** `_base_url`. */
  const BaseUrl: string := "https://api.eu.tempo.io/4"

  datatype Verb = Get | Post

  /** The query parameters (GET) or JSON body (POST) sent with a request. */
  datatype Payload =
    | NoPayload
    | OffsetLimit(offset: int, limit: int)            // {"offset": .., "limit": ..}
    | UpdatedFrom(updatedFrom: string, limit: int)    // {"updatedFrom": .., "limit": ..}
    | TempoWorklogIds(tempoIds: seq<int>)             // {"tempoWorklogIds": [..]}
    | JiraWorklogIds(jiraIds: seq<int>)               // {"jiraWorklogIds": [..]}
    | FromDate(from: string)                          // {"from": ..}

  /** A request: the endpoint is the path appended to `BaseUrl`. */
  datatype Request = Request(verb: Verb, endpoint: string, payload: Payload)

  /** What the session hands back: no response object, or a status with a body that decodes as JSON (`Some`) or not. */
  datatype Reply<+B> = NoReply | Reply(status: int, body: Option<B>)

  /** The `next` key of a page's metadata: absent, JSON null, or a URL. */
  datatype Next = Absent | Null | Url(url: string)

  datatype Metadata = Metadata(next: Next)

  /** `url[len(_base_url):]` with Python's slicing: too short a URL gives the empty string. */
  function Strip(url: string): (path: string)
    ensures |url| <= |BaseUrl| ==> path == ""
    ensures |url| > |BaseUrl| ==> url == url[..|BaseUrl|] + path
  {
    if |url| <= |BaseUrl| then "" else url[|BaseUrl|..]
  }

  /** Stripping drops exactly as many characters as `BaseUrl` has, whatever they are. */
  lemma StripIgnoresHost(host: string, path: string)
    requires |host| == |BaseUrl|
    ensures Strip(host + path) == path
  {
  }

  /** `_parse_next`: the relative path of the next page, or None. */
  function ParseNext(metadata: Metadata): (next: Option<string>)
    ensures next.None? <==> !metadata.next.Url?
    ensures next.Some? ==> next.value == Strip(metadata.next.url)
  {
    match metadata.next
    case Url(url) => Some(Strip(url))
    case _ => None
  }

  /** The path `_parse_next` returns is the one `_raw_get` appends to `_base_url`. */
  lemma ParseNextRoundTrip(path: string)
    ensures ParseNext(Metadata(Url(BaseUrl + path))) == Some(path)
  {
    StripIgnoresHost(BaseUrl, path);
  }

  predicate IsSuccess(status: int) {
    200 <= status < 300
  }

  /**
   * `_checked_get` / `_checked_post` for the k-th request of a function:
   * the endpoint must be non-empty, then the reply is checked. The full case
   * split is `CheckedCallCases`.
   */
  function CheckedCall<B>(req: Request, replies: seq<Request -> Reply<B>>, k: nat): (r: Outcome<B>)
    ensures r.Done? ==> req.endpoint != "" && k < |replies|
  {
    if req.endpoint == "" then Raised(EmptyEndpoint)
    else if k >= |replies| then Raised(RepliesExhausted)
    else match replies[k](req)
      case NoReply => Raised(NoResponse(req.endpoint))
      case Reply(status, body) =>
        if status < 200 || status >= 300 then Raised(BadStatus(req.endpoint, status))
        else if body.None? then Raised(InvalidJson(req.endpoint))
        else Done(body.value)
  }

  /**
   * A checked call returns the decoded body exactly when the endpoint is
   * non-empty and the reply is a 2xx status with a JSON body; otherwise it
   * raises the matching exception.
   */
  lemma CheckedCallCases<B>(req: Request, replies: seq<Request -> Reply<B>>, k: nat)
    ensures CheckedCall(req, replies, k).Done? <==>
      && req.endpoint != ""
      && k < |replies|
      && replies[k](req).Reply?
      && IsSuccess(replies[k](req).status)
      && replies[k](req).body.Some?
    ensures CheckedCall(req, replies, k).Done? ==> CheckedCall(req, replies, k).value == replies[k](req).body.value
    ensures req.endpoint == "" ==> CheckedCall(req, replies, k) == Raised(EmptyEndpoint)
    ensures req.endpoint != "" && k < |replies| ==>
      match replies[k](req)
      case NoReply => CheckedCall(req, replies, k) == Raised(NoResponse(req.endpoint))
      case Reply(status, body) =>
        if !IsSuccess(status) then CheckedCall(req, replies, k) == Raised(BadStatus(req.endpoint, status))
        else if body.None? then CheckedCall(req, replies, k) == Raised(InvalidJson(req.endpoint))
        else CheckedCall(req, replies, k) == Done(body.value)
  {
  }

  /** The parameter names of `_checked_get(endpoint, data=None)`. */
  const CheckedGetParameters: seq<string> := ["endpoint", "data"]

  /**
   * `_checked_get(endpoint, <keyword>=payload)` as Python binds it: the
   * payload reaches the body only through the `data` parameter; a keyword the
   * function does not declare raises TypeError before anything is sent (and
   * `endpoint=` given twice is a TypeError too).
   */
  function CheckedGetWithKeyword<B>(req: Request, keyword: string, replies: seq<Request -> Reply<B>>, k: nat): (r: Outcome<B>)
    ensures keyword !in CheckedGetParameters ==> r == Raised(UnexpectedKeyword(keyword))
    ensures keyword == "endpoint" ==> r.Raised?
    ensures keyword == "data" ==> r == CheckedCall(req, replies, k)
  {
    if keyword == "data" then CheckedCall(req, replies, k) else Raised(UnexpectedKeyword(keyword))
  }

  /** Passing the query as `params=` raises whatever the server would answer: no request is sent. */
  lemma ParamsKeywordRaises<B>(req: Request, replies: seq<Request -> Reply<B>>, k: nat)
    ensures CheckedGetWithKeyword(req, "params", replies, k) == Raised(UnexpectedKeyword("params"))
    ensures forall other: seq<Request -> Reply<B>> :: CheckedGetWithKeyword(req, "params", other, k) == CheckedGetWithKeyword(req, "params", replies, k)
  {
  }
}
