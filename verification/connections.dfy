/** The list fetch shared by the pages (src/api/connections.ts): a GET of
    `<api>/api/v1/<kind>/list` with the stored token, and the classification
    of what comes back. The fetch, the stored token and the router are the
    caller's world; they are parameters here. */
module Connections {
  import opened Js
  import opened Text

  const ListPrefix := "/api/v1/"
  const ListSuffix := "/list"
  const LoginPath := "/login"

  /** The request the fetch sends. */
  datatype Request = Request(url: string, authorization: string)

  /** `Bearer ${token}`: a missing token is written as "null". */
  function Authorization(token: Option<string>): (r: string)
    ensures |r| >= 7 && r[..7] == "Bearer "
    ensures token.Some? ==> r[7..] == token.value
    ensures token.None? ==> r[7..] == "null"
  {
    "Bearer " + match token
      case Some(t) => t
      case None => "null"
  }

  function ListRequest(api: string, kind: string, token: Option<string>): Request {
    Request(api + ListPrefix + kind + ListSuffix, Authorization(token))
  }

  /** Which kind a list URL asks for, read back from the URL. */
  function RequestedKind(api: string, url: string): (r: Option<string>)
    ensures r.Some? ==> url == api + ListPrefix + r.value + ListSuffix
  {
    Between(url, api + ListPrefix, ListSuffix)
  }

  /** The URL names the kind asked for, and the header carries the token. */
  lemma ListRequestNamesKind(api: string, kind: string, token: Option<string>)
    ensures RequestedKind(api, ListRequest(api, kind, token).url) == Some(kind)
    ensures token.Some? ==> ListRequest(api, kind, token).authorization == "Bearer " + token.value
  {
    BetweenOfJoin(api + ListPrefix, kind, ListSuffix);
    assert api + ListPrefix + kind + ListSuffix == (api + ListPrefix) + kind + ListSuffix;
  }

  /** What the fetch gives back: a rejected fetch, or a response with its
      status and its body read as JSON (`None` when the body is not JSON, so
      that reading it throws). */
  datatype Response<T> = Failed | Answered(status: int, body: Option<Value<T>>)

  predicate Unauthorized<T>(response: Response<T>) {
    response.Answered? && response.status == 401
  }

  /** The body passes when it is truthy, its `success` is truthy and its
      `kind` entry is truthy. */
  predicate Accepted<T>(body: Value<T>, kind: string) {
    Truthy(body) && Truthy(Get(body, "success")) && Truthy(Get(body, kind))
  }

  /** The result, the stored token afterwards, and where the router was sent
      (`None` when it was not). */
  datatype Outcome<T> = Outcome(result: Value<T>, token: Option<string>, navigation: Option<string>)

  /** `getByType(kind, navigate)`. `hasNavigate` says whether the caller
      passed a router; without one, calling it throws after the token has
      been removed, and the throw ends in the same empty result. */
  function GetByType<T>(kind: string, hasNavigate: bool, token: Option<string>, response: Response<T>): (r: Outcome<T>)
    ensures r.token == (if Unauthorized(response) then None else token)
    ensures r.navigation.Some? <==> hasNavigate && Unauthorized(response)
    ensures r.navigation.Some? ==> r.navigation.value == LoginPath
    ensures r.result != List([]) ==>
      && response.Answered? && !Unauthorized(response) && response.body.Some?
      && Accepted(response.body.value, kind) && r.result == Get(response.body.value, kind)
    ensures response.Answered? && !Unauthorized(response) && response.body.Some? && Accepted(response.body.value, kind) ==>
      r.result == Get(response.body.value, kind)
  {
    match response
    case Failed => Outcome(List([]), token, None)
    case Answered(status, body) =>
      if status == 401 then
        Outcome(List([]), None, if hasNavigate then Some(LoginPath) else None)
      else if body.None? then Outcome(List([]), token, None)
      else if !Accepted(body.value, kind) then Outcome(List([]), token, None)
      else Outcome(Get(body.value, kind), token, None)
  }

  /** The result is never a failure signal: every path that goes wrong gives
      the empty list, so a caller cannot tell a failure from an empty answer. */
  lemma FailureLooksEmpty<T>(kind: string, hasNavigate: bool, token: Option<string>)
    ensures GetByType<T>(kind, hasNavigate, token, Failed).result == List([])
    ensures GetByType<T>(kind, hasNavigate, token, Answered(200, Some(Obj(map["success" := Bool(true), kind := List([])])))).result == List([])
  {
  }

  /** A 401 without a router still loses the token, exactly as with one. */
  lemma UnauthorizedWithoutRouter<T>(kind: string, token: Option<string>, body: Option<Value<T>>)
    ensures GetByType(kind, false, token, Answered(401, body)) == GetByType(kind, true, token, Answered(401, body)).(navigation := None)
    ensures GetByType(kind, false, token, Answered(401, body)).token == None
  {
  }

  /** The stored token after a run of fetches, one per response. */
  function TokenAfter<T>(kind: string, token: Option<string>, responses: seq<Response<T>>): (r: Option<string>)
    ensures r == token || r == None
    ensures r == None <==> token == None || exists i :: 0 <= i < |responses| && Unauthorized(responses[i])
    decreases |responses|
  {
    if responses == [] then token
    else
      var rest := TokenAfter(kind, GetByType(kind, true, token, responses[0]).token, responses[1..]);
      assert forall i :: 1 <= i < |responses| ==> responses[i] == responses[1..][i - 1];
      assert forall i :: 0 <= i < |responses| - 1 ==> responses[1..][i] == responses[i + 1];
      rest
  }

  /** Once a 401 has been seen the token is gone for good: every later
      request is sent with "Bearer null". */
  lemma LoggedOutStaysOut<T>(api: string, kind: string, token: Option<string>, before: seq<Response<T>>, after: seq<Response<T>>)
    requires exists i :: 0 <= i < |before| && Unauthorized(before[i])
    ensures TokenAfter(kind, token, before + after) == None
    ensures ListRequest(api, kind, TokenAfter(kind, token, before + after)).authorization == "Bearer null"
  {
    var i :| 0 <= i < |before| && Unauthorized(before[i]);
    assert (before + after)[i] == before[i];
  }
}
