/** The first chatbot handler's request and response shapes: the two query
    fields read from the request body and the API Gateway response. Its
    re-ranking and context formatting are the ones of `ResponseBuilder`. */
module DataProcessor {
  import opened Wrappers
  import J = Json

  /** The default of a missing `query1`. */
  const NoUserInfo: string := "제공된 정보 없음"
  const MissingQuery2: string := "query2가 누락되었습니다."

  /** What `parse_request_body` extracts. */
  datatype Request = Request(userInfo: J.Value, userChat: J.Value)

  /** Why parsing fails: `json.loads` refuses the body, the body is not an
      object (`.get` is not defined on it), or `query2` is missing or empty
      (the `ValueError` with its message). */
  datatype ParseError = BadJson | NotAnObject | Invalid(message: string)

  /** `parse_request_body`: an event without a body reads as `{}`; `query1`
      defaults to '제공된 정보 없음' only when the key is absent (a JSON `null`
      passes through); a falsy `query2` is an error. */
  function ParseRequestBody(body: J.Body): (r: Result<Request, ParseError>)
    ensures body.NotJson? ==> r == Failure(BadJson)
    ensures body.NotObject? ==> r == Failure(NotAnObject)
    ensures body.Missing? ==> r == Failure(Invalid(MissingQuery2))
    ensures body.Object? ==>
      (r.Success? <==> J.Truthy(J.Lookup(body.fields, "query2")))
    ensures body.Object? && r.Failure? ==> r.error == Invalid(MissingQuery2)
    ensures r.Success? ==>
      body.Object? && r.value.userChat == body.fields["query2"] &&
      r.value.userInfo == (if "query1" in body.fields then body.fields["query1"] else J.Str(NoUserInfo))
  {
    match body
    case NotJson => Failure(BadJson)
    case NotObject => Failure(NotAnObject)
    case Missing => Failure(Invalid(MissingQuery2))
    case Object(fields) =>
      var userInfo := if "query1" in fields then fields["query1"] else J.Str(NoUserInfo);
      var userChat := J.Lookup(fields, "query2");
      if !J.Truthy(userChat) then Failure(Invalid(MissingQuery2))
      else Success(Request(userInfo, userChat))
  }

  /** The body a client sends with both queries parses back to them; without
      `query1` the default takes its place. */
  lemma ParseRequestRoundTrip(info: J.Value, chat: string)
    requires chat != ""
    ensures ParseRequestBody(J.Object(map["query1" := info, "query2" := J.Str(chat)])) == Success(Request(info, J.Str(chat)))
    ensures ParseRequestBody(J.Object(map["query2" := J.Str(chat)])) == Success(Request(J.Str(NoUserInfo), J.Str(chat)))
  {
  }

  /** The headers every response carries. */
  const Headers: map<string, string> :=
    map["Content-Type" := "application/json; charset=utf-8", "Access-Control-Allow-Origin" := "*"]

  /** An API Gateway response. */
  datatype Response = Response(statusCode: int, headers: map<string, string>, body: string)

  /** `build_response`: the status as given, the two fixed headers and the
      serialised body (`json.dumps` is not part of this model: the body
      arrives already serialised). */
  function BuildResponse(statusCode: int, body: string): (r: Response)
    ensures r.statusCode == statusCode && r.body == body
    ensures r.headers.Keys == {"Content-Type", "Access-Control-Allow-Origin"}
    ensures r.headers["Content-Type"] == "application/json; charset=utf-8"
    ensures r.headers["Access-Control-Allow-Origin"] == "*"
  {
    Response(statusCode, Headers, body)
  }

  /** The headers depend on nothing the caller passes. */
  lemma ResponseHeadersFixed(s1: int, b1: string, s2: int, b2: string)
    ensures BuildResponse(s1, b1).headers == BuildResponse(s2, b2).headers
    ensures BuildResponse(s1, b1) == BuildResponse(s2, b2) <==> s1 == s2 && b1 == b2
  {
  }
}
