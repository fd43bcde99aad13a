/** The HTTP client's two interceptors. Outgoing requests get an
    Authorization header naming the signed-in user; failed responses are
    classified by status, 401 signing the user out. The transport is
    outside the model: a request's result is an input. */
module ApiClient {
  import opened Wrappers

  /** The user the authentication store holds; only its id is read here. */
  datatype AuthUser = AuthUser(Id: string)

  /** A request configuration; headers as a name-to-value map. */
  datatype RequestConfig = RequestConfig(url: string, headers: map<string, string>)

  const Authorization := "Authorization"
  const BearerPrefix := "Bearer: "

  /** The user id an Authorization value carries, if it has the bearer form. */
  function BearerId(value: string): (r: Option<string>) {
    if |value| >= |BearerPrefix| && value[..|BearerPrefix|] == BearerPrefix
    then Some(value[|BearerPrefix|..])
    else None
  }

  /** The request interceptor. With a user present the Authorization header
      names that user (the value reads back as the user's id); every other
      header, and the URL, are left as they were. Without a user the
      configuration is returned untouched. */
  function AuthorizeRequest(config: RequestConfig, user: Option<AuthUser>): (r: RequestConfig)
    ensures user.None? ==> r == config
    ensures user.Some? ==>
              Authorization in r.headers
              && r.headers[Authorization] == BearerPrefix + user.value.Id
              && BearerId(r.headers[Authorization]) == Some(user.value.Id)
    ensures r.url == config.url
    ensures forall h :: h != Authorization ==>
              (h in r.headers <==> h in config.headers)
              && (h in config.headers ==> r.headers[h] == config.headers[h])
  {
    match user
    case None => config
    case Some(u) =>
      var value := BearerPrefix + u.Id;
      assert value[..|BearerPrefix|] == BearerPrefix;
      config.(headers := config.headers[Authorization := value])
  }

  /** A server response: its status and its JSON body, as field names to
      (opaque) values. */
  datatype HttpResponse = HttpResponse(status: int, data: map<string, string>)

  /** A body field, `undefined` when absent. */
  function Field(data: map<string, string>, name: string): (r: Option<string>) {
    if name in data then Some(data[name]) else None
  }

  /** The error the client raises for a failed request: with the server's
      response, or without one when nothing came back. */
  datatype RequestError = RequestError(response: Option<HttpResponse>)

  /** What a failed request is rejected with. */
  datatype Rejection =
    | Unchanged(error: RequestError)
    | BadRequestError(Message: Option<string>, Timestamp: Option<string>)
    | InternalServerError(Error: Option<string>, Timestamp: Option<string>)

  /** How a request settles after the response interceptor, and whether the
      interceptor asked the authentication store to sign out. */
  datatype Settlement = Settlement(outcome: Result<HttpResponse, Rejection>, signOut: bool)

  /** The status codes the client treats as success (2xx). */
  predicate IsSuccessStatus(status: int) {
    200 <= status < 300
  }

  /** The response interceptor's error handler, switching on the status of
      the response, if any. */
  function OnResponseError(error: RequestError): (s: Settlement)
    ensures s.outcome.Failure?
    ensures s.signOut <==> error.response.Some? && error.response.value.status == 401
    ensures s.outcome.error.BadRequestError? <==>
              error.response.Some? && error.response.value.status == 400
    ensures s.outcome.error.InternalServerError? <==>
              error.response.Some? && error.response.value.status == 500
    ensures s.outcome.error.Unchanged? ==> s.outcome.error.error == error
  {
    var status := if error.response.Some? then Some(error.response.value.status) else None;
    if status == Some(401) then Settlement(Failure(Unchanged(error)), true)
    else if status == Some(400) then
      var data := error.response.value.data;
      Settlement(Failure(BadRequestError(Field(data, "Message"), Field(data, "Timestamp"))), false)
    else if status == Some(500) then
      var data := error.response.value.data;
      Settlement(Failure(InternalServerError(Field(data, "Error"), Field(data, "Timestamp"))), false)
    else Settlement(Failure(Unchanged(error)), false)
  }

  /** A request's result as the caller sees it: `None` when no response came
      back, otherwise the server's response. A 2xx response goes to the
      fulfilment handler, anything else to the error handler. */
  function Settle(received: Option<HttpResponse>): (s: Settlement)
    ensures received.Some? && IsSuccessStatus(received.value.status) ==>
              s == Settlement(Success(received.value), false)
  {
    match received
    case Some(response) =>
      if IsSuccessStatus(response.status) then Settlement(Success(response), false)
      else OnResponseError(RequestError(Some(response)))
    case None => OnResponseError(RequestError(None))
  }

  /** The classification, case by case: a 2xx response passes through; a
      400 becomes a bad-request error and a 500 an internal-server error,
      each built from the body; 401, every other status and a missing
      response reject with the original error. Only 401 signs the user out. */
  lemma SettleCases(received: Option<HttpResponse>)
    ensures
      var s := Settle(received);
      var status := if received.Some? then received.value.status else 0;
      && (s.outcome.Success? <==> received.Some? && IsSuccessStatus(status))
      && (s.outcome.Success? ==> s.outcome.value == received.value)
      && (s.signOut <==> received.Some? && status == 401)
      && (s.outcome.Failure? && s.outcome.error.BadRequestError? <==> received.Some? && status == 400)
      && (s.outcome.Failure? && s.outcome.error.InternalServerError? <==> received.Some? && status == 500)
      && (s.outcome.Failure? && s.outcome.error.Unchanged? ==>
            s.outcome.error.error == RequestError(received))
      && (received.Some? && status == 400 ==>
            s.outcome.error == BadRequestError(Field(received.value.data, "Message"),
                                               Field(received.value.data, "Timestamp")))
      && (received.Some? && status == 500 ==>
            s.outcome.error == InternalServerError(Field(received.value.data, "Error"),
                                                   Field(received.value.data, "Timestamp")))
  {
  }
}
