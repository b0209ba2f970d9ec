/** The relay handler: the cached bearer token, the request to the mail-send
    endpoint, and the three stages of relaying one message. */
module Graph {
  import opened Wrappers
  import opened NetMail
  import opened GoInt
  import Wire

  /** A token is refreshed this many seconds before it expires. */
  const RefreshMargin: int := 60

  /** The cached token and its expiry in Unix seconds; "" means none yet. */
  datatype TokenCache = TokenCache(token: string, tokenExp: Int64)

  /** The cache of a new handler. */
  const EmptyCache := TokenCache("", 0)

  /** What the token source hands back: a token and its expiry. */
  datatype AccessToken = AccessToken(token: string, expiresOn: Int64)

  /** The refresh rule, with `tokenExp - 60` computed in int64: an expiry
      within a minute of the int64 minimum wraps to a very late one, so
      such a token is only refreshed once the clock passes that late time. */
  predicate NeedsRefresh(c: TokenCache, now: Int64)
    ensures c.token == "" ==> NeedsRefresh(c, now)
    ensures c.token != "" && c.tokenExp >= MinInt64 + RefreshMargin ==>
      (NeedsRefresh(c, now) <==> now > c.tokenExp - RefreshMargin)
    ensures c.token != "" && c.tokenExp < MinInt64 + RefreshMargin ==>
      (NeedsRefresh(c, now) <==> now > c.tokenExp - RefreshMargin + TwoTo64)
  {
    c.token == "" || now > WrapInt64(c.tokenExp - RefreshMargin)
  }

  /** For every expiry the token source can realistically report, the rule
      is: no token yet, or less than a minute left. */
  lemma NeedsRefreshWithoutWrap(c: TokenCache, now: Int64)
    requires c.tokenExp >= MinInt64 + RefreshMargin
    ensures NeedsRefresh(c, now) <==> c.token == "" || now > c.tokenExp - RefreshMargin
  {
  }

  /** One call of getCachedToken: the cache afterwards, the token or the
      error, and whether the token source was asked. */
  datatype TokenFetch = TokenFetch(cache: TokenCache, result: Result<string, string>, consulted: bool)

  /** getCachedToken at time `now`; `source` is what the token source would
      answer if asked. */
  function GetCachedToken(c: TokenCache, now: Int64, source: Result<AccessToken, string>): (f: TokenFetch)
    ensures f.consulted <==> NeedsRefresh(c, now)
    ensures !f.consulted ==> f.cache == c && f.result == Success(c.token)
    ensures f.consulted && source.Success? ==>
      && f.cache == TokenCache(source.value.token, source.value.expiresOn)
      && f.result == Success(source.value.token)
    ensures f.consulted && source.Failure? ==>
      f.cache == c && f.result == Failure("GetToken: " + source.error)
  {
    if NeedsRefresh(c, now) then
      match source
      case Failure(e) => TokenFetch(c, Failure("GetToken: " + e), true)
      case Success(t) => TokenFetch(TokenCache(t.token, t.expiresOn), Success(t.token), true)
    else TokenFetch(c, Success(c.token), false)
  }

  /** A new handler has no token, so its first call always asks the source. */
  lemma FirstCallAsks(now: Int64, source: Result<AccessToken, string>)
    ensures GetCachedToken(EmptyCache, now, source).consulted
    ensures source.Success? ==>
      GetCachedToken(EmptyCache, now, source).cache == TokenCache(source.value.token, source.value.expiresOn)
  {
  }

  /** A valid cached token is returned whatever the source would say. */
  lemma ValidTokenIgnoresSource(c: TokenCache, now: Int64, s1: Result<AccessToken, string>,
                                s2: Result<AccessToken, string>)
    requires !NeedsRefresh(c, now)
    ensures GetCachedToken(c, now, s1) == GetCachedToken(c, now, s2)
  {
  }

  /** A failed refresh leaves the cache stale, so the next call at the same
      time asks the source again. */
  lemma FailedRefreshRetries(c: TokenCache, now: Int64, e: string, next: Result<AccessToken, string>)
    requires NeedsRefresh(c, now)
    ensures GetCachedToken(GetCachedToken(c, now, Failure(e)).cache, now, next).consulted
  {
  }

  /** Two calls ask the source at most once when the first call leaves a
      valid token behind, in particular when the cached token was valid. */
  lemma TwoCallsAskAtMostOnce(c: TokenCache, now1: Int64, now2: Int64,
                              s1: Result<AccessToken, string>, s2: Result<AccessToken, string>)
    requires now1 <= now2
    requires !NeedsRefresh(GetCachedToken(c, now1, s1).cache, now2)
    ensures !GetCachedToken(GetCachedToken(c, now1, s1).cache, now2, s2).consulted
    ensures GetCachedToken(GetCachedToken(c, now1, s1).cache, now2, s2).result
      == GetCachedToken(c, now1, s1).result
  {
  }

  /** A valid token stays valid for any earlier moment, so a valid token is
      never refreshed by a call that happens no later. */
  lemma ValidBefore(c: TokenCache, now1: Int64, now2: Int64)
    requires now1 <= now2
    requires !NeedsRefresh(c, now2)
    ensures !NeedsRefresh(c, now1)
  {
  }

  const UsersEndpoint := "https://graph.microsoft.com/v1.0/users/"
  const SendMailPath := "/sendMail"
  const StatusAccepted := 202

  /** The send-mail endpoint of one mailbox. */
  function SendMailUrl(userID: string): string
  {
    UsersEndpoint + userID + SendMailPath
  }

  /** The mailbox a send-mail URL is addressed to. */
  function UserOfUrl(url: string): (r: Option<string>)
    ensures r.Some? ==> SendMailUrl(r.value) == url
  {
    var n, m := |UsersEndpoint|, |SendMailPath|;
    if |url| >= n + m && url[..n] == UsersEndpoint && url[|url| - m..] == SendMailPath then
      var user := url[n..|url| - m];
      assert url == url[..n] + user + url[|url| - m..];
      Some(user)
    else None
  }

  /** The URL names exactly the mailbox it was built for. */
  lemma UserOfSendMailUrl(userID: string)
    ensures UserOfUrl(SendMailUrl(userID)) == Some(userID)
  {
    var url := SendMailUrl(userID);
    assert url[..|UsersEndpoint|] == UsersEndpoint;
    assert url[|url| - |SendMailPath|..] == SendMailPath;
    assert url[|UsersEndpoint|..|url| - |SendMailPath|] == userID;
  }

  /** The parts of the outgoing HTTP request the handler sets. */
  datatype HttpRequest = HttpRequest(
    verb: string, url: string, authorization: string, contentType: string, body: string)

  /** A response: the status code, its status line text and the body. */
  datatype HttpResponse = HttpResponse(statusCode: int, status: string, body: string)

  /** The request that sends one encoded message. */
  function RawMimeRequest(accessToken: string, userID: string, mime: string, base64: string -> string): HttpRequest
  {
    HttpRequest("POST", SendMailUrl(userID), "Bearer " + accessToken, "text/plain", base64(mime))
  }

  /** sendRawMimeMail: the request sent and the error, if any. `transport`
      stands for the HTTP client: a response or a transport error. */
  datatype SendOutcome = SendOutcome(request: HttpRequest, error: Option<string>)

  function SendRawMimeMail(accessToken: string, userID: string, mime: string, base64: string -> string,
                           transport: HttpRequest -> Result<HttpResponse, string>): (o: SendOutcome)
    ensures o.request.verb == "POST"
    ensures UserOfUrl(o.request.url) == Some(userID)
    ensures o.request.authorization == "Bearer " + accessToken
    ensures o.request.contentType == "text/plain"
    ensures o.request.body == base64(mime)
    ensures o.error.None? <==>
      transport(o.request).Success? && transport(o.request).value.statusCode == StatusAccepted
    ensures transport(o.request).Failure? ==> o.error == Some("http.Do: " + transport(o.request).error)
    ensures transport(o.request).Success? && transport(o.request).value.statusCode != StatusAccepted ==>
      o.error == Some("sendMail failed: " + transport(o.request).value.status + "\n" + transport(o.request).value.body)
  {
    UserOfSendMailUrl(userID);
    var req := RawMimeRequest(accessToken, userID, mime, base64);
    match transport(req)
    case Failure(e) => SendOutcome(req, Some("http.Do: " + e))
    case Success(resp) =>
      if resp.statusCode != StatusAccepted then
        SendOutcome(req, Some("sendMail failed: " + resp.status + "\n" + resp.body))
      else SendOutcome(req, None)
  }

  /** A rejected send reports the status text and ends with the whole
      response body. */
  lemma RejectionCarriesBody(accessToken: string, userID: string, mime: string, base64: string -> string,
                             transport: HttpRequest -> Result<HttpResponse, string>)
    requires var req := RawMimeRequest(accessToken, userID, mime, base64);
      transport(req).Success? && transport(req).value.statusCode != StatusAccepted
    ensures var o := SendRawMimeMail(accessToken, userID, mime, base64, transport);
      var resp := transport(o.request).value;
      && o.error.Some?
      && |o.error.value| >= |resp.body|
      && o.error.value[|o.error.value| - |resp.body|..] == resp.body
      && o.error.value[..|"sendMail failed: "|] == "sendMail failed: "
      && o.error.value[|"sendMail failed: "|..|"sendMail failed: "| + |resp.status|] == resp.status
      && o.error.value[|"sendMail failed: "| + |resp.status|] == '\n'
      && |o.error.value| == |"sendMail failed: "| + |resp.status| + 1 + |resp.body|
  {
  }

  /** What relaying one message did: the cache afterwards, the error if any,
      whether the token was asked for, and the request if one was sent. */
  datatype RelayOutcome = RelayOutcome(
    cache: TokenCache, error: Option<string>, tokenRequested: bool, request: Option<HttpRequest>)

  /** The handler's message method: encode, then get a token, then send;
      the first failing stage ends the relay with its name as prefix. */
  function RelayMessage(senderEmail: string, c: TokenCache, now: Int64, m: Message, order: seq<string>,
                        source: Result<AccessToken, string>, base64: string -> string,
                        transport: HttpRequest -> Result<HttpResponse, string>): (o: RelayOutcome)
    requires Wire.IsIterationOrder(m.header, order)
    ensures m.body.Unreadable? ==>
      o == RelayOutcome(c, Some("encodeMailMessage: " + m.body.cause), false, None)
    ensures !m.body.Unreadable? ==> o.tokenRequested
    ensures !m.body.Unreadable? && GetCachedToken(c, now, source).result.Failure? ==>
      && o.request.None?
      && o.cache == c
      && o.error == Some("getCachedToken: " + GetCachedToken(c, now, source).result.error)
    ensures o.request.Some? <==>
      !m.body.Unreadable? && GetCachedToken(c, now, source).result.Success?
    ensures o.request.Some? ==>
      && o.cache == GetCachedToken(c, now, source).cache
      && UserOfUrl(o.request.value.url) == Some(senderEmail)
      && o.request.value.authorization == "Bearer " + GetCachedToken(c, now, source).result.value
      && o.request.value.body == base64(Wire.Encode(m, order).value)
    ensures o.request.Some? ==>
      o.request.value == SendRawMimeMail(GetCachedToken(c, now, source).result.value, senderEmail,
                                         Wire.Encode(m, order).value, base64, transport).request
    ensures o.request.Some? && o.error.Some? ==>
      var sent := SendRawMimeMail(GetCachedToken(c, now, source).result.value, senderEmail,
                                  Wire.Encode(m, order).value, base64, transport);
      sent.error.Some? && o.error.value == "sendRawMimeMail: " + sent.error.value
    ensures o.request.Some? && o.error.None? ==>
      SendRawMimeMail(GetCachedToken(c, now, source).result.value, senderEmail,
                      Wire.Encode(m, order).value, base64, transport).error.None?
    ensures o.error.None? <==>
      o.request.Some? && transport(o.request.value).Success?
      && transport(o.request.value).value.statusCode == StatusAccepted
  {
    match Wire.Encode(m, order)
    case Failure(e) => RelayOutcome(c, Some("encodeMailMessage: " + e), false, None)
    case Success(mime) =>
      var f := GetCachedToken(c, now, source);
      match f.result
      case Failure(e) => RelayOutcome(f.cache, Some("getCachedToken: " + e), true, None)
      case Success(token) =>
        var sent := SendRawMimeMail(token, senderEmail, mime, base64, transport);
        var err := if sent.error.Some? then Some("sendRawMimeMail: " + sent.error.value) else None;
        RelayOutcome(f.cache, err, true, Some(sent.request))
  }

  /** With a valid cached token, relaying a readable message reuses that
      token, leaves the cache as it was and sends whatever the token source
      would have said. */
  lemma RelayWithValidToken(senderEmail: string, c: TokenCache, now: Int64, m: Message, order: seq<string>,
                            source: Result<AccessToken, string>, base64: string -> string,
                            transport: HttpRequest -> Result<HttpResponse, string>)
    requires Wire.IsIterationOrder(m.header, order)
    requires !NeedsRefresh(c, now)
    requires !m.body.Unreadable?
    ensures var o := RelayMessage(senderEmail, c, now, m, order, source, base64, transport);
      && o.cache == c
      && o.request.Some?
      && o.request.value.verb == "POST"
      && o.request.value.contentType == "text/plain"
      && o.request.value.authorization == "Bearer " + c.token
  {
  }
}
