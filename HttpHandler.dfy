/** The client's 401 interceptor (`CustomHttpHandler.SendAsync`): requests to
    the authentication endpoints pass straight through; any other request
    that comes back 401 is resent once, with the held token or, failing that,
    with a token obtained from the refresh endpoint. The network is a
    function from the request line and its Authorization header to a response. */
module HttpHandler {
  import opened Wrappers
  import Text
  import opened Dtos
  import opened TokenProvider
  import opened AccountService

  datatype HttpResponse = HttpResponse(status: int, content: string)

  /** A request as it went out on the wire. */
  datatype SentRequest = SentRequest(uri: string, authorization: Option<string>)

  /** The value of `new AuthenticationHeaderValue("Bearer", token)`. */
  function Bearer(token: string): (h: string)
    ensures |h| == 7 + |token| && h[..7] == "Bearer " && h[7..] == token
  {
    "Bearer " + token
  }

  /** The requests the handler never intercepts. */
  predicate IsAuthEndpoint(uri: string)
  {
    Text.Contains(uri, "login") || Text.Contains(uri, "register") || Text.Contains(uri, "refresh-token")
  }

  class HttpRequestMessage {
    const requestUri: string
    var authorization: Option<string>

    constructor (uri: string, auth: Option<string>)
      ensures requestUri == uri && authorization == auth
    {
      requestUri := uri;
      authorization := auth;
    }
  }

  class CustomHttpHandler {
    const accessTokenProvider: AccessTokenProvider
    const accountService: UserAccountService
    /** Every request this handler has put on the wire, in order. */
    var sent: seq<SentRequest>

    constructor (provider: AccessTokenProvider, service: UserAccountService)
      ensures accessTokenProvider == provider && accountService == service && sent == []
    {
      accessTokenProvider := provider;
      accountService := service;
      sent := [];
    }

    /** `base.SendAsync`: one request on the wire. */
    method Send(request: HttpRequestMessage, transport: SentRequest -> HttpResponse) returns (r: HttpResponse)
      modifies this
      ensures sent == old(sent) + [SentRequest(request.requestUri, request.authorization)]
      ensures r == transport(SentRequest(request.requestUri, request.authorization))
    {
      var line := SentRequest(request.requestUri, request.authorization);
      sent := sent + [line];
      r := transport(line);
    }

    /** `GetReshToken`: refresh through the account service; on success the
        reply's token, empty or not, goes into the provider and is returned. */
    method GetReshToken(refreshReply: HttpOutcome<LoginJson>) returns (t: string)
      modifies accessTokenProvider, accountService
      ensures var reply := RefreshResponse(refreshReply);
        && (!reply.success ==> t == [] && accessTokenProvider.token == old(accessTokenProvider.token))
        && (reply.success ==> t == reply.token && accessTokenProvider.token == Some(reply.token))
      ensures KeepsToken(RefreshResponse(refreshReply)) ==>
        accountService.storage == old(accountService.storage)[TokenKey := RefreshResponse(refreshReply).token]
      ensures !KeepsToken(RefreshResponse(refreshReply)) ==> accountService.storage == old(accountService.storage)
    {
      var result := accountService.RefreshTokenAsync(refreshReply);
      if !result.success {
        return [];
      }
      accessTokenProvider.SetTokenAsync(Some(result.token));
      return result.token;
    }

    /** The interceptor. The request goes out at most twice; it is resent only
        after a 401, and then carries the held token when it had no header,
        or else a refreshed token when the refresh yields a non-empty one. */
    method SendAsync(request: HttpRequestMessage, transport: SentRequest -> HttpResponse,
                     refreshReply: HttpOutcome<LoginJson>) returns (r: HttpResponse)
      modifies this, request, accessTokenProvider, accountService
      ensures var first := SentRequest(request.requestUri, old(request.authorization));
        && |old(sent)| + 1 <= |sent| <= |old(sent)| + 2
        && sent[..|old(sent)| + 1] == old(sent) + [first]
      ensures var first := SentRequest(request.requestUri, old(request.authorization));
        IsAuthEndpoint(request.requestUri) || transport(first).status != 401 ==>
          && r == transport(first) && sent == old(sent) + [first]
          && request.authorization == old(request.authorization)
          && accessTokenProvider.token == old(accessTokenProvider.token)
          && accountService.storage == old(accountService.storage)
      ensures var first := SentRequest(request.requestUri, old(request.authorization));
        var held := old(accessTokenProvider.token);
        !IsAuthEndpoint(request.requestUri) && transport(first).status == 401
        && old(request.authorization).None? && !Text.IsNullOrEmpty(held) ==>
          && request.authorization == Some(Bearer(held.value))
          && sent == old(sent) + [first, SentRequest(request.requestUri, Some(Bearer(held.value)))]
          && r == transport(SentRequest(request.requestUri, Some(Bearer(held.value))))
          && accessTokenProvider.token == held
          && accountService.storage == old(accountService.storage)
      ensures var first := SentRequest(request.requestUri, old(request.authorization));
        var held := old(accessTokenProvider.token);
        var reply := RefreshResponse(refreshReply);
        !IsAuthEndpoint(request.requestUri) && transport(first).status == 401
        && !(old(request.authorization).None? && !Text.IsNullOrEmpty(held)) ==>
          && (reply.success ==> accessTokenProvider.token == Some(reply.token))
          && (!reply.success ==> accessTokenProvider.token == held)
          && (KeepsToken(reply) ==> accountService.storage == old(accountService.storage)[TokenKey := reply.token])
          && (!KeepsToken(reply) ==> accountService.storage == old(accountService.storage))
          && (!KeepsToken(reply) ==>
                r == transport(first) && sent == old(sent) + [first]
                && request.authorization == old(request.authorization))
          && (KeepsToken(reply) ==>
                && request.authorization == Some(Bearer(reply.token))
                && sent == old(sent) + [first, SentRequest(request.requestUri, Some(Bearer(reply.token)))]
                && r == transport(SentRequest(request.requestUri, Some(Bearer(reply.token)))))
    {
      var loginUrl := Text.Contains(request.requestUri, "login");
      var registerUrl := Text.Contains(request.requestUri, "register");
      var refreshTokenUrl := Text.Contains(request.requestUri, "refresh-token");
      if loginUrl || registerUrl || refreshTokenUrl {
        r := Send(request, transport);
        return;
      }
      var result := Send(request, transport);
      if result.status == 401 {
        var currentToken := accessTokenProvider.GetTokenAsync();
        if request.authorization.None? && !Text.IsNullOrEmpty(currentToken) {
          request.authorization := Some(Bearer(currentToken.value));
          r := Send(request, transport);
          return;
        }
        var newJwtToken := GetReshToken(refreshReply);
        if Text.IsNullOrEmpty(Some(newJwtToken)) {
          return result;
        }
        request.authorization := Some(Bearer(newJwtToken));
        r := Send(request, transport);
        return;
      }
      return result;
    }
  }
}
