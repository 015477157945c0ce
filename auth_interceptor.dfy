/** The HTTP interceptor every request of the application passes through:
    it attaches the stored access token and, when the server answers 401
    while a refresh token is stored, renews the access token and retries the
    request once. The server is an input, a function from request to reply.

    As written, the renewal request is itself sent through the application's
    HTTP client and so through this same interceptor; a 401 on the renewal
    then starts another renewal. `InterceptionAsWritten` models that, with
    fuel bounding the nesting; `Interception` is the intended behaviour, in
    which the renewal request is not renewed again. */
module AuthInterceptor {
  import opened JsValues
  import opened Http
  import opened Storage

  /** `req.clone({ setHeaders: { Authorization: `Bearer ${token}` } })` */
  function WithBearer(req: Request, token: string): Request
  {
    req.(headers := req.headers["Authorization" := "Bearer " + token])
  }

  /** The request as passed on: with the stored access token as a bearer
      header when there is one. */
  function AttachToken(items: map<string, string>, req: Request): (r: Request)
    ensures r.verb == req.verb && r.path == req.path && r.body == req.body
    ensures Present(Item(items, AccessTokenKey)) ==>
      r.headers == req.headers["Authorization" := "Bearer " + items[AccessTokenKey]]
    ensures !Present(Item(items, AccessTokenKey)) ==> r == req
  {
    var accessToken := Item(items, AccessTokenKey);
    if Present(accessToken) then WithBearer(req, accessToken.value) else req
  }

  /** The request the interceptor's `refreshToken()` sends. */
  function RenewalRequest(refresh: string): Request
  {
    Request("POST", RefreshPath, map[], Obj(map["refreshToken" := Str(refresh)]))
  }

  /** `err.status === 401 && localStorage.getItem('refreshToken')` */
  predicate RenewsOn(reply: Outcome, items: map<string, string>)
  {
    reply == Err(Status(401)) && Present(Item(items, RefreshTokenKey))
  }

  /** The renewal request as the server receives it. */
  function SentRenewal(items: map<string, string>): Request
    requires RefreshTokenKey in items
  {
    AttachToken(items, RenewalRequest(items[RefreshTokenKey]))
  }

  /** The requests the server received in order, what the caller gets, and
      the store afterwards. */
  datatype Exchange = Exchange(sent: seq<Request>, result: Outcome, items: map<string, string>)

  /** One interception with the renewal path exempt from renewal. */
  function Interception(items: map<string, string>, req: Request, server: Request -> Outcome): (x: Exchange)
    ensures 1 <= |x.sent| <= 3
    ensures x.sent[0] == AttachToken(items, req)
    ensures |x.sent| == 1 <==> req.path == RefreshPath || !RenewsOn(server(AttachToken(items, req)), items)
    ensures |x.sent| == 1 ==> x.result == server(x.sent[0]) && x.items == items
    ensures |x.sent| >= 2 ==> x.sent[1] == SentRenewal(items)
    ensures |x.sent| == 2 ==>
      x.items == items
      && (server(x.sent[1]).Err? ==> x.result == server(x.sent[1]))
      && (server(x.sent[1]).Ok? ==> x.result == Err(Status(401)))
    ensures |x.sent| == 3 ==>
      && server(x.sent[1]).Ok?
      && var newAccess := ToJsString(Member(server(x.sent[1]).value, "accessToken"));
      && x.items == items[AccessTokenKey := newAccess]
      && x.sent[2] == WithBearer(req, newAccess)
      && x.result == server(x.sent[2])
  {
    var first := AttachToken(items, req);
    var reply := server(first);
    if req.path == RefreshPath || !RenewsOn(reply, items) then Exchange([first], reply, items)
    else
      var renewal := SentRenewal(items);
      match server(renewal)
      case Err(e) => Exchange([first, renewal], Err(e), items)
      case Ok(res) =>
        var newAccess := Member(res, "accessToken");
        if Truthy(newAccess) then
          var retry := WithBearer(req, ToJsString(newAccess));
          Exchange([first, renewal, retry], server(retry), items[AccessTokenKey := ToJsString(newAccess)])
        else Exchange([first, renewal], reply, items)
  }

  /** The interceptor never removes anything from the store: only the access
      token may change, and only to a non-empty value. */
  lemma InterceptionKeepsSession(items: map<string, string>, req: Request, server: Request -> Outcome)
    ensures var x := Interception(items, req, server);
      && (forall k | k != AccessTokenKey :: Item(x.items, k) == Item(items, k))
      && (Present(Item(items, AccessTokenKey)) ==> Present(Item(x.items, AccessTokenKey)))
  {
    var x := Interception(items, req, server);
    if |x.sent| == 3 {
      TruthyHasText(Member(server(x.sent[1]).value, "accessToken"));
    }
  }

  /** A run of the interceptor as written: either finished, or still inside
      nested renewals when the fuel ran out, with the requests sent so far. */
  datatype Run = Finished(exchange: Exchange) | StillRefreshing(sent: seq<Request>)

  /** The interceptor as written: the renewal is intercepted in turn, so a
      401 on it starts another renewal. */
  function InterceptionAsWritten(items: map<string, string>, req: Request, server: Request -> Outcome,
                                 fuel: nat): (run: Run)
    ensures run.StillRefreshing? ==> |run.sent| >= 1 && run.sent[0] == AttachToken(items, req)
    ensures run.Finished? ==> |run.exchange.sent| >= 1 && run.exchange.sent[0] == AttachToken(items, req)
    decreases fuel
  {
    var first := AttachToken(items, req);
    var reply := server(first);
    if !RenewsOn(reply, items) then Finished(Exchange([first], reply, items))
    else if fuel == 0 then StillRefreshing([first])
    else
      match InterceptionAsWritten(items, RenewalRequest(items[RefreshTokenKey]), server, fuel - 1)
      case StillRefreshing(sent) => StillRefreshing([first] + sent)
      case Finished(inner) =>
        match inner.result
        case Err(e) => Finished(Exchange([first] + inner.sent, Err(e), inner.items))
        case Ok(res) =>
          var newAccess := Member(res, "accessToken");
          if Truthy(newAccess) then
            var retry := WithBearer(req, ToJsString(newAccess));
            Finished(Exchange([first] + inner.sent + [retry], server(retry),
                              inner.items[AccessTokenKey := ToJsString(newAccess)]))
          else Finished(Exchange([first] + inner.sent, reply, inner.items))
  }

  /** When the server answers 401 to both the request and the renewal while
      a refresh token is stored, the interceptor as written never finishes:
      whatever the fuel, it is still renewing, having sent the request and
      then one identical renewal per unit of fuel. */
  lemma {:induction false} RefreshStorm(items: map<string, string>, req: Request,
                                        server: Request -> Outcome, fuel: nat)
    requires Present(Item(items, RefreshTokenKey))
    requires server(AttachToken(items, req)) == Err(Status(401))
    requires server(SentRenewal(items)) == Err(Status(401))
    ensures var run := InterceptionAsWritten(items, req, server, fuel);
      && run.StillRefreshing?
      && |run.sent| == fuel + 1
      && forall i | 1 <= i < |run.sent| :: run.sent[i] == SentRenewal(items)
    decreases fuel
  {
    if fuel > 0 {
      RefreshStorm(items, RenewalRequest(items[RefreshTokenKey]), server, fuel - 1);
      var inner := InterceptionAsWritten(items, RenewalRequest(items[RefreshTokenKey]), server, fuel - 1);
      var run := InterceptionAsWritten(items, req, server, fuel);
      assert run.sent == [AttachToken(items, req)] + inner.sent;
    }
  }

  /** In the same situation the intended interceptor stops after the
      renewal and hands the renewal's 401 to the caller. */
  lemma NoStormWhenExempt(items: map<string, string>, req: Request, server: Request -> Outcome)
    requires Present(Item(items, RefreshTokenKey))
    requires req.path != RefreshPath
    requires server(AttachToken(items, req)) == Err(Status(401))
    requires server(SentRenewal(items)) == Err(Status(401))
    ensures Interception(items, req, server) ==
      Exchange([AttachToken(items, req), SentRenewal(items)], Err(Status(401)), items)
  {
  }

  /** Whenever the server does not answer the renewal with 401, the
      interceptor as written (given fuel for one renewal) does exactly what
      the intended one does. */
  lemma AsWrittenAgrees(items: map<string, string>, req: Request, server: Request -> Outcome, fuel: nat)
    requires fuel >= 1
    requires req.path != RefreshPath
    requires RefreshTokenKey in items ==> server(SentRenewal(items)) != Err(Status(401))
    ensures InterceptionAsWritten(items, req, server, fuel) == Finished(Interception(items, req, server))
  {
    if RenewsOn(server(AttachToken(items, req)), items) {
      var renewal := RenewalRequest(items[RefreshTokenKey]);
      assert InterceptionAsWritten(items, renewal, server, fuel - 1)
        == Finished(Exchange([SentRenewal(items)], server(SentRenewal(items)), items));
    }
  }

  /** The interceptor applied to one request, against the store. */
  method Intercept(store: LocalStorage, req: Request, server: Request -> Outcome)
    returns (sent: seq<Request>, result: Outcome)
    modifies store
    ensures Exchange(sent, result, store.items) == Interception(old(store.items), req, server)
  {
    var accessToken := Item(store.items, AccessTokenKey);
    var cloned := req;
    if Present(accessToken) {
      cloned := WithBearer(req, accessToken.value);
    }
    sent := [cloned];
    result := server(cloned);
    if req.path != RefreshPath && result == Err(Status(401)) && Present(Item(store.items, RefreshTokenKey)) {
      var original := result;
      var renewal := SentRenewal(store.items);
      sent := sent + [renewal];
      var reply := server(renewal);
      match reply {
        case Err(_) =>
          result := reply;
        case Ok(res) =>
          var newAccess := Member(res, "accessToken");
          if Truthy(newAccess) {
            store.SetItem(AccessTokenKey, ToJsString(newAccess));
            var retry := WithBearer(req, ToJsString(newAccess));
            sent := sent + [retry];
            result := server(retry);
          } else {
            result := original;
          }
      }
    }
  }
}
