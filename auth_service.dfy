/** The session half of the authentication service the route guard uses:
    signing out, renewing the tokens, and clearing the stored session. Each
    request's reply is an input; the observable is taken to be subscribed. */
module AuthService {
  import opened JsValues
  import opened Http
  import opened Storage

  const NoSessionMessage: string := "No hay sesión activa."
  const ExpiredMessage: string := "Sesión expirada."

  /** `localStorage.getItem('user') || '{}'`: the stored user, or an empty
      object when the item is missing or empty. */
  function UserText(items: map<string, string>): (r: string)
    ensures Present(Item(items, UserKey)) ==> r == items[UserKey]
    ensures !Present(Item(items, UserKey)) ==> r == "{}"
  {
    var item := Item(items, UserKey);
    if Present(item) then item.value else "{}"
  }

  /** `res?.accessToken && res?.refreshToken` */
  predicate HasBothTokens(res: JsValue)
  {
    Truthy(Member(res, "accessToken")) && Truthy(Member(res, "refreshToken"))
  }

  /** The check that lets a renewal go out: a refresh token is stored and the
      stored user has an id. */
  predicate RefreshReady(items: map<string, string>, user: JsValue)
  {
    Present(Item(items, RefreshTokenKey)) && Truthy(Member(user, "id"))
  }

  /** The request `refreshToken()` sends. */
  function RefreshRequest(user: JsValue, refresh: string): (r: Request)
    ensures r.verb == "POST" && r.path == RefreshPath && r.headers == map[]
    ensures Member(r.body, "id_usuario") == Member(user, "id")
    ensures Member(r.body, "refreshToken") == Str(refresh)
  {
    Request("POST", RefreshPath, map[],
      Obj(map["id_usuario" := Member(user, "id"), "refreshToken" := Str(refresh)]))
  }

  /** The store once both tokens of a renewal reply are written to it. */
  function StoreTokens(items: map<string, string>, res: JsValue): map<string, string>
  {
    items[AccessTokenKey := ToJsString(Member(res, "accessToken"))]
         [RefreshTokenKey := ToJsString(Member(res, "refreshToken"))]
  }

  /** After a reply with both tokens is stored, both items pass `if (item)`,
      writing them a second time changes nothing, and every other item is
      as it was. */
  lemma StoreTokensMeaning(items: map<string, string>, res: JsValue)
    requires HasBothTokens(res)
    ensures Present(Item(StoreTokens(items, res), AccessTokenKey))
    ensures Present(Item(StoreTokens(items, res), RefreshTokenKey))
    ensures StoreTokens(StoreTokens(items, res), res) == StoreTokens(items, res)
    ensures forall k | k != AccessTokenKey && k != RefreshTokenKey ::
      Item(StoreTokens(items, res), k) == Item(items, k)
  {
    TruthyHasText(Member(res, "accessToken"));
    TruthyHasText(Member(res, "refreshToken"));
  }

  /** Whether `refreshToken()` ends with both new tokens stored. */
  predicate RefreshSucceeds(items: map<string, string>, parseJson: string -> Option<JsValue>, reply: Outcome)
  {
    && parseJson(UserText(items)).Some?
    && RefreshReady(items, parseJson(UserText(items)).value)
    && reply.Ok? && HasBothTokens(reply.value)
  }

  /** `clearSession()` */
  method ClearSession(store: LocalStorage)
    modifies store
    ensures store.items == old(store.items) - SessionKeys
  {
    store.RemoveItem(AccessTokenKey);
    store.RemoveItem(RefreshTokenKey);
    store.RemoveItem(UserKey);
  }

  /** `logout()`, with the reply to the logout request as input: without an
      access token nothing is sent and the error is "No hay sesión activa.";
      otherwise the token goes out as a bearer header and the reply is passed
      on. The session is cleared on every path. */
  method Logout(store: LocalStorage, reply: Outcome) returns (sent: Option<Request>, result: Outcome)
    modifies store
    ensures store.items == old(store.items) - SessionKeys
    ensures sent.Some? <==> Present(Item(old(store.items), AccessTokenKey))
    ensures sent.None? ==> result == Err(Thrown(NoSessionMessage))
    ensures sent.Some? ==>
      && sent.value == Request("POST", LogoutPath,
           map["Authorization" := "Bearer " + old(store.items)[AccessTokenKey]], Obj(map[]))
      && result == reply
  {
    var token := Item(store.items, AccessTokenKey);
    if !Present(token) {
      ClearSession(store);
      return None, Err(Thrown(NoSessionMessage));
    }
    sent := Some(Request("POST", LogoutPath, map["Authorization" := "Bearer " + token.value], Obj(map[])));
    ClearSession(store);
    result := reply;
  }

  /** `refreshToken()`, with the reply to the renewal request as input.
      A stored user that is not JSON throws before anything else happens;
      without a refresh token or a user id the session is cleared and the
      error is "Sesión expirada."; otherwise the renewal is sent, a reply
      with both tokens is stored, and any other reply or error clears the
      session. Items outside the session are never touched. */
  method RefreshToken(store: LocalStorage, parseJson: string -> Option<JsValue>, reply: Outcome)
    returns (sent: Option<Request>, result: Outcome)
    modifies store
    ensures var items := old(store.items);
      var user := parseJson(UserText(items));
      && (user.None? ==> sent.None? && result == Err(SyntaxError) && store.items == items)
      && (user.Some? && !RefreshReady(items, user.value) ==>
            sent.None? && result == Err(Thrown(ExpiredMessage)) && store.items == items - SessionKeys)
      && (user.Some? && RefreshReady(items, user.value) ==>
            && sent == Some(RefreshRequest(user.value, items[RefreshTokenKey]))
            && result == reply)
    ensures RefreshSucceeds(old(store.items), parseJson, reply) ==>
      store.items == StoreTokens(old(store.items), reply.value)
    ensures parseJson(UserText(old(store.items))).Some? && !RefreshSucceeds(old(store.items), parseJson, reply) ==>
      store.items == old(store.items) - SessionKeys
  {
    var refresh := Item(store.items, RefreshTokenKey);
    var user := parseJson(UserText(store.items));
    if user.None? {
      return None, Err(SyntaxError);
    }
    if !Present(refresh) || !Truthy(Member(user.value, "id")) {
      ClearSession(store);
      return None, Err(Thrown(ExpiredMessage));
    }
    sent := Some(RefreshRequest(user.value, refresh.value));
    match reply {
      case Ok(res) =>
        if HasBothTokens(res) {
          store.SetItem(AccessTokenKey, ToJsString(Member(res, "accessToken")));
          store.SetItem(RefreshTokenKey, ToJsString(Member(res, "refreshToken")));
        } else {
          ClearSession(store);
        }
      case Err(_) =>
        ClearSession(store);
    }
    result := reply;
  }
}
