/** The route guard: a navigation goes ahead only with a stored session
    whose access token is readable and unexpired (or can be renewed), and,
    on routes restricted to some roles, a stored user with one of them. The
    clock and the codecs are inputs. */
module AuthGuard {
  import opened JsValues
  import opened Http
  import opened Storage
  import AuthService

  /** `s.split(sep)` for a one-character separator. */
  function Split(s: string, sep: char): (parts: seq<string>)
    ensures |parts| >= 1
    ensures forall i | 0 <= i < |parts| :: sep !in parts[i]
    ensures Join(parts, sep) == s
  {
    if s == "" then [""]
    else
      var rest := Split(s[1..], sep);
      if s[0] == sep then [""] + rest
      else
        JoinConsHead(s[0], rest, sep);
        [[s[0]] + rest[0]] + rest[1..]
  }

  /** `parts.join(sep)` */
  function Join(parts: seq<string>, sep: char): string
    requires |parts| >= 1
  {
    if |parts| == 1 then parts[0] else parts[0] + [sep] + Join(parts[1..], sep)
  }

  /** Putting a character in front of the first part puts it in front of
      the joined text. */
  lemma JoinConsHead(c: char, parts: seq<string>, sep: char)
    requires |parts| >= 1
    ensures Join([[c] + parts[0]] + parts[1..], sep) == [c] + Join(parts, sep)
  {
    var q := [[c] + parts[0]] + parts[1..];
    assert q[1..] == parts[1..];
    if |parts| > 1 {
      assert Join(q, sep) == ([c] + parts[0]) + [sep] + Join(parts[1..], sep);
    }
  }

  /** Splitting a join of separator-free parts gives the parts back. */
  lemma {:induction false} SplitJoin(parts: seq<string>, sep: char)
    requires |parts| >= 1
    requires forall i | 0 <= i < |parts| :: sep !in parts[i]
    ensures Split(Join(parts, sep), sep) == parts
    decreases |Join(parts, sep)|
  {
    var s := Join(parts, sep);
    if parts[0] == "" {
      if |parts| > 1 {
        assert s == [sep] + Join(parts[1..], sep);
        assert s[1..] == Join(parts[1..], sep);
        SplitJoin(parts[1..], sep);
        assert [""] + parts[1..] == parts;
      }
    } else {
      var c := parts[0][0];
      var tail := [parts[0][1..]] + parts[1..];
      assert c != sep by { assert parts[0][0] in parts[0]; }
      assert forall i | 0 <= i < |tail| :: sep !in tail[i] by {
        forall i | 0 <= i < |tail| ensures sep !in tail[i] {
          if i == 0 {
            assert forall x | x in parts[0][1..] :: x in parts[0];
          } else {
            assert tail[i] == parts[i];
          }
        }
      }
      assert Join(tail, sep) == s[1..] by {
        if |parts| == 1 {
          assert Join(tail, sep) == parts[0][1..];
        } else {
          assert tail[1..] == parts[1..];
        }
      }
      SplitJoin(tail, sep);
      assert [c] + tail[0] == parts[0];
      assert tail[1..] == parts[1..];
      assert [[c] + tail[0]] + tail[1..] == parts;
    }
  }

  /** `token.split('.')[1]`: the payload segment, `undefined` when the token
      has no dot. */
  function PayloadSegment(token: string): (r: JsValue)
    ensures r == Undefined || (r.Str? && '.' !in r.s)
    ensures '.' in token ==> r.Str?
  {
    var parts := Split(token, '.');
    if |parts| >= 2 then Str(parts[1]) else Undefined
  }

  /** A token written as header, payload and signature joined by dots has
      that payload as its segment. */
  lemma PayloadOfToken(header: string, payload: string, signature: string)
    requires '.' !in header && '.' !in payload && '.' !in signature
    ensures PayloadSegment(header + "." + payload + "." + signature) == Str(payload)
  {
    var parts := [header, payload, signature];
    assert Join(parts, '.') == header + "." + payload + "." + signature by {
      assert Join(parts[1..], '.') == payload + "." + signature by {
        assert parts[1..][1..] == [signature];
      }
    }
    SplitJoin(parts, '.');
  }

  /** A token without a dot has no payload segment. */
  lemma NoDotNoPayload(token: string)
    requires '.' !in token
    ensures PayloadSegment(token) == Undefined
  {
    SplitJoin([token], '.');
  }

  /** `JSON.parse` of what `atob` gave, null when either threw. */
  function ParseDecoded(decoded: Option<string>, parseJson: string -> Option<JsValue>): (r: JsValue)
    ensures decoded.None? ==> r == Null
    ensures decoded.Some? && parseJson(decoded.value).Some? ==> r == parseJson(decoded.value).value
    ensures decoded.Some? && parseJson(decoded.value).None? ==> r == Null
  {
    match decoded
    case None => Null
    case Some(text) =>
      match parseJson(text)
      case None => Null
      case Some(v) => v
  }

  /** `decodeToken(token)` as written: `JSON.parse(atob(payload))`, null
      when either throws. `atob` receives the string form of the segment, so
      a missing segment is decoded as the text "undefined". */
  function DecodeToken(token: string, atob: string -> Option<string>,
                       parseJson: string -> Option<JsValue>): (r: JsValue)
    ensures atob(ToJsString(PayloadSegment(token))).None? ==> r == Null
  {
    ParseDecoded(atob(ToJsString(PayloadSegment(token))), parseJson)
  }

  /** A well-formed token decodes to whatever its payload's JSON says; a
      token without a dot decodes to null, since "undefined" is nine
      characters long and so not base64 `atob` accepts. */
  lemma DecodeTokenMeaning(header: string, payload: string, signature: string, token: string,
                           atob: string -> Option<string>, parseJson: string -> Option<JsValue>)
    requires '.' !in header && '.' !in payload && '.' !in signature
    requires atob("undefined") == None
    ensures atob(payload).Some? && parseJson(atob(payload).value).Some? ==>
      DecodeToken(header + "." + payload + "." + signature, atob, parseJson) == parseJson(atob(payload).value).value
    ensures '.' !in token ==> DecodeToken(token, atob, parseJson) == Null
  {
    PayloadOfToken(header, payload, signature);
    if '.' !in token {
      NoDotNoPayload(token);
    }
  }

  /** The character the URL-safe base64 alphabet (section 5 of RFC 4648)
      writes where the standard one (section 4) writes `c`. */
  function UrlChar(c: char): char
  {
    if c == '+' then '-' else if c == '/' then '_' else c
  }

  /** The character the standard alphabet writes where the URL-safe one
      writes `c`. */
  function StandardChar(c: char): char
  {
    if c == '-' then '+' else if c == '_' then '/' else c
  }

  /** A standard base64 text as a token carries it: a compact JWS encodes
      its segments in the URL-safe alphabet (section 2 of RFC 7515). */
  function ToUrlAlphabet(t: string): (r: string)
    ensures |r| == |t|
    ensures forall i | 0 <= i < |t| :: r[i] == UrlChar(t[i])
  {
    if t == "" then "" else [UrlChar(t[0])] + ToUrlAlphabet(t[1..])
  }

  /** A URL-safe base64 text rewritten in the alphabet `atob` accepts. */
  function ToStandardAlphabet(s: string): (r: string)
    ensures |r| == |s|
    ensures forall i | 0 <= i < |s| :: r[i] == StandardChar(s[i])
    ensures '-' !in r && '_' !in r
  {
    if s == "" then "" else [StandardChar(s[0])] + ToStandardAlphabet(s[1..])
  }

  /** Rewriting a standard text into the URL-safe alphabet and back gives
      it back; a text with neither '-' nor '_' is already standard. */
  lemma AlphabetRoundTrip(t: string)
    requires '-' !in t && '_' !in t
    ensures ToStandardAlphabet(ToUrlAlphabet(t)) == t
    ensures ToStandardAlphabet(t) == t
  {
    assert forall i | 0 <= i < |t| :: t[i] != '-' && t[i] != '_';
  }

  /** Every character of a part is a character of the joined text. */
  lemma {:induction false} PartInJoin(parts: seq<string>, sep: char, i: nat)
    requires i < |parts|
    ensures forall c | c in parts[i] :: c in Join(parts, sep)
  {
    if i == 0 {
      if |parts| > 1 {
        assert Join(parts, sep) == parts[0] + ([sep] + Join(parts[1..], sep));
      }
    } else {
      PartInJoin(parts[1..], sep, i - 1);
      assert Join(parts, sep) == (parts[0] + [sep]) + Join(parts[1..], sep);
    }
  }

  /** `decodeToken(token)` as evidently intended: the payload segment is
      read in the URL-safe alphabet it is written in. */
  function DecodeTokenFixed(token: string, atob: string -> Option<string>,
                            parseJson: string -> Option<JsValue>): (r: JsValue)
    ensures atob(ToStandardAlphabet(ToJsString(PayloadSegment(token)))).None? ==> r == Null
  {
    ParseDecoded(atob(ToStandardAlphabet(ToJsString(PayloadSegment(token)))), parseJson)
  }

  /** As written, a token whose payload uses either character of its own
      alphabet is unreadable, however far off its expiry: `atob` rejects
      '-' and '_' (forgiving-base64 decode of the HTML standard), so the
      guard renews the session on every navigation and signs the user out
      whenever that renewal fails. */
  lemma UrlSafePayloadUnreadable(header: string, t: string, signature: string, now: int,
                                 atob: string -> Option<string>, parseJson: string -> Option<JsValue>)
    requires '.' !in header && '.' !in t && '.' !in signature
    requires '+' in t || '/' in t
    requires forall s: string | '-' in s || '_' in s :: atob(s).None?
    ensures DecodeToken(header + "." + ToUrlAlphabet(t) + "." + signature, atob, parseJson) == Null
    ensures NeedsRefresh(DecodeToken(header + "." + ToUrlAlphabet(t) + "." + signature, atob, parseJson), now)
  {
    var p := ToUrlAlphabet(t);
    assert '.' !in p by {
      forall i | 0 <= i < |p| ensures p[i] != '.' {
        assert t[i] != '.';
      }
    }
    PayloadOfToken(header, p, signature);
    var i :| 0 <= i < |t| && (t[i] == '+' || t[i] == '/');
    assert p[i] == '-' || p[i] == '_';
    assert atob(p).None?;
  }

  /** The intended decoder reads the URL-safe token exactly as the one
      written reads the same token in standard base64, so an unexpired
      token is accepted without a renewal. */
  lemma FixedDecodeReadsUrlSafe(header: string, t: string, signature: string, now: int,
                                atob: string -> Option<string>, parseJson: string -> Option<JsValue>)
    requires '.' !in header && '.' !in t && '.' !in signature
    requires '-' !in t && '_' !in t
    ensures DecodeTokenFixed(header + "." + ToUrlAlphabet(t) + "." + signature, atob, parseJson)
      == DecodeToken(header + "." + t + "." + signature, atob, parseJson)
    ensures var v := ParseDecoded(atob(t), parseJson);
      Truthy(v) && !IsExpired(Member(v, "exp"), now) ==>
      !NeedsRefresh(DecodeTokenFixed(header + "." + ToUrlAlphabet(t) + "." + signature, atob, parseJson), now)
  {
    var p := ToUrlAlphabet(t);
    assert '.' !in p by {
      forall i | 0 <= i < |p| ensures p[i] != '.' {
        assert t[i] != '.';
      }
    }
    PayloadOfToken(header, p, signature);
    PayloadOfToken(header, t, signature);
    AlphabetRoundTrip(t);
  }

  /** On a token with neither '-' nor '_' anywhere the intended decoder and
      the one written agree. */
  lemma FixedDecodeAgrees(token: string, atob: string -> Option<string>, parseJson: string -> Option<JsValue>)
    requires '-' !in token && '_' !in token
    ensures DecodeTokenFixed(token, atob, parseJson) == DecodeToken(token, atob, parseJson)
  {
    var parts := Split(token, '.');
    if |parts| >= 2 {
      PartInJoin(parts, '.', 1);
      AlphabetRoundTrip(parts[1]);
    } else {
      AlphabetRoundTrip("undefined");
    }
  }

  /** `isExpired(exp)` at the instant `now` in milliseconds: `Date.now() >=
      exp * 1000`, which is false whenever `exp` is not a number. */
  predicate IsExpired(exp: JsValue, now: int)
    ensures IsExpired(exp, now) ==> ToNumber(exp).Some?
  {
    match ToNumber(exp)
    case None => false
    case Some(e) => now >= e * 1000
  }

  /** Expiry is for good: an expired token stays expired later on, and a
      payload without `exp` never expires. */
  lemma ExpiryIsPermanent(exp: JsValue, now: int, later: int)
    requires now <= later
    ensures IsExpired(exp, now) ==> IsExpired(exp, later)
    ensures !IsExpired(Undefined, now)
  {
  }

  /** `!decoded || this.isExpired(decoded.exp)` */
  predicate NeedsRefresh(decoded: JsValue, now: int)
    ensures !Truthy(decoded) ==> NeedsRefresh(decoded, now)
    ensures Truthy(decoded) && Member(decoded, "exp") == Undefined ==> !NeedsRefresh(decoded, now)
  {
    !Truthy(decoded) || IsExpired(Member(decoded, "exp"), now)
  }

  /** Both tokens are stored and non-empty. */
  predicate SessionPresent(items: map<string, string>)
  {
    Present(Item(items, AccessTokenKey)) && Present(Item(items, RefreshTokenKey))
  }

  datatype RoleCheck = RolePasses | RoleDenied | UserUnreadable

  /** The role check of `canActivate`: open routes pass; otherwise the
      stored user's `rol` must be one of the allowed names. A stored user
      that is not JSON makes `JSON.parse` throw. */
  function CheckRole(allowedRoles: seq<string>, items: map<string, string>,
                     parseJson: string -> Option<JsValue>): (r: RoleCheck)
    ensures |allowedRoles| == 0 ==> r == RolePasses
    ensures |allowedRoles| > 0 ==>
      (r == UserUnreadable <==> parseJson(AuthService.UserText(items)).None?)
    ensures |allowedRoles| > 0 && parseJson(AuthService.UserText(items)).Some? ==>
      var rol := Member(parseJson(AuthService.UserText(items)).value, "rol");
      (r == RolePasses <==> rol.Str? && rol.s != "" && rol.s in allowedRoles)
  {
    if |allowedRoles| == 0 then RolePasses
    else
      match parseJson(AuthService.UserText(items))
      case None => UserUnreadable
      case Some(user) =>
        var rol := Member(user, "rol");
        if !Truthy(rol) || !(rol.Str? && rol.s in allowedRoles) then RoleDenied else RolePasses
  }

  datatype GuardResult = Allow | Redirect(route: string) | Rejected(error: Error)

  /** What `canActivate` resolves to once the session is in order. */
  function RoleVerdict(check: RoleCheck): GuardResult
  {
    match check
    case RolePasses => Allow
    case RoleDenied => Redirect("/perfil")
    case UserUnreadable => Rejected(SyntaxError)
  }

  /** `redirectToLogin(msg)`: the whole store is emptied. */
  method RedirectToLogin(store: LocalStorage) returns (result: GuardResult)
    modifies store
    ensures store.items == map[] && result == Redirect("/login")
  {
    store.Clear();
    result := Redirect("/login");
  }

  /** `tryRefreshToken()`: true exactly when the renewal stored both new
      tokens; they are written once more, to the same effect. Otherwise the
      session is cleared, unless the stored user could not be parsed, in
      which case `refreshToken()` threw before touching the store. */
  method TryRefreshToken(store: LocalStorage, parseJson: string -> Option<JsValue>, reply: Outcome)
    returns (sent: Option<Request>, ok: bool)
    modifies store
    ensures ok <==> AuthService.RefreshSucceeds(old(store.items), parseJson, reply)
    ensures ok ==> store.items == AuthService.StoreTokens(old(store.items), reply.value)
    ensures var items := old(store.items);
      var user := parseJson(AuthService.UserText(items));
      && (sent.Some? <==> user.Some? && AuthService.RefreshReady(items, user.value))
      && (sent.Some? ==> sent == Some(AuthService.RefreshRequest(user.value, items[RefreshTokenKey])))
      && (!ok && user.None? ==> store.items == items)
      && (!ok && user.Some? ==> store.items == items - SessionKeys)
  {
    var result;
    sent, result := AuthService.RefreshToken(store, parseJson, reply);
    ok := false;
    if result.Ok? && AuthService.HasBothTokens(result.value) {
      var res := result.value;
      AuthService.StoreTokensMeaning(old(store.items), res);
      store.SetItem(AccessTokenKey, ToJsString(Member(res, "accessToken")));
      store.SetItem(RefreshTokenKey, ToJsString(Member(res, "refreshToken")));
      ok := true;
    }
  }

  /** `canActivate(route)` for a route open to `allowedRoles` (every role
      when empty), at the instant `now`, with the reply a renewal would get.
      Without both tokens, or when an unreadable or expired token cannot be
      renewed, the store is emptied and the user is sent to the login page;
      a navigation that goes ahead always leaves a session in the store and,
      on a restricted route, a user with an allowed role. */
  method CanActivate(store: LocalStorage, allowedRoles: seq<string>, now: int,
                     atob: string -> Option<string>, parseJson: string -> Option<JsValue>,
                     refreshReply: Outcome)
    returns (result: GuardResult, refreshSent: Option<Request>)
    modifies store
    ensures var items := old(store.items);
      && (!SessionPresent(items) ==>
            result == Redirect("/login") && store.items == map[] && refreshSent.None?)
      && (SessionPresent(items) && !NeedsRefresh(DecodeTokenFixed(items[AccessTokenKey], atob, parseJson), now) ==>
            && refreshSent.None? && store.items == items
            && result == RoleVerdict(CheckRole(allowedRoles, items, parseJson)))
      && (SessionPresent(items) && NeedsRefresh(DecodeTokenFixed(items[AccessTokenKey], atob, parseJson), now) ==>
            if AuthService.RefreshSucceeds(items, parseJson, refreshReply) then
              && store.items == AuthService.StoreTokens(items, refreshReply.value)
              && result == RoleVerdict(CheckRole(allowedRoles, items, parseJson))
            else
              result == Redirect("/login") && store.items == map[])
    ensures result == Allow <==>
      && SessionPresent(old(store.items))
      && (!NeedsRefresh(DecodeTokenFixed(old(store.items)[AccessTokenKey], atob, parseJson), now)
          || AuthService.RefreshSucceeds(old(store.items), parseJson, refreshReply))
      && CheckRole(allowedRoles, old(store.items), parseJson) == RolePasses
    ensures result == Allow ==> SessionPresent(store.items)
    ensures result == Allow && |allowedRoles| > 0 ==>
      var rol := Member(parseJson(AuthService.UserText(store.items)).value, "rol");
      rol.Str? && rol.s in allowedRoles
    ensures result == Redirect("/login") ==> store.items == map[]
  {
    refreshSent := None;
    var accessToken := Item(store.items, AccessTokenKey);
    var refreshToken := Item(store.items, RefreshTokenKey);
    if !Present(accessToken) || !Present(refreshToken) {
      result := RedirectToLogin(store);
      return;
    }
    var decoded := DecodeTokenFixed(accessToken.value, atob, parseJson);
    if !Truthy(decoded) || IsExpired(Member(decoded, "exp"), now) {
      var refreshed;
      refreshSent, refreshed := TryRefreshToken(store, parseJson, refreshReply);
      if !refreshed {
        result := RedirectToLogin(store);
        return;
      }
      AuthService.StoreTokensMeaning(old(store.items), refreshReply.value);
      assert AuthService.UserText(store.items) == AuthService.UserText(old(store.items)) by {
        assert Item(store.items, UserKey) == Item(old(store.items), UserKey);
      }
    }
    result := RoleVerdict(CheckRole(allowedRoles, store.items, parseJson));
  }
}
