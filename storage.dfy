/** The browser's `localStorage`: one string-to-string store shared by the
    authentication service, the route guard and the interceptor. */
module Storage {
  import opened JsValues

  /** The keys under which the session is kept. */
  const AccessTokenKey: string := "accessToken"
  const RefreshTokenKey: string := "refreshToken"
  const UserKey: string := "user"
  const SessionKeys: set<string> := {AccessTokenKey, RefreshTokenKey, UserKey}

  /** `localStorage.getItem(key)` on a snapshot of the store. */
  function Item(items: map<string, string>, key: string): (r: Option<string>)
    ensures r.Some? <==> key in items
    ensures key in items ==> r.value == items[key]
  {
    if key in items then Some(items[key]) else None
  }

  class LocalStorage {
    var items: map<string, string>

    constructor (initial: map<string, string>)
      ensures items == initial
    {
      items := initial;
    }

    method SetItem(key: string, value: string)
      modifies this
      ensures items == old(items)[key := value]
    {
      items := items[key := value];
    }

    method RemoveItem(key: string)
      modifies this
      ensures items == old(items) - {key}
    {
      items := items - {key};
    }

    method Clear()
      modifies this
      ensures items == map[]
    {
      items := map[];
    }
  }
}
