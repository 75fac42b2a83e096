/**
 * The authentication session: the bearer token held by the provider and
 * mirrored in the browser's local storage under 'authToken'.
 */
module ApiProvider {
  import opened Wrappers
  import ApiConfig

  const TokenKey := "authToken"

  /** `localStorage` as a string-to-string map. */
  class LocalStorage {
    var items: map<string, string>

    constructor (items: map<string, string>)
      ensures this.items == items
    {
      this.items := items;
    }
  }

  /** `localStorage.getItem('authToken')` read on mount, kept only when truthy. */
  function StoredToken(items: map<string, string>): (r: Option<string>)
    ensures r.Some? <==> TokenKey in items && items[TokenKey] != ""
    ensures r.Some? ==> r.value == items[TokenKey]
  {
    if TokenKey in items && items[TokenKey] != "" then Some(items[TokenKey]) else None
  }

  /** A token written by `login` is found again on the next mount exactly when
      it is non-empty; after `logout` nothing is found. Other keys play no part. */
  lemma StoredTokenRoundTrip(items: map<string, string>, t: string)
    ensures StoredToken(items[TokenKey := t]) == if t != "" then Some(t) else None
    ensures StoredToken(items - {TokenKey}) == None
  {
    assert TokenKey !in items - {TokenKey};
  }

  /** What `useAuth` returns besides `login` and `logout`. */
  datatype AuthValue = AuthValue(token: Option<string>, isAuthenticated: bool)

  class AuthProvider {
    var token: Option<string>
    const storage: LocalStorage

    /** The token starts as `null`. */
    constructor (storage: LocalStorage)
      ensures token.None? && this.storage == storage
    {
      token := None;
      this.storage := storage;
    }

    /** The mount effect: adopt the stored token when it is non-empty, else keep the current one. */
    method Mount()
      modifies this
      ensures token == if StoredToken(storage.items).Some? then StoredToken(storage.items) else old(token)
    {
      if TokenKey in storage.items && storage.items[TokenKey] != "" {
        token := Some(storage.items[TokenKey]);
      }
    }

    /** `login(t)`: the token becomes `t` and storage holds `t` under 'authToken'. */
    method Login(t: string)
      modifies this, storage
      ensures token == Some(t)
      ensures storage.items == old(storage.items)[TokenKey := t]
    {
      token := Some(t);
      storage.items := storage.items[TokenKey := t];
    }

    /** `logout()`: the token becomes `null` and 'authToken' leaves storage. */
    method Logout()
      modifies this, storage
      ensures token.None?
      ensures storage.items == old(storage.items) - {TokenKey}
    {
      token := None;
      storage.items := storage.items - {TokenKey};
    }

    /** `!!token`: the same test the data hooks make before sending a request. */
    predicate IsAuthenticated()
      reads this
    {
      ApiConfig.TokenPresent(token)
    }

    function Value(): (v: AuthValue)
      reads this
      ensures v.token == token
      ensures v.isAuthenticated <==> token.Some? && token.value != ""
    {
      AuthValue(token, IsAuthenticated())
    }
  }

  const UseAuthError := "useAuth must be used within an ApiProvider"

  /** `useAuth`: the provider's value, or an error outside one. */
  function UseAuth(context: Option<AuthValue>): (r: Result<AuthValue, string>)
    ensures r.Err? <==> context.None?
    ensures r.Err? ==> r.error == UseAuthError
    ensures r.Ok? ==> r.value == context.value
  {
    match context
    case None => Err(UseAuthError)
    case Some(v) => Ok(v)
  }
}
