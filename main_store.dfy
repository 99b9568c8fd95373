/**
 * The Vuex store that `main.js` installs in the application: the same
 * three state fields and mutations as `authStore`, except that
 * `SET_PERMISSIONS` parses its argument itself and `loginSuccess` reads
 * the login fields from the argument it is given, not from `.data`.
 */
module MainStore {
  import opened JsText
  import opened WebStorage
  import opened Permissions

  /** The fields `loginSuccess` destructures from its argument. */
  datatype LoginFields = LoginFields(permissions: string, accessToken: string, refreshToken: string)

  class AppStore {
    var permissions: Num
    var token: string
    var refreshToken: string
    const storage: LocalStorage

    function State(): AuthState
      reads this
    {
      AuthState(permissions, token, refreshToken)
    }

    /** The tokens in the state are those in storage (or empty when absent). */
    ghost predicate Synced()
      reads this, storage
    {
      token == StoredOrEmpty(storage.items, TOKEN_KEY)
      && refreshToken == StoredOrEmpty(storage.items, REFRESH_TOKEN_KEY)
    }

    /** The initial `state`: mask 0, tokens read back from storage. */
    constructor (storage: LocalStorage)
      ensures this.storage == storage
      ensures State() == LoadedState(storage.items)
      ensures Synced()
    {
      this.storage := storage;
      permissions := Int(0);
      var t := storage.GetItem(TOKEN_KEY);
      var r := storage.GetItem(REFRESH_TOKEN_KEY);
      token := if t.Some? then t.value else "";
      refreshToken := if r.Some? then r.value else "";
    }

    /** `SET_PERMISSIONS`: stores `parseInt` of its argument, nothing else. */
    method SetPermissions(raw: string)
      modifies this
      ensures State() == old(State()).(permissions := ParseInt(raw))
      ensures old(Synced()) ==> Synced()
    {
      permissions := ParseInt(raw);
    }

    /** `SET_TOKEN`: both tokens into the state and into storage. */
    method SetToken(accessToken: string, refreshToken: string)
      modifies this, storage
      ensures State() == old(State()).(token := accessToken, refreshToken := refreshToken)
      ensures storage.items == StoreTokens(old(storage.items), accessToken, refreshToken)
      ensures Synced()
    {
      token := accessToken;
      this.refreshToken := refreshToken;
      storage.SetItem(TOKEN_KEY, accessToken);
      storage.SetItem(REFRESH_TOKEN_KEY, refreshToken);
    }

    /** `CLEAR_AUTH`: mask to 0, tokens emptied and removed from storage. */
    method ClearAuth()
      modifies this, storage
      ensures State() == AuthState(Int(0), "", "")
      ensures storage.items == RemoveTokens(old(storage.items))
      ensures Synced()
    {
      permissions := Int(0);
      token := "";
      refreshToken := "";
      storage.RemoveItem(TOKEN_KEY);
      storage.RemoveItem(REFRESH_TOKEN_KEY);
    }

    /** The `loginSuccess` action: the three fields come from `response`
        itself. */
    method LoginSuccess(response: LoginFields)
      modifies this, storage
      ensures State() == AuthState(ParseInt(response.permissions), response.accessToken, response.refreshToken)
      ensures storage.items == StoreTokens(old(storage.items), response.accessToken, response.refreshToken)
      ensures Synced()
    {
      SetPermissions(response.permissions);
      SetToken(response.accessToken, response.refreshToken);
    }

    /** The `logout` action: exactly `CLEAR_AUTH`. */
    method Logout()
      modifies this, storage
      ensures State() == AuthState(Int(0), "", "")
      ensures storage.items == RemoveTokens(old(storage.items))
      ensures Synced()
    {
      ClearAuth();
    }
  }

  /** The two stores agree once each gets the response shape it expects:
      the installed store given the fields, `authStore` given them under
      `data`. When both write to the same `localStorage`, it ends up holding
      the tokens once. */
  method LoginInBoth(app: AppStore, auth: AuthStore, fields: LoginFields)
    modifies app, app.storage, auth, auth.storage
    ensures app.State() == auth.State()
    ensures app.State().permissions == ParseInt(fields.permissions)
    ensures app.storage == auth.storage ==>
      app.storage.items == StoreTokens(old(app.storage.items), fields.accessToken, fields.refreshToken)
  {
    app.LoginSuccess(fields);
    auth.LoginSuccess(AxiosResponse(LoginPayload(fields.permissions, fields.accessToken, fields.refreshToken)));
  }
}
