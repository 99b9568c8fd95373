/**
 * The router's global `beforeEach` guard and its two static redirects.
 * The guard reads the stored token and answers with one decision: let the
 * navigation through, or send it to another path.
 */
module Router {
  import opened JsText
  import opened WebStorage
  import opened Permissions

  datatype Decision = Proceed | RedirectTo(path: string)

  const LOGIN_PATH: string := "/login"
  const REGISTER_PATH: string := "/register"

  /** The pages open without a token. */
  predicate IsPublic(path: string) {
    path == LOGIN_PATH || path == REGISTER_PATH
  }

  /** `!token` is false only for a stored, non-empty token. */
  predicate HasToken(storage: map<string, string>) {
    match Lookup(storage, TOKEN_KEY)
    case None => false
    case Some(t) => t != ""
  }

  /** The `beforeEach` callback: the answer it passes to `next`. */
  function Guard(path: string, storage: map<string, string>): (d: Decision)
    ensures d == Proceed || d == RedirectTo(LOGIN_PATH)
  {
    if IsPublic(path) then Proceed
    else if !HasToken(storage) then RedirectTo(LOGIN_PATH)
    else Proceed
  }

  /** The three outcomes of the guard, each with the condition that leads
      to it; the permission mask plays no part. */
  lemma GuardOutcomes(path: string, storage: map<string, string>)
    ensures IsPublic(path) ==> Guard(path, storage) == Proceed
    ensures Guard(path, storage) == RedirectTo(LOGIN_PATH)
            <==> !IsPublic(path) && (TOKEN_KEY !in storage || storage[TOKEN_KEY] == "")
    ensures TOKEN_KEY in storage && storage[TOKEN_KEY] != "" ==> Guard(path, storage) == Proceed
  {
  }

  /** A redirect never loops: its target is the login page, which the
      guard always lets through. */
  lemma GuardNeverLoops(path: string, storage: map<string, string>)
    ensures Guard(path, storage).RedirectTo? ==> Guard(Guard(path, storage).path, storage) == Proceed
  {
  }

  /** After `SET_TOKEN` with a non-empty access token every page is open;
      after `CLEAR_AUTH` every page but login and register sends the user
      to login. */
  lemma GuardAfterStoreChanges(path: string, items: map<string, string>, accessToken: string, refreshToken: string)
    ensures accessToken != "" ==> Guard(path, StoreTokens(items, accessToken, refreshToken)) == Proceed
    ensures !IsPublic(path) ==> Guard(path, RemoveTokens(items)) == RedirectTo(LOGIN_PATH)
  {
  }

  /** The `redirect` entries of `routes`. */
  function StaticRedirect(path: string): (r: Option<string>)
    ensures r.Some? ==> r.value != path
  {
    if path == "/" then Some(LOGIN_PATH)
    else if path == "/dashboard" then Some("/home")
    else None
  }

  /** `/` goes to login, `/dashboard` to `/home`, no other path is
      redirected by the table, and a target is never redirected again. */
  lemma StaticRedirects(path: string)
    ensures StaticRedirect("/") == Some(LOGIN_PATH)
    ensures StaticRedirect("/dashboard") == Some("/home")
    ensures path != "/" && path != "/dashboard" ==> StaticRedirect(path) == None
    ensures StaticRedirect(path).Some? ==> StaticRedirect(StaticRedirect(path).value).None?
  {
  }
}
