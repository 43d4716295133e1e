/** The router's `beforeEach` guard: paths under a protected prefix need a valid
    session, checked (and refreshed if need be) through the auth store. */
module RouteGuard {
  import opened Wrappers
  import opened Text
  import opened AuthStore

  const ProtectedRoutes: seq<string> := ["/bookmarks/create"]

  /** `protectedRoutes.some(route => to.path.startsWith(route))`. */
  predicate RequiresAuth(path: string)
  {
    exists i :: 0 <= i < |ProtectedRoutes| && StartsWith(path, ProtectedRoutes[i])
  }

  datatype Navigation = Proceed | Redirect(path: string, query: map<string, string>)

  const LoginPath := "/login"

  /** Only the bookmark-creation pages are protected. */
  lemma RequiresAuthIffCreate(path: string)
    ensures RequiresAuth(path) <==> StartsWith(path, "/bookmarks/create")
  {
    if StartsWith(path, "/bookmarks/create") {
      assert StartsWith(path, ProtectedRoutes[0]);
    }
  }

  /** One navigation to `path` (whose full form with query and hash is `fullPath`):
      an unprotected path proceeds without touching the session; a protected one
      proceeds when the session checks out and otherwise goes to the login page,
      which is told where to return. When the check failed because a refresh
      failed, the store has also set `window.location.href` to `/login`: that full
      page load, returned in `pageLoad`, leaves the application and so drops the
      in-application redirect and its query. */
  method BeforeEach(auth: Store, path: string, fullPath: string, answer: Result<Tokens, string>, now: nat)
    returns (n: Navigation, pageLoad: Option<string>)
    requires auth.Valid()
    modifies auth`accessToken, auth`refreshToken, auth`user, auth`tokenExpiry, auth`isRefreshing, auth.storage`items
    ensures auth.Valid()
    ensures !RequiresAuth(path) ==>
      n == Proceed && pageLoad.None?
      && auth.Current() == old(auth.Current()) && auth.storage.items == old(auth.storage.items)
    ensures n.Redirect? ==> RequiresAuth(path) && n == Redirect(LoginPath, map["redirect" := fullPath])
    ensures RequiresAuth(path) && !old(auth.IsAuthenticated()) ==> n.Redirect? && pageLoad.None?
    ensures RequiresAuth(path) && old(auth.IsAuthenticated()) && !old(auth.IsTokenExpired(now)) ==>
      n == Proceed && pageLoad.None?
    ensures RequiresAuth(path) && old(auth.IsAuthenticated()) && old(auth.IsTokenExpired(now)) ==>
      (n == Proceed <==> answer.Ok?)
      && (pageLoad == Some(LoginPath) <==> answer.Err?)
      && (answer.Ok? ==> pageLoad.None?)
    ensures pageLoad.Some? ==> n.Redirect? && pageLoad == Some(LoginPath)
    ensures RequiresAuth(path) && !(old(auth.IsAuthenticated()) && old(auth.IsTokenExpired(now))) ==>
      auth.Current() == old(auth.Current()) && auth.storage.items == old(auth.storage.items)
    ensures RequiresAuth(path) && old(auth.IsAuthenticated()) && old(auth.IsTokenExpired(now)) && answer.Ok? ==>
      auth.Current() == Session(answer.value.access, answer.value.refresh, old(auth.user), Some(At(now + SevenDays)))
      && auth.storage.items == WithTokens(old(auth.storage.items), answer.value, now)
    ensures RequiresAuth(path) && old(auth.IsAuthenticated()) && old(auth.IsTokenExpired(now)) && answer.Err? ==>
      auth.Current() == LoggedOut && auth.storage.items == Cleared(old(auth.storage.items))
  {
    pageLoad := None;
    if RequiresAuth(path) {
      var valid;
      valid, pageLoad := auth.CheckAndRefreshToken(answer, now);
      if !valid {
        return Redirect(LoginPath, map["redirect" := fullPath]), pageLoad;
      }
    }
    return Proceed, pageLoad;
  }
}
