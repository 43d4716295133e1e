/** The browser's `localStorage`: a string-to-string map the stores write through. */
module BrowserStorage {
  import opened Wrappers

  class LocalStorage {
    var items: map<string, string>

    constructor(items0: map<string, string>)
      ensures items == items0
    {
      items := items0;
    }

    method SetItem(key: string, value: string)
      modifies this`items
      ensures items == old(items)[key := value]
    {
      items := items[key := value];
    }

    method RemoveItem(key: string)
      modifies this`items
      ensures items == old(items) - {key}
    {
      items := items - {key};
    }
  }

  /** `text || null`: the empty string reads as nothing. */
  function OrNull(text: string): (v: Option<string>)
    ensures v.Some? <==> text != ""
    ensures v.Some? ==> v.value == text
  {
    if text != "" then Some(text) else None
  }

  /** `localStorage.getItem(key) || null`: a missing key and an empty value both
      read as nothing. */
  function Stored(items: map<string, string>, key: string): (v: Option<string>)
    ensures v.Some? <==> key in items && items[key] != ""
    ensures v.Some? ==> v.value == items[key]
  {
    if key in items then OrNull(items[key]) else None
  }

  /** JavaScript's truthiness of a string that may be null or undefined. */
  predicate Truthy(v: Option<string>) { v.Some? && v.value != "" }

  /** What `setItem` stores for a value that may be undefined: the text "undefined". */
  function AsText(v: Option<string>): string
  {
    if v.Some? then v.value else "undefined"
  }
}

/** The pinia `auth` store: the JWT pair, the user record and the token's expiry,
    held in memory and mirrored to `localStorage`. Times are milliseconds since the
    epoch, the current one passed in; the server's answers arrive as parameters. */
module AuthStore {
  import opened Wrappers
  import opened Text
  import opened BrowserStorage

  const FiveMinutes: nat := 5 * 60 * 1000
  const SevenDays: nat := 7 * 24 * 60 * 60 * 1000

  const AccessKey := "access"
  const RefreshKey := "refresh"
  const UserKey := "user"
  const ExpiryKey := "token_expiry"
  const UsernameKey := "username"

  /** An expiry as `new Date(text)` reads it: a time, or an invalid date whose
      `getTime()` is NaN. */
  datatype Expiry = At(ms: nat) | InvalidDate

  /** The token pair a login or refresh answer carries; either may be absent. */
  datatype Tokens = Tokens(access: Option<string>, refresh: Option<string>)

  /** Why `refreshTokens` throws. */
  datatype RefreshError = NoRefreshToken | RequestFailed(reason: string)

  /** The store's state. */
  datatype Session = Session(access: Option<string>, refresh: Option<string>,
                             user: Option<string>, expiry: Option<Expiry>)

  const LoggedOut := Session(None, None, None, None)

  /** The expiry text in storage. */
  function ExpiryText(e: Expiry): string
  {
    if e.At? then NatToString(e.ms) else "Invalid Date"
  }

  /** The state a store starts in, read from storage. */
  function Restore(items: map<string, string>): (s: Session)
    ensures s.access == Stored(items, AccessKey) && s.refresh == Stored(items, RefreshKey)
    ensures s.user == Stored(items, UserKey)
    ensures s.expiry.Some? <==> Stored(items, ExpiryKey).Some?
  {
    var text := Stored(items, ExpiryKey);
    var expiry :=
      if text.None? then None
      else match ParseNat(text.value)
        case Some(ms) => Some(At(ms))
        case None => Some(InvalidDate);
    Session(Stored(items, AccessKey), Stored(items, RefreshKey), Stored(items, UserKey), expiry)
  }

  /** `isAuthenticated`. */
  predicate Authenticated(s: Session)
  {
    Truthy(s.access) && Truthy(s.refresh)
  }

  /** `isTokenExpired`: no expiry counts as expired, and so does one less than five
      minutes away; an invalid date never does, because a comparison with NaN is
      false. */
  predicate ExpiredAt(s: Session, now: nat)
  {
    match s.expiry
    case None => true
    case Some(At(ms)) => ms - now < FiveMinutes
    case Some(InvalidDate) => false
  }

  /** The storage after `setTokens(t)` at `now`. */
  function WithTokens(items: map<string, string>, t: Tokens, now: nat): map<string, string>
  {
    items[AccessKey := AsText(t.access)][RefreshKey := AsText(t.refresh)][ExpiryKey := NatToString(now + SevenDays)]
  }

  /** The storage after `clearTokens`. */
  function Cleared(items: map<string, string>): map<string, string>
  {
    items - {AccessKey} - {RefreshKey} - {UserKey} - {ExpiryKey} - {UsernameKey}
  }

  /** A store created from the storage `setTokens` left reads back the tokens as
      they were written (a missing one as the text "undefined") and the expiry as a
      time seven days after `now`, so it is not yet expired. */
  lemma {:induction false} ReloadAfterSetTokens(items: map<string, string>, t: Tokens, now: nat)
    ensures Restore(WithTokens(items, t, now)).access == OrNull(AsText(t.access))
    ensures Restore(WithTokens(items, t, now)).refresh == OrNull(AsText(t.refresh))
    ensures Restore(WithTokens(items, t, now)).user == Stored(items, UserKey)
    ensures Restore(WithTokens(items, t, now)).expiry == Some(At(now + SevenDays))
    ensures !ExpiredAt(Restore(WithTokens(items, t, now)), now)
  {
    var after := WithTokens(items, t, now);
    assert after[ExpiryKey] == NatToString(now + SevenDays);
    ParseNatToString(now + SevenDays);
  }

  /** A refresh answer that carries no refresh token (the refresh endpoint's answer
      when it does not rotate tokens) leaves the store unauthenticated in memory,
      while a store created from the storage it left is authenticated, holding the
      text "undefined" as its refresh token. */
  lemma RefreshWithoutRotation(items: map<string, string>, access: string, user: Option<string>, now: nat)
    requires access != ""
    ensures !Authenticated(Session(Some(access), None, user, Some(At(now + SevenDays))))
    ensures Authenticated(Restore(WithTokens(items, Tokens(Some(access), None), now)))
    ensures Restore(WithTokens(items, Tokens(Some(access), None), now)).refresh == Some("undefined")
  {
    ReloadAfterSetTokens(items, Tokens(Some(access), None), now);
  }

  /** A store created from the storage `clearTokens` left is logged out. */
  lemma ReloadAfterClear(items: map<string, string>)
    ensures Restore(Cleared(items)) == LoggedOut
    ensures !Authenticated(Restore(Cleared(items)))
  {
  }

  class Store {
    var accessToken: Option<string>
    var refreshToken: Option<string>
    var user: Option<string>
    var tokenExpiry: Option<Expiry>
    var isRefreshing: bool
    const storage: LocalStorage

    /** Between calls no refresh is in flight. */
    ghost predicate Valid()
      reads this
    {
      !isRefreshing
    }

    function Current(): Session
      reads this
    {
      Session(accessToken, refreshToken, user, tokenExpiry)
    }

    function IsAuthenticated(): (b: bool)
      reads this
      ensures b <==> Truthy(accessToken) && Truthy(refreshToken)
    {
      Authenticated(Current())
    }

    function IsTokenExpired(now: nat): (b: bool)
      reads this
      ensures tokenExpiry.None? ==> b
      ensures tokenExpiry == Some(InvalidDate) ==> !b
      ensures tokenExpiry.Some? && tokenExpiry.value.At? ==> (b <==> tokenExpiry.value.ms < now + FiveMinutes)
    {
      ExpiredAt(Current(), now)
    }

    /** The store as `defineStore` sets it up from storage. */
    constructor(storage: LocalStorage)
      ensures Valid() && this.storage == storage
      ensures Current() == Restore(storage.items)
    {
      this.storage := storage;
      var restored := Restore(storage.items);
      accessToken := restored.access;
      refreshToken := restored.refresh;
      user := restored.user;
      tokenExpiry := restored.expiry;
      isRefreshing := false;
    }

    /** `setTokens`: the pair and an expiry seven days on, in memory and in storage. */
    method SetTokens(t: Tokens, now: nat)
      modifies this`accessToken, this`refreshToken, this`tokenExpiry, storage`items
      ensures accessToken == t.access && refreshToken == t.refresh
      ensures tokenExpiry == Some(At(now + SevenDays))
      ensures storage.items == WithTokens(old(storage.items), t, now)
      ensures !IsTokenExpired(now)
    {
      accessToken := t.access;
      refreshToken := t.refresh;
      tokenExpiry := Some(At(now + SevenDays));
      storage.SetItem(AccessKey, AsText(t.access));
      storage.SetItem(RefreshKey, AsText(t.refresh));
      storage.SetItem(ExpiryKey, NatToString(now + SevenDays));
    }

    /** `clearTokens`: the four fields emptied and the five keys removed. */
    method ClearTokens()
      modifies this`accessToken, this`refreshToken, this`user, this`tokenExpiry, storage`items
      ensures Current() == LoggedOut
      ensures storage.items == Cleared(old(storage.items))
      ensures !IsAuthenticated() && IsTokenExpired(0)
    {
      accessToken := None;
      refreshToken := None;
      user := None;
      tokenExpiry := None;
      storage.RemoveItem(AccessKey);
      storage.RemoveItem(RefreshKey);
      storage.RemoveItem(UserKey);
      storage.RemoveItem(ExpiryKey);
      storage.RemoveItem(UsernameKey);
    }

    /** `login` given the token endpoint's answer: on success the tokens are set;
        on failure everything is cleared and the error is passed on. */
    method Login(answer: Result<Tokens, string>, now: nat) returns (r: Result<Tokens, string>)
      modifies this`accessToken, this`refreshToken, this`user, this`tokenExpiry, storage`items
      ensures r == answer
      ensures answer.Err? ==> Current() == LoggedOut && storage.items == Cleared(old(storage.items))
      ensures answer.Ok? ==>
        Current() == Session(answer.value.access, answer.value.refresh, old(user), Some(At(now + SevenDays)))
        && storage.items == WithTokens(old(storage.items), answer.value, now)
    {
      if answer.Err? {
        ClearTokens();
      } else {
        SetTokens(answer.value, now);
      }
      r := answer;
    }

    /** `logout`: whatever the blacklist call answers, the tokens are cleared. */
    method Logout()
      modifies this`accessToken, this`refreshToken, this`user, this`tokenExpiry, storage`items
      ensures Current() == LoggedOut
      ensures storage.items == Cleared(old(storage.items))
    {
      ClearTokens();
      storage.RemoveItem(AccessKey);
      storage.RemoveItem(RefreshKey);
      assert Cleared(old(storage.items)) - {AccessKey} - {RefreshKey} == Cleared(old(storage.items));
    }

    /** `refreshTokens` given the refresh endpoint's answer. Without a refresh token
        it throws and changes nothing. Otherwise the endpoint's client writes the new
        access token, then `setTokens` stores the answer; a failed call clears the
        tokens and sends the page to `/login`. */
    method RefreshTokens(answer: Result<Tokens, string>, now: nat)
      returns (r: Result<Tokens, RefreshError>, navigateTo: Option<string>)
      requires Valid()
      modifies this`accessToken, this`refreshToken, this`user, this`tokenExpiry, this`isRefreshing, storage`items
      ensures Valid()
      ensures !Truthy(old(refreshToken)) ==>
        r == Err(NoRefreshToken) && navigateTo.None?
        && Current() == old(Current()) && storage.items == old(storage.items)
      ensures Truthy(old(refreshToken)) && answer.Ok? ==>
        r == Ok(answer.value) && navigateTo.None?
        && Current() == Session(answer.value.access, answer.value.refresh, old(user), Some(At(now + SevenDays)))
        && storage.items == WithTokens(old(storage.items), answer.value, now)
      ensures Truthy(old(refreshToken)) && answer.Err? ==>
        r == Err(RequestFailed(answer.error)) && navigateTo == Some("/login")
        && Current() == LoggedOut && storage.items == Cleared(old(storage.items))
    {
      if !Truthy(refreshToken) {
        return Err(NoRefreshToken), None;
      }
      isRefreshing := true;
      if answer.Ok? {
        storage.SetItem(AccessKey, AsText(answer.value.access));
        SetTokens(answer.value, now);
        r, navigateTo := Ok(answer.value), None;
      } else {
        ClearTokens();
        r, navigateTo := Err(RequestFailed(answer.error)), Some("/login");
      }
      isRefreshing := false;
    }

    /** `checkAndRefreshToken`: false without a session, true for an unexpired one,
        and for an expired one whether the refresh succeeded. A failed refresh has
        already set `window.location.href` to `/login`; that page load is returned
        in `navigateTo`. */
    method CheckAndRefreshToken(answer: Result<Tokens, string>, now: nat) returns (ok: bool, navigateTo: Option<string>)
      requires Valid()
      modifies this`accessToken, this`refreshToken, this`user, this`tokenExpiry, this`isRefreshing, storage`items
      ensures Valid()
      ensures !old(IsAuthenticated()) ==>
        !ok && navigateTo.None? && Current() == old(Current()) && storage.items == old(storage.items)
      ensures old(IsAuthenticated()) && !old(IsTokenExpired(now)) ==>
        ok && navigateTo.None? && Current() == old(Current()) && storage.items == old(storage.items)
      ensures old(IsAuthenticated()) && old(IsTokenExpired(now)) ==>
        (ok <==> answer.Ok?)
        && (ok ==> navigateTo.None?
                   && Current() == Session(answer.value.access, answer.value.refresh, old(user), Some(At(now + SevenDays)))
                   && storage.items == WithTokens(old(storage.items), answer.value, now))
        && (!ok ==> navigateTo == Some("/login") && Current() == LoggedOut && storage.items == Cleared(old(storage.items)))
      ensures ok ==> Current() == old(Current()) || !IsTokenExpired(now)
    {
      if !IsAuthenticated() {
        return false, None;
      }
      if IsTokenExpired(now) {
        var r;
        r, navigateTo := RefreshTokens(answer, now);
        return r.Ok?, navigateTo;
      }
      return true, None;
    }
  }
}

/** The pinia `orientation` store: the selected orientation filter, persisted. */
module OrientationStore {
  import opened Wrappers
  import opened BrowserStorage
  import opened OperationsModels

  const OrientationKey := "orientationFilter"

  datatype Filter = Filter(id: string, name: string)

  const OrientationFilters: seq<Filter> := [
    Filter("all", "All"), Filter("straight", "Straight"), Filter("gay", "Gay"),
    Filter("bi", "Bi"), Filter("trans", "Trans"), Filter("sfw", "SFW")]

  /** The ids of `filters`, in order. */
  function Ids(filters: seq<Filter>): (r: seq<string>)
    ensures |r| == |filters| && forall i :: 0 <= i < |r| ==> r[i] == filters[i].id
  {
    if filters == [] then [] else [filters[0].id] + Ids(filters[1..])
  }

  /** The menu offers "all" and then exactly the orientations a video can have. */
  lemma FiltersAreChoices()
    ensures Ids(OrientationFilters) == ["all"] + OrientationChoices
  {
  }

  /** The selection a new store starts with: the stored one, or "all". */
  function InitialSelection(items: map<string, string>): (s: string)
    ensures s == (if Stored(items, OrientationKey).Some? then items[OrientationKey] else "all")
  {
    match Stored(items, OrientationKey)
    case Some(id) => id
    case None => "all"
  }

  /** After `setOrientation(id)`, a new store starts with `id`, except that an
      empty id reads back as "all". */
  lemma ReloadKeepsSelection(items: map<string, string>, id: string)
    ensures id != "" ==> InitialSelection(items[OrientationKey := id]) == id
    ensures id == "" ==> InitialSelection(items[OrientationKey := id]) == "all"
  {
  }

  class Store {
    var selectedOrientation: string
    const storage: LocalStorage

    constructor(storage: LocalStorage)
      ensures this.storage == storage
      ensures selectedOrientation == InitialSelection(storage.items)
    {
      this.storage := storage;
      selectedOrientation := InitialSelection(storage.items);
    }

    /** `setOrientation`: any id is taken as it is and written to storage. */
    method SetOrientation(id: string)
      modifies this`selectedOrientation, storage`items
      ensures selectedOrientation == id
      ensures storage.items == old(storage.items)[OrientationKey := id]
    {
      selectedOrientation := id;
      storage.SetItem(OrientationKey, id);
    }
  }
}
