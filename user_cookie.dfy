/** The persistent `user_cookie` of src/lib/userCookie.ts: a browser identifier created once and
    read back ever after. Neither function catches, so blocked storage surfaces as a throw. */
module UserCookie {
  import opened Common
  import opened BrowserStorage

  const UserCookieKey: string := "user_cookie"

  /** `!cookie`: a missing value and the empty string both count as no cookie. */
  predicate HasUsableCookie(items: map<string, string>)
  {
    UserCookieKey in items && items[UserCookieKey] != ""
  }

  /** The id `getUserCookie` returns with reachable storage, `freshId` standing for what
      `crypto.randomUUID()` would give. */
  function UserCookieValue(items: map<string, string>, freshId: string): (id: string)
    ensures HasUsableCookie(items) ==> id == items[UserCookieKey]
    ensures !HasUsableCookie(items) ==> id == freshId
  {
    if HasUsableCookie(items) then items[UserCookieKey] else freshId
  }

  /** The items `getUserCookie` leaves: the fresh id is stored only when there was no usable
      cookie; every other key is untouched. */
  function UserCookieItems(items: map<string, string>, freshId: string): (r: map<string, string>)
    ensures HasUsableCookie(items) ==> r == items
    ensures UserCookieKey in r && r[UserCookieKey] == UserCookieValue(items, freshId)
    ensures forall k :: k != UserCookieKey ==> Lookup(r, k) == Lookup(items, k)
  {
    if HasUsableCookie(items) then items else items[UserCookieKey := freshId]
  }

  /** `getUserCookie()`: "" on the server, where storage is not touched. `randomUuid` is what
      `crypto.randomUUID()` answers, None where the browser does not offer it (outside a secure
      context): calling it then throws a TypeError, since this file has no fallback. */
  method GetUserCookie(hasWindow: bool, store: LocalStorage, randomUuid: Option<string>) returns (r: Outcome<string>)
    modifies store
    ensures !hasWindow ==> r == Returned("") && store.items == old(store.items)
    ensures hasWindow && !store.accessible ==> r == Threw && store.items == old(store.items)
    ensures hasWindow && store.accessible && HasUsableCookie(old(store.items)) ==>
              r == Returned(old(store.items)[UserCookieKey]) && store.items == old(store.items)
    ensures hasWindow && store.accessible && !HasUsableCookie(old(store.items)) && randomUuid.None? ==>
              r == Threw && store.items == old(store.items)
    ensures hasWindow && store.accessible && !HasUsableCookie(old(store.items)) && randomUuid.Some? ==>
              r == Returned(UserCookieValue(old(store.items), randomUuid.value))
              && store.items == UserCookieItems(old(store.items), randomUuid.value)
  {
    if !hasWindow {
      return Returned("");
    }
    if !store.accessible {
      return Threw;
    }
    var cookie := store.GetItem(UserCookieKey);
    if cookie.None? || cookie.value == "" {
      if randomUuid.None? {
        return Threw;
      }
      cookie := randomUuid;
      store.SetItem(UserCookieKey, randomUuid.value);
    }
    return Returned(cookie.value);
  }

  /** `hasUserCookie()`: false on the server; otherwise whether the key is present at all. */
  method HasUserCookie(hasWindow: bool, store: LocalStorage) returns (r: Outcome<bool>)
    ensures !hasWindow ==> r == Returned(false)
    ensures hasWindow && !store.accessible ==> r == Threw
    ensures hasWindow && store.accessible ==> r == Returned(UserCookieKey in store.items)
  {
    if !hasWindow {
      return Returned(false);
    }
    if !store.accessible {
      return Threw;
    }
    var cookie := store.GetItem(UserCookieKey);
    return Returned(cookie.Some?);
  }

  /** The cookie is stable: a second call returns the first call's id, whatever fresh id it
      could have drawn, and stores nothing new. A fresh id is assumed non-empty, as every
      `randomUUID` result is. */
  lemma SecondCallReturnsSameId(items: map<string, string>, freshId: string, later: string)
    requires freshId != ""
    ensures var after := UserCookieItems(items, freshId);
      && UserCookieValue(after, later) == UserCookieValue(items, freshId)
      && UserCookieItems(after, later) == after
  {
    assert HasUsableCookie(UserCookieItems(items, freshId));
  }

  /** After a client call the key holds exactly the id returned, so `hasUserCookie` answers
      true. */
  lemma StoredAfterGet(items: map<string, string>, freshId: string)
    ensures var after := UserCookieItems(items, freshId);
      UserCookieKey in after && after[UserCookieKey] == UserCookieValue(items, freshId)
  {
  }

  /** The two functions disagree on an empty stored value: `hasUserCookie` reports a cookie,
      yet `getUserCookie` treats it as missing and replaces it. */
  lemma EmptyValueDisagreement(items: map<string, string>, freshId: string)
    requires UserCookieKey in items && items[UserCookieKey] == ""
    requires freshId != ""
    ensures UserCookieKey in items
    ensures UserCookieValue(items, freshId) == freshId != items[UserCookieKey]
    ensures UserCookieItems(items, freshId) != items
  {
    assert UserCookieItems(items, freshId)[UserCookieKey] != items[UserCookieKey];
  }
}
