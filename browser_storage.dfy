/** `window.localStorage`, shared by src/utils/userActions.ts, src/components/AffiliationBootstrap.tsx,
    src/lib/userCookie.ts and src/lib/CookieConsentContext.tsx: one string-to-string map. */
module BrowserStorage {
  import opened Common

  /** The key holding the browser's session id (a UUID, or the JSON cookie with tokens);
      src/utils/userActions.ts:3 and src/components/AffiliationBootstrap.tsx:7 both declare it. */
  const SessionCookieKey: string := "session_cookie"

  /** The key an earlier version used for the pre-auth id (same two files, lines 4 and 8). */
  const LegacySessionCookieKey: string := "affiliation_pre_auth_user_id"

  /** The two session keys are different keys. */
  lemma SessionKeysDiffer()
    ensures SessionCookieKey != LegacySessionCookieKey
  {
    assert |SessionCookieKey| == 14 && |LegacySessionCookieKey| == 28;
  }

  /** `getItem` on a map of items: None is `null`. */
  function Lookup(items: map<string, string>, key: string): (r: Option<string>)
    ensures r.Some? <==> key in items
    ensures r.Some? ==> items[key] == r.value
  {
    if key in items then Some(items[key]) else None
  }

  /** Removing a key leaves every other key's item as it was. */
  lemma RemoveKeepsOthers(items: map<string, string>, key: string)
    ensures forall k :: k != key ==> Lookup(items - {key}, k) == Lookup(items, k)
  {
  }

  /** Setting a key leaves every other key's item as it was. */
  lemma SetKeepsOthers(items: map<string, string>, key: string, value: string)
    ensures forall k :: k != key ==> Lookup(items[key := value], k) == Lookup(items, k)
  {
  }

  class LocalStorage {
    /** The stored items. */
    var items: map<string, string>

    /** False when the browser blocks storage: reading `window.localStorage` then throws, so
        every access throws before it reads or writes anything. */
    const accessible: bool

    constructor (initial: map<string, string>, accessible: bool)
      ensures items == initial && this.accessible == accessible
    {
      items := initial;
      this.accessible := accessible;
    }

    /** `getItem(key)`: the stored string, or null for a key never set or since removed. */
    function GetItem(key: string): (r: Option<string>)
      reads this
      requires accessible
      ensures r.Some? <==> key in items
      ensures r.Some? ==> r.value == items[key]
    {
      Lookup(items, key)
    }

    method SetItem(key: string, value: string)
      requires accessible
      modifies this
      ensures items == old(items)[key := value]
    {
      items := items[key := value];
    }

    method RemoveItem(key: string)
      requires accessible
      modifies this
      ensures items == old(items) - {key}
    {
      items := items - {key};
    }
  }
}
