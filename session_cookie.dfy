/** The session cookie of src/components/AffiliationBootstrap.tsx (lines 20-71): a copy of the
    browser's anonymous identity kept in localStorage, either as JSON with the anonymous
    session's tokens or, in the legacy form, as the bare user id. */
module SessionCookie {
  import opened Common
  import opened Json
  import opened BrowserStorage

  /** `SessionCookieValue`: the id and, when known, the anonymous session's tokens. */
  datatype SessionCookieValue = SessionCookieValue(userId: string, accessToken: Option<string>, refreshToken: Option<string>)

  /** `value.access_token && value.refresh_token`: both tokens present and non-empty. */
  predicate HasBothTokens(v: SessionCookieValue)
  {
    v.accessToken.Some? && v.accessToken.value != "" && v.refreshToken.Some? && v.refreshToken.value != ""
  }

  // ---------------------------------------------------------------- reading (lines 20-30)

  /** `getItem(SESSION_COOKIE_KEY) ?? getItem(LEGACY_SESSION_COOKIE_KEY)`. */
  function RawCookie(items: map<string, string>): (r: Option<string>)
    ensures r.None? <==> SessionCookieKey !in items && LegacySessionCookieKey !in items
    ensures r.Some? ==> r.value in items.Values
  {
    if SessionCookieKey in items then Some(items[SessionCookieKey]) else Lookup(items, LegacySessionCookieKey)
  }

  /** The new key wins whenever it is present, even holding the empty string; the legacy key
      is consulted only when the new key is absent. */
  lemma RawCookiePrefersNewKey(items: map<string, string>)
    ensures SessionCookieKey in items ==> RawCookie(items) == Some(items[SessionCookieKey])
    ensures SessionCookieKey !in items ==> RawCookie(items) == Lookup(items, LegacySessionCookieKey)
    ensures RawCookie(items).None? <==> SessionCookieKey !in items && LegacySessionCookieKey !in items
  {
  }

  /** `readSessionCookieRaw`: null on the server and when storage throws. */
  method ReadSessionCookieRaw(hasWindow: bool, store: LocalStorage) returns (raw: Option<string>)
    ensures raw == if hasWindow && store.accessible then RawCookie(store.items) else None
  {
    if !hasWindow || !store.accessible {
      return None;
    }
    raw := store.GetItem(SessionCookieKey);
    if raw.None? {
      raw := store.GetItem(LegacySessionCookieKey);
    }
  }

  // ---------------------------------------------------------------- parsing (lines 32-52)

  /** `parseSessionCookie`: JSON objects with a non-empty string `user_id` in the new format,
      text JSON.parse rejects as a legacy bare id, everything else null. */
  function ParseSessionCookie(c: Codec, raw: Option<string>): (r: Option<SessionCookieValue>)
    ensures raw.None? || raw == Some("") ==> r.None?
    ensures r.Some? ==> r.value.userId != ""
    ensures raw.Some? && raw.value != "" && c.parse(raw.value).None? ==>
              r == Some(SessionCookieValue(raw.value, None, None))
    ensures raw.Some? && raw.value != "" && c.parse(raw.value).Some? ==>
              var j := c.parse(raw.value).value;
              && (r.Some? <==> StringProperty(j, "user_id").Some? && StringProperty(j, "user_id").value != "")
              && (r.Some? ==> r.value == SessionCookieValue(StringProperty(j, "user_id").value,
                                                            StringProperty(j, "access_token"),
                                                            StringProperty(j, "refresh_token")))
  {
    if raw.None? || raw.value == "" then None
    else
      match c.parse(raw.value)
      case None => Some(SessionCookieValue(raw.value, None, None))
      case Some(parsed) =>
        if !Truthy(parsed) || !IsObjectType(parsed) then None
        else
          var userId := StringProperty(parsed, "user_id");
          if userId.None? || userId.value == "" then None
          else Some(SessionCookieValue(userId.value, StringProperty(parsed, "access_token"),
                                       StringProperty(parsed, "refresh_token")))
  }

  /** `getSessionCookieUserId` when storage is reachable. */
  function CookieUserId(c: Codec, items: map<string, string>): (id: Option<string>)
    ensures id.Some? ==> id.value != ""
  {
    match ParseSessionCookie(c, RawCookie(items))
    case Some(v) => Some(v.userId)
    case None => None
  }

  method GetSessionCookieUserId(hasWindow: bool, store: LocalStorage, c: Codec) returns (id: Option<string>)
    ensures id == if hasWindow && store.accessible then CookieUserId(c, store.items) else None
  {
    var raw := ReadSessionCookieRaw(hasWindow, store);
    var parsed := ParseSessionCookie(c, raw);
    id := if parsed.Some? then Some(parsed.value.userId) else None;
  }

  // ---------------------------------------------------------------- writing (lines 59-71)

  /** The properties JSON.stringify writes: `user_id`, and each token only when it is
      defined, since undefined fields are dropped. */
  function CookieProps(v: SessionCookieValue): (p: map<string, string>)
    ensures "user_id" in p && p["user_id"] == v.userId
    ensures "access_token" in p <==> v.accessToken.Some?
    ensures v.accessToken.Some? ==> p["access_token"] == v.accessToken.value
    ensures "refresh_token" in p <==> v.refreshToken.Some?
    ensures v.refreshToken.Some? ==> p["refresh_token"] == v.refreshToken.value
  {
    map["user_id" := v.userId]
    + (if v.accessToken.Some? then map["access_token" := v.accessToken.value] else map[])
    + (if v.refreshToken.Some? then map["refresh_token" := v.refreshToken.value] else map[])
  }

  /** The object JSON.stringify sees. */
  function CookieObject(v: SessionCookieValue): Json
  {
    StringObject(CookieProps(v))
  }

  /** The text `writeSessionCookie` stores: JSON when both tokens are there, the bare id otherwise. */
  function Payload(c: Codec, v: SessionCookieValue): string
  {
    if HasBothTokens(v) then c.stringify(CookieObject(v)) else v.userId
  }

  /** The items after `writeSessionCookie`: the payload under the new key, the legacy key gone. */
  function Written(items: map<string, string>, c: Codec, v: SessionCookieValue): (r: map<string, string>)
    ensures r.Keys == items.Keys + {SessionCookieKey} - {LegacySessionCookieKey}
    ensures r[SessionCookieKey] == Payload(c, v)
    ensures forall k :: k in r && k != SessionCookieKey ==> r[k] == items[k]
  {
    items[SessionCookieKey := Payload(c, v)] - {LegacySessionCookieKey}
  }

  /** `writeSessionCookie`: best effort, so nothing happens on the server or when storage throws. */
  method WriteSessionCookie(hasWindow: bool, store: LocalStorage, c: Codec, v: SessionCookieValue)
    modifies store
    ensures store.items == if hasWindow && store.accessible then Written(old(store.items), c, v) else old(store.items)
  {
    if !hasWindow || !store.accessible {
      return;
    }
    var payload := if HasBothTokens(v) then c.stringify(CookieObject(v)) else v.userId;
    store.SetItem(SessionCookieKey, payload);
    store.RemoveItem(LegacySessionCookieKey);
  }

  // ---------------------------------------------------------------- the round trip

  /** Reading back what `writeSessionCookie` stored gives the id back, with both tokens when
      both were present and with none otherwise. The bare-id form relies on the id not being
      JSON text itself (a UUID never is). */
  lemma ParseWrittenCookie(c: Codec, items: map<string, string>, v: SessionCookieValue)
    requires Lawful(c)
    requires v.userId != ""
    requires !HasBothTokens(v) ==> c.parse(v.userId).None?
    ensures ParseSessionCookie(c, RawCookie(Written(items, c, v)))
            == Some(if HasBothTokens(v) then v else SessionCookieValue(v.userId, None, None))
  {
    var w := Written(items, c, v);
    assert RawCookie(w) == Some(Payload(c, v));
    if HasBothTokens(v) {
      ParseJsonCookie(c, v);
    }
  }

  /** The JSON form alone: the stored text parses back to the whole value. */
  lemma ParseJsonCookie(c: Codec, v: SessionCookieValue)
    requires Lawful(c)
    requires v.userId != "" && HasBothTokens(v)
    ensures ParseSessionCookie(c, Some(Payload(c, v))) == Some(v)
  {
    var j := CookieObject(v);
    ParsesBack(c, CookieProps(v));
    assert StringProperty(j, "user_id") == Some(v.userId);
    assert StringProperty(j, "access_token") == v.accessToken;
    assert StringProperty(j, "refresh_token") == v.refreshToken;
  }

  /** The codec law for one object. */
  lemma ParsesBack(c: Codec, props: map<string, string>)
    requires Lawful(c)
    ensures c.parse(c.stringify(StringObject(props))) == Some(StringObject(props))
    ensures c.stringify(StringObject(props)) != []
  {
  }
}
