/** The attribution helpers of src/utils/userActions.ts: the browser's session id kept under
    `session_cookie` (lines 33-58), the affiliation upsert with its single retry (lines
    124-164) and the click list kept in the auth user's metadata (lines 60-98). */
module UserActions {
  import opened Common
  import opened Json
  import opened JsStrings
  import opened BrowserStorage
  import opened Uuid
  import opened AffiliationTable
  import opened SessionCookie

  // ---------------------------------------------------------------- getOrCreateSessionCookieId

  /** The id returned and the items left behind. */
  datatype Resolution = Resolution(id: string, items: map<string, string>)

  /** `UUID_RE.test(v.trim())` for a value that is present and truthy. */
  predicate HoldsUuid(v: Option<string>)
  {
    v.Some? && v.value != "" && MatchesUuidRe(Trim(v.value))
  }

  /** A UUID has no whitespace at either end, so it is its own trim. */
  lemma TrimOfUuid(s: string)
    requires MatchesUuidRe(s)
    ensures Trim(s) == s
  {
    assert IsHexDigit(s[0]) && IsHexDigit(s[35]);
    TrimOfTrimmed(s);
  }

  /** What `getOrCreateSessionCookieId` does with reachable storage, `freshId` standing for
      what `newUuid` would return: keep a stored UUID, else clear a stale non-blank value,
      migrate a UUID from the legacy key, or store the fresh id. No key but the two session
      keys is touched. */
  function ResolveSessionCookieId(items: map<string, string>, freshId: string): (r: Resolution)
    ensures MatchesUuidRe(freshId) ==> MatchesUuidRe(r.id)
    ensures forall k :: k != SessionCookieKey && k != LegacySessionCookieKey ==> Lookup(r.items, k) == Lookup(items, k)
  {
    SessionKeysDiffer();
    var existing := Lookup(items, SessionCookieKey);
    if HoldsUuid(existing) then
      Resolution(Trim(existing.value), items)
    else
      var cleared := if existing.Some? && Trim(existing.value) != "" then items - {SessionCookieKey} else items;
      RemoveKeepsOthers(items, SessionCookieKey);
      var legacy := Lookup(cleared, LegacySessionCookieKey);
      if HoldsUuid(legacy) then
        var id := Trim(legacy.value);
        SetKeepsOthers(cleared, SessionCookieKey, id);
        RemoveKeepsOthers(cleared[SessionCookieKey := id], LegacySessionCookieKey);
        Resolution(id, cleared[SessionCookieKey := id] - {LegacySessionCookieKey})
      else
        SetKeepsOthers(cleared, SessionCookieKey, freshId);
        Resolution(freshId, cleared[SessionCookieKey := freshId])
  }

  /** `getOrCreateSessionCookieId`: null on the server and when storage throws (the catch at
      lines 55-57); otherwise the resolution above, carried out on the storage step by step,
      with a fresh id drawn only when one is needed. */
  method GetOrCreateSessionCookieId(hasWindow: bool, store: LocalStorage, src: RandomSource) returns (id: Option<string>)
    requires src.RandomBytes? ==> |src.bytes| == 16
    modifies store
    ensures !hasWindow || !store.accessible ==> id.None? && store.items == old(store.items)
    ensures hasWindow && store.accessible ==>
              var r := ResolveSessionCookieId(old(store.items), Generated(src));
              id == Some(r.id) && store.items == r.items
  {
    if !hasWindow || !store.accessible {
      return None;
    }
    SessionKeysDiffer();
    var existing := store.GetItem(SessionCookieKey);
    if existing.Some? && existing.value != "" && MatchesUuidRe(Trim(existing.value)) {
      return Some(Trim(existing.value));
    }
    if existing.Some? && Trim(existing.value) != "" {
      store.RemoveItem(SessionCookieKey);
    }
    var legacy := store.GetItem(LegacySessionCookieKey);
    if legacy.Some? && legacy.value != "" && MatchesUuidRe(Trim(legacy.value)) {
      store.SetItem(SessionCookieKey, Trim(legacy.value));
      store.RemoveItem(LegacySessionCookieKey);
      return Some(Trim(legacy.value));
    }
    var generated := NewUuid(src);
    store.SetItem(SessionCookieKey, generated);
    return Some(generated);
  }

  /** The id returned is the one left under `session_cookie`, up to surrounding whitespace. */
  lemma ResolvedIdIsStored(items: map<string, string>, freshId: string)
    requires MatchesUuidRe(freshId)
    ensures var r := ResolveSessionCookieId(items, freshId);
      SessionCookieKey in r.items && Trim(r.items[SessionCookieKey]) == r.id
  {
    SessionKeysDiffer();
    var r := ResolveSessionCookieId(items, freshId);
    if !HoldsUuid(Lookup(items, SessionCookieKey)) {
      assert r.items[SessionCookieKey] == r.id;
      TrimOfUuid(r.id);
    }
  }

  /** A stored value that trims to a UUID is returned trimmed, and storage is left as it was. */
  lemma StoredUuidIsKept(items: map<string, string>, freshId: string)
    requires SessionCookieKey in items && MatchesUuidRe(Trim(items[SessionCookieKey]))
    ensures ResolveSessionCookieId(items, freshId) == Resolution(Trim(items[SessionCookieKey]), items)
  {
    assert items[SessionCookieKey] != "";
  }

  /** A stale non-blank value under `session_cookie` is dropped before the legacy key is read. */
  lemma StaleNonBlankIsReplaced(items: map<string, string>, freshId: string)
    requires SessionCookieKey in items
    requires Trim(items[SessionCookieKey]) != "" && !MatchesUuidRe(Trim(items[SessionCookieKey]))
    ensures var r := ResolveSessionCookieId(items, freshId);
      if HoldsUuid(Lookup(items, LegacySessionCookieKey)) then
        var id := Trim(items[LegacySessionCookieKey]);
        r == Resolution(id, items[SessionCookieKey := id] - {LegacySessionCookieKey})
      else
        r == Resolution(freshId, items[SessionCookieKey := freshId])
  {
    SessionKeysDiffer();
    var cleared := items - {SessionCookieKey};
    assert Lookup(cleared, LegacySessionCookieKey) == Lookup(items, LegacySessionCookieKey);
    assert cleared[SessionCookieKey := freshId] == items[SessionCookieKey := freshId];
    if HoldsUuid(Lookup(items, LegacySessionCookieKey)) {
      var id := Trim(items[LegacySessionCookieKey]);
      assert cleared[SessionCookieKey := id] - {LegacySessionCookieKey}
          == items[SessionCookieKey := id] - {LegacySessionCookieKey};
    }
  }

  /** Whenever `session_cookie` holds no UUID (it is missing, blank, or a stale non-blank value,
      which is dropped), the legacy key's UUID moves over to the new key and the legacy key
      goes, or else the fresh id is stored. */
  lemma StaleValueIsReplaced(items: map<string, string>, freshId: string)
    requires !HoldsUuid(Lookup(items, SessionCookieKey))
    ensures var r := ResolveSessionCookieId(items, freshId);
      if HoldsUuid(Lookup(items, LegacySessionCookieKey)) then
        var id := Trim(items[LegacySessionCookieKey]);
        r == Resolution(id, items[SessionCookieKey := id] - {LegacySessionCookieKey})
      else
        r == Resolution(freshId, items[SessionCookieKey := freshId])
  {
    if SessionCookieKey in items && Trim(items[SessionCookieKey]) != "" {
      StaleNonBlankIsReplaced(items, freshId);
    }
  }

  /** Once resolved, the id is stable: a second call, whatever fresh id it could draw, returns
      the same id and changes nothing. */
  lemma ResolveIsStable(items: map<string, string>, freshId: string, later: string)
    requires MatchesUuidRe(freshId)
    ensures var r := ResolveSessionCookieId(items, freshId);
      ResolveSessionCookieId(r.items, later) == r
  {
    var r := ResolveSessionCookieId(items, freshId);
    ResolvedIdIsStored(items, freshId);
    StoredUuidIsKept(r.items, later);
  }

  /** JSON.parse rejects UUID text: a UUID is not a JSON value. */
  ghost predicate RejectsUuids(c: Codec)
  {
    forall s :: MatchesUuidRe(s) ==> c.parse(s).None?
  }

  /** The interaction with src/components/AffiliationBootstrap.tsx: when `session_cookie` holds
      the JSON that `writeSessionCookie` stores with the anonymous tokens, this function treats
      it as stale and replaces it with a bare UUID, so the bootstrap then reads back an id with
      no tokens and cannot restore the anonymous session. */
  lemma ResolveDropsStoredTokens(c: Codec, items: map<string, string>, v: SessionCookieValue, freshId: string)
    requires Lawful(c) && RejectsUuids(c) && MatchesUuidRe(freshId)
    requires HasBothTokens(v)
    requires Lookup(items, SessionCookieKey) == Some(Payload(c, v))
    ensures var r := ResolveSessionCookieId(items, freshId);
      && SessionCookieKey in r.items && r.items[SessionCookieKey] == r.id
      && ParseSessionCookie(c, RawCookie(r.items)) == Some(SessionCookieValue(r.id, None, None))
  {
    JsonCookieIsStale(c, v);
    StaleCookieReadsBack(c, items, freshId);
  }

  /** Any stale `session_cookie` value is replaced by a bare UUID that reads back without tokens. */
  lemma StaleCookieReadsBack(c: Codec, items: map<string, string>, freshId: string)
    requires RejectsUuids(c) && MatchesUuidRe(freshId)
    requires SessionCookieKey in items
    requires Trim(items[SessionCookieKey]) != "" && !MatchesUuidRe(Trim(items[SessionCookieKey]))
    ensures var r := ResolveSessionCookieId(items, freshId);
      && SessionCookieKey in r.items && r.items[SessionCookieKey] == r.id
      && ParseSessionCookie(c, RawCookie(r.items)) == Some(SessionCookieValue(r.id, None, None))
  {
    StaleValueLeavesBareUuid(items, freshId);
    var r := ResolveSessionCookieId(items, freshId);
    BareUuidCookie(c, r.items);
  }

  /** After a stale value is dropped, `session_cookie` holds exactly the UUID returned. */
  lemma StaleValueLeavesBareUuid(items: map<string, string>, freshId: string)
    requires MatchesUuidRe(freshId)
    requires SessionCookieKey in items
    requires Trim(items[SessionCookieKey]) != "" && !MatchesUuidRe(Trim(items[SessionCookieKey]))
    ensures var r := ResolveSessionCookieId(items, freshId);
      SessionCookieKey in r.items && r.items[SessionCookieKey] == r.id && MatchesUuidRe(r.id)
  {
    SessionKeysDiffer();
    StaleValueIsReplaced(items, freshId);
  }

  /** A bare UUID under `session_cookie` reads back, in AffiliationBootstrap, as a legacy id
      without tokens. */
  lemma BareUuidCookie(c: Codec, items: map<string, string>)
    requires RejectsUuids(c)
    requires SessionCookieKey in items && MatchesUuidRe(items[SessionCookieKey])
    ensures ParseSessionCookie(c, RawCookie(items)) == Some(SessionCookieValue(items[SessionCookieKey], None, None))
  {
    var id := items[SessionCookieKey];
    assert RawCookie(items) == Some(id);
    assert c.parse(id).None?;
  }

  /** The JSON form of the cookie is never mistaken for a UUID: its text starts with `{`. */
  lemma JsonCookieIsStale(c: Codec, v: SessionCookieValue)
    requires Lawful(c) && HasBothTokens(v)
    ensures Trim(Payload(c, v)) != "" && !MatchesUuidRe(Trim(Payload(c, v)))
  {
    var text := Payload(c, v);
    assert text == c.stringify(StringObject(CookieProps(v)));
    assert text != [] && text[0] == '{' && !IsJsWhitespace(text[0]);
    assert TrimStart(text) == text;
    var t := Trim(text);
    assert t != [] && t[0] == '{' && !IsHexDigit(t[0]);
  }

  // ---------------------------------------------------------------- upsertAffiliation

  /** `{ user_id: sessionCookieId, ...fields, updated_at: now }`: the caller's fields win over
      the cookie id, and the timestamp wins over everything. */
  function AffiliationPayload(cookieId: string, fields: Row, now: string): (p: Row)
    ensures p.Keys == fields.Keys + {"user_id", "updated_at"}
    ensures p["updated_at"] == Str(now)
    ensures forall col :: col in fields && col != "updated_at" ==> p[col] == fields[col]
    ensures "user_id" !in fields ==> p["user_id"] == Str(cookieId)
  {
    map["user_id" := Str(cookieId)] + fields + map["updated_at" := Str(now)]
  }

  /** The tracking helpers (lines 166-200) never pass a `user_id` of their own, so their
      payload addresses the row of the browser's session id. */
  lemma PayloadAddressesCookieRow(cookieId: string, fields: Row, now: string)
    requires "user_id" !in fields
    ensures RowKey(AffiliationPayload(cookieId, fields, now)) == Some(cookieId)
  {
    var p := AffiliationPayload(cookieId, fields, now);
    assert "user_id" in p && p["user_id"] == Str(cookieId);
  }

  /** A first upsert that succeeds leaves the cookie's row with every tracked field and the new
      timestamp, and keeps the columns of an existing row that the payload does not name. */
  lemma UpsertRecordsFields(rows: map<string, Row>, cookieId: string, fields: Row, now: string)
    requires "user_id" !in fields
    ensures var after := Applied(rows, UpsertRow(AffiliationPayload(cookieId, fields, now)), None);
      && cookieId in after
      && after[cookieId]["updated_at"] == Str(now)
      && after[cookieId]["user_id"] == Str(cookieId)
      && (forall col :: col in fields && col != "updated_at" ==> after[cookieId][col] == fields[col])
      && (forall col :: col in after[cookieId] && col !in fields && col != "user_id" && col != "updated_at" ==>
            after[cookieId][col] == rows[cookieId][col])
  {
    PayloadAddressesCookieRow(cookieId, fields, now);
  }

  /** `upsertAffiliation(fields)`: resolve the session id (nothing is written without one), then
      send the writes above, each with the reply the service gives it. `ensureAuthSession`
      only signs in; its effect on the auth client is not part of this model. */
  method UpsertAffiliation(hasWindow: bool, href: string, store: LocalStorage, src: RandomSource,
                           table: Table, fields: Row, now: string,
                           firstReply: Option<DbError>, retryReply: Option<DbError>)
    returns (sent: seq<Write>)
    requires src.RandomBytes? ==> |src.bytes| == 16
    modifies store, table
    ensures !hasWindow || !store.accessible ==>
      sent == [] && store.items == old(store.items) && table.rows == old(table.rows)
    ensures hasWindow && store.accessible ==>
      var r := ResolveSessionCookieId(old(store.items), Generated(src));
      var payload := AffiliationPayload(r.id, fields, now);
      && store.items == r.items
      && sent == WithUrlRetry(payload, Some(href), firstReply)
      && table.rows == AfterUpsertWithRetry(old(table.rows), payload, Some(href), firstReply, retryReply)
  {
    var cookieId := GetOrCreateSessionCookieId(hasWindow, store, src);
    if cookieId.None? {
      return [];
    }
    var payload := AffiliationPayload(cookieId.value, fields, now);
    var currentUrl := if hasWindow then Some(href) else None;
    sent := table.UpsertWithUrlRetry(payload, currentUrl, firstReply, retryReply);
  }

  // ---------------------------------------------------------------- trackUserClick

  /** What `supabase.auth.getUser()` answers: an error, no signed-in user, or a user with
      `user_metadata` (Null when missing). */
  datatype UserReply = GetUserFailed | NoUser | SignedInUser(metadata: Json)

  /** `Array.isArray(metadata.clicked) ? metadata.clicked : []`, after `user_metadata || {}`. */
  function ClickedList(metadata: Json): (l: seq<Json>)
    ensures Property(metadata, "clicked").Some? && Property(metadata, "clicked").value.Array? ==>
              l == Property(metadata, "clicked").value.items
    ensures Property(metadata, "clicked").None? || !Property(metadata, "clicked").value.Array? ==> l == []
  {
    var m := if Truthy(metadata) then metadata else Object(map[]);
    match Property(m, "clicked")
    case Some(Array(items)) => items
    case _ => []
  }

  /** One click entry, `{ button: tag, timestamp: now }`. */
  function ClickEntry(tag: string, now: string): Json
  {
    Object(map["button" := Str(tag), "timestamp" := Str(now)])
  }

  /** The list `trackUserClick` sends in `updateUser({ data: { clicked } })`; None when it stops
      early (no user, or the lookup failed). The update's own error is only logged. */
  function TrackUserClick(reply: UserReply, tag: string, now: string): (sent: Option<seq<Json>>)
    ensures sent.Some? <==> reply.SignedInUser?
    ensures reply.SignedInUser? ==>
      var before := ClickedList(reply.metadata);
      && |sent.value| == |before| + 1
      && sent.value[..|before|] == before
      && sent.value[|before|] == ClickEntry(tag, now)
  {
    match reply
    case SignedInUser(metadata) => Some(ClickedList(metadata) + [ClickEntry(tag, now)])
    case _ => None
  }

  /** The metadata after `updateUser({ data })`: the service merges the new keys into the
      existing metadata object. */
  function MergedMetadata(metadata: Json, data: map<string, Json>): Json
  {
    if metadata.Object? then Object(metadata.fields + data) else Object(data)
  }

  /** Clicks accumulate: after a first click is stored, a second click sends the earlier
      entries, then both new ones, in order. */
  lemma ClicksAccumulate(metadata: Json, tag1: string, now1: string, tag2: string, now2: string)
    ensures var first := TrackUserClick(SignedInUser(metadata), tag1, now1).value;
      var after := MergedMetadata(metadata, map["clicked" := Array(first)]);
      TrackUserClick(SignedInUser(after), tag2, now2)
        == Some(ClickedList(metadata) + [ClickEntry(tag1, now1), ClickEntry(tag2, now2)])
  {
    var first := TrackUserClick(SignedInUser(metadata), tag1, now1).value;
    var after := MergedMetadata(metadata, map["clicked" := Array(first)]);
    assert Property(after, "clicked") == Some(Array(first));
    assert ClickedList(after) == first;
    assert first + [ClickEntry(tag2, now2)] == ClickedList(metadata) + [ClickEntry(tag1, now1), ClickEntry(tag2, now2)];
  }
}
