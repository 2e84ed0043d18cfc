/** The two writers of `session_cookie` side by side: src/components/AffiliationBootstrap.tsx
    stores the anonymous session there as JSON (lines 63-65), and src/utils/userActions.ts
    treats any non-UUID value under the same key as stale and replaces it (lines 39-54). */
module StorageInteraction {
  import opened Common
  import opened Json
  import opened BrowserStorage
  import opened Uuid
  import opened SessionCookie
  import opened AuthSnapshot
  import opened UserActions
  import opened AffiliationBootstrap

  /** A tracking call built on `upsertAffiliation`, each of which resolves the session id
      first, takes the restore away once the bootstrap has copied an anonymous session: before
      it the copy could be restored; after it the cookie holds a bare UUID with no tokens, so
      a sign-out creates a new anonymous user unless an auth event for the still-anonymous
      session copies it again first. */
  lemma TrackingDropsRestorableSession(c: Codec, items: map<string, string>, anon: Session, freshId: string)
    requires Lawful(c) && RejectsUuids(c) && MatchesUuidRe(freshId)
    requires IsAnonymousUser(anon.user)
    requires anon.user.id != "" && anon.accessToken != "" && anon.refreshToken != ""
    ensures var copied := KeptAnonCopy(items, c, anon);
      var r := ResolveSessionCookieId(copied, freshId);
      && CanRestore(ParseSessionCookie(c, RawCookie(copied)))
      && !CanRestore(ParseSessionCookie(c, RawCookie(r.items)))
      && CookieUserId(c, r.items) == Some(r.id)
  {
    var copied := KeptAnonCopy(items, c, anon);
    AnonCopyCanBeRestored(c, items, anon);
    assert Lookup(copied, SessionCookieKey) == Some(Payload(c, AnonCookie(anon)));
    ResolveDropsStoredTokens(c, copied, AnonCookie(anon), freshId);
  }
}
