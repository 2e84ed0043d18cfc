/** The effect of src/components/AffiliationBootstrap.tsx (lines 169-357): it keeps the browser
    signed in, anonymously if need be, restores the previous anonymous session after a sign-out,
    and mirrors the auth user into the `affiliation` table. Every reply of the auth service and
    of the database is an input. Each handler runs to completion before the next begins. */
module AffiliationBootstrap {
  import opened Common
  import opened Json
  import opened BrowserStorage
  import opened AffiliationTable
  import opened SessionCookie
  import opened AuthSnapshot

  /** An auth session: its user and its two tokens. */
  datatype Session = Session(user: User, accessToken: string, refreshToken: string)

  /** The cookie value `writeAnonSessionCookieFromSession` stores. */
  function AnonCookie(s: Session): SessionCookieValue
  {
    SessionCookieValue(s.user.id, Some(s.accessToken), Some(s.refreshToken))
  }

  /** The items after `writeAnonSessionCookieFromSession(s)` with reachable storage: only an
      anonymous session is copied. */
  function KeptAnonCopy(items: map<string, string>, c: Codec, s: Session): (r: map<string, string>)
    ensures !IsAnonymousUser(s.user) ==> r == items
    ensures IsAnonymousUser(s.user) ==> r == Written(items, c, AnonCookie(s))
  {
    if IsAnonymousUser(s.user) then Written(items, c, AnonCookie(s)) else items
  }

  /** The copy serves its purpose: an anonymous session with a non-empty id and non-empty
      tokens reads back whole, so a later sign-out can restore it. */
  lemma AnonCopyCanBeRestored(c: Codec, items: map<string, string>, s: Session)
    requires Lawful(c) && IsAnonymousUser(s.user)
    requires s.user.id != "" && s.accessToken != "" && s.refreshToken != ""
    ensures ParseSessionCookie(c, RawCookie(KeptAnonCopy(items, c, s))) == Some(AnonCookie(s))
    ensures CanRestore(ParseSessionCookie(c, RawCookie(KeptAnonCopy(items, c, s))))
  {
    ParseWrittenCookie(c, items, AnonCookie(s));
  }

  /** `getSessionCookieUserId()` against the items. */
  function PreAuthId(ok: bool, c: Codec, items: map<string, string>): Option<string>
  {
    if ok then CookieUserId(c, items) else None
  }

  /** After an anonymous session was copied, a different user who signs in is linked to the
      anonymous id; the anonymous user itself is never linked to itself. */
  lemma SignInLinksAnonymousRow(c: Codec, items: map<string, string>, anon: Session, u: User, now: string)
    requires Lawful(c) && IsAnonymousUser(anon.user)
    requires anon.user.id != "" && anon.accessToken != "" && anon.refreshToken != ""
    ensures var pre := PreAuthId(true, c, KeptAnonCopy(items, c, anon));
      && pre == Some(anon.user.id)
      && (u.id != anon.user.id ==> SnapshotPayload(u, pre, now)["merged_from_user_id"] == Str(anon.user.id))
      && (u.id == anon.user.id ==> "merged_from_user_id" !in SnapshotPayload(u, pre, now))
  {
    AnonCopyCanBeRestored(c, items, anon);
  }

  // ---------------------------------------------------------------- restoring the identity (256-318)

  /** `Boolean(stored?.access_token && stored?.refresh_token)`. */
  predicate CanRestore(stored: Option<SessionCookieValue>)
  {
    stored.Some? && HasBothTokens(stored.value)
  }

  /** The reply to `setSession`. */
  datatype RestoreReply = RestoreFailed | RestoreAnswered(session: Option<Session>)

  /** The reply to `signInAnonymously`. */
  datatype SignInReply = SignInFailed | SignInAnswered(user: Option<User>, session: Option<Session>)

  /** A restore that gives back an anonymous session, the only one the bootstrap adopts. */
  predicate RestoresAnonymous(r: RestoreReply)
  {
    r.RestoreAnswered? && r.session.Some? && IsAnonymousUser(r.session.value.user)
  }

  /** Storage after a restore attempt: the adopted session is copied again, an unusable one
      removes the cookie, and a failed call leaves it. */
  function AfterRestore(items: map<string, string>, c: Codec, r: RestoreReply): map<string, string>
  {
    match r
    case RestoreFailed => items
    case RestoreAnswered(s) => if RestoresAnonymous(r) then KeptAnonCopy(items, c, s.value) else items - {SessionCookieKey}
  }

  /** Storage after `signInAnonymously` answers. */
  function AfterSignIn(ok: bool, items: map<string, string>, c: Codec, r: SignInReply): map<string, string>
  {
    if !ok then items
    else match r
      case SignInFailed => items
      case SignInAnswered(u, s) =>
        if s.Some? then KeptAnonCopy(items, c, s.value)
        else if u.Some? && IsAnonymousUser(u.value) then Written(items, c, SessionCookieValue(u.value.id, None, None))
        else items
  }

  /** The identity `ensureSessionAndSync` settles on, the storage it leaves and which of the
      two auth calls it made. */
  datatype Identity = Identity(user: Option<User>, items: map<string, string>, restoreTried: bool, signInTried: bool)

  /** The first half of `ensureSessionAndSync`; `ok` says whether storage is reachable. */
  function SyncIdentity(ok: bool, c: Codec, items: map<string, string>, session: Option<Session>,
                        restore: RestoreReply, signIn: SignInReply): (id: Identity)
    // a live session is kept as it is, and no auth call is made
    ensures session.Some? ==> id.user == Some(session.value.user) && !id.restoreTried && !id.signInTried
    // a restore is attempted only without a session and with both tokens stored
    ensures id.restoreTried <==> session.None? && CanRestore(if ok then ParseSessionCookie(c, RawCookie(items)) else None)
    // a restored anonymous session is adopted and no new anonymous user is created
    ensures id.restoreTried && RestoresAnonymous(restore) ==> id.user == Some(restore.session.value.user) && !id.signInTried
    // otherwise, without a session, the bootstrap signs in anonymously
    ensures id.signInTried <==> session.None? && !(id.restoreTried && RestoresAnonymous(restore))
    ensures id.signInTried ==> id.user == if signIn.SignInAnswered? then signIn.user else None
  {
    if session.Some? then
      Identity(Some(session.value.user), if ok then KeptAnonCopy(items, c, session.value) else items, false, false)
    else
      var tryRestore := CanRestore(if ok then ParseSessionCookie(c, RawCookie(items)) else None);
      if tryRestore && RestoresAnonymous(restore) then
        Identity(Some(restore.session.value.user), AfterRestore(items, c, restore), true, false)
      else
        var items2 := if tryRestore then AfterRestore(items, c, restore) else items;
        Identity(if signIn.SignInAnswered? then signIn.user else None, AfterSignIn(ok, items2, c, signIn), tryRestore, true)
  }

  /** The anonymous identity survives a sign-out: when the session that was live got copied,
      the next run without a session restores it rather than creating a new anonymous user. */
  lemma SignOutRestoresCopiedSession(c: Codec, items: map<string, string>, anon: Session, restore: RestoreReply, signIn: SignInReply)
    requires Lawful(c) && IsAnonymousUser(anon.user)
    requires anon.user.id != "" && anon.accessToken != "" && anon.refreshToken != ""
    requires RestoresAnonymous(restore)
    ensures var copied := SyncIdentity(true, c, items, Some(anon), restore, signIn).items;
      var after := SyncIdentity(true, c, copied, None, restore, signIn);
      after.restoreTried && !after.signInTried && after.user == Some(restore.session.value.user)
  {
    var copied := SyncIdentity(true, c, items, Some(anon), restore, signIn).items;
    assert copied == KeptAnonCopy(items, c, anon);
    AnonCopyCanBeRestored(c, items, anon);
  }

  // ---------------------------------------------------------------- mirroring into the table (175-254)

  /** Every database reply and timestamp one sync consumes. */
  datatype TableReplies = TableReplies(
    rowNow: string, ensureRow: Option<DbError>, ensureRowRetry: Option<DbError>,
    snapshotNow: string, snapshot: Option<DbError>,
    nullUrl: Option<DbError>, emptyUrl: Option<DbError>)

  /** `{ user_id, updated_at }`, the payload of `ensureRowExists`. */
  function RowSeed(userId: string, now: string): (p: Row)
    ensures RowKey(p) == Some(userId)
  {
    map["user_id" := Str(userId), "updated_at" := Str(now)]
  }

  /** `writeInitialUrlIfMissing`: nothing without a truthy first-entry URL; otherwise the URL
      is written where the row's `url` is null, then where it is "". */
  function InitialUrlWritten(rows: map<string, Row>, userId: string, firstEntryUrl: Option<string>,
                             nullReply: Option<DbError>, emptyReply: Option<DbError>): (r: map<string, Row>)
    ensures r.Keys == rows.Keys
    ensures firstEntryUrl.None? || firstEntryUrl.value == "" ==> r == rows
  {
    if firstEntryUrl.None? || firstEntryUrl.value == "" then rows
    else
      var url := firstEntryUrl.value;
      var once := if nullReply.None? then UrlUpdated(rows, userId, url, WhereNull) else rows;
      if emptyReply.None? then UrlUpdated(once, userId, url, WhereEmpty) else once
  }

  /** A URL is written once: rows other than the user's, and a user row whose `url` already
      holds anything but null or "", are unchanged. */
  lemma {:induction false} InitialUrlIsWriteOnce(rows: map<string, Row>, userId: string, firstEntryUrl: Option<string>,
                                                nullReply: Option<DbError>, emptyReply: Option<DbError>)
    ensures var after := InitialUrlWritten(rows, userId, firstEntryUrl, nullReply, emptyReply);
      && after.Keys == rows.Keys
      && (forall k :: k in rows && k != userId ==> after[k] == rows[k])
      && (userId in rows && !UrlIsNull(rows[userId]) && !UrlIsEmpty(rows[userId]) ==> after[userId] == rows[userId])
  {
  }

  /** A missing URL is filled in when the update that matches it succeeds. */
  lemma InitialUrlFillsMissing(rows: map<string, Row>, userId: string, url: string,
                               nullReply: Option<DbError>, emptyReply: Option<DbError>)
    requires url != "" && userId in rows
    requires (UrlIsNull(rows[userId]) && nullReply.None?) || (UrlIsEmpty(rows[userId]) && emptyReply.None?)
    ensures var after := InitialUrlWritten(rows, userId, Some(url), nullReply, emptyReply);
      after[userId] == rows[userId]["url" := Str(url)]
  {
    if UrlIsNull(rows[userId]) && nullReply.None? {
      var once := UrlUpdated(rows, userId, url, WhereNull);
      assert !UrlIsEmpty(once[userId]);
    }
  }

  /** The first URL wins: once a URL is in place, a later mount with another URL changes
      nothing. */
  lemma FirstUrlWins(rows: map<string, Row>, userId: string, first: string, later: Option<string>,
                     r1: Option<DbError>, r2: Option<DbError>, r3: Option<DbError>, r4: Option<DbError>)
    requires first != "" && userId in rows
    requires (UrlIsNull(rows[userId]) && r1.None?) || (UrlIsEmpty(rows[userId]) && r2.None?)
    ensures var once := InitialUrlWritten(rows, userId, Some(first), r1, r2);
      InitialUrlWritten(once, userId, later, r3, r4) == once
  {
    InitialUrlFillsMissing(rows, userId, first, r1, r2);
    var once := InitialUrlWritten(rows, userId, Some(first), r1, r2);
    assert !UrlIsNull(once[userId]) && !UrlIsEmpty(once[userId]);
    InitialUrlIsWriteOnce(once, userId, later, r3, r4);
  }

  /** `upsertAuthSnapshot`: make sure the row exists, then upsert the snapshot. */
  function SnapshotRows(rows: map<string, Row>, u: User, preAuthId: Option<string>, firstEntryUrl: Option<string>,
                        t: TableReplies): map<string, Row>
  {
    var ensured := AfterUpsertWithRetry(rows, RowSeed(u.id, t.rowNow), firstEntryUrl, t.ensureRow, t.ensureRowRetry);
    Applied(ensured, UpsertRow(SnapshotPayload(u, preAuthId, t.snapshotNow)), t.snapshot)
  }

  /** A full sync of one user: the snapshot, then the initial URL. */
  function Synced(rows: map<string, Row>, u: User, preAuthId: Option<string>, firstEntryUrl: Option<string>,
                  t: TableReplies): map<string, Row>
  {
    InitialUrlWritten(SnapshotRows(rows, u, preAuthId, firstEntryUrl, t), u.id, firstEntryUrl, t.nullUrl, t.emptyUrl)
  }

  /** When the snapshot upsert succeeds, the user's row carries the snapshot's timestamp and,
      exactly when the pre-auth id links an earlier identity, that link. */
  lemma SnapshotLandsInRow(rows: map<string, Row>, u: User, preAuthId: Option<string>, firstEntryUrl: Option<string>,
                           t: TableReplies)
    requires t.snapshot.None?
    ensures var after := SnapshotRows(rows, u, preAuthId, firstEntryUrl, t);
      && u.id in after
      && after[u.id]["updated_at"] == Str(t.snapshotNow)
      && (LinksEarlierId(u, preAuthId) ==> after[u.id]["merged_from_user_id"] == Str(preAuthId.value))
  {
    var p := SnapshotPayload(u, preAuthId, t.snapshotNow);
    assert RowKey(p) == Some(u.id);
  }

  // ---------------------------------------------------------------- the auth listener (328-351)

  /** The events the auth client reports. */
  datatype AuthEvent =
    | InitialSession | SignedIn | SignedOut | TokenRefreshed | UserUpdated | PasswordRecovery
    | MfaChallengeVerified

  /** The events worth a snapshot. */
  predicate IsMeaningful(e: AuthEvent)
  {
    e == InitialSession || e == SignedIn || e == UserUpdated
  }

  /** What the listener does with the table. */
  datatype ListenerStep = Ignore | Resync | SyncUser(user: User) | NoSync

  function ListenerDecision(cancelled: bool, e: AuthEvent, session: Option<Session>): (d: ListenerStep)
    ensures d.Ignore? <==> cancelled
    ensures d.Resync? <==> !cancelled && e == SignedOut
    ensures d.SyncUser? <==> !cancelled && IsMeaningful(e) && session.Some?
    ensures d.SyncUser? ==> d.user == session.value.user
  {
    if cancelled then Ignore
    else if e == SignedOut then Resync
    else if session.None? then NoSync
    else if IsMeaningful(e) then SyncUser(session.value.user)
    else NoSync
  }

  /** `TOKEN_REFRESHED`, `PASSWORD_RECOVERY` and `MFA_CHALLENGE_VERIFIED` never sync, with or
      without a session. */
  lemma RefreshNeverSyncs(session: Option<Session>)
    ensures ListenerDecision(false, TokenRefreshed, session) == NoSync
    ensures ListenerDecision(false, PasswordRecovery, session) == NoSync
    ensures ListenerDecision(false, MfaChallengeVerified, session) == NoSync
  {
  }

  // ---------------------------------------------------------------- the running effect

  class Bootstrap {
    const hasWindow: bool
    const store: LocalStorage
    const table: Table
    const codec: Codec
    /** `window.location.href` when the effect ran, None on the server. */
    const firstEntryUrl: Option<string>
    var cancelled: bool

    constructor (hasWindow: bool, href: string, store: LocalStorage, table: Table, codec: Codec)
      ensures this.hasWindow == hasWindow && this.store == store && this.table == table && this.codec == codec
      ensures firstEntryUrl == (if hasWindow then Some(href) else None)
      ensures !cancelled
    {
      this.hasWindow := hasWindow;
      this.store := store;
      this.table := table;
      this.codec := codec;
      firstEntryUrl := if hasWindow then Some(href) else None;
      cancelled := false;
    }

    /** The cleanup function: later handlers do nothing. */
    method Cancel()
      modifies this
      ensures cancelled
    {
      cancelled := true;
    }

    method WriteAnonSessionCookieFromSession(s: Session)
      modifies store
      ensures store.items == if hasWindow && store.accessible then KeptAnonCopy(old(store.items), codec, s) else old(store.items)
    {
      if !IsAnonymousUser(s.user) {
        return;
      }
      WriteSessionCookie(hasWindow, store, codec, AnonCookie(s));
    }

    method WriteInitialUrlIfMissing(userId: string, nullReply: Option<DbError>, emptyReply: Option<DbError>)
      modifies table
      ensures table.rows == InitialUrlWritten(old(table.rows), userId, firstEntryUrl, nullReply, emptyReply)
    {
      if firstEntryUrl.None? || firstEntryUrl.value == "" {
        return;
      }
      var _ := table.UpdateUrl(userId, firstEntryUrl.value, WhereNull, nullReply);
      var _ := table.UpdateUrl(userId, firstEntryUrl.value, WhereEmpty, emptyReply);
    }

    method UpsertAuthSnapshot(u: User, t: TableReplies)
      modifies table
      ensures table.rows == SnapshotRows(old(table.rows), u, PreAuthId(hasWindow && store.accessible, codec, store.items),
                                         firstEntryUrl, t)
    {
      var _ := table.UpsertWithUrlRetry(RowSeed(u.id, t.rowNow), firstEntryUrl, t.ensureRow, t.ensureRowRetry);
      var preAuthId := GetSessionCookieUserId(hasWindow, store, codec);
      var _ := table.Upsert(SnapshotPayload(u, preAuthId, t.snapshotNow), t.snapshot);
    }

    /** Storage after the listener refreshes the anonymous copy from the event's session. */
    ghost function Refreshed(items: map<string, string>, session: Option<Session>): map<string, string>
    {
      if session.Some? && hasWindow && store.accessible then KeptAnonCopy(items, codec, session.value) else items
    }

    /** The listener's first step: the event's session, when anonymous, is copied again. */
    method RefreshAnonCopy(session: Option<Session>)
      modifies store
      ensures store.items == Refreshed(old(store.items), session)
    {
      if session.Some? && IsAnonymousUser(session.value.user) {
        WriteAnonSessionCookieFromSession(session.value);
      }
    }

    /** `await upsertAuthSnapshot(user); await writeInitialUrlIfMissing(user.id)`, the pair both
        `ensureSessionAndSync` and the listener run. */
    method SyncUser(u: User, t: TableReplies)
      modifies table
      ensures table.rows == Synced(old(table.rows), u, PreAuthId(hasWindow && store.accessible, codec, store.items),
                                   firstEntryUrl, t)
    {
      UpsertAuthSnapshot(u, t);
      WriteInitialUrlIfMissing(u.id, t.nullUrl, t.emptyUrl);
    }

    /** The first half of `ensureSessionAndSync`: keep, restore or create the identity. */
    method SettleIdentity(session: Option<Session>, restore: RestoreReply, signIn: SignInReply) returns (id: Identity)
      modifies store
      ensures id == SyncIdentity(hasWindow && store.accessible, codec, old(store.items), session, restore, signIn)
      ensures store.items == id.items
    {
      var ok := hasWindow && store.accessible;
      if session.Some? {
        if IsAnonymousUser(session.value.user) {
          WriteAnonSessionCookieFromSession(session.value);
        }
        return Identity(Some(session.value.user), store.items, false, false);
      }
      var raw := ReadSessionCookieRaw(hasWindow, store);
      var stored := ParseSessionCookie(codec, raw);
      var restoreTried := false;
      if CanRestore(stored) {
        restoreTried := true;
        if restore.RestoreFailed? {
        } else if restore.session.Some? && IsAnonymousUser(restore.session.value.user) {
          WriteAnonSessionCookieFromSession(restore.session.value);
          return Identity(Some(restore.session.value.user), store.items, true, false);
        } else if ok {
          store.RemoveItem(SessionCookieKey);
        }
        assert store.items == AfterRestore(old(store.items), codec, restore);
      }
      if signIn.SignInFailed? {
        return Identity(None, store.items, restoreTried, true);
      }
      if signIn.session.Some? {
        WriteAnonSessionCookieFromSession(signIn.session.value);
      } else if signIn.user.Some? && IsAnonymousUser(signIn.user.value) {
        WriteSessionCookie(hasWindow, store, codec, SessionCookieValue(signIn.user.value.id, None, None));
      }
      id := Identity(signIn.user, store.items, restoreTried, true);
    }

    /** `ensureSessionAndSync`: settle the identity, then, unless cancelled, mirror the user. */
    method EnsureSessionAndSync(session: Option<Session>, restore: RestoreReply, signIn: SignInReply, t: TableReplies)
      returns (id: Identity)
      modifies store, table
      ensures id == SyncIdentity(hasWindow && store.accessible, codec, old(store.items), session, restore, signIn)
      ensures store.items == id.items
      ensures table.rows == if cancelled || id.user.None? then old(table.rows)
                            else Synced(old(table.rows), id.user.value,
                                        PreAuthId(hasWindow && store.accessible, codec, id.items), firstEntryUrl, t)
    {
      id := SettleIdentity(session, restore, signIn);
      if cancelled || id.user.None? {
        return;
      }
      SyncUser(id.user.value, t);
    }

    /** The `onAuthStateChange` callback. A sign-out runs `ensureSessionAndSync` with the
        replies it would meet. */
    method OnAuthStateChange(e: AuthEvent, session: Option<Session>,
                             resyncSession: Option<Session>, restore: RestoreReply, signIn: SignInReply,
                             t: TableReplies)
      modifies store, table
      ensures cancelled ==> store.items == old(store.items) && table.rows == old(table.rows)
      ensures !cancelled && e != SignedOut ==> store.items == Refreshed(old(store.items), session)
      ensures ListenerDecision(cancelled, e, session).SyncUser? ==>
        table.rows == Synced(old(table.rows), session.value.user, PreAuthId(hasWindow && store.accessible, codec, store.items),
                             firstEntryUrl, t)
      ensures ListenerDecision(cancelled, e, session).NoSync? ==> table.rows == old(table.rows)
      ensures ListenerDecision(cancelled, e, session).Resync? ==>
        var id := SyncIdentity(hasWindow && store.accessible, codec, Refreshed(old(store.items), session),
                               resyncSession, restore, signIn);
        && store.items == id.items
        && table.rows == if id.user.None? then old(table.rows)
                         else Synced(old(table.rows), id.user.value, PreAuthId(hasWindow && store.accessible, codec, id.items),
                                     firstEntryUrl, t)
    {
      if cancelled {
        return;
      }
      RefreshAnonCopy(session);
      if e == SignedOut {
        var _ := EnsureSessionAndSync(resyncSession, restore, signIn, t);
        return;
      }
      if session.None? {
        return;
      }
      if IsMeaningful(e) {
        SyncUser(session.value.user, t);
      }
    }
  }
}
