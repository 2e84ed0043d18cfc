# Browser identity, attribution and auth redirects of the Copilot landing page

This Dafny project models the few pieces of sequential logic in the landing site that have
behaviour worth stating. It does not model the user interface.

- **Session id** (`src/utils/userActions.ts`):
  - the UUID fallback generator: masking 16 random bytes for version 4 and the RFC 4122 variant, then hex formatting;
  - the `UUID_RE` validator;
  - `getOrCreateSessionCookieId`, which keeps, migrates or creates the browser's id under `session_cookie`.
- **Attribution writes** (`src/utils/userActions.ts`):
  - the `upsertAffiliation` payload, with its single retry on a URL NOT NULL violation (PostgreSQL SQLSTATE 23502);
  - the click list that `trackUserClick` appends to.
- **Session cookie** (`src/components/AffiliationBootstrap.tsx`): the reader, the parser and the writer, with the JSON form and the legacy bare-id form.
- **Auth snapshot** (`src/components/AffiliationBootstrap.tsx`): the precedence of its fields and when `merged_from_user_id` is written.
- **Bootstrap effect** (`src/components/AffiliationBootstrap.tsx`):
  - how it restores or creates an anonymous identity;
  - the write-once rule for the first-entry `url`;
  - the auth-event listener.
- **Small decisions**:
  - `src/lib/userCookie.ts`: `getUserCookie` and `hasUserCookie`;
  - `src/lib/url.ts`: trailing-slash normalisation;
  - `src/app/auth/callback/route.ts`: the callback redirect decision, and the host it sends the browser to;
  - `src/lib/CookieConsentContext.tsx`: the cookie-consent state and its `dataLayer` pushes;
  - `src/components/Hero.tsx`: the hero tab carousel.

Modelling conventions:

- **localStorage** is one class, `BrowserStorage.LocalStorage`, shared by every file that uses it.
  - Its `accessible` flag says whether reading `window.localStorage` throws.
  - Code with `try`/`catch` then takes its catch branch.
  - Code without one reports `Threw`.
  - `typeof window === "undefined"` is a `hasWindow` parameter.
- **Foreign calls are inputs.** Every call to the auth service, the database, `crypto` or the clock is an input to the model: a reply, a byte string or a timestamp string.
  - The `affiliation` table is a map from `user_id` to a row.
  - A failed call leaves the table unchanged.
- **JSON.parse / JSON.stringify** are a `Json.Codec` pair. Two predicates state what the model assumes about them:
  - `Json.Lawful`: an object with string properties stringifies to text starting with `{` that parses back to the same object;
  - `UserActions.RejectsUuids`: UUID text is not JSON.

Shared storage makes the two writers of `session_cookie` interact, and the model proves what happens. `AffiliationBootstrap.tsx` stores the anonymous session's tokens there as JSON. `userActions.ts` treats any non-UUID value under that key as stale. So any tracking call built on `upsertAffiliation` (the helpers of `userActions.ts` lines 166-200, which resolve the session id at line 125) made after the copy replaces it with a bare UUID. A sign-out then can no longer restore the anonymous session, unless an auth event for the still-anonymous session copies it again first (the listener re-copies it on every event, `AffiliationBootstrap.tsx` lines 331-335). `StorageInteraction.TrackingDropsRestorableSession` states this.

The auth callback appends its `next` parameter to the site's URL without checking it. A `next` that does not start with `/` can therefore move the redirect to another host (see "## Findings"). `AuthCallback.SafeCallbackRedirect` is the route with that check, and it is proved to stay on the site.

## Model

| member | source | states |
|---|---|---|
| `Uuid.MatchesUuidRe` | src/utils/userActions.ts:5-6 | `UUID_RE`: the 8-4-4-4-12 layout of hex digits of either case, version digit 1 to 5, variant digit 8, 9, a or b |
| `Uuid.WithVersion` | src/utils/userActions.ts:24 | byte 6 gets high nibble 4 and keeps its low nibble |
| `Uuid.WithVariant` | src/utils/userActions.ts:25 | byte 8 gets top bits `10` and keeps its low six bits |
| `Uuid.Masked` | src/utils/userActions.ts:24-25 | bytes 6 and 8 are masked as above; every other byte is unchanged |
| `Uuid.MaskInPlace` | src/utils/userActions.ts:24-25 | the in-place masking of the array leaves exactly `Masked` of its old contents |
| `Uuid.HexByte` | src/utils/userActions.ts:27 | `toString(16).padStart(2, "0")`: two lowercase hex digits that read back as the byte |
| `Uuid.HexOf` | src/utils/userActions.ts:27 | two lowercase hex digits per byte, in order, so 16 bytes give 32 digits |
| `Uuid.HexByteRoundTrip` | src/utils/userActions.ts:27 | the two digits written for a byte read back as that byte |
| `Uuid.HexOfAppend` | src/utils/userActions.ts:27 | hex encoding distributes over concatenation |
| `Uuid.HexOfRoundTrip` | src/utils/userActions.ts:27 | decoding the hex text gives the bytes back |
| `Uuid.FormatUuid` | src/utils/userActions.ts:27-30 | the formatted id is 36 characters |
| `Uuid.FormatUuidShape` | src/utils/userActions.ts:28-30 | the formatted id is 36 characters: the 8-4-4-4-12 groups with `-` between them |
| `Uuid.FormatUuidLayout` | src/utils/userActions.ts:28-30 | dashes exactly at positions 8, 13, 18 and 23, lowercase hex digits everywhere else |
| `Uuid.FormatUuidRoundTrip` | src/utils/userActions.ts:27-30 | the 16 bytes can be read back from the formatted id, so formatting loses nothing |
| `Uuid.VersionDigit` | src/utils/userActions.ts:24 | after masking, the character at position 14 is `4` |
| `Uuid.VariantDigit` | src/utils/userActions.ts:25 | after masking, the character at position 19 is one of 8, 9, a, b |
| `Uuid.FallbackMatchesUuidRe` | src/utils/userActions.ts:17-30 | every fallback id matches `UUID_RE`, with version `4`, a variant digit from {8,9,a,b} and only lowercase hex and dashes |
| `Uuid.Generated` | src/utils/userActions.ts:8-31 | `newUuid` on either path gives an id matching `UUID_RE` (the native path by assumption) |
| `Uuid.NewUuid` | src/utils/userActions.ts:8-31 | the byte-filling loop, masking and formatting compute `Generated`; the fallback id matches `UUID_RE` with version 4 |
| `JsStrings.TrimStart` | src/utils/userActions.ts:38 | removes exactly the leading ECMAScript whitespace, leaving a suffix that does not start with whitespace |
| `JsStrings.TrimEnd` | src/utils/userActions.ts:38 | removes exactly the trailing whitespace, leaving a prefix that does not end with whitespace |
| `JsStrings.Trim` | src/utils/userActions.ts:38 | `trim()` is never longer than its input and has no whitespace at either edge |
| `JsStrings.TrimCutsOnlyWhitespace` | src/utils/userActions.ts:38 | the trimmed text occurs in the input with only whitespace before and after it |
| `JsStrings.TrimOfTrimmed` | src/utils/userActions.ts:38 | a string without whitespace at its edges is its own trim |
| `JsStrings.TrimIdempotent` | src/utils/userActions.ts:38 | trimming twice equals trimming once |
| `JsStrings.ToLowerAscii` | src/utils/userActions.ts:147 | same length; each upper-case ASCII letter is lower-cased and every other character kept |
| `JsStrings.Includes` | src/utils/userActions.ts:147 | `includes` is true iff the needle occurs at some position |
| `Json.StringProperty` | src/components/AffiliationBootstrap.tsx:41 | a property read as a string exactly when it holds a string |
| `Json.StringObject` | src/components/AffiliationBootstrap.tsx:64 | the object built from string properties has exactly those properties |
| `BrowserStorage.Lookup` | src/utils/userActions.ts:37 | `getItem` is null exactly for a missing key and otherwise the stored value |
| `BrowserStorage.LocalStorage.GetItem` | src/utils/userActions.ts:37 | null exactly for a key not stored, otherwise the stored string |
| `BrowserStorage.SessionKeysDiffer` | src/utils/userActions.ts:3-4 | `session_cookie` and the legacy key are different keys |
| `BrowserStorage.LocalStorage.SetItem` | src/utils/userActions.ts:53 | stores the value under the key and changes nothing else |
| `BrowserStorage.LocalStorage.RemoveItem` | src/utils/userActions.ts:41 | removes the key and changes nothing else |
| `UserActions.TrimOfUuid` | src/utils/userActions.ts:38 | a UUID is its own trim |
| `UserActions.ResolveSessionCookieId` | src/utils/userActions.ts:33-58 | the id returned is a UUID whenever a fresh one would be, and only the two session keys change |
| `UserActions.GetOrCreateSessionCookieId` | src/utils/userActions.ts:33-58 | null on the server or with blocked storage, storage unchanged; otherwise the step-by-step reads and writes compute `ResolveSessionCookieId` |
| `UserActions.ResolvedIdIsStored` | src/utils/userActions.ts:52-54 | after the call, `session_cookie` trims to the id returned |
| `UserActions.StoredUuidIsKept` | src/utils/userActions.ts:37-38 | a stored value that trims to a UUID is returned trimmed, and storage is untouched |
| `UserActions.StaleNonBlankIsReplaced` | src/utils/userActions.ts:39-42 | a non-blank non-UUID value under `session_cookie` is removed; a legacy UUID then moves to the new key and the legacy key goes; otherwise the fresh id is stored |
| `UserActions.StaleValueIsReplaced` | src/utils/userActions.ts:39-54 | whenever `session_cookie` holds no UUID (missing, blank, or stale and then removed), a legacy UUID moves to the new key, is returned, and the legacy key goes; otherwise the fresh id is stored and returned |
| `UserActions.ResolveIsStable` | src/utils/userActions.ts:37-54 | a second call returns the same id and changes nothing, whatever id it could draw |
| `UserActions.ResolveDropsStoredTokens` | src/utils/userActions.ts:39-42 | the JSON session cookie with tokens is treated as stale and replaced by a bare UUID that reads back without tokens |
| `UserActions.StaleCookieReadsBack` | src/utils/userActions.ts:39-54 | after any stale value is replaced, the cookie reads back as the returned id with no tokens |
| `UserActions.StaleValueLeavesBareUuid` | src/utils/userActions.ts:39-54 | after a stale value is replaced, `session_cookie` holds exactly the returned UUID |
| `UserActions.BareUuidCookie` | src/components/AffiliationBootstrap.tsx:44-51 | a bare UUID under `session_cookie` parses as a legacy id without tokens |
| `UserActions.JsonCookieIsStale` | src/utils/userActions.ts:38-39 | the JSON form of the cookie is non-blank and never trims to a UUID |
| `UserActions.AffiliationPayload` | src/utils/userActions.ts:130-134 | the payload holds the caller's fields and `user_id`; `updated_at` is the timestamp whatever the caller passed |
| `UserActions.PayloadAddressesCookieRow` | src/utils/userActions.ts:166-200 | the tracking helpers pass no `user_id`, so their payload addresses the session id's row |
| `UserActions.UpsertRecordsFields` | src/utils/userActions.ts:136-138 | a successful upsert leaves the row with every field, the id and the timestamp, and keeps the row's other columns |
| `UserActions.UpsertAffiliation` | src/utils/userActions.ts:124-164 | nothing is written without a session id; otherwise storage is resolved as above and the table gets the upsert and at most one url retry |
| `UserActions.ClickedList` | src/utils/userActions.ts:76-77 | the existing list when `clicked` is an array, otherwise empty |
| `UserActions.TrackUserClick` | src/utils/userActions.ts:60-98 | an update is sent only for a signed-in user; it holds the old entries followed by exactly one new `{button, timestamp}` |
| `UserActions.ClicksAccumulate` | src/utils/userActions.ts:84-89 | two clicks in a row leave the old entries followed by both new ones, in order |
| `AffiliationTable.Upserted` | src/utils/userActions.ts:136-138 | an upsert on `user_id` inserts or merges one row: the payload's columns win, the row's other columns stay, and other rows are untouched |
| `AffiliationTable.InsertedIfAbsent` | src/utils/userActions.ts:150-153 | with `ignoreDuplicates` an existing row is left exactly as it is |
| `AffiliationTable.UrlUpdated` | src/components/AffiliationBootstrap.tsx:180-194 | a filtered update sets only `url`, and only in the addressed row when the filter matches it |
| `AffiliationTable.IsUrlNotNullViolation` | src/utils/userActions.ts:144-147 | the retry test: SQLSTATE 23502 with a string message mentioning `url` in any case (the same test as src/components/AffiliationBootstrap.tsx:212-213) |
| `AffiliationTable.UrlTestIgnoresCase` | src/utils/userActions.ts:144-147 | the test holds exactly for code 23502 and a message with three characters that lower-case to `url` |
| `AffiliationTable.WithUrlRetry` | src/utils/userActions.ts:140-160 | at most two requests; the retry comes exactly on a URL NOT NULL violation with a truthy URL and sends the payload plus `url` |
| `AffiliationTable.RetryNeverOverwrites` | src/utils/userActions.ts:150-153 | the retry never changes an existing row |
| `AffiliationTable.RowExistsAfterSuccess` | src/components/AffiliationBootstrap.tsx:201-233 | when the last request sent succeeds the row exists, and a row created by the retry carries the URL |
| `AffiliationTable.NoRetryUnlessUrlViolation` | src/utils/userActions.ts:144-149 | a success, or an error that is not about `url`, is never retried |
| `AffiliationTable.Table.Upsert` | src/utils/userActions.ts:136-138 | the table changes as `Upserted` only when the reply is a success |
| `AffiliationTable.Table.InsertIfAbsent` | src/utils/userActions.ts:150-153 | the table changes as `InsertedIfAbsent` only when the reply is a success |
| `AffiliationTable.Table.UpdateUrl` | src/components/AffiliationBootstrap.tsx:180-184 | the table changes as `UrlUpdated` only when the reply is a success |
| `AffiliationTable.Table.UpsertWithUrlRetry` | src/utils/userActions.ts:136-160 | sends `WithUrlRetry` and leaves the table as both replies dictate |
| `SessionCookie.RawCookie` | src/components/AffiliationBootstrap.tsx:23-26 | null exactly when neither key is stored; otherwise one of the stored values |
| `SessionCookie.RawCookiePrefersNewKey` | src/components/AffiliationBootstrap.tsx:23-26 | the new key wins whenever it is present, even when it holds ""; the legacy key counts only when the new key is absent |
| `SessionCookie.ReadSessionCookieRaw` | src/components/AffiliationBootstrap.tsx:20-30 | null on the server or with blocked storage, otherwise `RawCookie` |
| `SessionCookie.ParseSessionCookie` | src/components/AffiliationBootstrap.tsx:32-52 | null or "" gives null; text that does not parse is a legacy id; parsed JSON gives a value iff it has a non-empty string `user_id`, and non-string tokens are dropped |
| `SessionCookie.CookieUserId` | src/components/AffiliationBootstrap.tsx:54-57 | an id read from the cookie is never empty |
| `SessionCookie.GetSessionCookieUserId` | src/components/AffiliationBootstrap.tsx:54-57 | the user id of the parsed raw cookie, null without reachable storage |
| `SessionCookie.Written` | src/components/AffiliationBootstrap.tsx:63-67 | the payload is stored under the new key, the legacy key is gone, and the other keys are kept |
| `SessionCookie.CookieProps` | src/components/AffiliationBootstrap.tsx:63-64 | `JSON.stringify(value)` writes `user_id`, and each token exactly when it is defined |
| `SessionCookie.WriteSessionCookie` | src/components/AffiliationBootstrap.tsx:59-71 | does nothing on the server or with blocked storage; otherwise it leaves `Written` |
| `SessionCookie.ParseWrittenCookie` | src/components/AffiliationBootstrap.tsx:32-71 | reading back a written cookie gives the id with both tokens when both were present, and with none otherwise |
| `SessionCookie.ParseJsonCookie` | src/components/AffiliationBootstrap.tsx:36-47 | the JSON form parses back to the whole value |
| `AuthSnapshot.IsAnonymousUser` | src/components/AffiliationBootstrap.tsx:16-18 | a user is anonymous exactly when its `is_anonymous` property is truthy |
| `AuthSnapshot.OrIfNullish` | src/components/AffiliationBootstrap.tsx:111-112 | `??` falls back only for a missing or null property |
| `AuthSnapshot.FirstString` | src/components/AffiliationBootstrap.tsx:119-124 | the first of two properties that holds a string |
| `AuthSnapshot.BuildAuthSnapshot` | src/components/AffiliationBootstrap.tsx:110-167 | precedence: `avatar_url` before `picture`, `name` before `full_name`, `full_name` before the chosen name, `confirmed_at` before `email_confirmed_at`; `providers` only when it is an array; raw metadata as given |
| `AuthSnapshot.NameColumnsAgree` | src/components/AffiliationBootstrap.tsx:126-133 | with one of `name` and `full_name` present both columns take it; with both present each keeps its own; with neither both are null |
| `AuthSnapshot.SnapshotPayload` | src/components/AffiliationBootstrap.tsx:240-248 | addresses the user's row with the new timestamp; `merged_from_user_id` is present iff the pre-auth id is non-empty and differs from the user's id, and then equals it |
| `AuthSnapshot.EarlierLinkSurvives` | src/components/AffiliationBootstrap.tsx:246-250 | a snapshot without a link keeps the row's earlier `merged_from_user_id` |
| `AffiliationBootstrap.KeptAnonCopy` | src/components/AffiliationBootstrap.tsx:73-80 | only an anonymous session is copied into storage |
| `AffiliationBootstrap.AnonCopyCanBeRestored` | src/components/AffiliationBootstrap.tsx:268-278 | the copy of an anonymous session reads back whole, so it can be restored |
| `AffiliationBootstrap.SignInLinksAnonymousRow` | src/components/AffiliationBootstrap.tsx:238-248 | after the anonymous copy, another user who signs in is linked to the anonymous id; the anonymous user itself is not |
| `AffiliationBootstrap.SyncIdentity` | src/components/AffiliationBootstrap.tsx:256-318 | a live session makes no auth call; a restore is tried iff there is no session and both tokens are stored; an adopted anonymous restore prevents sign-in; otherwise the bootstrap signs in anonymously |
| `AffiliationBootstrap.SignOutRestoresCopiedSession` | src/components/AffiliationBootstrap.tsx:266-293 | after an anonymous session was copied, the next run without a session restores it and creates no new anonymous user |
| `AffiliationBootstrap.RowSeed` | src/components/AffiliationBootstrap.tsx:206 | the `ensureRowExists` payload addresses the user's row |
| `AffiliationBootstrap.InitialUrlWritten` | src/components/AffiliationBootstrap.tsx:175-199 | nothing changes when the first-entry URL is null or ""; the two filtered updates never create or delete a row |
| `AffiliationBootstrap.InitialUrlIsWriteOnce` | src/components/AffiliationBootstrap.tsx:175-199 | other rows, and a user row whose `url` is neither null nor "", are unchanged |
| `AffiliationBootstrap.InitialUrlFillsMissing` | src/components/AffiliationBootstrap.tsx:180-194 | a null or "" `url` becomes the first-entry URL when the matching update succeeds |
| `AffiliationBootstrap.FirstUrlWins` | src/components/AffiliationBootstrap.tsx:176-177 | once the first URL is written, a later call with any URL changes nothing |
| `AffiliationBootstrap.SnapshotLandsInRow` | src/components/AffiliationBootstrap.tsx:235-254 | a successful snapshot leaves the user's row with the new timestamp and, when due, the link |
| `AffiliationBootstrap.IsMeaningful` | src/components/AffiliationBootstrap.tsx:347 | `INITIAL_SESSION`, `SIGNED_IN` and `USER_UPDATED` are the events worth a snapshot |
| `AffiliationBootstrap.ListenerDecision` | src/components/AffiliationBootstrap.tsx:328-351 | nothing after cancellation; `SIGNED_OUT` resyncs; `INITIAL_SESSION`, `SIGNED_IN` and `USER_UPDATED` with a session sync that user; every other case writes nothing to the table |
| `AffiliationBootstrap.RefreshNeverSyncs` | src/components/AffiliationBootstrap.tsx:346-350 | `TOKEN_REFRESHED`, `PASSWORD_RECOVERY` and `MFA_CHALLENGE_VERIFIED` never sync |
| `AffiliationBootstrap.Bootstrap.constructor` | src/components/AffiliationBootstrap.tsx:171-173 | the first-entry URL is `location.href` in the browser and null on the server; not yet cancelled |
| `AffiliationBootstrap.Bootstrap.Cancel` | src/components/AffiliationBootstrap.tsx:353-356 | the cleanup sets `cancelled` |
| `AffiliationBootstrap.Bootstrap.WriteAnonSessionCookieFromSession` | src/components/AffiliationBootstrap.tsx:73-80 | storage becomes `KeptAnonCopy` when reachable |
| `AffiliationBootstrap.Bootstrap.WriteInitialUrlIfMissing` | src/components/AffiliationBootstrap.tsx:175-199 | the table becomes `InitialUrlWritten` |
| `AffiliationBootstrap.Bootstrap.UpsertAuthSnapshot` | src/components/AffiliationBootstrap.tsx:235-254 | ensures the row, then upserts the snapshot with the pre-auth id read from storage |
| `AffiliationBootstrap.Bootstrap.SyncUser` | src/components/AffiliationBootstrap.tsx:322-323 | the snapshot then the initial URL (the listener runs the same pair at lines 348-349): the table becomes `Synced` for the user with the pre-auth id read from storage |
| `AffiliationBootstrap.Bootstrap.SettleIdentity` | src/components/AffiliationBootstrap.tsx:256-318 | the step-by-step reads, writes and auth calls settle exactly on `SyncIdentity`, and storage ends as it says |
| `AffiliationBootstrap.Bootstrap.EnsureSessionAndSync` | src/components/AffiliationBootstrap.tsx:256-324 | storage and identity as `SyncIdentity`; the table is synced for the settled user unless cancelled or without a user |
| `AffiliationBootstrap.Bootstrap.OnAuthStateChange` | src/components/AffiliationBootstrap.tsx:328-351 | nothing after cancellation; anonymous tokens refreshed; a resync on sign-out; a sync only for the meaningful events with a session |
| `AffiliationBootstrap.Bootstrap.RefreshAnonCopy` | src/components/AffiliationBootstrap.tsx:330-334 | an anonymous event session is copied into reachable storage again; any other leaves storage as it is |
| `UserCookie.UserCookieValue` | src/lib/userCookie.ts:16-21 | a non-empty stored value is returned; a missing or "" value gives the fresh id |
| `UserCookie.UserCookieItems` | src/lib/userCookie.ts:16-20 | storage is untouched when a usable cookie exists; afterwards the key holds exactly the returned id and other keys are untouched |
| `UserCookie.GetUserCookie` | src/lib/userCookie.ts:13-22 | "" on the server with storage untouched; a throw with blocked storage, and a throw when a new id is needed but `crypto.randomUUID` is unavailable (storage untouched); otherwise the value and items above |
| `UserCookie.HasUserCookie` | src/lib/userCookie.ts:27-30 | false on the server; otherwise whether the key is present, "" included; storage is never modified |
| `UserCookie.SecondCallReturnsSameId` | src/lib/userCookie.ts:16-21 | a second call returns the first call's id and stores nothing new |
| `UserCookie.StoredAfterGet` | src/lib/userCookie.ts:17-21 | after a client call the key holds exactly the id returned |
| `UserCookie.EmptyValueDisagreement` | src/lib/userCookie.ts:17-29 | on a stored "" the key counts as present, yet `getUserCookie` replaces it |
| `Url.StripTrailingSlash` | src/lib/url.ts:10 | the result is a prefix of the input, as long or one shorter, and shorter exactly when the input ends in `/` |
| `Url.StripsOnlyOneSlash` | src/lib/url.ts:10 | one slash goes: `s/` gives `s` and `s//` gives `s/` |
| `Url.KeepsUnslashed` | src/lib/url.ts:10 | an input not ending in `/` is unchanged |
| `Url.GetBaseUrl` | src/lib/url.ts:1-12 | a truthy browser origin wins; otherwise `NEXT_PUBLIC_BASE_URL`, even "", else `http://localhost:3000`; one trailing slash removed |
| `UrlHost.ColonIndex` | src/app/auth/callback/route.ts:8 | the first `:` of the URL, where the scheme ends |
| `UrlHost.AuthorityOf` | src/app/auth/callback/route.ts:20 | the longest prefix without `/`, `?`, `#` or `\`, so the next character, if any, ends the authority |
| `UrlHost.AfterLast` | src/app/auth/callback/route.ts:20 | the suffix after the last given character, holding none of it: after the last `@` the user information is dropped, after the last `.` the last label remains |
| `UrlHost.BeforeColon` | src/app/auth/callback/route.ts:20 | the prefix before the first `:`, holding no `:`: the port is dropped |
| `UrlHost.ValidHostName` | src/app/auth/callback/route.ts:20 | a host the URL parser accepts and keeps as written: non-empty, lower-case ASCII letters, digits, `-` and `.` only, no `--`, no trailing `.`, a last label that is not a number |
| `UrlHost.JoinedHostName` | src/app/auth/callback/route.ts:32 | two valid host names joined by `.` make a valid host name |
| `UrlHost.AuthorityOfOrigin` | src/app/auth/callback/route.ts:8 | the host of a bare `scheme://host[:port]` origin is its authority without the port |
| `UrlHost.PathKeepsHost` | src/app/auth/callback/route.ts:32 | appending a path, query or fragment (or nothing) to a bare origin keeps its host |
| `UrlHost.AtTakesOverHost` | src/app/auth/callback/route.ts:32 | appending `@host`, for a valid host name, to a bare origin makes `host` the host |
| `UrlHost.DotExtendsHost` | src/app/auth/callback/route.ts:32 | appending `.name`, for a valid host name, to a bare origin without a port makes the host the origin's host followed by `.name`, itself a valid host name |
| `AuthCallback.CallbackRedirect` | src/app/auth/callback/route.ts:7-38 | without a successful exchange or OTP check the redirect is the request's origin plus `/login?error=AuthCodeError`, on the request's host; when `next` starts a path, query or fragment, a sign-in lands on the base URL's host after a code exchange and on the request's host after an OTP check |
| `AuthCallback.SignInRedirect` | src/app/auth/callback/route.ts:13-32 | after a successful code exchange the redirect is the base URL plus `next` (or `/trial`); after a successful OTP check it is the request's origin plus `next` |
| `AuthCallback.NextCanLeaveSite` | src/app/auth/callback/route.ts:13-32 | with `next=@host` for a valid host name, every successful sign-in sends the browser to `host` |
| `AuthCallback.NextCanExtendHost` | src/app/auth/callback/route.ts:13-32 | with `next=.name` for a valid host name, an OTP sign-in sends the browser to the origin's host followed by `.name`, a host the parser accepts |
| `AuthCallback.SafeNextPath` | src/app/auth/callback/route.ts:13 | always starts with `/`; a `next` starting with `/` is kept |
| `AuthCallback.SafeCallbackRedirect` | src/app/auth/callback/route.ts:7-38 | whatever `next` holds, a sign-in lands on the base URL's host after a code exchange and on the request's host otherwise |
| `AuthCallback.SafeRedirectAgreesOnPaths` | src/app/auth/callback/route.ts:13-32 | the checked route answers as the route does for a missing `next` or one starting with `/` |
| `AuthCallback.FailedExchangeFallsThrough` | src/app/auth/callback/route.ts:15-24 | a failed code exchange answers as if no code had been sent |
| `AuthCallback.EmptyNextIsKept` | src/app/auth/callback/route.ts:13 | an empty `next` is kept, not replaced by `/trial` |
| `AuthCallback.MissingNextGoesToTrial` | src/app/auth/callback/route.ts:13-32 | without `next`, a successful sign-in lands on `/trial` of the base URL after a code exchange and of the request's origin after an OTP check |
| `CookieConsent.StoredConsent` | src/lib/CookieConsentContext.tsx:51-55 | only a stored "granted" or "denied" is adopted, as that choice |
| `CookieConsent.StoredConsentRoundTrip` | src/lib/CookieConsentContext.tsx:51-62 | a stored choice is adopted again on the next load |
| `CookieConsent.GtmValue` | src/lib/CookieConsentContext.tsx:30 | "granted" only for granted; "denied" for everything else |
| `CookieConsent.ConsentEntries` | src/lib/CookieConsentContext.tsx:25-40 | two entries, in order: the consent tuple with one value for all four categories, then `{event: "co_consent_update"}` |
| `CookieConsent.OnlyGrantedGrants` | src/lib/CookieConsentContext.tsx:30-37 | every input but granted pushes the same denial; granted differs |
| `CookieConsent.ConsentProvider.constructor` | src/lib/CookieConsentContext.tsx:48 | consent starts as null |
| `CookieConsent.ConsentProvider.UpdateGtmConsent` | src/lib/CookieConsentContext.tsx:22-41 | the two entries go after the existing ones |
| `CookieConsent.ConsentProvider.Load` | src/lib/CookieConsentContext.tsx:50-56 | a valid stored choice is adopted and pushed; anything else changes nothing; blocked storage throws |
| `CookieConsent.ConsentProvider.SetConsent` | src/lib/CookieConsentContext.tsx:58-64 | the state always changes; null neither persists nor pushes; a choice is stored exactly and pushed |
| `CookieConsent.UseCookieConsent` | src/lib/CookieConsentContext.tsx:73-81 | throws exactly when no provider is present; otherwise returns that provider's current choice, which `SetConsent` and `Load` state after each change |
| `CookieConsent.ChoiceSurvivesReload` | src/lib/CookieConsentContext.tsx:50-64 | a choice made through one provider is what a consumer of the next page's provider, over the same storage, reads after it loads |
| `Hero.TabIdsDistinct` | src/components/Hero.tsx:8-72 | seven tabs with distinct ids |
| `Hero.FindIndex` | src/components/Hero.tsx:91 | the first matching position, -1 exactly when the id is absent |
| `Hero.Advanced` | src/components/Hero.tsx:91-93 | the next tab is always a listed tab, the one after the current, wrapping |
| `Hero.NextIndexWraps` | src/components/Hero.tsx:92 | `(i + 1) % n` moves one on and wraps to 0 after the last |
| `Hero.RotatedWithinRound` | src/components/Hero.tsx:91-93 | within one round, `n` steps from `i` land on `i + n`, wrapping |
| `Hero.AdvancedByMoves` | src/components/Hero.tsx:91-93 | `n` ticks show the tab `n` places further on |
| `Hero.AdvancedFrom` | src/components/Hero.tsx:91-93 | a tick from the tab at position `r` shows the tab at `(r + 1) % n` |
| `Hero.FullCycle` | src/components/Hero.tsx:91-93 | as many ticks as tabs return to the start, and every tab is shown on the way |
| `Hero.ShownAfterSteps` | src/components/Hero.tsx:91-93 | the tab at position `j` is shown after `StepsTo` ticks |
| `Hero.SevenTicksCycle` | src/components/Hero.tsx:8-93 | seven ticks return to the starting tab after showing all seven |
| `Hero.HeroTabs.constructor` | src/components/Hero.tsx:77-86 | first tab `word`; auto-play on unless animations are off |
| `Hero.HeroTabs.Tick` | src/components/Hero.tsx:88-96 | advances only with auto-play on and animations enabled |
| `Hero.HeroTabs.Click` | src/components/Hero.tsx:139-142 | the clicked tab becomes active and auto-play goes off |
| `Hero.HeroTabs.SetAnimationsEnabled` | src/components/Hero.tsx:81-86 | disabling animations turns auto-play off; enabling does not turn it back on |
| `StorageInteraction.TrackingDropsRestorableSession` | src/utils/userActions.ts:39-42 | an `upsertAffiliation`-based tracking call after the anonymous copy leaves a bare UUID that can no longer be restored (until an auth event copies the session again) |

## Left out

- Concurrency. The model covers none of the following:
  - fire-and-forget promises;
  - the listener racing `ensureSessionAndSync`;
  - the `cancelled` flag flipping mid-run (it is read once, at line 320);
  - the concurrent insert that `ignoreDuplicates` guards against.

  Each handler is one sequential run.
- Auth and database services: their replies are inputs.
  - `Upserted`, `InsertedIfAbsent`, `UrlUpdated` and `MergedMetadata` state how the model assumes the service applies a successful call.
  - The service's own validation is not modelled.
- UserActions.UpsertAffiliation: does not model `ensureAuthSession` (src/utils/userActions.ts:102-122). It only signs the auth client in, and the table model has no notion of the caller's auth.
- UserActions.TrackUserClick: the outer `try`/`catch` around client creation is not modelled, and neither is the reply to `updateUser`. Both are only logged.
- Uuid.Generated: the `crypto.randomUUID()` path is assumed to return text matching `UUID_RE`. The random bytes of the fallback, from `getRandomValues` or `Math.random`, are an input.
- Timestamps: `new Date().toISOString()` is an opaque string input.
- JSON: JSON.parse and JSON.stringify are not re-verified. The model relies on `Json.Lawful` and `UserActions.RejectsUuids` instead.
- JsStrings.ToLowerAscii: lower-cases ASCII letters only. It is used only for the `"url"` test, where the answer is the same as with full Unicode `toLowerCase`.
- Storage:
  - errors from a full storage quota on `setItem` are not modelled;
  - storage is either reachable or blocked as a whole;
  - `window.dataLayer` that is undefined is taken as the empty list.
- Logging (`console.error`) is not modelled.
- AuthCallback.CallbackRedirect: the `type` parameter is not checked against the OTP types. Where the browser goes is stated only for bare origins and base URLs of the form `scheme://host[:port]` with a valid host name. A redirect URL the URL parser rejects makes `NextResponse.redirect` (lines 20 and 32) throw, and the route then answers with an error. The model does not capture that throw: `CallbackRedirect` returns the text. This happens for an empty host after `@`, a forbidden host code point, or a last label that is a number. The host lemmas therefore require a valid host name.
- UrlHost: the host is read as the WHATWG URL Standard reads it for `http` and `https` URLs written `scheme://...`. Not modelled: other slash forms after the scheme, stripped tabs and newlines, percent-decoding, lower-casing and IDNA processing of the host, IPv6 literals in brackets, and parse failures. `HostOf` returns the text of a host the parser would reject. `ValidHostName` is a sufficient condition for acceptance, not the parser's exact one.
- UserCookie.GetUserCookie: the id `crypto.randomUUID()` would return is an input, and its absence outside a secure context is a throw.
- Hero.HeroTabs.Tick: the 5-second timer and its re-creation on every change are one `Tick`. Rendering and animation are not modelled.
- Hero.HeroTabs.constructor: the first render and the animations effect that follows it are merged into one step.
- The tracking helpers of src/utils/userActions.ts:166-200 are covered only through `UserActions.PayloadAddressesCookieRow`, since each is one `upsertAffiliation` call with fixed fields.
- The presentational pages and components are not part of this model:
  - `login`, `trial`, `dashboard`, `purchase`, the home page and the layout;
  - the purchase components;
  - the value, feature, social-proof, navbar and footer sections;
  - `src/lib/AnimationContext.tsx` (DOM observers and timers);
  - `src/components/AiCoachingVideo.tsx` (floating-point visibility thresholds);
  - the cookie banner, analytics and consent-initialisation views;
  - the Supabase client wrapper;
  - `policy/generate-pdfs.mjs` (file I/O).
- `src/app/purchase/_components/MaintenancePopup.tsx:5` imports `trackWaitlistClick`, which src/utils/userActions.ts does not export. Only `trackWaitlistChoice` exists, so that import has no counterpart in the model.

## Findings

| source | as written | input that shows it | evidently intended | confidence | as-written member | corrected member |
|---|---|---|---|---|---|---|
| src/app/auth/callback/route.ts:13-32 | `next` is appended to the origin or base URL unchecked | `next=@evil.example` (a valid host name) with a valid code or token hash: the redirect `https://app.example@evil.example` makes the site's authority user information, and the browser goes to host `evil.example` (`next=.evil.example` gives host `app.example.evil.example`) | `next` names a path on the site; a value not starting with `/` falls back to `/trial` | medium, not executed | `AuthCallback.NextCanLeaveSite` | `AuthCallback.SafeCallbackRedirect` |
