/** The auth snapshot of src/components/AffiliationBootstrap.tsx: which user is anonymous
    (lines 16-18), the columns `buildAuthSnapshot` derives from the auth user (lines 110-167)
    and the payload `upsertAuthSnapshot` writes with its `merged_from_user_id` link (lines
    238-248). */
module AuthSnapshot {
  import opened Common
  import opened Json
  import opened AffiliationTable

  /** An auth user: its id and its record, the user object's other properties by name
      (`email`, `phone`, `app_metadata`, `user_metadata`, `is_anonymous`, ...). */
  datatype User = User(id: string, record: map<string, Json>)

  /** `Boolean(user?.is_anonymous)`. */
  predicate IsAnonymousUser(u: User)
  {
    "is_anonymous" in u.record && Truthy(u.record["is_anonymous"])
  }

  /** `user[key] ?? fallback`: only a missing or null property gives way. */
  function OrIfNullish(u: User, key: string, fallback: Json): (r: Json)
    ensures key in u.record && !u.record[key].Null? ==> r == u.record[key]
    ensures key !in u.record || u.record[key].Null? ==> r == fallback
  {
    if key in u.record && !u.record[key].Null? then u.record[key] else fallback
  }

  /** `user.app_metadata ?? {}`. */
  function AppMetadata(u: User): Json
  {
    OrIfNullish(u, "app_metadata", Object(map[]))
  }

  /** `user.user_metadata ?? {}`. */
  function UserMetadata(u: User): Json
  {
    OrIfNullish(u, "user_metadata", Object(map[]))
  }

  /** A string as a column value, null when there is none. */
  function OrNull(s: Option<string>): Json
  {
    if s.Some? then Str(s.value) else Null
  }

  /** The first of two properties that holds a string: the nested ternaries of lines 119-141. */
  function FirstString(j: Json, first: string, second: string): (r: Option<string>)
    ensures StringProperty(j, first).Some? ==> r == StringProperty(j, first)
    ensures StringProperty(j, first).None? ==> r == StringProperty(j, second)
  {
    if StringProperty(j, first).Some? then StringProperty(j, first) else StringProperty(j, second)
  }

  /** What `buildAuthSnapshot` returns, one field per column it writes. */
  datatype Snapshot = Snapshot(
    email: Json, phone: Option<string>, authCreatedAt: Json, confirmedAt: Option<string>,
    lastSignInAt: Option<string>, authUpdatedAt: Json, isAnonymous: Option<bool>, isSsoUser: Option<bool>,
    rawAppMetaData: Json, rawUserMetaData: Json, provider: Option<string>, providers: Option<seq<Json>>,
    name: Option<string>, fullName: Option<string>, avatarUrl: Option<string>)

  /** `typeof j[key] === "boolean" ? j[key] : null`. */
  function BooleanProperty(j: Json, key: string): Option<bool>
  {
    match Property(j, key)
    case Some(Bool(b)) => Some(b)
    case _ => None
  }

  /** `buildAuthSnapshot(user)`. */
  function BuildAuthSnapshot(u: User): (s: Snapshot)
    // avatar_url before picture
    ensures var meta := UserMetadata(u);
      s.avatarUrl == if StringProperty(meta, "avatar_url").Some? then StringProperty(meta, "avatar_url")
                     else StringProperty(meta, "picture")
    // name before full_name; full_name before the chosen name
    ensures var meta := UserMetadata(u);
      && s.name == (if StringProperty(meta, "name").Some? then StringProperty(meta, "name")
                    else StringProperty(meta, "full_name"))
      && s.fullName == (if StringProperty(meta, "full_name").Some? then StringProperty(meta, "full_name") else s.name)
    // confirmed_at before email_confirmed_at, both read off the user itself
    ensures var record := Object(u.record);
      s.confirmedAt == if StringProperty(record, "confirmed_at").Some? then StringProperty(record, "confirmed_at")
                       else StringProperty(record, "email_confirmed_at")
    // providers only when it is an array
    ensures var providers := Property(AppMetadata(u), "providers");
      s.providers == if providers.Some? && providers.value.Array? then Some(providers.value.items) else None
    ensures s.rawAppMetaData == AppMetadata(u) && s.rawUserMetaData == UserMetadata(u)
    ensures s.email == OrIfNullish(u, "email", Null)
  {
    var app := AppMetadata(u);
    var meta := UserMetadata(u);
    var record := Object(u.record);
    var providers := match Property(app, "providers")
      case Some(Array(items)) => Some(items)
      case _ => None;
    var name := FirstString(meta, "name", "full_name");
    Snapshot(
      email := OrIfNullish(u, "email", Null),
      phone := StringProperty(record, "phone"),
      authCreatedAt := OrIfNullish(u, "created_at", Null),
      confirmedAt := FirstString(record, "confirmed_at", "email_confirmed_at"),
      lastSignInAt := StringProperty(record, "last_sign_in_at"),
      authUpdatedAt := OrIfNullish(u, "updated_at", Null),
      isAnonymous := BooleanProperty(record, "is_anonymous"),
      isSsoUser := BooleanProperty(record, "is_sso_user"),
      rawAppMetaData := app,
      rawUserMetaData := meta,
      provider := StringProperty(app, "provider"),
      providers := providers,
      name := name,
      fullName := FirstString(meta, "full_name", "name"),
      avatarUrl := FirstString(meta, "avatar_url", "picture"))
  }

  function BoolOrNull(b: Option<bool>): Json
  {
    if b.Some? then Bool(b.value) else Null
  }

  /** The snapshot as table columns, absent values written as null. */
  function SnapshotColumns(s: Snapshot): Row
  {
    map[
      "email" := s.email, "phone" := OrNull(s.phone), "auth_created_at" := s.authCreatedAt,
      "confirmed_at" := OrNull(s.confirmedAt), "last_sign_in_at" := OrNull(s.lastSignInAt),
      "auth_updated_at" := s.authUpdatedAt, "is_anonymous" := BoolOrNull(s.isAnonymous),
      "is_sso_user" := BoolOrNull(s.isSsoUser), "raw_app_meta_data" := s.rawAppMetaData,
      "raw_user_meta_data" := s.rawUserMetaData, "provider" := OrNull(s.provider),
      "providers" := if s.providers.Some? then Array(s.providers.value) else Null,
      "name" := OrNull(s.name), "full_name" := OrNull(s.fullName), "avatar_url" := OrNull(s.avatarUrl)
    ]
  }

  /** The snapshot never writes the key, the timestamp or the link. */
  lemma SnapshotLeavesKeysFree(s: Snapshot)
    ensures "user_id" !in SnapshotColumns(s)
    ensures "updated_at" !in SnapshotColumns(s)
    ensures "merged_from_user_id" !in SnapshotColumns(s)
  {
  }

  /** When the metadata carries only one of `name` and `full_name` as a string, both columns
      take it; when it carries both, each column keeps its own. */
  lemma NameColumnsAgree(u: User)
    ensures var s := BuildAuthSnapshot(u);
      var name := StringProperty(UserMetadata(u), "name");
      var full := StringProperty(UserMetadata(u), "full_name");
      && (name.Some? && full.None? ==> s.name == name && s.fullName == name)
      && (name.None? && full.Some? ==> s.name == full && s.fullName == full)
      && (name.Some? && full.Some? ==> s.name == name && s.fullName == full)
      && (name.None? && full.None? ==> s.name.None? && s.fullName.None?)
  {
  }

  /** `preAuthId && preAuthId !== user.id`: the pre-auth id links the row to an earlier one. */
  predicate LinksEarlierId(u: User, preAuthId: Option<string>)
  {
    preAuthId.Some? && preAuthId.value != "" && preAuthId.value != u.id
  }

  /** The payload of `upsertAuthSnapshot`: `{ user_id, ...snapshot, updated_at }`, and
      `merged_from_user_id` only when the pre-auth id links an earlier identity. */
  function SnapshotPayload(u: User, preAuthId: Option<string>, now: string): (p: Row)
    ensures RowKey(p) == Some(u.id)
    ensures "updated_at" in p && p["updated_at"] == Str(now)
    ensures "merged_from_user_id" in p <==> LinksEarlierId(u, preAuthId)
    ensures LinksEarlierId(u, preAuthId) ==> p["merged_from_user_id"] == Str(preAuthId.value)
  {
    var columns := SnapshotColumns(BuildAuthSnapshot(u));
    SnapshotLeavesKeysFree(BuildAuthSnapshot(u));
    var base := map["user_id" := Str(u.id)] + columns + map["updated_at" := Str(now)];
    if LinksEarlierId(u, preAuthId) then base["merged_from_user_id" := Str(preAuthId.value)] else base
  }

  /** A later snapshot without a link leaves an earlier link in place: the upsert only
      overwrites the columns it names. */
  lemma EarlierLinkSurvives(rows: map<string, Row>, u: User, preAuthId: Option<string>, now: string)
    requires !LinksEarlierId(u, preAuthId)
    requires u.id in rows && "merged_from_user_id" in rows[u.id]
    ensures var after := Upserted(rows, SnapshotPayload(u, preAuthId, now));
      u.id in after && after[u.id]["merged_from_user_id"] == rows[u.id]["merged_from_user_id"]
  {
    var p := SnapshotPayload(u, preAuthId, now);
    assert "merged_from_user_id" !in p;
  }
}
