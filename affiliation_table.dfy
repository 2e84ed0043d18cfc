/** The hosted `affiliation` table, keyed by `user_id`, as the two writers of
    src/utils/userActions.ts and src/components/AffiliationBootstrap.tsx see it. The database
    is foreign: whether a call fails is a reply handed to the model, and a failed call
    changes nothing. */
module AffiliationTable {
  import opened Common
  import opened Json
  import JsStrings

  /** A row, column name to value; a column that is absent reads as SQL NULL. */
  type Row = map<string, Json>

  /** The error object the database client returns: the PostgreSQL SQLSTATE `code` and the
      `message`, None when the message is not a string. */
  datatype DbError = DbError(code: string, message: Option<string>)

  /** SQLSTATE class 23, not_null_violation. */
  const NotNullViolation: string := "23502"

  /** The retry test both writers use: a NOT NULL violation whose message, lower-cased, mentions
      `url`. Only ASCII letters are lower-cased: no other character lower-cases to `u`, `r` or `l`,
      so the test gives the same answer as the full Unicode `toLowerCase`. */
  predicate IsUrlNotNullViolation(e: DbError)
  {
    e.code == NotNullViolation && e.message.Some?
    && JsStrings.Includes(JsStrings.ToLowerAscii(e.message.value), "url")
  }

  /** The three characters of `m` at `i`, lower-cased, read `url`. */
  predicate UrlAt(m: string, i: int)
  {
    0 <= i <= |m| - 3 && JsStrings.ToLowerAscii(m[i..i + 3]) == "url"
  }

  /** The test ignores case: it holds exactly when some three characters of the message,
      lower-cased, read `url` (`URL`, `Url` and the rest all count). */
  lemma UrlTestIgnoresCase(e: DbError)
    ensures IsUrlNotNullViolation(e) <==>
      e.code == NotNullViolation && e.message.Some? && exists i :: UrlAt(e.message.value, i)
  {
    if e.message.Some? {
      var m := e.message.value;
      var lower := JsStrings.ToLowerAscii(m);
      forall i
        ensures JsStrings.OccursAt(lower, "url", i) <==> UrlAt(m, i)
      {
        if 0 <= i <= |m| - 3 {
          assert lower[i..i + 3] == JsStrings.ToLowerAscii(m[i..i + 3]);
        }
      }
    }
  }

  /** The row a payload addresses: its `user_id`, when that is a string. */
  function RowKey(payload: Row): Option<string>
  {
    if "user_id" in payload && payload["user_id"].Str? then Some(payload["user_id"].s) else None
  }

  /** `upsert(payload, { onConflict: "user_id" })`: a new row is inserted; an existing row keeps
      its other columns and takes the payload's. */
  function Upserted(rows: map<string, Row>, payload: Row): (r: map<string, Row>)
    ensures RowKey(payload).None? ==> r == rows
    ensures RowKey(payload).Some? ==>
      var id := RowKey(payload).value;
      && r.Keys == rows.Keys + {id}
      && (forall k :: k in r && k != id ==> r[k] == rows[k])
      && r[id].Keys == payload.Keys + (if id in rows then rows[id].Keys else {})
      && (forall col :: col in payload ==> r[id][col] == payload[col])
      && (forall col :: col in r[id] && col !in payload ==> id in rows && r[id][col] == rows[id][col])
  {
    match RowKey(payload)
    case None => rows
    case Some(id) => rows[id := if id in rows then rows[id] + payload else payload]
  }

  /** `upsert(payload, { onConflict: "user_id", ignoreDuplicates: true })`: an existing row is
      left exactly as it is. */
  function InsertedIfAbsent(rows: map<string, Row>, payload: Row): (r: map<string, Row>)
    ensures RowKey(payload).Some? && RowKey(payload).value !in rows ==> r == rows[RowKey(payload).value := payload]
    ensures RowKey(payload).None? || RowKey(payload).value in rows ==> r == rows
  {
    match RowKey(payload)
    case None => rows
    case Some(id) => if id in rows then rows else rows[id := payload]
  }

  /** `.is("url", null)`: the column is NULL, or was never set. */
  predicate UrlIsNull(row: Row)
  {
    "url" !in row || row["url"] == Null
  }

  /** `.eq("url", "")`. */
  predicate UrlIsEmpty(row: Row)
  {
    "url" in row && row["url"] == Str("")
  }

  /** `update({ url }).eq("user_id", id)` narrowed by one of the two filters above. */
  datatype UrlFilter = WhereNull | WhereEmpty

  predicate Selects(f: UrlFilter, row: Row)
  {
    match f
    case WhereNull => UrlIsNull(row)
    case WhereEmpty => UrlIsEmpty(row)
  }

  function UrlUpdated(rows: map<string, Row>, id: string, url: string, f: UrlFilter): (r: map<string, Row>)
    ensures r.Keys == rows.Keys
    ensures forall k :: k in r && (k != id || !Selects(f, rows[k])) ==> r[k] == rows[k]
    ensures id in rows && Selects(f, rows[id]) ==> r[id] == rows[id]["url" := Str(url)]
  {
    if id in rows && Selects(f, rows[id]) then rows[id := rows[id]["url" := Str(url)]] else rows
  }

  // ---------------------------------------------------------------- the insert with its url retry

  /** A request sent to the table. */
  datatype Write =
    | UpsertRow(payload: Row)          // upsert(payload, { onConflict: "user_id" })
    | InsertRowIfAbsent(payload: Row)  // the same with ignoreDuplicates: true

  /** Both writers retry a failed upsert once, and only when the error is a URL NOT NULL
      violation and a truthy current URL is at hand. */
  predicate RetriesWithUrl(firstError: Option<DbError>, url: Option<string>)
  {
    firstError.Some? && IsUrlNotNullViolation(firstError.value) && url.Some? && url.value != ""
  }

  /** The requests sent: the upsert, then possibly one insert of the same payload plus `url`. */
  function WithUrlRetry(payload: Row, url: Option<string>, firstError: Option<DbError>): (w: seq<Write>)
    ensures 1 <= |w| <= 2 && w[0] == UpsertRow(payload)
    ensures |w| == 2 <==> RetriesWithUrl(firstError, url)
    ensures |w| == 2 ==> w[1] == InsertRowIfAbsent(payload["url" := Str(url.value)])
  {
    if RetriesWithUrl(firstError, url) then
      [UpsertRow(payload), InsertRowIfAbsent(payload["url" := Str(url.value)])]
    else
      [UpsertRow(payload)]
  }

  /** The table after one request, given the service's reply to it. */
  function Applied(rows: map<string, Row>, w: Write, reply: Option<DbError>): map<string, Row>
  {
    if reply.Some? then rows
    else match w
      case UpsertRow(p) => Upserted(rows, p)
      case InsertRowIfAbsent(p) => InsertedIfAbsent(rows, p)
  }

  /** The table after the upsert and its possible retry. */
  function AfterUpsertWithRetry(rows: map<string, Row>, payload: Row, url: Option<string>,
                                firstError: Option<DbError>, retryError: Option<DbError>): map<string, Row>
  {
    var w := WithUrlRetry(payload, url, firstError);
    var once := Applied(rows, w[0], firstError);
    if |w| == 2 then Applied(once, w[1], retryError) else once
  }

  /** No retry follows a successful upsert, nor an error that is not about `url`. */
  lemma NoRetryUnlessUrlViolation(payload: Row, url: Option<string>, firstError: Option<DbError>)
    requires firstError.None? || !IsUrlNotNullViolation(firstError.value)
    ensures WithUrlRetry(payload, url, firstError) == [UpsertRow(payload)]
  {
  }

  /** The retry only ever creates the row: a row that exists when it runs (one inserted
      concurrently, say) is left exactly as it is. */
  lemma RetryNeverOverwrites(rows: map<string, Row>, payload: Row, url: string, reply: Option<DbError>)
    requires RowKey(payload).Some? && RowKey(payload).value in rows
    ensures Applied(rows, InsertRowIfAbsent(payload["url" := Str(url)]), reply) == rows
  {
    assert RowKey(payload["url" := Str(url)]) == RowKey(payload);
  }

  /** The point of the pair: when the write that was sent last succeeds, the addressed row
      exists afterwards, and a row created by the retry carries the URL. */
  lemma RowExistsAfterSuccess(rows: map<string, Row>, payload: Row, url: Option<string>,
                              firstError: Option<DbError>, retryError: Option<DbError>)
    requires RowKey(payload).Some?
    requires firstError.None? || (RetriesWithUrl(firstError, url) && retryError.None?)
    ensures var id := RowKey(payload).value;
      var after := AfterUpsertWithRetry(rows, payload, url, firstError, retryError);
      && id in after
      && (firstError.Some? && id !in rows ==> after[id] == payload["url" := Str(url.value)])
  {
    var id := RowKey(payload).value;
    if firstError.Some? {
      var retried := payload["url" := Str(url.value)];
      assert RowKey(retried) == Some(id);
    }
  }

  /** The table as the site's client sees it; each call takes the reply the service gives it. */
  class Table {
    var rows: map<string, Row>

    constructor (initial: map<string, Row>)
      ensures rows == initial
    {
      rows := initial;
    }

    method Upsert(payload: Row, reply: Option<DbError>) returns (error: Option<DbError>)
      modifies this
      ensures error == reply
      ensures rows == if reply.None? then Upserted(old(rows), payload) else old(rows)
    {
      error := reply;
      if reply.None? {
        rows := Upserted(rows, payload);
      }
    }

    method InsertIfAbsent(payload: Row, reply: Option<DbError>) returns (error: Option<DbError>)
      modifies this
      ensures error == reply
      ensures rows == if reply.None? then InsertedIfAbsent(old(rows), payload) else old(rows)
    {
      error := reply;
      if reply.None? {
        rows := InsertedIfAbsent(rows, payload);
      }
    }

    /** The upsert, then its retry when the reply calls for it; answers what was sent. */
    method UpsertWithUrlRetry(payload: Row, url: Option<string>, firstReply: Option<DbError>, retryReply: Option<DbError>)
      returns (sent: seq<Write>)
      modifies this
      ensures sent == WithUrlRetry(payload, url, firstReply)
      ensures rows == AfterUpsertWithRetry(old(rows), payload, url, firstReply, retryReply)
    {
      var error := Upsert(payload, firstReply);
      sent := [UpsertRow(payload)];
      if error.Some? && IsUrlNotNullViolation(error.value) && url.Some? && url.value != "" {
        var retried := payload["url" := Str(url.value)];
        var _ := InsertIfAbsent(retried, retryReply);
        sent := sent + [InsertRowIfAbsent(retried)];
      }
    }

    method UpdateUrl(id: string, url: string, f: UrlFilter, reply: Option<DbError>) returns (error: Option<DbError>)
      modifies this
      ensures error == reply
      ensures rows == if reply.None? then UrlUpdated(old(rows), id, url, f) else old(rows)
    {
      error := reply;
      if reply.None? {
        rows := UrlUpdated(rows, id, url, f);
      }
    }
  }
}
