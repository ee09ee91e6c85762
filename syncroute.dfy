/** The push route (POST /api/sheets/sync): the Apps Script posts the rows of
    one tab, authenticated by a sync token. */
module SyncRoute {
  import opened Js
  import opened Records
  import opened Store
  import opened Ingest
  import AppsScript

  /** The JSON body: `sheetType` (None when absent) and `rows` (None when it is
      not an array). */
  datatype SyncBody = SyncBody(sheetType: Option<string>, rows: Option<seq<Record>>)

  datatype SyncResponse =
    | Unauthorized(error: string)
    | BadRequest(error: string)
    | ServerError
    | SyncOk(sheetType: string, rowsProcessed: nat, datesRecalculated: seq<string>)

  const TypesHint: string := ". Use: orders, expenses, inventory, employees"

  /** The dates the route recomputes: the truthy row dates, first occurrence
      first, for orders and expenses; none for the other types. */
  function SyncDates(t: SheetType, rows: seq<Record>): seq<string> {
    if AddsDates(t) then RowDates([], rows) else []
  }

  /** The calls of an accepted push, in order, when none throws. */
  function PushPlan(user: string, t: SheetType, rows: seq<Record>, token: string): seq<Call> {
    [UpsertRecords(user, t, rows)] + DateCalls(user, SyncDates(t, rows)) + [UpdateSyncTokenLastSync(token)]
  }

  /** `result?.length || rows.length`: the upsert's row count unless it is 0. */
  function RowsProcessed(reply: Answer, given: nat): (n: nat)
    ensures given > 0 ==> n > 0
    ensures n != given ==> reply.Returns? && n == reply.length
  {
    if reply.Returns? && reply.length != 0 then reply.length else given
  }

  /** `!sheetType || !Array.isArray(rows) || rows.length === 0`. */
  predicate MalformedBody(body: SyncBody) {
    body.sheetType.None? || body.sheetType.value == "" || body.rows.None? || body.rows.value == []
  }

  /** POST. `tokenUser` is validateSyncToken's user for an active token, None
      otherwise; `body` is None when the request body is not parseable JSON or
      is `null` (reading or destructuring it throws). Any other JSON value that
      is not an object, such as a number, a string or an array, destructures to
      undefined fields and is `SyncBody(None, None)`. */
  method SyncPost(db: Database, token: Option<string>, tokenUser: string -> Option<string>,
                  body: Option<SyncBody>)
    returns (response: SyncResponse)
    modifies db
    ensures (token.None? || token.value == "") ==>
      response == Unauthorized("Missing x-sync-token header") && db.trace == old(db.trace)
    ensures token.Some? && token.value != "" && tokenUser(token.value).None? ==>
      response == Unauthorized("Invalid or inactive sync token") && db.trace == old(db.trace)
    ensures token.Some? && token.value != "" && tokenUser(token.value).Some? && body.None? ==>
      response == ServerError && db.trace == old(db.trace)
    ensures token.Some? && token.value != "" && tokenUser(token.value).Some? && body.Some? && MalformedBody(body.value) ==>
      response == BadRequest("Missing sheetType or rows array") && db.trace == old(db.trace)
    ensures token.Some? && token.value != "" && tokenUser(token.value).Some? && body.Some? && !MalformedBody(body.value)
            && TypeNamed(body.value.sheetType.value).None? ==>
      response == BadRequest("Unknown sheetType: " + body.value.sheetType.value + TypesHint)
      && db.trace == old(db.trace)
    ensures token.Some? && token.value != "" && tokenUser(token.value).Some? && body.Some? && !MalformedBody(body.value)
            && TypeNamed(body.value.sheetType.value).Some? ==>
      var user, t, rows := tokenUser(token.value).value, TypeNamed(body.value.sheetType.value).value, body.value.rows.value;
      var plan := PushPlan(user, t, rows, token.value);
      && db.trace == old(db.trace) + Executed(plan, |old(db.trace)|, db.answer)
      && response == if Completes(plan, |old(db.trace)|, db.answer)
                     then SyncOk(body.value.sheetType.value,
                                 RowsProcessed(db.answer(|old(db.trace)|, plan[0]), |rows|), SyncDates(t, rows))
                     else ServerError
  {
    if token.None? || token.value == "" {
      return Unauthorized("Missing x-sync-token header");
    }
    var syncUser := tokenUser(token.value);
    if syncUser.None? {
      return Unauthorized("Invalid or inactive sync token");
    }
    if body.None? {
      return ServerError;
    }
    var sheetType, rows := body.value.sheetType, body.value.rows;
    if sheetType.None? || sheetType.value == "" || rows.None? || rows.value == [] {
      return BadRequest("Missing sheetType or rows array");
    }
    var known := TypeNamed(sheetType.value);
    if known.None? {
      return BadRequest("Unknown sheetType: " + sheetType.value + TypesHint);
    }
    var user, t := syncUser.value, known.value;
    ghost var t0 := db.trace;
    ghost var a := [UpsertRecords(user, t, rows.value)];
    ghost var c := [UpdateSyncTokenLastSync(token.value)];
    var result := db.Invoke(UpsertRecords(user, t, rows.value));
    RunOne(t0, UpsertRecords(user, t, rows.value), db.trace, db.answer);
    ghost var t1 := db.trace;
    if result.Throws? {
      RunStops(t0, a, t1, DateCalls(user, SyncDates(t, rows.value)) + c, db.answer);
      assert a + (DateCalls(user, SyncDates(t, rows.value)) + c) == PushPlan(user, t, rows.value, token.value);
      return ServerError;
    }
    var dates := [];
    if t == Orders || t == Expenses {
      dates := CollectRowDates(dates, rows.value);
    }
    ghost var b := DateCalls(user, dates);
    var ok := RecomputeDates(db, user, dates);
    ghost var t2 := db.trace;
    RunThen(t0, a, t1, b, t2, db.answer);
    if !ok {
      RunStops(t0, a + b, t2, c, db.answer);
      return ServerError;
    }
    var reply := db.Invoke(UpdateSyncTokenLastSync(token.value));
    RunOne(t2, UpdateSyncTokenLastSync(token.value), db.trace, db.answer);
    RunThen(t0, a + b, t2, c, db.trace, db.answer);
    if reply.Throws? {
      return ServerError;
    }
    response := SyncOk(sheetType.value, RowsProcessed(result, |rows.value|), dates);
  }

  /** The recomputed dates are distinct, and are exactly the truthy dates of
      the pushed rows for orders and expenses. */
  lemma SyncDatesSpec(t: SheetType, rows: seq<Record>)
    ensures Distinct(SyncDates(t, rows))
    ensures forall d :: d in SyncDates(t, rows) <==> AddsDates(t) && RowsHaveDate(rows, d)
  {
    RowDatesSpec([], rows);
  }

  /** An accepted push upserts first and updates the token's last sync last;
      every recorded date is recomputed and alert-checked exactly once. */
  lemma PushPlanSpec(user: string, t: SheetType, rows: seq<Record>, token: string, d: string)
    ensures PushPlan(user, t, rows, token)[0] == UpsertRecords(user, t, rows)
    ensures PushPlan(user, t, rows, token)[|PushPlan(user, t, rows, token)| - 1] == UpdateSyncTokenLastSync(token)
    ensures multiset(PushPlan(user, t, rows, token))[Recalculate(user, d)]
            == if AddsDates(t) && RowsHaveDate(rows, d) then 1 else 0
    ensures multiset(PushPlan(user, t, rows, token))[CheckAlerts(user, d)]
            == if AddsDates(t) && RowsHaveDate(rows, d) then 1 else 0
  {
    var dates := SyncDates(t, rows);
    SyncDatesSpec(t, rows);
    assert d in dates <==> AddsDates(t) && RowsHaveDate(rows, d);
    DateCallsRecalculate(user, dates, d);
    DateCallsCheckAlerts(user, dates, d);
    DistinctCount(dates, d);
    var first, middle, last := UpsertRecords(user, t, rows), DateCalls(user, dates), UpdateSyncTokenLastSync(token);
    assert PushPlan(user, t, rows, token) == [first] + middle + [last];
    assert multiset(PushPlan(user, t, rows, token)) == multiset([first]) + multiset(middle) + multiset([last]);
  }

  /** Every payload the Apps Script posts passes the route's checks: a known
      type key and a non-empty array of rows. */
  lemma ScriptPayloadAccepted(sheetName: string, data: Option<seq<Row>>)
    requires AppsScript.SyncPayload(sheetName, data).Some?
    ensures var p := AppsScript.SyncPayload(sheetName, data).value;
      !MalformedBody(SyncBody(Some(p.sheetType), Some(p.rows))) && TypeNamed(p.sheetType).Some?
  {
    var p := AppsScript.SyncPayload(sheetName, data).value;
    assert TypeNamed(p.sheetType).value.Name() == p.sheetType;
  }
}
