/** The pull route (POST /api/sheets/pull): a signed-in user's connected
    spreadsheet is read tab by tab and ingested. */
module PullRoute {
  import opened Js
  import opened Records
  import opened SheetParser
  import opened Store
  import opened Ingest

  /** parseDynamicRows with the server's date formatter, as the routes call it. */
  function ServerParse(isoDateOf: Cell -> Option<string>): (string, seq<Row>) -> ParseResult {
    (name: string, rows: seq<Row>) => ParseDynamicRows(name, rows, isoDateOf)
  }

  const NoSheetMessage: string := "Chưa kết nối Google Sheets. Hãy paste URL sheet trước."

  /** The route's answers: 400 with a message, 500 when a store call throws,
      or the success body. */
  datatype PullResponse =
    | BadRequest(error: string)
    | ServerError
    | PullOk(results: map<string, TabResult>, datesRecalculated: seq<string>)

  /** `!userId`: missing or the empty string. */
  predicate MissingId(userId: Option<string>) {
    userId.None? || userId.value == ""
  }

  /** The calls the route makes for a user with a connected sheet. */
  function PullPlan(user: string, sheetId: string, raw: seq<(string, seq<Row>)>,
                    isoDateOf: Cell -> Option<string>): seq<Call>
  {
    SheetSyncPlan(user, sheetId, ParseTabs(raw, ServerParse(isoDateOf)))
  }

  /** POST. `userOf` is getOrCreateUser's id for the request's userId (None
      when it throws), `sheetOf` getUserSheet's sheet id (None when the user
      has connected no sheet) and `readAllTabs` the spreadsheet's tabs with
      their value grids (None when the spreadsheet's tab list cannot be read,
      which throws). */
  method PullPost(db: Database, userId: Option<string>, userOf: string -> Option<string>,
                  sheetOf: string -> Option<string>,
                  readAllTabs: string -> Option<seq<(string, seq<Row>)>>,
                  isoDateOf: Cell -> Option<string>)
    returns (response: PullResponse)
    modifies db
    ensures MissingId(userId) ==> response == BadRequest("Missing userId") && db.trace == old(db.trace)
    ensures !MissingId(userId) && userOf(userId.value).None? ==>
      response == ServerError && db.trace == old(db.trace)
    ensures !MissingId(userId) && userOf(userId.value).Some? && sheetOf(userOf(userId.value).value).None? ==>
      response == BadRequest(NoSheetMessage) && db.trace == old(db.trace)
    ensures !MissingId(userId) && userOf(userId.value).Some? && sheetOf(userOf(userId.value).value).Some?
            && readAllTabs(sheetOf(userOf(userId.value).value).value).None? ==>
      response == ServerError && db.trace == old(db.trace)
    ensures !MissingId(userId) && userOf(userId.value).Some? && sheetOf(userOf(userId.value).value).Some?
            && readAllTabs(sheetOf(userOf(userId.value).value).value).Some? ==>
      var user := userOf(userId.value).value;
      var sheetId := sheetOf(user).value;
      var raw := readAllTabs(sheetId).value;
      var tabs := ParseTabs(raw, ServerParse(isoDateOf));
      var plan := PullPlan(user, sheetId, raw, isoDateOf);
      && db.trace == old(db.trace) + Executed(plan, |old(db.trace)|, db.answer)
      && response == if Completes(plan, |old(db.trace)|, db.answer)
                     then PullOk(TabResults(tabs), AffectedDates(tabs))
                     else ServerError
  {
    if userId.None? || userId.value == "" {
      return BadRequest("Missing userId");
    }
    var dbUser := userOf(userId.value);
    if dbUser.None? {
      return ServerError;
    }
    var user := dbUser.value;
    var userSheet := sheetOf(user);
    if userSheet.None? {
      return BadRequest(NoSheetMessage);
    }
    var sheetsData := readAllTabs(userSheet.value);
    if sheetsData.None? {
      return ServerError;
    }
    var ok, results, totalRows, dates := SyncUserSheet(db, user, userSheet.value, sheetsData.value, ServerParse(isoDateOf));
    if !ok {
      return ServerError;
    }
    response := PullOk(results, dates);
  }

  /** A successful pull reports every processed tab and no other, and lists
      each recomputed date once: exactly the dates of orders and expenses rows. */
  lemma PullOkSpec(raw: seq<(string, seq<Row>)>, isoDateOf: Cell -> Option<string>)
    ensures forall name :: name in TabResults(ParseTabs(raw, ServerParse(isoDateOf))) <==>
      exists i :: 0 <= i < |raw| && raw[i].0 == name
        && !Skipped(ParseDynamicRows(raw[i].0, raw[i].1, isoDateOf))
    ensures Distinct(AffectedDates(ParseTabs(raw, ServerParse(isoDateOf))))
    ensures forall d :: d in AffectedDates(ParseTabs(raw, ServerParse(isoDateOf))) <==>
      exists i :: 0 <= i < |raw| && TabHasDate((raw[i].0, ParseDynamicRows(raw[i].0, raw[i].1, isoDateOf)), d)
  {
    var tabs := ParseTabs(raw, ServerParse(isoDateOf));
    ParseTabsSpec(raw, ServerParse(isoDateOf));
    TabResultsKeys(tabs);
    AffectedDatesDistinct(tabs);
    AffectedDatesSpec(tabs);
  }
}
