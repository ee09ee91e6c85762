# CEO Assistant: spreadsheet ingestion and payment rules in Dafny

CEO Assistant is a dashboard for small Vietnamese businesses. The owner keeps
orders, expenses, stock and staff in a Google spreadsheet. The application
reads that spreadsheet and stores typed rows. It recomputes the daily metrics
and alerts of every date the rows touch. It sells a Pro plan through the
VNPay payment gateway.

This project models the core of that system and proves properties about the
model:

- **The sheet parser** of `lib/googleSheets.js`:
  - tab-name classification against the alias tables;
  - the header/data split and the blank-row guards;
  - typed records with their defaults;
  - the `extraData` bag for columns past the known ones;
  - positional row identities;
  - date rewriting;
  - `extractSheetId`.
- **The Apps Script** that pushes one tab on every edit (`google-apps-script/sync.js`). Its own parser is compared with the server's.
- **The three ingestion routes:**
  - `POST /api/sheets/pull`;
  - the scheduled `GET /api/cron/sync` with its per-user `syncUserSheet`;
  - the token-authenticated `POST /api/sheets/sync`.

  The store, metric and alert functions they call are not defined in the repository. Each is one abstract call on a `Store.Database` object. The object records a trace of the calls, and an oracle decides which call throws. The proofs are about that trace:
  - which calls are made, in which order and how often;
  - what the route answers when a call throws.
- **VNPay payment handling:**
  - `createPaymentUrl`, with its sorted and form-encoded parameters, its `yyyyMMddHHmmss` creation date and its HMAC-SHA512 signature (RFC 2104);
  - `verifyReturnUrl` and `getResponseDescription`;
  - the return route `GET /api/payment/callback`, which parses the raw query, checks the signature, upgrades the plan or marks the payment failed, and redirects;
  - the gateway notification `GET /api/payment/ipn`, with its response-code cascade.

  The text encodings the payment code relies on are written out:
  - UTF-8 (RFC 3629);
  - `encodeURIComponent`, percent-encoding as in section 2.1 of RFC 3986;
  - the WHATWG URL standard's query percent-encoding;
  - lower-case hex.

  The HMAC itself is a function parameter.
- **Plan rules:**
  - the effective plan status and `daysLeft` of `GET /api/user/plan`;
  - the Pro gate and alert shaping of `POST /api/dashboard/alerts`.
- **The dashboard's display helpers** in `lib/api.js`: percentage change, trend direction, severity colour and the `formatNumber` suffix.

Cells are `Empty | Str | Num | DateVal`, with JavaScript's falsiness written out. Timestamps are integers in milliseconds. The clock, the Google API, the database lookups and the HMAC are parameters of the operations that use them. Loops in the source are `while` loops in methods. Each method is proved against a specification function, and the lemmas state the source's promises about that function.

## Model

| member | source | states |
|---|---|---|
| TabClassifier.MatchTabTypeSpec | frontend/src/lib/googleSheets.js:52-91 | a tab's type is the first bucket (orders, expenses, inventory, employees) holding an alias equal to the lower-cased name with all white space removed, else none |
| TabClassifier.FirstBucket | frontend/src/lib/googleSheets.js:83-90 | the bucket found holds the key; none is found iff no bucket holds it |
| TabClassifier.NormalizeKeepsKey | frontend/src/lib/googleSheets.js:76-78 | trimming and collapsing white-space runs does not change the space-free key |
| TabClassifier.MatchTabTypeInsensitive | frontend/src/lib/googleSheets.js:81-91 | names with the same lower-cased, space-free key classify alike |
| TabClassifier.MatchTabTypeIgnoresCase | frontend/src/lib/googleSheets.js:76-91 | lower-casing a name first does not change its type |
| TabClassifier.OrdersKeyWins | frontend/src/lib/googleSheets.js:83-88 | a key of an orders alias classifies as orders whatever the later buckets hold |
| TabClassifier.MatchTabTypeGapWidth | frontend/src/lib/googleSheets.js:76-91 | widening a one-space gap to two does not change the type |
| TabClassifier.AccentedOrders | frontend/src/lib/googleSheets.js:52-91 | "Đơn Hàng" is an orders tab |
| Records.TypeNamed | frontend/src/app/api/sheets/sync/route.js:46-66 | the switch on a type key: a type whose name is the key, or none when no type has that name |
| Records.RowIdInjective | frontend/src/lib/googleSheets.js:206 | within one prefix, `prefix_n` determines n |
| Records.BuildFields | frontend/src/lib/googleSheets.js:210-265 | each type yields the field set of that type and no other |
| Records.BuildFieldsDefaults | frontend/src/lib/googleSheets.js:211-264 | the order total falls back to quantity × unit price when column F is 0 or not a number; order status defaults to `completed`, employee status to `active` |
| Js.CellAt | frontend/src/lib/googleSheets.js:213-219 | `row[i]` is the cell when present, undefined past the end of the row |
| Js.TextOr | frontend/src/lib/googleSheets.js:214 | `String(cell \|\| d)`: a falsy cell, 0 included, gives the default; a text cell gives its text |
| Js.ParseNumber | frontend/src/lib/googleSheets.js:216 | `Number(s)`: blank text is 0, a run of digits between white space is its value |
| Js.NumberOr0 | frontend/src/lib/googleSheets.js:216-218 | `Number(c) \|\| 0`: NaN gives 0, and a non-zero result is the number read |
| Js.NatToStringInjective | frontend/src/lib/googleSheets.js:206 | distinct row numbers have distinct decimal texts |
| Js.TrimStart | frontend/src/lib/googleSheets.js:77 | removes exactly the leading white space |
| Js.TrimEnd | frontend/src/lib/googleSheets.js:77 | removes exactly the trailing white space |
| Js.RemoveSpaces | frontend/src/lib/googleSheets.js:87 | the result has no white space |
| Js.ToLower | frontend/src/lib/googleSheets.js:77 | `toLowerCase` over the ranges LowerChar covers; in this model, lower-casing keeps the length |
| Js.Split | frontend/src/lib/googleSheets.js:147 | at least one part, none holding the separator |
| Js.SplitJoin | frontend/src/lib/vnpay.js:64-66 | splitting a join at a separator no part holds gives the parts back |
| Js.JoinKeeps | frontend/src/lib/vnpay.js:64-66 | a property of every character of the parts and the separator holds of the joined text |
| Js.PadStart | frontend/src/lib/googleSheets.js:149 | the text ends with the input, is at least n long, and is filled in front |
| Js.LastTwo | frontend/src/lib/vnpay.js:38-42 | `slice(-2)` is the last two characters |
| Js.IndexOf | frontend/src/app/api/payment/callback/route.js:26 | the first position of the character, or none iff it is absent |
| SheetParser.FormatDate | frontend/src/lib/googleSheets.js:144-156 | null iff the value is falsy; a full-date-shaped value is kept |
| SheetParser.FormatDateDayMonthYear | frontend/src/lib/googleSheets.js:147-150 | `d/m/y` becomes `y-pad2(m)-pad2(d)`, whatever the generic date parser says |
| SheetParser.FormatDateKeepsFullDate | frontend/src/lib/googleSheets.js:146 | a value of the RFC 3339 section 5.6 full-date shape is returned unchanged |
| SheetParser.FormatDateGivesFullDate | frontend/src/lib/googleSheets.js:146-150 | a `d/m/yyyy` rewrite has full-date shape, so formatting it again changes nothing |
| SheetParser.FormatDateExample1 | frontend/src/lib/googleSheets.js:147-150 | "5/3/2024" gives "2024-03-05" |
| SheetParser.FormatDateExample2 | frontend/src/lib/googleSheets.js:147-150 | "05/03/2024" gives "2024-03-05" |
| SheetParser.FormatDateUnparseable | frontend/src/lib/googleSheets.js:151-155 | a truthy value that is no full date, no `a/b/c` and no parseable date is returned as its own text, not null |
| SheetParser.ExtraUpToSpec | frontend/src/lib/googleSheets.js:159-168 | the bag's keys are exactly the non-empty headers of columns from the start index with a cell that is neither undefined nor `''`; each holds the cell of the last such column with that header |
| SheetParser.BuildExtraData | frontend/src/lib/googleSheets.js:159-168 | the loop computes the bag above |
| SheetParser.KeptSpec | frontend/src/lib/googleSheets.js:202-204 | the kept indices are increasing and are exactly the rows the guard does not skip |
| SheetParser.KnownRecordsAreKeptRows | frontend/src/lib/googleSheets.js:198-271 | one record per kept row, in input order, each built from its own row and index |
| SheetParser.KnownRecordsSpec | frontend/src/lib/googleSheets.js:202-206 | a row is dropped iff both its first cells are falsy; no more records than rows; identities pairwise distinct |
| SheetParser.KnownIdsDistinct | frontend/src/lib/googleSheets.js:206 | the `sheetType_(i+2)` identities of one parse are pairwise distinct |
| SheetParser.IncreasingRowIds | frontend/src/lib/googleSheets.js:206 | identities built from strictly increasing row numbers differ |
| SheetParser.ParseKnownTab | frontend/src/lib/googleSheets.js:198-271 | the loop returns the known records of all data rows |
| SheetParser.ParseKnownRow | frontend/src/lib/googleSheets.js:206-223 | one kept row's record: identity, typed fields, extra-data bag |
| SheetParser.CustomDataKeys | frontend/src/lib/googleSheets.js:281-287 | the data map has exactly one key per non-empty header |
| SheetParser.CustomDataValues | frontend/src/lib/googleSheets.js:281-287 | each key holds the cell of the last column with that header, or `''` past the row's end |
| SheetParser.CustomRecordsAreKeptRows | frontend/src/lib/googleSheets.js:274-297 | one custom row per kept row, in order, each built from its own row and index |
| SheetParser.CustomRecordsSpec | frontend/src/lib/googleSheets.js:277-293 | a row holding a 0 is kept; identity is `tabName_rowIndex`; row indices strictly increase |
| SheetParser.ParseCustomTab | frontend/src/lib/googleSheets.js:274-297 | the loop returns the custom records of all data rows |
| SheetParser.Headers | frontend/src/lib/googleSheets.js:175 | one header per header cell |
| SheetParser.ParseDynamicRows | frontend/src/lib/googleSheets.js:172-195 | empty iff at most one raw row; known iff the name classifies, with that type; custom keeps the tab name; at most one row per data row |
| SheetParser.FindMatch | frontend/src/lib/googleSheets.js:25 | the leftmost position from `from` where `/spreadsheets/d/` and an id character start |
| SheetParser.ExtractSheetId | frontend/src/lib/googleSheets.js:24-27 | null iff there is no match; otherwise a non-empty run of `[A-Za-z0-9_-]` after the marker |
| AppsScript.SheetMap | frontend/google-apps-script/sync.js:59-64 | only the four exact tab names map, each to a type key |
| AppsScript.SheetMapNames | frontend/google-apps-script/sync.js:59-64 | mapped tab names hold no `_` and differ from their type key |
| AppsScript.ScriptFormatDate | frontend/google-apps-script/sync.js:206-221 | null iff falsy; text that is not `a/b/c` comes back as itself |
| AppsScript.ScriptFormatDateDayMonthYear | frontend/google-apps-script/sync.js:215-219 | `d/m/y` becomes `y-m-d` with no padding |
| AppsScript.ScriptDateOfDate | frontend/google-apps-script/sync.js:208-213 | a Date cell of any month 1-12 and day 1-31 gives `year-mm-dd`, where mm and dd are each two digits that read back as the month and the day |
| AppsScript.ScriptFormatDateExample | frontend/google-apps-script/sync.js:215-219 | "5/3/2024" gives "2024-3-5" |
| AppsScript.DateFormatsDiffer | frontend/google-apps-script/sync.js:216-219 | the push path gives "2024-3-5" where the pull path gives "2024-03-05" |
| AppsScript.ParseRow | frontend/google-apps-script/sync.js:151-203 | a record iff the type key is known, carrying the given identity and no extra data |
| AppsScript.FieldsAgreeOffDates | frontend/google-apps-script/sync.js:151-203 | the fields depend on the date formatter only in the date fields |
| AppsScript.CollectRows | frontend/google-apps-script/sync.js:91-101 | the loop over rows 2..n computes the script's kept records |
| AppsScript.ScriptRowsAreKeptRows | frontend/google-apps-script/sync.js:94-101 | one record per row whose first two cells are not both falsy, in sheet order, identity `sheetName_(i+1)` |
| AppsScript.SyncSheet | frontend/google-apps-script/sync.js:81-110 | the payload sent, if any: none for a missing tab, an unmapped name, at most one row, or no surviving rows |
| AppsScript.OnEdit | frontend/google-apps-script/sync.js:67-78 | an edit outside the map sends nothing; otherwise the tab is synced |
| AppsScript.PushAndPullRow | frontend/google-apps-script/sync.js:151-203 | push and pull build the same fields except for dates, under different identities |
| AppsScript.PushAndPullRows | frontend/google-apps-script/sync.js:94-101 | both paths keep the same rows in the same order; fields agree off dates; identities always differ; only pull rows carry extra data |
| AppsScript.SameNumberDifferentPrefix | frontend/google-apps-script/sync.js:99 | identities with distinct `_`-free prefixes differ |
| Store.Database.constructor | frontend/src/app/api/sheets/pull/route.js:2-13 | a fresh store has an empty trace and the given oracle |
| Store.Database.Invoke | frontend/src/app/api/sheets/pull/route.js:47 | one awaited store call is appended to the trace and answered by the oracle at its position |
| Store.CompletesSpec | frontend/src/app/api/sheets/pull/route.js:18-90 | a plan of awaited calls completes iff none of its calls throws at its own position |
| Store.ExecutedComplete | frontend/src/app/api/sheets/pull/route.js:18-83 | a plan that completes is executed in full |
| Store.ExecutedStops | frontend/src/app/api/sheets/pull/route.js:84-90 | a plan that throws runs a prefix whose last call threw and whose earlier calls did not |
| Store.ExecutedAfter | frontend/src/app/api/sheets/pull/route.js:39-76 | after a plan that completes, the next runs from where it ended |
| Store.ExecutedBefore | frontend/src/app/api/sheets/pull/route.js:84-90 | after a throw nothing else is called |
| Ingest.ParseTabs | frontend/src/app/api/sheets/pull/route.js:39-40 | one parsed tab per tab read |
| Ingest.ParseTabsSpec | frontend/src/app/api/sheets/pull/route.js:39-40 | each tab keeps its name and is parsed on its own |
| Ingest.Insert | frontend/src/app/api/sheets/pull/route.js:48 | `Set.add` keeps the set distinct and in insertion order, holding exactly the old elements and the new one |
| Ingest.RowDatesSpec | frontend/src/app/api/sheets/pull/route.js:48 | the rows' truthy dates are added after those present, once each |
| Ingest.CollectRowDates | frontend/src/app/api/sheets/pull/route.js:48 | the `forEach` computes the row dates above |
| Ingest.AffectedDatesDistinct | frontend/src/app/api/sheets/pull/route.js:36 | `affectedDates` holds no date twice |
| Ingest.AffectedDatesSpec | frontend/src/app/api/sheets/pull/route.js:45-60 | `affectedDates` holds exactly the truthy dates of orders and expenses rows |
| Ingest.TabResultsKeys | frontend/src/app/api/sheets/pull/route.js:41-66 | `results` has an entry iff the tab was not empty and had rows |
| Ingest.TabResultsValues | frontend/src/app/api/sheets/pull/route.js:61-65 | a processed tab's entry is known with its type and count, or custom with its count |
| Ingest.TotalRowsStored | frontend/src/app/api/cron/sync/route.js:46 | `totalRows` is the number of rows handed to the upserts, known and custom |
| Ingest.UpsertsHoldNoDateWork | frontend/src/app/api/sheets/pull/route.js:39-67 | the tab loop recomputes nothing and checks no alert |
| Ingest.DateCallsShape | frontend/src/app/api/sheets/pull/route.js:70-73 | call 2k recomputes date k and call 2k+1 checks its alerts |
| Ingest.DateCallsRecalculate | frontend/src/app/api/sheets/pull/route.js:70-73 | a date is recomputed as often as it occurs among the dates |
| Ingest.DateCallsCheckAlerts | frontend/src/app/api/sheets/pull/route.js:70-73 | a date is alert-checked as often as it occurs among the dates |
| Ingest.SheetSyncRecomputesOnce | frontend/src/app/api/cron/sync/route.js:17-57 | each affected date is recomputed once and alert-checked once; no other date is |
| Ingest.SheetSyncOrder | frontend/src/app/api/sheets/pull/route.js:39-76 | no date work before an upsert; each alert check follows its date's recompute; the last-sync update comes last and only once |
| Ingest.StoreTab | frontend/src/app/api/sheets/pull/route.js:41-66 | one tab's calls: none when skipped, else its one upsert |
| Ingest.IngestTabs | frontend/src/app/api/cron/sync/route.js:22-47 | the tab loop makes the tabs' calls up to any throw; on success it returns the results, `totalRows` and the affected dates |
| Ingest.RecomputeDate | frontend/src/app/api/cron/sync/route.js:50-51 | recompute, then check alerts, for one date |
| Ingest.RecomputeDates | frontend/src/app/api/cron/sync/route.js:49-52 | the date loop makes the date calls up to any throw |
| Ingest.SyncUserSheet | frontend/src/app/api/cron/sync/route.js:17-57 | tabs, then dates, then the last-sync update, stopping at a throw; the outputs as in IngestTabs |
| PullRoute.PullPost | frontend/src/app/api/sheets/pull/route.js:17-91 | missing user id is 400 and no sheet is 400, both with no call; a throwing getOrCreateUser or an unreadable spreadsheet is 500 with no call; otherwise the sync plan runs and the answer is its results and dates, or 500 when a call threw |
| PullRoute.PullOkSpec | frontend/src/app/api/sheets/pull/route.js:78-83 | `results` names exactly the processed tabs; `datesRecalculated` lists each orders/expenses date once |
| CronRoute.ProUsers | frontend/src/app/api/cron/sync/route.js:70-75 | exactly the users on `pro` or `pro_cancelled` with expiry not before now |
| CronRoute.JobOf | frontend/src/app/api/cron/sync/route.js:83-94 | a user without an active sheet is skipped; a sheet whose tab list cannot be read is an unreadable job; otherwise the job runs the sheet's plan; every job but a skip is the user's |
| CronRoute.Jobs | frontend/src/app/api/cron/sync/route.js:83-94 | one job per eligible user |
| CronRoute.CronResultsSpec | frontend/src/app/api/cron/sync/route.js:94-112 | one result per user with a sheet, in order, each naming its user, whether earlier users failed or not |
| CronRoute.SyncedPlusFailed | frontend/src/app/api/cron/sync/route.js:115-117 | `synced + failed` is the number of entries |
| CronRoute.SyncOne | frontend/src/app/api/cron/sync/route.js:85-111 | one user: skipped; a failure with no call when the sheet cannot be read; or synced inside try/catch with success or failure recorded |
| CronRoute.SyncUsers | frontend/src/app/api/cron/sync/route.js:83-112 | the loop makes every job's calls and collects every job's outcome |
| CronRoute.CronGet | frontend/src/app/api/cron/sync/route.js:59-124 | 401 with no call unless authorized (a set secret demands `Bearer <secret>`); no eligible users gives `synced: 0`; otherwise the counts of the results, an unreadable sheet counting as a failure |
| SyncRoute.RowsProcessed | frontend/src/app/api/sheets/sync/route.js:80 | the upsert's row count, falling back to the rows sent when that is 0 or absent |
| SyncRoute.SyncPost | frontend/src/app/api/sheets/sync/route.js:13-90 | the cascade: no token 401, invalid token 401, bad body 500, missing type or rows 400, unknown type 400, each with no call; else the push plan and its answer |
| SyncRoute.SyncDatesSpec | frontend/src/app/api/sheets/sync/route.js:44-60 | the recomputed dates are distinct and exactly the truthy dates of orders or expenses rows |
| SyncRoute.PushPlanSpec | frontend/src/app/api/sheets/sync/route.js:46-75 | the upsert first, the token's last-sync last, each recorded date recomputed and alert-checked once |
| SyncRoute.ScriptPayloadAccepted | frontend/src/app/api/sheets/sync/route.js:36-66 | every payload the Apps Script sends passes the body and type checks |
| UrlCodec.Utf8Char | frontend/src/lib/vnpay.js:19 | one to four bytes, one iff ASCII, continuation bytes in 0x80..0xBF |
| UrlCodec.Utf8CharRoundTrip | frontend/src/lib/vnpay.js:19 | decoding the bytes gives the character back |
| UrlCodec.HexDigest | frontend/src/lib/vnpay.js:69 | two hex digits per byte |
| UrlCodec.HexDigestRoundTrip | frontend/src/lib/vnpay.js:69 | reading the hex back gives the bytes |
| UrlCodec.PercentBytes | frontend/src/lib/vnpay.js:19 | three characters per byte |
| UrlCodec.UriComponentRoundTrip | frontend/src/app/api/payment/callback/route.js:147 | `decodeURIComponent` undoes `encodeURIComponent` |
| UrlCodec.FormEncodeByChar | frontend/src/lib/vnpay.js:19 | encoding then `%20`→`+` equals a per-character encoding in which a space becomes `+` |
| UrlCodec.FormEncodeSafe | frontend/src/lib/vnpay.js:19 | an encoded value has no `&`, `=`, `?` or `#` |
| UrlCodec.FormEncodeQuerySafe | frontend/src/lib/vnpay.js:19 | without an apostrophe, an encoded value has nothing the URL parser escapes and no `&` or `=` |
| UrlCodec.QueryEncodeKeeps | frontend/src/app/api/payment/callback/route.js:21-22 | the URL parser leaves a query with no escaped character as it is |
| UrlCodec.ApostropheEscaped | frontend/src/app/api/payment/callback/route.js:21-22 | the URL parser turns `'` into `%27` |
| JsObject.Keys | frontend/src/lib/vnpay.js:17 | `Object.keys`: one key per entry, in order |
| JsObject.Get | frontend/src/lib/vnpay.js:87 | undefined iff no entry has the key |
| JsObject.PutGet | frontend/src/lib/vnpay.js:44-60 | an assignment reads back its value and leaves every other key alone |
| JsObject.PutAppends | frontend/src/lib/vnpay.js:44-60 | a new key goes last |
| JsObject.PutKeepsKeys | frontend/src/app/api/payment/callback/route.js:31 | re-assigning a present key keeps the key order |
| JsObject.PutDistinct | frontend/src/app/api/payment/callback/route.js:31 | assignment keeps keys distinct |
| JsObject.DeleteGet | frontend/src/lib/vnpay.js:89-91 | `delete` removes that key and leaves every other key alone |
| JsObject.DeleteDistinct | frontend/src/lib/vnpay.js:89-91 | `delete` keeps keys distinct |
| JsObject.DeleteAbsent | frontend/src/lib/vnpay.js:90-91 | deleting an absent key changes nothing |
| JsObject.SortStringsPermutes | frontend/src/lib/vnpay.js:17 | `sort()` permutes the keys |
| JsObject.SortStringsStrict | frontend/src/lib/vnpay.js:17 | distinct keys come out strictly ascending |
| JsObject.SortObjectSpec | frontend/src/lib/vnpay.js:15-22 | every key once, ascending, each with the value assigned to it |
| JsObject.SortObjectOfSorted | frontend/src/app/api/payment/callback/route.js:11-18 | re-sorting an ascending object without encoding rebuilds it unchanged |
| JsObject.Pairs | frontend/src/lib/vnpay.js:64-66 | one `key=value` per entry |
| JsObject.QueryTextAppend | frontend/src/lib/vnpay.js:71-78 | one more entry adds `&key=value` at the end |
| Vnpay.EnvOr | frontend/src/lib/vnpay.js:7-9 | an unset or empty variable falls back to the default |
| Vnpay.Sign | frontend/src/lib/vnpay.js:68-69 | the hex digest reads back as the HMAC of the UTF-8 secret and data |
| Js.TwoDigitsSpec | frontend/src/lib/vnpay.js:38-42 | below 100, two digits that read back as the number |
| Vnpay.CreateDateSpec | frontend/src/lib/vnpay.js:36-42 | 14 digits; year, month (from 1), day, hour, minute and second each read back from its own places |
| Vnpay.FieldValues | frontend/src/lib/vnpay.js:45-60 | twelve values, thirteen with a bank code |
| Vnpay.ParamsAreFields | frontend/src/lib/vnpay.js:44-60 | the assignments build the fields in assignment order |
| Vnpay.FieldsSpec | frontend/src/lib/vnpay.js:44-60 | distinct names, each reading its own value |
| Vnpay.ParamsSpec | frontend/src/lib/vnpay.js:44-60 | the object has distinct names in the fixed order, each with its value (version 2.1.0, command pay, currency VND, order type other, …) |
| Vnpay.BankCodeField | frontend/src/lib/vnpay.js:58-60 | `vnp_BankCode` is present iff a non-empty bank code is given |
| Vnpay.SortObjectEncoded | frontend/src/lib/vnpay.js:15-22 | the loop gives the keys ascending and a permutation of the input's, each with the form encoding of its value |
| Vnpay.SignedParamsSpec | frontend/src/lib/vnpay.js:62 | the signed object is ascending, one entry per field, each form-encoded, with no hash field |
| Vnpay.CreatePaymentUrl | frontend/src/lib/vnpay.js:27-81 | none when the secret is unset (createHmac throws), else the payment URL |
| Vnpay.PaymentUrlShape | frontend/src/lib/vnpay.js:62-78 | address, `?`, the signed text, then the hash last: the hash does not sign itself |
| Vnpay.VerifyReturnUrl | frontend/src/lib/vnpay.js:86-103 | none iff no secret; true only when the supplied hash reads as the HMAC of the sorted, encoded, hash-free parameters |
| Vnpay.ReturnUrlRoundTrip | frontend/src/lib/vnpay.js:86-103 | the parameters createPaymentUrl signed, with its hash, verify under the same secret |
| Vnpay.ReturnUrlIgnoresHashType | frontend/src/lib/vnpay.js:89-91 | the `vnp_SecureHashType` sent never changes the verdict |
| Vnpay.DescriptionTable | frontend/src/lib/vnpay.js:109-123 | thirteen distinct codes, each text non-empty |
| Vnpay.ListedDescription | frontend/src/lib/vnpay.js:108-126 | a listed code gets its own text |
| Vnpay.UnlistedDescription | frontend/src/lib/vnpay.js:125 | any other code gets `Lỗi không xác định` |
| VnpaySignature.PairParts | frontend/src/app/api/payment/callback/route.js:26-29 | split at the first `=`: the name has no `=` and the pair is name `=` value; none iff no `=` |
| VnpaySignature.RawParamsGet | frontend/src/app/api/payment/callback/route.js:24-34 | a `vnp_` name reads the value of its last pair; every other name is absent |
| VnpaySignature.RawParamsDistinct | frontend/src/app/api/payment/callback/route.js:24-34 | the collected names are distinct |
| VnpaySignature.CollectRawParams | frontend/src/app/api/payment/callback/route.js:24-34 | the loop computes that object |
| VnpaySignature.SignedObjectSpec | frontend/src/app/api/payment/callback/route.js:36-42 | ascending `vnp_` names without the two hash fields, each with its last value |
| VnpaySignature.VerifySignature | frontend/src/app/api/payment/callback/route.js:20-50 | none iff no secret; true only when the hash reads as the HMAC of the sign data |
| VnpaySignature.RawParamsOfEntries | frontend/src/app/api/payment/callback/route.js:25-33 | reading back the pairs of distinct `vnp_` entries gives the entries |
| VnpaySignature.SignDataRoundTrip | frontend/src/app/api/payment/callback/route.js:20-42 | for a sorted, safe object plus its hash, the parser recovers the object and its query text is the sign data |
| VnpaySignature.SignedValuesSafe | frontend/src/lib/vnpay.js:19 | without apostrophes every signed value is query-safe |
| VnpaySignature.PaymentUrlVerifies | frontend/src/app/api/payment/callback/route.js:20-50 | on a URL made by createPaymentUrl the callback rebuilds the signed object and finds the hash of its sign data |
| LocalCalendar.DaysIn | frontend/src/app/api/payment/callback/route.js:100-105 | a month has 28 to 31 days |
| LocalCalendar.MakeTimeSpec | frontend/src/app/api/payment/callback/route.js:104 | a day that fits stays in its month, else overflows at most three days into the next |
| LocalCalendar.AddMonthSpec | frontend/src/app/api/payment/callback/route.js:104 | `setMonth(+1)`: later, same time of day, same day next month or overflow into the month after |
| LocalCalendar.AddYearSpec | frontend/src/app/api/payment/callback/route.js:102 | `setFullYear(+1)`: later, same date next year, 29 February becoming 1 March |
| PaymentCallback.PaymentStore.constructor | frontend/src/app/api/payment/callback/route.js:75 | no writes yet, the given oracle |
| PaymentCallback.PaymentStore.Write | frontend/src/app/api/payment/callback/route.js:78-81 | one write is appended; whether it throws is the oracle's |
| PaymentCallback.HandlePayment | frontend/src/app/api/payment/callback/route.js:69-121 | the database block's writes |
| PaymentCallback.CallbackGet | frontend/src/app/api/payment/callback/route.js:52-155 | an unset secret with a hash present gives the error page with no write; otherwise the outcome follows the response code and the writes follow the signature check |
| PaymentCallback.SignatureCheckSpec | frontend/src/app/api/payment/callback/route.js:66 | valid only with a hash present and matching the HMAC of the sign data |
| PaymentCallback.PlanSetWhen | frontend/src/app/api/payment/callback/route.js:69-109 | the plan is set iff signed, both codes `00`, payment found and not completed, and the status write did not throw; a re-delivery writes nothing |
| PaymentCallback.UpgradePlanSpec | frontend/src/app/api/payment/callback/route.js:99-107 | the buyer gets `pro`, expiring a year on for a yearly cycle and a month on otherwise, after now |
| PaymentCallback.FailureMarkedWhen | frontend/src/app/api/payment/callback/route.js:113-121 | marked failed iff signed and code not `00`; `00` with a non-`00` status writes nothing; unsigned writes nothing |
| PaymentCallback.SuccessPageWhen | frontend/src/app/api/payment/callback/route.js:124-128 | the success page iff the response code is `00`, signed or not |
| PaymentCallback.PagesDiffer | frontend/src/app/api/payment/callback/route.js:124-148 | a success page never equals a failure page |
| PaymentCallback.LocationSpec | frontend/src/app/api/payment/callback/route.js:124-153 | the redirect names the status, and its message decodes to the outcome's text |
| PaymentCallback.FailureTable | frontend/src/app/api/payment/callback/route.js:130-143 | twelve distinct codes, each text non-empty |
| PaymentCallback.ListedFailure | frontend/src/app/api/payment/callback/route.js:130-145 | a listed code gets its own text |
| PaymentCallback.UnlistedFailure | frontend/src/app/api/payment/callback/route.js:145 | any other or missing code gets `Thanh toán thất bại` |
| PaymentIpn.ResponseCodePadded | frontend/src/app/api/payment/ipn/route.js:50-58 | `RspCode` is the code left-padded with `0` to at least two characters; the message is kept |
| PaymentIpn.VnpParamsGet | frontend/src/app/api/payment/ipn/route.js:69-74 | a `vnp_` name reads its last entry; every other name is absent |
| PaymentIpn.CollectVnpParams | frontend/src/app/api/payment/ipn/route.js:69-74 | the loop computes that object |
| PaymentIpn.IpnGet | frontend/src/app/api/payment/ipn/route.js:60-158 | no secret 99; missing reference or hash 99; bad signature 97; else 00, and 00 only with a hash that is the HMAC of the sign data |
| UserPlan.PlanOr | frontend/src/app/api/user/plan/route.js:13 | an absent or empty plan is `trial` |
| UserPlan.DaysCeil | frontend/src/app/api/user/plan/route.js:29-30 | `ceil(ms / day)`: the least d with ms ≤ d days |
| UserPlan.PlanGet | frontend/src/app/api/user/plan/route.js:4-43 | no header 400; a failing lookup or invalid expiry 500; else the effective status, days and expiry |
| UserPlan.EffectiveStatusSpec | frontend/src/app/api/user/plan/route.js:18-32 | `pro` is expired iff an expiry exists and is past; `trial` iff none exists or it is past; any other plan passes through |
| UserPlan.DaysLeftSpec | frontend/src/app/api/user/plan/route.js:25-31 | days are given iff an unexpired trial, and are the whole days to expiry rounded up |
| UserPlan.MissingPlanIsTrial | frontend/src/app/api/user/plan/route.js:13 | a user with no stored plan is reported as trial or expired |
| DashboardAlerts.ProActiveSpec | frontend/src/app/api/dashboard/alerts/route.js:15-20 | access iff `pro`, or `pro_cancelled` with an expiry after now; no plan and trial are refused |
| DashboardAlerts.LapsedProStillServed | frontend/src/app/api/dashboard/alerts/route.js:15-27 | a `pro` plan past its expiry is expired for the plan route but still served here |
| DashboardAlerts.Shape | frontend/src/app/api/dashboard/alerts/route.js:32-38 | id, message and timestamp copied; severity defaults to `low`; read only when stored true |
| DashboardAlerts.MapAlerts | frontend/src/app/api/dashboard/alerts/route.js:32-38 | one shaped alert per stored alert, position by position |
| DashboardAlerts.MapAlertsOrder | frontend/src/app/api/dashboard/alerts/route.js:32-38 | the mapping keeps order and commutes with taking a prefix |
| DashboardAlerts.AlertsPost | frontend/src/app/api/dashboard/alerts/route.js:4-48 | missing user 400; not Pro 403 with the Pro-only text; an active Pro user whose alerts load gets exactly those alerts, mapped, and only such a user gets alerts; 500 exactly when the user or the alerts lookup throws |
| Display.FixedSpec | frontend/src/lib/api.js:86 | `toFixed` is within half a unit of the last place and never rounds across zero |
| Display.TrendDirection | frontend/src/lib/api.js:89-93 | up iff positive, down iff negative, neutral iff zero |
| Display.TrendOfChange | frontend/src/lib/api.js:84-93 | a zero previous value is neutral; otherwise up iff the change is at least 0.005 % and down iff at most -0.005 % |
| Display.StatusColor | frontend/src/lib/api.js:95-102 | high red, medium yellow, low blue; gray iff anything else |
| Display.DefaultSeverityColor | frontend/src/lib/api.js:95-102 | an alert stored without severity shows blue |
| Display.FormatNumberSpec | frontend/src/lib/api.js:57-71 | B iff ≥ 1e9, M iff in [1e6, 1e9), K iff in [1e3, 1e6), none below 1e3, so never for a negative; one decimal with a suffix |
| Display.ThousandKBoundary | frontend/src/lib/api.js:67-68 | 999999 is shown as 1000.0K |

## Left out

- Reading the spreadsheet (`readAllTabs`, including its per-tab `catch → []` and the parallel `Promise.all`), `validateSheetAccess`, `getServiceAccountEmail` and the legacy `KNOWN_TABS` export: Google API I/O. The tabs read are a parameter of the routes, None when the spreadsheet's tab list cannot be fetched (which throws).
- The Supabase helpers (`upsertOrders`, `recalculateDailyMetrics`, `checkAndCreateAlerts`, `updateSheetLastSync`, `getUserSheet`, `validateSyncToken`, `getOrCreateUser`, `getAlerts`, `getPaymentByOrderId`, the users and user_sheets queries): `lib/supabase.js` is not part of this model. Store calls are recorded in a trace with an oracle reply. Lookups are function parameters.
- The clock: `new Date()` is a parameter (`now`, `DateParts` or `LocalTime`). ISO-8601 text, the UTC conversion in `toISOString` and daylight-saving shifts are not modelled. The calendar arithmetic of `setMonth` and `setFullYear` is.
- SheetParser.FormatDate: the generic `new Date(value)` parse is the parameter `isoDateOf`, so the model does not say which values it accepts.
- Js.ParseNumber: `Number()` is modelled for blank text and optionally signed decimal integers. Fractions, exponents, hex and Infinity read as NaN here, and numeric cells are integers.
- Floating point: `Math.round(amount * 100)` is taken over integer VND amounts. `Number(vnp_Amount) / 100` is only logged by the IPN route and is left out. Display arithmetic uses exact reals.
- Display.FormatNumberSpec: states the shown figure in units of its last place and the suffix, not the rendered digits. The `parseFloat` coercion of non-numbers is a parameter.
- Display.TrendOfChange: `calculateChange`'s string result is compared through its value. JavaScript's string-to-number comparison, NaN and Infinity are not modelled.
- HMAC-SHA512 (RFC 2104 over SHA-512): a function parameter from secret bytes and data bytes to digest bytes.
- VnpaySignature.PaymentUrlVerifies: assumes no value holds an apostrophe and the payment address holds no `?` or `#`. `encodeURIComponent` keeps `'`, and the URL parser turns it into `%27` (UrlCodec.ApostropheEscaped), so such a URL does not verify.
- Vnpay.CreateDateSpec: stated for four-digit years only.
- The URL parser beyond the query: only `search` is modelled, as the text after the first `?` up to `#` with the WHATWG special-query set escaped. Host and path parsing, `new URL` throwing on a malformed URL, and the removal of leading and trailing C0 controls and spaces and of tabs and newlines are not modelled. `searchParams` with its form decoding is a parameter.
- Key order of JavaScript objects: integer-like keys that an object would list first, prototype keys, and sorting by UTF-16 code units beyond the Basic Multilingual Plane are not modelled. Keys sort by code point.
- `vnp_IpnUrl` in the configuration is unused by the code and is not modelled.
- PaymentIpn.IpnGet: the catch-all `99 Unknown error` is not reachable in the model, since nothing in it throws. The HTTP status is always 200 and is not represented.
- PaymentCallback.CallbackGet: `getPaymentByOrderId` throwing is treated as returning no payment. The write-level `error` result of a Supabase update is not modelled. A thrown status write ends the block.
- Js.ToLower: `toLowerCase` is modelled only for ASCII, Latin-1 (U+00C0..U+00DE), Latin Extended-A up to U+012F, O and U with horn (U+01A0, U+01AF) and the Vietnamese block U+1EA0..U+1EF9. Every other character is left unchanged. So the Kelvin sign U+212A, which JavaScript lower-cases to `k`, does not classify "\u212AHOHANG" as inventory here. Characters such as U+0130, whose lower case is two code units long in JavaScript, keep their length. The length claim holds of the model only.
- Js.Cell: boolean cells and fractional numbers are not modelled. `getValues()` in the Apps Script returns `true`/`false` for checkbox cells, and `Number(true)` is 1 while `false` is falsy. Fractional amounts also occur. A cell is empty, a text, an integer or a date.
- SyncRoute.SyncPost: the request body is typed. `sheetType` is an optional string and `rows` an optional sequence of records. Three behaviours are not modelled. A `null` row element throws at `r.date` after the upsert has run, which gives a 500 with the upsert done. A non-string `sheetType` such as `1` gives "Unknown sheetType: 1". A date that is not a string is not represented.
- Display.StatusColor, Vnpay.DescriptionTable and PaymentCallback.FailureTable: each is a lookup on a JavaScript object literal in the source. A key such as `toString` or `constructor` finds a prototype member, a function, instead of the default. The model's tables hold only the listed keys, and every other key gives the default.
- PullRoute.PullPost and DashboardAlerts.AlertsPost: a non-string `userId` and an unparseable JSON body are not modelled. The body is an optional string.
- Apps Script side effects: `Utilities.sleep`, the HTTP post and its toasts, `setupTrigger`, `syncAll` and the menu. `SyncSheet` returns the payload it would post.
- Logging (`console.log`, `Logger.log`) and every page and component of the user interface.

