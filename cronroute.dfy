/** The scheduled job (GET /api/cron/sync): every user with an active paid plan
    and a connected sheet has the sheet ingested; a failure for one user is
    recorded and the job moves on to the next. */
module CronRoute {
  import opened Js
  import opened Records
  import opened SheetParser
  import opened Store
  import opened Ingest
  import opened PullRoute

  /** A row of the users table, as the job selects it; expiry in milliseconds. */
  datatype UserRow = UserRow(id: string, plan: Option<string>, expiresAt: Option<int>)

  /** What the job reads from outside the store: the user's active sheet id
      (None when there is none), the sheet's tabs (None when the spreadsheet's
      tab list cannot be read, which throws), and the tab parser
      (parseDynamicRows, see CronGet). */
  datatype Sources = Sources(sheetOf: string -> Option<string>,
                             readAllTabs: string -> Option<seq<(string, seq<Row>)>>,
                             parse: (string, seq<Row>) -> ParseResult)

  /** One entry of `results`. */
  datatype UserResult =
    | Success(userId: string, totalRows: nat, dates: nat)
    | Failure(userId: string)

  datatype CronResponse =
    | Unauthorized
    | NoActiveUsers
    | CronDone(synced: nat, failed: nat, total: nat)

  /** The guard: a configured (truthy) secret demands exactly `Bearer <secret>`. */
  predicate Authorized(cronSecret: Option<string>, authHeader: Option<string>) {
    cronSecret.None? || cronSecret.value == "" || authHeader == Some("Bearer " + cronSecret.value)
  }

  /** The users query: plan 'pro' or 'pro_cancelled', expiry set and not before now. */
  predicate Eligible(u: UserRow, now: int) {
    (u.plan == Some("pro") || u.plan == Some("pro_cancelled")) && u.expiresAt.Some? && u.expiresAt.value >= now
  }

  function ProUsers(users: seq<UserRow>, now: int): (r: seq<UserRow>)
    ensures |r| <= |users|
    ensures forall u :: u in r <==> u in users && Eligible(u, now)
  {
    if users == [] then []
    else (if Eligible(users[0], now) then [users[0]] else []) + ProUsers(users[1..], now)
  }

  /** What the loop does for one user: nothing without a sheet, a failure
      when the sheet cannot be read, else run the sheet's plan and report its
      counts. */
  datatype Job =
    | NoSheet
    | Unreadable(userId: string)
    | SheetJob(userId: string, plan: seq<Call>, totalRows: nat, dates: nat)

  function JobOf(u: UserRow, src: Sources): (j: Job)
    ensures j.NoSheet? <==> src.sheetOf(u.id).None?
    ensures j.Unreadable? <==> src.sheetOf(u.id).Some? && src.readAllTabs(src.sheetOf(u.id).value).None?
    ensures !j.NoSheet? ==> j.userId == u.id
  {
    match src.sheetOf(u.id)
    case None => NoSheet
    case Some(sheetId) =>
      match src.readAllTabs(sheetId)
      case None => Unreadable(u.id)
      case Some(raw) =>
        var tabs := ParseTabs(raw, src.parse);
        SheetJob(u.id, SheetSyncPlan(u.id, sheetId, tabs), TotalRows(tabs), |AffectedDates(tabs)|)
  }

  function Jobs(users: seq<UserRow>, src: Sources): (jobs: seq<Job>)
    ensures |jobs| == |users|
  {
    if users == [] then [] else [JobOf(users[0], src)] + Jobs(users[1..], src)
  }

  lemma {:induction false} JobsAt(users: seq<UserRow>, src: Sources, k: nat)
    requires k < |users|
    ensures Jobs(users, src)[k] == JobOf(users[k], src)
  {
    if k > 0 {
      JobsAt(users[1..], src, k - 1);
    }
  }

  /** The calls of one job, made from trace position pos on. */
  function JobCalls(j: Job, pos: nat, answer: (nat, Call) -> Answer): seq<Call> {
    if !j.SheetJob? then [] else Executed(j.plan, pos, answer)
  }

  /** The entry one job adds to `results`: none without a sheet, failure for
      an unreadable sheet, success with the sync's counts when every call
      returned, failure otherwise. */
  function JobOutcome(j: Job, pos: nat, answer: (nat, Call) -> Answer): seq<UserResult> {
    if j.NoSheet? then []
    else if j.Unreadable? then [Failure(j.userId)]
    else if Completes(j.plan, pos, answer) then [Success(j.userId, j.totalRows, j.dates)]
    else [Failure(j.userId)]
  }

  /** The calls of the loop over users, from trace position pos on. */
  function CronCalls(jobs: seq<Job>, pos: nat, answer: (nat, Call) -> Answer): seq<Call> {
    if jobs == [] then []
    else
      var mine := JobCalls(jobs[0], pos, answer);
      mine + CronCalls(jobs[1..], pos + |mine|, answer)
  }

  /** The `results` array the loop over users builds. */
  function CronResults(jobs: seq<Job>, pos: nat, answer: (nat, Call) -> Answer): seq<UserResult> {
    if jobs == [] then []
    else JobOutcome(jobs[0], pos, answer) + CronResults(jobs[1..], pos + |JobCalls(jobs[0], pos, answer)|, answer)
  }

  function Synced(results: seq<UserResult>): nat {
    if results == [] then 0 else (if results[0].Success? then 1 else 0) + Synced(results[1..])
  }

  function Failed(results: seq<UserResult>): nat {
    if results == [] then 0 else (if results[0].Failure? then 1 else 0) + Failed(results[1..])
  }

  /** The users with an active sheet, in order. */
  function WithSheet(users: seq<UserRow>, sheetOf: string -> Option<string>): seq<UserRow> {
    if users == [] then []
    else (if sheetOf(users[0].id).Some? then [users[0]] else []) + WithSheet(users[1..], sheetOf)
  }

  /** Failure isolation: every user with a sheet gets exactly one entry, in
      order, whatever happened to the users before; users without a sheet get
      none. */
  lemma {:induction false} CronResultsSpec(users: seq<UserRow>, pos: nat, answer: (nat, Call) -> Answer, src: Sources)
    ensures |CronResults(Jobs(users, src), pos, answer)| == |WithSheet(users, src.sheetOf)|
    ensures forall k :: 0 <= k < |WithSheet(users, src.sheetOf)| ==>
      CronResults(Jobs(users, src), pos, answer)[k].userId == WithSheet(users, src.sheetOf)[k].id
  {
    if users != [] {
      var jobs := Jobs(users, src);
      var j := JobOf(users[0], src);
      assert jobs[1..] == Jobs(users[1..], src);
      var next := pos + |JobCalls(j, pos, answer)|;
      CronResultsSpec(users[1..], next, answer, src);
      var r := CronResults(jobs, pos, answer);
      var rest := CronResults(Jobs(users[1..], src), next, answer);
      var w := WithSheet(users, src.sheetOf);
      var wr := WithSheet(users[1..], src.sheetOf);
      assert r == JobOutcome(j, pos, answer) + rest;
      if j.NoSheet? {
        assert r == rest && w == wr;
      } else {
        assert |JobOutcome(j, pos, answer)| == 1 && JobOutcome(j, pos, answer)[0].userId == users[0].id;
        assert w == [users[0]] + wr;
        forall k | 1 <= k < |w|
          ensures r[k].userId == w[k].id
        {
          assert r[k] == rest[k - 1] && w[k] == wr[k - 1];
        }
      }
    }
  }

  /** `synced + failed` is the number of entries. */
  lemma {:induction false} SyncedPlusFailed(results: seq<UserResult>)
    ensures Synced(results) + Failed(results) == |results|
  {
    if results != [] {
      SyncedPlusFailed(results[1..]);
    }
  }

  /** One round of the loop over users: skip a user without a sheet, else sync
      the sheet inside try/catch and record the outcome. */
  method SyncOne(db: Database, user: UserRow, src: Sources) returns (entry: seq<UserResult>)
    modifies db
    ensures db.trace == old(db.trace) + JobCalls(JobOf(user, src), |old(db.trace)|, db.answer)
    ensures entry == JobOutcome(JobOf(user, src), |old(db.trace)|, db.answer)
    ensures src.sheetOf(user.id).Some? && src.readAllTabs(src.sheetOf(user.id).value).None? ==>
      entry == [Failure(user.id)] && db.trace == old(db.trace)
  {
    var sheet := src.sheetOf(user.id);
    if sheet.None? {
      return [];
    }
    var sheetsData := src.readAllTabs(sheet.value);
    if sheetsData.None? {
      return [Failure(user.id)];
    }
    var ok, _, totalRows, dates := SyncUserSheet(db, user.id, sheet.value, sheetsData.value, src.parse);
    entry := [if ok then Success(user.id, totalRows, |dates|) else Failure(user.id)];
  }

  /** The loop over the eligible users. */
  method SyncUsers(db: Database, users: seq<UserRow>, src: Sources) returns (results: seq<UserResult>)
    modifies db
    ensures db.trace == old(db.trace) + CronCalls(Jobs(users, src), |old(db.trace)|, db.answer)
    ensures results == CronResults(Jobs(users, src), |old(db.trace)|, db.answer)
  {
    ghost var t0, answer, jobs := db.trace, db.answer, Jobs(users, src);
    results := [];
    var i := 0;
    while i < |users|
      invariant i <= |users| && db.answer == answer
      invariant t0 + CronCalls(jobs, |t0|, answer) == db.trace + CronCalls(jobs[i..], |db.trace|, answer)
      invariant CronResults(jobs, |t0|, answer) == results + CronResults(jobs[i..], |db.trace|, answer)
    {
      ghost var t1, r1 := db.trace, results;
      JobsAt(users, src, i);
      var entry := SyncOne(db, users[i], src);
      results := results + entry;
      CronStepCalls(jobs, i, t1, db.trace, answer);
      CronStepResults(jobs, i, t1, r1, entry, db.trace, answer);
      i := i + 1;
    }
    assert jobs[i..] == [];
  }

  /** From job i on, job i's calls and entry come first, and the jobs after it
      run from where job i's calls end. */
  lemma CronUnfold(jobs: seq<Job>, i: nat, pos: nat, mine: seq<Call>, next: nat, answer: (nat, Call) -> Answer)
    requires i < |jobs|
    requires mine == JobCalls(jobs[i], pos, answer) && next == pos + |mine|
    ensures CronCalls(jobs[i..], pos, answer) == mine + CronCalls(jobs[i + 1..], next, answer)
    ensures CronResults(jobs[i..], pos, answer) == JobOutcome(jobs[i], pos, answer) + CronResults(jobs[i + 1..], next, answer)
  {
    assert jobs[i..][0] == jobs[i];
    assert jobs[i..][1..] == jobs[i + 1..];
  }

  /** The trace invariant of the loop over users after one round. */
  lemma CronStepCalls(jobs: seq<Job>, i: nat, t1: seq<Call>, t2: seq<Call>, answer: (nat, Call) -> Answer)
    requires i < |jobs|
    requires t2 == t1 + JobCalls(jobs[i], |t1|, answer)
    ensures t1 + CronCalls(jobs[i..], |t1|, answer) == t2 + CronCalls(jobs[i + 1..], |t2|, answer)
  {
    var mine := JobCalls(jobs[i], |t1|, answer);
    CronUnfold(jobs, i, |t1|, mine, |t2|, answer);
    Associative(t1, mine, CronCalls(jobs[i + 1..], |t2|, answer));
  }

  /** The results invariant of the loop over users after one round. */
  lemma CronStepResults(jobs: seq<Job>, i: nat, t1: seq<Call>, r1: seq<UserResult>, entry: seq<UserResult>,
                        t2: seq<Call>, answer: (nat, Call) -> Answer)
    requires i < |jobs|
    requires t2 == t1 + JobCalls(jobs[i], |t1|, answer)
    requires entry == JobOutcome(jobs[i], |t1|, answer)
    ensures r1 + CronResults(jobs[i..], |t1|, answer) == (r1 + entry) + CronResults(jobs[i + 1..], |t2|, answer)
  {
    var mine := JobCalls(jobs[i], |t1|, answer);
    CronUnfold(jobs, i, |t1|, mine, |t2|, answer);
    AppendEntry(r1, entry, CronResults(jobs[i..], |t1|, answer), CronResults(jobs[i + 1..], |t2|, answer));
  }

  lemma AppendEntry(r1: seq<UserResult>, entry: seq<UserResult>, all: seq<UserResult>, rest: seq<UserResult>)
    requires all == entry + rest
    ensures r1 + all == (r1 + entry) + rest
  {
  }

  /** GET: the secret check, the users query, then the loop over users, each
      sheet parsed by parseDynamicRows with the server's date formatter. */
  method CronGet(db: Database, cronSecret: Option<string>, authHeader: Option<string>,
                 users: seq<UserRow>, now: int, sheetOf: string -> Option<string>,
                 readAllTabs: string -> Option<seq<(string, seq<Row>)>>, isoDateOf: Cell -> Option<string>)
    returns (response: CronResponse)
    modifies db
    ensures !Authorized(cronSecret, authHeader) ==> response == Unauthorized && db.trace == old(db.trace)
    ensures Authorized(cronSecret, authHeader) && ProUsers(users, now) == [] ==>
      response == NoActiveUsers && db.trace == old(db.trace)
    ensures Authorized(cronSecret, authHeader) && ProUsers(users, now) != [] ==>
      var src := Sources(sheetOf, readAllTabs, ServerParse(isoDateOf));
      var jobs := Jobs(ProUsers(users, now), src);
      var results := CronResults(jobs, |old(db.trace)|, db.answer);
      && db.trace == old(db.trace) + CronCalls(jobs, |old(db.trace)|, db.answer)
      && response == CronDone(Synced(results), Failed(results), |ProUsers(users, now)|)
  {
    if cronSecret.Some? && cronSecret.value != "" && authHeader != Some("Bearer " + cronSecret.value) {
      return Unauthorized;
    }
    var proUsers := ProUsers(users, now);
    if |proUsers| == 0 {
      return NoActiveUsers;
    }
    var results := SyncUsers(db, proUsers, Sources(sheetOf, readAllTabs, ServerParse(isoDateOf)));
    response := CronDone(Synced(results), Failed(results), |proUsers|);
  }
}
