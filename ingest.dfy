/** What the pull route and the cron job do with one connected spreadsheet:
    every non-empty tab is stored (known tabs into their type's table, custom
    tabs under their name), the distinct dates touched by orders and expenses
    rows are collected, each is recomputed and then alert-checked, and the
    sheet's last-sync time is updated last. */
module Ingest {
  import opened Js
  import opened Records
  import opened SheetParser
  import opened Store

  /** A tab's name and what parseDynamicRows made of its rows. */
  type Tab = (string, ParseResult)

  /** The entries readAllTabs returns, each parsed by `parse` (parseDynamicRows
      with the server's date formatter, as the routes pass it). */
  function ParseTabs(raw: seq<(string, seq<Row>)>, parse: (string, seq<Row>) -> ParseResult): (tabs: seq<Tab>)
    ensures |tabs| == |raw|
  {
    if raw == [] then []
    else
      var (name, rows) := raw[|raw| - 1];
      ParseTabs(raw[..|raw| - 1], parse) + [(name, parse(name, rows))]
  }

  lemma {:induction false} ParseTabsPrefix(raw: seq<(string, seq<Row>)>, n: nat, parse: (string, seq<Row>) -> ParseResult)
    requires n <= |raw|
    ensures ParseTabs(raw, parse)[..n] == ParseTabs(raw[..n], parse)
  {
    if n < |raw| {
      var init := raw[..|raw| - 1];
      assert init[..n] == raw[..n];
      ParseTabsPrefix(init, n, parse);
      assert ParseTabs(raw, parse)[..|raw| - 1] == ParseTabs(init, parse);
    } else {
      assert raw[..n] == raw;
    }
  }

  /** Each tab keeps its name and is parsed on its own. */
  lemma {:induction false} ParseTabsSpec(raw: seq<(string, seq<Row>)>, parse: (string, seq<Row>) -> ParseResult)
    ensures forall i :: 0 <= i < |raw| ==>
      ParseTabs(raw, parse)[i] == (raw[i].0, parse(raw[i].0, raw[i].1))
  {
    if raw != [] {
      ParseTabsSpec(raw[..|raw| - 1], parse);
    }
  }

  /** `parsed.type === 'empty' || parsed.rows.length === 0`. */
  predicate Skipped(p: ParseResult) {
    p.EmptyTab? || p.Count() == 0
  }

  // ---------------------------------------------------------------- the store calls

  /** The calls one tab makes: none when skipped, else one upsert. */
  function TabStep(user: string, tab: Tab): seq<Call> {
    if Skipped(tab.1) then []
    else match tab.1
      case KnownTab(t, rows) => [UpsertRecords(user, t, rows)]
      case CustomTab(_, rows) => [UpsertSheetData(user, tab.0, rows)]
      case EmptyTab => []
  }

  /** The calls of the tabs, one tab after the other. */
  function TabsCalls(user: string, tabs: seq<Tab>): seq<Call> {
    if tabs == [] then [] else TabsCalls(user, tabs[..|tabs| - 1]) + TabStep(user, tabs[|tabs| - 1])
  }

  /** The calls of the first n tabs begin the calls of all of them. */
  lemma {:induction false} TabsCallsPrefix(user: string, tabs: seq<Tab>, n: nat)
    requires n <= |tabs|
    ensures |TabsCalls(user, tabs[..n])| <= |TabsCalls(user, tabs)|
    ensures TabsCalls(user, tabs)[..|TabsCalls(user, tabs[..n])|] == TabsCalls(user, tabs[..n])
  {
    if n < |tabs| {
      var init := tabs[..|tabs| - 1];
      assert init[..n] == tabs[..n];
      TabsCallsPrefix(user, init, n);
    } else {
      assert tabs[..n] == tabs;
    }
  }

  /** The calls for one affected date: recompute, then check alerts. */
  function DateStep(user: string, date: string): seq<Call> {
    [Recalculate(user, date), CheckAlerts(user, date)]
  }

  /** The calls of the dates, one date after the other. */
  function DateCalls(user: string, dates: seq<string>): seq<Call> {
    if dates == [] then [] else DateCalls(user, dates[..|dates| - 1]) + DateStep(user, dates[|dates| - 1])
  }

  /** The calls of the first n dates begin the calls of all of them. */
  lemma {:induction false} DateCallsPrefix(user: string, dates: seq<string>, n: nat)
    requires n <= |dates|
    ensures |DateCalls(user, dates[..n])| <= |DateCalls(user, dates)|
    ensures DateCalls(user, dates)[..|DateCalls(user, dates[..n])|] == DateCalls(user, dates[..n])
  {
    if n < |dates| {
      var init := dates[..|dates| - 1];
      assert init[..n] == dates[..n];
      DateCallsPrefix(user, init, n);
    } else {
      assert dates[..n] == dates;
    }
  }

  // ---------------------------------------------------------------- affected dates

  /** The elements are pairwise distinct. */
  predicate Distinct(xs: seq<string>) {
    forall i, j :: 0 <= i < j < |xs| ==> xs[i] != xs[j]
  }

  /** Set.prototype.add on a Set kept as its elements in insertion order. */
  function Insert(dates: seq<string>, d: string): (r: seq<string>)
    ensures Distinct(dates) ==> Distinct(r)
    ensures |dates| <= |r| && r[..|dates|] == dates
    ensures forall x :: x in r <==> x in dates || x == d
  {
    if d in dates then dates else dates + [d]
  }

  /** `rows.forEach(r => r.date && affectedDates.add(r.date))`. */
  function RowDates(dates: seq<string>, rows: seq<Record>): seq<string> {
    if rows == [] then dates
    else
      var before := RowDates(dates, rows[..|rows| - 1]);
      var r := rows[|rows| - 1];
      if HasTruthyDate(r) then Insert(before, DateOf(r).value) else before
  }

  /** Orders and expenses tabs add dates; inventory and employees tabs do not. */
  predicate AddsDates(t: SheetType) {
    t == Orders || t == Expenses
  }

  function TabDates(dates: seq<string>, tab: Tab): seq<string> {
    if !Skipped(tab.1) && tab.1.KnownTab? && AddsDates(tab.1.sheetType) then RowDates(dates, tab.1.rows)
    else dates
  }

  /** The Set after the loop over tabs. */
  function AffectedDates(tabs: seq<Tab>): seq<string> {
    if tabs == [] then []
    else TabDates(AffectedDates(tabs[..|tabs| - 1]), tabs[|tabs| - 1])
  }

  /** Some row carries d as its truthy date. */
  predicate RowsHaveDate(rows: seq<Record>, d: string) {
    exists k :: 0 <= k < |rows| && HasTruthyDate(rows[k]) && DateOf(rows[k]).value == d
  }

  /** The tab is an orders or expenses tab with a row dated d. */
  predicate TabHasDate(tab: Tab, d: string) {
    tab.1.KnownTab? && AddsDates(tab.1.sheetType) && RowsHaveDate(tab.1.rows, d)
  }

  lemma RowsHaveDateSnoc(rows: seq<Record>, d: string)
    requires rows != []
    ensures RowsHaveDate(rows, d) <==>
      RowsHaveDate(rows[..|rows| - 1], d)
      || (HasTruthyDate(rows[|rows| - 1]) && DateOf(rows[|rows| - 1]).value == d)
  {
    var init := rows[..|rows| - 1];
    if RowsHaveDate(rows, d) {
      var k :| 0 <= k < |rows| && HasTruthyDate(rows[k]) && DateOf(rows[k]).value == d;
      if k < |init| {
        assert init[k] == rows[k];
      }
    }
    if RowsHaveDate(init, d) {
      var k :| 0 <= k < |init| && HasTruthyDate(init[k]) && DateOf(init[k]).value == d;
      assert rows[k] == init[k];
    }
  }

  /** The rows' dates are added once each, after the dates already present, and
      nothing else is added. */
  lemma {:induction false} RowDatesSpec(dates: seq<string>, rows: seq<Record>)
    ensures Distinct(dates) ==> Distinct(RowDates(dates, rows))
    ensures |dates| <= |RowDates(dates, rows)| && RowDates(dates, rows)[..|dates|] == dates
    ensures forall d :: d in RowDates(dates, rows) <==> d in dates || RowsHaveDate(rows, d)
  {
    if rows != [] {
      var init := rows[..|rows| - 1];
      RowDatesSpec(dates, init);
      forall d | true
        ensures RowsHaveDate(rows, d) <==>
          RowsHaveDate(init, d) || (HasTruthyDate(rows[|rows| - 1]) && DateOf(rows[|rows| - 1]).value == d)
      {
        RowsHaveDateSnoc(rows, d);
      }
      var before := RowDates(dates, init);
      assert before[..|dates|] == dates;
      if HasTruthyDate(rows[|rows| - 1]) {
        var after := Insert(before, DateOf(rows[|rows| - 1]).value);
        assert after[..|before|] == before;
        assert after[..|dates|] == before[..|dates|];
      }
    }
  }

  /** affectedDates holds no date twice. */
  lemma {:induction false} AffectedDatesDistinct(tabs: seq<Tab>)
    ensures Distinct(AffectedDates(tabs))
  {
    if tabs != [] {
      var init, last := tabs[..|tabs| - 1], tabs[|tabs| - 1];
      AffectedDatesDistinct(init);
      if !Skipped(last.1) && last.1.KnownTab? && AddsDates(last.1.sheetType) {
        RowDatesSpec(AffectedDates(init), last.1.rows);
      }
    }
  }

  /** affectedDates holds each date of an orders or expenses row and no other date. */
  lemma {:induction false} AffectedDatesSpec(tabs: seq<Tab>)
    ensures forall d :: d in AffectedDates(tabs) <==> exists i :: 0 <= i < |tabs| && TabHasDate(tabs[i], d)
  {
    if tabs != [] {
      var init, last := tabs[..|tabs| - 1], tabs[|tabs| - 1];
      AffectedDatesSpec(init);
      var before := AffectedDates(init);
      if !Skipped(last.1) && last.1.KnownTab? && AddsDates(last.1.sheetType) {
        RowDatesSpec(before, last.1.rows);
      }
      forall d | true
        ensures d in AffectedDates(tabs) <==> exists i :: 0 <= i < |tabs| && TabHasDate(tabs[i], d)
      {
        if d in AffectedDates(tabs) {
          if d in before {
            var i :| 0 <= i < |init| && TabHasDate(init[i], d);
            assert tabs[i] == init[i];
          } else {
            assert TabHasDate(tabs[|tabs| - 1], d);
          }
        }
        if exists i :: 0 <= i < |tabs| && TabHasDate(tabs[i], d) {
          var i :| 0 <= i < |tabs| && TabHasDate(tabs[i], d);
          if i < |init| {
            assert init[i] == tabs[i];
          } else {
            assert !Skipped(last.1);
          }
        }
      }
    }
  }

  // ---------------------------------------------------------------- results and counts

  /** The `results` entry of a processed tab. */
  datatype TabResult = KnownResult(sheetType: SheetType, count: nat) | CustomResult(count: nat)

  function ResultOf(p: ParseResult): TabResult {
    if p.KnownTab? then KnownResult(p.sheetType, |p.rows|) else CustomResult(p.Count())
  }

  /** The `results` object after the loop over tabs. */
  function TabResults(tabs: seq<Tab>): map<string, TabResult> {
    if tabs == [] then map[]
    else
      var m := TabResults(tabs[..|tabs| - 1]);
      var tab := tabs[|tabs| - 1];
      if Skipped(tab.1) then m else m[tab.0 := ResultOf(tab.1)]
  }

  /** `totalRows` after the loop over tabs. */
  function TotalRows(tabs: seq<Tab>): nat {
    if tabs == [] then 0
    else TotalRows(tabs[..|tabs| - 1]) + (if Skipped(tabs[|tabs| - 1].1) then 0 else tabs[|tabs| - 1].1.Count())
  }

  /** The rows handed to the store by a sequence of calls. */
  function StoredRows(calls: seq<Call>): nat {
    if calls == [] then 0
    else
      StoredRows(calls[..|calls| - 1])
      + match calls[|calls| - 1]
        case UpsertRecords(_, _, rows) => |rows|
        case UpsertSheetData(_, _, rows) => |rows|
        case _ => 0
  }

  lemma {:induction false} StoredRowsAppend(a: seq<Call>, b: seq<Call>)
    ensures StoredRows(a + b) == StoredRows(a) + StoredRows(b)
    decreases |b|
  {
    if b == [] {
      assert a + b == a;
    } else {
      assert (a + b)[..|a + b| - 1] == a + b[..|b| - 1];
      StoredRowsAppend(a, b[..|b| - 1]);
    }
  }

  /** totalRows is the number of rows handed to the upserts. */
  lemma {:induction false} TotalRowsStored(user: string, tabs: seq<Tab>)
    ensures TotalRows(tabs) == StoredRows(TabsCalls(user, tabs))
  {
    if tabs != [] {
      var init := tabs[..|tabs| - 1];
      TotalRowsStored(user, init);
      StoredRowsAppend(TabsCalls(user, init), TabStep(user, tabs[|tabs| - 1]));
      assert StoredRows(TabStep(user, tabs[|tabs| - 1])) == (if Skipped(tabs[|tabs| - 1].1) then 0 else tabs[|tabs| - 1].1.Count()) by {
        var step := TabStep(user, tabs[|tabs| - 1]);
        if step != [] {
          assert step[..0] == [];
        }
      }
    }
  }

  /** A tab has an entry in `results` iff it was not skipped. */
  lemma {:induction false} TabResultsKeys(tabs: seq<Tab>)
    ensures forall name :: name in TabResults(tabs) <==>
      exists i :: 0 <= i < |tabs| && tabs[i].0 == name && !Skipped(tabs[i].1)
  {
    if tabs != [] {
      var init := tabs[..|tabs| - 1];
      TabResultsKeys(init);
      forall name | true
        ensures name in TabResults(tabs) <==> exists i :: 0 <= i < |tabs| && tabs[i].0 == name && !Skipped(tabs[i].1)
      {
        if name in TabResults(init) {
          var i :| 0 <= i < |init| && init[i].0 == name && !Skipped(init[i].1);
          assert tabs[i] == init[i];
        }
        if exists i :: 0 <= i < |tabs| && tabs[i].0 == name && !Skipped(tabs[i].1) {
          var i :| 0 <= i < |tabs| && tabs[i].0 == name && !Skipped(tabs[i].1);
          if i < |init| {
            assert init[i] == tabs[i];
          }
        }
      }
    }
  }

  /** The tab names are pairwise distinct. */
  predicate DistinctNames(tabs: seq<Tab>) {
    forall i, j :: 0 <= i < j < |tabs| ==> tabs[i].0 != tabs[j].0
  }

  /** When tab names are distinct (they are the keys of one object), a processed
      tab's entry is its own. */
  lemma {:induction false} TabResultsValues(tabs: seq<Tab>)
    requires DistinctNames(tabs)
    ensures forall i :: 0 <= i < |tabs| && !Skipped(tabs[i].1) ==>
      tabs[i].0 in TabResults(tabs) && TabResults(tabs)[tabs[i].0] == ResultOf(tabs[i].1)
  {
    if tabs != [] {
      var init := tabs[..|tabs| - 1];
      assert DistinctNames(init) by {
        forall a, b | 0 <= a < b < |init|
          ensures init[a].0 != init[b].0
        {
          assert init[a] == tabs[a] && init[b] == tabs[b];
        }
      }
      TabResultsValues(init);
      forall i | 0 <= i < |tabs| && !Skipped(tabs[i].1)
        ensures tabs[i].0 in TabResults(tabs) && TabResults(tabs)[tabs[i].0] == ResultOf(tabs[i].1)
      {
        if i < |init| {
          assert init[i] == tabs[i];
        }
      }
    }
  }

  // ---------------------------------------------------------------- the plan for one sheet

  /** Every call the sync of one sheet makes, in order, when none throws. */
  function SheetSyncPlan(user: string, sheetId: string, tabs: seq<Tab>): seq<Call> {
    TabsCalls(user, tabs) + DateCalls(user, AffectedDates(tabs)) + [UpdateSheetLastSync(user, sheetId)]
  }

  lemma {:induction false} TabsCallsAreUpserts(user: string, tabs: seq<Tab>)
    ensures forall c :: c in TabsCalls(user, tabs) ==> c.IsUpsert() && c.user == user
  {
    if tabs != [] {
      TabsCallsAreUpserts(user, tabs[..|tabs| - 1]);
    }
  }

  /** Call 2k recomputes date k and call 2k+1 checks its alerts. */
  lemma {:induction false} DateCallsShape(user: string, dates: seq<string>)
    ensures |DateCalls(user, dates)| == 2 * |dates|
    ensures forall k :: 0 <= k < |dates| ==>
      DateCalls(user, dates)[2 * k] == Recalculate(user, dates[k])
      && DateCalls(user, dates)[2 * k + 1] == CheckAlerts(user, dates[k])
  {
    if dates != [] {
      DateCallsShape(user, dates[..|dates| - 1]);
    }
  }

  /** One date's calls hold one recompute and one alert check, of that date. */
  lemma DateStepCount(user: string, date: string, d: string)
    ensures multiset(DateStep(user, date))[Recalculate(user, d)] == if date == d then 1 else 0
    ensures multiset(DateStep(user, date))[CheckAlerts(user, d)] == if date == d then 1 else 0
  {
    assert DateStep(user, date) == [Recalculate(user, date)] + [CheckAlerts(user, date)];
  }

  lemma StringCountSnoc(dates: seq<string>, d: string)
    requires dates != []
    ensures multiset(dates)[d] == multiset(dates[..|dates| - 1])[d] + if dates[|dates| - 1] == d then 1 else 0
  {
    assert dates == dates[..|dates| - 1] + [dates[|dates| - 1]];
  }

  lemma CallCountAppend(a: seq<Call>, b: seq<Call>, c: Call)
    ensures multiset(a + b)[c] == multiset(a)[c] + multiset(b)[c]
  {
  }

  /** The date calls recompute d as often as d occurs among the dates. */
  lemma {:induction false} DateCallsRecalculate(user: string, dates: seq<string>, d: string)
    ensures multiset(DateCalls(user, dates))[Recalculate(user, d)] == multiset(dates)[d]
  {
    if dates != [] {
      var init, last := dates[..|dates| - 1], dates[|dates| - 1];
      DateCallsRecalculate(user, init, d);
      DateStepCount(user, last, d);
      StringCountSnoc(dates, d);
      CallCountAppend(DateCalls(user, init), DateStep(user, last), Recalculate(user, d));
    }
  }

  /** The date calls check alerts for d as often as d occurs among the dates. */
  lemma {:induction false} DateCallsCheckAlerts(user: string, dates: seq<string>, d: string)
    ensures multiset(DateCalls(user, dates))[CheckAlerts(user, d)] == multiset(dates)[d]
  {
    if dates != [] {
      var init, last := dates[..|dates| - 1], dates[|dates| - 1];
      DateCallsCheckAlerts(user, init, d);
      DateStepCount(user, last, d);
      StringCountSnoc(dates, d);
      CallCountAppend(DateCalls(user, init), DateStep(user, last), CheckAlerts(user, d));
    }
  }

  lemma {:induction false} DistinctCount(dates: seq<string>, d: string)
    requires Distinct(dates)
    ensures multiset(dates)[d] == if d in dates then 1 else 0
  {
    if dates != [] {
      var init := dates[..|dates| - 1];
      assert dates == init + [dates[|dates| - 1]];
      DistinctCount(init, d);
    }
  }

  lemma UpsertsHoldNoDateWork(user: string, tabs: seq<Tab>, d: string)
    ensures multiset(TabsCalls(user, tabs))[Recalculate(user, d)] == 0
    ensures multiset(TabsCalls(user, tabs))[CheckAlerts(user, d)] == 0
  {
    TabsCallsAreUpserts(user, tabs);
  }

  /** Each distinct affected date is recomputed exactly once and alert-checked
      exactly once; no other date is. */
  lemma SheetSyncRecomputesOnce(user: string, sheetId: string, tabs: seq<Tab>, d: string)
    ensures multiset(SheetSyncPlan(user, sheetId, tabs))[Recalculate(user, d)]
            == if d in AffectedDates(tabs) then 1 else 0
    ensures multiset(SheetSyncPlan(user, sheetId, tabs))[CheckAlerts(user, d)]
            == if d in AffectedDates(tabs) then 1 else 0
  {
    UpsertsHoldNoDateWork(user, tabs, d);
    DateCallsRecalculate(user, AffectedDates(tabs), d);
    DateCallsCheckAlerts(user, AffectedDates(tabs), d);
    AffectedDatesDistinct(tabs);
    DistinctCount(AffectedDates(tabs), d);
  }

  /** All upserts come before any date work; each alert check directly follows
      the recompute of the same date; the last-sync update is the last call and
      the only one of its kind. */
  lemma SheetSyncOrder(user: string, sheetId: string, tabs: seq<Tab>)
    ensures forall i, j :: (0 <= i < j < |SheetSyncPlan(user, sheetId, tabs)|
      && SheetSyncPlan(user, sheetId, tabs)[j].IsUpsert()) ==> !SheetSyncPlan(user, sheetId, tabs)[i].IsDateWork()
    ensures forall j :: 0 <= j < |SheetSyncPlan(user, sheetId, tabs)| && SheetSyncPlan(user, sheetId, tabs)[j].CheckAlerts? ==>
      j > 0 && SheetSyncPlan(user, sheetId, tabs)[j - 1]
               == Recalculate(user, SheetSyncPlan(user, sheetId, tabs)[j].date)
    ensures SheetSyncPlan(user, sheetId, tabs)[|SheetSyncPlan(user, sheetId, tabs)| - 1]
            == UpdateSheetLastSync(user, sheetId)
    ensures forall j :: 0 <= j < |SheetSyncPlan(user, sheetId, tabs)| - 1 ==>
      !SheetSyncPlan(user, sheetId, tabs)[j].UpdateSheetLastSync?
  {
    var ups, work := TabsCalls(user, tabs), DateCalls(user, AffectedDates(tabs));
    TabsCallsAreUpserts(user, tabs);
    DateCallsShaped(user, AffectedDates(tabs));
    PlanOrder(user, ups, work, UpdateSheetLastSync(user, sheetId));
  }

  /** Date work in recompute-then-check pairs. */
  predicate DateWorkShaped(user: string, work: seq<Call>) {
    forall m {:trigger work[m]} :: 0 <= m < |work| ==>
      work[m].IsDateWork() && (work[m].CheckAlerts? ==> m >= 1 && work[m - 1] == Recalculate(user, work[m].date))
  }

  lemma ShapedAt(user: string, work: seq<Call>, m: nat)
    requires DateWorkShaped(user, work) && m < |work|
    ensures work[m].IsDateWork() && (work[m].CheckAlerts? ==> m >= 1 && work[m - 1] == Recalculate(user, work[m].date))
  {
  }

  lemma DateCallsShaped(user: string, dates: seq<string>)
    ensures DateWorkShaped(user, DateCalls(user, dates))
  {
    var work := DateCalls(user, dates);
    forall m {:trigger work[m]} | 0 <= m < |work|
      ensures work[m].IsDateWork() && (work[m].CheckAlerts? ==> m >= 1 && work[m - 1] == Recalculate(user, work[m].date))
    {
      DateWorkAt(user, dates, m);
    }
  }

  /** Upserts, then paired date work, then one closing call: the order
      SheetSyncOrder states, for any such sequence. */
  lemma PlanOrder(user: string, ups: seq<Call>, work: seq<Call>, last: Call)
    requires forall c :: c in ups ==> c.IsUpsert()
    requires DateWorkShaped(user, work) && last.UpdateSheetLastSync?
    ensures var plan := ups + work + [last];
      && (forall i, j :: 0 <= i < j < |plan| && plan[j].IsUpsert() ==> !plan[i].IsDateWork())
      && (forall j :: 0 <= j < |plan| && plan[j].CheckAlerts? ==> j > 0 && plan[j - 1] == Recalculate(user, plan[j].date))
      && plan[|plan| - 1] == last
      && (forall j :: 0 <= j < |plan| - 1 ==> !plan[j].UpdateSheetLastSync?)
  {
    var plan := ups + work + [last];
    forall j | 0 <= j < |ups|
      ensures plan[j] == ups[j] && plan[j].IsUpsert() && !plan[j].IsDateWork()
    {
      assert ups[j] in ups;
    }
    forall j {:trigger plan[j]} | |ups| <= j < |ups| + |work|
      ensures plan[j] == work[j - |ups|] && plan[j].IsDateWork()
      ensures plan[j].CheckAlerts? ==> j - 1 >= |ups| && plan[j - 1] == Recalculate(user, plan[j].date)
    {
      var m := j - |ups|;
      assert plan[j] == work[m];
      ShapedAt(user, work, m);
      if m >= 1 {
        assert plan[j - 1] == work[m - 1];
      }
    }
    assert plan[|plan| - 1] == last;
    forall j | 0 <= j < |plan| && plan[j].CheckAlerts?
      ensures j > 0 && plan[j - 1] == Recalculate(user, plan[j].date)
    {
      if |ups| <= j < |ups| + |work| {
        var m := j - |ups|;
        assert plan[j] == work[m];
        ShapedAt(user, work, m);
        if m >= 1 {
          assert plan[j - 1] == work[m - 1];
        }
      }
    }
  }

  /** Call m of the date calls is date work; an alert check follows the
      recompute of its own date. */
  lemma DateWorkAt(user: string, dates: seq<string>, m: nat)
    requires m < |DateCalls(user, dates)|
    ensures DateCalls(user, dates)[m].IsDateWork()
    ensures DateCalls(user, dates)[m].CheckAlerts? ==>
      m >= 1 && DateCalls(user, dates)[m - 1] == Recalculate(user, DateCalls(user, dates)[m].date)
  {
    DateCallsShape(user, dates);
    var k := m / 2;
    assert m == 2 * k || m == 2 * k + 1;
  }

  // ---------------------------------------------------------------- the loops

  /** The forEach over a tab's rows adding truthy dates to the Set. */
  method CollectRowDates(dates: seq<string>, rows: seq<Record>) returns (out: seq<string>)
    ensures out == RowDates(dates, rows)
  {
    out := dates;
    var k := 0;
    while k < |rows|
      invariant k <= |rows|
      invariant out == RowDates(dates, rows[..k])
    {
      assert rows[..k + 1][..k] == rows[..k];
      var r := rows[k];
      if HasTruthyDate(r) && DateOf(r).value !in out {
        out := out + [DateOf(r).value];
      }
      k := k + 1;
    }
    assert rows[..k] == rows;
  }

  /** The body of the loop over tabs for one parsed tab: skipped when empty,
      else one upsert of its rows. */
  method StoreTab(db: Database, user: string, tab: Tab) returns (ok: bool)
    modifies db
    ensures db.trace == old(db.trace) + Executed(TabStep(user, tab), |old(db.trace)|, db.answer)
    ensures ok == Completes(TabStep(user, tab), |old(db.trace)|, db.answer)
  {
    var (tabName, parsed) := tab;
    if parsed.EmptyTab? || parsed.Count() == 0 {
      return true;
    }
    var call := match parsed
      case KnownTab(t, rows) => UpsertRecords(user, t, rows)
      case CustomTab(_, rows) => UpsertSheetData(user, tabName, rows);
    assert TabStep(user, tab) == [call];
    var reply := db.Invoke(call);
    ok := !reply.Throws?;
  }

  /** The loop over readAllTabs' entries: parse each tab, skip it when empty,
      upsert its rows, collect its dates, and count it. A throwing upsert ends
      the loop at once. */
  method IngestTabs(db: Database, user: string, raw: seq<(string, seq<Row>)>, parse: (string, seq<Row>) -> ParseResult)
    returns (ok: bool, results: map<string, TabResult>, totalRows: nat, dates: seq<string>)
    modifies db
    ensures db.trace == old(db.trace) + Executed(TabsCalls(user, ParseTabs(raw, parse)), |old(db.trace)|, db.answer)
    ensures ok == Completes(TabsCalls(user, ParseTabs(raw, parse)), |old(db.trace)|, db.answer)
    ensures ok ==> results == TabResults(ParseTabs(raw, parse))
    ensures ok ==> totalRows == TotalRows(ParseTabs(raw, parse))
    ensures ok ==> dates == AffectedDates(ParseTabs(raw, parse))
  {
    ghost var t0 := db.trace;
    ghost var tabs: seq<Tab> := [];
    results, totalRows, dates := map[], 0, [];
    var i := 0;
    while i < |raw|
      invariant i <= |raw|
      invariant tabs == ParseTabs(raw[..i], parse)
      invariant db.trace == t0 + TabsCalls(user, tabs)
      invariant Completes(TabsCalls(user, tabs), |t0|, db.answer)
      invariant results == TabResults(tabs)
      invariant totalRows == TotalRows(tabs)
      invariant dates == AffectedDates(tabs)
    {
      var tabName := raw[i].0;
      var parsed := parse(tabName, raw[i].1);
      var tab := (tabName, parsed);
      IngestStep(user, raw, i, parse);
      TabsSnoc(user, tabs, tab);
      ghost var t1 := db.trace;
      var stored := StoreTab(db, user, tab);
      RunAfter(t0, TabsCalls(user, tabs), t1, TabStep(user, tab), db.trace, db.answer);
      if !stored {
        ghost var done := TabsCalls(user, tabs) + TabStep(user, tab);
        ghost var plan := TabsCalls(user, ParseTabs(raw, parse));
        RunStops(t0, done, db.trace, plan[|done|..], db.answer);
        return false, results, totalRows, dates;
      }
      RunAfterComplete(t0, TabsCalls(user, tabs), t1, TabStep(user, tab), db.trace, db.answer);
      if !(parsed.EmptyTab? || parsed.Count() == 0) {
        match parsed {
          case KnownTab(t, rows) =>
            if t == Orders || t == Expenses {
              dates := CollectRowDates(dates, rows);
            }
            results := results[tabName := KnownResult(t, |rows|)];
          case CustomTab(_, rows) =>
            results := results[tabName := CustomResult(|rows|)];
        }
        totalRows := totalRows + parsed.Count();
      }
      tabs := tabs + [tab];
      i := i + 1;
    }
    assert raw[..i] == raw;
    ExecutedComplete(TabsCalls(user, tabs), |t0|, db.answer);
    ok := true;
  }

  /** What one round of the loop over tabs parses, and where its calls sit in
      the calls of all tabs. */
  lemma IngestStep(user: string, raw: seq<(string, seq<Row>)>, i: nat, parse: (string, seq<Row>) -> ParseResult)
    requires i < |raw|
    ensures ParseTabs(raw[..i + 1], parse) == ParseTabs(raw[..i], parse) + [(raw[i].0, parse(raw[i].0, raw[i].1))]
    ensures |TabsCalls(user, ParseTabs(raw[..i], parse)) + TabStep(user, (raw[i].0, parse(raw[i].0, raw[i].1)))|
            <= |TabsCalls(user, ParseTabs(raw, parse))|
    ensures TabsCalls(user, ParseTabs(raw, parse))
            == (TabsCalls(user, ParseTabs(raw[..i], parse)) + TabStep(user, (raw[i].0, parse(raw[i].0, raw[i].1))))
               + TabsCalls(user, ParseTabs(raw, parse))[|TabsCalls(user, ParseTabs(raw[..i], parse))
                                                        + TabStep(user, (raw[i].0, parse(raw[i].0, raw[i].1)))|..]
  {
    var tab := (raw[i].0, parse(raw[i].0, raw[i].1));
    var before := ParseTabs(raw[..i], parse);
    ParseTabsSnoc(raw, i, parse);
    var head := TabsCalls(user, before) + TabStep(user, tab);
    ParseTabsPrefix(raw, i + 1, parse);
    PlanBeginsWith(user, ParseTabs(raw, parse), before + [tab]);
    TabsSnoc(user, before, tab);
    assert TabsCalls(user, before + [tab]) == head;
  }

  /** Parsing one more raw tab appends one parsed tab. */
  lemma ParseTabsSnoc(raw: seq<(string, seq<Row>)>, i: nat, parse: (string, seq<Row>) -> ParseResult)
    requires i < |raw|
    ensures ParseTabs(raw[..i + 1], parse) == ParseTabs(raw[..i], parse) + [(raw[i].0, parse(raw[i].0, raw[i].1))]
  {
    var pre := raw[..i + 1];
    assert pre[..i] == raw[..i];
    assert pre[|pre| - 1] == raw[i];
  }

  /** The calls of a prefix of the tabs begin the calls of all of them. */
  lemma PlanBeginsWith(user: string, tabs: seq<Tab>, pre: seq<Tab>)
    requires |pre| <= |tabs| && tabs[..|pre|] == pre
    ensures |TabsCalls(user, pre)| <= |TabsCalls(user, tabs)|
    ensures TabsCalls(user, tabs) == TabsCalls(user, pre) + TabsCalls(user, tabs)[|TabsCalls(user, pre)|..]
  {
    TabsCallsPrefix(user, tabs, |pre|);
    CallsSplit(TabsCalls(user, tabs), TabsCalls(user, pre));
  }

  lemma CallsSplit(plan: seq<Call>, done: seq<Call>)
    requires |done| <= |plan| && plan[..|done|] == done
    ensures plan == done + plan[|done|..]
  {
    assert plan == plan[..|done|] + plan[|done|..];
  }

  /** The loop's bookkeeping after one more tab. */
  lemma TabsSnoc(user: string, tabs: seq<Tab>, tab: Tab)
    ensures TabsCalls(user, tabs + [tab]) == TabsCalls(user, tabs) + TabStep(user, tab)
    ensures TabResults(tabs + [tab]) == if Skipped(tab.1) then TabResults(tabs) else TabResults(tabs)[tab.0 := ResultOf(tab.1)]
    ensures TotalRows(tabs + [tab]) == TotalRows(tabs) + if Skipped(tab.1) then 0 else tab.1.Count()
    ensures AffectedDates(tabs + [tab]) == TabDates(AffectedDates(tabs), tab)
  {
    assert (tabs + [tab])[..|tabs|] == tabs;
  }

  /** The body of the loop over dates for one date: recompute, then check alerts. */
  method RecomputeDate(db: Database, user: string, date: string) returns (ok: bool)
    modifies db
    ensures db.trace == old(db.trace) + Executed(DateStep(user, date), |old(db.trace)|, db.answer)
    ensures ok == Completes(DateStep(user, date), |old(db.trace)|, db.answer)
  {
    ghost var t0 := db.trace;
    assert DateStep(user, date) == [Recalculate(user, date)] + [CheckAlerts(user, date)];
    var reply := db.Invoke(Recalculate(user, date));
    RunOne(t0, Recalculate(user, date), db.trace, db.answer);
    if reply.Throws? {
      RunStops(t0, [Recalculate(user, date)], db.trace, [CheckAlerts(user, date)], db.answer);
      return false;
    }
    ghost var t1 := db.trace;
    var reply2 := db.Invoke(CheckAlerts(user, date));
    RunOne(t1, CheckAlerts(user, date), db.trace, db.answer);
    RunThen(t0, [Recalculate(user, date)], t1, [CheckAlerts(user, date)], db.trace, db.answer);
    ok := !reply2.Throws?;
  }

  /** The loop over the affected dates: recompute, then check alerts, for each. */
  method RecomputeDates(db: Database, user: string, dates: seq<string>) returns (ok: bool)
    modifies db
    ensures db.trace == old(db.trace) + Executed(DateCalls(user, dates), |old(db.trace)|, db.answer)
    ensures ok == Completes(DateCalls(user, dates), |old(db.trace)|, db.answer)
  {
    ghost var t0 := db.trace;
    var i := 0;
    while i < |dates|
      invariant i <= |dates|
      invariant db.trace == t0 + DateCalls(user, dates[..i])
      invariant Completes(DateCalls(user, dates[..i]), |t0|, db.answer)
    {
      RecomputeStep(user, dates, i);
      ghost var t1 := db.trace;
      ghost var done := DateCalls(user, dates[..i]);
      ghost var step := DateStep(user, dates[i]);
      ok := RecomputeDate(db, user, dates[i]);
      RunAfter(t0, done, t1, step, db.trace, db.answer);
      if !ok {
        ghost var plan := DateCalls(user, dates);
        RunStops(t0, done + step, db.trace, plan[|done + step|..], db.answer);
        return;
      }
      RunAfterComplete(t0, done, t1, step, db.trace, db.answer);
      i := i + 1;
    }
    assert dates[..i] == dates;
    ExecutedComplete(DateCalls(user, dates), |t0|, db.answer);
    ok := true;
  }

  /** What one round of the loop over dates adds, and where its calls sit in the
      calls of all dates. */
  lemma RecomputeStep(user: string, dates: seq<string>, i: nat)
    requires i < |dates|
    ensures DateCalls(user, dates[..i + 1]) == DateCalls(user, dates[..i]) + DateStep(user, dates[i])
    ensures |DateCalls(user, dates[..i + 1])| <= |DateCalls(user, dates)|
    ensures DateCalls(user, dates)
            == DateCalls(user, dates[..i + 1]) + DateCalls(user, dates)[|DateCalls(user, dates[..i + 1])|..]
  {
    assert dates[..i + 1][..i] == dates[..i];
    DateCallsPrefix(user, dates, i + 1);
  }

  /** The sync of one connected sheet: tabs, then dates, then the last-sync
      update. */
  method SyncUserSheet(db: Database, user: string, sheetId: string, raw: seq<(string, seq<Row>)>,
                       parse: (string, seq<Row>) -> ParseResult)
    returns (ok: bool, results: map<string, TabResult>, totalRows: nat, dates: seq<string>)
    modifies db
    ensures db.trace == old(db.trace)
      + Executed(SheetSyncPlan(user, sheetId, ParseTabs(raw, parse)), |old(db.trace)|, db.answer)
    ensures ok == Completes(SheetSyncPlan(user, sheetId, ParseTabs(raw, parse)), |old(db.trace)|, db.answer)
    ensures ok ==> results == TabResults(ParseTabs(raw, parse))
    ensures ok ==> totalRows == TotalRows(ParseTabs(raw, parse))
    ensures ok ==> dates == AffectedDates(ParseTabs(raw, parse))
  {
    ghost var t0 := db.trace;
    ghost var a := TabsCalls(user, ParseTabs(raw, parse));
    ok, results, totalRows, dates := IngestTabs(db, user, raw, parse);
    ghost var t1 := db.trace;
    ghost var c := [UpdateSheetLastSync(user, sheetId)];
    if !ok {
      RunStops(t0, a, t1, DateCalls(user, AffectedDates(ParseTabs(raw, parse))) + c, db.answer);
      assert a + (DateCalls(user, AffectedDates(ParseTabs(raw, parse))) + c)
          == SheetSyncPlan(user, sheetId, ParseTabs(raw, parse));
      return;
    }
    ghost var b := DateCalls(user, dates);
    ok := RecomputeDates(db, user, dates);
    ghost var t2 := db.trace;
    RunThen(t0, a, t1, b, t2, db.answer);
    if !ok {
      RunStops(t0, a + b, t2, c, db.answer);
      return;
    }
    var reply := db.Invoke(UpdateSheetLastSync(user, sheetId));
    RunOne(t2, UpdateSheetLastSync(user, sheetId), db.trace, db.answer);
    RunThen(t0, a + b, t2, c, db.trace, db.answer);
    ok := !reply.Throws?;
  }
}
