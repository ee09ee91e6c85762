/** The spreadsheet-bound Apps Script (google-apps-script/sync.js): the fixed
    tab-name map, its own date formatter and row parser, and the per-tab sync
    that builds the payload pushed to the sync route. */
module AppsScript {
  import opened Js
  import opened Records
  import SheetParser

  /** SHEET_MAP: only these four exact tab names are synced. */
  function SheetMap(sheetName: string): (r: Option<string>)
    ensures r.Some? ==> TypeNamed(r.value).Some?
  {
    if sheetName == "DonHang" then Some("orders")
    else if sheetName == "ChiPhi" then Some("expenses")
    else if sheetName == "KhoHang" then Some("inventory")
    else if sheetName == "NhanSu" then Some("employees")
    else None
  }

  /** The script's formatDate: a Date gives `y-mm-dd` from its calendar fields;
      text of the form `a/b/c` gives `c-b-a` without padding; anything else
      truthy is returned as its text. */
  function ScriptFormatDate(v: Cell): (r: Option<string>)
    ensures Falsy(v) <==> r.None?
    ensures !Falsy(v) && !v.DateVal? && |Split(ToText(v), '/')| != 3 ==> r == Some(ToText(v))
  {
    if Falsy(v) then None
    else if v.DateVal? then
      var y := IntToString(v.date.year);
      var m := LastTwo("0" + IntToString(v.date.month));
      var d := LastTwo("0" + IntToString(v.date.day));
      Some(y + "-" + m + "-" + d)
    else
      var str := ToText(v);
      var parts := Split(str, '/');
      if |parts| == 3 then Some(parts[2] + "-" + parts[1] + "-" + parts[0]) else Some(str)
  }

  /** parseRow: the fields of a known type, or None (null) for another type key.
      The rows it builds have no extraData. */
  function ParseRow(sheetType: string, row: Row, sheetRowId: string): (r: Option<Record>)
    ensures r.Some? <==> TypeNamed(sheetType).Some?
    ensures r.Some? ==> r.value.sheetRowId == sheetRowId && r.value.extraData.None?
  {
    match TypeNamed(sheetType)
    case None => None
    case Some(t) => Some(Record(BuildFields(t, row, ScriptFormatDate), sheetRowId, None))
  }

  /** The object parseRow returns for data row j of tab sheetName (sheet row j + 2). */
  function ScriptRecord(t: SheetType, sheetName: string, row: Row, j: nat): Record {
    Record(BuildFields(t, row, ScriptFormatDate), RowId(sheetName, j + 2), None)
  }

  /** The rows the loop over data rows 0 .. n-1 collects; data row j is sheet row
      j + 2 and gets the identity `sheetName_(j+2)`. */
  function ScriptRows(t: SheetType, sheetName: string, rows: seq<Row>, n: nat): seq<Record>
    requires n <= |rows|
  {
    if n == 0 then []
    else
      ScriptRows(t, sheetName, rows, n - 1)
      + (if SheetParser.SkipKnown(rows[n - 1]) then [] else [ScriptRecord(t, sheetName, rows[n - 1], n - 1)])
  }

  /** The body posted to the sync route. */
  datatype Payload = Payload(sheetType: string, rows: seq<Record>)

  /** What syncSheet posts, or None when it returns before posting: no such tab,
      a name outside the map, only a header row, or no row survived. */
  function SyncPayload(sheetName: string, data: Option<seq<Row>>): Option<Payload> {
    match SheetMap(sheetName)
    case None => None
    case Some(sheetType) =>
      if data.None? || |data.value| <= 1 then None
      else
        var rows := ScriptRows(TypeNamed(sheetType).value, sheetName, data.value[1..], |data.value| - 1);
        if rows == [] then None else Some(Payload(sheetType, rows))
  }

  /** The loop of syncSheet over the data rows (sheet rows 2 .. |grid|). */
  method CollectRows(sheetType: string, sheetName: string, grid: seq<Row>) returns (rows: seq<Record>)
    requires TypeNamed(sheetType).Some? && |grid| >= 1
    ensures rows == ScriptRows(TypeNamed(sheetType).value, sheetName, grid[1..], |grid| - 1)
  {
    ghost var t, dataRows := TypeNamed(sheetType).value, grid[1..];
    rows := [];
    var i := 1;
    while i < |grid|
      invariant 1 <= i <= |grid|
      invariant rows == ScriptRows(t, sheetName, dataRows, i - 1)
    {
      var row := grid[i];
      assert row == dataRows[i - 1];
      ParseRowIsScriptRecord(t, sheetType, sheetName, row, i - 1);
      ScriptRowsStep(t, sheetName, dataRows, i - 1);
      if !(Falsy(CellAt(row, 0)) && Falsy(CellAt(row, 1))) {
        var rowData := ParseRow(sheetType, row, RowId(sheetName, i + 1));
        if rowData.Some? {
          rows := rows + [rowData.value];
        }
      }
      i := i + 1;
    }
  }

  /** syncSheet up to the request. `data` is the tab's value grid, None when the
      spreadsheet has no tab of that name. */
  method SyncSheet(sheetName: string, data: Option<seq<Row>>) returns (payload: Option<Payload>)
    ensures payload == SyncPayload(sheetName, data)
  {
    if data.None? {
      return None;
    }
    var sheetType := SheetMap(sheetName);
    if sheetType.None? {
      return None;
    }
    var grid := data.value;
    if |grid| <= 1 {
      return None;
    }
    var rows := CollectRows(sheetType.value, sheetName, grid);
    if |rows| == 0 {
      return None;
    }
    payload := Some(Payload(sheetType.value, rows));
  }

  lemma ParseRowIsScriptRecord(t: SheetType, sheetType: string, sheetName: string, row: Row, j: nat)
    requires TypeNamed(sheetType) == Some(t)
    ensures ParseRow(sheetType, row, RowId(sheetName, j + 2)) == Some(ScriptRecord(t, sheetName, row, j))
  {
  }

  lemma ScriptRowsStep(t: SheetType, sheetName: string, rows: seq<Row>, n: nat)
    requires n < |rows|
    ensures ScriptRows(t, sheetName, rows, n + 1) == ScriptRows(t, sheetName, rows, n)
      + (if SheetParser.SkipKnown(rows[n]) then [] else [ScriptRecord(t, sheetName, rows[n], n)])
  {
  }

  /** onEdit: edits in a tab outside the map are ignored; otherwise the tab is synced. */
  method OnEdit(sheetName: string, data: Option<seq<Row>>) returns (payload: Option<Payload>)
    ensures SheetMap(sheetName).None? ==> payload.None?
    ensures SheetMap(sheetName).Some? ==> payload == SyncPayload(sheetName, data)
  {
    if SheetMap(sheetName).None? {
      return None;
    }
    payload := SyncSheet(sheetName, data);
  }

  // ---------------------------------------------------------------- push and pull paths compared

  /** The fields with every date cleared. */
  function WithoutDates(f: Fields): Fields {
    match f
    case OrderFields(_, c, p, q, u, t, s, n) => OrderFields(None, c, p, q, u, t, s, n)
    case ExpenseFields(_, c, d, a, p, n) => ExpenseFields(None, c, d, a, p, n)
    case InventoryFields(_, p, i, o, s, n) => InventoryFields(None, p, i, o, s, n)
    case EmployeeFields(e, r, d, s, _, st, n) => EmployeeFields(e, r, d, s, None, st, n)
  }

  /** Two date formatters give the same fields except for the dates. */
  lemma FieldsAgreeOffDates(t: SheetType, row: Row, f: Cell -> Option<string>, g: Cell -> Option<string>)
    ensures WithoutDates(BuildFields(t, row, f)) == WithoutDates(BuildFields(t, row, g))
  {
  }

  lemma {:induction false} ScriptRowsAreKeptRows(t: SheetType, sheetName: string, rows: seq<Row>, n: nat)
    requires n <= |rows|
    ensures |ScriptRows(t, sheetName, rows, n)| == |SheetParser.Kept(rows, n, SheetParser.SkipKnown)|
    ensures forall k :: 0 <= k < |SheetParser.Kept(rows, n, SheetParser.SkipKnown)| ==>
      ScriptRows(t, sheetName, rows, n)[k]
        == ScriptRecord(t, sheetName, rows[SheetParser.Kept(rows, n, SheetParser.SkipKnown)[k]],
                        SheetParser.Kept(rows, n, SheetParser.SkipKnown)[k])
  {
    if n > 0 {
      ScriptRowsAreKeptRows(t, sheetName, rows, n - 1);
      var prev, pk := ScriptRows(t, sheetName, rows, n - 1), SheetParser.Kept(rows, n - 1, SheetParser.SkipKnown);
      var recs, ks := ScriptRows(t, sheetName, rows, n), SheetParser.Kept(rows, n, SheetParser.SkipKnown);
      if !SheetParser.SkipKnown(rows[n - 1]) {
        assert recs == prev + [ScriptRecord(t, sheetName, rows[n - 1], n - 1)];
        assert ks == pk + [n - 1];
        forall k | 0 <= k < |ks|
          ensures recs[k] == ScriptRecord(t, sheetName, rows[ks[k]], ks[k])
        {
          if k < |pk| {
            assert recs[k] == prev[k] && ks[k] == pk[k];
          }
        }
      }
    }
  }

  /** The tab names of the map hold no '_', and none is a type key. */
  lemma SheetMapNames(sheetName: string, t: SheetType)
    requires SheetMap(sheetName) == Some(t.Name())
    ensures '_' !in sheetName && '_' !in t.Name() && sheetName != t.Name()
  {
  }

  /** One kept row as the two paths build it. */
  lemma PushAndPullRow(t: SheetType, sheetName: string, headers: seq<string>, row: Row, j: nat,
                       isoDateOf: Cell -> Option<string>)
    requires SheetMap(sheetName) == Some(t.Name())
    ensures WithoutDates(ScriptRecord(t, sheetName, row, j).fields)
            == WithoutDates(SheetParser.KnownRecord(t, headers, row, j, isoDateOf).fields)
    ensures ScriptRecord(t, sheetName, row, j).sheetRowId
            != SheetParser.KnownRecord(t, headers, row, j, isoDateOf).sheetRowId
  {
    FieldsAgreeOffDates(t, row, ScriptFormatDate, SheetParser.ServerDate(isoDateOf));
    SheetMapNames(sheetName, t);
    SameNumberDifferentPrefix(sheetName, t.Name(), j + 2);
  }

  /** The script and the server parser keep the same rows of a tab and agree on
      every field but the dates; the identities they give the same row differ
      (the tab's own name versus the type key as prefix), and the script's rows
      carry no extra data. */
  lemma PushAndPullRows(t: SheetType, sheetName: string, headers: seq<string>, rows: seq<Row>,
                        isoDateOf: Cell -> Option<string>)
    requires SheetMap(sheetName) == Some(t.Name())
    ensures |ScriptRows(t, sheetName, rows, |rows|)|
            == |SheetParser.KnownRecords(t, headers, rows, |rows|, isoDateOf)|
    ensures forall k :: 0 <= k < |ScriptRows(t, sheetName, rows, |rows|)| ==>
      && WithoutDates(ScriptRows(t, sheetName, rows, |rows|)[k].fields)
         == WithoutDates(SheetParser.KnownRecords(t, headers, rows, |rows|, isoDateOf)[k].fields)
      && ScriptRows(t, sheetName, rows, |rows|)[k].sheetRowId
         != SheetParser.KnownRecords(t, headers, rows, |rows|, isoDateOf)[k].sheetRowId
      && ScriptRows(t, sheetName, rows, |rows|)[k].extraData.None?
      && SheetParser.KnownRecords(t, headers, rows, |rows|, isoDateOf)[k].extraData.Some?
  {
    var script := ScriptRows(t, sheetName, rows, |rows|);
    var server := SheetParser.KnownRecords(t, headers, rows, |rows|, isoDateOf);
    var ks := SheetParser.Kept(rows, |rows|, SheetParser.SkipKnown);
    ScriptRowsAreKeptRows(t, sheetName, rows, |rows|);
    SheetParser.KnownRecordsAreKeptRows(t, headers, rows, |rows|, isoDateOf);
    forall k | 0 <= k < |script|
      ensures WithoutDates(script[k].fields) == WithoutDates(server[k].fields)
      ensures script[k].sheetRowId != server[k].sheetRowId
      ensures script[k].extraData.None? && server[k].extraData.Some?
    {
      PushAndPullRow(t, sheetName, headers, rows[ks[k]], ks[k], isoDateOf);
    }
  }

  /** Identities with distinct prefixes free of '_' differ. */
  lemma SameNumberDifferentPrefix(a: string, b: string, n: nat)
    requires a != b && '_' !in a && '_' !in b
    ensures RowId(a, n) != RowId(b, n)
  {
    if |a| < |b| {
      assert RowId(a, n)[|a|] == '_';
      assert RowId(b, n)[|a|] == b[|a|];
    } else if |b| < |a| {
      assert RowId(b, n)[|b|] == '_';
      assert RowId(a, n)[|b|] == a[|b|];
    } else {
      assert RowId(a, n)[..|a|] == a;
      assert RowId(b, n)[..|b|] == b;
    }
  }

  /** A `d/m/y` text is rewritten to `y-m-d` with no padding. */
  lemma ScriptFormatDateDayMonthYear(d: string, m: string, y: string)
    requires '/' !in d && '/' !in m && '/' !in y
    ensures ScriptFormatDate(Str(d + "/" + m + "/" + y)) == Some(y + "-" + m + "-" + d)
  {
    SheetParser.SplitThree(d, m, y);
  }

  /** The same text date gives "2024-3-5" on the push path and "2024-03-05" on
      the pull path. */
  lemma DateFormatsDiffer(isoDateOf: Cell -> Option<string>)
    ensures ScriptFormatDate(Str("5/3/2024")) == Some("2024-3-5")
    ensures SheetParser.FormatDate(Str("5/3/2024"), isoDateOf) == Some("2024-03-05")
  {
    SheetParser.FormatDateExample1(isoDateOf);
    ScriptFormatDateExample();
  }

  lemma ScriptFormatDateExample()
    ensures ScriptFormatDate(Str("5/3/2024")) == Some("2024-3-5")
  {
    var d, m, y := "5", "3", "2024";
    ScriptFormatDateDayMonthYear(d, m, y);
    ScriptExampleTexts();
  }

  lemma ScriptExampleTexts()
    ensures "5" + "/" + "3" + "/" + "2024" == "5/3/2024"
    ensures "2024" + "-" + "3" + "-" + "5" == "2024-3-5"
  {
  }

  /** A Date cell gives its year, then the month and the day each as two digits
      that read back as the month and the day. */
  lemma ScriptDateOfDate(y: nat, m: nat, day: nat, time: int, text: string)
    requires 1 <= m <= 12 && 1 <= day <= 31
    ensures ScriptFormatDate(DateVal(JsDate(y, m, day, time, text)))
            == Some(NatToString(y) + "-" + TwoDigits(m) + "-" + TwoDigits(day))
    ensures |TwoDigits(m)| == 2 && AllDigits(TwoDigits(m)) && DigitsValue(TwoDigits(m)) == m
    ensures |TwoDigits(day)| == 2 && AllDigits(TwoDigits(day)) && DigitsValue(TwoDigits(day)) == day
  {
    TwoDigitsSpec(m);
    TwoDigitsSpec(day);
    assert IntToString(y) == NatToString(y);
    assert IntToString(m) == NatToString(m);
    assert IntToString(day) == NatToString(day);
  }
}
