/** The server-side sheet parser (lib/googleSheets.js): date formatting, the
    extra-data bag, the known-tab and custom-tab row loops with their blank-row
    guards and positional row identities, parseDynamicRows and extractSheetId. */
module SheetParser {
  import opened Js
  import opened Records
  import opened TabClassifier

  // ---------------------------------------------------------------- formatDate

  /** The pattern /^\d{4}-\d{2}-\d{2}$/ (the full-date shape of section 5.6 of
      RFC 3339, digits only, ranges unchecked). */
  predicate IsIsoDateShape(s: string) {
    && |s| == 10
    && IsDigit(s[0]) && IsDigit(s[1]) && IsDigit(s[2]) && IsDigit(s[3])
    && s[4] == '-' && IsDigit(s[5]) && IsDigit(s[6])
    && s[7] == '-' && IsDigit(s[8]) && IsDigit(s[9])
  }

  /** formatDate. `isoDateOf` stands for `new Date(value)` followed by
      `toISOString().split('T')[0]`, None when the Date is invalid. */
  function FormatDate(v: Cell, isoDateOf: Cell -> Option<string>): (r: Option<string>)
    ensures Falsy(v) <==> r.None?
    ensures !Falsy(v) && IsIsoDateShape(ToText(v)) ==> r == Some(ToText(v))
  {
    if Falsy(v) then None
    else
      var s := ToText(v);
      if IsIsoDateShape(s) then Some(s)
      else
        var parts := Split(s, '/');
        if |parts| == 3 then Some(parts[2] + "-" + PadStart(parts[1], 2, '0') + "-" + PadStart(parts[0], 2, '0'))
        else match isoDateOf(v)
          case Some(d) => Some(d)
          case None => Some(s)
  }

  /** The date formatter the known-tab parser applies to date cells. */
  function ServerDate(isoDateOf: Cell -> Option<string>): Cell -> Option<string> {
    c => FormatDate(c, isoDateOf)
  }

  lemma SlashNotIsoShape(s: string)
    requires '/' in s
    ensures !IsIsoDateShape(s)
  {
  }

  lemma SplitThree(d: string, m: string, y: string)
    requires '/' !in d && '/' !in m && '/' !in y
    ensures Split(d + "/" + m + "/" + y, '/') == [d, m, y]
  {
    SplitNoSeparator(y, '/');
    SplitAtFirst(m, '/', y);
    assert m + "/" + y == m + ['/'] + y;
    SplitAtFirst(d, '/', m + "/" + y);
    assert d + "/" + m + "/" + y == d + ['/'] + (m + "/" + y);
  }

  /** A `d/m/y` value is rewritten to `y-mm-dd`, day and month padded to two
      characters, whatever the generic date parser would say. */
  lemma FormatDateDayMonthYear(d: string, m: string, y: string, isoDateOf: Cell -> Option<string>)
    requires '/' !in d && '/' !in m && '/' !in y
    ensures FormatDate(Str(d + "/" + m + "/" + y), isoDateOf)
            == Some(y + "-" + PadStart(m, 2, '0') + "-" + PadStart(d, 2, '0'))
  {
    var s := d + "/" + m + "/" + y;
    assert s[|d|] == '/';
    SlashNotIsoShape(s);
    SplitThree(d, m, y);
  }

  lemma PaddedDateShape(y: string, pm: string, pd: string)
    requires |y| == 4 && |pm| == 2 && |pd| == 2
    requires AllDigits(y) && AllDigits(pm) && AllDigits(pd)
    ensures IsIsoDateShape(y + "-" + pm + "-" + pd)
  {
    var r := y + "-" + pm + "-" + pd;
    assert r[0] == y[0] && r[1] == y[1] && r[2] == y[2] && r[3] == y[3];
    assert r[5] == pm[0] && r[6] == pm[1] && r[8] == pd[0] && r[9] == pd[1];
  }

  lemma PadDigits(s: string)
    requires 1 <= |s| <= 2 && AllDigits(s)
    ensures |PadStart(s, 2, '0')| == 2 && AllDigits(PadStart(s, 2, '0'))
  {
    var r := PadStart(s, 2, '0');
    forall i | 0 <= i < |r|
      ensures IsDigit(r[i])
    {
      if i < |r| - |s| {
      } else {
        assert r[i] == r[|r| - |s|..][i - (|r| - |s|)];
      }
    }
  }

  /** A value already in full-date shape is kept as it is. */
  lemma FormatDateKeepsFullDate(s: string, isoDateOf: Cell -> Option<string>)
    requires IsIsoDateShape(s)
    ensures FormatDate(Str(s), isoDateOf) == Some(s)
  {
    assert !Falsy(Str(s));
  }

  /** With a 4-digit year and 1- or 2-digit day and month, the rewrite has the
      full-date shape, so formatting the result again leaves it unchanged. */
  lemma FormatDateGivesFullDate(d: string, m: string, y: string, isoDateOf: Cell -> Option<string>)
    requires 1 <= |d| <= 2 && 1 <= |m| <= 2 && |y| == 4
    requires AllDigits(d) && AllDigits(m) && AllDigits(y)
    ensures FormatDate(Str(d + "/" + m + "/" + y), isoDateOf).Some?
    ensures IsIsoDateShape(FormatDate(Str(d + "/" + m + "/" + y), isoDateOf).value)
    ensures FormatDate(Str(FormatDate(Str(d + "/" + m + "/" + y), isoDateOf).value), isoDateOf)
            == FormatDate(Str(d + "/" + m + "/" + y), isoDateOf)
  {
    assert !IsDigit('/');
    assert '/' !in d && '/' !in m && '/' !in y;
    FormatDateDayMonthYear(d, m, y, isoDateOf);
    var pm := PadStart(m, 2, '0');
    var pd := PadStart(d, 2, '0');
    PadDigits(m);
    PadDigits(d);
    PaddedDateShape(y, pm, pd);
    FormatDateKeepsFullDate(y + "-" + pm + "-" + pd, isoDateOf);
  }

  lemma PadOneDigit(c: char)
    ensures PadStart([c], 2, '0') == ['0', c]
  {
    var r := PadStart([c], 2, '0');
    assert r[0] == '0' && r[1] == c;
  }

  /** "5/3/2024" gives "2024-03-05". */
  lemma FormatDateExample1(isoDateOf: Cell -> Option<string>)
    ensures FormatDate(Str("5/3/2024"), isoDateOf) == Some("2024-03-05")
  {
    var d, m, y := "5", "3", "2024";
    FormatDateDayMonthYear(d, m, y, isoDateOf);
    PadOneDigit('3');
    PadOneDigit('5');
    Example1Texts();
  }

  lemma Example1Texts()
    ensures "5" + "/" + "3" + "/" + "2024" == "5/3/2024"
    ensures "2024" + "-" + ['0', '3'] + "-" + ['0', '5'] == "2024-03-05"
  {
  }

  /** "05/03/2024" gives "2024-03-05" too. */
  lemma FormatDateExample2(isoDateOf: Cell -> Option<string>)
    ensures FormatDate(Str("05/03/2024"), isoDateOf) == Some("2024-03-05")
  {
    var d, m, y := "05", "03", "2024";
    FormatDateDayMonthYear(d, m, y, isoDateOf);
    assert PadStart(m, 2, '0') == m && PadStart(d, 2, '0') == d;
    Example2Texts();
  }

  lemma Example2Texts()
    ensures "05" + "/" + "03" + "/" + "2024" == "05/03/2024"
    ensures "2024" + "-" + "03" + "-" + "05" == "2024-03-05"
  {
  }

  /** A truthy value that is neither a full date, nor `a/b/c`, nor parseable as a
      date comes back as its own text, not null. */
  lemma FormatDateUnparseable(v: Cell, isoDateOf: Cell -> Option<string>)
    requires !Falsy(v) && !IsIsoDateShape(ToText(v)) && |Split(ToText(v), '/')| != 3
    requires isoDateOf(v).None?
    ensures FormatDate(v, isoDateOf) == Some(ToText(v))
  {
  }

  // ---------------------------------------------------------------- buildExtraData

  /** Column i goes to extra data: its header is non-empty and its cell is neither
      undefined nor ''. A 0 is kept. */
  predicate ExtraColumn(headers: seq<string>, row: Row, i: nat)
    requires i < |headers|
  {
    headers[i] != "" && CellAt(row, i) != Empty && CellAt(row, i) != Str("")
  }

  /** The bag after visiting columns start .. n-1; a later column overwrites an
      earlier one with the same header. */
  function ExtraUpTo(headers: seq<string>, row: Row, start: nat, n: nat): map<string, Cell>
    requires n <= |headers|
  {
    if n <= start then map[]
    else
      var m := ExtraUpTo(headers, row, start, n - 1);
      if ExtraColumn(headers, row, n - 1) then m[headers[n - 1] := CellAt(row, n - 1)] else m
  }

  function ExtraData(headers: seq<string>, row: Row, start: nat): map<string, Cell> {
    ExtraUpTo(headers, row, start, |headers|)
  }

  /** The keys of the bag are exactly the headers of the extra columns from
      `start` on, and each holds the cell of the last column with that header. */
  lemma {:induction false} ExtraUpToSpec(headers: seq<string>, row: Row, start: nat, n: nat)
    requires n <= |headers|
    ensures forall k :: k in ExtraUpTo(headers, row, start, n) <==>
      exists i :: start <= i < n && ExtraColumn(headers, row, i) && headers[i] == k
    ensures forall i :: (start <= i < n && ExtraColumn(headers, row, i) &&
      (forall j :: i < j < n && ExtraColumn(headers, row, j) ==> headers[j] != headers[i])) ==>
        headers[i] in ExtraUpTo(headers, row, start, n) && ExtraUpTo(headers, row, start, n)[headers[i]] == CellAt(row, i)
  {
    ExtraUpToKeys(headers, row, start, n);
    ExtraUpToValues(headers, row, start, n);
  }

  lemma {:induction false} ExtraUpToKeys(headers: seq<string>, row: Row, start: nat, n: nat)
    requires n <= |headers|
    ensures forall k :: k in ExtraUpTo(headers, row, start, n) <==>
      exists i :: start <= i < n && ExtraColumn(headers, row, i) && headers[i] == k
  {
    if n > start {
      ExtraUpToKeys(headers, row, start, n - 1);
      var m := ExtraUpTo(headers, row, start, n - 1);
      var added := ExtraColumn(headers, row, n - 1);
      assert ExtraUpTo(headers, row, start, n) == if added then m[headers[n - 1] := CellAt(row, n - 1)] else m;
      forall k
        ensures k in ExtraUpTo(headers, row, start, n) <==>
          exists i :: start <= i < n && ExtraColumn(headers, row, i) && headers[i] == k
      {
        if added && headers[n - 1] == k {
          assert start <= n - 1 < n && ExtraColumn(headers, row, n - 1) && headers[n - 1] == k;
        } else {
          if k in m {
            var i :| start <= i < n - 1 && ExtraColumn(headers, row, i) && headers[i] == k;
            assert start <= i < n;
          }
          if exists i :: start <= i < n && ExtraColumn(headers, row, i) && headers[i] == k {
            var i :| start <= i < n && ExtraColumn(headers, row, i) && headers[i] == k;
            assert i < n - 1;
          }
        }
      }
    }
  }

  lemma {:induction false} ExtraUpToValues(headers: seq<string>, row: Row, start: nat, n: nat)
    requires n <= |headers|
    ensures forall i :: (start <= i < n && ExtraColumn(headers, row, i) &&
      (forall j :: i < j < n && ExtraColumn(headers, row, j) ==> headers[j] != headers[i])) ==>
        headers[i] in ExtraUpTo(headers, row, start, n) && ExtraUpTo(headers, row, start, n)[headers[i]] == CellAt(row, i)
  {
    if n > start {
      ExtraUpToValues(headers, row, start, n - 1);
      var m := ExtraUpTo(headers, row, start, n - 1);
      var added := ExtraColumn(headers, row, n - 1);
      assert ExtraUpTo(headers, row, start, n) == if added then m[headers[n - 1] := CellAt(row, n - 1)] else m;
      forall i | start <= i < n && ExtraColumn(headers, row, i) &&
        (forall j :: i < j < n && ExtraColumn(headers, row, j) ==> headers[j] != headers[i])
        ensures headers[i] in ExtraUpTo(headers, row, start, n)
        ensures ExtraUpTo(headers, row, start, n)[headers[i]] == CellAt(row, i)
      {
        if i < n - 1 {
          assert forall j :: i < j < n - 1 && ExtraColumn(headers, row, j) ==> headers[j] != headers[i];
          assert headers[i] in m && m[headers[i]] == CellAt(row, i);
          assert added ==> headers[n - 1] != headers[i];
        }
      }
    }
  }

  /** buildExtraData: the loop over the columns past the known ones. */
  method BuildExtraData(headers: seq<string>, row: Row, startIndex: nat) returns (extra: map<string, Cell>)
    ensures extra == ExtraData(headers, row, startIndex)
  {
    extra := map[];
    var i := startIndex;
    while i < |headers|
      invariant startIndex <= i
      invariant i <= |headers| || i == startIndex
      invariant extra == ExtraUpTo(headers, row, startIndex, if i <= |headers| then i else |headers|)
    {
      var key := headers[i];
      if key != "" && CellAt(row, i) != Empty && CellAt(row, i) != Str("") {
        extra := extra[key := CellAt(row, i)];
      }
      i := i + 1;
    }
  }

  // ---------------------------------------------------------------- kept rows

  /** The indices below n of the rows a guard does not skip, in order. */
  function Kept(rows: seq<Row>, n: nat, skip: Row -> bool): (ks: seq<nat>)
    requires n <= |rows|
    ensures |ks| <= n
    ensures forall k :: 0 <= k < |ks| ==> ks[k] < n
  {
    if n == 0 then [] else Kept(rows, n - 1, skip) + (if skip(rows[n - 1]) then [] else [n - 1])
  }

  /** Kept lists exactly the indices below n of the rows not skipped, increasing. */
  lemma {:induction false} KeptSpec(rows: seq<Row>, n: nat, skip: Row -> bool)
    requires n <= |rows|
    ensures forall k :: 0 <= k < |Kept(rows, n, skip)| ==> !skip(rows[Kept(rows, n, skip)[k]])
    ensures forall k, l :: 0 <= k < l < |Kept(rows, n, skip)| ==> Kept(rows, n, skip)[k] < Kept(rows, n, skip)[l]
    ensures forall j :: 0 <= j < n ==> (j in Kept(rows, n, skip) <==> !skip(rows[j]))
  {
    if n > 0 {
      KeptSpec(rows, n - 1, skip);
    }
  }

  // ---------------------------------------------------------------- parseKnownTab

  /** The known-tab guard: a row is skipped when its first two cells are both falsy. */
  predicate SkipKnown(row: Row) {
    Falsy(CellAt(row, 0)) && Falsy(CellAt(row, 1))
  }

  /** The record data row i yields: its identity is `sheetType_(i+2)`, the sheet
      row number (the header is row 1). */
  function KnownRecord(t: SheetType, headers: seq<string>, row: Row, i: nat,
                       isoDateOf: Cell -> Option<string>): Record
  {
    Record(BuildFields(t, row, ServerDate(isoDateOf)), RowId(t.Name(), i + 2),
           Some(ExtraData(headers, row, KnownColumns(t))))
  }

  /** The records of the first n data rows of a known tab. */
  function KnownRecords(t: SheetType, headers: seq<string>, rows: seq<Row>, n: nat,
                        isoDateOf: Cell -> Option<string>): seq<Record>
    requires n <= |rows|
  {
    if n == 0 then []
    else KnownRecords(t, headers, rows, n - 1, isoDateOf)
         + (if SkipKnown(rows[n - 1]) then [] else [KnownRecord(t, headers, rows[n - 1], n - 1, isoDateOf)])
  }

  /** Each record comes from one kept row, in input order, and carries that row's
      own position, however many rows before it were skipped. */
  lemma {:induction false} KnownRecordsAreKeptRows(t: SheetType, headers: seq<string>, rows: seq<Row>, n: nat,
                                                   isoDateOf: Cell -> Option<string>)
    requires n <= |rows|
    ensures |KnownRecords(t, headers, rows, n, isoDateOf)| == |Kept(rows, n, SkipKnown)|
    ensures forall k :: 0 <= k < |Kept(rows, n, SkipKnown)| ==>
      KnownRecords(t, headers, rows, n, isoDateOf)[k]
        == KnownRecord(t, headers, rows[Kept(rows, n, SkipKnown)[k]], Kept(rows, n, SkipKnown)[k], isoDateOf)
  {
    if n > 0 {
      KnownRecordsAreKeptRows(t, headers, rows, n - 1, isoDateOf);
      var prev, pk := KnownRecords(t, headers, rows, n - 1, isoDateOf), Kept(rows, n - 1, SkipKnown);
      var recs, ks := KnownRecords(t, headers, rows, n, isoDateOf), Kept(rows, n, SkipKnown);
      if !SkipKnown(rows[n - 1]) {
        assert recs == prev + [KnownRecord(t, headers, rows[n - 1], n - 1, isoDateOf)];
        assert ks == pk + [n - 1];
        forall k | 0 <= k < |ks|
          ensures recs[k] == KnownRecord(t, headers, rows[ks[k]], ks[k], isoDateOf)
        {
          if k < |pk| {
            assert recs[k] == prev[k] && ks[k] == pk[k];
          }
        }
      }
    }
  }

  /** A data row is dropped iff both its first cells are falsy; at most one record
      per data row; identities within one parse are pairwise distinct. */
  lemma KnownRecordsSpec(t: SheetType, headers: seq<string>, rows: seq<Row>, isoDateOf: Cell -> Option<string>)
    ensures |KnownRecords(t, headers, rows, |rows|, isoDateOf)| <= |rows|
    ensures forall j :: 0 <= j < |rows| ==>
      (j in Kept(rows, |rows|, SkipKnown) <==> !SkipKnown(rows[j]))
    ensures forall k, l :: 0 <= k < l < |KnownRecords(t, headers, rows, |rows|, isoDateOf)| ==>
      KnownRecords(t, headers, rows, |rows|, isoDateOf)[k].sheetRowId
        != KnownRecords(t, headers, rows, |rows|, isoDateOf)[l].sheetRowId
  {
    KnownRecordsAreKeptRows(t, headers, rows, |rows|, isoDateOf);
    KeptSpec(rows, |rows|, SkipKnown);
    KnownIdsDistinct(t, headers, rows, isoDateOf);
  }

  /** The identities of one parse are pairwise distinct. */
  lemma KnownIdsDistinct(t: SheetType, headers: seq<string>, rows: seq<Row>, isoDateOf: Cell -> Option<string>)
    ensures forall k, l :: 0 <= k < l < |KnownRecords(t, headers, rows, |rows|, isoDateOf)| ==>
      KnownRecords(t, headers, rows, |rows|, isoDateOf)[k].sheetRowId
        != KnownRecords(t, headers, rows, |rows|, isoDateOf)[l].sheetRowId
  {
    var recs := KnownRecords(t, headers, rows, |rows|, isoDateOf);
    var ks := Kept(rows, |rows|, SkipKnown);
    KnownRecordsAreKeptRows(t, headers, rows, |rows|, isoDateOf);
    KeptSpec(rows, |rows|, SkipKnown);
    var ids := seq(|recs|, k requires 0 <= k < |recs| => recs[k].sheetRowId);
    IncreasingRowIds(t.Name(), ids, ks);
    assert forall k :: 0 <= k < |recs| ==> recs[k].sheetRowId == ids[k];
  }

  /** Identities built from strictly increasing row numbers differ. */
  lemma IncreasingRowIds(prefix: string, ids: seq<string>, ks: seq<nat>)
    requires |ids| == |ks|
    requires forall k :: 0 <= k < |ids| ==> ids[k] == RowId(prefix, ks[k] + 2)
    requires forall k, l :: 0 <= k < l < |ks| ==> ks[k] < ks[l]
    ensures forall k, l :: 0 <= k < l < |ids| ==> ids[k] != ids[l]
  {
    forall k, l | 0 <= k < l < |ids|
      ensures ids[k] != ids[l]
    {
      RowIdsDiffer(prefix, ks[k] + 2, ks[l] + 2);
    }
  }

  lemma RowIdsDiffer(prefix: string, a: nat, b: nat)
    requires a != b
    ensures RowId(prefix, a) != RowId(prefix, b)
  {
    if RowId(prefix, a) == RowId(prefix, b) {
      RowIdInjective(prefix, a, b);
    }
  }

  /** parseKnownTab. */
  method ParseKnownTab(t: SheetType, headers: seq<string>, dataRows: seq<Row>,
                       isoDateOf: Cell -> Option<string>) returns (parsed: seq<Record>)
    ensures parsed == KnownRecords(t, headers, dataRows, |dataRows|, isoDateOf)
  {
    parsed := [];
    var i := 0;
    while i < |dataRows|
      invariant i <= |dataRows|
      invariant parsed == KnownRecords(t, headers, dataRows, i, isoDateOf)
    {
      var row := dataRows[i];
      if !(Falsy(CellAt(row, 0)) && Falsy(CellAt(row, 1))) {
        var item := ParseKnownRow(t, headers, row, i, isoDateOf);
        parsed := parsed + [item];
      }
      i := i + 1;
    }
  }

  /** The body of parseKnownTab's loop for a row that is kept. */
  method ParseKnownRow(t: SheetType, headers: seq<string>, row: Row, i: nat,
                       isoDateOf: Cell -> Option<string>) returns (item: Record)
    ensures item == KnownRecord(t, headers, row, i, isoDateOf)
  {
    var knownColCount := KnownColumns(t);
    var sheetRowId := RowId(t.Name(), i + 2);
    var extraData := BuildExtraData(headers, row, knownColCount);
    item := Record(BuildFields(t, row, ServerDate(isoDateOf)), sheetRowId, Some(extraData));
  }

  // ---------------------------------------------------------------- parseCustomTab

  /** The custom-tab guard: skipped only when every cell is falsy and not 0. */
  predicate SkipCustom(row: Row) {
    forall j :: 0 <= j < |row| ==> Falsy(row[j]) && row[j] != Num(0)
  }

  /** `row[j] !== undefined ? row[j] : ''`. */
  function CustomValue(row: Row, j: nat): Cell {
    if CellAt(row, j) != Empty then CellAt(row, j) else Str("")
  }

  /** The data map after visiting headers 0 .. n-1. */
  function CustomDataUpTo(headers: seq<string>, row: Row, n: nat): map<string, Cell>
    requires n <= |headers|
  {
    if n == 0 then map[]
    else
      var m := CustomDataUpTo(headers, row, n - 1);
      if headers[n - 1] != "" then m[headers[n - 1] := CustomValue(row, n - 1)] else m
  }

  /** No column after j and before n carries the header of column j. */
  predicate LastWithHeader(headers: seq<string>, j: nat, n: nat)
    requires j < n <= |headers|
  {
    forall l :: j < l < n ==> headers[l] != headers[j]
  }

  /** The data map has one entry per non-empty header. */
  lemma {:induction false} CustomDataKeys(headers: seq<string>, row: Row, n: nat)
    requires n <= |headers|
    ensures forall k :: k in CustomDataUpTo(headers, row, n) <==>
      exists j :: 0 <= j < n && headers[j] != "" && headers[j] == k
  {
    if n > 0 {
      CustomDataKeys(headers, row, n - 1);
    }
  }

  /** Each entry holds the cell of the last column with that header, or '' when
      the row is too short. */
  lemma {:induction false} CustomDataValues(headers: seq<string>, row: Row, n: nat)
    requires n <= |headers|
    ensures forall j :: 0 <= j < n && headers[j] != "" && LastWithHeader(headers, j, n) ==>
      headers[j] in CustomDataUpTo(headers, row, n) && CustomDataUpTo(headers, row, n)[headers[j]] == CustomValue(row, j)
  {
    if n > 0 {
      CustomDataValues(headers, row, n - 1);
      var m := CustomDataUpTo(headers, row, n);
      forall j | 0 <= j < n && headers[j] != "" && LastWithHeader(headers, j, n)
        ensures headers[j] in m && m[headers[j]] == CustomValue(row, j)
      {
        if j < n - 1 {
          assert headers[n - 1] != headers[j];
          assert LastWithHeader(headers, j, n - 1);
        }
      }
    }
  }

  function CustomRecord(tabName: string, headers: seq<string>, row: Row, i: nat): CustomRow {
    CustomRow(i + 2, RowId(tabName, i + 2), CustomDataUpTo(headers, row, |headers|))
  }

  function CustomRecords(tabName: string, headers: seq<string>, rows: seq<Row>, n: nat): seq<CustomRow>
    requires n <= |rows|
  {
    if n == 0 then []
    else CustomRecords(tabName, headers, rows, n - 1)
         + (if SkipCustom(rows[n - 1]) then [] else [CustomRecord(tabName, headers, rows[n - 1], n - 1)])
  }

  lemma {:induction false} CustomRecordsAreKeptRows(tabName: string, headers: seq<string>, rows: seq<Row>, n: nat)
    requires n <= |rows|
    ensures |CustomRecords(tabName, headers, rows, n)| == |Kept(rows, n, SkipCustom)|
    ensures forall k :: 0 <= k < |Kept(rows, n, SkipCustom)| ==>
      CustomRecords(tabName, headers, rows, n)[k]
        == CustomRecord(tabName, headers, rows[Kept(rows, n, SkipCustom)[k]], Kept(rows, n, SkipCustom)[k])
  {
    if n > 0 {
      CustomRecordsAreKeptRows(tabName, headers, rows, n - 1);
      var prev, pk := CustomRecords(tabName, headers, rows, n - 1), Kept(rows, n - 1, SkipCustom);
      var recs, ks := CustomRecords(tabName, headers, rows, n), Kept(rows, n, SkipCustom);
      if !SkipCustom(rows[n - 1]) {
        assert recs == prev + [CustomRecord(tabName, headers, rows[n - 1], n - 1)];
        assert ks == pk + [n - 1];
        forall k | 0 <= k < |ks|
          ensures recs[k] == CustomRecord(tabName, headers, rows[ks[k]], ks[k])
        {
          if k < |pk| {
            assert recs[k] == prev[k] && ks[k] == pk[k];
          }
        }
      }
    }
  }

  /** A custom row with a 0 anywhere is kept; each record's rowIndex is its sheet
      row number and its identity `tabName_rowIndex`; identities are distinct. */
  lemma CustomRecordsSpec(tabName: string, headers: seq<string>, rows: seq<Row>)
    ensures |CustomRecords(tabName, headers, rows, |rows|)| <= |rows|
    ensures forall j :: 0 <= j < |rows| && Num(0) in rows[j] ==> j in Kept(rows, |rows|, SkipCustom)
    ensures forall k :: 0 <= k < |CustomRecords(tabName, headers, rows, |rows|)| ==>
      CustomRecords(tabName, headers, rows, |rows|)[k].sheetRowId
        == RowId(tabName, CustomRecords(tabName, headers, rows, |rows|)[k].rowIndex)
    ensures forall k, l :: 0 <= k < l < |CustomRecords(tabName, headers, rows, |rows|)| ==>
      CustomRecords(tabName, headers, rows, |rows|)[k].rowIndex
        < CustomRecords(tabName, headers, rows, |rows|)[l].rowIndex
  {
    CustomRecordsAreKeptRows(tabName, headers, rows, |rows|);
    KeptSpec(rows, |rows|, SkipCustom);
  }

  /** parseCustomTab. */
  method ParseCustomTab(tabName: string, headers: seq<string>, dataRows: seq<Row>) returns (parsed: seq<CustomRow>)
    ensures parsed == CustomRecords(tabName, headers, dataRows, |dataRows|)
  {
    parsed := [];
    var i := 0;
    while i < |dataRows|
      invariant i <= |dataRows|
      invariant parsed == CustomRecords(tabName, headers, dataRows, i)
    {
      var row := dataRows[i];
      if !SkipCustom(row) {
        var data := map[];
        var j := 0;
        while j < |headers|
          invariant j <= |headers|
          invariant data == CustomDataUpTo(headers, row, j)
        {
          var key := headers[j];
          if key != "" {
            data := data[key := if CellAt(row, j) != Empty then CellAt(row, j) else Str("")];
          }
          j := j + 1;
        }
        parsed := parsed + [CustomRow(i + 2, RowId(tabName, i + 2), data)];
      }
      i := i + 1;
    }
  }

  // ---------------------------------------------------------------- parseDynamicRows

  datatype ParseResult =
    | EmptyTab
    | KnownTab(sheetType: SheetType, rows: seq<Record>)
    | CustomTab(tabName: string, customRows: seq<CustomRow>)
  {
    /** `parsed.rows.length`. */
    function Count(): nat {
      match this
      case EmptyTab => 0
      case KnownTab(_, rows) => |rows|
      case CustomTab(_, rows) => |rows|
    }
  }

  /** The header row: `String(h || '').trim()` per cell. */
  function Headers(headerRow: Row): (hs: seq<string>)
    ensures |hs| == |headerRow|
  {
    seq(|headerRow|, j requires 0 <= j < |headerRow| => Trim(TextOr(headerRow[j], "")))
  }

  /** parseDynamicRows: header row plus data rows, dispatched on the tab's type. */
  function ParseDynamicRows(tabName: string, rawRows: seq<Row>, isoDateOf: Cell -> Option<string>): (r: ParseResult)
    ensures r.EmptyTab? <==> |rawRows| <= 1
    ensures r.KnownTab? <==> |rawRows| > 1 && MatchTabType(tabName).Some?
    ensures r.KnownTab? ==> Some(r.sheetType) == MatchTabType(tabName)
    ensures r.CustomTab? ==> r.tabName == tabName
    ensures r.Count() <= if |rawRows| <= 1 then 0 else |rawRows| - 1
  {
    if |rawRows| <= 1 then EmptyTab
    else
      var headers := Headers(rawRows[0]);
      var dataRows := rawRows[1..];
      match MatchTabType(tabName)
      case Some(t) =>
        KnownRecordsSpec(t, headers, dataRows, isoDateOf);
        KnownTab(t, KnownRecords(t, headers, dataRows, |dataRows|, isoDateOf))
      case None =>
        CustomRecordsSpec(tabName, headers, dataRows);
        CustomTab(tabName, CustomRecords(tabName, headers, dataRows, |dataRows|))
  }

  // ---------------------------------------------------------------- extractSheetId

  const Marker: string := "/spreadsheets/d/"

  /** A character of the class [a-zA-Z0-9-_]. */
  predicate IsIdChar(c: char) {
    ('a' <= c <= 'z') || ('A' <= c <= 'Z') || ('0' <= c <= '9') || c == '-' || c == '_'
  }

  /** The regular expression can match at p: the marker, then at least one id character. */
  predicate MatchAt(url: string, p: nat) {
    p + |Marker| < |url| && url[p..p + |Marker|] == Marker && IsIdChar(url[p + |Marker|])
  }

  /** The longest prefix of id characters. */
  function IdRun(s: string): (r: string)
    ensures |r| <= |s| && r == s[..|r|]
    ensures forall i :: 0 <= i < |r| ==> IsIdChar(r[i])
    ensures |r| == |s| || !IsIdChar(s[|r|])
  {
    if s != [] && IsIdChar(s[0]) then [s[0]] + IdRun(s[1..]) else []
  }

  function FindMatch(url: string, from: nat): (r: Option<nat>)
    ensures r.Some? ==> from <= r.value && MatchAt(url, r.value)
    ensures r.Some? ==> forall q :: from <= q < r.value ==> !MatchAt(url, q)
    ensures r.None? ==> forall q :: from <= q ==> !MatchAt(url, q)
    decreases |url| - from
  {
    if from + |Marker| >= |url| then None
    else if MatchAt(url, from) then Some(from)
    else FindMatch(url, from + 1)
  }

  /** extractSheetId: the maximal id run after the leftmost `/spreadsheets/d/`
      that is followed by at least one id character; None (null) when there is none. */
  function ExtractSheetId(url: string): (r: Option<string>)
    ensures r.None? <==> forall p :: !MatchAt(url, p)
    ensures r.Some? ==> exists p: nat :: IdAfter(url, p, r.value)
    ensures r.Some? ==> |r.value| >= 1 && forall i :: 0 <= i < |r.value| ==> IsIdChar(r.value[i])
  {
    match FindMatch(url, 0)
    case None => None
    case Some(p) =>
      var id := IdRun(url[p + |Marker|..]);
      assert url[p + |Marker|..][0] == url[p + |Marker|];
      assert IdAfter(url, p, id);
      Some(id)
  }

  /** id is the maximal run of id characters after the leftmost match at p. */
  predicate IdAfter(url: string, p: nat, id: string) {
    && MatchAt(url, p)
    && (forall q :: 0 <= q < p ==> !MatchAt(url, q))
    && p + |Marker| + |id| <= |url|
    && url[p + |Marker|..p + |Marker| + |id|] == id
    && (p + |Marker| + |id| == |url| || !IsIdChar(url[p + |Marker| + |id|]))
  }
}
