/** The typed records the ingestion path produces: one per known sheet type, a
    generic key-value row for custom tabs, and the positional row identity. */
module Records {
  import opened Js

  /** The four canonical sheet types. */
  datatype SheetType = Orders | Expenses | Inventory | Employees {
    /** The key the source uses for the type ('orders', 'expenses', ...). */
    function Name(): string {
      match this
      case Orders => "orders"
      case Expenses => "expenses"
      case Inventory => "inventory"
      case Employees => "employees"
    }
  }

  /** A `switch (sheetType)` over the type keys: None for any other string. */
  function TypeNamed(s: string): (r: Option<SheetType>)
    ensures r.Some? ==> r.value.Name() == s
    ensures r.None? ==> forall t: SheetType :: t.Name() != s
  {
    if s == "orders" then Some(Orders)
    else if s == "expenses" then Some(Expenses)
    else if s == "inventory" then Some(Inventory)
    else if s == "employees" then Some(Employees)
    else None
  }

  /** KNOWN_COLUMNS: how many leading columns a type interprets itself; the
      columns from this index on go to the extra-data bag. */
  function KnownColumns(t: SheetType): nat {
    match t
    case Orders => 8
    case Expenses => 6
    case Inventory => 6
    case Employees => 7
  }

  /** The typed fields of one row. Dates are None where the source has null. */
  datatype Fields =
    | OrderFields(date: Option<string>, customerName: string, product: string, quantity: int,
                  unitPrice: int, total: int, status: string, notes: string)
    | ExpenseFields(date: Option<string>, category: string, description: string, amount: int,
                    paidBy: string, notes: string)
    | InventoryFields(date: Option<string>, productName: string, quantityIn: int, quantityOut: int,
                      stockRemaining: int, notes: string)
    | EmployeeFields(employeeName: string, role: string, department: string, salary: int,
                     startDate: Option<string>, status: string, notes: string)

  /** A parsed row of a known tab. `extraData` is None where the row object has
      no such property (rows built by the Apps Script). */
  datatype Record = Record(fields: Fields, sheetRowId: string, extraData: Option<map<string, Cell>>)

  /** A parsed row of a custom tab. */
  datatype CustomRow = CustomRow(rowIndex: nat, sheetRowId: string, data: map<string, Cell>)

  /** `prefix + '_' + rowNumber`. */
  function RowId(prefix: string, rowNumber: nat): string {
    prefix + "_" + NatToString(rowNumber)
  }

  /** Within one prefix, the identity determines the row number. */
  lemma RowIdInjective(prefix: string, a: nat, b: nat)
    requires RowId(prefix, a) == RowId(prefix, b)
    ensures a == b
  {
    var n := |prefix| + 1;
    assert RowId(prefix, a)[n..] == NatToString(a);
    assert RowId(prefix, b)[n..] == NatToString(b);
    NatToStringInjective(a, b);
  }

  /** The fields a known-type row yields. Text fields are `String(cell || '')`,
      numbers `Number(cell) || 0`, and date cells go through `fmt`. */
  function BuildFields(t: SheetType, row: Row, fmt: Cell -> Option<string>): (f: Fields)
    ensures t == Orders <==> f.OrderFields?
    ensures t == Expenses <==> f.ExpenseFields?
    ensures t == Inventory <==> f.InventoryFields?
    ensures t == Employees <==> f.EmployeeFields?
  {
    match t
    case Orders =>
      var quantity := NumberOr0(CellAt(row, 3));
      var unitPrice := NumberOr0(CellAt(row, 4));
      var given := NumberOr0(CellAt(row, 5));
      OrderFields(fmt(CellAt(row, 0)), TextOr(CellAt(row, 1), ""), TextOr(CellAt(row, 2), ""),
                  quantity, unitPrice, if given != 0 then given else quantity * unitPrice,
                  TextOr(CellAt(row, 6), "completed"), TextOr(CellAt(row, 7), ""))
    case Expenses =>
      ExpenseFields(fmt(CellAt(row, 0)), TextOr(CellAt(row, 1), ""), TextOr(CellAt(row, 2), ""),
                    NumberOr0(CellAt(row, 3)), TextOr(CellAt(row, 4), ""), TextOr(CellAt(row, 5), ""))
    case Inventory =>
      InventoryFields(fmt(CellAt(row, 0)), TextOr(CellAt(row, 1), ""), NumberOr0(CellAt(row, 2)),
                      NumberOr0(CellAt(row, 3)), NumberOr0(CellAt(row, 4)), TextOr(CellAt(row, 5), ""))
    case Employees =>
      EmployeeFields(TextOr(CellAt(row, 0), ""), TextOr(CellAt(row, 1), ""), TextOr(CellAt(row, 2), ""),
                     NumberOr0(CellAt(row, 3)), fmt(CellAt(row, 4)), TextOr(CellAt(row, 5), "active"),
                     TextOr(CellAt(row, 6), ""))
  }

  /** The order total falls back to quantity x unit price when column F is 0
      or not a number; the order and employee statuses have defaults. */
  lemma BuildFieldsDefaults(t: SheetType, row: Row, fmt: Cell -> Option<string>)
    ensures var f := BuildFields(t, row, fmt);
      && (f.OrderFields? && NumberOr0(CellAt(row, 5)) == 0 ==> f.total == f.quantity * f.unitPrice)
      && (f.OrderFields? && NumberOr0(CellAt(row, 5)) != 0 ==> JsNumber(CellAt(row, 5)) == Some(f.total))
      && (f.OrderFields? && Falsy(CellAt(row, 6)) ==> f.status == "completed")
      && (f.EmployeeFields? && Falsy(CellAt(row, 5)) ==> f.status == "active")
  {
  }

  /** `r.date`: orders, expenses and inventory rows carry one; employee rows have
      no such property. */
  function DateOf(r: Record): Option<string> {
    match r.fields
    case OrderFields(d, _, _, _, _, _, _, _) => d
    case ExpenseFields(d, _, _, _, _, _) => d
    case InventoryFields(d, _, _, _, _, _) => d
    case EmployeeFields(_, _, _, _, _, _, _) => None
  }

  /** `r.date` is truthy: present and not the empty string. */
  predicate HasTruthyDate(r: Record) {
    DateOf(r).Some? && DateOf(r).value != ""
  }
}
