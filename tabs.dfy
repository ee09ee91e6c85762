/** Classification of sheet-tab names against the alias table (TAB_ALIASES,
    normalizeTabName and matchTabType). */
module TabClassifier {
  import opened Js
  import opened Records

  /** TAB_ALIASES: accented and unaccented Vietnamese names and English synonyms. */
  function Aliases(t: SheetType): seq<string> {
    match t
    case Orders =>
      ["donhang", "don hang", "đơn hàng", "đơnhàng",
       "orders", "order", "sales", "banhang", "ban hang", "bán hàng",
       "doanhthu", "doanh thu"]
    case Expenses =>
      ["chiphi", "chi phi", "chi phí", "chiphí",
       "expenses", "expense", "costs", "cost",
       "chitiêu", "chi tiêu"]
    case Inventory =>
      ["khohang", "kho hang", "kho hàng", "khohàng",
       "inventory", "stock", "warehouse",
       "tonkho", "tồn kho", "tồnkho", "ton kho"]
    case Employees =>
      ["nhansu", "nhan su", "nhân sự", "nhânsự",
       "employees", "employee", "staff", "personnel",
       "nhanvien", "nhân viên", "nhânviên", "nhan vien"]
  }

  /** The order in which the buckets are tried; the first match wins. */
  const BucketOrder: seq<SheetType> := [Orders, Expenses, Inventory, Employees]

  /** normalizeTabName: lower-case, trim, collapse white-space runs to one space. */
  function NormalizeTabName(name: string): string {
    CollapseSpaces(Trim(ToLower(name)))
  }

  /** One bucket's test in matchTabType: the normalized name is an alias, or equals
      an alias once all white space is removed from both. */
  predicate MatchesBucket(normalized: string, t: SheetType) {
    normalized in Aliases(t)
    || exists a :: a in Aliases(t) && RemoveSpaces(a) == RemoveSpaces(normalized)
  }

  function MatchIn(normalized: string, buckets: seq<SheetType>): Option<SheetType> {
    if buckets == [] then None
    else if MatchesBucket(normalized, buckets[0]) then Some(buckets[0])
    else MatchIn(normalized, buckets[1..])
  }

  /** matchTabType: the first bucket whose aliases match, or None (null). */
  function MatchTabType(tabName: string): Option<SheetType> {
    MatchIn(NormalizeTabName(tabName), BucketOrder)
  }

  // ---------------------------------------------------------------- specification

  /** What a name is compared on: its lower-case form with every white-space
      character removed. */
  function MatchKey(name: string): string {
    RemoveSpaces(ToLower(name))
  }

  /** Some alias of bucket t has this key. */
  predicate KeyInBucket(key: string, t: SheetType) {
    exists a :: a in Aliases(t) && RemoveSpaces(a) == key
  }

  /** The first bucket, in the given order, holding an alias with this key. */
  function FirstBucket(key: string, buckets: seq<SheetType>): (r: Option<SheetType>)
    ensures r.Some? ==> r.value in buckets && KeyInBucket(key, r.value)
    ensures r.None? <==> forall k :: 0 <= k < |buckets| ==> !KeyInBucket(key, buckets[k])
  {
    if buckets == [] then None
    else if KeyInBucket(key, buckets[0]) then Some(buckets[0])
    else FirstBucket(key, buckets[1..])
  }

  lemma RemoveSpacesAppend(a: string, b: string)
    ensures RemoveSpaces(a + b) == RemoveSpaces(a) + RemoveSpaces(b)
  {
    if a == [] {
      assert a + b == b;
    } else {
      assert (a + b)[1..] == a[1..] + b;
      RemoveSpacesAppend(a[1..], b);
    }
  }

  lemma {:induction false} RemoveSpacesTrimStart(s: string)
    ensures RemoveSpaces(TrimStart(s)) == RemoveSpaces(s)
  {
    if s != [] && IsSpace(s[0]) {
      RemoveSpacesTrimStart(s[1..]);
    }
  }

  lemma {:induction false} RemoveSpacesTrimEnd(s: string)
    ensures RemoveSpaces(TrimEnd(s)) == RemoveSpaces(s)
  {
    if s != [] && IsSpace(s[|s| - 1]) {
      var init := s[..|s| - 1];
      RemoveSpacesTrimEnd(init);
      assert s == init + [s[|s| - 1]];
      RemoveSpacesAppend(init, [s[|s| - 1]]);
    }
  }

  lemma {:induction false} RemoveSpacesCollapse(s: string)
    ensures RemoveSpaces(CollapseSpaces(s)) == RemoveSpaces(s)
    decreases |s|
  {
    if s == [] {
    } else if IsSpace(s[0]) {
      var rest := CollapseSpaces(TrimStart(s));
      RemoveSpacesCollapse(TrimStart(s));
      RemoveSpacesTrimStart(s);
      assert (" " + rest)[1..] == rest;
    } else {
      var rest := CollapseSpaces(s[1..]);
      RemoveSpacesCollapse(s[1..]);
      assert ([s[0]] + rest)[1..] == rest;
    }
  }

  /** Normalizing does not change the white-space-free form of a name. */
  lemma NormalizeKeepsKey(name: string)
    ensures RemoveSpaces(NormalizeTabName(name)) == MatchKey(name)
  {
    var lower := ToLower(name);
    RemoveSpacesCollapse(Trim(lower));
    RemoveSpacesTrimEnd(TrimStart(lower));
    RemoveSpacesTrimStart(lower);
  }

  lemma {:induction false} MatchInIsFirstBucket(normalized: string, buckets: seq<SheetType>)
    ensures MatchIn(normalized, buckets) == FirstBucket(RemoveSpaces(normalized), buckets)
  {
    if buckets != [] {
      var t := buckets[0];
      if normalized in Aliases(t) {
        assert KeyInBucket(RemoveSpaces(normalized), t);
      }
      MatchInIsFirstBucket(normalized, buckets[1..]);
    }
  }

  /** Classification depends only on the lower-cased name with all white space
      removed: the first bucket holding an alias with that key wins, else None. */
  lemma MatchTabTypeSpec(tabName: string)
    ensures MatchTabType(tabName) == FirstBucket(MatchKey(tabName), BucketOrder)
  {
    MatchInIsFirstBucket(NormalizeTabName(tabName), BucketOrder);
    NormalizeKeepsKey(tabName);
  }

  /** Names that differ only in white space and case classify alike. */
  lemma MatchTabTypeInsensitive(x: string, y: string)
    requires MatchKey(x) == MatchKey(y)
    ensures MatchTabType(x) == MatchTabType(y)
  {
    MatchTabTypeSpec(x);
    MatchTabTypeSpec(y);
  }

  /** Lower-casing a name first does not change its classification. */
  lemma MatchTabTypeIgnoresCase(name: string)
    ensures MatchTabType(ToLower(name)) == MatchTabType(name)
  {
    assert ToLower(ToLower(name)) == ToLower(name);
    MatchTabTypeInsensitive(ToLower(name), name);
  }

  /** A key of an orders alias classifies as orders, whatever the other buckets hold. */
  lemma OrdersKeyWins(key: string)
    requires KeyInBucket(key, Orders)
    ensures FirstBucket(key, BucketOrder) == Some(Orders)
  {
  }

  lemma ToLowerAppend(a: string, b: string)
    ensures ToLower(a + b) == ToLower(a) + ToLower(b)
  {
  }

  /** Widening a one-space gap to two spaces does not change a name's class. */
  lemma MatchTabTypeGapWidth(w1: string, w2: string)
    ensures MatchTabType(w1 + "  " + w2) == MatchTabType(w1 + " " + w2)
  {
    var l1, l2 := ToLower(w1), ToLower(w2);
    ToLowerAppend(w1 + "  ", w2);
    ToLowerAppend(w1, "  ");
    ToLowerAppend(w1 + " ", w2);
    ToLowerAppend(w1, " ");
    assert ToLower("  ") == "  " && ToLower(" ") == " ";
    RemoveSpacesAppend(l1 + "  ", l2);
    RemoveSpacesAppend(l1, "  ");
    RemoveSpacesAppend(l1 + " ", l2);
    RemoveSpacesAppend(l1, " ");
    MatchTabTypeInsensitive(w1 + "  " + w2, w1 + " " + w2);
  }

  /** "Đơn Hàng" (accented, title case) classifies as orders. */
  lemma AccentedOrders()
    ensures MatchTabType("Đơn Hàng") == Some(Orders)
  {
    assert ToLower("Đơn Hàng") == Aliases(Orders)[2];
    assert KeyInBucket(MatchKey("Đơn Hàng"), Orders);
    OrdersKeyWins(MatchKey("Đơn Hàng"));
    MatchTabTypeSpec("Đơn Hàng");
  }
}
