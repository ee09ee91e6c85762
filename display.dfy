/** The dashboard's display helpers: percentage change, trend direction,
    severity colour and the suffix of compact numbers. Numbers are exact
    reals; the rounding of `toFixed` is written out. */
module Display {
  import opened Js
  import DashboardAlerts

  function Pow10(p: nat): (r: real)
    ensures r >= 1.0
  {
    if p == 0 then 1.0 else 10.0 * Pow10(p - 1)
  }

  /** Halves round up. */
  function HalfUp(y: real): int {
    (y + 0.5).Floor
  }

  /** The integer n with `x.toFixed(p) == n / 10^p`: the magnitude is rounded
      to p places with halves away from zero, and the sign put back. */
  function Fixed(x: real, p: nat): int {
    if x < 0.0 then -HalfUp(-x * Pow10(p)) else HalfUp(x * Pow10(p))
  }

  /** toFixed is off by at most half a unit in the last place, and never
      rounds across zero. */
  lemma FixedSpec(x: real, p: nat)
    ensures -0.5 <= Fixed(x, p) as real - x * Pow10(p) <= 0.5
    ensures x >= 0.0 ==> Fixed(x, p) >= 0
    ensures x <= 0.0 ==> Fixed(x, p) <= 0
  {
  }

  /** What calculateChange returns: the number 0, or the string
      `toFixed(2)` of the percentage, here its value in hundredths. */
  datatype Change = NoChange | Percent(hundredths: int)

  /** calculateChange. */
  function CalculateChange(current: real, previous: real): Change {
    if previous == 0.0 then NoChange else Percent(Fixed((current - previous) / previous * 100.0, 2))
  }

  /** The number a change compares as (`'1.50' > 0` reads the string). */
  function ChangeValue(c: Change): real {
    match c
    case NoChange => 0.0
    case Percent(h) => h as real / 100.0
  }

  /** getTrendDirection. */
  function TrendDirection(change: real): (r: string)
    ensures r == "up" <==> change > 0.0
    ensures r == "down" <==> change < 0.0
    ensures r == "neutral" <==> change == 0.0
  {
    if change > 0.0 then "up" else if change < 0.0 then "down" else "neutral"
  }

  /** The trend of a change is up exactly when the exact percentage is at
      least 0.005 (it rounds to 0.01 or more), down exactly when it is at most
      -0.005, and neutral when the previous value is 0. */
  lemma TrendOfChange(current: real, previous: real)
    ensures previous == 0.0 ==> TrendDirection(ChangeValue(CalculateChange(current, previous))) == "neutral"
    ensures previous != 0.0 ==>
      var pct := (current - previous) / previous * 100.0;
      && (TrendDirection(ChangeValue(CalculateChange(current, previous))) == "up" <==> pct >= 0.005)
      && (TrendDirection(ChangeValue(CalculateChange(current, previous))) == "down" <==> pct <= -0.005)
  {
    if previous != 0.0 {
      var pct := (current - previous) / previous * 100.0;
      var h := Fixed(pct, 2);
      assert Pow10(2) == 100.0;
      assert ChangeValue(CalculateChange(current, previous)) == h as real / 100.0;
      if pct >= 0.0 {
        assert h >= 1 <==> pct * 100.0 + 0.5 >= 1.0;
      } else {
        assert h <= -1 <==> -pct * 100.0 + 0.5 >= 1.0;
      }
    }
  }

  /** getStatusColor: `colors[severity] || 'gray'`. */
  function StatusColor(severity: string): (r: string)
    ensures r == "gray" <==> severity != "high" && severity != "medium" && severity != "low"
    ensures severity == "high" ==> r == "red"
    ensures severity == "medium" ==> r == "yellow"
    ensures severity == "low" ==> r == "blue"
  {
    if severity == "high" then "red"
    else if severity == "medium" then "yellow"
    else if severity == "low" then "blue"
    else "gray"
  }

  /** An alert stored without a severity is shown in the colour of `low`. */
  lemma DefaultSeverityColor(a: DashboardAlerts.StoredAlert)
    requires a.severity.None? || a.severity == Some("")
    ensures StatusColor(DashboardAlerts.Shape(a).severity) == "blue"
  {
  }

  /** A value given to formatNumber: a number, or anything else, which
      `parseFloat` reads (None for NaN). */
  datatype Value = Number(x: real) | Other(text: string)

  /** `typeof value !== 'number' ? parseFloat(value) || 0 : value`. */
  function Coerce(v: Value, parseFloat: string -> Option<real>): real {
    match v
    case Number(x) => x
    case Other(t) => if parseFloat(t).Some? then parseFloat(t).value else 0.0
  }

  /** A compact number: `toFixed(digits)` of value / unit, here in units of the
      last place, followed by the suffix. */
  datatype Compact = Compact(lastPlace: int, digits: nat, suffix: string)

  const Billion: real := 1000000000.0
  const Million: real := 1000000.0
  const Thousand: real := 1000.0

  /** formatNumber on the coerced value. */
  function FormatNumber(v: real): Compact {
    if v >= Billion then Compact(Fixed(v / Billion, 1), 1, "B")
    else if v >= Million then Compact(Fixed(v / Million, 1), 1, "M")
    else if v >= Thousand then Compact(Fixed(v / Thousand, 1), 1, "K")
    else Compact(Fixed(v, 0), 0, "")
  }

  /** The suffix is chosen by the thresholds alone, so a negative value never
      gets one; with a suffix the shown figure is the value in that unit, to
      one place, at least 1 and for K and M below 1000. */
  lemma FormatNumberSpec(v: real)
    ensures FormatNumber(v).suffix == "B" <==> v >= Billion
    ensures FormatNumber(v).suffix == "M" <==> Million <= v < Billion
    ensures FormatNumber(v).suffix == "K" <==> Thousand <= v < Million
    ensures FormatNumber(v).suffix == "" <==> v < Thousand
    ensures v < 0.0 ==> FormatNumber(v).suffix == ""
    ensures FormatNumber(v).suffix != "" ==> FormatNumber(v).digits == 1 && FormatNumber(v).lastPlace >= 10
    ensures FormatNumber(v).suffix == "K" || FormatNumber(v).suffix == "M" ==> FormatNumber(v).lastPlace <= 10000
    ensures FormatNumber(v).suffix == "" ==> FormatNumber(v).digits == 0
  {
    var unit := if v >= Billion then Billion else if v >= Million then Million else Thousand;
    assert Pow10(1) == 10.0;
    if v >= Thousand {
      FixedSpec(v / unit, 1);
      assert v / unit >= 1.0;
      if v < Billion {
        assert v / unit < 1000.0;
      }
    }
  }

  /** Just below a million the figure rounds up to the next unit but keeps
      the smaller suffix: 999999 is shown as 1000.0K. */
  lemma ThousandKBoundary()
    ensures FormatNumber(999999.0) == Compact(10000, 1, "K")
  {
    assert Pow10(1) == 10.0;
    assert 999999.0 / Thousand * 10.0 + 0.5 == 10000.49;
  }
}
