/** The JavaScript value semantics the ingestion code leans on: spreadsheet cells,
    truthiness, String() and Number() coercion, whitespace, lower-casing, split,
    join and padStart. Everything here is pure. */
module Js {

  datatype Option<+T> = None | Some(value: T)

  /** A Date object read from a sheet: its calendar fields in the script's time
      zone (month 1..12), its time value in milliseconds and the text String()
      gives for it. */
  datatype JsDate = JsDate(year: int, month: int, day: int, time: int, text: string)

  /** One spreadsheet cell. Empty stands for `undefined`, the value of a cell past
      the end of a row. Booleans and fractional numbers are not modelled. */
  datatype Cell = Empty | Str(s: string) | Num(n: int) | DateVal(date: JsDate)

  type Row = seq<Cell>

  /** `row[i]`: undefined past the end of the row. */
  function CellAt(row: Row, i: nat): (c: Cell)
    ensures i < |row| ==> c == row[i]
    ensures i >= |row| ==> c == Empty
  {
    if i < |row| then row[i] else Empty
  }

  /** JavaScript truthiness: undefined, '' and 0 are falsy; a Date object never is. */
  predicate Falsy(c: Cell) {
    c == Empty || c == Str("") || c == Num(0)
  }

  // ---------------------------------------------------------------- decimal text

  predicate IsDigit(c: char) { '0' <= c <= '9' }

  predicate AllDigits(s: string) {
    forall i :: 0 <= i < |s| ==> IsDigit(s[i])
  }

  function DigitChar(d: nat): (c: char)
    requires d < 10
    ensures IsDigit(c)
  {
    ('0' as int + d) as char
  }

  /** The decimal text of a non-negative integer, as String(n) gives it. */
  function NatToString(n: nat): (s: string)
    ensures 1 <= |s| && AllDigits(s)
    ensures n < 10 <==> |s| == 1
  {
    if n < 10 then [DigitChar(n)] else NatToString(n / 10) + [DigitChar(n % 10)]
  }

  /** The value of a string of decimal digits. */
  function DigitsValue(s: string): nat
    requires AllDigits(s)
  {
    if s == [] then 0 else DigitsValue(s[..|s| - 1]) * 10 + (s[|s| - 1] as int - '0' as int)
  }

  lemma {:induction false} DigitsValueOfNatToString(n: nat)
    ensures DigitsValue(NatToString(n)) == n
  {
    if n >= 10 {
      var s := NatToString(n);
      assert s[..|s| - 1] == NatToString(n / 10);
      DigitsValueOfNatToString(n / 10);
    }
  }

  /** Distinct numbers have distinct decimal texts. */
  lemma NatToStringInjective(a: nat, b: nat)
    requires NatToString(a) == NatToString(b)
    ensures a == b
  {
    DigitsValueOfNatToString(a);
    DigitsValueOfNatToString(b);
  }

  /** String(n) for an integer. */
  function IntToString(n: int): string {
    if n < 0 then "-" + NatToString(-n) else NatToString(n)
  }

  // ---------------------------------------------------------------- coercions

  /** String(c). */
  function ToText(c: Cell): string {
    match c
    case Empty => "undefined"
    case Str(s) => s
    case Num(n) => IntToString(n)
    case DateVal(d) => d.text
  }

  /** String(c || fallback): a falsy cell (0 included) gives the fallback. */
  function TextOr(c: Cell, fallback: string): (s: string)
    ensures Falsy(c) ==> s == fallback
    ensures !Falsy(c) && c.Str? ==> s == c.s
  {
    if Falsy(c) then fallback else ToText(c)
  }

  /** Number(s) on a string, restricted to integers: surrounding whitespace is
      ignored, the empty string is 0, an optional sign may lead the digits;
      anything else is NaN (None). */
  function ParseNumber(s: string): (r: Option<int>)
    ensures Trim(s) == "" ==> r == Some(0)
    ensures AllDigits(Trim(s)) ==> r == Some(DigitsValue(Trim(s)))
  {
    var t := Trim(s);
    if t == "" then Some(0)
    else if |t| > 1 && t[0] == '-' && AllDigits(t[1..]) then Some(-(DigitsValue(t[1..]) as int))
    else if |t| > 1 && t[0] == '+' && AllDigits(t[1..]) then Some(DigitsValue(t[1..]))
    else if AllDigits(t) then Some(DigitsValue(t))
    else None
  }

  /** Number(c); None stands for NaN. A Date converts to its time value. */
  function JsNumber(c: Cell): Option<int> {
    match c
    case Empty => None
    case Str(s) => ParseNumber(s)
    case Num(n) => Some(n)
    case DateVal(d) => Some(d.time)
  }

  /** `Number(c) || 0`: NaN and 0 both give 0. */
  function NumberOr0(c: Cell): (n: int)
    ensures JsNumber(c) == None ==> n == 0
    ensures n != 0 ==> JsNumber(c) == Some(n)
    ensures JsNumber(c).Some? ==> n == JsNumber(c).value
  {
    match JsNumber(c)
    case None => 0
    case Some(v) => v
  }

  // ---------------------------------------------------------------- whitespace

  /** The characters JavaScript's `\s` and String.prototype.trim treat as white space. */
  predicate IsSpace(c: char) {
    || c == '\t' || c == '\n' || c == '\U{B}' || c == '\U{C}' || c == '\r' || c == ' '
    || c == '\U{A0}' || c == '\U{1680}' || ('\U{2000}' <= c <= '\U{200A}')
    || c == '\U{2028}' || c == '\U{2029}' || c == '\U{202F}' || c == '\U{205F}'
    || c == '\U{3000}' || c == '\U{FEFF}'
  }

  function TrimStart(s: string): (r: string)
    ensures |r| <= |s| && r == s[|s| - |r|..]
    ensures r != [] ==> !IsSpace(r[0])
    ensures forall i :: 0 <= i < |s| - |r| ==> IsSpace(s[i])
    ensures s != [] && IsSpace(s[0]) ==> |r| < |s|
  {
    if s != [] && IsSpace(s[0]) then TrimStart(s[1..]) else s
  }

  function TrimEnd(s: string): (r: string)
    ensures |r| <= |s| && r == s[..|r|]
    ensures r != [] ==> !IsSpace(r[|r| - 1])
    ensures forall i :: |r| <= i < |s| ==> IsSpace(s[i])
  {
    if s != [] && IsSpace(s[|s| - 1]) then TrimEnd(s[..|s| - 1]) else s
  }

  /** String.prototype.trim. */
  function Trim(s: string): string {
    TrimEnd(TrimStart(s))
  }

  /** `s.replace(/\s/g, '')`. */
  function RemoveSpaces(s: string): (r: string)
    ensures forall i :: 0 <= i < |r| ==> !IsSpace(r[i])
  {
    if s == [] then []
    else if IsSpace(s[0]) then RemoveSpaces(s[1..])
    else [s[0]] + RemoveSpaces(s[1..])
  }

  /** `s.replace(/\s+/g, ' ')`: every maximal run of white space becomes one space. */
  function CollapseSpaces(s: string): string
    decreases |s|
  {
    if s == [] then []
    else if IsSpace(s[0]) then " " + CollapseSpaces(TrimStart(s))
    else [s[0]] + CollapseSpaces(s[1..])
  }

  // ---------------------------------------------------------------- case

  /** toLowerCase on one character, for ASCII, Latin-1, the Latin Extended-A block
      U+0100..U+012F, O and U with horn, and the Vietnamese block U+1EA0..U+1EF9. */
  function LowerChar(c: char): char {
    if 'A' <= c <= 'Z' then (c as int + 32) as char
    else if '\U{C0}' <= c <= '\U{DE}' && c != '\U{D7}' then (c as int + 32) as char
    else if '\U{100}' <= c <= '\U{12F}' && c as int % 2 == 0 then (c as int + 1) as char
    else if c == '\U{1A0}' || c == '\U{1AF}' then (c as int + 1) as char
    else if '\U{1EA0}' <= c <= '\U{1EF8}' && c as int % 2 == 0 then (c as int + 1) as char
    else c
  }

  /** String.prototype.toLowerCase (see LowerChar for the ranges covered). */
  function ToLower(s: string): (r: string)
    ensures |r| == |s|
  {
    seq(|s|, i requires 0 <= i < |s| => LowerChar(s[i]))
  }

  // ---------------------------------------------------------------- split, join, pad

  /** `s.split(d)` for a one-character separator. */
  function Split(s: string, d: char): (parts: seq<string>)
    ensures |parts| >= 1
    ensures forall k :: 0 <= k < |parts| ==> d !in parts[k]
  {
    if s == [] then [""]
    else
      var rest := Split(s[1..], d);
      if s[0] == d then [""] + rest else [[s[0]] + rest[0]] + rest[1..]
  }

  /** `parts.join(d)`. */
  function Join(parts: seq<string>, d: string): string {
    if |parts| == 0 then ""
    else if |parts| == 1 then parts[0]
    else parts[0] + d + Join(parts[1..], d)
  }

  /** A string without the separator is one part. */
  lemma {:induction false} SplitNoSeparator(s: string, d: char)
    requires d !in s
    ensures Split(s, d) == [s]
  {
    if s != [] {
      SplitNoSeparator(s[1..], d);
      assert [s[0]] + s[1..] == s;
    }
  }

  /** Splitting at the first separator. */
  lemma {:induction false} SplitAtFirst(a: string, d: char, b: string)
    requires d !in a
    ensures Split(a + [d] + b, d) == [a] + Split(b, d)
  {
    if a == [] {
      assert a + [d] + b == [d] + b;
      assert ([d] + b)[1..] == b;
    } else {
      SplitAtFirst(a[1..], d, b);
      assert (a + [d] + b)[1..] == a[1..] + [d] + b;
      assert [a[0]] + a[1..] == a;
    }
  }

  /** Split undoes Join when no part holds the separator. */
  lemma {:induction false} SplitJoin(parts: seq<string>, d: char)
    requires |parts| >= 1
    requires forall k :: 0 <= k < |parts| ==> d !in parts[k]
    ensures Split(Join(parts, [d]), d) == parts
  {
    if |parts| == 1 {
      SplitNoSeparator(parts[0], d);
    } else {
      SplitJoin(parts[1..], d);
      SplitAtFirst(parts[0], d, Join(parts[1..], [d]));
      assert [parts[0]] + parts[1..] == parts;
    }
  }

  /** Joining one more part adds the separator and the part at the end. */
  lemma {:induction false} JoinAppend(parts: seq<string>, x: string, d: string)
    requires |parts| >= 1
    ensures Join(parts + [x], d) == Join(parts, d) + d + x
  {
    if |parts| > 1 {
      JoinAppend(parts[1..], x, d);
      assert (parts + [x])[1..] == parts[1..] + [x];
    } else {
      assert (parts + [x])[1..] == [x];
    }
  }

  /** A property every character of the parts and of the separator has, every
      character of the joined text has. */
  lemma {:induction false} JoinKeeps(parts: seq<string>, d: string, ok: char -> bool)
    requires forall k, i :: 0 <= k < |parts| && 0 <= i < |parts[k]| ==> ok(parts[k][i])
    requires forall i :: 0 <= i < |d| ==> ok(d[i])
    ensures forall i :: 0 <= i < |Join(parts, d)| ==> ok(Join(parts, d)[i])
  {
    if |parts| > 1 {
      JoinKeeps(parts[1..], d, ok);
      var rest := Join(parts[1..], d);
      forall i | 0 <= i < |Join(parts, d)|
        ensures ok(Join(parts, d)[i])
      {
        if i < |parts[0]| {
          assert Join(parts, d)[i] == parts[0][i];
        } else if i < |parts[0]| + |d| {
          assert Join(parts, d)[i] == d[i - |parts[0]|];
        } else {
          assert Join(parts, d)[i] == rest[i - |parts[0]| - |d|];
        }
      }
    } else if |parts| == 1 {
      assert forall i :: 0 <= i < |parts[0]| ==> ok(parts[0][i]);
    }
  }

  /** `s.padStart(n, '0')` style left padding with one filler character. */
  function PadStart(s: string, n: nat, fill: char): (r: string)
    ensures |r| == if |s| >= n then |s| else n
    ensures r[|r| - |s|..] == s
    ensures forall i :: 0 <= i < |r| - |s| ==> r[i] == fill
  {
    if |s| >= n then s else seq(n - |s|, _ => fill) + s
  }

  /** `s.slice(-2)`: the last two characters. */
  function LastTwo(s: string): (r: string)
    ensures |s| >= 2 ==> |r| == 2 && r == s[|s| - 2..]
  {
    if |s| >= 2 then s[|s| - 2..] else s
  }

  /** `('0' + n).slice(-2)`. */
  function TwoDigits(n: nat): string {
    LastTwo("0" + NatToString(n))
  }

  /** Below 100 a number is written as exactly two digits that read back as it. */
  lemma TwoDigitsSpec(n: nat)
    requires n < 100
    ensures |TwoDigits(n)| == 2 && AllDigits(TwoDigits(n)) && DigitsValue(TwoDigits(n)) == n
  {
    var t := NatToString(n);
    if n < 10 {
      var s := ['0', DigitChar(n)];
      assert TwoDigits(n) == s;
      assert s[..1] == ['0'] && s[..1][..0] == [];
      assert DigitsValue(s[..1]) == 0;
    } else {
      assert t == NatToString(n / 10) + [DigitChar(n % 10)];
      assert |t| == 2;
      assert TwoDigits(n) == t;
      DigitsValueOfNatToString(n);
    }
  }

  function StartsWith(s: string, prefix: string): bool {
    |prefix| <= |s| && s[..|prefix|] == prefix
  }

  /** `s.indexOf(c)`: the first position of c, or None for -1. */
  function IndexOf(s: string, c: char): (r: Option<nat>)
    ensures r.None? <==> c !in s
    ensures r.Some? ==> r.value < |s| && s[r.value] == c && c !in s[..r.value]
  {
    if s == [] then None
    else if s[0] == c then Some(0)
    else match IndexOf(s[1..], c)
      case None => None
      case Some(k) => assert s[..k + 1] == [s[0]] + s[1..][..k]; Some(k + 1)
  }
}
