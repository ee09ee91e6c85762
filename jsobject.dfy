/** Plain JavaScript objects with string keys and string values, as the payment
    code builds them: own properties in insertion order, assignment that keeps
    an existing key in place, delete, `Object.keys(o).sort()` and the
    `key=value&...` text built from an object. (Property names that look like
    array indices, which objects list first, do not occur among these keys.) */
module JsObject {
  import opened Js
  import opened UrlCodec

  type Entries = seq<(string, string)>

  function Keys(o: Entries): (ks: seq<string>)
    ensures |ks| == |o|
    ensures forall i :: 0 <= i < |o| ==> ks[i] == o[i].0
  {
    seq(|o|, i requires 0 <= i < |o| => o[i].0)
  }

  predicate DistinctKeys(o: Entries) {
    forall i, j :: 0 <= i < j < |o| ==> o[i].0 != o[j].0
  }

  /** `o[k]`, None for undefined. */
  function Get(o: Entries, k: string): (r: Option<string>)
    ensures r.None? <==> forall i :: 0 <= i < |o| ==> o[i].0 != k
  {
    if o == [] then None
    else if o[0].0 == k then Some(o[0].1)
    else Get(o[1..], k)
  }

  /** `String(o[k])`: the text of an undefined property is "undefined". */
  function Text(o: Entries, k: string): string {
    match Get(o, k)
    case None => "undefined"
    case Some(v) => v
  }

  /** `o[k] = v`: an existing key keeps its place, a new key goes last. */
  function Put(o: Entries, k: string, v: string): Entries {
    if o == [] then [(k, v)]
    else if o[0].0 == k then [(k, v)] + o[1..]
    else [o[0]] + Put(o[1..], k, v)
  }

  /** `delete o[k]`. */
  function Delete(o: Entries, k: string): (r: Entries)
    ensures |r| <= |o|
  {
    if o == [] then []
    else if o[0].0 == k then Delete(o[1..], k)
    else [o[0]] + Delete(o[1..], k)
  }

  /** Put reads back what it wrote and leaves every other key alone. */
  lemma {:induction false} PutGet(o: Entries, k: string, v: string, k2: string)
    ensures Get(Put(o, k, v), k2) == if k2 == k then Some(v) else Get(o, k2)
  {
    if o != [] && o[0].0 != k {
      PutGet(o[1..], k, v, k2);
    }
  }

  /** A key not yet present goes last. */
  lemma {:induction false} PutAppends(o: Entries, k: string, v: string)
    requires Get(o, k).None?
    ensures Put(o, k, v) == o + [(k, v)]
  {
    if o != [] {
      PutAppends(o[1..], k, v);
      assert [o[0]] + (o[1..] + [(k, v)]) == o + [(k, v)];
    }
  }

  /** A key already present keeps its place. */
  lemma PutKeepsKeys(o: Entries, k: string, v: string)
    requires Get(o, k).Some?
    ensures Keys(Put(o, k, v)) == Keys(o)
  {
    PutKeepsPlaces(o, k, v);
  }

  /** Assigning a present key changes no name at any position. */
  lemma {:induction false} PutKeepsPlaces(o: Entries, k: string, v: string)
    requires Get(o, k).Some?
    ensures |Put(o, k, v)| == |o|
    ensures forall i :: 0 <= i < |o| ==> Put(o, k, v)[i].0 == o[i].0
  {
    if o[0].0 != k {
      PutKeepsPlaces(o[1..], k, v);
      var r := Put(o, k, v);
      assert r == [o[0]] + Put(o[1..], k, v);
      forall i | 1 <= i < |o|
        ensures r[i].0 == o[i].0
      {
        assert r[i] == Put(o[1..], k, v)[i - 1] && o[i] == o[1..][i - 1];
      }
    }
  }

  /** Put keeps the keys distinct. */
  lemma PutDistinct(o: Entries, k: string, v: string)
    requires DistinctKeys(o)
    ensures DistinctKeys(Put(o, k, v))
  {
    if Get(o, k).None? {
      PutAppends(o, k, v);
    } else {
      PutKeepsPlaces(o, k, v);
    }
  }

  /** Delete removes the key and leaves every other key alone. */
  lemma {:induction false} DeleteGet(o: Entries, k: string, k2: string)
    ensures Get(Delete(o, k), k2) == if k2 == k then None else Get(o, k2)
  {
    if o != [] {
      DeleteGet(o[1..], k, k2);
    }
  }

  /** The tail of an object with distinct keys has distinct keys. */
  lemma TailDistinct(o: Entries)
    requires o != [] && DistinctKeys(o)
    ensures DistinctKeys(o[1..]) && Get(o[1..], o[0].0).None?
  {
    forall i, j | 0 <= i < j < |o[1..]|
      ensures o[1..][i].0 != o[1..][j].0
    {
      assert o[1..][i] == o[i + 1] && o[1..][j] == o[j + 1];
    }
    forall i | 0 <= i < |o[1..]|
      ensures o[1..][i].0 != o[0].0
    {
      assert o[1..][i] == o[i + 1];
    }
  }

  /** A pair whose key is absent from distinct entries can go in front. */
  lemma ConsDistinct(e: (string, string), rest: Entries)
    requires DistinctKeys(rest) && Get(rest, e.0).None?
    ensures DistinctKeys([e] + rest)
  {
    var r := [e] + rest;
    forall i, j | 0 <= i < j < |r|
      ensures r[i].0 != r[j].0
    {
      assert r[j] == rest[j - 1];
      if i > 0 {
        assert r[i] == rest[i - 1];
      }
    }
  }

  /** Delete keeps the keys distinct. */
  lemma {:induction false} DeleteDistinct(o: Entries, k: string)
    requires DistinctKeys(o)
    ensures DistinctKeys(Delete(o, k))
  {
    if o != [] {
      TailDistinct(o);
      DeleteDistinct(o[1..], k);
      if o[0].0 != k {
        DeleteGet(o[1..], k, o[0].0);
        ConsDistinct(o[0], Delete(o[1..], k));
      }
    }
  }

  /** Deleting a key that is absent changes nothing. */
  lemma {:induction false} DeleteAbsent(o: Entries, k: string)
    requires Get(o, k).None?
    ensures Delete(o, k) == o
  {
    if o != [] {
      DeleteAbsent(o[1..], k);
      assert [o[0]] + o[1..] == o;
    }
  }

  /** Deleting the last entry's key, absent from the rest, leaves the rest. */
  lemma {:induction false} DeleteLast(o: Entries, k: string, v: string)
    requires Get(o, k).None?
    ensures Delete(o + [(k, v)], k) == o
  {
    if o == [] {
      assert [(k, v)][1..] == [];
    } else {
      assert (o + [(k, v)])[1..] == o[1..] + [(k, v)];
      DeleteLast(o[1..], k, v);
      assert [o[0]] + o[1..] == o;
    }
  }

  // ---------------------------------------------------------------- ordering

  /** The default order of Array.prototype.sort on strings, by code point. */
  predicate Less(a: string, b: string) {
    if a == [] then b != []
    else b != [] && (a[0] < b[0] || (a[0] == b[0] && Less(a[1..], b[1..])))
  }

  lemma {:induction false} LessIrreflexive(a: string)
    ensures !Less(a, a)
  {
    if a != [] {
      LessIrreflexive(a[1..]);
    }
  }

  lemma {:induction false} LessAsymmetric(a: string, b: string)
    requires Less(a, b)
    ensures !Less(b, a)
  {
    if a != [] && a[0] == b[0] {
      LessAsymmetric(a[1..], b[1..]);
    }
  }

  lemma {:induction false} LessTransitive(a: string, b: string, c: string)
    requires Less(a, b) && Less(b, c)
    ensures Less(a, c)
  {
    if a != [] && a[0] == b[0] && b[0] == c[0] {
      LessTransitive(a[1..], b[1..], c[1..]);
    }
  }

  lemma {:induction false} LessTotal(a: string, b: string)
    requires a != b
    ensures Less(a, b) || Less(b, a)
  {
    if a != [] && b != [] && a[0] == b[0] {
      LessTotal(a[1..], b[1..]);
      assert a == [a[0]] + a[1..] && b == [b[0]] + b[1..];
    }
  }

  /** No element twice. */
  predicate NoDup(s: seq<string>) {
    forall i, j :: 0 <= i < j < |s| ==> s[i] != s[j]
  }

  /** Ascending without repeats. */
  predicate StrictlySorted(s: seq<string>) {
    forall i, j :: 0 <= i < j < |s| ==> Less(s[i], s[j])
  }

  /** Puts x before the first element not below it. */
  function InsertSorted(x: string, s: seq<string>): (r: seq<string>)
    ensures |r| == |s| + 1
  {
    if s == [] then [x]
    else if Less(s[0], x) then [s[0]] + InsertSorted(x, s[1..])
    else [x] + s
  }

  /** `keys.sort()`. */
  function SortStrings(s: seq<string>): (r: seq<string>)
    ensures |r| == |s|
  {
    if s == [] then [] else InsertSorted(s[0], SortStrings(s[1..]))
  }

  lemma {:induction false} InsertSortedSpec(x: string, s: seq<string>)
    requires StrictlySorted(s) && x !in s
    ensures StrictlySorted(InsertSorted(x, s))
  {
    if s != [] && Less(s[0], x) {
      InsertSortedSpec(x, s[1..]);
      InsertAfterHead(x, s);
    } else if s != [] {
      LessTotal(x, s[0]);
      var r := [x] + s;
      forall j | 1 < j < |r|
        ensures Less(x, r[j])
      {
        LessTransitive(x, s[0], s[j - 1]);
      }
    }
  }

  /** The step of InsertSortedSpec where x goes after the head. */
  lemma InsertAfterHead(x: string, s: seq<string>)
    requires StrictlySorted(s) && x !in s && s != [] && Less(s[0], x)
    requires StrictlySorted(InsertSorted(x, s[1..]))
    ensures StrictlySorted(InsertSorted(x, s))
  {
    var r := InsertSorted(x, s);
    var t := InsertSorted(x, s[1..]);
    assert r == [s[0]] + t;
    InsertedAbove(x, s[1..], s[0]);
    forall i, j | 0 <= i < j < |r|
      ensures Less(r[i], r[j])
    {
      assert r[j] == t[j - 1];
      if i > 0 {
        assert r[i] == t[i - 1];
      }
    }
  }

  /** A bound below x and below every element is below everything inserted. */
  lemma {:induction false} InsertedAbove(x: string, s: seq<string>, lo: string)
    requires Less(lo, x) && forall i :: 0 <= i < |s| ==> Less(lo, s[i])
    ensures forall j :: 0 <= j < |InsertSorted(x, s)| ==> Less(lo, InsertSorted(x, s)[j])
  {
    if s != [] && Less(s[0], x) {
      InsertedAbove(x, s[1..], lo);
      assert InsertSorted(x, s) == [s[0]] + InsertSorted(x, s[1..]);
    }
  }

  /** The sorted keys are a permutation of the keys. */
  lemma {:induction false} SortStringsPermutes(s: seq<string>)
    ensures multiset(SortStrings(s)) == multiset(s)
  {
    if s != [] {
      SortStringsPermutes(s[1..]);
      InsertedMultiset(s[0], SortStrings(s[1..]));
      assert s == [s[0]] + s[1..];
    }
  }

  /** Keys without repeats come out strictly ascending. */
  lemma {:induction false} SortStringsStrict(s: seq<string>)
    requires NoDup(s)
    ensures StrictlySorted(SortStrings(s))
  {
    if s != [] {
      var t := SortStrings(s[1..]);
      assert NoDup(s[1..]) by {
        forall i, j | 0 <= i < j < |s[1..]|
          ensures s[1..][i] != s[1..][j]
        {
          assert s[1..][i] == s[i + 1] && s[1..][j] == s[j + 1];
        }
      }
      SortStringsStrict(s[1..]);
      assert s[0] !in s[1..];
      SortStringsPermutes(s[1..]);
      assert s[0] !in multiset(t);
      InsertSortedSpec(s[0], t);
    }
  }

  lemma {:induction false} InsertedMultiset(x: string, s: seq<string>)
    ensures multiset(InsertSorted(x, s)) == multiset(s) + multiset{x}
  {
    if s != [] && Less(s[0], x) {
      InsertedMultiset(x, s[1..]);
      assert s == [s[0]] + s[1..];
    }
  }

  /** Sorting a list that is already strictly ascending leaves it as it is. */
  lemma {:induction false} SortStrictlySorted(s: seq<string>)
    requires StrictlySorted(s)
    ensures SortStrings(s) == s
  {
    if s != [] {
      SortStrictlySorted(s[1..]);
      var t := s[1..];
      if t != [] {
        LessAsymmetric(s[0], t[0]);
      }
      assert [s[0]] + t == s;
    }
  }

  // ---------------------------------------------------------------- sortObject

  /** The value sortObject assigns to key k: the original one, or its form
      encoding when `encode` is set. */
  function Assigned(o: Entries, k: string, encode: bool): string {
    if encode then FormEncode(Text(o, k)) else Text(o, k)
  }

  /** The object sortObject builds: the keys `ks`, assigned in order. */
  function SortFold(o: Entries, ks: seq<string>, encode: bool): Entries {
    if ks == [] then []
    else Put(SortFold(o, ks[..|ks| - 1], encode), ks[|ks| - 1], Assigned(o, ks[|ks| - 1], encode))
  }

  /** `sortObject(o)`: the keys in ascending order. */
  function SortObject(o: Entries, encode: bool): Entries {
    SortFold(o, SortStrings(Keys(o)), encode)
  }

  /** Assigning keys without repeats lists them in that order. */
  lemma {:induction false} SortFoldEntries(o: Entries, ks: seq<string>, encode: bool)
    requires NoDup(ks)
    ensures |SortFold(o, ks, encode)| == |ks|
    ensures forall i :: 0 <= i < |ks| ==> SortFold(o, ks, encode)[i] == (ks[i], Assigned(o, ks[i], encode))
  {
    if ks != [] {
      var n := |ks| - 1;
      var prev := SortFold(o, ks[..n], encode);
      SortFoldEntries(o, ks[..n], encode);
      assert Keys(prev) == ks[..n];
      assert DistinctKeys(prev);
      assert Get(prev, ks[n]).None?;
      PutAppends(prev, ks[n], Assigned(o, ks[n], encode));
    }
  }

  /** sortObject lists every key of the object once, in ascending order, each
      with the value it assigns to that key. */
  lemma SortObjectSpec(o: Entries, encode: bool)
    requires DistinctKeys(o)
    ensures |SortObject(o, encode)| == |o|
    ensures StrictlySorted(Keys(SortObject(o, encode)))
    ensures multiset(Keys(SortObject(o, encode))) == multiset(Keys(o))
    ensures forall i :: 0 <= i < |o| ==>
      SortObject(o, encode)[i].1 == Assigned(o, SortObject(o, encode)[i].0, encode)
  {
    var ks := SortStrings(Keys(o));
    SortStringsPermutes(Keys(o));
    SortStringsStrict(Keys(o));
    LessStrictNoDup(ks);
    SortFoldEntries(o, ks, encode);
    assert Keys(SortObject(o, encode)) == ks;
  }

  lemma LessStrictNoDup(s: seq<string>)
    requires StrictlySorted(s)
    ensures NoDup(s)
  {
    forall i, j | 0 <= i < j < |s|
      ensures s[i] != s[j]
    {
      if s[i] == s[j] {
        LessIrreflexive(s[i]);
      }
    }
  }

  /** In an object with distinct keys, each key reads its own entry. */
  lemma {:induction false} GetDistinct(o: Entries, i: nat)
    requires DistinctKeys(o) && i < |o|
    ensures Get(o, o[i].0) == Some(o[i].1)
  {
    if i > 0 {
      GetDistinct(o[1..], i - 1);
    }
  }

  /** An object whose keys are already ascending is rebuilt unchanged by the
      sortObject that does not encode. */
  lemma SortObjectOfSorted(o: Entries)
    requires StrictlySorted(Keys(o))
    ensures SortObject(o, false) == o
  {
    LessStrictNoDup(Keys(o));
    SortStrictlySorted(Keys(o));
    SortFoldEntries(o, Keys(o), false);
    forall i | 0 <= i < |o|
      ensures SortObject(o, false)[i] == o[i]
    {
      GetDistinct(o, i);
    }
  }

  // ---------------------------------------------------------------- sign data

  /** `key=value` for each entry. */
  function Pairs(o: Entries): (ps: seq<string>)
    ensures |ps| == |o|
    ensures forall i :: 0 <= i < |o| ==> ps[i] == o[i].0 + "=" + o[i].1
  {
    seq(|o|, i requires 0 <= i < |o| => o[i].0 + "=" + o[i].1)
  }

  /** `Object.keys(o).map(k => `${k}=${o[k]}`).join('&')`. */
  function QueryText(o: Entries): string {
    Join(Pairs(o), "&")
  }

  /** One more entry adds `&key=value` at the end. */
  lemma QueryTextAppend(o: Entries, k: string, v: string)
    requires |o| >= 1
    ensures QueryText(o + [(k, v)]) == QueryText(o) + "&" + (k + "=" + v)
  {
    assert Pairs(o + [(k, v)]) == Pairs(o) + [k + "=" + v];
    JoinAppend(Pairs(o), k + "=" + v, "&");
  }
}
