/** The signature check the payment return and notification routes share: the
    raw query of the request URL is split into `vnp_` parameters, the hash
    fields are dropped, the rest is sorted and joined into `key=value&...`
    text, and its HMAC is compared with the hash the request carries. */
module VnpaySignature {
  import opened Js
  import opened UrlCodec
  import opened JsObject
  import opened Vnpay

  /** A pair split at its first `=`; None when it has none. */
  function PairParts(pair: string): (r: Option<(string, string)>)
    ensures r.Some? ==> '=' !in r.value.0 && pair == r.value.0 + "=" + r.value.1
    ensures r.None? <==> '=' !in pair
  {
    match IndexOf(pair, '=')
    case None => None
    case Some(i) => assert pair == pair[..i] + "=" + pair[i + 1..]; Some((pair[..i], pair[i + 1..]))
  }

  /** One round of the loop: a pair with `=` whose name starts with `vnp_` is
      assigned; any other pair is skipped. */
  function ParamStep(params: Entries, pair: string): Entries {
    match PairParts(pair)
    case None => params
    case Some((k, v)) => if StartsWith(k, "vnp_") then Put(params, k, v) else params
  }

  /** rawParams after the loop over `pairs`. */
  function RawParams(pairs: seq<string>): Entries
    decreases |pairs|
  {
    if pairs == [] then [] else ParamStep(RawParams(pairs[..|pairs| - 1]), pairs[|pairs| - 1])
  }

  /** The value of the last pair named k: the reference reading of the loop. */
  function LastValue(pairs: seq<string>, k: string): Option<string>
    decreases |pairs|
  {
    if pairs == [] then None
    else
      var last := PairParts(pairs[|pairs| - 1]);
      if last.Some? && last.value.0 == k then Some(last.value.1)
      else LastValue(pairs[..|pairs| - 1], k)
  }

  /** A `vnp_` name reads the value of its last pair; every other name is
      absent. */
  lemma {:induction false} RawParamsGet(pairs: seq<string>, k: string)
    ensures Get(RawParams(pairs), k) == if StartsWith(k, "vnp_") then LastValue(pairs, k) else None
  {
    if pairs != [] {
      var prefix := pairs[..|pairs| - 1];
      RawParamsGet(prefix, k);
      match PairParts(pairs[|pairs| - 1])
      case None =>
      case Some((k2, v)) =>
        if StartsWith(k2, "vnp_") {
          PutGet(RawParams(prefix), k2, v, k);
        }
    }
  }

  lemma {:induction false} RawParamsDistinct(pairs: seq<string>)
    ensures DistinctKeys(RawParams(pairs))
  {
    if pairs != [] {
      RawParamsDistinct(pairs[..|pairs| - 1]);
      match PairParts(pairs[|pairs| - 1])
      case None =>
      case Some((k, v)) =>
        PutDistinct(RawParams(pairs[..|pairs| - 1]), k, v);
    }
  }

  /** The loop that fills rawParams from the query. */
  method CollectRawParams(query: string) returns (raw: Entries)
    ensures raw == RawParams(Split(query, '&'))
    ensures DistinctKeys(raw)
    ensures forall k :: Get(raw, k) == if StartsWith(k, "vnp_") then LastValue(Split(query, '&'), k) else None
  {
    var pairs := Split(query, '&');
    raw := [];
    var i := 0;
    while i < |pairs|
      invariant 0 <= i <= |pairs|
      invariant raw == RawParams(pairs[..i])
    {
      var pair := pairs[i];
      var idx := IndexOf(pair, '=');
      if idx.Some? {
        var key := pair[..idx.value];
        var value := pair[idx.value + 1..];
        if StartsWith(key, "vnp_") {
          raw := Put(raw, key, value);
        }
      }
      assert pairs[..i + 1][..i] == pairs[..i];
      i := i + 1;
    }
    assert pairs[..|pairs|] == pairs;
    RawParamsDistinct(pairs);
    forall k
      ensures Get(raw, k) == if StartsWith(k, "vnp_") then LastValue(pairs, k) else None
    {
      RawParamsGet(pairs, k);
    }
  }

  /** The object that is signed: rawParams without the hash fields, sorted. */
  function SignedObject(url: string): Entries {
    SortObject(Unhashed(RawParams(Split(SearchOf(url), '&'))), false)
  }

  /** The text that is signed. */
  function SignData(url: string): string {
    QueryText(SignedObject(url))
  }

  /** verifyVNPaySignature; None when the secret is unset and createHmac
      throws. */
  method VerifySignature(mac: Mac, secret: Option<string>, url: string, secureHash: string)
    returns (valid: Option<bool>)
    ensures secret.None? <==> valid.None?
    ensures secret.Some? ==> valid == Some(Sign(mac, secret.value, SignData(url)) == secureHash)
    ensures valid == Some(true) ==> ReadHex(secureHash) == Some(mac(Utf8(secret.value), Utf8(SignData(url))))
  {
    var raw := CollectRawParams(SearchOf(url));
    raw := Delete(raw, HashKey);
    raw := Delete(raw, HashTypeKey);
    var sorted := SortObject(raw, false);
    var signData := QueryText(sorted);
    if secret.None? {
      return None;
    }
    valid := Some(Sign(mac, secret.value, signData) == secureHash);
  }

  /** The signed object lists, in ascending order, every `vnp_` name of the
      query except the two hash fields, each with the value of its last pair. */
  lemma SignedObjectSpec(url: string)
    ensures StrictlySorted(Keys(SignedObject(url)))
    ensures forall i :: 0 <= i < |SignedObject(url)| ==>
      var k := SignedObject(url)[i].0;
      && k != HashKey && k != HashTypeKey && StartsWith(k, "vnp_")
      && LastValue(Split(SearchOf(url), '&'), k) == Some(SignedObject(url)[i].1)
  {
    var pairs := Split(SearchOf(url), '&');
    var raw := RawParams(pairs);
    var u := Unhashed(raw);
    var o := SignedObject(url);
    RawParamsDistinct(pairs);
    DeleteDistinct(raw, HashKey);
    DeleteDistinct(Delete(raw, HashKey), HashTypeKey);
    SortObjectSpec(u, false);
    forall i | 0 <= i < |o|
      ensures var k := o[i].0;
        && k != HashKey && k != HashTypeKey && StartsWith(k, "vnp_")
        && LastValue(pairs, k) == Some(o[i].1)
    {
      var k := o[i].0;
      assert k in multiset(Keys(u));
      var m :| 0 <= m < |u| && Keys(u)[m] == k;
      assert Get(u, k).Some?;
      DeleteGet(Delete(raw, HashKey), HashTypeKey, k);
      DeleteGet(raw, HashKey, k);
      RawParamsGet(pairs, k);
    }
  }

  // ------------------------------------------------------------ round trip

  /** Text the URL parser keeps as it is and with no `&` to split on. */
  predicate QuerySafe(t: string) {
    forall i :: 0 <= i < |t| ==> !QueryEscaped(t[i]) && t[i] != '&'
  }

  /** A name without `=` splits back at the `=` that follows it. */
  lemma FirstEquals(k: string, v: string)
    requires '=' !in k
    ensures PairParts(k + "=" + v) == Some((k, v))
  {
    var p := k + "=" + v;
    assert p[|k|] == '=';
    var r := PairParts(p);
    assert r.value.0 == p[..|k|] == k;
    assert r.value.1 == p[|k| + 1..] == v;
  }

  /** A protocol name followed by `=` and a safe value is a safe pair. */
  lemma PairSafe(k: string, v: string)
    requires ParamName(k) && QuerySafe(v)
    ensures QuerySafe(k + "=" + v)
  {
    var p := k + "=" + v;
    forall i | 0 <= i < |p|
      ensures !QueryEscaped(p[i]) && p[i] != '&'
    {
      if i < |k| {
        assert p[i] == k[i] && NameChar(k[i]);
      } else if i > |k| {
        assert p[i] == v[i - |k| - 1];
      }
    }
  }

  /** Reading back the pairs of an object with distinct protocol names gives
      the object. */
  lemma {:induction false} RawParamsOfEntries(o: Entries)
    requires DistinctKeys(o)
    requires forall i :: 0 <= i < |o| ==> ParamName(o[i].0)
    ensures RawParams(Pairs(o)) == o
  {
    if o != [] {
      var n := |o|;
      var init := o[..n - 1];
      assert Pairs(o)[..n - 1] == Pairs(init);
      assert DistinctKeys(init) by {
        forall i, j | 0 <= i < j < |init|
          ensures init[i].0 != init[j].0
        {
          assert init[i] == o[i] && init[j] == o[j];
        }
      }
      RawParamsOfEntries(init);
      var k, v := o[n - 1].0, o[n - 1].1;
      assert '=' !in k by {
        forall i | 0 <= i < |k|
          ensures k[i] != '='
        {
          assert NameChar(k[i]);
        }
      }
      FirstEquals(k, v);
      assert StartsWith(k, "vnp_");
      assert Get(init, k).None? by {
        forall i | 0 <= i < |init|
          ensures init[i].0 != k
        {
          assert init[i] == o[i];
        }
      }
      PutAppends(init, k, v);
      assert init + [(k, v)] == o;
    }
  }

  /** The search of `base?q` is q when base has no `?` or `#` and the parser
      keeps q as it is. */
  lemma SearchOfQuery(base: string, q: string)
    requires '?' !in base && '#' !in base
    requires forall i :: 0 <= i < |q| ==> !QueryEscaped(q[i])
    ensures SearchOf(base + "?" + q) == q
  {
    var url := base + "?" + q;
    assert '#' !in url by {
      forall i | 0 <= i < |url|
        ensures url[i] != '#'
      {
        if i > |base| {
          assert url[i] == q[i - |base| - 1];
        }
      }
    }
    assert url[|base|] == '?';
    assert IndexOf(url, '?') == Some(|base|);
    assert url[|base| + 1..] == q;
    QueryEncodeKeeps(q);
  }

  /** The query text of an object with distinct protocol names and safe
      values, put after `?`, reads back as that object. */
  lemma QueryReadBack(base: string, f: Entries)
    requires '?' !in base && '#' !in base
    requires DistinctKeys(f)
    requires forall i :: 0 <= i < |f| ==> ParamName(f[i].0) && QuerySafe(f[i].1)
    ensures RawParams(Split(SearchOf(base + "?" + QueryText(f)), '&')) == f
  {
    var ps := Pairs(f);
    forall k | 0 <= k < |ps|
      ensures QuerySafe(ps[k])
    {
      PairSafe(f[k].0, f[k].1);
    }
    JoinKeeps(ps, "&", c => !QueryEscaped(c));
    SearchOfQuery(base, QueryText(f));
    if f == [] {
      assert Split("", '&') == [""];
      assert PairParts("") == None;
      assert RawParams([""]) == RawParams([]);
    } else {
      assert "&" == ['&'];
      SplitJoin(ps, '&');
      RawParamsOfEntries(f);
    }
  }

  /** A URL that carries a sorted object of protocol names with safe values,
      followed by its hash, reads back that object and that hash, so its
      signature data is the object's query text. */
  lemma SignDataRoundTrip(base: string, o: Entries, h: string)
    requires '?' !in base && '#' !in base
    requires StrictlySorted(Keys(o))
    requires forall i :: 0 <= i < |o| ==>
      ParamName(o[i].0) && o[i].0 != HashKey && o[i].0 != HashTypeKey && QuerySafe(o[i].1)
    requires QuerySafe(h)
    ensures var url := base + "?" + QueryText(o + [(HashKey, h)]);
      && RawParams(Split(SearchOf(url), '&')) == o + [(HashKey, h)]
      && SignedObject(url) == o
      && SignData(url) == QueryText(o)
  {
    var f := o + [(HashKey, h)];
    LessStrictNoDup(Keys(o));
    assert ParamName(HashKey);
    assert DistinctKeys(f) by {
      forall i, j | 0 <= i < j < |f|
        ensures f[i].0 != f[j].0
      {
        assert Keys(o)[i] == f[i].0;
        if j < |o| {
          assert Keys(o)[j] == f[j].0;
        }
      }
    }
    QueryReadBack(base, f);
    assert Get(o, HashKey).None?;
    DeleteLast(o, HashKey, h);
    assert Get(o, HashTypeKey).None?;
    DeleteAbsent(o, HashTypeKey);
    SortObjectOfSorted(o);
  }

  /** Without apostrophes in the fields, every signed value is safe in a
      query. */
  lemma SignedValuesSafe(c: Config, r: PaymentRequest, d: DateParts)
    requires forall j :: 0 <= j < |FieldValues(c, r, d)| ==> '\'' !in FieldValues(c, r, d)[j]
    ensures forall i :: 0 <= i < |SignedParams(c, r, d)| ==> QuerySafe(SignedParams(c, r, d)[i].1)
  {
    var p := Params(c, r, d);
    var s := SignedParams(c, r, d);
    var vs := FieldValues(c, r, d);
    ParamsSpec(c, r, d);
    SortObjectSpec(p, true);
    forall i | 0 <= i < |s|
      ensures QuerySafe(s[i].1)
    {
      var k := s[i].0;
      assert k in multiset(Keys(p));
      var m :| 0 <= m < |p| && Keys(p)[m] == k;
      assert k == ParamKeys[m];
      FormEncodeQuerySafe(vs[m]);
    }
  }

  /** A payment URL made while every field is free of apostrophes passes the
      return and notification check: the routes read back the signed object
      and the hash that was appended, and signing the data they rebuild gives
      that hash again. */
  lemma PaymentUrlVerifies(c: Config, r: PaymentRequest, d: DateParts, mac: Mac, secret: string)
    requires '?' !in PayUrl(c) && '#' !in PayUrl(c)
    requires forall j :: 0 <= j < |FieldValues(c, r, d)| ==> '\'' !in FieldValues(c, r, d)[j]
    ensures var url := PaymentUrl(c, r, d, mac, secret);
      && SignedObject(url) == SignedParams(c, r, d)
      && Get(RawParams(Split(SearchOf(url), '&')), HashKey) == Some(Sign(mac, secret, SignData(url)))
  {
    var s := SignedParams(c, r, d);
    var h := Sign(mac, secret, QueryText(s));
    SignedParamsSpec(c, r, d);
    SignedValuesSafe(c, r, d);
    HexDigestPlain(mac(Utf8(secret), Utf8(QueryText(s))));
    assert Get(s, HashKey).None?;
    PutAppends(s, HashKey, h);
    SignDataRoundTrip(PayUrl(c), s, h);
    PutGet(s, HashKey, h, HashKey);
  }
}
