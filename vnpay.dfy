/** The VNPay client library: the payment URL a checkout redirects to (fixed
    fields, creation date, sorted and form-encoded parameters, a hex HMAC over
    the `key=value&...` text, the hash appended last), the check of a returned
    parameter object, and the table of response descriptions. */
module Vnpay {
  import opened Js
  import opened UrlCodec
  import opened JsObject

  // ---------------------------------------------------------------- configuration

  /** The environment: each entry None when the variable is unset. */
  datatype Config = Config(tmnCode: Option<string>, hashSecret: Option<string>,
                           payUrl: Option<string>, returnUrl: Option<string>)

  const DefaultPayUrl: string := "https://sandbox.vnpayment.vn/paymentv2/vpcpay.html"
  const DefaultReturnUrl: string := "http://localhost:3000/api/payment/callback"

  /** `process.env.X || fallback`: unset and empty both fall back. */
  function EnvOr(v: Option<string>, fallback: string): (r: string)
    ensures v.Some? && v.value != "" ==> r == v.value
    ensures v.None? || v.value == "" ==> r == fallback
  {
    if v.Some? && v.value != "" then v.value else fallback
  }

  function PayUrl(c: Config): string { EnvOr(c.payUrl, DefaultPayUrl) }

  function ReturnUrl(c: Config): string { EnvOr(c.returnUrl, DefaultReturnUrl) }

  /** An HMAC-SHA512 (RFC 2104 over SHA-512): key bytes and message bytes to
      the 64-byte tag. */
  type Mac = (seq<byte>, seq<byte>) -> seq<byte>

  /** `createHmac('sha512', secret).update(data, 'utf-8').digest('hex')`. */
  function Sign(mac: Mac, secret: string, data: string): (h: string)
    ensures ReadHex(h) == Some(mac(Utf8(secret), Utf8(data)))
  {
    HexDigestRoundTrip(mac(Utf8(secret), Utf8(data)));
    HexDigest(mac(Utf8(secret), Utf8(data)))
  }

  /** A digest holds only lower-case hex digits. */
  lemma {:induction false} HexDigestPlain(bs: seq<byte>)
    ensures forall i :: 0 <= i < |HexDigest(bs)| ==>
      ('0' <= HexDigest(bs)[i] <= '9' || 'a' <= HexDigest(bs)[i] <= 'f')
  {
    if bs != [] {
      HexDigestPlain(bs[1..]);
      assert HexDigest(bs) == [HexLower(bs[0] / 16), HexLower(bs[0] % 16)] + HexDigest(bs[1..]);
    }
  }

  // ---------------------------------------------------------------- parameter names

  const VersionKey: string := "vnp_Version"
  const CommandKey: string := "vnp_Command"
  const TmnCodeKey: string := "vnp_TmnCode"
  const LocaleKey: string := "vnp_Locale"
  const CurrCodeKey: string := "vnp_CurrCode"
  const TxnRefKey: string := "vnp_TxnRef"
  const OrderInfoKey: string := "vnp_OrderInfo"
  const OrderTypeKey: string := "vnp_OrderType"
  const AmountKey: string := "vnp_Amount"
  const ReturnUrlKey: string := "vnp_ReturnUrl"
  const IpAddrKey: string := "vnp_IpAddr"
  const CreateDateKey: string := "vnp_CreateDate"
  const BankCodeKey: string := "vnp_BankCode"
  const HashKey: string := "vnp_SecureHash"
  const HashTypeKey: string := "vnp_SecureHashType"

  predicate NameChar(c: char) { 'A' <= c <= 'Z' || 'a' <= c <= 'z' || c == '_' }

  /** A parameter name of the protocol: `vnp_` and then letters. */
  predicate ParamName(k: string) {
    |k| >= 4 && k[..4] == "vnp_" && forall i :: 0 <= i < |k| ==> NameChar(k[i])
  }

  // ---------------------------------------------------------------- createDate

  /** The wall-clock fields of `new Date()` in local time; month0 counts from 0. */
  datatype DateParts = DateParts(year: nat, month0: nat, day: nat, hours: nat, minutes: nat, seconds: nat)

  /** `yyyyMMddHHmmss`. */
  function CreateDate(d: DateParts): string {
    NatToString(d.year) + TwoDigits(d.month0 + 1) + TwoDigits(d.day)
      + TwoDigits(d.hours) + TwoDigits(d.minutes) + TwoDigits(d.seconds)
  }

  lemma FourDigitYear(y: nat)
    requires 1000 <= y <= 9999
    ensures |NatToString(y)| == 4
  {
    assert |NatToString(y / 10 / 10)| == 2;
  }

  /** Places i to j of s are digits that read as v. */
  predicate Reads(s: string, i: nat, j: nat, v: nat) {
    i <= j <= |s| && AllDigits(s[i..j]) && DigitsValue(s[i..j]) == v
  }

  /** A piece written after a prefix sits right after it. */
  lemma Pieces(a: string, b: string)
    ensures (a + b)[..|a|] == a && (a + b)[|a|..] == b
  {
  }

  lemma ReadsAfter(s: string, a: string, b: string, v: nat)
    requires s == a + b && AllDigits(b) && DigitsValue(b) == v
    ensures Reads(s, |a|, |s|, v)
  {
    assert s[|a|..|s|] == b;
  }

  lemma ReadsPrefix(s: string, a: string, b: string, i: nat, j: nat, v: nat)
    requires s == a + b && Reads(a, i, j, v)
    ensures Reads(s, i, j, v)
  {
    assert s[i..j] == a[i..j];
  }

  /** Six digit strings of widths 4, 2, 2, 2, 2, 2 written one after another. */
  lemma SixPieces(y: string, mo: string, dd: string, h: string, mi: string, se: string,
                  vy: nat, vmo: nat, vdd: nat, vh: nat, vmi: nat, vse: nat)
    requires |y| == 4 && AllDigits(y) && DigitsValue(y) == vy
    requires |mo| == 2 && AllDigits(mo) && DigitsValue(mo) == vmo
    requires |dd| == 2 && AllDigits(dd) && DigitsValue(dd) == vdd
    requires |h| == 2 && AllDigits(h) && DigitsValue(h) == vh
    requires |mi| == 2 && AllDigits(mi) && DigitsValue(mi) == vmi
    requires |se| == 2 && AllDigits(se) && DigitsValue(se) == vse
    ensures var s := y + mo + dd + h + mi + se;
      && |s| == 14 && AllDigits(s)
      && Reads(s, 0, 4, vy) && Reads(s, 4, 6, vmo) && Reads(s, 6, 8, vdd)
      && Reads(s, 8, 10, vh) && Reads(s, 10, 12, vmi) && Reads(s, 12, 14, vse)
  {
    var s1 := y + mo;
    var s2 := s1 + dd;
    var s3 := s2 + h;
    var s4 := s3 + mi;
    var s := s4 + se;
    ReadsAfter(y, [], y, vy);
    ReadsPrefix(s1, y, mo, 0, 4, vy);
    ReadsAfter(s1, y, mo, vmo);
    ReadsPrefix(s2, s1, dd, 0, 4, vy);
    ReadsPrefix(s2, s1, dd, 4, 6, vmo);
    ReadsAfter(s2, s1, dd, vdd);
    ReadsPrefix(s3, s2, h, 0, 4, vy);
    ReadsPrefix(s3, s2, h, 4, 6, vmo);
    ReadsPrefix(s3, s2, h, 6, 8, vdd);
    ReadsAfter(s3, s2, h, vh);
    ReadsPrefix(s4, s3, mi, 0, 4, vy);
    ReadsPrefix(s4, s3, mi, 4, 6, vmo);
    ReadsPrefix(s4, s3, mi, 6, 8, vdd);
    ReadsPrefix(s4, s3, mi, 8, 10, vh);
    ReadsAfter(s4, s3, mi, vmi);
    ReadsPrefix(s, s4, se, 0, 4, vy);
    ReadsPrefix(s, s4, se, 4, 6, vmo);
    ReadsPrefix(s, s4, se, 6, 8, vdd);
    ReadsPrefix(s, s4, se, 8, 10, vh);
    ReadsPrefix(s, s4, se, 10, 12, vmi);
    ReadsAfter(s, s4, se, vse);
    assert AllDigits(s) by {
      forall i | 0 <= i < 14
        ensures IsDigit(s[i])
      {
        if i < 4 { assert s[i] == s[0..4][i]; }
        else if i < 6 { assert s[i] == s[4..6][i - 4]; }
        else if i < 8 { assert s[i] == s[6..8][i - 6]; }
        else if i < 10 { assert s[i] == s[8..10][i - 8]; }
        else if i < 12 { assert s[i] == s[10..12][i - 10]; }
        else { assert s[i] == s[12..14][i - 12]; }
      }
    }
  }

  /** For a four-digit year and in-range fields the creation date is 14 digits,
      and each field reads back from its own places. */
  lemma CreateDateSpec(d: DateParts)
    requires 1000 <= d.year <= 9999 && d.month0 < 12 && 1 <= d.day <= 31
    requires d.hours < 24 && d.minutes < 60 && d.seconds < 60
    ensures |CreateDate(d)| == 14 && AllDigits(CreateDate(d))
    ensures Reads(CreateDate(d), 0, 4, d.year) && Reads(CreateDate(d), 4, 6, d.month0 + 1)
    ensures Reads(CreateDate(d), 6, 8, d.day) && Reads(CreateDate(d), 8, 10, d.hours)
    ensures Reads(CreateDate(d), 10, 12, d.minutes) && Reads(CreateDate(d), 12, 14, d.seconds)
  {
    FourDigitYear(d.year);
    DigitsValueOfNatToString(d.year);
    TwoDigitsSpec(d.month0 + 1);
    TwoDigitsSpec(d.day);
    TwoDigitsSpec(d.hours);
    TwoDigitsSpec(d.minutes);
    TwoDigitsSpec(d.seconds);
    SixPieces(NatToString(d.year), TwoDigits(d.month0 + 1), TwoDigits(d.day), TwoDigits(d.hours),
              TwoDigits(d.minutes), TwoDigits(d.seconds),
              d.year, d.month0 + 1, d.day, d.hours, d.minutes, d.seconds);
  }

  // ---------------------------------------------------------------- createPaymentUrl

  /** The arguments of createPaymentUrl; `amount` in whole VND, `locale` and
      `bankCode` None when not passed. */
  datatype PaymentRequest = PaymentRequest(amount: nat, orderId: string, orderInfo: string, ipAddr: string,
                                           locale: Option<string>, bankCode: Option<string>)

  /** `locale = 'vn'`: the default applies only when the argument is absent. */
  function LocaleOf(r: PaymentRequest): string {
    if r.locale.None? then "vn" else r.locale.value
  }

  /** `if (bankCode)`. */
  predicate BankGiven(r: PaymentRequest) {
    r.bankCode.Some? && r.bankCode.value != ""
  }

  /** The terminal code; an unset variable is stored as undefined and encodes
      as the text "undefined". */
  function TmnCodeOf(c: Config): string {
    if c.tmnCode.None? then "undefined" else c.tmnCode.value
  }

  /** The parameter object, assigned field by field. */
  function Params(c: Config, r: PaymentRequest, d: DateParts): Entries {
    var p12 := FixedParams(c, r, d);
    if BankGiven(r) then Put(p12, BankCodeKey, r.bankCode.value) else p12
  }

  /** The twelve assignments made for every payment. */
  function FixedParams(c: Config, r: PaymentRequest, d: DateParts): Entries {
    var p1 := Put([], VersionKey, "2.1.0");
    var p2 := Put(p1, CommandKey, "pay");
    var p3 := Put(p2, TmnCodeKey, TmnCodeOf(c));
    var p4 := Put(p3, LocaleKey, LocaleOf(r));
    var p5 := Put(p4, CurrCodeKey, "VND");
    var p6 := Put(p5, TxnRefKey, r.orderId);
    var p7 := Put(p6, OrderInfoKey, r.orderInfo);
    var p8 := Put(p7, OrderTypeKey, "other");
    var p9 := Put(p8, AmountKey, NatToString(r.amount * 100));
    var p10 := Put(p9, ReturnUrlKey, ReturnUrl(c));
    var p11 := Put(p10, IpAddrKey, r.ipAddr);
    Put(p11, CreateDateKey, CreateDate(d))
  }

  /** The parameter names in the order createPaymentUrl assigns them. */
  const ParamKeys: seq<string> := [VersionKey, CommandKey, TmnCodeKey, LocaleKey, CurrCodeKey, TxnRefKey,
                                   OrderInfoKey, OrderTypeKey, AmountKey, ReturnUrlKey, IpAddrKey,
                                   CreateDateKey, BankCodeKey]

  /** The twelve values always assigned, in the same order. */
  function FixedValues(c: Config, r: PaymentRequest, d: DateParts): (vs: seq<string>)
    ensures |vs| == 12
  {
    ["2.1.0", "pay", TmnCodeOf(c), LocaleOf(r), "VND", r.orderId, r.orderInfo, "other",
     NatToString(r.amount * 100), ReturnUrl(c), r.ipAddr, CreateDate(d)]
  }

  /** The values: the twelve, and the bank code when one is given. */
  function FieldValues(c: Config, r: PaymentRequest, d: DateParts): (vs: seq<string>)
    ensures |vs| == if BankGiven(r) then 13 else 12
  {
    FixedValues(c, r, d) + (if BankGiven(r) then [r.bankCode.value] else [])
  }

  /** Names paired with values, as far as there are values. */
  function Zip(ks: seq<string>, vs: seq<string>): Entries
    requires |vs| <= |ks|
  {
    seq(|vs|, i requires 0 <= i < |vs| => (ks[i], vs[i]))
  }

  /** In a table of distinct names, each name looks up its own value. */
  lemma ZipGet(ks: seq<string>, vs: seq<string>, i: nat)
    requires |vs| <= |ks| && NoDup(ks) && i < |vs|
    ensures Get(Zip(ks, vs), ks[i]) == Some(vs[i])
  {
    var t := Zip(ks, vs);
    assert forall j :: 0 <= j < |t| ==> t[j] == (ks[j], vs[j]);
    GetDistinct(t, i);
  }

  /** A name outside the table looks up nothing. */
  lemma ZipMissing(ks: seq<string>, vs: seq<string>, k: string)
    requires |vs| <= |ks| && k !in ks
    ensures Get(Zip(ks, vs), k).None?
  {
    var t := Zip(ks, vs);
    assert forall j :: 0 <= j < |t| ==> t[j].0 == ks[j];
  }

  /** The object written out: each name with its value. */
  function Fields(c: Config, r: PaymentRequest, d: DateParts): Entries {
    Zip(ParamKeys, FieldValues(c, r, d))
  }

  /** The sorted, encoded object that is signed. */
  function SignedParams(c: Config, r: PaymentRequest, d: DateParts): Entries {
    SortObject(Params(c, r, d), true)
  }

  /** The URL createPaymentUrl returns when the secret is set. */
  function PaymentUrl(c: Config, r: PaymentRequest, d: DateParts, mac: Mac, secret: string): string {
    var signed := SignedParams(c, r, d);
    PayUrl(c) + "?" + QueryText(Put(signed, HashKey, Sign(mac, secret, QueryText(signed))))
  }

  /** sortObject: the keys in ascending order, each assigned the form encoding
      of its value. */
  method SortObjectEncoded(obj: Entries) returns (sorted: Entries)
    ensures sorted == SortObject(obj, true)
    ensures DistinctKeys(obj) ==>
      && StrictlySorted(Keys(sorted))
      && multiset(Keys(sorted)) == multiset(Keys(obj))
      && forall i :: 0 <= i < |sorted| ==> sorted[i].1 == FormEncode(Text(obj, sorted[i].0))
  {
    var keys := SortStrings(Keys(obj));
    sorted := [];
    var i := 0;
    while i < |keys|
      invariant 0 <= i <= |keys|
      invariant sorted == SortFold(obj, keys[..i], true)
    {
      sorted := Put(sorted, keys[i], FormEncode(Text(obj, keys[i])));
      i := i + 1;
      assert keys[..i][..i - 1] == keys[..i - 1];
    }
    assert keys[..|keys|] == keys;
    if DistinctKeys(obj) {
      SortObjectSpec(obj, true);
    }
  }

  /** createPaymentUrl; None when the hash secret is unset and createHmac throws. */
  method CreatePaymentUrl(config: Config, req: PaymentRequest, date: DateParts, mac: Mac)
    returns (url: Option<string>)
    ensures config.hashSecret.None? ==> url.None?
    ensures config.hashSecret.Some? ==> url == Some(PaymentUrl(config, req, date, mac, config.hashSecret.value))
  {
    var createDate := CreateDate(date);
    var p: Entries := [];
    p := Put(p, VersionKey, "2.1.0");
    p := Put(p, CommandKey, "pay");
    p := Put(p, TmnCodeKey, TmnCodeOf(config));
    p := Put(p, LocaleKey, LocaleOf(req));
    p := Put(p, CurrCodeKey, "VND");
    p := Put(p, TxnRefKey, req.orderId);
    p := Put(p, OrderInfoKey, req.orderInfo);
    p := Put(p, OrderTypeKey, "other");
    p := Put(p, AmountKey, NatToString(req.amount * 100));
    p := Put(p, ReturnUrlKey, ReturnUrl(config));
    p := Put(p, IpAddrKey, req.ipAddr);
    p := Put(p, CreateDateKey, createDate);
    if req.bankCode.Some? && req.bankCode.value != "" {
      p := Put(p, BankCodeKey, req.bankCode.value);
    }
    p := SortObjectEncoded(p);
    var signData := QueryText(p);
    if config.hashSecret.None? {
      return None;
    }
    var signed := Sign(mac, config.hashSecret.value, signData);
    p := Put(p, HashKey, signed);
    url := Some(PayUrl(config) + "?" + QueryText(p));
  }

  // ---------------------------------------------------------------- lemmas on the payment URL

  /** The names are distinct. */
  lemma ParamKeysDistinct()
    ensures NoDup(ParamKeys)
    ensures HashKey !in ParamKeys && HashTypeKey !in ParamKeys
  {
  }

  /** Assigning the next name, not yet used, appends it. */
  lemma ZipPut(ks: seq<string>, vs: seq<string>, i: nat)
    requires NoDup(ks) && i < |vs| <= |ks|
    ensures Put(Zip(ks, vs[..i]), ks[i], vs[i]) == Zip(ks, vs[..i + 1])
  {
    var o := Zip(ks, vs[..i]);
    assert forall j :: 0 <= j < |o| ==> o[j] == (ks[j], vs[j]) && ks[j] != ks[i];
    PutAppends(o, ks[i], vs[i]);
    assert o + [(ks[i], vs[i])] == Zip(ks, vs[..i + 1]);
  }

  /** Four assignments in a row. */
  lemma ZipPutFour(ks: seq<string>, vs: seq<string>, i: nat)
    requires NoDup(ks) && i + 4 <= |vs| <= |ks|
    ensures Put(Put(Put(Put(Zip(ks, vs[..i]), ks[i], vs[i]), ks[i + 1], vs[i + 1]), ks[i + 2], vs[i + 2]),
                ks[i + 3], vs[i + 3]) == Zip(ks, vs[..i + 4])
  {
    ZipPut(ks, vs, i);
    ZipPut(ks, vs, i + 1);
    ZipPut(ks, vs, i + 2);
    ZipPut(ks, vs, i + 3);
  }

  /** Twelve assignments to twelve distinct names, whatever the names and
      values. */
  lemma TwelvePuts(ks: seq<string>, v0: string, v1: string, v2: string, v3: string, v4: string, v5: string,
                   v6: string, v7: string, v8: string, v9: string, v10: string, v11: string)
    requires NoDup(ks) && |ks| >= 12
    ensures var p4 := Put(Put(Put(Put([], ks[0], v0), ks[1], v1), ks[2], v2), ks[3], v3);
      var p8 := Put(Put(Put(Put(p4, ks[4], v4), ks[5], v5), ks[6], v6), ks[7], v7);
      Put(Put(Put(Put(p8, ks[8], v8), ks[9], v9), ks[10], v10), ks[11], v11)
        == Zip(ks, [v0, v1, v2, v3, v4, v5, v6, v7, v8, v9, v10, v11])
  {
    var vs := [v0, v1, v2, v3, v4, v5, v6, v7, v8, v9, v10, v11];
    assert Zip(ks, vs[..0]) == [];
    ZipPutFour(ks, vs, 0);
    ZipPutFour(ks, vs, 4);
    ZipPutFour(ks, vs, 8);
    assert vs[..12] == vs;
  }

  /** Twelve assignments to the twelve fixed names, whatever the values. */
  lemma TwelveAssigned(v0: string, v1: string, v2: string, v3: string, v4: string, v5: string,
                       v6: string, v7: string, v8: string, v9: string, v10: string, v11: string)
    ensures var p1 := Put([], VersionKey, v0);
      var p2 := Put(p1, CommandKey, v1);
      var p3 := Put(p2, TmnCodeKey, v2);
      var p4 := Put(p3, LocaleKey, v3);
      var p5 := Put(p4, CurrCodeKey, v4);
      var p6 := Put(p5, TxnRefKey, v5);
      var p7 := Put(p6, OrderInfoKey, v6);
      var p8 := Put(p7, OrderTypeKey, v7);
      var p9 := Put(p8, AmountKey, v8);
      var p10 := Put(p9, ReturnUrlKey, v9);
      var p11 := Put(p10, IpAddrKey, v10);
      Put(p11, CreateDateKey, v11) == Zip(ParamKeys, [v0, v1, v2, v3, v4, v5, v6, v7, v8, v9, v10, v11])
  {
    ParamKeysDistinct();
    TwelvePuts(ParamKeys, v0, v1, v2, v3, v4, v5, v6, v7, v8, v9, v10, v11);
  }

  /** Every field is assigned once, so the object is the fields in
      assignment order. */
  lemma ParamsAreFields(c: Config, r: PaymentRequest, d: DateParts)
    ensures Params(c, r, d) == Fields(c, r, d)
  {
    TwelveAssigned("2.1.0", "pay", TmnCodeOf(c), LocaleOf(r), "VND", r.orderId, r.orderInfo, "other",
                   NatToString(r.amount * 100), ReturnUrl(c), r.ipAddr, CreateDate(d));
    var vs := FieldValues(c, r, d);
    if BankGiven(r) {
      ParamKeysDistinct();
      assert vs[..12] == FixedValues(c, r, d);
      ZipPut(ParamKeys, vs, 12);
      assert vs[..13] == vs;
    } else {
      assert vs == FixedValues(c, r, d);
    }
  }
  /** Every name is `vnp_` and letters. */
  lemma ParamKeysNamed()
    ensures forall i :: 0 <= i < |ParamKeys| ==> ParamName(ParamKeys[i])
  {
    FirstKeysNamed();
    MiddleKeysNamed();
    LastKeysNamed();
  }

  lemma FirstKeysNamed()
    ensures ParamName(VersionKey) && ParamName(CommandKey) && ParamName(TmnCodeKey) && ParamName(LocaleKey)
  {
  }

  lemma MiddleKeysNamed()
    ensures ParamName(CurrCodeKey) && ParamName(TxnRefKey) && ParamName(OrderInfoKey) && ParamName(OrderTypeKey)
  {
  }

  lemma LastKeysNamed()
    ensures ParamName(AmountKey) && ParamName(ReturnUrlKey) && ParamName(IpAddrKey) && ParamName(CreateDateKey)
      && ParamName(BankCodeKey)
  {
  }

  /** The written-out object has distinct names, each reading its own value. */
  lemma FieldsSpec(c: Config, r: PaymentRequest, d: DateParts)
    ensures DistinctKeys(Fields(c, r, d))
    ensures Keys(Fields(c, r, d)) == ParamKeys[..|FieldValues(c, r, d)|]
    ensures forall j :: 0 <= j < |FieldValues(c, r, d)| ==>
      Get(Fields(c, r, d), ParamKeys[j]) == Some(FieldValues(c, r, d)[j])
  {
    ParamKeysDistinct();
    var f := Fields(c, r, d);
    forall j | 0 <= j < |FieldValues(c, r, d)|
      ensures Get(f, ParamKeys[j]) == Some(FieldValues(c, r, d)[j])
    {
      GetDistinct(f, j);
    }
  }

  /** The parameter object has each name once, in assignment order, with its
      value: 2.1.0, pay, the terminal code, the locale ("vn" by default), VND,
      the order id and text, other, the amount times 100, the return URL, the
      client address, the creation date, and the bank code. */
  lemma ParamsSpec(c: Config, r: PaymentRequest, d: DateParts)
    ensures DistinctKeys(Params(c, r, d))
    ensures Keys(Params(c, r, d)) == ParamKeys[..|FieldValues(c, r, d)|]
    ensures forall j :: 0 <= j < |FieldValues(c, r, d)| ==>
      Get(Params(c, r, d), ParamKeys[j]) == Some(FieldValues(c, r, d)[j])
  {
    ParamsAreFields(c, r, d);
    FieldsSpec(c, r, d);
  }

  /** `vnp_BankCode` is present exactly when a non-empty bank code is passed. */
  lemma BankCodeField(c: Config, r: PaymentRequest, d: DateParts)
    ensures Get(Params(c, r, d), BankCodeKey) == if BankGiven(r) then Some(r.bankCode.value) else None
  {
    ParamsSpec(c, r, d);
    var vs := FieldValues(c, r, d);
    if BankGiven(r) {
      assert ParamKeys[12] == BankCodeKey && vs[12] == r.bankCode.value;
    } else {
      ParamKeysDistinct();
      assert BankCodeKey == ParamKeys[12];
      assert BankCodeKey !in ParamKeys[..12];
    }
  }

  /** Sorting an object whose names ks[j] read values vs[j] gives the names
      in ascending order, each reading the form encoding of its value. */
  lemma SortedEncoded(p: Entries, ks: seq<string>, vs: seq<string>)
    requires |vs| <= |ks| && DistinctKeys(p) && Keys(p) == ks[..|vs|]
    requires forall j :: 0 <= j < |vs| ==> Get(p, ks[j]) == Some(vs[j])
    requires forall i :: 0 <= i < |ks| ==> ParamName(ks[i]) && ks[i] != HashKey && ks[i] != HashTypeKey
    ensures StrictlySorted(Keys(SortObject(p, true)))
    ensures |SortObject(p, true)| == |vs|
    ensures forall j :: 0 <= j < |vs| ==> Get(SortObject(p, true), ks[j]) == Some(FormEncode(vs[j]))
    ensures forall i :: 0 <= i < |SortObject(p, true)| ==>
      ParamName(SortObject(p, true)[i].0) && SortObject(p, true)[i].0 != HashKey
      && SortObject(p, true)[i].0 != HashTypeKey
  {
    var sp := SortObject(p, true);
    SortObjectSpec(p, true);
    LessStrictNoDup(Keys(sp));
    forall j | 0 <= j < |vs|
      ensures Get(sp, ks[j]) == Some(FormEncode(vs[j]))
    {
      assert ks[j] == Keys(p)[j];
      assert ks[j] in multiset(Keys(sp));
      var m :| 0 <= m < |sp| && Keys(sp)[m] == ks[j];
      GetDistinct(sp, m);
    }
    forall i | 0 <= i < |sp|
      ensures ParamName(sp[i].0) && sp[i].0 != HashKey && sp[i].0 != HashTypeKey
    {
      assert Keys(sp)[i] in multiset(Keys(p));
      var m :| 0 <= m < |p| && Keys(p)[m] == sp[i].0;
      assert sp[i].0 == ks[m];
    }
  }

  /** The signed object: the names in ascending order, each once, with the
      form encoding of its value; no hash field among them. */
  lemma SignedParamsSpec(c: Config, r: PaymentRequest, d: DateParts)
    ensures StrictlySorted(Keys(SignedParams(c, r, d)))
    ensures |SignedParams(c, r, d)| == |FieldValues(c, r, d)|
    ensures forall j :: 0 <= j < |FieldValues(c, r, d)| ==>
      Get(SignedParams(c, r, d), ParamKeys[j]) == Some(FormEncode(FieldValues(c, r, d)[j]))
    ensures forall i :: 0 <= i < |SignedParams(c, r, d)| ==>
      ParamName(SignedParams(c, r, d)[i].0) && SignedParams(c, r, d)[i].0 != HashKey
      && SignedParams(c, r, d)[i].0 != HashTypeKey
  {
    ParamsSpec(c, r, d);
    ParamKeysDistinct();
    ParamKeysNamed();
    SortedEncoded(Params(c, r, d), ParamKeys, FieldValues(c, r, d));
  }

  /** Assigning a new name after the rest puts its pair last in the text. */
  lemma AppendedLast(base: string, o: Entries, k: string, v: string)
    requires |o| >= 1 && Get(o, k).None?
    ensures base + "?" + QueryText(Put(o, k, v)) == base + "?" + QueryText(o) + "&" + (k + "=" + v)
  {
    PutAppends(o, k, v);
    QueryTextAppend(o, k, v);
  }

  /** The URL is the payment address, `?`, the signed text, and the hash as
      the last parameter: the hash is not part of what it signs. */
  lemma PaymentUrlShape(c: Config, r: PaymentRequest, d: DateParts, mac: Mac, secret: string)
    ensures var signed := SignedParams(c, r, d);
      PaymentUrl(c, r, d, mac, secret)
      == PayUrl(c) + "?" + QueryText(signed) + "&" + (HashKey + "=" + Sign(mac, secret, QueryText(signed)))
  {
    var signed := SignedParams(c, r, d);
    SignedParamsSpec(c, r, d);
    assert Get(signed, HashKey).None?;
    AppendedLast(PayUrl(c), signed, HashKey, Sign(mac, secret, QueryText(signed)));
  }

  // ---------------------------------------------------------------- verifyReturnUrl

  /** The parameters without the two hash fields. */
  function Unhashed(params: Entries): Entries {
    Delete(Delete(params, HashKey), HashTypeKey)
  }

  /** verifyReturnUrl on a parameter object; None when the secret is unset and
      createHmac throws. */
  function VerifyReturnUrl(mac: Mac, secret: Option<string>, params: Entries): (ok: Option<bool>)
    ensures secret.None? <==> ok.None?
    ensures ok == Some(true) ==> Get(params, HashKey).Some?
    ensures ok == Some(true) ==>
      ReadHex(Get(params, HashKey).value) == Some(mac(Utf8(secret.value), Utf8(QueryText(SortObject(Unhashed(params), true)))))
  {
    var secureHash := Get(params, HashKey);
    var signData := QueryText(SortObject(Unhashed(params), true));
    if secret.None? then None
    else Some(secureHash == Some(Sign(mac, secret.value, signData)))
  }

  /** The parameters createPaymentUrl signed, with the hash it appended, pass
      verifyReturnUrl under the same secret. */
  lemma ReturnUrlRoundTrip(c: Config, r: PaymentRequest, d: DateParts, mac: Mac, secret: string)
    ensures var signed := SignedParams(c, r, d);
      VerifyReturnUrl(mac, Some(secret), Params(c, r, d) + [(HashKey, Sign(mac, secret, QueryText(signed)))])
      == Some(true)
  {
    var p := Params(c, r, d);
    var h := Sign(mac, secret, QueryText(SignedParams(c, r, d)));
    ParamsAreFields(c, r, d);
    FieldsSpec(c, r, d);
    ParamKeysDistinct();
    assert Get(p, HashKey).None?;
    assert Get(p, HashTypeKey).None?;
    DeleteLast(p, HashKey, h);
    DeleteAbsent(p, HashTypeKey);
    PutAppends(p, HashKey, h);
    PutGet(p, HashKey, h, HashKey);
  }

  /** Deleting a key after assigning it is deleting it. */
  lemma {:induction false} DeletePut(o: Entries, k: string, v: string)
    ensures Delete(Put(o, k, v), k) == Delete(o, k)
  {
    if o != [] && o[0].0 != k {
      DeletePut(o[1..], k, v);
    }
  }

  /** Deleting another key commutes with an assignment. */
  lemma {:induction false} DeletePutOther(o: Entries, k: string, v: string, k2: string)
    requires k != k2
    ensures Delete(Put(o, k, v), k2) == Put(Delete(o, k2), k, v)
  {
    if o != [] {
      DeletePutOther(o[1..], k, v, k2);
    }
  }

  /** The hash type a caller sends never changes the verdict. */
  lemma ReturnUrlIgnoresHashType(mac: Mac, secret: Option<string>, params: Entries, t: string)
    ensures VerifyReturnUrl(mac, secret, Put(params, HashTypeKey, t)) == VerifyReturnUrl(mac, secret, params)
  {
    PutGet(params, HashTypeKey, t, HashKey);
    DeletePutOther(params, HashTypeKey, t, HashKey);
    DeletePut(Delete(params, HashKey), HashTypeKey, t);
  }

  // ---------------------------------------------------------------- response descriptions

  const UnknownDescription: string := "Lỗi không xác định"

  /** The thirteen documented response codes, and their descriptions in the
      same order. */
  const DescriptionCodes: seq<string> :=
    ["00", "07", "09", "10", "11", "12", "13", "24", "51", "65", "75", "79", "99"]
  const DescriptionTexts: seq<string> := [
    "Giao dịch thành công",
    "Trừ tiền thành công. Giao dịch bị nghi ngờ.",
    "Thẻ/Tài khoản chưa đăng ký InternetBanking.",
    "Xác thực thông tin thẻ/tài khoản không đúng quá 3 lần.",
    "Đã hết hạn chờ thanh toán.",
    "Thẻ/Tài khoản bị khóa.",
    "Sai mật khẩu xác thực giao dịch (OTP).",
    "Khách hàng hủy giao dịch.",
    "Tài khoản không đủ số dư.",
    "Tài khoản vượt quá hạn mức giao dịch trong ngày.",
    "Ngân hàng thanh toán đang bảo trì.",
    "Nhập sai mật khẩu thanh toán quá số lần quy định.",
    "Lỗi không xác định."]

  function Descriptions(): Entries {
    Zip(DescriptionCodes, DescriptionTexts)
  }

  /** getResponseDescription: `descriptions[code] || 'Lỗi không xác định'`. */
  function ResponseDescription(code: string): string {
    match Get(Descriptions(), code)
    case Some(t) => if t != "" then t else UnknownDescription
    case None => UnknownDescription
  }

  /** The codes are distinct and every text is non-empty. */
  lemma DescriptionTable()
    ensures NoDup(DescriptionCodes) && |DescriptionTexts| == |DescriptionCodes| == 13
    ensures forall i :: 0 <= i < 13 ==> |DescriptionTexts[i]| > 0
  {
  }

  /** A listed code gets its own text. */
  lemma ListedDescription(i: nat)
    requires i < |DescriptionCodes|
    ensures ResponseDescription(DescriptionCodes[i]) == DescriptionTexts[i]
  {
    DescriptionTable();
    ZipGet(DescriptionCodes, DescriptionTexts, i);
  }

  /** Any other code gets the generic text. */
  lemma UnlistedDescription(code: string)
    requires code !in DescriptionCodes
    ensures ResponseDescription(code) == UnknownDescription
  {
    ZipMissing(DescriptionCodes, DescriptionTexts, code);
  }
}
