/** The payment notification route (GET /api/payment/ipn): the gateway calls
    it server to server, and it answers with a two-character code; it changes
    no stored state. */
module PaymentIpn {
  import opened Js
  import opened UrlCodec
  import opened JsObject
  import opened Vnpay
  import opened VnpaySignature

  /** The JSON body `{ RspCode, Message }`, always sent with status 200. */
  datatype IpnResponse = IpnResponse(rspCode: string, message: string)

  /** vnpayResponse: `String(code).padStart(2, '0')`. */
  function VnpayResponse(code: string, message: string): IpnResponse {
    IpnResponse(PadStart(code, 2, '0'), message)
  }

  /** A code of two or more characters is sent as it is; a shorter one gets
      leading zeros up to two characters. */
  lemma ResponseCodePadded(code: string, message: string)
    ensures var r := VnpayResponse(code, message);
      && |r.rspCode| == (if |code| >= 2 then |code| else 2)
      && (|code| >= 2 ==> r.rspCode == code)
      && r.rspCode[|r.rspCode| - |code|..] == code
      && (forall i :: 0 <= i < |r.rspCode| - |code| ==> r.rspCode[i] == '0')
      && r.message == message
  {
  }

  /** The value of the last decoded query entry named k. */
  function LastEntry(entries: seq<(string, string)>, k: string): Option<string>
    decreases |entries|
  {
    if entries == [] then None
    else if entries[|entries| - 1].0 == k then Some(entries[|entries| - 1].1)
    else LastEntry(entries[..|entries| - 1], k)
  }

  /** vnpParams after the loop over the decoded entries. */
  function VnpParams(entries: seq<(string, string)>): Entries
    decreases |entries|
  {
    if entries == [] then []
    else
      var prefix := VnpParams(entries[..|entries| - 1]);
      var (k, v) := entries[|entries| - 1];
      if StartsWith(k, "vnp_") then Put(prefix, k, v) else prefix
  }

  /** A `vnp_` name reads its last entry; every other name is absent. */
  lemma {:induction false} VnpParamsGet(entries: seq<(string, string)>, k: string)
    ensures Get(VnpParams(entries), k) == if StartsWith(k, "vnp_") then LastEntry(entries, k) else None
  {
    if entries != [] {
      var prefix := entries[..|entries| - 1];
      VnpParamsGet(prefix, k);
      var (k2, v) := entries[|entries| - 1];
      if StartsWith(k2, "vnp_") {
        PutGet(VnpParams(prefix), k2, v, k);
      }
    }
  }

  /** The loop that keeps the `vnp_` entries. */
  method CollectVnpParams(entries: seq<(string, string)>) returns (params: Entries)
    ensures params == VnpParams(entries)
    ensures forall k :: Get(params, k) == if StartsWith(k, "vnp_") then LastEntry(entries, k) else None
  {
    params := [];
    var i := 0;
    while i < |entries|
      invariant 0 <= i <= |entries|
      invariant params == VnpParams(entries[..i])
    {
      var (key, value) := entries[i];
      if StartsWith(key, "vnp_") {
        params := Put(params, key, value);
      }
      assert entries[..i + 1][..i] == entries[..i];
      i := i + 1;
    }
    assert entries[..|entries|] == entries;
    forall k
      ensures Get(params, k) == if StartsWith(k, "vnp_") then LastEntry(entries, k) else None
    {
      VnpParamsGet(entries, k);
    }
  }

  /** `!value`: missing or empty. */
  predicate Blank(v: Option<string>) {
    v.None? || v.value == ""
  }

  /** GET. `entries` are the decoded query entries (searchParams.entries()) and
      `url` the raw request URL the signature is checked against. */
  method IpnGet(secret: Option<string>, mac: Mac, url: string, entries: seq<(string, string)>)
    returns (response: IpnResponse)
    ensures Blank(secret) ==> response == VnpayResponse("99", "Config error")
    ensures !Blank(secret) && (Blank(LastEntry(entries, TxnRefKey)) || Blank(LastEntry(entries, HashKey))) ==>
      response == VnpayResponse("99", "Missing Parameters")
    ensures !Blank(secret) && !Blank(LastEntry(entries, TxnRefKey)) && !Blank(LastEntry(entries, HashKey)) ==>
      response == if Sign(mac, secret.value, SignData(url)) == LastEntry(entries, HashKey).value
                  then VnpayResponse("00", "Confirm Success")
                  else VnpayResponse("97", "Invalid signature")
    ensures response.rspCode == "00" ==>
      ReadHex(LastEntry(entries, HashKey).value) == Some(mac(Utf8(secret.value), Utf8(SignData(url))))
    ensures response.rspCode in ["00", "97", "99"]
  {
    if secret.None? || secret.value == "" {
      return VnpayResponse("99", "Config error");
    }
    var vnpParams := CollectVnpParams(entries);
    var txnRef := Get(vnpParams, TxnRefKey);
    var secureHash := Get(vnpParams, HashKey);
    assert txnRef == LastEntry(entries, TxnRefKey) && secureHash == LastEntry(entries, HashKey);
    if txnRef.None? || txnRef.value == "" || secureHash.None? || secureHash.value == "" {
      return VnpayResponse("99", "Missing Parameters");
    }
    var valid := VerifySignature(mac, secret, url, secureHash.value);
    if !valid.value {
      return VnpayResponse("97", "Invalid signature");
    }
    response := VnpayResponse("00", "Confirm Success");
  }
}
