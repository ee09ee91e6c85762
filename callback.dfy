/** The payment return route (GET /api/payment/callback): the payment gateway
    sends the buyer back with the result in the query; a signed success
    upgrades the buyer's plan, a signed failure marks the payment failed, and
    the buyer is redirected to the result page. */
module PaymentCallback {
  import opened Js
  import opened UrlCodec
  import opened JsObject
  import opened Vnpay
  import opened VnpaySignature
  import opened LocalCalendar

  /** The stored payment the route reads: its status, its buyer and its
      billing cycle (None when the column is null). */
  datatype Payment = Payment(status: string, userId: string, cycle: Option<string>)

  /** The writes the route makes; the order id is None when the query has no
      `vnp_TxnRef`. */
  datatype PaymentWrite =
    | SetStatus(orderId: Option<string>, status: string)
    | SetTransactionNo(orderId: Option<string>, transactionNo: Option<string>)
    | SetPlan(userId: string, plan: string, expiresAt: LocalTime)

  /** The payments and users tables, seen through the writes made to them.
      Whether a write throws is read from an oracle indexed by its position. */
  class PaymentStore {
    var writes: seq<PaymentWrite>
    const raises: (nat, PaymentWrite) -> bool

    constructor (raises: (nat, PaymentWrite) -> bool)
      ensures writes == [] && this.raises == raises
    {
      writes := [];
      this.raises := raises;
    }

    /** Makes one write; `raised` when it throws. */
    method Write(w: PaymentWrite) returns (raised: bool)
      modifies this
      ensures writes == old(writes) + [w]
      ensures raised == raises(|old(writes)|, w)
    {
      raised := raises(|writes|, w);
      writes := writes + [w];
    }
  }

  const ResponseCodeKey: string := "vnp_ResponseCode"
  const TransactionStatusKey: string := "vnp_TransactionStatus"
  const TransactionNoKey: string := "vnp_TransactionNo"

  const DefaultAppUrl: string := "http://localhost:3000"
  const Success: string := "00"

  /** `process.env.NEXT_PUBLIC_APP_URL || 'http://localhost:3000'`. */
  function AppUrl(env: Option<string>): string { EnvOr(env, DefaultAppUrl) }

  /** The failure codes of the route's message table and their texts. */
  const FailureCodes: seq<string> := ["07", "09", "10", "11", "12", "13", "24", "51", "65", "75", "79", "99"]
  const FailureTexts: seq<string> := [
    "Trừ tiền thành công nhưng giao dịch bị nghi ngờ",
    "Thẻ/Tài khoản chưa đăng ký InternetBanking",
    "Xác thực thông tin thẻ không đúng quá 3 lần",
    "Đã hết hạn chờ thanh toán",
    "Thẻ/Tài khoản bị khóa",
    "Mật khẩu OTP không chính xác",
    "Giao dịch đã bị hủy",
    "Tài khoản không đủ số dư",
    "Tài khoản đã vượt quá hạn mức giao dịch trong ngày",
    "Ngân hàng thanh toán đang bảo trì",
    "Nhập sai mật khẩu quá số lần quy định",
    "Lỗi không xác định"
  ]
  const DefaultFailure: string := "Thanh toán thất bại"
  const SystemError: string := "Lỗi hệ thống"

  /** `errorMessages[responseCode] || 'Thanh toán thất bại'`; the numeric keys
      of the table are property names like the quoted ones, and a missing
      code looks up `"null"`, which is not listed. */
  function FailureMessage(code: Option<string>): string {
    if code.None? then DefaultFailure
    else match Get(Zip(FailureCodes, FailureTexts), code.value)
      case Some(t) => if t != "" then t else DefaultFailure
      case None => DefaultFailure
  }

  /** Where the buyer is sent: the result page with status `success` and the
      order id, or with status `failed` or `error` and a message. */
  datatype Outcome = Succeeded(txnRef: Option<string>) | Failed(message: string) | Errored(message: string)

  /** The result page with a query. */
  function ResultPage(env: Option<string>, query: string): string {
    AppUrl(env) + "/payment/callback?" + query
  }

  /** `${txnRef}` of a value that may be null. */
  function OrNull(v: Option<string>): string {
    if v.Some? then v.value else "null"
  }

  /** The redirect URL of an outcome; a message is encodeURIComponent-encoded. */
  function Location(env: Option<string>, o: Outcome): string {
    match o
    case Succeeded(txnRef) => ResultPage(env, "status=success&txnRef=" + OrNull(txnRef))
    case Failed(m) => ResultPage(env, "status=failed&message=" + EncodeURIComponent(m))
    case Errored(m) => ResultPage(env, "status=error&message=" + EncodeURIComponent(m))
  }

  /** The outcome once the payment is handled: success exactly when the
      response code is `00`, whatever the signature. */
  function OutcomeOf(responseCode: Option<string>, txnRef: Option<string>): Outcome {
    if responseCode == Some(Success) then Succeeded(txnRef) else Failed(FailureMessage(responseCode))
  }

  /** `secureHash && verifyVNPaySignature(url, secureHash)`; None when the
      HMAC is computed without a secret and throws. */
  function SignatureCheck(mac: Mac, secret: Option<string>, url: string, secureHash: Option<string>): Option<bool> {
    if secureHash.None? || secureHash.value == "" then Some(false)
    else if secret.None? then None
    else Some(Sign(mac, secret.value, SignData(url)) == secureHash.value)
  }

  predicate Upgrades(valid: bool, responseCode: Option<string>, transactionStatus: Option<string>) {
    valid && responseCode == Some(Success) && transactionStatus == Some(Success)
  }

  predicate MarksFailed(valid: bool, responseCode: Option<string>) {
    valid && responseCode != Some(Success)
  }

  /** When the plan changes: one year on for a yearly cycle, one month on
      otherwise. */
  function Expiry(cycle: Option<string>, now: LocalTime): LocalTime
    requires ValidTime(now)
  {
    if cycle == Some("yearly") then AddYear(now) else AddMonth(now)
  }

  /** The three writes of an upgrade, in order. */
  function UpgradeWrites(txnRef: Option<string>, transactionNo: Option<string>, p: Payment, now: LocalTime): seq<PaymentWrite>
    requires ValidTime(now)
  {
    [SetStatus(txnRef, "completed"), SetTransactionNo(txnRef, transactionNo), SetPlan(p.userId, "pro", Expiry(p.cycle, now))]
  }

  /** The writes a handled callback makes, from trace position pos on. The
      first upgrade write throwing ends the block; a throwing transaction
      number write is ignored. */
  function CallbackWrites(valid: bool, responseCode: Option<string>, transactionStatus: Option<string>,
                          txnRef: Option<string>, transactionNo: Option<string>, payment: Option<Payment>,
                          now: LocalTime, pos: nat, raises: (nat, PaymentWrite) -> bool): seq<PaymentWrite>
    requires ValidTime(now)
  {
    if Upgrades(valid, responseCode, transactionStatus) then
      if payment.Some? && payment.value.status != "completed" then
        var plan := UpgradeWrites(txnRef, transactionNo, payment.value, now);
        if raises(pos, plan[0]) then plan[..1] else plan
      else []
    else if MarksFailed(valid, responseCode) then [SetStatus(txnRef, "failed")]
    else []
  }

  /** The database block of the route: the upgrade for a signed success, the
      failure mark for a signed failure; a throw inside either is caught. */
  method HandlePayment(store: PaymentStore, valid: bool, responseCode: Option<string>,
                       transactionStatus: Option<string>, txnRef: Option<string>, transactionNo: Option<string>,
                       paymentOf: Option<string> -> Option<Payment>, now: LocalTime)
    requires ValidTime(now)
    modifies store
    ensures store.writes == old(store.writes)
      + CallbackWrites(valid, responseCode, transactionStatus, txnRef, transactionNo, paymentOf(txnRef), now,
                       |old(store.writes)|, store.raises)
  {
    if valid && responseCode == Some(Success) && transactionStatus == Some(Success) {
      var payment := paymentOf(txnRef);
      if payment.Some? && payment.value.status != "completed" {
        ghost var plan := UpgradeWrites(txnRef, transactionNo, payment.value, now);
        var raised := store.Write(SetStatus(txnRef, "completed"));
        if !raised {
          raised := store.Write(SetTransactionNo(txnRef, transactionNo));
          var expiresAt := if payment.value.cycle == Some("yearly") then AddYear(now) else AddMonth(now);
          raised := store.Write(SetPlan(payment.value.userId, "pro", expiresAt));
          assert store.writes == old(store.writes) + plan;
        } else {
          assert store.writes == old(store.writes) + plan[..1];
        }
      }
    } else if valid && responseCode != Some(Success) {
      var raised := store.Write(SetStatus(txnRef, "failed"));
    }
  }

  /** GET. `param` is the query's decoded parameter lookup (searchParams.get),
      `url` the raw request URL, `paymentOf` getPaymentByOrderId (None for
      null) and `now` the local clock. */
  method CallbackGet(store: PaymentStore, env: Option<string>, url: string, param: string -> Option<string>,
                     secret: Option<string>, mac: Mac, paymentOf: Option<string> -> Option<Payment>,
                     now: LocalTime)
    returns (outcome: Outcome)
    requires ValidTime(now)
    modifies store
    ensures var check := SignatureCheck(mac, secret, url, param(HashKey));
      && (check.None? ==> outcome == Errored(SystemError) && store.writes == old(store.writes))
      && (check.Some? ==>
            && outcome == OutcomeOf(param(ResponseCodeKey), param(TxnRefKey))
            && store.writes == old(store.writes)
                 + CallbackWrites(check.value, param(ResponseCodeKey), param(TransactionStatusKey), param(TxnRefKey),
                                  param(TransactionNoKey), paymentOf(param(TxnRefKey)), now,
                                  |old(store.writes)|, store.raises))
  {
    var responseCode := param(ResponseCodeKey);
    var transactionStatus := param(TransactionStatusKey);
    var txnRef := param(TxnRefKey);
    var secureHash := param(HashKey);
    var transactionNo := param(TransactionNoKey);
    var signatureValid := false;
    if secureHash.Some? && secureHash.value != "" {
      if secret.None? {
        return Errored(SystemError);
      }
      var valid := VerifySignature(mac, secret, url, secureHash.value);
      signatureValid := valid.value;
    }
    assert signatureValid == SignatureCheck(mac, secret, url, secureHash).value;
    HandlePayment(store, signatureValid, responseCode, transactionStatus, txnRef, transactionNo, paymentOf, now);
    outcome := OutcomeOf(responseCode, txnRef);
  }

  // ---------------------------------------------------------------- properties

  /** A callback counts as signed only when it carries a non-empty hash that
      is the HMAC of the data rebuilt from its own query; an unset secret with
      a hash present throws. */
  lemma SignatureCheckSpec(mac: Mac, secret: Option<string>, url: string, secureHash: Option<string>)
    ensures SignatureCheck(mac, secret, url, secureHash).None? <==>
      secureHash.Some? && secureHash.value != "" && secret.None?
    ensures SignatureCheck(mac, secret, url, secureHash) == Some(true) ==>
      && secureHash.Some? && secureHash.value != "" && secret.Some?
      && ReadHex(secureHash.value) == Some(mac(Utf8(secret.value), Utf8(SignData(url))))
  {
  }

  /** The plan is set exactly when the signature is valid, both codes are `00`,
      the payment exists and is not yet completed, and the status write does
      not throw; re-delivery of a completed payment writes nothing. */
  lemma PlanSetWhen(valid: bool, responseCode: Option<string>, transactionStatus: Option<string>,
                    txnRef: Option<string>, transactionNo: Option<string>, payment: Option<Payment>,
                    now: LocalTime, pos: nat, raises: (nat, PaymentWrite) -> bool)
    requires ValidTime(now)
    ensures var w := CallbackWrites(valid, responseCode, transactionStatus, txnRef, transactionNo, payment, now, pos, raises);
      && ((exists i :: 0 <= i < |w| && w[i].SetPlan?) <==>
            && Upgrades(valid, responseCode, transactionStatus)
            && payment.Some? && payment.value.status != "completed"
            && !raises(pos, SetStatus(txnRef, "completed")))
      && (payment.Some? && payment.value.status == "completed" && responseCode == Some(Success) ==> w == [])
  {
    var w := CallbackWrites(valid, responseCode, transactionStatus, txnRef, transactionNo, payment, now, pos, raises);
    if Upgrades(valid, responseCode, transactionStatus) && payment.Some? && payment.value.status != "completed"
       && !raises(pos, SetStatus(txnRef, "completed")) {
      assert w[2].SetPlan?;
    }
  }

  /** An upgrade sets plan `pro` for the payment's buyer, expiring one month
      on, or one year on for a yearly cycle; the expiry is after now. */
  lemma UpgradePlanSpec(txnRef: Option<string>, transactionNo: Option<string>, p: Payment, now: LocalTime)
    requires ValidTime(now)
    ensures var w := UpgradeWrites(txnRef, transactionNo, p, now)[2];
      && w.userId == p.userId && w.plan == "pro"
      && ValidTime(w.expiresAt) && Before(now, w.expiresAt)
      && (p.cycle == Some("yearly") ==> w.expiresAt == AddYear(now))
      && (p.cycle != Some("yearly") ==> w.expiresAt == AddMonth(now))
  {
    AddYearSpec(now);
    AddMonthSpec(now);
  }

  /** The payment is marked failed exactly when the signature is valid and the
      response code is not `00`; a signed `00` with another transaction status
      writes nothing. */
  lemma FailureMarkedWhen(valid: bool, responseCode: Option<string>, transactionStatus: Option<string>,
                          txnRef: Option<string>, transactionNo: Option<string>, payment: Option<Payment>,
                          now: LocalTime, pos: nat, raises: (nat, PaymentWrite) -> bool)
    requires ValidTime(now)
    ensures var w := CallbackWrites(valid, responseCode, transactionStatus, txnRef, transactionNo, payment, now, pos, raises);
      && (SetStatus(txnRef, "failed") in w <==> MarksFailed(valid, responseCode))
      && (responseCode == Some(Success) && transactionStatus != Some(Success) ==> w == [])
      && (!valid ==> w == [])
  {
  }

  /** A success page and a failure page never coincide. */
  lemma PagesDiffer(env: Option<string>, x: string, y: string)
    ensures ResultPage(env, "status=success&txnRef=" + x) != ResultPage(env, "status=failed&message=" + y)
  {
    var u := AppUrl(env) + "/payment/callback?";
    var ok := "status=success&txnRef=" + x;
    var failed := "status=failed&message=" + y;
    assert (u + ok)[|u| + 7] == ok[7] == 's';
    assert (u + failed)[|u| + 7] == failed[7] == 'f';
  }

  /** The buyer lands on the success page exactly for response code `00`,
      signed or not. */
  lemma SuccessPageWhen(env: Option<string>, responseCode: Option<string>, txnRef: Option<string>)
    ensures Location(env, OutcomeOf(responseCode, txnRef)) == ResultPage(env, "status=success&txnRef=" + OrNull(txnRef))
            <==> responseCode == Some(Success)
  {
    var o := OutcomeOf(responseCode, txnRef);
    if o.Failed? {
      PagesDiffer(env, OrNull(txnRef), EncodeURIComponent(o.message));
    }
  }

  /** The redirect URL names the outcome's status, and its message decodes
      back to the outcome's message. */
  lemma LocationSpec(env: Option<string>, o: Outcome)
    ensures o.Succeeded? ==> Location(env, o) == ResultPage(env, "status=success&txnRef=" + OrNull(o.txnRef))
    ensures o.Failed? ==> exists m ::
      Location(env, o) == ResultPage(env, "status=failed&message=" + m) && DecodeURIComponent(m) == Some(o.message)
    ensures o.Errored? ==> exists m ::
      Location(env, o) == ResultPage(env, "status=error&message=" + m) && DecodeURIComponent(m) == Some(o.message)
  {
    if !o.Succeeded? {
      UriComponentRoundTrip(o.message);
    }
  }

  /** The failure codes are distinct and every text is non-empty. */
  lemma FailureTable()
    ensures NoDup(FailureCodes) && |FailureTexts| == |FailureCodes| == 12
    ensures forall i :: 0 <= i < 12 ==> |FailureTexts[i]| > 0
  {
  }

  /** A listed failure code gets its own text. */
  lemma ListedFailure(i: nat)
    requires i < |FailureCodes|
    ensures FailureMessage(Some(FailureCodes[i])) == FailureTexts[i]
  {
    FailureTable();
    ZipGet(FailureCodes, FailureTexts, i);
  }

  /** Any other code, and a missing one, gets the generic failure text. */
  lemma UnlistedFailure(code: Option<string>)
    requires code.None? || code.value !in FailureCodes
    ensures FailureMessage(code) == DefaultFailure
  {
    if code.Some? {
      FailureTable();
      ZipMissing(FailureCodes, FailureTexts, code.value);
    }
  }
}
