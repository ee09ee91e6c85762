/** The alerts route (POST /api/dashboard/alerts): the stored alerts of a
    user on an active paid plan, in the shape the dashboard reads. */
module DashboardAlerts {
  import opened Js
  import UserPlan

  const ProOnly: string := "Cảnh báo thông minh chỉ dành cho gói Pro. Vui lòng nâng cấp."

  /** A stored alert; the optional columns are None when null. */
  datatype StoredAlert = StoredAlert(id: string, message: string, severity: Option<string>,
                                     isRead: Option<bool>, createdAt: Option<string>)

  /** An alert as the dashboard reads it. */
  datatype Alert = Alert(id: string, message: string, severity: string, isRead: bool, timestamp: Option<string>)

  /** isProActive: `pro`, or `pro_cancelled` with an expiry still ahead. A
      missing plan counts as `free`. */
  predicate ProActive(u: UserPlan.DbUser, now: int) {
    var plan := UserPlan.PlanOr(u.plan, "free");
    plan == "pro" || (plan == "pro_cancelled" && u.expiresAt.At? && u.expiresAt.ms > now)
  }

  /** The shape one stored alert is mapped to. */
  function Shape(a: StoredAlert): (r: Alert)
    ensures r.id == a.id && r.message == a.message && r.timestamp == a.createdAt
    ensures r.severity == if a.severity.Some? && a.severity.value != "" then a.severity.value else "low"
    ensures r.isRead <==> a.isRead == Some(true)
  {
    Alert(a.id, a.message, UserPlan.PlanOr(a.severity, "low"), a.isRead.Some? && a.isRead.value, a.createdAt)
  }

  /** `rawAlerts.map(...)`. */
  function MapAlerts(raw: seq<StoredAlert>): (r: seq<Alert>)
    ensures |r| == |raw|
    ensures forall i :: 0 <= i < |raw| ==> r[i] == Shape(raw[i])
  {
    seq(|raw|, i requires 0 <= i < |raw| => Shape(raw[i]))
  }

  datatype AlertsResponse =
    | BadRequest(error: string)
    | Forbidden(error: string)
    | ServerError
    | AlertsOk(alerts: seq<Alert>)

  /** POST. `userOf` is getOrCreateUser and `alertsOf` getAlerts, each None
      when it throws. */
  function AlertsPost(userId: Option<string>, userOf: string -> Option<UserPlan.DbUser>,
                      alertsOf: string -> Option<seq<StoredAlert>>, now: int): (r: AlertsResponse)
    ensures (userId.None? || userId.value == "") <==> r == BadRequest("Missing userId")
    ensures r.Forbidden? <==>
      && userId.Some? && userId.value != ""
      && userOf(userId.value).Some? && !ProActive(userOf(userId.value).value, now)
    ensures r.Forbidden? ==> r.error == ProOnly
    ensures r.AlertsOk? ==>
      && userId.Some? && userOf(userId.value).Some?
      && ProActive(userOf(userId.value).value, now)
      && alertsOf(userOf(userId.value).value.id).Some?
      && r.alerts == MapAlerts(alertsOf(userOf(userId.value).value.id).value)
    ensures userId.Some? && userId.value != "" && userOf(userId.value).Some?
            && ProActive(userOf(userId.value).value, now)
            && alertsOf(userOf(userId.value).value.id).Some?
            ==> r == AlertsOk(MapAlerts(alertsOf(userOf(userId.value).value.id).value))
    ensures r.ServerError? <==>
      && userId.Some? && userId.value != ""
      && (|| userOf(userId.value).None?
          || (ProActive(userOf(userId.value).value, now) && alertsOf(userOf(userId.value).value.id).None?))
  {
    if userId.None? || userId.value == "" then BadRequest("Missing userId")
    else
      var user := userOf(userId.value);
      if user.None? then ServerError
      else if !ProActive(user.value, now) then Forbidden(ProOnly)
      else
        var raw := alertsOf(user.value.id);
        if raw.None? then ServerError else AlertsOk(MapAlerts(raw.value))
  }

  /** Access is granted exactly for `pro`, or for `pro_cancelled` before its
      expiry; no plan, `free`, `trial` and an expired cancellation are
      refused. */
  lemma ProActiveSpec(u: UserPlan.DbUser, now: int)
    ensures ProActive(u, now) <==>
      || u.plan == Some("pro")
      || (u.plan == Some("pro_cancelled") && u.expiresAt.At? && u.expiresAt.ms > now)
    ensures u.plan.None? || u.plan == Some("") || u.plan == Some("trial") ==> !ProActive(u, now)
  {
  }

  /** The two routes disagree on a lapsed `pro` plan: the plan route reports
      it expired while the alerts route still serves it. */
  lemma LapsedProStillServed(u: UserPlan.DbUser, now: int)
    requires u.plan == Some("pro") && u.expiresAt.At? && u.expiresAt.ms < now
    ensures UserPlan.EffectiveStatus(UserPlan.PlanOr(u.plan, "trial"), u.expiresAt, now).0 == "expired"
    ensures ProActive(u, now)
  {
  }

  /** A served list keeps the stored alerts' number and order, each alert
      carrying its own id, message and time. */
  lemma MapAlertsOrder(raw: seq<StoredAlert>, i: nat, j: nat)
    requires i < j < |raw|
    ensures MapAlerts(raw)[i].id == raw[i].id && MapAlerts(raw)[j].id == raw[j].id
    ensures MapAlerts(raw[..j]) == MapAlerts(raw)[..j]
  {
  }
}
