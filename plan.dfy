/** The plan route (GET /api/user/plan): the effective plan of the signed-in
    user, with the days left on a trial. Times are milliseconds since the
    epoch. */
module UserPlan {
  import opened Js

  const MsPerDay: int := 86400000

  /** `plan_expires_at` as `new Date(...)` reads it: absent (null or empty),
      an invalid date, or an instant. */
  datatype Stamp = NoStamp | BadDate | At(ms: int)

  /** The stored user row, as far as these routes read it. */
  datatype DbUser = DbUser(id: string, plan: Option<string>, expiresAt: Stamp)

  /** `dbUser.plan || fallback`. */
  function PlanOr(plan: Option<string>, fallback: string): (r: string)
    ensures plan.Some? && plan.value != "" ==> r == plan.value
    ensures plan.None? || plan.value == "" ==> r == fallback
  {
    if plan.Some? && plan.value != "" then plan.value else fallback
  }

  /** `expiresAt && expiresAt < now`: an invalid date compares false. */
  predicate ExpiredAt(e: Stamp, now: int) {
    e.At? && e.ms < now
  }

  /** `Math.ceil(ms / 86400000)` for ms >= 0. */
  function DaysCeil(ms: nat): (d: nat)
    ensures (d - 1) * MsPerDay < ms <= d * MsPerDay
  {
    (ms + MsPerDay - 1) / MsPerDay
  }

  /** The reported status and `daysLeft` (None for null) of a plan. */
  function EffectiveStatus(plan: string, e: Stamp, now: int): (string, Option<nat>) {
    if plan == "pro" then (if ExpiredAt(e, now) then ("expired", None) else (plan, None))
    else if plan == "trial" then
      if e.NoStamp? || ExpiredAt(e, now) then ("expired", None)
      else if e.At? then (plan, Some(DaysCeil(e.ms - now)))
      else (plan, None)
    else (plan, None)
  }

  datatype PlanResponse =
    | BadRequest(error: string)
    | ServerError
    | PlanOk(plan: string, daysLeft: Option<nat>, expiresAt: Option<int>)

  /** GET. `userOf` is getOrCreateUser (None when it throws). An invalid
      expiry date makes `toISOString` throw, so the route answers 500. */
  function PlanGet(userId: Option<string>, userOf: string -> Option<DbUser>, now: int): (r: PlanResponse)
    ensures (userId.None? || userId.value == "") <==> r == BadRequest("Missing x-user-id")
    ensures r.ServerError? <==>
      && userId.Some? && userId.value != ""
      && (userOf(userId.value).None? || userOf(userId.value).value.expiresAt.BadDate?)
    ensures r.PlanOk? ==> var u := userOf(userId.value).value;
      && (r.plan, r.daysLeft) == EffectiveStatus(PlanOr(u.plan, "trial"), u.expiresAt, now)
      && r.expiresAt == (if u.expiresAt.At? then Some(u.expiresAt.ms) else None)
  {
    if userId.None? || userId.value == "" then BadRequest("Missing x-user-id")
    else
      var user := userOf(userId.value);
      if user.None? then ServerError
      else
        var (status, daysLeft) := EffectiveStatus(PlanOr(user.value.plan, "trial"), user.value.expiresAt, now);
        match user.value.expiresAt
        case BadDate => ServerError
        case NoStamp => PlanOk(status, daysLeft, None)
        case At(ms) => PlanOk(status, daysLeft, Some(ms))
  }

  /** `pro` is reported expired exactly when an expiry exists and has passed;
      `trial` exactly when there is no expiry or it has passed; any other plan
      is reported as it is. */
  lemma EffectiveStatusSpec(plan: string, e: Stamp, now: int)
    ensures var (status, _) := EffectiveStatus(plan, e, now);
      && (plan == "pro" ==> (status == "expired" <==> ExpiredAt(e, now)))
      && (plan == "trial" ==> (status == "expired" <==> e.NoStamp? || ExpiredAt(e, now)))
      && (status != "expired" ==> status == plan)
      && (plan != "pro" && plan != "trial" ==> status == plan)
  {
  }

  /** Days are left only on a running trial with a valid expiry, and then
      they are the whole days up to the expiry, rounded up. */
  lemma DaysLeftSpec(plan: string, e: Stamp, now: int)
    ensures var (status, days) := EffectiveStatus(plan, e, now);
      && (days.Some? <==> plan == "trial" && e.At? && e.ms >= now)
      && (days.Some? ==> status == "trial" && (days.value - 1) * MsPerDay < e.ms - now <= days.value * MsPerDay)
  {
  }

  /** A user with no plan stored is on a trial. */
  lemma MissingPlanIsTrial(u: DbUser, now: int)
    requires u.plan.None? || u.plan.value == ""
    requires !u.expiresAt.BadDate?
    ensures var (status, _) := EffectiveStatus(PlanOr(u.plan, "trial"), u.expiresAt, now);
      status == "trial" || status == "expired"
  {
  }
}
