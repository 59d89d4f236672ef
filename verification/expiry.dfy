/** How many days a product has left and what that makes it: expired, soon
    to expire, or fine. Timestamps are integer milliseconds. */
module Expiry {

  /** Milliseconds in a day: 1000 * 60 * 60 * 24. */
  const DayMs: int := 86_400_000

  /** A product expiring within this many days is "soon" (ALERT_DAYS). */
  const AlertDays: int := 3

  /** `daysUntil`: the milliseconds from `now` to the last instant of the
      expiry day (its 23:59:59), divided by one day and rounded up. The
      result is the unique `k` with `(k - 1) * DayMs < diff <= k * DayMs`. */
  function DaysUntil(endOfDay: int, now: int): (k: int)
    ensures (k - 1) * DayMs < endOfDay - now <= k * DayMs
  {
    var diff := endOfDay - now;
    var q := (-diff) / DayMs;
    assert -diff == q * DayMs + (-diff) % DayMs;
    -q
  }

  /** The bounds above pin the day count down: any `k` meeting them is it. */
  lemma DaysUntilUnique(endOfDay: int, now: int, k: int)
    requires (k - 1) * DayMs < endOfDay - now <= k * DayMs
    ensures DaysUntil(endOfDay, now) == k
  {
  }

  /** As time passes the count of remaining days never goes up. */
  lemma DaysUntilAntitone(endOfDay: int, now1: int, now2: int)
    requires now1 <= now2
    ensures DaysUntil(endOfDay, now2) <= DaysUntil(endOfDay, now1)
  {
  }

  /** During the DayMs - 1000 milliseconds before 23:59:59 of the expiry day
      (the whole expiry day, unless a daylight-saving change makes it 25
      hours long) the count is one, not zero: the target lies later that
      day. */
  lemma ExpiryDayCountsOne(endOfDay: int, now: int)
    requires endOfDay - (DayMs - 1000) <= now < endOfDay
    ensures DaysUntil(endOfDay, now) == 1
  {
    DaysUntilUnique(endOfDay, now, 1);
  }

  /** From 23:59:59 of the expiry day until the same time one day later the
      count is zero (rounding a small negative quotient up), so the day after
      expiry still shows as "soon" rather than expired. */
  lemma DayAfterExpiryCountsZero(endOfDay: int, now: int)
    requires endOfDay <= now < endOfDay + DayMs
    ensures DaysUntil(endOfDay, now) == 0
    ensures Classify(DaysUntil(endOfDay, now)) == Soon
  {
    DaysUntilUnique(endOfDay, now, 0);
  }

  datatype Status = Expired | Soon | Ok

  /** `isExpired` as the renderer computes it. */
  predicate IsExpired(days: int) {
    days < 0
  }

  /** `isSoon` as the renderer computes it. */
  predicate IsSoon(days: int) {
    days <= AlertDays && days >= 0
  }

  /** The state of a product with `days` left, read off the number line:
      below zero, zero to ALERT_DAYS, beyond. */
  function Classify(days: int): (st: Status)
    ensures st == Expired <==> IsExpired(days)
    ensures st == Soon <==> IsSoon(days)
    ensures st == Ok <==> !IsExpired(days) && !IsSoon(days)
  {
    if days < 0 then Expired else if days <= AlertDays then Soon else Ok
  }

  /** A product only moves forward through the states as time passes:
      ok, then soon, then expired. */
  function Rank(st: Status): nat {
    match st
    case Ok => 0
    case Soon => 1
    case Expired => 2
  }

  lemma StatusNeverReverts(endOfDay: int, now1: int, now2: int)
    requires now1 <= now2
    ensures Rank(Classify(DaysUntil(endOfDay, now1))) <= Rank(Classify(DaysUntil(endOfDay, now2)))
  {
    DaysUntilAntitone(endOfDay, now1, now2);
  }

  /** The name a state goes by in the badge class and in the filter menu. */
  function StatusName(st: Status): string {
    match st
    case Expired => "expired"
    case Soon => "soon"
    case Ok => "ok"
  }

  /** The badge class chosen by the renderer: "ok" unless the flags say
      otherwise, with the expired flag tested first. */
  function BadgeClass(days: int): (c: string)
    ensures c == StatusName(Classify(days))
  {
    if IsExpired(days) then "expired" else if IsSoon(days) then "soon" else "ok"
  }

  /** Whether the status filter lets an item with `days` left through: each
      of the three `continue` tests of the renderer fails. */
  predicate PassesFilter(filter: string, days: int) {
    && !(filter == "expired" && !IsExpired(days))
    && !(filter == "soon" && !IsSoon(days))
    && !(filter == "ok" && (IsSoon(days) || IsExpired(days)))
  }

  /** A filter naming a state keeps exactly that state; any other value
      keeps everything. */
  lemma FilterSelectsState(filter: string, days: int)
    ensures filter in {"expired", "soon", "ok"} ==>
              (PassesFilter(filter, days) <==> filter == StatusName(Classify(days)))
    ensures filter !in {"expired", "soon", "ok"} ==> PassesFilter(filter, days)
  {
  }
}
