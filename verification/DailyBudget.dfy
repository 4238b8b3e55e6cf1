/**
 * The global daily budget on Redis (src/core/rate_limiter.py:43-56, 97-129): one atomic
 * check-and-reserve script per request on a key that is named after the day and expires.
 */
module DailyBudget {

  const DAY: real := 86400.0

  datatype Entry = Entry(total: real, expiresAt: real)

  /** One reservation the script granted. */
  datatype Reservation = Reservation(at: real, cost: real)

  function DayOf(t: real): int
  {
    (t / DAY).Floor
  }

  /** What was granted on `day`, over the whole history. */
  ghost function Reserved(log: seq<Reservation>, day: int): real
  {
    if log == [] then 0.0
    else
      var last := log[|log| - 1];
      Reserved(log[..|log| - 1], day) + if DayOf(last.at) == day then last.cost else 0.0
  }

  /** Days are 86400 seconds each. */
  lemma DayIs(t: real)
    ensures DayOf(t) as real * 86400.0 <= t < (DayOf(t) + 1) as real * 86400.0
  {
  }

  /** Each grant counts for its own day. */
  lemma ReservedGrows(log: seq<Reservation>, grant: Reservation, day: int)
    ensures Reserved([], day) == 0.0
    ensures Reserved(log + [grant], day) == Reserved(log, day) + if DayOf(grant.at) == day then grant.cost else 0.0
  {
    assert (log + [grant])[..|log|] == log;
  }

  /** While `day` lasts its key holds what was granted on it, and that is within the cap. */
  ghost predicate Accounted(keys: map<int, Entry>, log: seq<Reservation>, cap: real, day: int)
  {
    && Reserved(log, day) == (if day in keys then keys[day].total else 0.0)
    && (day in keys ==> keys[day].total <= cap && keys[day].expiresAt >= (day + 1) as real * DAY)
  }

  ghost predicate AllAccounted(keys: map<int, Entry>, log: seq<Reservation>, cap: real)
  {
    forall day :: Accounted(keys, log, cap, day)
  }

  lemma ReservingAccounts(keys: map<int, Entry>, log: seq<Reservation>, cap: real, now: real, cost: real, total: real)
    requires AllAccounted(keys, log, cap)
    requires total == Reserved(log, DayOf(now)) + cost <= cap
    ensures AllAccounted(keys[DayOf(now) := Entry(total, now + DAY)], log + [Reservation(now, cost)], cap)
  {
    var keys', log' := keys[DayOf(now) := Entry(total, now + DAY)], log + [Reservation(now, cost)];
    assert log'[..|log|] == log;
    forall day
      ensures Accounted(keys', log', cap, day)
    {
      assert Accounted(keys, log, cap, day);
    }
  }

  /** The key of a day cannot expire while the day lasts. */
  lemma KeyOutlivesDay(keys: map<int, Entry>, log: seq<Reservation>, cap: real, now: real)
    requires AllAccounted(keys, log, cap)
    ensures Accounted(keys, log, cap, DayOf(now))
    ensures DayOf(now) in keys ==> now < keys[DayOf(now)].expiresAt
  {
  }

  class Budget {
    const cap: real
    var keys: map<int, Entry>
    ghost var log: seq<Reservation>  // every reservation granted so far

    ghost predicate Valid()
      reads this
    {
      AllAccounted(keys, log, cap)
    }

    constructor (cap: real)
      ensures Valid() && log == [] && this.cap == cap
    {
      this.cap := cap;
      keys, log := map[], [];
    }

    /** `check_budget`: the decision depends on the whole day's grants, although the key carries
        a one-day expiry, and no day ever goes over the cap. */
    method CheckBudget(cost: real, now: real) returns (allowed: bool, remaining: real)
      requires Valid()
      modifies this
      ensures Valid()
      ensures allowed <==> Reserved(old(log), DayOf(now)) + cost <= cap
      ensures log == if allowed then old(log) + [Reservation(now, cost)] else old(log)
      ensures var left := cap - Reserved(log, DayOf(now)); remaining == if left < 0.0 then 0.0 else left
      ensures Reserved(log, DayOf(now)) <= cap || Reserved(log, DayOf(now)) == 0.0
      ensures keys == if allowed then old(keys)[DayOf(now) := Entry(Reserved(log, DayOf(now)), now + 86400.0)]
        else old(keys)
    {
      var today := DayOf(now);
      var current := if today in keys && now < keys[today].expiresAt then keys[today].total else 0.0;
      KeyOutlivesDay(keys, log, cap, now);
      if current + cost > cap {
        remaining := cap - current;
        if remaining < 0.0 {
          remaining := 0.0;
        }
        return false, remaining;
      }
      var newTotal := current + cost;
      ReservingAccounts(keys, log, cap, now, cost, newTotal);
      keys := keys[today := Entry(newTotal, now + DAY)];
      log := log + [Reservation(now, cost)];
      assert log[..|log| - 1] == old(log);
      return true, cap - newTotal;
    }
  }
}
