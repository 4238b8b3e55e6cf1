/**
 * The per-user sliding-window rate limit on Redis (src/core/rate_limiter.py:66-95): the pruned,
 * expiring sorted set against the full history of attempts, and what the limit guarantees.
 */
module RateLimiter {
  import opened Basics

  const WINDOW: real := 60.0

  /** A Redis sorted set whose members are their own scores, and when its key expires. */
  datatype SortedSet = SortedSet(scores: set<real>, expiresAt: real)

  /** The distinct attempt times later than `from`. */
  ghost function Since(history: seq<real>, from: real): set<real>
  {
    set t | t in history && t > from
  }

  /** The rule on the full history: fewer than `rate` attempts in the last 60 seconds. Attempts
      that were denied count too. */
  ghost predicate Allowed(history: seq<real>, rate: int, now: real)
  {
    |Since(history, now - WINDOW)| < rate
  }

  ghost predicate Ordered(history: seq<real>)
  {
    && (forall i :: 0 <= i < |history| ==> history[i] >= 0.0)
    && forall i, j :: 0 <= i < j < |history| ==> history[i] <= history[j]
  }

  /** The clock has not gone back since the last attempt. */
  ghost predicate NotBefore(history: seq<real>, now: real)
  {
    history != [] ==> now >= history[|history| - 1]
  }

  /** What is left in Redis of a user's history: the last 60 seconds as of the last attempt. */
  ghost predicate Represents(store: map<string, SortedSet>, user: string, history: seq<real>)
  {
    && Ordered(history)
    && if history == [] then user !in store
       else
         var last := history[|history| - 1];
         user in store && store[user] == SortedSet(Since(history, last - WINDOW), last + WINDOW)
  }

  ghost function HistoryOf(histories: map<string, seq<real>>, user: string): seq<real>
  {
    if user in histories then histories[user] else []
  }

  ghost predicate Consistent(store: map<string, SortedSet>, histories: map<string, seq<real>>)
  {
    forall user :: Represents(store, user, HistoryOf(histories, user))
  }

  class AdmissionGuard {
    const rate: int
    var store: map<string, SortedSet>
    ghost var histories: map<string, seq<real>>

    ghost predicate Valid()
      reads this
    {
      Consistent(store, histories)
    }

    constructor (rate: int)
      ensures Valid() && histories == map[] && this.rate == rate
    {
      this.rate := rate;
      store, histories := map[], map[];
    }

    /** `check_rate`: one transaction that prunes, counts, adds and refreshes. Pruning and key
        expiry lose nothing the rule needs, other users are untouched, and the attempt is
        recorded whether or not it is allowed. */
    method CheckRate(userId: string, now: real) returns (allowed: bool, remaining: int)
      requires Valid() && now >= 0.0
      requires NotBefore(HistoryOf(histories, userId), now)
      modifies this
      ensures Valid() && histories == old(histories)[userId := HistoryOf(old(histories), userId) + [now]]
      ensures allowed <==> Allowed(HistoryOf(old(histories), userId), rate, now)
      ensures var counted := set t | t in HistoryOf(old(histories), userId) && t > now - 60.0;
        && (allowed <==> |counted| < rate) && remaining == (if allowed then rate - |counted| - 1 else 0)
        && store == old(store)[userId := SortedSet(counted + {now}, now + 60.0)]
    {
      var live := if userId in store && now <= store[userId].expiresAt then store[userId].scores else {};
      var kept := set t | t in live && !(0.0 <= t <= now - WINDOW);
      ghost var history := HistoryOf(histories, userId);
      PruningIsExact(store, userId, history, now, live, kept);
      RecordingKeepsStore(store, histories, userId, now, kept);
      var count := |kept|;
      store := store[userId := SortedSet(kept + {now}, now + WINDOW)];
      histories := histories[userId := history + [now]];
      if count >= rate {
        return false, 0;
      }
      return true, rate - count - 1;
    }
  }

  lemma PruningIsExact(store: map<string, SortedSet>, user: string, history: seq<real>, now: real, live: set<real>,
                       kept: set<real>)
    requires Represents(store, user, history) && NotBefore(history, now)
    requires live == if user in store && now <= store[user].expiresAt then store[user].scores else {}
    requires kept == set t | t in live && !(0.0 <= t <= now - WINDOW)
    ensures kept == Since(history, now - WINDOW)
  {
  }

  lemma AddingIsExact(history: seq<real>, now: real)
    requires Ordered(history) && now >= 0.0 && NotBefore(history, now)
    ensures Ordered(history + [now])
    ensures Since(history + [now], now - WINDOW) == Since(history, now - WINDOW) + {now}
  {
  }

  lemma RecordingKeepsStore(store: map<string, SortedSet>, histories: map<string, seq<real>>, user: string, now: real,
                            kept: set<real>)
    requires Consistent(store, histories) && now >= 0.0 && NotBefore(HistoryOf(histories, user), now)
    requires kept == Since(HistoryOf(histories, user), now - WINDOW)
    ensures Consistent(store[user := SortedSet(kept + {now}, now + WINDOW)],
                       histories[user := HistoryOf(histories, user) + [now]])
  {
    var history := HistoryOf(histories, user);
    assert Represents(store, user, history);
    AddingIsExact(history, now);
    var store', histories' := store[user := SortedSet(kept + {now}, now + WINDOW)], histories[user := history + [now]];
    forall other
      ensures Represents(store', other, HistoryOf(histories', other))
    {
      if other != user {
        assert Represents(store, other, HistoryOf(histories, other));
        assert HistoryOf(histories', other) == HistoryOf(histories, other);
      }
    }
  }

  // ----- what a whole run guarantees -----

  /** Attempt `k` of a run is allowed, given all attempts before it. */
  ghost predicate AllowedAt(attempts: seq<real>, rate: int, k: nat)
    requires k < |attempts|
  {
    Allowed(attempts[..k], rate, attempts[k])
  }

  /** The allowed attempts in the 60 seconds after `start`, including their end. */
  ghost function AllowedIn(attempts: seq<real>, rate: int, start: real): set<nat>
  {
    set k: nat | k < |attempts| && start < attempts[k] <= start + WINDOW && AllowedAt(attempts, rate, k)
  }

  /** In every run, wherever a 60-second window is placed, at most `rate` requests in it were
      allowed. Attempts are at distinct times, which the sorted set needs to tell them apart. */
  lemma WindowBound(attempts: seq<real>, rate: nat, start: real)
    requires forall i, j :: 0 <= i < j < |attempts| ==> attempts[i] < attempts[j]
    ensures |AllowedIn(attempts, rate, start)| <= rate
  {
    var allowed := AllowedIn(attempts, rate, start);
    if allowed != {} {
      var last := Latest(allowed);
      assert AllowedAt(attempts, rate, last);
      var earlier := allowed - {last};
      forall k | k in earlier
        ensures k < last && attempts[k] > attempts[last] - WINDOW
      {
      }
      CountedBefore(attempts, last, earlier);
    }
  }

  /** Attempts in the 60 seconds before attempt `k` are all in the history it is checked against. */
  lemma CountedBefore(attempts: seq<real>, k: nat, earlier: set<nat>)
    requires forall i, j :: 0 <= i < j < |attempts| ==> attempts[i] < attempts[j]
    requires k < |attempts| && forall j :: j in earlier ==> j < k && attempts[j] > attempts[k] - WINDOW
    ensures |earlier| <= |Since(attempts[..k], attempts[k] - WINDOW)|
  {
    var image := set j | j in earlier :: attempts[j];
    ImageSize(earlier, image, (j: nat) requires j < |attempts| => attempts[j]);
    var recent := Since(attempts[..k], attempts[k] - WINDOW);
    forall t | t in image
      ensures t in recent
    {
      var j :| j in earlier && attempts[j] == t;
      assert attempts[..k][j] == t;
    }
    SubsetSize(image, recent);
  }

  lemma {:induction false} Latest(s: set<nat>) returns (last: nat)
    requires s != {}
    ensures last in s && forall k :: k in s ==> k <= last
  {
    var k :| k in s;
    var rest := s - {k};
    if rest == {} {
      last := k;
      forall i | i in s
        ensures i <= last
      {
        assert i == k || i in rest;
      }
    } else {
      var m := Latest(rest);
      last := if k < m then m else k;
      forall i | i in s
        ensures i <= last
      {
        assert i == k || i in rest;
      }
    }
  }

  // ----- the limiter as it is described -----

  /** The attempts a limiter counts that records a request only when it allows it. */
  ghost function RecordedBefore(attempts: seq<real>, rate: int, k: nat): set<nat>
    requires k <= |attempts|
    decreases k, 0
  {
    set j: nat | j < k && DescribedAt(attempts, rate, j)
  }

  /** What the description promises: only requests allowed in the last 60 seconds count. */
  ghost predicate DescribedAt(attempts: seq<real>, rate: int, k: nat)
    requires k < |attempts|
    decreases k, 1
  {
    |set j | j in RecordedBefore(attempts, rate, k) && attempts[j] > attempts[k] - WINDOW| < rate
  }

  /** Counting denied attempts only makes the limit stricter than described. */
  lemma StricterThanDescribed(attempts: seq<real>, rate: int, k: nat)
    requires forall i, j :: 0 <= i < j < |attempts| ==> attempts[i] < attempts[j]
    requires k < |attempts| && AllowedAt(attempts, rate, k)
    ensures DescribedAt(attempts, rate, k)
  {
    var counted := set j | j in RecordedBefore(attempts, rate, k) && attempts[j] > attempts[k] - WINDOW;
    CountedBefore(attempts, k, counted);
  }

  /** The two limiters decide a whole run alike exactly when every denied attempt had `rate`
      allowed ones in its own window; a client that retries while denied breaks that. */
  lemma AgreesWithDescription(attempts: seq<real>, rate: int)
    requires forall i, j :: 0 <= i < j < |attempts| ==> attempts[i] < attempts[j]
    ensures (forall k: nat :: k < |attempts| ==> (AllowedAt(attempts, rate, k) <==> DescribedAt(attempts, rate, k)))
      <==> forall k: nat :: k < |attempts| && !AllowedAt(attempts, rate, k) ==>
        |AllowedRecently(attempts, rate, k)| >= rate
  {
    if forall k: nat :: k < |attempts| ==> (AllowedAt(attempts, rate, k) <==> DescribedAt(attempts, rate, k)) {
      forall k: nat | k < |attempts| && !AllowedAt(attempts, rate, k)
        ensures |AllowedRecently(attempts, rate, k)| >= rate
      {
        assert AllowedRecently(attempts, rate, k)
          == set j | j in RecordedBefore(attempts, rate, k) && attempts[j] > attempts[k] - WINDOW;
      }
    }
    if forall k: nat :: k < |attempts| && !AllowedAt(attempts, rate, k) ==>
      |AllowedRecently(attempts, rate, k)| >= rate {
      SameDecisions(attempts, rate, |attempts|);
    }
  }

  /** The allowed attempts in the 60 seconds before attempt `k`. */
  ghost function AllowedRecently(attempts: seq<real>, rate: int, k: nat): set<nat>
    requires k < |attempts|
  {
    set j: nat | j < k && AllowedAt(attempts, rate, j) && attempts[j] > attempts[k] - WINDOW
  }

  lemma {:induction false} SameDecisions(attempts: seq<real>, rate: int, n: nat)
    requires forall i, j :: 0 <= i < j < |attempts| ==> attempts[i] < attempts[j]
    requires forall k: nat :: k < |attempts| && !AllowedAt(attempts, rate, k) ==>
      |AllowedRecently(attempts, rate, k)| >= rate
    requires n <= |attempts|
    ensures forall k: nat :: k < n ==> (AllowedAt(attempts, rate, k) <==> DescribedAt(attempts, rate, k))
  {
    if n == 0 {
    } else {
      var k := n - 1;
      SameDecisions(attempts, rate, k);
      if AllowedAt(attempts, rate, k) {
        StricterThanDescribed(attempts, rate, k);
      } else {
        assert AllowedRecently(attempts, rate, k)
          == set j | j in RecordedBefore(attempts, rate, k) && attempts[j] > attempts[k] - WINDOW;
      }
    }
  }

  /** One request a minute is allowed, at 0, 40 and 80 seconds one asks: the description allows
      the third request, the code still denies it because of the denied second one. */
  lemma RetryingProlongsTheBan()
    ensures var attempts := [0.0, 40.0, 80.0];
      DescribedAt(attempts, 1, 2) && !AllowedAt(attempts, 1, 2)
  {
    var attempts := [0.0, 40.0, 80.0];
    assert attempts[..0] == [] && attempts[..1] == [0.0] && attempts[..2] == [0.0, 40.0];
    assert Since([0.0], -20.0) == {0.0};
    assert Since([0.0, 40.0], 20.0) == {40.0};
    assert DescribedAt(attempts, 1, 0);
    assert RecordedBefore(attempts, 1, 1) == {0};
    assert (set j | j in RecordedBefore(attempts, 1, 1) && attempts[j] > attempts[1] - WINDOW) == {0};
    assert !DescribedAt(attempts, 1, 1);
    assert RecordedBefore(attempts, 1, 2) == {0};
    assert (set j | j in RecordedBefore(attempts, 1, 2) && attempts[j] > attempts[2] - WINDOW) == {};
  }
}
