/**
 * The session lock on Redis (src/core/session_lock.py:29-35, 57-106): SET NX with a TTL, and a
 * release script that deletes the key only if it still holds the caller's token.
 */
module SessionLock {
  import opened Basics

  datatype Entry = Entry(token: string, expiresAt: real)

  type Keys = map<string, Entry>

  /** A key past its TTL is as good as absent. */
  predicate Live(keys: Keys, now: real, session: string)
  {
    session in keys && now < keys[session].expiresAt
  }

  /** `SET key token NX EX ttl`. */
  function SetIfAbsent(keys: Keys, now: real, session: string, token: string, ttl: int): Keys
  {
    if Live(keys, now, session) then keys else keys[session := Entry(token, now + ttl as real)]
  }

  /** The release script: GET, compare, DEL as one step. */
  function DeleteIfEqual(keys: Keys, now: real, session: string, token: string): Keys
  {
    if Live(keys, now, session) && keys[session].token == token then keys - {session} else keys
  }

  // ----- all workers together -----

  /** One lock object, and until when it holds its session: from an acquire that succeeded to the
      release or the end of the TTL. */
  datatype Holder = Holder(session: string, ttl: int, acquired: bool, leaseEnd: Option<real>)

  datatype System = System(clock: real, keys: Keys, holders: map<string, Holder>)

  datatype Step =
    | Tick(delta: real)
    | Create(token: string, session: string, ttl: int)
    | Acquire(token: string)
    | Release(token: string)

  /** One atomic step of any worker or of the clock; a step that cannot be taken changes nothing. */
  function Next(s: System, step: Step): System
  {
    match step
    case Tick(delta) =>
      if delta > 0.0 then s.(clock := s.clock + delta) else s
    case Create(token, session, ttl) =>
      if token in s.holders then s else s.(holders := s.holders[token := Holder(session, ttl, false, None)])
    case Acquire(token) =>
      if token !in s.holders then s
      else
        var h := s.holders[token];
        if h.ttl <= 0 then s.(holders := s.holders[token := h.(acquired := true)])
        else if Live(s.keys, s.clock, h.session) then s.(holders := s.holders[token := h.(acquired := false)])
        else
          s.(keys := SetIfAbsent(s.keys, s.clock, h.session, token, h.ttl),
             holders := s.holders[token := h.(acquired := true, leaseEnd := Some(s.clock + h.ttl as real))])
    case Release(token) =>
      if token !in s.holders || !s.holders[token].acquired then s
      else
        var h := s.holders[token];
        s.(keys := DeleteIfEqual(s.keys, s.clock, h.session, token),
           holders := s.holders[token := h.(leaseEnd := None)])
  }

  function Run(s: System, steps: seq<Step>): System
  {
    if steps == [] then s else Next(Run(s, steps[..|steps| - 1]), steps[|steps| - 1])
  }

  lemma RunGrows(s: System, steps: seq<Step>, step: Step)
    ensures Run(s, steps + [step]) == Next(Run(s, steps), step)
  {
    assert (steps + [step])[..|steps|] == steps;
  }

  const START := System(0.0, map[], map[])

  /** What an acquire does: with no live key on the session the key is set and a lease begins, both
      for the TTL; with one nothing but the flag changes. */
  lemma AcquireIs(s: System, token: string, h: Holder, taken: bool)
    requires token in s.holders && s.holders[token] == h && h.ttl > 0
    requires taken <==> h.session in s.keys && s.clock < s.keys[h.session].expiresAt
    ensures Next(s, Acquire(token)) ==
      if taken then System(s.clock, s.keys, s.holders[token := Holder(h.session, h.ttl, false, h.leaseEnd)])
      else
        var end := s.clock + h.ttl as real;
        System(s.clock, s.keys[h.session := Entry(token, end)],
               s.holders[token := Holder(h.session, h.ttl, true, Some(end))])
  {
  }

  /** What a release does: nothing if the flag is not set; else the lease ends, and a live key on the
      session goes if it carries the caller's token. */
  lemma ReleaseIs(s: System, token: string, h: Holder, own: bool)
    requires token in s.holders && s.holders[token] == h
    requires own <==> h.session in s.keys && s.clock < s.keys[h.session].expiresAt && s.keys[h.session].token == token
    ensures Next(s, Release(token)) ==
      if !h.acquired then s
      else System(s.clock, if own then s.keys - {h.session} else s.keys,
                  s.holders[token := Holder(h.session, h.ttl, true, None)])
  {
  }

  // ----- the store and the locks on it -----

  class Redis {
    var clock: real
    var keys: Keys

    constructor ()
      ensures clock == 0.0 && keys == map[]
      ensures Stands(this, {}, Run(START, []))
    {
      clock, keys := 0.0, map[];
    }

    /** Time passes. */
    method Advance(delta: real, ghost locks: set<Lock>, ghost steps: seq<Step>)
      requires delta > 0.0 && Stands(this, locks, Run(START, steps))
      modifies this`clock
      ensures clock == old(clock) + delta && Stands(this, locks, Run(START, steps + [Tick(delta)]))
    {
      RunGrows(START, steps, Tick(delta));
      clock := clock + delta;
    }
  }

  /** The store and the lock objects on it are in this state of the system. */
  ghost predicate Stands(redis: Redis, locks: set<Lock>, s: System)
    reads redis, locks
  {
    && redis.clock == s.clock && redis.keys == s.keys
    && (forall lock :: lock in locks ==>
          && lock.redis == redis && lock.token in s.holders
          && var h := s.holders[lock.token];
            h.session == lock.sessionId && h.ttl == lock.ttl && h.acquired == lock.acquired)
    && (forall token :: token in s.holders ==> exists lock :: lock in locks && lock.token == token)
    && (forall a, b :: a in locks && b in locks && a.token == b.token ==> a == b)
  }

  class Lock {
    const sessionId: string
    const token: string
    const ttl: int
    const redis: Redis
    var acquired: bool

    /** Tokens are drawn at random, so a new one is distinct from all others. */
    constructor (sessionId: string, redis: Redis, ttl: int, token: string, ghost locks: set<Lock>,
                 ghost steps: seq<Step>)
      requires Stands(redis, locks, Run(START, steps)) && forall lock :: lock in locks ==> lock.token != token
      ensures !acquired && this.sessionId == sessionId && this.redis == redis && this.ttl == ttl && this.token == token
      ensures Stands(redis, locks + {this}, Run(START, steps + [Create(token, sessionId, ttl)]))
    {
      RunGrows(START, steps, Create(token, sessionId, ttl));
      this.sessionId, this.redis, this.ttl, this.token := sessionId, redis, ttl, token;
      acquired := false;
    }

    /** `acquire`. Redis refuses a TTL that is not positive, and the lock then fails open. */
    method Acquire(ghost locks: set<Lock>, ghost steps: seq<Step>) returns (ok: bool)
      requires this in locks && Stands(redis, locks, Run(START, steps))
      modifies this`acquired, redis`keys
      ensures Stands(redis, locks, Run(START, steps + [Step.Acquire(token)]))
      ensures ok == acquired == (ttl <= 0 || !old(Live(redis.keys, redis.clock, sessionId)))
      ensures redis.keys == if ttl <= 0 then old(redis.keys)
        else SetIfAbsent(old(redis.keys), redis.clock, sessionId, token, ttl)
      ensures var was := old(redis.keys);
        if ttl <= 0 || (sessionId in was && redis.clock < was[sessionId].expiresAt) then
          redis.keys == was && (acquired <==> ttl <= 0)
        else redis.keys == was[sessionId := Entry(token, redis.clock + ttl as real)] && acquired
    {
      RunGrows(START, steps, Step.Acquire(token));
      if ttl <= 0 {
        acquired := true;
        return true;
      }
      if sessionId in redis.keys && redis.clock < redis.keys[sessionId].expiresAt {
        acquired := false;
      } else {
        redis.keys := redis.keys[sessionId := Entry(token, redis.clock + ttl as real)];
        acquired := true;
      }
      return acquired;
    }

    /** `release`: leaves the flag as it is, and never touches a key with another token. */
    method Release(ghost locks: set<Lock>, ghost steps: seq<Step>)
      requires this in locks && Stands(redis, locks, Run(START, steps))
      modifies redis`keys
      ensures Stands(redis, locks, Run(START, steps + [Step.Release(token)]))
      ensures redis.keys == if acquired then DeleteIfEqual(old(redis.keys), redis.clock, sessionId, token)
        else old(redis.keys)
      ensures var was := old(redis.keys);
        redis.keys ==
          if acquired && sessionId in was && redis.clock < was[sessionId].expiresAt && was[sessionId].token == token
          then was - {sessionId} else was
    {
      RunGrows(START, steps, Step.Release(token));
      if !acquired {
        return;
      }
      if sessionId in redis.keys && redis.clock < redis.keys[sessionId].expiresAt
        && redis.keys[sessionId].token == token {
        redis.keys := redis.keys - {sessionId};
      }
    }
  }

  // ----- runs -----

  /** The worker of this lock is inside its lease. */
  predicate InLease(s: System, token: string)
  {
    token in s.holders && s.holders[token].leaseEnd.Some? && s.clock < s.holders[token].leaseEnd.value
  }

  /** The live keys are exactly the leases: who is inside one owns the key, to the same moment... */
  predicate OwnsKey(s: System, token: string)
  {
    InLease(s, token) ==>
      var h := s.holders[token];
      h.ttl > 0 && h.session in s.keys && s.keys[h.session] == Entry(token, h.leaseEnd.value)
  }

  /** ... and whoever a live key names is inside the lease. */
  predicate IsOwned(s: System, session: string)
  {
    Live(s.keys, s.clock, session) ==>
      var token := s.keys[session].token;
      InLease(s, token) && s.holders[token].session == session
  }

  ghost predicate Consistent(s: System)
  {
    && (forall token :: OwnsKey(s, token))
    && forall session :: IsOwned(s, session)
  }

  lemma StepKeepsConsistent(s: System, step: Step)
    requires Consistent(s)
    ensures Consistent(Next(s, step))
  {
    var s' := Next(s, step);
    forall token
      ensures OwnsKey(s', token)
    {
      assert OwnsKey(s, token);
      match step
      case Acquire(other) => KeysApart(s, token, other);
      case Release(other) => KeysApart(s, token, other);
      case _ =>
    }
    forall session
      ensures IsOwned(s', session)
    {
      assert IsOwned(s, session);
      if session in s.keys {
        assert OwnsKey(s, s.keys[session].token);
      }
    }
  }

  /** Two leases on one session would both own its key. */
  lemma KeysApart(s: System, a: string, b: string)
    requires Consistent(s)
    ensures InLease(s, a) && InLease(s, b) && s.holders[a].session == s.holders[b].session ==> a == b
    ensures InLease(s, a) && b in s.holders && s.holders[b].session == s.holders[a].session ==>
      Live(s.keys, s.clock, s.holders[b].session) && s.keys[s.holders[b].session].token == a
  {
    assert OwnsKey(s, a) && OwnsKey(s, b);
  }

  lemma {:induction false} RunIsConsistent(steps: seq<Step>)
    ensures Consistent(Run(START, steps))
  {
    if steps == [] {
    } else {
      RunIsConsistent(steps[..|steps| - 1]);
      StepKeepsConsistent(Run(START, steps[..|steps| - 1]), steps[|steps| - 1]);
    }
  }

  /** Over all interleavings: at most one worker per session is inside its unexpired lease. */
  lemma MutualExclusion(steps: seq<Step>, a: string, b: string)
    requires var s := Run(START, steps);
      InLease(s, a) && InLease(s, b) && s.holders[a].session == s.holders[b].session
    ensures a == b
  {
    RunIsConsistent(steps);
    KeysApart(Run(START, steps), a, b);
  }

  /** Over all interleavings: an acquire succeeds exactly when no worker is inside a lease on the
      session, so a holder that crashed blocks it for one TTL and no longer. */
  lemma AcquireSucceedsWhenFree(steps: seq<Step>, token: string)
    requires var s := Run(START, steps); token in s.holders && s.holders[token].ttl > 0
    ensures var s := Run(START, steps); var h := s.holders[token];
      Next(s, Acquire(token)).holders[token].acquired <==>
        !exists other :: InLease(s, other) && s.holders[other].session == h.session
  {
    var s := Run(START, steps);
    var session := s.holders[token].session;
    RunIsConsistent(steps);
    if Live(s.keys, s.clock, session) {
      assert IsOwned(s, session);
    } else if other :| InLease(s, other) && s.holders[other].session == session {
      assert OwnsKey(s, other);
    }
  }

  /** Over all interleavings: a release takes away no lease but the caller's own, and no key that
      carries another token. */
  lemma ReleaseTakesOnlyOwn(steps: seq<Step>, token: string, other: string, session: string)
    requires other != token
    ensures var s := Run(START, steps); var s' := Next(s, Release(token));
      && (InLease(s', other) <==> InLease(s, other))
      && (session in s.keys && s.keys[session].token != token ==>
          session in s'.keys && s'.keys[session] == s.keys[session])
      && (InLease(s', other) ==>
          Live(s'.keys, s'.clock, s'.holders[other].session) && s'.keys[s'.holders[other].session].token == other)
  {
    var s := Run(START, steps);
    RunIsConsistent(steps);
    StepKeepsConsistent(s, Release(token));
    assert OwnsKey(Next(s, Release(token)), other);
  }

  /** The last acquire of this lock was made inside a lease of its own, and so was refused. */
  predicate AcquiredAgain(steps: seq<Step>, token: string)
  {
    && steps != []
    && var earlier, last := steps[..|steps| - 1], steps[|steps| - 1];
      if last == Acquire(token) then InLease(Run(START, earlier), token) else AcquiredAgain(earlier, token)
  }

  /** Over all interleavings: inside a lease the lock knows that it holds, except exactly after a
      further acquire of its own. */
  lemma {:induction false} FlagInsideLease(steps: seq<Step>, token: string)
    requires InLease(Run(START, steps), token)
    ensures Run(START, steps).holders[token].acquired <==> !AcquiredAgain(steps, token)
  {
    if steps == [] {
    } else {
      var earlier, last := steps[..|steps| - 1], steps[|steps| - 1];
      var s := Run(START, earlier);
      RunIsConsistent(earlier);
      assert OwnsKey(s, token);
      if InLease(s, token) {
        FlagInsideLease(earlier, token);
      } else {
        assert last == Acquire(token);
      }
    }
  }

  /** Over all interleavings: a release by the worker inside a lease frees the session if and only
      if it has not acquired again; otherwise the key stays until the end of the TTL. */
  lemma ReleaseFreesSession(steps: seq<Step>, token: string)
    requires InLease(Run(START, steps), token)
    ensures var s := Run(START, steps); var after := Next(s, Release(token)); var session := s.holders[token].session;
      && (!Live(after.keys, after.clock, session) <==> !AcquiredAgain(steps, token))
      && (AcquiredAgain(steps, token) ==> after == s)
  {
    RunIsConsistent(steps);
    FlagInsideLease(steps, token);
    assert OwnsKey(Run(START, steps), token);
  }

  /** A holder that acquires again is told no and forgets that it holds: its release then leaves
      the key, which blocks the session until the TTL ends. */
  lemma ReacquireForgets(token: string, session: string, ttl: int)
    requires ttl > 0
    ensures var s := Run(START, [Create(token, session, ttl), Acquire(token), Acquire(token), Release(token)]);
      token in s.holders && !s.holders[token].acquired && Live(s.keys, s.clock, session)
  {
    var c, a, r := Create(token, session, ttl), Acquire(token), Release(token);
    assert [c][..0] == [] && [c, a][..1] == [c] && [c, a, a][..2] == [c, a] && [c, a, a, r][..3] == [c, a, a];
    assert Run(START, []) == START;
    var s1 := Run(START, [c]);
    assert s1 == Next(START, c);
    var s2 := Run(START, [c, a]);
    assert s2 == Next(s1, a);
    var s3 := Run(START, [c, a, a]);
    assert s3 == Next(s2, a);
  }
}
