/**
 The attempt limiter of the sign-in routes: a counter that is to live 300 seconds from its first
 attempt, and a lockout of 900 seconds set by the sixth. Time is counted in seconds; a key with a
 time to live is gone from its expiry on. Each Redis command is one atomic step.
 */
module RateLimiter {
  import opened Wrappers

  const MAX_AUTH_ATTEMPTS: nat := 5
  const RATE_LIMIT_WINDOW: nat := 300
  const LOCKOUT_DURATION: nat := 900

  type Time = int

  /** A counter key. `started` is when it was first counted; the program does not store it. */
  datatype Counter = Counter(attempts: nat, started: Time, expires: Option<Time>)

  /** The two keys of one identifier. */
  datatype Store = Store(counter: Option<Counter>, lockedUntil: Option<Time>)

  predicate Alive(c: Option<Counter>, now: Time)
  {
    c.Some? && (c.value.expires.Some? ==> now < c.value.expires.value)
  }

  predicate Locked(s: Store, now: Time)
  {
    s.lockedUntil.Some? && now < s.lockedUntil.value
  }

  // ---------------------------------------------------------------------------------------------
  // The commands
  // ---------------------------------------------------------------------------------------------

  /** `INCR`: a key that is absent or expired starts from nothing, and without an expiry. */
  function Incr(s: Store, now: Time): (r: Store)
    ensures r.counter.Some?
  {
    s.(counter := Some(if Alive(s.counter, now) then s.counter.value.(attempts := s.counter.value.attempts + 1)
                       else Counter(1, now, None)))
  }

  /** `EXPIRE` of whatever counter is there. */
  function Expire(s: Store, now: Time): (r: Store)
  {
    if Alive(s.counter, now) then s.(counter := Some(s.counter.value.(expires := Some(now + RATE_LIMIT_WINDOW)))) else s
  }

  /** `SETEX` of the lockout. */
  function Lock(s: Store, now: Time): (r: Store)
  {
    s.(lockedUntil := Some(now + LOCKOUT_DURATION))
  }

  /** `DEL` of the counter. */
  function Clear(s: Store): (r: Store)
  {
    s.(counter := None)
  }

  // ---------------------------------------------------------------------------------------------
  // One attempt left alone
  // ---------------------------------------------------------------------------------------------

  datatype Outcome = Outcome(store: Store, accepted: bool)

  function Attempt(s: Store, now: Time): (r: Outcome)
  {
    if Locked(s, now) then Outcome(s, false)
    else
      var counted := Incr(s, now);
      var attempts := counted.counter.value.attempts;
      var dated := if attempts == 1 then Expire(counted, now) else counted;
      if attempts > MAX_AUTH_ATTEMPTS then Outcome(Lock(dated, now), false) else Outcome(dated, true)
  }

  /** Accepted means: not locked out, and at most the fifth on a live counter, or the first on a new one. */
  lemma AttemptAnswers(s: Store, now: Time)
    requires s.counter.Some? ==> s.counter.value.attempts >= 1
    ensures var attempts := if Alive(s.counter, now) then s.counter.value.attempts else 0;
            && (Attempt(s, now).accepted <==> !Locked(s, now) && attempts < MAX_AUTH_ATTEMPTS)
            && (!Locked(s, now) ==> Attempt(s, now).store.counter.value.attempts == attempts + 1)
            && (!Locked(s, now) && attempts == 0 ==>
                  Attempt(s, now).store.counter == Some(Counter(1, now, Some(now + RATE_LIMIT_WINDOW))))
            && (!Locked(s, now) && attempts >= MAX_AUTH_ATTEMPTS ==>
                  Attempt(s, now).store.lockedUntil == Some(now + LOCKOUT_DURATION))
  {
  }

  type Identifier = string

  class Redis {
    var counters: map<Identifier, Counter>
    var lockouts: map<Identifier, Time>

    ghost function StoreOf(id: Identifier): Store
      reads this
    {
      Store(if id in counters then Some(counters[id]) else None, if id in lockouts then Some(lockouts[id]) else None)
    }

    method IncrCounter(id: Identifier, now: Time) returns (attempts: nat)
      modifies this
      ensures StoreOf(id) == Incr(old(StoreOf(id)), now) && attempts == StoreOf(id).counter.value.attempts
      ensures forall other :: other != id ==> StoreOf(other) == old(StoreOf(other))
    {
      if id in counters && (counters[id].expires.Some? ==> now < counters[id].expires.value) {
        attempts := counters[id].attempts + 1;
        counters := counters[id := counters[id].(attempts := attempts)];
      } else {
        attempts := 1;
        counters := counters[id := Counter(1, now, None)];
      }
    }

    method ExpireCounter(id: Identifier, now: Time)
      modifies this
      ensures StoreOf(id) == Expire(old(StoreOf(id)), now)
      ensures forall other :: other != id ==> StoreOf(other) == old(StoreOf(other))
    {
      if id in counters && (counters[id].expires.Some? ==> now < counters[id].expires.value) {
        counters := counters[id := counters[id].(expires := Some(now + RATE_LIMIT_WINDOW))];
      }
    }

    method CheckRateLimit(id: Identifier, now: Time) returns (accepted: bool)
      modifies this
      ensures Outcome(StoreOf(id), accepted) == Attempt(old(StoreOf(id)), now)
      ensures forall other :: other != id ==> StoreOf(other) == old(StoreOf(other))
    {
      if id in lockouts && now < lockouts[id] {
        return false;
      }
      var attempts := IncrCounter(id, now);
      if attempts == 1 {
        ExpireCounter(id, now);
      }
      if attempts > MAX_AUTH_ATTEMPTS {
        lockouts := lockouts[id := now + LOCKOUT_DURATION];
        return false;
      }
      accepted := true;
    }

    method ClearRateLimit(id: Identifier)
      modifies this
      ensures StoreOf(id) == Clear(old(StoreOf(id)))
      ensures id !in counters && lockouts == old(lockouts)
      ensures forall other :: other != id ==> StoreOf(other) == old(StoreOf(other))
    {
      counters := counters - {id};
    }
  }
}
