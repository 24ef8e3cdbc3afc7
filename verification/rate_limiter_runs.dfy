/**
 Attempts that come between each other's commands. An attempt looks for a lockout, counts itself,
 perhaps sets the counter's expiry or the lockout, and may be cut off before any of these.
 */
module RateLimiterRuns {
  import opened Wrappers
  import opened RateLimiter

  datatype Place = AtLook | AtCount | AtExpire | AtLock | Ended

  /** The keys of one identifier, and where each attempt on it has got to. */
  datatype State = State(store: Store, tasks: seq<Place>)

  datatype Step =
    | Arrive(at: Time)
    | Look(at: Time, task: nat)
    | Count(at: Time, task: nat)
    | SetExpiry(at: Time, task: nat)
    | SetLock(at: Time, task: nat)
    | CutOff(at: Time, task: nat)
    | Reset(at: Time)

  predicate Stands(s: State, task: nat, place: Place)
  {
    task < |s.tasks| && s.tasks[task] == place
  }

  function Move(s: State, task: nat, store: Store, place: Place): (r: State)
    requires task < |s.tasks|
  {
    State(store, s.tasks[task := place])
  }

  /** Where an attempt goes that was counted as this many. */
  function AfterCount(attempts: nat): (r: Place)
  {
    if attempts == 1 then AtExpire else if attempts > MAX_AUTH_ATTEMPTS then AtLock else Ended
  }

  /** One command; a step its attempt is not ready for changes nothing. */
  function Next(s: State, e: Step): (r: State)
  {
    match e
    case Arrive(_) => s.(tasks := s.tasks + [AtLook])
    case Look(now, p) =>
      if Stands(s, p, AtLook) then Move(s, p, s.store, if Locked(s.store, now) then Ended else AtCount) else s
    case Count(now, p) =>
      if Stands(s, p, AtCount) then
        var store := Incr(s.store, now);
        Move(s, p, store, AfterCount(store.counter.value.attempts))
      else s
    case SetExpiry(now, p) => if Stands(s, p, AtExpire) then Move(s, p, Expire(s.store, now), Ended) else s
    case SetLock(now, p) => if Stands(s, p, AtLock) then Move(s, p, Lock(s.store, now), Ended) else s
    case CutOff(_, p) => if p < |s.tasks| then Move(s, p, s.store, Ended) else s
    case Reset(_) => s.(store := Clear(s.store))
  }

  /** The step that decides for an attempt: it is counted, and not beyond the fifth. */
  predicate Accepts(s: State, e: Step)
  {
    e.Count? && Stands(s, e.task, AtCount) && Incr(s.store, e.at).counter.value.attempts <= MAX_AUTH_ATTEMPTS
  }

  function Run(s: State, steps: seq<Step>): (r: State)
    decreases |steps|
  {
    if steps == [] then s else Run(Next(s, steps[0]), steps[1..])
  }

  predicate InOrder(now: Time, steps: seq<Step>)
    decreases |steps|
  {
    steps == [] || (now <= steps[0].at && InOrder(steps[0].at, steps[1..]))
  }

  /** How many attempts are accepted from `from` on and before `to`. */
  function AcceptedWithin(s: State, steps: seq<Step>, from: Time, to: Time): (r: nat)
    decreases |steps|
  {
    if steps == [] then 0
    else
      (if Accepts(s, steps[0]) && from <= steps[0].at < to then 1 else 0)
      + AcceptedWithin(Next(s, steps[0]), steps[1..], from, to)
  }

  function Resets(steps: seq<Step>): (r: nat)
  {
    if steps == [] then 0 else (if steps[0].Reset? then 1 else 0) + Resets(steps[1..])
  }

  /**
   What holds of the counter in every reachable state: an expiry leaves it 300 seconds at least from
   its first attempt, and 300 at most from now.
   */
  predicate Sane(s: State, now: Time)
  {
    s.store.counter.Some? ==>
      var c := s.store.counter.value;
      && c.attempts >= 1 && c.started <= now
      && (c.expires.Some? ==> c.started + RATE_LIMIT_WINDOW <= c.expires.value <= now + RATE_LIMIT_WINDOW)
  }

  lemma SaneStep(s: State, now: Time, e: Step)
    requires Sane(s, now) && now <= e.at
    ensures Sane(Next(s, e), e.at)
  {
  }

  // ---------------------------------------------------------------------------------------------
  // Bounds
  // ---------------------------------------------------------------------------------------------

  function Left(c: Counter): (r: nat)
  {
    if c.attempts >= MAX_AUTH_ATTEMPTS then 0 else MAX_AUTH_ATTEMPTS - c.attempts
  }

  /** What can still be accepted in the 300 seconds from `from` on, without a reset. */
  function Allowance(s: State, now: Time, from: Time): (r: nat)
  {
    if now >= from + RATE_LIMIT_WINDOW then 0
    else if now < from then 2 * MAX_AUTH_ATTEMPTS - 1
    else if !Alive(s.store.counter, now) then MAX_AUTH_ATTEMPTS
    else if s.store.counter.value.started >= from then Left(s.store.counter.value)
    else Left(s.store.counter.value) + MAX_AUTH_ATTEMPTS
  }

  lemma StepUsesAllowance(s: State, now: Time, e: Step, from: Time)
    requires Sane(s, now) && now <= e.at
    ensures Allowance(Next(s, e), e.at, from)
            + (if Accepts(s, e) && from <= e.at < from + RATE_LIMIT_WINDOW then 1 else 0)
            <= Allowance(s, now, from) + if e.Reset? then MAX_AUTH_ATTEMPTS else 0
  {
  }

  lemma {:induction false} WindowWithinAllowance(s: State, now: Time, steps: seq<Step>, from: Time)
    requires Sane(s, now) && InOrder(now, steps)
    ensures AcceptedWithin(s, steps, from, from + RATE_LIMIT_WINDOW)
            <= Allowance(s, now, from) + MAX_AUTH_ATTEMPTS * Resets(steps)
    decreases |steps|
  {
    hide Next, Accepts, Allowance, Sane;
    if steps != [] {
      SaneStep(s, now, steps[0]);
      StepUsesAllowance(s, now, steps[0], from);
      WindowWithinAllowance(Next(s, steps[0]), steps[0].at, steps[1..], from);
    }
  }

  /**
   In every interleaving at most nine attempts are accepted in any half-open 300 seconds, and five
   more for each time the counter is cleared.
   */
  lemma AtMostNinePerWindow(s: State, now: Time, steps: seq<Step>, from: Time)
    requires Sane(s, now) && InOrder(now, steps)
    ensures AcceptedWithin(s, steps, from, from + RATE_LIMIT_WINDOW)
            <= 2 * MAX_AUTH_ATTEMPTS - 1 + MAX_AUTH_ATTEMPTS * Resets(steps)
  {
    WindowWithinAllowance(s, now, steps, from);
  }

  /** No step of the run finds the counter gone: all are in one life of it. */
  predicate OneLife(s: State, steps: seq<Step>)
    decreases |steps|
  {
    steps == [] ||
    (Alive(s.store.counter, steps[0].at) && !steps[0].Reset? && OneLife(Next(s, steps[0]), steps[1..]))
  }

  /** In every interleaving at most five attempts are accepted in one life of the counter, its first included. */
  lemma {:induction false} AtMostFivePerCounter(s: State, steps: seq<Step>, from: Time, to: Time)
    requires s.store.counter.Some? && s.store.counter.value.attempts >= 1 && OneLife(s, steps)
    ensures AcceptedWithin(s, steps, from, to) <= Left(s.store.counter.value) <= MAX_AUTH_ATTEMPTS - 1
    decreases |steps|
  {
    if steps != [] {
      AtMostFivePerCounter(Next(s, steps[0]), steps[1..], from, to);
    }
  }

  // ---------------------------------------------------------------------------------------------
  // The lockout
  // ---------------------------------------------------------------------------------------------

  /** Attempts that looked for a lockout and are still to be counted. */
  function Uncounted(s: State): (r: set<nat>)
  {
    set p: nat | p < |s.tasks| && s.tasks[p] == AtCount
  }

  predicate LockedFor(s: State, until: Time)
  {
    s.store.lockedUntil.Some? && until <= s.store.lockedUntil.value
  }

  /** While a lockout lasts no further attempt gets past its look. */
  lemma LockoutStopsLooks(s: State, e: Step, until: Time)
    requires LockedFor(s, until) && e.at < until <= e.at + LOCKOUT_DURATION
    ensures LockedFor(Next(s, e), until)
    ensures Uncounted(Next(s, e)) <= Uncounted(s)
    ensures Accepts(s, e) ==> e.task in Uncounted(s)
  {
  }

  /** The step counts an attempt. */
  predicate Counts(s: State, e: Step)
  {
    e.Count? && Stands(s, e.task, AtCount)
  }

  /** It counts one and finds no live counter. */
  predicate CountsLate(s: State, e: Step)
  {
    Counts(s, e) && !Alive(s.store.counter, e.at)
  }

  function Counted(s: State, steps: seq<Step>): (r: nat)
    decreases |steps|
  {
    if steps == [] then 0 else (if Counts(s, steps[0]) then 1 else 0) + Counted(Next(s, steps[0]), steps[1..])
  }

  function LateCounts(s: State, steps: seq<Step>): (r: nat)
    decreases |steps|
  {
    if steps == [] then 0 else (if CountsLate(s, steps[0]) then 1 else 0) + LateCounts(Next(s, steps[0]), steps[1..])
  }

  /** There is no live counter below five. */
  predicate Full(s: State, now: Time)
  {
    Alive(s.store.counter, now) ==> s.store.counter.value.attempts >= MAX_AUTH_ATTEMPTS
  }

  /** Steps that count an attempt, by those that had already looked. */
  predicate OnlyEarlier(s: State, steps: seq<Step>, earlier: set<nat>)
    decreases |steps|
  {
    steps == [] ||
    ((Accepts(s, steps[0]) ==> steps[0].task in earlier) && OnlyEarlier(Next(s, steps[0]), steps[1..], earlier))
  }

  /** Whatever is accepted during a lockout had looked before the lockout was set. */
  lemma {:induction false} LockoutStopsAllButEarlier(s: State, now: Time, steps: seq<Step>, until: Time,
                                                     earlier: set<nat>)
    requires LockedFor(s, until) && InOrder(now, steps) && until <= now + LOCKOUT_DURATION
    requires (forall e :: e in steps ==> e.at < until) && Uncounted(s) <= earlier
    ensures OnlyEarlier(s, steps, earlier)
    decreases |steps|
  {
    hide Next, Accepts, LockedFor, Uncounted;
    if steps != [] {
      LockoutStopsLooks(s, steps[0], until);
      LockoutStopsAllButEarlier(Next(s, steps[0]), steps[0].at, steps[1..], until, earlier);
    }
  }

  lemma FullStep(s: State, now: Time, e: Step)
    requires Full(s, now) && now <= e.at && !CountsLate(s, e)
    ensures Full(Next(s, e), e.at) && !Accepts(s, e)
  {
  }

  lemma LateIsAccepted(s: State, e: Step)
    requires CountsLate(s, e)
    ensures Accepts(s, e)
  {
  }

  /** Once the counter is full, something is accepted exactly if some attempt is counted after the counter is gone. */
  lemma {:induction false} FullUntilLate(s: State, now: Time, steps: seq<Step>, from: Time, to: Time)
    requires Full(s, now) && InOrder(now, steps) && from <= now && forall e :: e in steps ==> e.at < to
    ensures AcceptedWithin(s, steps, from, to) > 0 <==> LateCounts(s, steps) > 0
    decreases |steps|
  {
    hide Next, Accepts, Full, CountsLate;
    if steps != [] {
      if CountsLate(s, steps[0]) {
        LateIsAccepted(s, steps[0]);
      } else {
        FullStep(s, now, steps[0]);
        FullUntilLate(Next(s, steps[0]), steps[0].at, steps[1..], from, to);
      }
    }
  }

  /** The counter, if there is one, is below five. */
  predicate HasRoom(s: State)
  {
    s.store.counter.Some? ==> s.store.counter.value.attempts < MAX_AUTH_ATTEMPTS
  }

  lemma RoomStep(s: State, e: Step)
    requires HasRoom(s)
    ensures Accepts(s, e) <==> Counts(s, e)
    ensures !Counts(s, e) ==> HasRoom(Next(s, e))
  {
  }

  /** While it is below five, something is accepted exactly if some attempt is counted at all. */
  lemma {:induction false} RoomUntilCounted(s: State, now: Time, steps: seq<Step>, from: Time, to: Time)
    requires HasRoom(s) && InOrder(now, steps) && from <= now && forall e :: e in steps ==> e.at < to
    ensures AcceptedWithin(s, steps, from, to) > 0 <==> Counted(s, steps) > 0
    decreases |steps|
  {
    hide Next, Accepts, HasRoom, Counts;
    if steps != [] {
      RoomStep(s, steps[0]);
      if !Counts(s, steps[0]) {
        RoomUntilCounted(Next(s, steps[0]), steps[0].at, steps[1..], from, to);
      }
    }
  }

  /**
   The 900 seconds after a lockout is set: only an attempt that had looked before can be accepted,
   so none if there is none such. One is accepted exactly if such an attempt is counted after the
   counter is gone, or, where a counter below five is already standing when the lockout is set, if
   such an attempt is counted at all.
   */
  lemma LockoutExactly(s: State, task: nat, at: Time, steps: seq<Step>)
    requires Stands(s, task, AtLock) && InOrder(at, steps)
    requires forall e :: e in steps ==> e.at < at + LOCKOUT_DURATION
    ensures var locked := Next(s, SetLock(at, task));
            var accepted := AcceptedWithin(locked, steps, at, at + LOCKOUT_DURATION);
            && OnlyEarlier(locked, steps, Uncounted(s))
            && (Uncounted(s) == {} ==> accepted == 0)
            && (accepted == 0 <==> (if Full(s, at) then LateCounts(locked, steps) else Counted(locked, steps)) == 0)
  {
    var locked := Next(s, SetLock(at, task));
    assert Uncounted(locked) <= Uncounted(s);
    LockoutStopsAllButEarlier(locked, at, steps, at + LOCKOUT_DURATION, Uncounted(s));
    if Uncounted(s) == {} {
      NoneEarlierNoneAccepted(locked, steps, at, at + LOCKOUT_DURATION);
    }
    if Full(s, at) {
      FullUntilLate(locked, at, steps, at, at + LOCKOUT_DURATION);
    } else {
      RoomUntilCounted(locked, at, steps, at, at + LOCKOUT_DURATION);
    }
  }

  lemma {:induction false} NoneEarlierNoneAccepted(s: State, steps: seq<Step>, from: Time, to: Time)
    requires OnlyEarlier(s, steps, {})
    ensures AcceptedWithin(s, steps, from, to) == 0
    decreases |steps|
  {
    if steps != [] {
      NoneEarlierNoneAccepted(Next(s, steps[0]), steps[1..], from, to);
    }
  }

  // ---------------------------------------------------------------------------------------------
  // After the lockout
  // ---------------------------------------------------------------------------------------------

  /** The step starts the counter anew, sets its expiry, or clears it. */
  predicate Renews(s: State, e: Step)
  {
    CountsLate(s, e) || (e.SetExpiry? && Stands(s, e.task, AtExpire) && Alive(s.store.counter, e.at)) || e.Reset?
  }

  function LastRenewal(s: State, steps: seq<Step>): (r: Option<Step>)
    decreases |steps|
  {
    if steps == [] then None
    else
      var later := LastRenewal(Next(s, steps[0]), steps[1..]);
      if later.None? && Renews(s, steps[0]) then Some(steps[0]) else later
  }

  /** What a renewal leaves at a later time: nothing, once cleared or 300 seconds after it was dated. */
  predicate GoneAfter(e: Step, now: Time)
  {
    e.Reset? || (e.SetExpiry? && e.at + RATE_LIMIT_WINDOW <= now)
  }

  lemma RenewalStep(s: State, e: Step, now: Time)
    ensures !Alive(Next(s, e).store.counter, now) <==>
            if Renews(s, e) then GoneAfter(e, now) else !Alive(s.store.counter, now)
  {
  }

  lemma {:induction false} LastRenewalDecides(s: State, steps: seq<Step>, now: Time)
    ensures !Alive(Run(s, steps).store.counter, now) <==>
            match LastRenewal(s, steps)
            case None => !Alive(s.store.counter, now)
            case Some(e) => GoneAfter(e, now)
    decreases |steps|
  {
    hide Next, Renews, GoneAfter, Alive;
    if steps != [] {
      RenewalStep(s, steps[0], now);
      LastRenewalDecides(Next(s, steps[0]), steps[1..], now);
    }
  }

  lemma {:induction false} SaneRun(s: State, now: Time, steps: seq<Step>)
    requires Sane(s, now) && InOrder(now, steps)
    ensures Run(s, steps).store.counter.Some? ==> Run(s, steps).store.counter.value.attempts >= 1
    decreases |steps|
  {
    hide Next;
    if steps != [] {
      SaneStep(s, now, steps[0]);
      SaneRun(Next(s, steps[0]), steps[0].at, steps[1..]);
    }
  }

  /**
   After the lockout, whatever has come between: an attempt counted then starts a counter of its own
   exactly if, of all that happened to the counter since the lockout was set, the last was that it was
   cleared, or was dated at least 300 seconds ago; and, where nothing did, if it had an expiry then.
   An attempt counted late and not dated in the first 600 seconds of the lockout is what spoils it.
   */
  lemma AfterTheLockout(s: State, task: nat, at: Time, steps: seq<Step>, p: nat, now: Time)
    requires Sane(s, at) && Stands(s, task, AtLock) && InOrder(at, steps) && now >= at + LOCKOUT_DURATION
    requires Stands(Run(Next(s, SetLock(at, task)), steps), p, AtCount)
    ensures var locked := Next(s, SetLock(at, task));
            var end := Run(locked, steps);
            (Accepts(end, Count(now, p)) && Next(end, Count(now, p)).store.counter == Some(Counter(1, now, None))) <==>
            match LastRenewal(locked, steps)
            case None => s.store.counter.Some? ==> s.store.counter.value.expires.Some?
            case Some(e) => e.Reset? || (e.SetExpiry? && e.at + RATE_LIMIT_WINDOW <= now)
  {
    var locked := Next(s, SetLock(at, task));
    SaneRun(locked, at, steps);
    LastRenewalDecides(locked, steps, now);
  }

  /** An attempt that is counted late, at `t`, and then the first one after a lockout until 1199. */
  function LateAndFirst(t: Time): (r: seq<Step>)
  {
    [Count(t, 0), SetExpiry(t, 0), Arrive(1199), Look(1199, 1), Count(1199, 1)]
  }

  /**
   The same late count early in the lockout and near its end: the first attempt after the lockout
   starts a counter of its own, or is the second on one still alive.
   */
  lemma LateCountNearTheEnd()
    ensures var s := State(Store(Some(Counter(6, 0, Some(300))), Some(1199)), [AtCount]);
            && Run(s, LateAndFirst(300)).store.counter == Some(Counter(1, 1199, None))
            && Run(s, LateAndFirst(1100)).store.counter == Some(Counter(2, 1100, Some(1400)))
  {
    var s := State(Store(Some(Counter(6, 0, Some(300))), Some(1199)), [AtCount]);
    LateThenFirst(s, 300);
    LateThenFirst(s, 1100);
  }

  lemma LateThenFirst(s: State, t: Time)
    requires s.tasks == [AtCount] && s.store.lockedUntil == Some(1199) && !Alive(s.store.counter, t)
    ensures Run(s, LateAndFirst(t)).store ==
            Incr(Store(Some(Counter(1, t, Some(t + RATE_LIMIT_WINDOW))), Some(1199)), 1199)
  {
    var s1 := Next(s, Count(t, 0));
    assert s1.tasks == [AtExpire];
    var s2 := Next(s1, SetExpiry(t, 0));
    assert s2.tasks == [Ended];
    var s3 := Next(s2, Arrive(1199));
    assert s3.tasks == [Ended, AtLook];
    var s4 := Next(s3, Look(1199, 1));
    assert s4.tasks == [Ended, AtCount];
    FiveSteps(s, Count(t, 0), SetExpiry(t, 0), Arrive(1199), Look(1199, 1), Count(1199, 1));
  }

  // ---------------------------------------------------------------------------------------------
  // A counter without an expiry
  // ---------------------------------------------------------------------------------------------

  /** The counter has no expiry, and no attempt is about to set one. */
  predicate Undated(s: State)
  {
    s.store.counter.Some? && s.store.counter.value.expires.None? && AtExpire !in s.tasks
  }

  /** Cutting an attempt off between its count and its expiry leaves the counter so, if no other is about to set one. */
  lemma CutOffLeavesUndated(s: State, p: nat, at: Time)
    requires Stands(s, p, AtExpire) && s.store.counter.Some? && s.store.counter.value.expires.None?
    ensures Undated(Next(s, CutOff(at, p))) <==> forall q :: 0 <= q < |s.tasks| && q != p ==> s.tasks[q] != AtExpire
  {
    var s' := Next(s, CutOff(at, p));
    assert forall q :: 0 <= q < |s.tasks| && q != p ==> s'.tasks[q] == s.tasks[q];
  }

  lemma UndatedStep(s: State, e: Step)
    requires Undated(s) && !e.Reset? && s.store.counter.value.attempts >= 1
    ensures Undated(Next(s, e)) && Next(s, e).store.counter.value.attempts >= 1
    ensures Left(Next(s, e).store.counter.value) + (if Accepts(s, e) then 1 else 0) <= Left(s.store.counter.value)
  {
  }

  /** Such a counter never goes away: until it is cleared, only what it has left is ever accepted. */
  lemma {:induction false} UndatedIsForever(s: State, steps: seq<Step>, from: Time, to: Time)
    requires Undated(s) && s.store.counter.value.attempts >= 1 && Resets(steps) == 0
    ensures AcceptedWithin(s, steps, from, to) <= Left(s.store.counter.value)
    ensures Undated(Run(s, steps))
    decreases |steps|
  {
    hide Next, Accepts, Undated, Left;
    if steps != [] {
      UndatedCounter(s);
      UndatedStep(s, steps[0]);
      UndatedIsForever(Next(s, steps[0]), steps[1..], from, to);
      UndatedCounter(Next(s, steps[0]));
    }
  }

  lemma UndatedCounter(s: State)
    requires Undated(s)
    ensures s.store.counter.Some?
  {
  }

  // ---------------------------------------------------------------------------------------------
  // Attempts left alone, one after the other
  // ---------------------------------------------------------------------------------------------

  lemma {:induction false} RunJoins(s: State, a: seq<Step>, b: seq<Step>, from: Time, to: Time)
    ensures Run(s, a + b) == Run(Run(s, a), b)
    ensures AcceptedWithin(s, a + b, from, to) ==
            AcceptedWithin(s, a, from, to) + AcceptedWithin(Run(s, a), b, from, to)
    decreases |a|
  {
    hide Next, Accepts;
    if a == [] {
      assert a + b == b;
    } else {
      assert (a + b)[0] == a[0] && (a + b)[1..] == a[1..] + b;
      RunJoins(Next(s, a[0]), a[1..], b, from, to);
    }
  }

  lemma OneStep(s: State, e: Step, from: Time, to: Time)
    ensures Run(s, [e]) == Next(s, e)
    ensures AcceptedWithin(s, [e], from, to) == if Accepts(s, e) && from <= e.at < to then 1 else 0
  {
    hide Next, Accepts;
    assert [e][1..] == [];
    assert Run(Next(s, e), []) == Next(s, e);
  }

  /** All the commands of attempt `p`; those it does not come to change nothing. */
  function Whole(p: nat, at: Time): (r: seq<Step>)
  {
    [Arrive(at)] + ([Look(at, p)] + ([Count(at, p)] + ([SetExpiry(at, p)] + [SetLock(at, p)])))
  }

  lemma FiveSteps(s: State, a: Step, b: Step, c: Step, d: Step, e: Step)
    ensures Run(s, [a, b, c, d, e]) == Next(Next(Next(Next(Next(s, a), b), c), d), e)
  {
    hide Next;
    var s1 := Next(s, a);
    var s2 := Next(s1, b);
    var s3 := Next(s2, c);
    var s4 := Next(s3, d);
    assert [a, b, c, d, e][1..] == [b, c, d, e] && [b, c, d, e][1..] == [c, d, e] && [c, d, e][1..] == [d, e];
    assert [d, e][1..] == [e] && [e][1..] == [];
    assert Run(s4, [e]) == Next(s4, e);
    assert Run(s3, [d, e]) == Run(s4, [e]);
    assert Run(s2, [c, d, e]) == Run(s3, [d, e]);
    assert Run(s1, [b, c, d, e]) == Run(s2, [c, d, e]);
  }

  lemma AcceptedInFive(s: State, a: Step, b: Step, c: Step, d: Step, e: Step, from: Time, to: Time)
    requires !a.Count? && !b.Count? && !d.Count? && !e.Count?
    ensures var steps := [a] + ([b] + ([c] + ([d] + [e])));
            var s2 := Next(Next(s, a), b);
            && Run(s, steps) == Next(Next(Next(s2, c), d), e)
            && AcceptedWithin(s, steps, from, to) == if Accepts(s2, c) && from <= c.at < to then 1 else 0
  {
    hide Next, Run, AcceptedWithin;
    var s1 := Next(s, a);
    var s2 := Next(s1, b);
    var s3 := Next(s2, c);
    var s4 := Next(s3, d);
    OneStep(s, a, from, to);
    OneStep(s1, b, from, to);
    OneStep(s2, c, from, to);
    OneStep(s3, d, from, to);
    OneStep(s4, e, from, to);
    RunJoins(s3, [d], [e], from, to);
    RunJoins(s2, [c], [d] + [e], from, to);
    RunJoins(s1, [b], [c] + ([d] + [e]), from, to);
    RunJoins(s, [a], [b] + ([c] + ([d] + [e])), from, to);
  }

  /** An attempt whose commands nothing comes between does what the method does. */
  lemma AloneIsAttempt(s: State, at: Time, from: Time, to: Time)
    requires s.store.counter.Some? ==> s.store.counter.value.attempts >= 1
    ensures var whole := Whole(|s.tasks|, at);
            && Run(s, whole) == State(Attempt(s.store, at).store, s.tasks + [Ended])
            && AcceptedWithin(s, whole, from, to) == if Attempt(s.store, at).accepted && from <= at < to then 1 else 0
  {
    var p := |s.tasks|;
    AcceptedInFive(s, Arrive(at), Look(at, p), Count(at, p), SetExpiry(at, p), SetLock(at, p), from, to);
  }

  /** One whole attempt after the other, at these times. */
  function OneByOne(tasks: nat, times: seq<Time>): (r: seq<Step>)
    decreases |times|
  {
    if times == [] then [] else Whole(tasks, times[0]) + OneByOne(tasks + 1, times[1..])
  }

  function AcceptedOf(store: Store, times: seq<Time>, from: Time, to: Time): (r: nat)
    decreases |times|
  {
    if times == [] then 0
    else
      var o := Attempt(store, times[0]);
      (if o.accepted && from <= times[0] < to then 1 else 0) + AcceptedOf(o.store, times[1..], from, to)
  }

  lemma {:induction false} OneByOneIsARun(s: State, times: seq<Time>, from: Time, to: Time)
    requires s.store.counter.Some? ==> s.store.counter.value.attempts >= 1
    ensures AcceptedWithin(s, OneByOne(|s.tasks|, times), from, to) == AcceptedOf(s.store, times, from, to)
    ensures Resets(OneByOne(|s.tasks|, times)) == 0
    decreases |times|
  {
    hide Run, Next, AcceptedWithin, Attempt;
    NothingAccepted(s, from, to);
    if times != [] {
      var whole, rest := Whole(|s.tasks|, times[0]), OneByOne(|s.tasks| + 1, times[1..]);
      AloneIsAttempt(s, times[0], from, to);
      AttemptCounts(s.store, times[0]);
      RunJoins(s, whole, rest, from, to);
      OneByOneIsARun(Run(s, whole), times[1..], from, to);
      NoResets(|s.tasks|, times[0], rest);
    }
  }

  lemma NothingAccepted(s: State, from: Time, to: Time)
    ensures AcceptedWithin(s, [], from, to) == 0
  {
  }

  lemma AttemptCounts(store: Store, at: Time)
    requires store.counter.Some? ==> store.counter.value.attempts >= 1
    ensures Attempt(store, at).store.counter.Some? ==> Attempt(store, at).store.counter.value.attempts >= 1
  {
  }

  lemma NoResets(p: nat, at: Time, rest: seq<Step>)
    ensures Resets(Whole(p, at) + rest) == Resets(rest)
  {
    var w := Whole(p, at);
    assert w == [Arrive(at), Look(at, p), Count(at, p), SetExpiry(at, p), SetLock(at, p)];
    ResetsCons(w[4], rest);
    ResetsCons(w[3], [w[4]] + rest);
    ResetsCons(w[2], [w[3]] + ([w[4]] + rest));
    ResetsCons(w[1], [w[2]] + ([w[3]] + ([w[4]] + rest)));
    ResetsCons(w[0], [w[1]] + ([w[2]] + ([w[3]] + ([w[4]] + rest))));
    assert w + rest == [w[0]] + ([w[1]] + ([w[2]] + ([w[3]] + ([w[4]] + rest))));
  }

  lemma ResetsCons(e: Step, rest: seq<Step>)
    ensures Resets([e] + rest) == (if e.Reset? then 1 else 0) + Resets(rest)
  {
    assert ([e] + rest)[1..] == rest;
  }

  function Burst(at: Time, k: nat): (r: seq<Time>)
  {
    if k == 0 then [] else [at] + Burst(at, k - 1)
  }

  /** A burst within what the counter still allows is accepted whole. */
  lemma {:induction false} BurstAccepted(s: Store, at: Time, k: nat, rest: seq<Time>, from: Time, to: Time)
    requires s.lockedUntil == None && Alive(s.counter, at) && s.counter.value.attempts >= 1
    requires s.counter.value.attempts + k <= MAX_AUTH_ATTEMPTS && from <= at < to
    ensures var s' := s.(counter := Some(s.counter.value.(attempts := s.counter.value.attempts + k)));
            AcceptedOf(s, Burst(at, k) + rest, from, to) == k + AcceptedOf(s', rest, from, to)
    decreases k
  {
    if k == 0 {
      assert Burst(at, 0) + rest == rest;
    } else {
      var times := Burst(at, k) + rest;
      assert times[0] == at && times[1..] == Burst(at, k - 1) + rest;
      BurstAccepted(Attempt(s, at).store, at, k - 1, rest, from, to);
    }
  }

  /** Nine is reached: one attempt starts a counter, four come just before it expires and five as it does. */
  lemma NineIsReached(t: Time)
    ensures var times := [t] + (Burst(t + 299, 4) + ([t + 300] + (Burst(t + 300, 4) + [])));
            var steps := OneByOne(0, times);
            && Resets(steps) == 0
            && AcceptedWithin(State(Store(None, None), []), steps, t + 299, t + 299 + RATE_LIMIT_WINDOW) == 9
  {
    var from, to := t + 299, t + 299 + RATE_LIMIT_WINDOW;
    var last := Burst(t + 300, 4) + [];
    var third := [t + 300] + last;
    var second := Burst(t + 299, 4) + third;
    var times := [t] + second;
    var c1 := Counter(1, t, Some(t + RATE_LIMIT_WINDOW));
    var s1 := Store(Some(c1), None);
    var s2 := Store(Some(c1.(attempts := 5)), None);
    var s3 := Store(Some(Counter(1, t + 300, Some(t + 300 + RATE_LIMIT_WINDOW))), None);
    hide Burst;
    BurstAccepted(s3, t + 300, 4, [], from, to);
    assert third[0] == t + 300 && third[1..] == last;
    assert Attempt(s2, t + 300) == Outcome(s3, true);
    BurstAccepted(s1, t + 299, 4, third, from, to);
    assert times[0] == t && times[1..] == second;
    assert Attempt(Store(None, None), t).store == s1;
    OneByOneIsARun(State(Store(None, None), []), times, from, to);
  }

  /**
   One that looked before: the counter stands at five and expires at 300; a first attempt looks at
   299, a second sets the lockout until 1199, and the first is counted, and accepted, at 300.
   */
  lemma AcceptedDuringALockout()
    ensures var store := Store(Some(Counter(5, 0, Some(300))), None);
            var s := State(store, [AtCount, AtCount]);
            var locked := Next(Next(s, Count(299, 1)), SetLock(299, 1));
            && locked.store.lockedUntil == Some(1199)
            && Accepts(locked, Count(300, 0))
            && LateCounts(locked, [Count(300, 0)]) == 1
  {
    var store := Store(Some(Counter(5, 0, Some(300))), None);
    var s := State(store, [AtCount, AtCount]);
    var counted := Next(s, Count(299, 1));
    assert counted.tasks == [AtCount, AtLock];
    var locked := Next(counted, SetLock(299, 1));
    assert locked.tasks == [AtCount, Ended];
    assert LateCounts(Next(locked, Count(300, 0)), [Count(300, 0)][1..]) == 0;
  }
}
