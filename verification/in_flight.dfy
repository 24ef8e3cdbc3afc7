/**
 The in-flight counters under cancellation. A call adds one to its worker's counter before it awaits
 the send and takes one off after it; a future dropped while it awaits never gets to the second
 step. Calls interleave freely, one atomic step at a time.
 */
module InFlight {
  import opened Numbers
  import opened Dispatch

  datatype Phase = Sending | Reading | Over | DroppedSending | DroppedReading

  datatype Call = Call(worker: nat, phase: Phase)

  /** The counters of all workers, and every call ever begun. */
  datatype Fleet = Fleet(loads: seq<nat>, calls: seq<Call>)

  datatype Step = Begin(worker: nat) | SendReturns(call: nat) | Finish(call: nat) | Drop(call: nat)

  function Minus(counter: nat): (r: nat)
  {
    if counter == 0 then U64_RANGE - 1 else counter - 1
  }

  predicate InFleet(f: Fleet)
  {
    && (forall c :: c in f.calls ==> c.worker < |f.loads|)
    && (forall w :: 0 <= w < |f.loads| ==> f.loads[w] < U64_RANGE)
  }

  function MoveTo(f: Fleet, call: nat, phase: Phase): (r: Fleet)
    requires InFleet(f) && call < |f.calls|
    ensures InFleet(r)
  {
    f.(calls := f.calls[call := f.calls[call].(phase := phase)])
  }

  /** One step of one call; a step that its call is not ready for leaves everything as it is. */
  function Next(f: Fleet, s: Step): (r: Fleet)
    requires InFleet(f)
    ensures InFleet(r) && |r.loads| == |f.loads|
  {
    match s
    case Begin(w) =>
      if w < |f.loads| then Fleet(f.loads[w := Bump(f.loads[w])], f.calls + [Call(w, Sending)]) else f
    case SendReturns(c) =>
      if c < |f.calls| && f.calls[c].phase.Sending? then
        var w := f.calls[c].worker;
        MoveTo(f, c, Reading).(loads := f.loads[w := Minus(f.loads[w])])
      else f
    case Finish(c) => if c < |f.calls| && f.calls[c].phase.Reading? then MoveTo(f, c, Over) else f
    case Drop(c) =>
      if c < |f.calls| && f.calls[c].phase.Sending? then MoveTo(f, c, DroppedSending)
      else if c < |f.calls| && f.calls[c].phase.Reading? then MoveTo(f, c, DroppedReading)
      else f
  }

  function Run(f: Fleet, steps: seq<Step>): (r: Fleet)
    requires InFleet(f)
    ensures InFleet(r) && |r.loads| == |f.loads|
    decreases |steps|
  {
    if steps == [] then f else Run(Next(f, steps[0]), steps[1..])
  }

  function Idle(workers: nat): (r: Fleet)
    ensures InFleet(r) && |r.loads| == workers
  {
    Fleet(seq(workers, _ => 0), [])
  }

  /** The calls to a worker that are in one of these phases. */
  function Among(calls: seq<Call>, worker: nat, phases: set<Phase>): (r: nat)
    ensures r <= |calls|
  {
    if calls == [] then 0
    else
      var c := calls[|calls| - 1];
      Among(calls[..|calls| - 1], worker, phases) + if c.worker == worker && c.phase in phases then 1 else 0
  }

  lemma {:induction false} AmongAfterMove(calls: seq<Call>, i: nat, phase: Phase, worker: nat, phases: set<Phase>)
    requires i < |calls|
    ensures var moved := calls[i := calls[i].(phase := phase)];
            Among(moved, worker, phases) + (if calls[i].worker == worker && calls[i].phase in phases then 1 else 0) ==
            Among(calls, worker, phases) + (if calls[i].worker == worker && phase in phases then 1 else 0)
  {
    var moved := calls[i := calls[i].(phase := phase)];
    var n := |calls| - 1;
    if i < n {
      AmongAfterMove(calls[..n], i, phase, worker, phases);
      assert moved[..n] == calls[..n][i := calls[i].(phase := phase)];
    } else {
      assert moved[..n] == calls[..n];
    }
  }

  lemma AmongAfterBegin(calls: seq<Call>, begun: nat, worker: nat, phases: set<Phase>)
    ensures Among(calls + [Call(begun, Sending)], worker, phases) ==
            Among(calls, worker, phases) + if begun == worker && Sending in phases then 1 else 0
  {
    assert (calls + [Call(begun, Sending)])[..|calls|] == calls;
  }

  const HOLDING: set<Phase> := {Sending, DroppedSending}

  function Held(f: Fleet, worker: nat): (r: nat)
    ensures r <= |f.calls|
  {
    Among(f.calls, worker, HOLDING)
  }

  /** Every counter is the number of calls that hold it, counted modulo 2^64. */
  ghost predicate Counted(f: Fleet)
  {
    forall w: nat :: w < |f.loads| ==> f.loads[w] == Held(f, w) % U64_RANGE
  }

  predicate Begins(f: Fleet, s: Step, worker: nat)
  {
    s.Begin? && s.worker == worker && worker < |f.loads|
  }

  predicate Releases(f: Fleet, s: Step, worker: nat)
  {
    s.SendReturns? && s.call < |f.calls| && f.calls[s.call] == Call(worker, Sending)
  }

  lemma HeldAfter(f: Fleet, s: Step, w: nat)
    requires InFleet(f)
    ensures Held(Next(f, s), w) ==
            Held(f, w) + (if Begins(f, s, w) then 1 else 0) - (if Releases(f, s, w) then 1 else 0)
  {
    hide Among;
    match s
    case Begin(v) =>
      AmongAfterBegin(f.calls, v, w, HOLDING);
    case SendReturns(c) =>
      if c < |f.calls| {
        AmongAfterMove(f.calls, c, Reading, w, HOLDING);
      }
    case Finish(c) =>
      if c < |f.calls| {
        AmongAfterMove(f.calls, c, Over, w, HOLDING);
      }
    case Drop(c) =>
      if c < |f.calls| {
        AmongAfterMove(f.calls, c, DroppedSending, w, HOLDING);
        AmongAfterMove(f.calls, c, DroppedReading, w, HOLDING);
      }
  }

  lemma ModuloUp(x: nat)
    ensures (x + 1) % U64_RANGE == Bump(x % U64_RANGE)
  {
  }

  lemma ModuloDown(x: nat)
    requires x > 0
    ensures (x - 1) % U64_RANGE == Minus(x % U64_RANGE)
  {
  }

  lemma LoadAfter(f: Fleet, s: Step, w: nat)
    requires InFleet(f) && w < |f.loads|
    ensures Next(f, s).loads[w] == if Begins(f, s, w) then Bump(f.loads[w])
                                   else if Releases(f, s, w) then Minus(f.loads[w]) else f.loads[w]
  {
  }

  lemma NextKeeps(f: Fleet, s: Step)
    requires InFleet(f) && Counted(f)
    ensures Counted(Next(f, s))
  {
    hide Next, Held, Begins, Releases, Bump, Minus;
    forall w: nat | w < |f.loads|
      ensures Next(f, s).loads[w] == Held(Next(f, s), w) % U64_RANGE
    {
      HeldAfter(f, s, w);
      LoadAfter(f, s, w);
      ModuloUp(Held(f, w));
      if Held(f, w) > 0 {
        ModuloDown(Held(f, w));
      }
      BothNever(f, s, w);
    }
  }

  lemma BothNever(f: Fleet, s: Step, w: nat)
    ensures !(Begins(f, s, w) && Releases(f, s, w))
  {
  }

  lemma {:induction false} RunKeeps(f: Fleet, steps: seq<Step>)
    requires InFleet(f) && Counted(f)
    ensures Counted(Run(f, steps))
    decreases |steps|
  {
    if steps != [] {
      NextKeeps(f, steps[0]);
      RunKeeps(Next(f, steps[0]), steps[1..]);
    }
  }

  /** A call that holds a counter is among the calls counted. */
  lemma {:induction false} AmongIncludes(calls: seq<Call>, i: nat, phases: set<Phase>)
    requires i < |calls| && calls[i].phase in phases
    ensures Among(calls, calls[i].worker, phases) > 0
  {
    var n := |calls| - 1;
    if i < n {
      assert calls[..n][i] == calls[i];
      AmongIncludes(calls[..n], i, phases);
    }
  }

  lemma {:induction false} AmongSplits(calls: seq<Call>, worker: nat)
    ensures Among(calls, worker, HOLDING) == Among(calls, worker, {Sending}) + Among(calls, worker, {DroppedSending})
  {
    if calls != [] {
      AmongSplits(calls[..|calls| - 1], worker);
    }
  }

  lemma {:induction false} AmongNone(calls: seq<Call>, worker: nat, phases: set<Phase>)
    requires forall c :: c in calls ==> c.phase !in phases
    ensures Among(calls, worker, phases) == 0
  {
    if calls != [] {
      AmongNone(calls[..|calls| - 1], worker, phases);
    }
  }

  /**
   In every interleaving of fewer than 2^64 calls, each worker's counter is exactly the number of its
   calls still awaiting the send plus those dropped while they did, so no decrement ever underflows.
   */
  lemma CounterIsAwaitingPlusDropped(workers: nat, steps: seq<Step>)
    ensures var f := Run(Idle(workers), steps);
            |f.calls| < U64_RANGE ==>
              && (forall w: nat :: w < workers ==>
                    f.loads[w] == Among(f.calls, w, {Sending}) + Among(f.calls, w, {DroppedSending}))
              && (forall c :: 0 <= c < |f.calls| && f.calls[c].phase.Sending? ==> f.loads[f.calls[c].worker] > 0)
  {
    var f := Run(Idle(workers), steps);
    RunKeeps(Idle(workers), steps);
    if |f.calls| < U64_RANGE {
      forall w: nat | w < workers
        ensures f.loads[w] == Among(f.calls, w, {Sending}) + Among(f.calls, w, {DroppedSending})
      {
        AmongSplits(f.calls, w);
      }
      forall c | 0 <= c < |f.calls| && f.calls[c].phase.Sending?
        ensures f.loads[f.calls[c].worker] > 0
      {
        assert f.calls[c] in f.calls;
        AmongIncludes(f.calls, c, HOLDING);
      }
    }
  }

  function Leaked(f: Fleet, worker: nat): (r: nat)
  {
    Among(f.calls, worker, {DroppedSending})
  }

  lemma NextForgivesNothing(f: Fleet, s: Step, w: nat)
    requires InFleet(f)
    ensures Leaked(Next(f, s), w) >= Leaked(f, w)
  {
    hide Among;
    match s
    case Begin(v) =>
      AmongAfterBegin(f.calls, v, w, {DroppedSending});
    case SendReturns(c) =>
      if c < |f.calls| {
        AmongAfterMove(f.calls, c, Reading, w, {DroppedSending});
      }
    case Finish(c) =>
      if c < |f.calls| {
        AmongAfterMove(f.calls, c, Over, w, {DroppedSending});
      }
    case Drop(c) =>
      if c < |f.calls| {
        AmongAfterMove(f.calls, c, DroppedSending, w, {DroppedSending});
        AmongAfterMove(f.calls, c, DroppedReading, w, {DroppedSending});
      }
  }

  lemma {:induction false} RunForgivesNothing(f: Fleet, steps: seq<Step>, w: nat)
    requires InFleet(f)
    ensures Leaked(Run(f, steps), w) >= Leaked(f, w)
    decreases |steps|
  {
    if steps != [] {
      NextForgivesNothing(f, steps[0], w);
      RunForgivesNothing(Next(f, steps[0]), steps[1..], w);
    }
  }

  /**
   What was dropped while sending stays on the counter: in every later state of fewer than 2^64
   calls, a worker's counter is at least what had leaked by then.
   */
  lemma LeaksAreForever(workers: nat, before: seq<Step>, after: seq<Step>, w: nat)
    requires w < workers
    ensures var f := Run(Idle(workers), before);
            var g := Run(f, after);
            |g.calls| < U64_RANGE ==> g.loads[w] >= Leaked(f, w)
  {
    hide Among, Run, Idle, Leaked;
    NothingHeld(workers);
    var f := Run(Idle(workers), before);
    var g := Run(f, after);
    RunKeeps(Idle(workers), before);
    RunKeeps(f, after);
    RunForgivesNothing(f, after, w);
    LeakedIsHeld(g, w);
  }

  lemma NothingHeld(workers: nat)
    ensures Counted(Idle(workers))
  {
  }

  lemma LeakedIsHeld(f: Fleet, w: nat)
    ensures Leaked(f, w) <= Held(f, w)
  {
    AmongSplits(f.calls, w);
  }

  /**
   Once no call awaits a send, a counter holds nothing but leaks, and a healthy worker with more of
   them than another healthy one is never picked again by calls made one after the other.
   */
  lemma LeakyWorkerIsShunned(workers: nat, steps: seq<Step>, healthy: seq<bool>, counter: nat, a: nat, b: nat, k: nat)
    requires |healthy| == workers && counter < U64_RANGE && a < workers && b < workers && healthy[a] && healthy[b]
    requires var f := Run(Idle(workers), steps);
             && |f.calls| < U64_RANGE && (forall c :: c in f.calls ==> !c.phase.Sending?)
             && Leaked(f, a) > Leaked(f, b)
    ensures a !in SerialPicks(View(healthy, Run(Idle(workers), steps).loads, counter), k)
  {
    var f := Run(Idle(workers), steps);
    CounterIsAwaitingPlusDropped(workers, steps);
    AmongNone(f.calls, a, {Sending});
    AmongNone(f.calls, b, {Sending});
    var v := View(healthy, f.loads, counter);
    hide *;
    WhereIsNotEmpty(healthy, a);
    CandidatesAre(v);
    assert a !in Candidates(v);
    PicksAreCandidates(v, k);
  }

  lemma WhereIsNotEmpty(healthy: seq<bool>, a: nat)
    requires a < |healthy| && healthy[a]
    ensures Where(healthy) != []
  {
    WhereExactly(healthy);
    assert a in Where(healthy);
  }

  lemma PicksAreCandidates(v: View, k: nat)
    requires ValidView(v) && v.healthy != []
    ensures forall i :: i in SerialPicks(v, k) ==> i in Candidates(v)
  {
    forall j | 0 <= j < k
      ensures SerialPicks(v, k)[j] in Candidates(v)
    {
      SerialPickAt(v, k, j);
    }
  }
}
