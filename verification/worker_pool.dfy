/**
 The pool of workers: picking, calling and retrying, over the workers' own mutable counters. Each
 operation is proved to do what a function on a snapshot of the pool says; the properties are proved
 of those functions. Workers are named by their position.
 */
module WorkerPool {
  import opened Wrappers
  import opened Numbers
  import opened Bytes
  import opened Dispatch

  datatype ServiceError = Timeout | Unavailable | Failed | Cancelled

  /** How one call to a worker ends: answered, broken off at some point, or overtaken by the timeout. */
  datatype Ending = Replied(audio: seq<byte>) | SendFailed | Refused | BodyFailed | LateSending | LateReading

  function ResultOf(e: Ending): (r: Result<seq<byte>, ServiceError>)
  {
    match e
    case Replied(audio) => Ok(audio)
    case LateSending | LateReading => Err(Timeout)
    case SendFailed | Refused | BodyFailed => Err(Failed)
  }

  /** The failures that the call itself puts on the worker's account. */
  function Noted(e: Ending): (r: nat)
  {
    if e.SendFailed? || e.Refused? then 1 else 0
  }

  /** What the call leaves behind on the in-flight counter. */
  function Stranded(e: Ending): (r: nat)
  {
    if e.LateSending? then 1 else 0
  }

  /** A snapshot of the pool. */
  datatype Snapshot = Snapshot(view: View, requests: seq<nat>, failures: seq<nat>)

  predicate ValidSnapshot(p: Snapshot)
  {
    ValidView(p.view) && |p.requests| == |p.failures| == |p.view.healthy|
  }

  function AfterCall(p: Snapshot, i: nat, e: Ending): (r: Snapshot)
    requires ValidSnapshot(p) && i < |p.requests|
    ensures ValidSnapshot(r) && r.view.healthy == p.view.healthy && r.view.counter == p.view.counter
  {
    Snapshot(
      p.view.(loads := p.view.loads[i := p.view.loads[i] + Stranded(e)]),
      p.requests[i := p.requests[i] + 1],
      p.failures[i := p.failures[i] + Noted(e)])
  }

  function AfterFailure(p: Snapshot, i: nat): (r: Snapshot)
    requires ValidSnapshot(p) && i < |p.failures|
    ensures ValidSnapshot(r)
  {
    p.(failures := p.failures[i := p.failures[i] + 1])
  }

  function AfterPick(p: Snapshot): (r: Snapshot)
    requires ValidSnapshot(p)
    ensures ValidSnapshot(r)
  {
    if p.view.healthy == [] then p else p.(view := p.view.(counter := Bump(p.view.counter)))
  }

  /** One attempt: pick, call, and blame the worker if it failed. */
  function AfterTry(p: Snapshot, e: Ending): (r: Snapshot)
    requires ValidSnapshot(p) && p.view.healthy != []
    ensures ValidSnapshot(r) && r.view.healthy == p.view.healthy
  {
    var i := Pick(p.view).value;
    var called := AfterCall(AfterPick(p), i, e);
    if e.Replied? then called else AfterFailure(called, i)
  }

  /** Attempts until one is answered or the endings run out; `last` is the error so far. */
  function Retry(p: Snapshot, endings: seq<Ending>, last: ServiceError)
    : (r: (Snapshot, Result<seq<byte>, ServiceError>))
    requires ValidSnapshot(p)
    ensures ValidSnapshot(r.0)
    decreases |endings|
  {
    if endings == [] then (p, Err(last))
    else if p.view.healthy == [] then (p, Err(Unavailable))
    else
      match ResultOf(endings[0])
      case Ok(audio) => (AfterTry(p, endings[0]), Ok(audio))
      case Err(e) => Retry(AfterTry(p, endings[0]), endings[1..], e)
  }

  /** The attempt that decides: the first that is answered, or the last if none is. */
  predicate IsDecisive(endings: seq<Ending>, a: nat)
    requires a < |endings|
  {
    && (forall k :: 0 <= k < a ==> !endings[k].Replied?)
    && (endings[a].Replied? || a == |endings| - 1)
  }

  /** What a call with retries answers: the audio of the decisive attempt, or how it failed. */
  lemma {:induction false} DecisiveAnswers(p: Snapshot, endings: seq<Ending>, last: ServiceError, a: nat)
    requires ValidSnapshot(p) && p.view.healthy != [] && a < |endings| && IsDecisive(endings, a)
    ensures Retry(p, endings, last).1 == match endings[a]
                                         case Replied(audio) => Ok(audio)
                                         case LateSending | LateReading => Err(Timeout)
                                         case SendFailed | Refused | BodyFailed => Err(Failed)
    decreases |endings|
  {
    hide AfterTry;
    if a > 0 {
      assert forall k :: 0 <= k < a - 1 ==> endings[1..][k] == endings[k + 1];
      DecisiveAnswers(AfterTry(p, endings[0]), endings[1..], ResultOf(endings[0]).error, a - 1);
    }
  }

  /** What an attempt does to the pool's accounts: all of it is the picked worker's, and the turn moves on. */
  lemma TryIsThePickedOnes(p: Snapshot, e: Ending, i: nat)
    requires ValidSnapshot(p) && Pick(p.view) == Some(i)
    ensures var q := AfterTry(p, e);
            && q.view.counter == (p.view.counter + 1) % 0x1_0000_0000_0000_0000
            && forall k :: 0 <= k < |p.requests| ==>
                 && q.requests[k] == p.requests[k] + (if k == i then 1 else 0)
                 && q.failures[k] == p.failures[k] + (if k != i || e.Replied? then 0
                                                      else if e.SendFailed? || e.Refused? then 2 else 1)
                 && q.view.loads[k] == p.view.loads[k] + (if k == i && e.LateSending? then 1 else 0)
  {
    hide Pick;
  }

  /** The other healthy workers, for the backup request. */
  function PickOther(v: View, exclude: nat): (r: Option<nat>)
    requires ValidView(v) && exclude < |v.healthy|
  {
    var others := Where(v.healthy[exclude := false]);
    if others == [] then None else Some(others[v.counter % |others|])
  }

  lemma PickOtherIsAnother(v: View, exclude: nat)
    requires ValidView(v) && exclude < |v.healthy|
    ensures PickOther(v, exclude).None? <==> forall i: nat :: i < |v.healthy| && v.healthy[i] ==> i == exclude
    ensures PickOther(v, exclude).Some? ==>
              var i := PickOther(v, exclude).value;
              i < |v.healthy| && v.healthy[i] && i != exclude
  {
    var flags := v.healthy[exclude := false];
    var others := Where(flags);
    WhereExactly(flags);
    if others == [] {
      forall i: nat | i < |v.healthy| && v.healthy[i]
        ensures i == exclude
      {
        assert i != exclude ==> i in others;
      }
    } else {
      assert others[v.counter % |others|] in others;
      assert others[0] in others;
    }
  }

  /** How many of the first `n` workers are healthy, the excluded one aside. */
  function OthersBelow(v: View, exclude: nat, n: nat): (r: nat)
    requires n <= |v.healthy|
  {
    if n == 0 then 0 else OthersBelow(v, exclude, n - 1) + if v.healthy[n - 1] && n - 1 != exclude then 1 else 0
  }

  lemma {:induction false} RankOfOther(v: View, exclude: nat, n: nat, p: nat)
    requires ValidView(v) && exclude < |v.healthy| && n <= |v.healthy|
    requires var others := Where(v.healthy[exclude := false]);
             p <= |others| && (p < |others| ==> n <= others[p]) && (p > 0 ==> others[p - 1] < n)
    ensures OthersBelow(v, exclude, n) == p
    decreases n
  {
    var flags := v.healthy[exclude := false];
    var others := Where(flags);
    WhereExactly(flags);
    if n > 0 {
      assert n - 1 in others <==> v.healthy[n - 1] && n - 1 != exclude;
      if p > 0 && others[p - 1] == n - 1 {
        assert others[p - 1] in others;
        RankOfOther(v, exclude, n - 1, p - 1);
      } else {
        forall k | 0 <= k < |others|
          ensures others[k] != n - 1
        {
        }
        RankOfOther(v, exclude, n - 1, p);
      }
    }
  }

  /** The backup takes its turn among the others: before it stand as many as the counter modulo their number. */
  lemma PickOtherTakesTurns(v: View, exclude: nat)
    requires ValidView(v) && exclude < |v.healthy|
    ensures PickOther(v, exclude).Some? ==>
              && OthersBelow(v, exclude, |v.healthy|) > 0
              && PickOther(v, exclude).value < |v.healthy|
              && OthersBelow(v, exclude, PickOther(v, exclude).value)
                 == v.counter % OthersBelow(v, exclude, |v.healthy|)
  {
    var flags := v.healthy[exclude := false];
    var others := Where(flags);
    WhereExactly(flags);
    if others != [] {
      var p := v.counter % |others|;
      assert forall k :: 0 <= k < |others| ==> others[k] in others;
      RankOfOther(v, exclude, |v.healthy|, |others|);
      RankOfOther(v, exclude, others[p], p);
    }
  }

  /** With a healthy worker, a pick is the choice among the healthy; with none, the turn goes round them all. */
  lemma PickIsPickFrom(v: View)
    requires ValidView(v)
    ensures var healthy := Where(v.healthy);
            Pick(v) == if healthy != [] then PickFrom(healthy, v.loads, v.loads, v.counter)
                       else if v.healthy == [] then None else Some(v.counter % |v.healthy|)
  {
  }

  class Worker {
    var healthy: bool
    var inflight: nat
    var totalRequests: nat
    var totalFailures: nat

    constructor ()
      ensures healthy && inflight == totalRequests == totalFailures == 0
    {
      healthy, inflight, totalRequests, totalFailures := true, 0, 0, 0;
    }

    /** One call: the counter goes up before the send and down after it, unless the timeout drops it in between. */
    method Call(e: Ending) returns (r: Result<seq<byte>, ServiceError>)
      modifies this
      ensures healthy == old(healthy) && totalRequests == old(totalRequests) + 1
      ensures match e
              case Replied(audio) => r == Ok(audio)
              case LateSending | LateReading => r == Err(Timeout)
              case SendFailed | Refused | BodyFailed => r == Err(Failed)
      ensures inflight == old(inflight) + if e.LateSending? then 1 else 0
      ensures totalFailures == old(totalFailures) + if e.SendFailed? || e.Refused? then 1 else 0
    {
      inflight := inflight + 1;
      totalRequests := totalRequests + 1;
      if e.LateSending? {
        return Err(Timeout);
      }
      inflight := inflight - 1;
      match e
      case SendFailed | Refused =>
        totalFailures := totalFailures + 1;
        return Err(Failed);
      case BodyFailed =>
        return Err(Failed);
      case LateReading =>
        return Err(Timeout);
      case Replied(audio) =>
        return Ok(audio);
      case LateSending =>
        assert false;
    }
  }

  class WorkerPool {
    const workers: seq<Worker>
    const maxRetries: nat
    var rrCounter: nat

    ghost predicate Valid()
      reads this
    {
      && rrCounter < U64_RANGE
      && forall j, k :: 0 <= j < k < |workers| ==> workers[j] != workers[k]
    }

    function Sees(): (r: View)
      requires Valid()
      reads this, workers
      ensures ValidView(r) && |r.healthy| == |workers|
    {
      View(seq(|workers|, i requires 0 <= i < |workers| reads this, workers => workers[i].healthy),
           seq(|workers|, i requires 0 <= i < |workers| reads this, workers => workers[i].inflight),
           rrCounter)
    }

    ghost function State(): (r: Snapshot)
      requires Valid()
      reads this, workers
      ensures ValidSnapshot(r) && |r.requests| == |workers|
    {
      Snapshot(Sees(),
               seq(|workers|, i requires 0 <= i < |workers| reads this, workers => workers[i].totalRequests),
               seq(|workers|, i requires 0 <= i < |workers| reads this, workers => workers[i].totalFailures))
    }

    constructor (workers: seq<Worker>)
      requires forall j, k :: 0 <= j < k < |workers| ==> workers[j] != workers[k]
      ensures Valid() && this.workers == workers && rrCounter == 0 && maxRetries == 1
    {
      this.workers := workers;
      rrCounter, maxRetries := 0, 1;
    }

    /** `fetch_add(1)` on the shared counter; what is returned is its old value. */
    method NextTurn() returns (turn: nat)
      requires Valid()
      modifies this`rrCounter
      ensures Valid() && turn == old(rrCounter) && rrCounter == Bump(old(rrCounter))
    {
      turn := rrCounter;
      rrCounter := Bump(rrCounter);
    }

    method Pick() returns (r: Option<nat>)
      requires Valid()
      modifies this`rrCounter
      ensures Valid() && r == Dispatch.Pick(old(Sees())) && State() == AfterPick(old(State()))
    {
      hide Where, Candidates, MinLoad, Dispatch.PickFrom;
      PickIsPickFrom(Sees());
      var healthy := Where(Sees().healthy);
      if healthy != [] {
        r := PickFrom(healthy, Sees().loads);
        return;
      }
      if workers == [] {
        return None;
      }
      var turn := NextTurn();
      return Some(turn % |workers|);
    }

    /**
     The least loaded of a non-empty choice of workers, in turn. The loads are read twice, and other
     tasks may have changed them by the second time, to `again`; if no worker then has the least load
     of the first reading, the turn is taken all the same and the pick fails.
     */
    method PickFrom(pool: seq<nat>, again: seq<nat>) returns (r: Option<nat>)
      requires Valid() && pool != [] && InRange(pool, |workers|) && |again| == |workers|
      modifies this`rrCounter
      ensures Valid() && State() == old(State()).(view := old(Sees()).(counter := Bump(old(rrCounter))))
      ensures r == Dispatch.PickFrom(pool, Sees().loads, again, old(rrCounter))
      ensures r.Some? <==> exists k :: 0 <= k < |pool| && again[pool[k]] == MinLoad(pool, Sees().loads)
      ensures again == Sees().loads ==> r.Some?
    {
      var minLoad := MinLoad(pool, Sees().loads);
      var least := WithLoad(pool, again, minLoad);
      PickFromDefined(pool, Sees().loads, again, rrCounter);
      var turn := NextTurn();
      if least == [] {
        return None;
      }
      return Some(least[turn % |least|]);
    }

    method PickDifferent(exclude: nat) returns (r: Option<nat>)
      requires Valid() && exclude < |workers|
      modifies this`rrCounter
      ensures Valid() && r == PickOther(old(Sees()), exclude)
      ensures State() == if r.None? then old(State()) else AfterPick(old(State()))
    {
      var others := Where(Sees().healthy[exclude := false]);
      if others == [] {
        return None;
      }
      var turn := NextTurn();
      return Some(others[turn % |others|]);
    }

    method CallTo(i: nat, e: Ending) returns (r: Result<seq<byte>, ServiceError>)
      requires Valid() && i < |workers|
      modifies workers[i]
      ensures Valid() && r == ResultOf(e) && State() == AfterCall(old(State()), i, e)
    {
      r := workers[i].Call(e);
      ghost var was, want := old(State()), AfterCall(old(State()), i, e);
      assert forall k :: 0 <= k < |workers| && k != i ==> workers[k] != workers[i];
      assert State().view.loads == want.view.loads;
      assert State().view.healthy == want.view.healthy;
      assert State().requests == want.requests;
      assert State().failures == want.failures;
    }

    method NoteFailure(i: nat)
      requires Valid() && i < |workers|
      modifies workers[i]
      ensures Valid() && State() == AfterFailure(old(State()), i)
    {
      workers[i].totalFailures := workers[i].totalFailures + 1;
      ghost var want := AfterFailure(old(State()), i);
      assert forall k :: 0 <= k < |workers| && k != i ==> workers[k] != workers[i];
      assert State().failures == want.failures;
    }

    /** A call with one retry; `endings[a]` is how attempt `a`, if it is made, would end. */
    method WithRetry(endings: seq<Ending>) returns (r: Result<seq<byte>, ServiceError>)
      requires Valid() && |endings| == maxRetries + 1
      modifies this`rrCounter, workers
      ensures Valid() && (State(), r) == Retry(old(State()), endings, Unavailable)
      ensures workers == [] ==> r == Err(Unavailable)
      ensures forall a :: 0 <= a < |endings| && IsDecisive(endings, a) && workers != [] ==>
                match endings[a]
                case Replied(audio) => r == Ok(audio)
                case LateSending | LateReading => r == Err(Timeout)
                case SendFailed | Refused | BodyFailed => r == Err(Failed)
    {
      hide Dispatch.Pick, AfterCall, AfterFailure, Sees;
      ghost var before := State();
      assert workers == [] <==> before.view.healthy == [];
      forall a | 0 <= a < |endings| && IsDecisive(endings, a) && workers != []
        ensures Retry(before, endings, Unavailable).1 == ResultOf(endings[a])
      {
        DecisiveAnswers(before, endings, Unavailable, a);
      }
      var lastErr := Unavailable;
      for attempt := 0 to maxRetries + 1
        invariant Valid()
        invariant Retry(old(State()), endings, Unavailable) == Retry(State(), endings[attempt..], lastErr)
      {
        assert endings[attempt..][0] == endings[attempt] && endings[attempt..][1..] == endings[attempt + 1..];
        var picked := Pick();
        if picked.None? {
          return Err(Unavailable);
        }
        var worker := picked.value;
        var reply := CallTo(worker, endings[attempt]);
        match reply
        case Ok(audio) =>
          return Ok(audio);
        case Err(e) =>
          NoteFailure(worker);
          lastErr := e;
      }
      return Err(lastErr);
    }
  }

  // ---------------------------------------------------------------------------------------------
  // What a call with retries comes to
  // ---------------------------------------------------------------------------------------------

  /** How many of these endings are reached: up to and including the first answer. */
  function Tries(endings: seq<Ending>): (r: nat)
    ensures r <= |endings| && (endings != [] ==> r > 0)
  {
    if endings == [] then 0 else if endings[0].Replied? then 1 else 1 + Tries(endings[1..])
  }

  /** The first answer wins; without one, the error is that of the last attempt. */
  lemma {:induction false} RetryAnswers(p: Snapshot, endings: seq<Ending>, last: ServiceError)
    requires ValidSnapshot(p) && endings != []
    ensures p.view.healthy == [] ==> Retry(p, endings, last) == (p, Err(Unavailable))
    ensures p.view.healthy != [] ==> Retry(p, endings, last).1 == ResultOf(endings[Tries(endings) - 1])
    ensures forall a :: 0 <= a < Tries(endings) - 1 ==> !endings[a].Replied?
    ensures !endings[Tries(endings) - 1].Replied? ==> Tries(endings) == |endings|
    decreases |endings|
  {
    hide AfterTry;
    if |endings| > 1 {
      if !endings[0].Replied? && p.view.healthy != [] {
        RetryAnswers(AfterTry(p, endings[0]), endings[1..], ResultOf(endings[0]).error);
      }
      TriesStopAtAnswer(endings);
    }
  }

  lemma {:induction false} TriesStopAtAnswer(endings: seq<Ending>)
    requires endings != []
    ensures forall a :: 0 <= a < Tries(endings) - 1 ==> !endings[a].Replied?
    ensures !endings[Tries(endings) - 1].Replied? ==> Tries(endings) == |endings|
  {
    if |endings| > 1 && !endings[0].Replied? {
      TriesStopAtAnswer(endings[1..]);
    }
  }

  /** Failures put on the books by the attempts made: one by the retry loop, and one more by some calls themselves. */
  function Blamed(endings: seq<Ending>): (r: nat)
  {
    if endings == [] || endings[0].Replied? then 0 else 1 + Noted(endings[0]) + Blamed(endings[1..])
  }

  function StrandedBy(endings: seq<Ending>): (r: nat)
  {
    if endings == [] || endings[0].Replied? then 0 else Stranded(endings[0]) + StrandedBy(endings[1..])
  }

  lemma CallAccounts(p: Snapshot, i: nat, e: Ending)
    requires ValidSnapshot(p) && i < |p.requests|
    ensures var q := AfterCall(p, i, e);
            && Sum(q.requests) == Sum(p.requests) + 1
            && Sum(q.failures) == Sum(p.failures) + Noted(e)
            && Sum(q.view.loads) == Sum(p.view.loads) + Stranded(e)
  {
    SumUpdate(p.requests, i, p.requests[i] + 1);
    SumUpdate(p.failures, i, p.failures[i] + Noted(e));
    SumUpdate(p.view.loads, i, p.view.loads[i] + Stranded(e));
  }

  lemma TryAccounts(p: Snapshot, e: Ending)
    requires ValidSnapshot(p) && p.view.healthy != []
    ensures var q := AfterTry(p, e);
            && Sum(q.requests) == Sum(p.requests) + 1
            && Sum(q.failures) == Sum(p.failures) + Noted(e) + (if e.Replied? then 0 else 1)
            && Sum(q.view.loads) == Sum(p.view.loads) + Stranded(e)
  {
    hide Sum, AfterCall, Dispatch.Pick;
    var i := Pick(p.view).value;
    var called := AfterCall(AfterPick(p), i, e);
    CallAccounts(AfterPick(p), i, e);
    SumUpdate(called.failures, i, called.failures[i] + 1);
  }

  /**
   The books after a call with retries: one request for each attempt made, one failure for each that
   failed and a second one where the send failed or was refused, and one in-flight unit left behind
   for good by each attempt that timed out while sending.
   */
  lemma {:induction false} RetryAccounts(p: Snapshot, endings: seq<Ending>, last: ServiceError)
    requires ValidSnapshot(p) && p.view.healthy != []
    ensures var q := Retry(p, endings, last).0;
            && q.view.healthy == p.view.healthy
            && Sum(q.requests) == Sum(p.requests) + Tries(endings)
            && Sum(q.failures) == Sum(p.failures) + Blamed(endings)
            && Sum(q.view.loads) == Sum(p.view.loads) + StrandedBy(endings)
    decreases |endings|
  {
    hide AfterTry, Sum;
    if endings != [] {
      TryAccounts(p, endings[0]);
      if !endings[0].Replied? {
        RetryAccounts(AfterTry(p, endings[0]), endings[1..], ResultOf(endings[0]).error);
      }
    }
  }

  /** The view that the second attempt picks from, when the first has failed. */
  function SecondView(v: View, e: Ending): (r: View)
    requires ValidView(v) && v.healthy != []
    ensures ValidView(r) && r.healthy == v.healthy
  {
    var i := Pick(v).value;
    View(v.healthy, v.loads[i := v.loads[i] + Stranded(e)], Bump(v.counter))
  }

  /**
   Where the retry goes: unless the first attempt left its worker's counter raised, to the same
   worker exactly when there is only one candidate, or when the shared counter wraps just then and
   2^64 leaves remainder 1 over the number of candidates.
   */
  lemma RetryGoesElsewhere(v: View, e: Ending)
    requires ValidView(v) && v.healthy != [] && Stranded(e) == 0
    ensures var n := |Candidates(v)|;
            n > 0 && (Pick(SecondView(v, e)) == Pick(v) <==>
                      n == 1 || (v.counter == U64_RANGE - 1 && U64_RANGE % n == 1))
  {
    var c := Candidates(v);
    var n := |c|;
    var i := Pick(v).value;
    assert v.loads[i := v.loads[i]] == v.loads;
    var v' := v.(counter := Bump(v.counter));
    assert SecondView(v, e) == v';
    hide Candidates, Pick, SecondView, Bump;
    PickIsSlot(v);
    PickIsSlot(v');
    CandidatesIgnoreCounter(v, v'.counter);
    CandidatesAreDistinct(v);
    BumpMovesSlot(v.counter, 1, n);
    AdjacentSlots(v.counter, n);
  }

  lemma AdjacentSlots(counter: nat, n: nat)
    requires counter < U64_RANGE && n > 0
    ensures Slot(counter, 0, U64_RANGE, n) == Slot(counter, 1, U64_RANGE, n) <==>
            n == 1 || (counter == U64_RANGE - 1 && U64_RANGE % n == 1)
  {
    WrapOnce(counter, U64_RANGE);
    WrapOnce(counter + 1, U64_RANGE);
    if n >= 2 {
      ShiftLessThanRound(counter, 1, n);
      DivisionIsUnique(0, n, 0, 0);
    }
  }

  /** After a timeout that did leave the counter raised, a second healthy candidate is always preferred. */
  lemma TimeoutGoesElsewhere(v: View, e: Ending)
    requires ValidView(v) && Where(v.healthy) != [] && |Candidates(v)| > 1 && Stranded(e) == 1
    ensures Pick(SecondView(v, e)) != Pick(v)
  {
    hide Candidates, Where, SecondView, Bump;
    var i, w := Pick(v).value, SecondView(v, e);
    var c := Candidates(v);
    CandidatesAreDistinct(v);
    assert c[v.counter % |c|] in c;
    var other := if c[0] == i then c[1] else c[0];
    assert other in c && other != i;
    RaisedIsNoCandidate(v, e, other);
    var d := Candidates(w);
    assert d[w.counter % |d|] in d;
  }

  lemma RaisedIsNoCandidate(v: View, e: Ending, other: nat)
    requires ValidView(v) && Where(v.healthy) != [] && Stranded(e) == 1
    requires v.healthy != [] && Pick(v).value in Candidates(v)
    requires other in Candidates(v) && other != Pick(v).value
    ensures Pick(v).value !in Candidates(SecondView(v, e))
  {
    hide Candidates, Where, Pick, Bump;
    CandidatesAre(v);
    CandidatesAre(SecondView(v, e));
  }
}
