/**
 The queue of synthesis jobs: rows of a table, claimed by one atomic statement that takes a queued
 row of highest priority and, among those, of earliest creation. Rows are named by their position.
 */
module JobQueue {
  import opened Wrappers

  datatype Status = Queued | Processing | Completed | Spoiled

  datatype Job = Job(priority: int, createdAt: int, status: Status)

  /** `a` is at least as urgent as `b`. */
  predicate NotAfter(a: Job, b: Job)
  {
    a.priority > b.priority || (a.priority == b.priority && a.createdAt <= b.createdAt)
  }

  /** A row the claiming statement may take; which one of several tied rows it takes is left open. */
  predicate IsNext(rows: seq<Job>, i: nat)
  {
    && i < |rows| && rows[i].status.Queued?
    && forall j :: 0 <= j < |rows| && rows[j].status.Queued? ==> NotAfter(rows[i], rows[j])
  }

  lemma {:induction false} SomeRowIsNext(rows: seq<Job>) returns (i: nat)
    requires exists j :: 0 <= j < |rows| && rows[j].status.Queued?
    ensures IsNext(rows, i)
  {
    var n := |rows| - 1;
    var front := rows[..n];
    if j :| 0 <= j < n && front[j].status.Queued? {
      i := SomeRowIsNext(front);
      assert forall k :: 0 <= k < n ==> front[k] == rows[k];
      if rows[n].status.Queued? && !NotAfter(rows[i], rows[n]) {
        i := n;
      }
    } else {
      i := n;
      assert forall k :: 0 <= k < n ==> rows[k] == front[k];
    }
  }

  /** How the processing of a claimed job ends; an error halfway leaves the row as it was claimed. */
  datatype Outcome = Uploaded | MarkedFailed | Abandoned

  function StatusAfter(o: Outcome): (r: Status)
    ensures !r.Queued?
  {
    match o
    case Uploaded => Completed
    case MarkedFailed => Spoiled
    case Abandoned => Processing
  }

  const ZOMBIE_SECONDS := 300

  predicate IsZombie(job: Job, now: int)
  {
    job.status.Processing? && job.createdAt < now - ZOMBIE_SECONDS
  }

  function Recovered(rows: seq<Job>, now: int): (r: seq<Job>)
    ensures |r| == |rows|
    ensures forall i :: 0 <= i < |rows| ==>
              r[i] == if IsZombie(rows[i], now) then rows[i].(status := Queued) else rows[i]
  {
    if rows == [] then []
    else
      [if IsZombie(rows[0], now) then rows[0].(status := Queued) else rows[0]] + Recovered(rows[1..], now)
  }

  /** These are the queued rows, each once, and none is after one that follows it. */
  ghost predicate IsClaimOrder(rows: seq<Job>, claimed: seq<nat>)
  {
    && (forall p :: 0 <= p < |claimed| ==> claimed[p] < |rows|)
    && (forall i: nat :: i in claimed <==> i < |rows| && rows[i].status.Queued?)
    && (forall p, q :: 0 <= p < q < |claimed| ==> claimed[p] != claimed[q])
    && (forall p, q :: 0 <= p < q < |claimed| ==> NotAfter(rows[claimed[p]], rows[claimed[q]]))
  }

  /** What has been claimed so far, seen from the rows as they were at first and as they are now. */
  ghost predicate Progress(first: seq<Job>, rows: seq<Job>, claimed: seq<nat>, outcome: nat -> Outcome)
  {
    && |rows| == |first|
    && (forall p :: 0 <= p < |claimed| ==> claimed[p] < |first| && first[claimed[p]].status.Queued?)
    && (forall p, q :: 0 <= p < q < |claimed| ==> claimed[p] != claimed[q])
    && (forall p, q :: 0 <= p < q < |claimed| ==> NotAfter(first[claimed[p]], first[claimed[q]]))
    && (forall p, i :: 0 <= p < |claimed| && 0 <= i < |rows| && rows[i].status.Queued? ==>
          NotAfter(first[claimed[p]], first[i]))
    && (forall i: nat :: i < |rows| ==>
          rows[i] == if i in claimed then first[i].(status := StatusAfter(outcome(i))) else first[i])
  }

  function QueuedCount(rows: seq<Job>): (r: nat)
  {
    if rows == [] then 0 else QueuedCount(rows[1..]) + if rows[0].status.Queued? then 1 else 0
  }

  lemma {:induction false} QueuedCountFalls(rows: seq<Job>, i: nat, status: Status)
    requires i < |rows| && rows[i].status.Queued? && !status.Queued?
    ensures QueuedCount(rows[i := rows[i].(status := status)]) == QueuedCount(rows) - 1
  {
    var rows' := rows[i := rows[i].(status := status)];
    if i > 0 {
      assert rows'[1..] == rows[1..][i - 1 := rows[i].(status := status)];
      QueuedCountFalls(rows[1..], i - 1, status);
    } else {
      assert rows'[1..] == rows[1..];
    }
  }

  lemma ProgressStep(first: seq<Job>, rows: seq<Job>, claimed: seq<nat>, outcome: nat -> Outcome, i: nat)
    requires Progress(first, rows, claimed, outcome) && IsNext(rows, i)
    ensures Progress(first, rows[i := rows[i].(status := StatusAfter(outcome(i)))], claimed + [i], outcome)
  {
    assert i !in claimed;
    var claimed' := claimed + [i];
    assert forall k :: k in claimed' <==> k in claimed || k == i;
  }

  class JobTable {
    var rows: seq<Job>

    constructor (rows: seq<Job>)
      ensures this.rows == rows
    {
      this.rows := rows;
    }

    method RecoverZombies(now: int)
      modifies this
      ensures |rows| == |old(rows)|
      ensures forall i :: 0 <= i < |rows| ==>
                rows[i] == if old(rows)[i].status.Processing? && old(rows)[i].createdAt < now - 300
                           then old(rows)[i].(status := Queued) else old(rows)[i]
      ensures forall i :: 0 <= i < |rows| && rows[i].status.Processing? ==> rows[i].createdAt >= now - 300
    {
      rows := Recovered(rows, now);
    }

    /** Claims a most urgent queued row, if there is one, and carries it through. */
    method ProcessNext(outcome: nat -> Outcome) returns (claimed: Option<nat>)
      modifies this
      ensures claimed.None? <==> forall i :: 0 <= i < |old(rows)| ==> !old(rows)[i].status.Queued?
      ensures claimed.None? ==> rows == old(rows)
      ensures claimed.Some? ==>
                var i := claimed.value;
                IsNext(old(rows), i) && rows == old(rows)[i := old(rows)[i].(status := StatusAfter(outcome(i)))]
      ensures claimed.Some? ==>
                && var i := claimed.value;
                && (forall k :: 0 <= k < |old(rows)| && old(rows)[k].status.Queued? ==>
                      && old(rows)[k].priority <= old(rows)[i].priority
                      && (old(rows)[k].priority == old(rows)[i].priority ==>
                            old(rows)[i].createdAt <= old(rows)[k].createdAt))
                && match outcome(i)
                   case Uploaded => rows[i].status == Completed
                   case MarkedFailed => rows[i].status == Spoiled
                   case Abandoned => rows[i].status == Processing
    {
      if forall i :: 0 <= i < |rows| ==> !rows[i].status.Queued? {
        return None;
      }
      ghost var some := SomeRowIsNext(rows);
      var i: nat :| i < |rows| && IsNext(rows, i);
      rows := rows[i := rows[i].(status := Processing)];
      match outcome(i) {
        case Uploaded => rows := rows[i := rows[i].(status := Completed)];
        case MarkedFailed => rows := rows[i := rows[i].(status := Spoiled)];
        case Abandoned =>
      }
      return Some(i);
    }

    /**
     The worker's loop, with nothing arriving: it ends with an empty queue, having claimed every job
     queued at the start exactly once, in order, whatever became of each.
     */
    method Drain(outcome: nat -> Outcome) returns (claimed: seq<nat>)
      modifies this
      ensures IsClaimOrder(old(rows), claimed) && |rows| == |old(rows)|
      ensures forall p, q :: 0 <= p < q < |claimed| ==>
                var a, b := old(rows)[claimed[p]], old(rows)[claimed[q]];
                a.priority > b.priority || (a.priority == b.priority && a.createdAt <= b.createdAt)
      ensures forall i: nat :: i < |rows| ==>
                rows[i] == if i in claimed then old(rows)[i].(status := StatusAfter(outcome(i))) else old(rows)[i]
      ensures forall i :: 0 <= i < |rows| ==> !rows[i].status.Queued?
    {
      claimed := [];
      var more := true;
      while more
        invariant Progress(old(rows), rows, claimed, outcome)
        invariant !more ==> forall i :: 0 <= i < |rows| ==> !rows[i].status.Queued?
        decreases QueuedCount(rows), more
      {
        ghost var before := rows;
        var next := ProcessNext(outcome);
        if next.Some? {
          ProgressStep(old(rows), before, claimed, outcome, next.value);
          QueuedCountFalls(before, next.value, StatusAfter(outcome(next.value)));
          claimed := claimed + [next.value];
        } else {
          more := false;
        }
      }
    }

    /**
     From its start: recovery, then the loop. With nothing arriving, exactly the jobs that were
     queued or are zombies are claimed, each once, most urgent first.
     */
    method Run(now: int, outcome: nat -> Outcome) returns (claimed: seq<nat>)
      modifies this
      ensures IsClaimOrder(Recovered(old(rows), now), claimed)
      ensures forall i: nat :: i in claimed <==>
                i < |old(rows)| && (old(rows)[i].status.Queued? || IsZombie(old(rows)[i], now))
      ensures forall i :: 0 <= i < |rows| ==> !rows[i].status.Queued?
    {
      RecoverZombies(now);
      assert rows == Recovered(old(rows), now);
      claimed := Drain(outcome);
    }
  }

  /** No two queued rows tie. */
  ghost predicate NoTies(rows: seq<Job>)
  {
    forall i, j :: 0 <= i < j < |rows| && rows[i].status.Queued? && rows[j].status.Queued? ==>
      rows[i].priority != rows[j].priority || rows[i].createdAt != rows[j].createdAt
  }

  lemma SameEntry(rows: seq<Job>, a: seq<nat>, b: seq<nat>, k: nat)
    requires IsClaimOrder(rows, a) && IsClaimOrder(rows, b) && NoTies(rows)
    requires k < |a| && k < |b| && a[..k] == b[..k]
    ensures a[k] == b[k]
  {
    var x, y := a[k], b[k];
    assert x in a && y in b;
    var p :| 0 <= p < |b| && b[p] == x;
    var q :| 0 <= q < |a| && a[q] == y;
    forall j | 0 <= j < k
      ensures a[j] == b[j]
    {
      assert a[..k][j] == b[..k][j];
    }
  }

  lemma {:induction false} SamePrefix(rows: seq<Job>, a: seq<nat>, b: seq<nat>, k: nat)
    requires IsClaimOrder(rows, a) && IsClaimOrder(rows, b) && NoTies(rows)
    requires k <= |a| && k <= |b|
    ensures a[..k] == b[..k]
  {
    if k > 0 {
      SamePrefix(rows, a, b, k - 1);
      SameEntry(rows, a, b, k - 1);
      assert a[..k] == a[..k - 1] + [a[k - 1]] && b[..k] == b[..k - 1] + [b[k - 1]];
    }
  }

  function Members(s: seq<nat>): (r: set<nat>)
  {
    set i | i in s
  }

  lemma {:induction false} SizeOfDistinct(s: seq<nat>)
    requires forall p, q :: 0 <= p < q < |s| ==> s[p] != s[q]
    ensures |Members(s)| == |s|
  {
    if s == [] {
      assert Members(s) == {};
    } else {
      var n := |s| - 1;
      var front := s[..n];
      SizeOfDistinct(front);
      assert s[n] !in front;
      assert s == front + [s[n]];
      assert Members(s) == Members(front) + {s[n]};
    }
  }

  /** Without ties there is just one order in which the queue can be drained. */
  lemma ClaimOrderIsUnique(rows: seq<Job>, a: seq<nat>, b: seq<nat>)
    requires IsClaimOrder(rows, a) && IsClaimOrder(rows, b) && NoTies(rows)
    ensures a == b
  {
    SizeOfDistinct(a);
    SizeOfDistinct(b);
    assert Members(a) == Members(b);
    SamePrefix(rows, a, b, |a|);
    assert a[..|a|] == a && b[..|b|] == b;
  }

  // ---------------------------------------------------------------------------------------------
  // Runs with arrivals
  // ---------------------------------------------------------------------------------------------

  datatype Event = Arrive(job: Job) | Claim(row: nat) | End(row: nat, outcome: Outcome) | Recover(now: int)

  /** The rows, the claims in the order they were made, and how often recovery put each row back. */
  datatype Board = Board(rows: seq<Job>, claims: seq<nat>, requeues: seq<nat>)

  /** An arrival is queued, a claim takes a next row, and only a row once claimed is brought to an end. */
  ghost predicate Allowed(b: Board, e: Event)
  {
    match e
    case Arrive(job) => job.status.Queued?
    case Claim(i) => IsNext(b.rows, i)
    case End(i, _) => i < |b.rows| && i in b.claims
    case Recover(_) => true
  }

  predicate WellFormed(b: Board)
  {
    |b.requeues| == |b.rows| && forall q :: 0 <= q < |b.claims| ==> b.claims[q] < |b.rows|
  }

  function Requeued(b: Board, now: int): (r: seq<nat>)
    requires WellFormed(b)
    ensures |r| == |b.rows|
  {
    seq(|b.rows|, i requires 0 <= i < |b.rows| && |b.requeues| == |b.rows| =>
      b.requeues[i] + if IsZombie(b.rows[i], now) then 1 else 0)
  }

  function After(b: Board, e: Event): (r: Board)
    requires WellFormed(b)
    ensures WellFormed(r)
  {
    match e
    case Arrive(job) => Board(b.rows + [job], b.claims, b.requeues + [0])
    case Claim(i) =>
      if i < |b.rows| then Board(b.rows[i := b.rows[i].(status := Processing)], b.claims + [i], b.requeues) else b
    case End(i, o) =>
      if i < |b.rows| && !o.Abandoned? then b.(rows := b.rows[i := b.rows[i].(status := StatusAfter(o))]) else b
    case Recover(now) => Board(Recovered(b.rows, now), b.claims, Requeued(b, now))
  }

  ghost predicate IsRun(b: Board, events: seq<Event>)
    requires WellFormed(b)
    decreases |events|
  {
    events == [] || (Allowed(b, events[0]) && IsRun(After(b, events[0]), events[1..]))
  }

  function Final(b: Board, events: seq<Event>): (r: Board)
    requires WellFormed(b)
    ensures WellFormed(r)
    decreases |events|
  {
    if events == [] then b else Final(After(b, events[0]), events[1..])
  }

  const EMPTY := Board([], [], [])

  function Count(log: seq<nat>, i: nat): (r: nat)
  {
    if log == [] then 0 else Count(log[..|log| - 1], i) + if log[|log| - 1] == i then 1 else 0
  }

  lemma {:induction false} CountAbsent(log: seq<nat>, i: nat)
    ensures Count(log, i) > 0 <==> i in log
  {
    if log != [] {
      CountAbsent(log[..|log| - 1], i);
    }
  }

  /** A row has been claimed at most once more than it was put back, and while it waits, at most as often. */
  ghost predicate ClaimsCovered(b: Board)
  {
    && WellFormed(b)
    && forall i: nat :: i < |b.rows| ==>
         Count(b.claims, i) <= b.requeues[i] + if b.rows[i].status.Queued? then 0 else 1
  }

  lemma CoveredStep(b: Board, e: Event)
    requires ClaimsCovered(b) && Allowed(b, e)
    ensures ClaimsCovered(After(b, e))
  {
    var b' := After(b, e);
    forall i: nat | i < |b'.rows|
      ensures Count(b'.claims, i) <= b'.requeues[i] + if b'.rows[i].status.Queued? then 0 else 1
    {
      CountAbsent(b.claims, i);
      match e
      case Claim(c) =>
        assert (b.claims + [c])[..|b.claims|] == b.claims;
      case Arrive(_) | End(_, _) | Recover(_) =>
    }
  }

  lemma {:induction false} CoveredRun(b: Board, events: seq<Event>)
    requires ClaimsCovered(b) && IsRun(b, events)
    ensures ClaimsCovered(Final(b, events))
    decreases |events|
  {
    if events != [] {
      CoveredStep(b, events[0]);
      CoveredRun(After(b, events[0]), events[1..]);
    }
  }

  /** In every run from an empty table, recovery included, no job is claimed more than once plus once per recovery. */
  lemma ClaimsPerJob(events: seq<Event>, i: nat)
    requires IsRun(EMPTY, events) && i < |Final(EMPTY, events).rows|
    ensures Count(Final(EMPTY, events).claims, i) <= 1 + Final(EMPTY, events).requeues[i]
  {
    CoveredRun(EMPTY, events);
  }

  /** Arrivals come in order of creation. */
  ghost predicate Orderly(b: Board, e: Event)
  {
    e.Arrive? ==> forall i :: 0 <= i < |b.rows| ==> b.rows[i].createdAt <= e.job.createdAt
  }

  ghost predicate OrderlyRun(b: Board, events: seq<Event>)
    requires WellFormed(b)
    decreases |events|
  {
    events == [] ||
    (Allowed(b, events[0]) && Orderly(b, events[0]) && OrderlyRun(After(b, events[0]), events[1..]))
  }

  /** Same priority, and created earlier. */
  predicate IsElder(rows: seq<Job>, i: nat, j: nat)
    requires i < |rows| && j < |rows|
  {
    rows[i].priority == rows[j].priority && rows[i].createdAt < rows[j].createdAt
  }

  /** No job is claimed, for the first time or again, before every older one of its priority has been. */
  ghost predicate EldersFirst(b: Board)
  {
    && WellFormed(b)
    && forall q: nat, i: nat :: q < |b.claims| && i < |b.rows| && IsElder(b.rows, i, b.claims[q]) ==>
         i in b.claims[..q]
  }

  /** Whatever no longer waits for its first claim has had it, a row put back included. */
  ghost predicate OnlyClaimedRowsMove(b: Board)
  {
    && WellFormed(b)
    && forall i: nat :: i < |b.rows| && (!b.rows[i].status.Queued? || b.requeues[i] > 0) ==> i in b.claims
  }

  lemma MovesStep(b: Board, e: Event)
    requires OnlyClaimedRowsMove(b) && Allowed(b, e)
    ensures OnlyClaimedRowsMove(After(b, e))
  {
    var b' := After(b, e);
    forall i: nat | i < |b'.rows| && (!b'.rows[i].status.Queued? || b'.requeues[i] > 0)
      ensures i in b'.claims
    {
      match e
      case Claim(c) => assert b'.claims == b.claims + [c];
      case Arrive(_) | End(_, _) | Recover(_) =>
    }
  }

  lemma EldersStep(b: Board, e: Event)
    requires EldersFirst(b) && OnlyClaimedRowsMove(b) && Allowed(b, e) && Orderly(b, e)
    ensures EldersFirst(After(b, e))
  {
    var b' := After(b, e);
    forall q: nat, i: nat | q < |b'.claims| && i < |b'.rows| && IsElder(b'.rows, i, b'.claims[q])
      ensures i in b'.claims[..q]
    {
      assert q <= |b.claims| && b'.claims[..q] == b.claims[..q];
      if q < |b.claims| {
        assert IsElder(b.rows, i, b.claims[q]);
      } else {
        assert b.claims[..q] == b.claims && e.Claim? && IsElder(b.rows, i, e.row);
      }
    }
  }

  lemma {:induction false} EldersRun(b: Board, events: seq<Event>)
    requires WellFormed(b) && EldersFirst(b) && OnlyClaimedRowsMove(b) && OrderlyRun(b, events)
    ensures EldersFirst(Final(b, events))
    decreases |events|
  {
    hide EldersFirst, OnlyClaimedRowsMove, Allowed, Orderly, After;
    if events != [] {
      MovesStep(b, events[0]);
      EldersStep(b, events[0]);
      EldersRun(After(b, events[0]), events[1..]);
    }
  }

  /**
   With arrivals in order of creation: in every run from an empty table, recovery included, no claim
   is made before all older jobs of its priority have been claimed.
   */
  lemma EqualPrioritiesAreFirstComeFirstServed(events: seq<Event>)
    requires OrderlyRun(EMPTY, events)
    ensures EldersFirst(Final(EMPTY, events))
  {
    EldersRun(EMPTY, events);
  }

  ghost predicate EachOnce(claims: seq<nat>)
  {
    forall p, q :: 0 <= p < q < |claims| ==> claims[p] != claims[q]
  }

  /** A row that recovery has put back is claimed. */
  predicate Reclaims(b: Board, e: Event)
    requires WellFormed(b)
  {
    e.Claim? && e.row < |b.rows| && b.requeues[e.row] > 0
  }

  predicate SomethingReclaimed(b: Board, events: seq<Event>)
    requires WellFormed(b)
    decreases |events|
  {
    events != [] && (Reclaims(b, events[0]) || SomethingReclaimed(After(b, events[0]), events[1..]))
  }

  lemma OnceStep(b: Board, e: Event)
    requires ClaimsCovered(b) && OnlyClaimedRowsMove(b) && Allowed(b, e) && EachOnce(b.claims)
    ensures EachOnce(After(b, e).claims) <==> !Reclaims(b, e)
  {
    if e.Claim? {
      var claims := b.claims + [e.row];
      assert After(b, e).claims == claims && claims[|b.claims|] == e.row;
      CountAbsent(b.claims, e.row);
      assert e.row in b.claims <==> Reclaims(b, e);
      if e.row in b.claims {
        var p :| 0 <= p < |b.claims| && b.claims[p] == e.row;
        assert claims[p] == claims[|b.claims|];
      }
    }
  }

  lemma {:induction false} TwiceIsForGood(b: Board, events: seq<Event>)
    requires WellFormed(b) && !EachOnce(b.claims)
    ensures !EachOnce(Final(b, events).claims)
    decreases |events|
  {
    hide Recovered, Requeued;
    if events != [] {
      var p, q :| 0 <= p < q < |b.claims| && b.claims[p] == b.claims[q];
      var later := After(b, events[0]).claims;
      assert later[p] == later[q];
      TwiceIsForGood(After(b, events[0]), events[1..]);
    }
  }

  lemma {:induction false} OnceRun(b: Board, events: seq<Event>)
    requires WellFormed(b) && ClaimsCovered(b) && OnlyClaimedRowsMove(b) && IsRun(b, events) && EachOnce(b.claims)
    ensures EachOnce(Final(b, events).claims) <==> !SomethingReclaimed(b, events)
    decreases |events|
  {
    hide ClaimsCovered, OnlyClaimedRowsMove, Allowed, After, EachOnce, Reclaims;
    if events != [] {
      CoveredStep(b, events[0]);
      MovesStep(b, events[0]);
      OnceStep(b, events[0]);
      if Reclaims(b, events[0]) {
        TwiceIsForGood(After(b, events[0]), events[1..]);
      } else {
        OnceRun(After(b, events[0]), events[1..]);
      }
    }
  }

  /** In every run from an empty table no job is claimed twice exactly if no row put back is claimed again. */
  lemma ClaimedOnceExactly(events: seq<Event>)
    requires IsRun(EMPTY, events)
    ensures EachOnce(Final(EMPTY, events).claims) <==> !SomethingReclaimed(EMPTY, events)
  {
    OnceRun(EMPTY, events);
  }

  /** The claim passes over no queued row of higher priority, and over none of its own that was created earlier. */
  predicate PassesOverNone(rows: seq<Job>, i: nat)
  {
    && i < |rows|
    && forall k :: 0 <= k < |rows| && rows[k].status.Queued? ==>
         && rows[k].priority <= rows[i].priority
         && (rows[k].priority == rows[i].priority ==> rows[i].createdAt <= rows[k].createdAt)
  }

  predicate NonePassedOver(b: Board, events: seq<Event>)
    requires WellFormed(b)
    decreases |events|
  {
    events != [] ==>
      (events[0].Claim? ==> PassesOverNone(b.rows, events[0].row)) && NonePassedOver(After(b, events[0]), events[1..])
  }

  /** In every run, arrivals in any order and recoveries included, every claim is of a most urgent row. */
  lemma {:induction false} UrgentFirst(b: Board, events: seq<Event>)
    requires WellFormed(b) && IsRun(b, events)
    ensures NonePassedOver(b, events)
    decreases |events|
  {
    hide After;
    if events != [] {
      UrgentFirst(After(b, events[0]), events[1..]);
    }
  }

  const OLDER := Job(0, 0, Processing)
  const YOUNGER := Job(0, 1, Processing)

  lemma SecondHalf() returns (events: seq<Event>)
    ensures var b := Board([OLDER, YOUNGER], [0, 1], [0, 0]);
            IsRun(b, events) && Final(b, events).claims == [0, 1, 0]
  {
    hide IsRun, Final;
    var s4 := Board([OLDER, YOUNGER], [0, 1], [0, 0]);
    var s5 := Board([OLDER.(status := Queued), YOUNGER], [0, 1], [1, 0]);
    var s6 := Board([OLDER, YOUNGER], [0, 1, 0], [1, 0]);
    assert Recovered(s4.rows, 301) == s5.rows && Requeued(s4, 301) == s5.requeues;
    NoEvents(s6);
    events := Before(s5, Claim(0), s6, []);
    events := Before(s4, Recover(301), s5, events);
  }

  /** A job put back runs a second time, after a younger one. */
  lemma RecoveryRunsAJobTwice() returns (events: seq<Event>)
    ensures IsRun(EMPTY, events) && Final(EMPTY, events).claims == [0, 1, 0]
    ensures SomethingReclaimed(EMPTY, events)
  {
    hide IsRun, Final, SomethingReclaimed;
    var a, b := OLDER.(status := Queued), YOUNGER.(status := Queued);
    events := SecondHalf();
    var s4 := Board([OLDER, YOUNGER], [0, 1], [0, 0]);
    var s3 := Board([OLDER, b], [0], [0, 0]);
    events := Before(s3, Claim(1), s4, events);
    var s2 := Board([a, b], [], [0, 0]);
    events := Before(s2, Claim(0), s3, events);
    var s1 := Board([a], [], [0]);
    events := Before(s1, Arrive(b), s2, events);
    events := Before(EMPTY, Arrive(a), s1, events);
    ClaimedOnceExactly(events);
    assert Final(EMPTY, events).claims[0] == Final(EMPTY, events).claims[2];
  }

  lemma NoEvents(b: Board)
    requires WellFormed(b)
    ensures IsRun(b, []) && Final(b, []) == b
  {
  }

  /** A run with one more event in front. */
  lemma Before(b: Board, e: Event, next: Board, events: seq<Event>) returns (longer: seq<Event>)
    requires WellFormed(b) && Allowed(b, e) && After(b, e) == next && IsRun(next, events)
    ensures longer == [e] + events && IsRun(b, longer) && Final(b, longer) == Final(next, events)
  {
    longer := [e] + events;
    assert longer[1..] == events;
  }
}
