/**
 Messages that are sealed and never opened. Since nonces are implicit, such a message blocks every
 later one in its direction; and as long as there is none, a connection can still complete an exchange.
 */
module SessionBlocked {
  import opened Bytes
  import opened NoiseCodec
  import opened Session

  /** A request sealed by the client that the worker never opens: a notification, or a call that has failed. */
  predicate DeadUp(s: Stream)
  {
    !s.up.taken && s.up.cost > 0 && (s.ask.Notify? || s.phase.Failed?)
  }

  /** A response sealed by the worker that the client never opens. */
  predicate DeadDown(s: Stream)
  {
    s.down.Some? && !s.down.value.leg.taken && s.down.value.leg.cost > 0 && s.phase.Failed?
  }

  predicate NothingDead(p: Pair)
  {
    forall i :: 0 <= i < |p.conn.streams| ==> !DeadUp(p.conn.streams[i]) && !DeadDown(p.conn.streams[i])
  }

  /** A notification that is not empty is dead from the start, whatever else is in flight. */
  lemma NotificationIsDead(w: Wire, p: Pair, jobId: seq<byte>)
    requires NoncesInRange(p) && jobId != [] && p.conn.sendNonce < MAX_NONCE
    ensures var p' := Act(w, p, Action.Ask(Notify(jobId)));
            |p'.conn.streams| == |p.conn.streams| + 1 && DeadUp(p'.conn.streams[|p.conn.streams|])
  {
    assert ChunkCount(|jobId|) > 0;
  }

  /** A response sealed by the worker that the client has not opened. */
  predicate ResponsePending(s: Stream)
  {
    s.down.Some? && !s.down.value.leg.taken && s.down.value.leg.cost > 0
  }

  /**
   Breaking a stream kills its request exactly if that was sealed and not opened yet, and its response
   likewise; a caller that stops waiting kills the response only. A request that the worker is still at
   is not answered to anyone after either.
   */
  lemma BreakKills(w: Wire, p: Pair, i: nat)
    requires PairInv(w, p) && i < |p.conn.streams| && !p.conn.streams[i].phase.Done?
    ensures var s := p.conn.streams[i];
            var broken := Act(w, p, Break(i)).conn.streams[i];
            var unawaited := Act(w, p, StopWaiting(i)).conn.streams[i];
            && (DeadUp(broken) <==> !s.up.taken && s.up.cost > 0)
            && (DeadUp(unawaited) <==> DeadUp(s))
            && (DeadDown(broken) <==> ResponsePending(s)) && (DeadDown(unawaited) <==> ResponsePending(s))
            && (s.phase.Working? ==> Unawaited(broken) && Unawaited(unawaited))
            && (s.phase.ToWorker? && s.ask.Call? ==> Unawaited(unawaited))
  {
    assert StreamInv(w, p, p.conn.streams[i]);
  }

  /** A call that nobody waits for any more, before it is answered. */
  predicate Unawaited(s: Stream)
  {
    s.ask.Call? && !s.awaited && (s.phase.ToWorker? || s.phase.Working?)
  }

  /** The worker answers it all the same, and what it seals is dead at once, if it has a nonce left for it. */
  lemma AnswerToNobodyIsDead(w: Wire, p: Pair, i: nat, body: seq<byte>)
    requires GoodWire(w) && PairInv(w, p) && i < |p.conn.streams|
    requires Unawaited(p.conn.streams[i]) && p.conn.streams[i].phase.Working?
    ensures var p' := Act(w, p, Answer(i, body));
            && (DeadDown(p'.conn.streams[i]) <==> p.worker.sendNonce < MAX_NONCE)
            && (p'.worker.sendNonce > p.worker.sendNonce <==> p.worker.sendNonce < MAX_NONCE)
            && p'.conn.recvNonce == p.conn.recvNonce
  {
    hide EncryptBlob, ChunkCount;
    AnsweredStream(w, p, i, body);
    var q := p.conn.streams[i].ask.request;
    SomeChunks(w.responses.write(Response(q.kind, q.id, body)));
  }

  /** A request is dead from the start exactly if its message does not fit a frame or the nonces do not suffice. */
  lemma OversizedRequestIsDead(w: Wire, p: Pair, q: Request)
    requires GoodWire(w) && NoncesInRange(p) && p.conn.sendNonce < MAX_NONCE
    ensures var p' := Act(w, p, Action.Ask(Call(q)));
            && |p'.conn.streams| == |p.conn.streams| + 1
            && (DeadUp(p'.conn.streams[|p.conn.streams|]) <==>
                !CanSend(w, p.conn.sendKey, p.conn.sendNonce, w.requests.write(q)))
  {
    hide EncryptBlob, ChunkCount, Fits;
    SomeChunks(w.requests.write(q));
  }

  /** A response is, exactly if it is like that or nobody waits for it. */
  lemma OversizedResponseIsDead(w: Wire, p: Pair, i: nat, body: seq<byte>)
    requires GoodWire(w) && NoncesInRange(p) && p.worker.sendNonce < MAX_NONCE
    requires i < |p.conn.streams| && p.conn.streams[i].phase.Working?
    ensures var s := p.conn.streams[i];
            var plain := w.responses.write(Response(s.phase.got.kind, s.phase.got.id, body));
            var p' := Act(w, p, Answer(i, body));
            && |p'.conn.streams| == |p.conn.streams|
            && (DeadDown(p'.conn.streams[i]) <==>
                !s.awaited || !CanSend(w, p.worker.sendKey, p.worker.sendNonce, plain))
  {
    hide EncryptBlob, ChunkCount, Fits;
    var got := p.conn.streams[i].phase.got;
    SomeChunks(w.responses.write(Response(got.kind, got.id, body)));
  }

  // ---------------------------------------------------------------------------------------------
  // What a dead message blocks
  // ---------------------------------------------------------------------------------------------

  /** Streams keep their place; a message once opened stays opened, and a dead one dead. */
  ghost predicate Later(before: seq<Stream>, after: seq<Stream>)
  {
    && |before| <= |after|
    && (forall i :: 0 <= i < |before| ==>
          && (DeadUp(before[i]) ==> DeadUp(after[i]))
          && (DeadDown(before[i]) ==> DeadDown(after[i]) && after[i].down.value.leg == before[i].down.value.leg))
  }

  /**
   What becomes of a call given up before it was answered: it stays so until the worker has dealt with
   it, and then its request or its response is dead, if the worker has nonces left.
   */
  predicate GoesDead(p: Pair, i: nat)
  {
    && i < |p.conn.streams|
    && var s := p.conn.streams[i];
    Unawaited(s) || DeadUp(s) || DeadDown(s) || (p.worker.sendNonce == MAX_NONCE && s.phase.Failed?)
  }

  predicate Names(a: Action, i: nat)
  {
    match a
    case Ask(_) => false
    case Read(j) => j == i
    case Answer(j, _) => j == i
    case Receive(j) => j == i
    case Break(j) => j == i
    case StopWaiting(j) => j == i
  }

  lemma OthersRest(w: Wire, p: Pair, a: Action, i: nat)
    requires NoncesInRange(p) && i < |p.conn.streams| && !Names(a, i)
    ensures var p' := Act(w, p, a);
            && i < |p'.conn.streams| && p'.conn.streams[i] == p.conn.streams[i]
            && p'.worker.sendNonce >= p.worker.sendNonce
  {
    hide EncryptBlob, DecryptBlob, ChunkCount, Plain, Fits;
  }

  lemma GoesDeadStep(w: Wire, p: Pair, a: Action, i: nat)
    requires GoodWire(w) && PairInv(w, p) && GoesDead(p, i)
    ensures GoesDead(Act(w, p, a), i)
  {
    hide EncryptBlob, DecryptBlob, ChunkCount, Plain, Fits;
    if Names(a, i) {
      OneGoesDead(w, p, a, i);
    } else {
      OthersRest(w, p, a, i);
      ActKeepsRange(w, p, a);
    }
  }

  lemma ActKeepsRange(w: Wire, p: Pair, a: Action)
    requires GoodWire(w) && PairInv(w, p)
    ensures Act(w, p, a).worker.sendNonce <= MAX_NONCE
  {
    hide EncryptBlob, DecryptBlob, ChunkCount, Plain, Fits;
  }

  lemma OneGoesDead(w: Wire, p: Pair, a: Action, i: nat)
    requires GoodWire(w) && PairInv(w, p) && GoesDead(p, i) && Names(a, i)
    ensures GoesDead(Act(w, p, a), i)
  {
    hide EncryptBlob, DecryptBlob, ChunkCount, Plain, Fits;
    var s := p.conn.streams[i];
    assert StreamInv(w, p, s);
    match a
    case Ask(_) =>
    case Read(_) =>
      if s.phase.ToWorker? && s.ask.Call? {
        PendingCosts(w, p, i);
        WorkerOpensExactlyTheNext(w, p, i);
      }
    case Answer(_, body) =>
      if s.phase.Working? {
        AnsweredStream(w, p, i, body);
        AnswerToNobodyIsDead(w, p, i, body);
      }
    case Receive(_) =>
    case Break(_) =>
      if s.phase.ToWorker? && s.ask.Call? {
        PendingCosts(w, p, i);
      }
    case StopWaiting(_) =>
  }

  lemma ActIsLater(w: Wire, p: Pair, a: Action)
    requires PairInv(w, p)
    ensures Later(p.conn.streams, Act(w, p, a).conn.streams)
  {
    hide EncryptBlob, DecryptBlob, ChunkCount, Plain;
    forall i | 0 <= i < |p.conn.streams|
      ensures StreamInv(w, p, p.conn.streams[i])
    {
    }
    match a
    case Ask(_) =>
    case Read(_) =>
    case Answer(_, _) =>
    case Receive(_) =>
    case Break(_) =>
    case StopWaiting(_) =>
  }

  /** In every reachable state: no request sent after a dead one has been opened, so none of them is answered. */
  lemma DeadRequestBlocks(w: Wire, p: Pair, j: nat, k: nat)
    requires PairInv(w, p) && j < k < |p.conn.streams| && DeadUp(p.conn.streams[j])
    ensures !p.conn.streams[k].up.taken && !p.conn.streams[k].phase.Working? && !p.conn.streams[k].phase.Done?
    ensures p.worker.recvNonce <= p.conn.streams[j].up.start
  {
    assert StreamInv(w, p, p.conn.streams[j]) && StreamInv(w, p, p.conn.streams[k]);
    assert p.conn.streams[j].up.End() <= p.conn.streams[k].up.start;
  }

  /** Likewise no response sealed after a dead one has been opened. */
  lemma DeadResponseBlocks(w: Wire, p: Pair, j: nat, k: nat)
    requires PairInv(w, p) && j < |p.conn.streams| && k < |p.conn.streams| && DeadDown(p.conn.streams[j])
    requires p.conn.streams[k].down.Some?
    requires p.conn.streams[j].down.value.leg.End() <= p.conn.streams[k].down.value.leg.start
    ensures !p.conn.streams[k].down.value.leg.taken && !p.conn.streams[k].phase.Done?
  {
    assert StreamInv(w, p, p.conn.streams[j]) && StreamInv(w, p, p.conn.streams[k]);
  }

  /**
   In every run, whatever else is in flight: after a notification, or a call broken off before it
   was opened, no request sent later on the connection is ever opened or answered.
   */
  lemma {:induction false} BlockedForever(w: Wire, s: World, events: seq<Event>, c: ConnId, j: nat)
    requires GoodWire(w) && WorldInv(w, s) && c in s.conns && Disconnect(c) !in events
    requires j < |s.conns[c].streams| && DeadUp(s.conns[c].streams[j])
    ensures var s' := Run(w, s, events);
            && c in s'.conns
            && var ss := s'.conns[c].streams;
            && j < |ss| && DeadUp(ss[j])
            && forall k :: j < k < |ss| ==> !ss[k].up.taken && !ss[k].phase.Working? && !ss[k].phase.Done?
    decreases |events|
  {
    hide Act, PairInv, GapInv, DeadUp;
    if events == [] {
      forall k | j < k < |s.conns[c].streams|
        ensures var t := s.conns[c].streams[k]; !t.up.taken && !t.phase.Working? && !t.phase.Done?
      {
        DeadRequestBlocks(w, PairOf(s, c), j, k);
      }
    } else {
      BlockedStep(w, s, events[0], c, j);
      BlockedForever(w, Step(w, s, events[0]), events[1..], c, j);
    }
  }

  lemma BlockedStep(w: Wire, s: World, e: Event, c: ConnId, j: nat)
    requires GoodWire(w) && WorldInv(w, s) && c in s.conns && e != Disconnect(c)
    requires j < |s.conns[c].streams| && DeadUp(s.conns[c].streams[j])
    ensures var s' := Step(w, s, e);
            WorldInv(w, s') && c in s'.conns && j < |s'.conns[c].streams| && DeadUp(s'.conns[c].streams[j])
  {
    hide Act, PairInv, GapInv, DeadUp, DeadDown;
    StepKeeps(w, s, e);
    StepOfOne(w, s, e, c);
    if e.On? && e.c == c {
      ActIsLater(w, PairOf(s, c), e.action);
    }
  }

  // ---------------------------------------------------------------------------------------------
  // Runs of one connection
  // ---------------------------------------------------------------------------------------------

  ghost predicate Sound(w: Wire, p: Pair)
  {
    GoodWire(w) && PairInv(w, p) && GapInv(p)
  }

  ghost function ActAll(w: Wire, p: Pair, actions: seq<Action>): (r: Pair)
    requires Sound(w, p)
    ensures Sound(w, r)
    decreases |actions|
  {
    if actions == [] then p
    else
      ActKeeps(w, p, actions[0]);
      ActAll(w, Act(w, p, actions[0]), actions[1..])
  }

  lemma {:induction false} ActAllJoins(w: Wire, p: Pair, a: seq<Action>, b: seq<Action>)
    requires Sound(w, p)
    ensures ActAll(w, p, a + b) == ActAll(w, ActAll(w, p, a), b)
    decreases |a|
  {
    hide Act, Sound;
    if a == [] {
      assert a + b == b;
    } else {
      SoundAct(w, p, a[0]);
      ActAllJoins(w, Act(w, p, a[0]), a[1..], b);
      assert (a + b)[0] == a[0] && (a + b)[1..] == a[1..] + b;
    }
  }

  lemma SoundAct(w: Wire, p: Pair, a: Action)
    requires Sound(w, p)
    ensures NoncesInRange(p) && Sound(w, Act(w, p, a))
  {
    hide Act, GapInv;
    ActKeeps(w, p, a);
  }

  lemma {:induction false} ActAllIsLater(w: Wire, p: Pair, actions: seq<Action>)
    requires Sound(w, p)
    ensures Later(p.conn.streams, ActAll(w, p, actions).conn.streams)
    decreases |actions|
  {
    hide Act, PairInv, GapInv, DeadUp, DeadDown;
    if actions != [] {
      SoundAct(w, p, actions[0]);
      ActIsLater(w, p, actions[0]);
      ActAllIsLater(w, Act(w, p, actions[0]), actions[1..]);
    }
  }

  /** In every run from any reachable state, a call given up before it was answered ends that way. */
  lemma {:induction false} GivenUpGoesDead(w: Wire, p: Pair, actions: seq<Action>, i: nat)
    requires Sound(w, p) && GoesDead(p, i)
    ensures GoesDead(ActAll(w, p, actions), i)
    ensures !ActAll(w, p, actions).conn.streams[i].phase.Done?
    decreases |actions|
  {
    hide Act, PairInv, GapInv, GoesDead;
    if actions == [] {
      NeverDone(w, p, i);
    } else {
      SoundAct(w, p, actions[0]);
      GoesDeadStep(w, p, actions[0], i);
      GivenUpGoesDead(w, Act(w, p, actions[0]), actions[1..], i);
    }
  }

  lemma NeverDone(w: Wire, p: Pair, i: nat)
    requires PairInv(w, p) && GoesDead(p, i)
    ensures i < |p.conn.streams| && !p.conn.streams[i].phase.Done?
  {
    assert StreamInv(w, p, p.conn.streams[i]);
  }

  /** From stream `n` on, every response is sealed after the dead one of stream `j`. */
  ghost predicate AnsweredAfter(p: Pair, j: nat, n: nat)
  {
    && j < |p.conn.streams| && DeadDown(p.conn.streams[j])
    && forall k :: n <= k < |p.conn.streams| && p.conn.streams[k].down.Some? ==>
         p.conn.streams[j].down.value.leg.End() <= p.conn.streams[k].down.value.leg.start
  }

  /** A response keeps its nonces; a new one takes the worker's next. */
  lemma ResponsesKeepTheirNonces(w: Wire, p: Pair, a: Action, k: nat)
    requires PairInv(w, p) && k < |Act(w, p, a).conn.streams| && Act(w, p, a).conn.streams[k].down.Some?
    ensures var leg := Act(w, p, a).conn.streams[k].down.value.leg;
            || leg.start == p.worker.sendNonce
            || (k < |p.conn.streams| && p.conn.streams[k].down.Some?
                && leg.start == p.conn.streams[k].down.value.leg.start)
  {
    hide EncryptBlob, DecryptBlob, ChunkCount, Plain;
    match a
    case Ask(_) =>
    case Read(_) =>
    case Answer(_, _) =>
    case Receive(_) =>
    case Break(_) =>
    case StopWaiting(_) =>
  }

  lemma DeadIsBehind(w: Wire, p: Pair, j: nat)
    requires PairInv(w, p) && j < |p.conn.streams| && DeadDown(p.conn.streams[j])
    ensures p.conn.streams[j].down.value.leg.End() <= p.worker.sendNonce
  {
    assert StreamInv(w, p, p.conn.streams[j]);
  }

  lemma AnsweredAfterStep(w: Wire, p: Pair, a: Action, j: nat, n: nat)
    requires PairInv(w, p) && AnsweredAfter(p, j, n) && j < n
    ensures AnsweredAfter(Act(w, p, a), j, n)
  {
    hide Act, PairInv, DeadUp;
    InRange(w, p);
    ActIsLater(w, p, a);
    DeadIsBehind(w, p, j);
    var p' := Act(w, p, a);
    forall k | n <= k < |p'.conn.streams| && p'.conn.streams[k].down.Some?
      ensures p'.conn.streams[j].down.value.leg.End() <= p'.conn.streams[k].down.value.leg.start
    {
      ResponsesKeepTheirNonces(w, p, a, k);
    }
  }

  lemma {:induction false} AnsweredAfterRun(w: Wire, p: Pair, actions: seq<Action>, j: nat, n: nat)
    requires Sound(w, p) && AnsweredAfter(p, j, n) && j < n
    ensures AnsweredAfter(ActAll(w, p, actions), j, n)
    decreases |actions|
  {
    hide Act, PairInv, GapInv, AnsweredAfter;
    if actions != [] {
      SoundAct(w, p, actions[0]);
      AnsweredAfterStep(w, p, actions[0], j, n);
      AnsweredAfterRun(w, Act(w, p, actions[0]), actions[1..], j, n);
    }
  }

  lemma DeadRequestMeansUnanswered(w: Wire, p: Pair, actions: seq<Action>, j: nat, k: nat)
    requires Sound(w, p) && j < |p.conn.streams| && DeadUp(p.conn.streams[j])
    requires |p.conn.streams| <= k < |ActAll(w, p, actions).conn.streams|
    ensures !ActAll(w, p, actions).conn.streams[k].phase.Done?
  {
    hide ActAll, PairInv, GapInv, DeadUp, DeadDown;
    ActAllIsLater(w, p, actions);
    DeadRequestBlocks(w, ActAll(w, p, actions), j, k);
  }

  lemma DeadResponseMeansUnanswered(w: Wire, p: Pair, actions: seq<Action>, j: nat, k: nat)
    requires Sound(w, p) && j < |p.conn.streams| && DeadDown(p.conn.streams[j])
    requires |p.conn.streams| <= k < |ActAll(w, p, actions).conn.streams|
    ensures !ActAll(w, p, actions).conn.streams[k].phase.Done?
  {
    hide ActAll, PairInv, GapInv, DeadUp, DeadDown;
    var p' := ActAll(w, p, actions);
    AnsweredAfterRun(w, p, actions, j, |p.conn.streams|);
    if p'.conn.streams[k].phase.Done? {
      DoneIsAnswered(w, p', k);
      DeadResponseBlocks(w, p', j, k);
    }
  }

  /** With a dead message in either direction, no later request is ever answered to its client. */
  lemma DeadMeansUnanswered(w: Wire, p: Pair, actions: seq<Action>, k: nat)
    requires Sound(w, p) && !NothingDead(p)
    requires |p.conn.streams| <= k < |ActAll(w, p, actions).conn.streams|
    ensures !ActAll(w, p, actions).conn.streams[k].phase.Done?
  {
    hide ActAll, Sound, DeadUp, DeadDown;
    var j :| 0 <= j < |p.conn.streams| && (DeadUp(p.conn.streams[j]) || DeadDown(p.conn.streams[j]));
    if DeadUp(p.conn.streams[j]) {
      DeadRequestMeansUnanswered(w, p, actions, j, k);
    } else {
      DeadResponseMeansUnanswered(w, p, actions, j, k);
    }
  }

  /** So once the worker has dealt with a call given up before, the connection answers none any more. */
  lemma GivenUpBlocks(w: Wire, p: Pair, i: nat, actions: seq<Action>, k: nat)
    requires Sound(w, p) && GoesDead(p, i) && !Unawaited(p.conn.streams[i]) && p.worker.sendNonce < MAX_NONCE
    requires |p.conn.streams| <= k < |ActAll(w, p, actions).conn.streams|
    ensures !ActAll(w, p, actions).conn.streams[k].phase.Done?
  {
    hide ActAll, Sound, DeadUp, DeadDown, Unawaited;
    DeadMeansUnanswered(w, p, actions, k);
  }

  lemma DoneIsAnswered(w: Wire, p: Pair, k: nat)
    requires PairInv(w, p) && k < |p.conn.streams| && p.conn.streams[k].phase.Done?
    ensures p.conn.streams[k].down.Some?
  {
    assert StreamInv(w, p, p.conn.streams[k]);
  }

  // ---------------------------------------------------------------------------------------------
  // Without dead messages
  // ---------------------------------------------------------------------------------------------

  /** The nonces from `lo` on and below `hi`. */
  function Cells(lo: nat, hi: nat): (r: set<int>)
    ensures forall n :: n in r <==> lo <= n < hi
    ensures |r| == if lo <= hi then hi - lo else 0
  {
    if lo >= hi then {} else Cells(lo, hi - 1) + {hi - 1}
  }

  function CellsOf(legs: seq<Leg>): (r: set<int>)
  {
    if legs == [] then {} else CellsOf(legs[1..]) + Cells(legs[0].start, legs[0].End())
  }

  function TotalCost(legs: seq<Leg>): (r: nat)
  {
    if legs == [] then 0 else legs[0].cost + TotalCost(legs[1..])
  }

  /** The nonce is one that the leg takes. */
  predicate Takes(leg: Leg, n: int)
  {
    leg.start <= n < leg.End()
  }

  lemma {:induction false} CellOf(legs: seq<Leg>, n: int)
    ensures n in CellsOf(legs) <==> exists i :: 0 <= i < |legs| && Takes(legs[i], n)
  {
    if legs != [] {
      var rest := legs[1..];
      CellOf(rest, n);
      assert n in CellsOf(legs) <==> n in CellsOf(rest) || Takes(legs[0], n);
      hide CellsOf;
      assert forall i :: 0 <= i < |rest| ==> rest[i] == legs[i + 1];
      assert forall i :: 0 < i < |legs| ==> legs[i] == rest[i - 1];
    }
  }

  lemma {:induction false} DisjointLegsAdd(legs: seq<Leg>)
    requires forall i, j :: 0 <= i < j < |legs| ==> Disjoint(legs[i], legs[j])
    ensures |CellsOf(legs)| == TotalCost(legs)
  {
    if legs != [] {
      var rest, own := legs[1..], Cells(legs[0].start, legs[0].End());
      DisjointLegsAdd(rest);
      forall n | n in own
        ensures n !in CellsOf(rest)
      {
        CellOf(rest, n);
        forall i | 0 <= i < |rest|
          ensures !Takes(rest[i], n)
        {
          assert Disjoint(legs[0], legs[i + 1]);
        }
      }
      assert own !! CellsOf(rest);
    }
  }

  /** Disjoint legs that add up to the whole gap fill it, so one of them begins where it begins. */
  lemma SomeLegIsFirst(legs: seq<Leg>, lo: nat, hi: nat) returns (i: nat)
    requires forall i, j :: 0 <= i < j < |legs| ==> Disjoint(legs[i], legs[j])
    requires forall i :: 0 <= i < |legs| && legs[i].cost > 0 ==> lo <= legs[i].start && legs[i].End() <= hi
    requires TotalCost(legs) == hi - lo && lo < hi
    ensures i < |legs| && legs[i].start == lo && legs[i].cost > 0
  {
    DisjointLegsAdd(legs);
    forall n | n in CellsOf(legs)
      ensures n in Cells(lo, hi)
    {
      CellOf(legs, n);
    }
    assert Cells(lo, hi) == CellsOf(legs) + (Cells(lo, hi) - CellsOf(legs));
    assert lo as int in CellsOf(legs);
    CellOf(legs, lo);
    var k :| 0 <= k < |legs| && Takes(legs[k], lo);
    i := k;
  }

  /** What a stream has under way to the worker, or to the client; nothing if it has arrived. */
  function Upward(s: Stream): (r: Leg)
  {
    if s.up.taken then Leg(s.up.start, 0, true) else s.up
  }

  function Downward(s: Stream): (r: Leg)
  {
    if s.down.None? then Leg(0, 0, true)
    else if s.down.value.leg.taken then Leg(s.down.value.leg.start, 0, true)
    else s.down.value.leg
  }

  function Legs(ss: seq<Stream>, up: bool): (r: seq<Leg>)
    ensures |r| == |ss| && forall i :: 0 <= i < |ss| ==> r[i] == if up then Upward(ss[i]) else Downward(ss[i])
  {
    if ss == [] then [] else [if up then Upward(ss[0]) else Downward(ss[0])] + Legs(ss[1..], up)
  }

  lemma {:induction false} TotalIsUnopened(ss: seq<Stream>)
    ensures TotalCost(Legs(ss, true)) == UnopenedUp(ss) && TotalCost(Legs(ss, false)) == UnopenedDown(ss)
  {
    if ss != [] {
      TotalIsUnopened(ss[1..]);
      assert Legs(ss, true)[1..] == Legs(ss[1..], true) && Legs(ss, false)[1..] == Legs(ss[1..], false);
    }
  }

  lemma LegFits(w: Wire, p: Pair, i: nat)
    requires PairInv(w, p) && i < |p.conn.streams|
    ensures var up, down := Upward(p.conn.streams[i]), Downward(p.conn.streams[i]);
            && (up.cost > 0 ==> p.worker.recvNonce <= up.start && up.End() <= p.conn.sendNonce)
            && (down.cost > 0 ==> p.conn.recvNonce <= down.start && down.End() <= p.worker.sendNonce)
  {
    assert StreamInv(w, p, p.conn.streams[i]);
  }

  lemma LegsAreDisjoint(w: Wire, p: Pair, i: nat, j: nat)
    requires PairInv(w, p) && i < j < |p.conn.streams|
    ensures Disjoint(Upward(p.conn.streams[i]), Upward(p.conn.streams[j]))
    ensures Disjoint(Downward(p.conn.streams[i]), Downward(p.conn.streams[j]))
  {
    hide StreamInv;
    assert p.conn.streams[i].up.End() <= p.conn.streams[j].up.start;
  }

  /** If the worker lags behind the client, some request under way is the one it waits for. */
  lemma SomeRequestIsNext(w: Wire, p: Pair) returns (i: nat)
    requires PairInv(w, p) && GapInv(p) && p.worker.recvNonce < p.conn.sendNonce
    ensures i < |p.conn.streams| && !p.conn.streams[i].up.taken && p.conn.streams[i].up.cost > 0
    ensures p.conn.streams[i].up.start == p.worker.recvNonce
  {
    var ss := p.conn.streams;
    TotalIsUnopened(ss);
    var legs := Legs(ss, true);
    forall k | 0 <= k < |legs| && legs[k].cost > 0
      ensures p.worker.recvNonce <= legs[k].start && legs[k].End() <= p.conn.sendNonce
    {
      LegFits(w, p, k);
    }
    forall k, l | 0 <= k < l < |legs|
      ensures Disjoint(legs[k], legs[l])
    {
      LegsAreDisjoint(w, p, k, l);
    }
    hide PairInv;
    i := SomeLegIsFirst(legs, p.worker.recvNonce, p.conn.sendNonce);
  }

  /** If the client lags behind the worker, some response under way is the one it waits for. */
  lemma SomeResponseIsNext(w: Wire, p: Pair) returns (i: nat)
    requires PairInv(w, p) && GapInv(p) && p.conn.recvNonce < p.worker.sendNonce
    ensures i < |p.conn.streams| && p.conn.streams[i].down.Some?
    ensures var leg := p.conn.streams[i].down.value.leg;
            !leg.taken && leg.cost > 0 && leg.start == p.conn.recvNonce
  {
    var ss := p.conn.streams;
    TotalIsUnopened(ss);
    var legs := Legs(ss, false);
    forall k | 0 <= k < |legs| && legs[k].cost > 0
      ensures p.conn.recvNonce <= legs[k].start && legs[k].End() <= p.worker.sendNonce
    {
      LegFits(w, p, k);
    }
    forall k, l | 0 <= k < l < |legs|
      ensures Disjoint(legs[k], legs[l])
    {
      LegsAreDisjoint(w, p, k, l);
    }
    hide PairInv;
    i := SomeLegIsFirst(legs, p.conn.recvNonce, p.worker.sendNonce);
  }

  /** Neither end has sealed anything in between. */
  predicate SameSenders(p: Pair, q: Pair)
  {
    && p.conn.sendNonce == q.conn.sendNonce && p.worker.sendNonce == q.worker.sendNonce
    && p.conn.sendKey == q.conn.sendKey && p.worker.sendKey == q.worker.sendKey
  }

  /** Opening a pending message in its turn kills nothing and brings its receiver closer to its sender. */
  lemma ReadInTurn(w: Wire, p: Pair, i: nat)
    requires Sound(w, p) && NothingDead(p) && i < |p.conn.streams|
    requires var s := p.conn.streams[i]; !s.up.taken && s.up.cost > 0 && s.up.start == p.worker.recvNonce
    ensures var p' := Act(w, p, Read(i));
            && NothingDead(p') && |p'.conn.streams| == |p.conn.streams|
            && p'.worker.recvNonce > p.worker.recvNonce && p'.conn.recvNonce == p.conn.recvNonce
            && SameSenders(p', p)
  {
    hide EncryptBlob, DecryptBlob, ChunkCount, Plain, GapInv;
    var s := p.conn.streams[i];
    assert StreamInv(w, p, s) && !DeadUp(s);
    WorkerOpensExactlyTheNext(w, p, i);
    OneChanged(p, Act(w, p, Read(i)), i);
  }

  lemma ReceiveInTurn(w: Wire, p: Pair, i: nat)
    requires Sound(w, p) && NothingDead(p) && i < |p.conn.streams| && p.conn.streams[i].down.Some?
    requires var leg := p.conn.streams[i].down.value.leg;
             !leg.taken && leg.cost > 0 && leg.start == p.conn.recvNonce
    ensures var p' := Act(w, p, Receive(i));
            && NothingDead(p') && |p'.conn.streams| == |p.conn.streams|
            && p'.conn.recvNonce > p.conn.recvNonce && p'.worker.recvNonce == p.worker.recvNonce
            && SameSenders(p', p)
  {
    hide EncryptBlob, DecryptBlob, ChunkCount, Plain, GapInv;
    var s := p.conn.streams[i];
    assert StreamInv(w, p, s) && !DeadDown(s);
    ClientOpensExactlyTheNext(w, p, i);
    OneChanged(p, Act(w, p, Receive(i)), i);
  }

  lemma OneChanged(p: Pair, p': Pair, i: nat)
    requires NothingDead(p) && i < |p.conn.streams| && |p'.conn.streams| == |p.conn.streams|
    requires p'.conn.streams == p.conn.streams[i := p'.conn.streams[i]]
    requires !DeadUp(p'.conn.streams[i]) && !DeadDown(p'.conn.streams[i])
    ensures NothingDead(p')
  {
  }

  /** With nothing dead, what is under way can be brought in, until the two ends agree. */
  lemma {:induction false} Drain(w: Wire, p: Pair) returns (actions: seq<Action>)
    requires Sound(w, p) && NothingDead(p)
    ensures var p' := ActAll(w, p, actions);
            && Agree(p') && |p'.conn.streams| == |p.conn.streams|
            && SameSenders(p', p)
    decreases p.conn.sendNonce - p.worker.recvNonce + (p.worker.sendNonce - p.conn.recvNonce)
  {
    hide Act, PairInv, GapInv, NothingDead;
    Lags(w, p);
    actions := [];
    if p.worker.recvNonce < p.conn.sendNonce {
      var i := SomeRequestIsNext(w, p);
      ReadInTurn(w, p, i);
      SoundAct(w, p, Read(i));
      actions := DrainAfter(w, p, Read(i));
    } else if p.conn.recvNonce < p.worker.sendNonce {
      var i := SomeResponseIsNext(w, p);
      ReceiveInTurn(w, p, i);
      SoundAct(w, p, Receive(i));
      actions := DrainAfter(w, p, Receive(i));
    }
  }

  lemma Lags(w: Wire, p: Pair)
    requires Sound(w, p)
    ensures p.worker.recvNonce <= p.conn.sendNonce && p.conn.recvNonce <= p.worker.sendNonce
  {
  }

  lemma {:induction false} DrainAfter(w: Wire, p: Pair, a: Action) returns (actions: seq<Action>)
    requires Sound(w, p) && NoncesInRange(p) && NothingDead(Act(w, p, a))
    requires var p' := Act(w, p, a);
             && |p'.conn.streams| == |p.conn.streams|
             && SameSenders(p', p)
             && p'.worker.recvNonce + p'.conn.recvNonce > p.worker.recvNonce + p.conn.recvNonce
    ensures var p' := ActAll(w, p, actions);
            && Agree(p') && |p'.conn.streams| == |p.conn.streams|
            && SameSenders(p', p)
    decreases p.conn.sendNonce - p.worker.recvNonce + (p.worker.sendNonce - p.conn.recvNonce), 0
  {
    hide Act, PairInv, GapInv, NothingDead;
    SoundAct(w, p, a);
    Lags(w, p);
    Lags(w, Act(w, p, a));
    var rest := Drain(w, Act(w, p, a));
    actions := [a] + rest;
    assert actions[0] == a && actions[1..] == rest;
  }

  lemma ActAllOfOne(w: Wire, p: Pair, a: Action)
    requires Sound(w, p)
    ensures NoncesInRange(p) && ActAll(w, p, [a]) == Act(w, p, a)
  {
    hide Act, Sound;
    SoundAct(w, p, a);
    assert [a][1..] == [];
    assert ActAll(w, Act(w, p, a), []) == Act(w, p, a);
  }

  lemma ActAllOfFour(w: Wire, p: Pair, a: Action, b: Action, c: Action, d: Action)
    requires Sound(w, p)
    ensures NoncesInRange(p)
    ensures var p1 := Act(w, p, a);
            && NoncesInRange(p1)
            && var p2 := Act(w, p1, b);
            && NoncesInRange(p2)
            && var p3 := Act(w, p2, c);
            NoncesInRange(p3) && ActAll(w, p, [a, b, c, d]) == Act(w, p3, d)
  {
    hide Act, Sound, ActAll;
    SoundAct(w, p, a);
    var p1 := Act(w, p, a);
    SoundAct(w, p1, b);
    var p2 := Act(w, p1, b);
    SoundAct(w, p2, c);
    var p3 := Act(w, p2, c);
    ActAllOfOne(w, p, a);
    ActAllOfOne(w, p1, b);
    ActAllOfOne(w, p2, c);
    ActAllOfOne(w, p3, d);
    ActAllJoins(w, p2, [c], [d]);
    ActAllJoins(w, p1, [b], [c] + [d]);
    ActAllJoins(w, p, [a], [b] + ([c] + [d]));
    assert [a, b, c, d] == [a] + ([b] + ([c] + [d]));
  }

  /** The answer to `q` has come back on the first stream opened after `p`. */
  ghost predicate Answers(w: Wire, p: Pair, actions: seq<Action>, q: Request, body: seq<byte>)
    requires Sound(w, p)
  {
    var ss, n := ActAll(w, p, actions).conn.streams, |p.conn.streams|;
    n < |ss| && ss[n].phase == Done(Response(q.kind, q.id, body))
  }

  lemma AliveCanExchange(w: Wire, p: Pair, q: Request, body: seq<byte>) returns (actions: seq<Action>)
    requires Sound(w, p) && NothingDead(p)
    requires CanSend(w, p.conn.sendKey, p.conn.sendNonce, w.requests.write(q))
    requires CanSend(w, p.worker.sendKey, p.worker.sendNonce, w.responses.write(Response(q.kind, q.id, body)))
    ensures Answers(w, p, actions, q, body)
  {
    hide Act, PairInv, GapInv, NothingDead, ActAll, ChunkCount;
    var n := |p.conn.streams|;
    var drain := Drain(w, p);
    var p' := ActAll(w, p, drain);
    ExchangeCompletes(w, p', q, body);
    ActAllOfFour(w, p', Action.Ask(Call(q)), Read(n), Answer(n, body), Receive(n));
    actions := drain + [Action.Ask(Call(q)), Read(n), Answer(n, body), Receive(n)];
    ActAllJoins(w, p, drain, [Action.Ask(Call(q)), Read(n), Answer(n, body), Receive(n)]);
  }

  /**
   In every reachable state of a connection with nonces left, whatever is in flight: it can still
   complete an exchange if, and only if, no message in either direction is dead.
   */
  lemma AliveExactlyIfNothingDead(w: Wire, p: Pair, q: Request, body: seq<byte>)
    requires Sound(w, p)
    requires CanSend(w, p.conn.sendKey, p.conn.sendNonce, w.requests.write(q))
    requires CanSend(w, p.worker.sendKey, p.worker.sendNonce, w.responses.write(Response(q.kind, q.id, body)))
    ensures NothingDead(p) <==> exists actions :: Answers(w, p, actions, q, body)
  {
    hide Act, Sound, ActAll, NothingDead, ChunkCount;
    if NothingDead(p) {
      var actions := AliveCanExchange(w, p, q, body);
    } else {
      forall actions
        ensures !Answers(w, p, actions, q, body)
      {
        if |p.conn.streams| < |ActAll(w, p, actions).conn.streams| {
          DeadMeansUnanswered(w, p, actions, |p.conn.streams|);
        }
      }
    }
  }
}
