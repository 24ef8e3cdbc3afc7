/**
 Runs of polls that begin with failures. Until one poll has succeeded, every poll looks back from its
 own head, so a channel that a failed poll has opened or topped up may drop out of the window of the
 first poll that succeeds.
 */
module FirstPoll {
  import opened Wrappers
  import opened ChannelEvents
  import opened Sono
  import opened PollRuns

  /** A poll that covers blocks when none has been covered yet. */
  predicate Covers(rpc: Rpc)
  {
    Succeeds(rpc) && rpc.head.value > 0
  }

  /** What a poll that fails applies before it does: the openings of its window, and perhaps the top-ups. */
  function AppliedByOne(service: Address, chain: seq<ChainEvent>, rpc: Rpc): (r: seq<ChainEvent>)
  {
    if rpc.head.None? || rpc.head.value == 0 || !rpc.openedOk then []
    else
      var w := Window(chain, service, WindowStart(0, rpc.head.value), rpc.head.value);
      Keep(w, IsKind(Opened)) + if rpc.toppedUpOk then Keep(w, IsKind(ToppedUp)) else []
  }

  function AppliedBy(service: Address, chain: seq<ChainEvent>, failed: seq<Rpc>): (r: seq<ChainEvent>)
  {
    if failed == [] then [] else AppliedByOne(service, chain, failed[0]) + AppliedBy(service, chain, failed[1..])
  }

  lemma FailedPollApplies(service: Address, m: Channels, chain: seq<ChainEvent>, rpc: Rpc)
    requires !Covers(rpc)
    ensures PollOnce(service, Tracker(m, 0), chain, rpc) == Tracker(Replay(m, AppliedByOne(service, chain, rpc)), 0)
  {
    hide Keep, Window;
    ReplayNothing(m);
    if rpc.head.Some? && rpc.head.value > 0 && rpc.openedOk {
      var w := Window(chain, service, WindowStart(0, rpc.head.value), rpc.head.value);
      var o, t := Keep(w, IsKind(Opened)), Keep(w, IsKind(ToppedUp));
      ReplayConcat(m, o, t);
      assert o + [] == o;
    }
  }

  lemma {:induction false} FailedPollsApply(service: Address, m: Channels, chain: seq<ChainEvent>, failed: seq<Rpc>)
    requires forall rpc :: rpc in failed ==> !Covers(rpc)
    ensures PollAll(service, Tracker(m, 0), chain, failed) == Tracker(Replay(m, AppliedBy(service, chain, failed)), 0)
    decreases |failed|
  {
    hide PollOnce, AppliedByOne, Covers, Replay;
    ReplayNothing(m);
    if failed != [] {
      var one := AppliedByOne(service, chain, failed[0]);
      FailedPollApplies(service, m, chain, failed[0]);
      FailedPollsApply(service, Replay(m, one), chain, failed[1..]);
      ReplayConcat(m, one, AppliedBy(service, chain, failed[1..]));
    }
  }

  lemma {:induction false} PollAllJoins(service: Address, t: Tracker, chain: seq<ChainEvent>, a: seq<Rpc>, b: seq<Rpc>)
    ensures PollAll(service, t, chain, a + b) == PollAll(service, PollAll(service, t, chain, a), chain, b)
    decreases |a|
  {
    hide PollOnce;
    if a == [] {
      assert a + b == b;
    } else {
      assert (a + b)[0] == a[0] && (a + b)[1..] == a[1..] + b;
      PollAllJoins(service, PollOnce(service, t, chain, a[0]), chain, a[1..], b);
    }
  }

  lemma {:induction false} NoSettlementApplied(service: Address, chain: seq<ChainEvent>, failed: seq<Rpc>)
    ensures forall e :: e in AppliedBy(service, chain, failed) ==> !e.kind.Settled?
  {
    hide Keep, Window;
    if failed != [] {
      NoSettlementApplied(service, chain, failed[1..]);
      if failed[0].head.Some? {
        var w := Window(chain, service, WindowStart(0, failed[0].head.value), failed[0].head.value);
        KeptPass(w, IsKind(Opened));
        KeptPass(w, IsKind(ToppedUp));
      }
    }
  }

  /**
   For one user, whose channel was `y`: what the failed polls applied, `a`, makes no difference after
   the events `w` of the covered blocks. Either those open or settle the channel in any case; or `a`
   opens it, but it was there already, unspent, and with the deposit that counts; or `a` only tops it
   up, and it was not there, or is topped up again, or had that deposit.
   */
  predicate Harmless(y: Option<ChannelState>, a: seq<ChainEvent>, w: seq<ChainEvent>)
  {
    var o, t := LastOf(a, Opened), LastOf(a, ToppedUp);
    || LastOf(w, Opened) >= 0
    || LastOf(w, Settled) >= 0
    || if o >= 0 then
         && y.Some? && y.value.user == a[o].user && y.value.spent == 0 && y.value.nonce == 0
         && (LastOf(w, ToppedUp) >= 0 || y.value.deposit == if o < t then a[t].amount else a[o].amount)
       else t >= 0 ==> y.None? || LastOf(w, ToppedUp) >= 0 || y.value.deposit == a[t].amount
  }

  lemma HarmlessExactly(y: Option<ChannelState>, a: seq<ChainEvent>, w: seq<ChainEvent>)
    requires LastOf(a, Settled) < 0
    ensures ReplayUser(ReplayUser(y, a), w) == ReplayUser(y, w) <==> Harmless(y, a, w)
  {
    ChainOrderResult(y, a);
    ChainOrderResult(ReplayUser(y, a), w);
    ChainOrderResult(y, w);
  }

  lemma NoneIsLast(es: seq<ChainEvent>, k: EventKind)
    requires forall e :: e in es ==> e.kind != k
    ensures LastOf(es, k) < 0
  {
    assert forall i :: 0 <= i < |es| ==> es[i] in es;
  }

  lemma ReplayTwice(m: Channels, a: seq<ChainEvent>, w: seq<ChainEvent>, u: Address)
    ensures Get(Replay(Replay(m, a), w), u) ==
            ReplayUser(ReplayUser(Get(m, u), Keep(a, IsUser(u))), Keep(w, IsUser(u)))
    ensures Get(Replay(m, w), u) == ReplayUser(Get(m, u), Keep(w, IsUser(u)))
  {
    ReplayIsPerUser(Replay(m, a), w, u);
    ReplayIsPerUser(m, a, u);
    ReplayIsPerUser(m, w, u);
  }

  lemma AllHarmlessExactly(m: Channels, a: seq<ChainEvent>, w: seq<ChainEvent>)
    requires forall e :: e in a ==> !e.kind.Settled?
    ensures Replay(Replay(m, a), w) == Replay(m, w) <==>
            forall u: Address :: Harmless(Get(m, u), Keep(a, IsUser(u)), Keep(w, IsUser(u)))
  {
    hide Replay, Keep, Harmless, ReplayUser, Get, LastOf;
    forall u: Address
      ensures Get(Replay(Replay(m, a), w), u) == Get(Replay(m, w), u) <==>
              Harmless(Get(m, u), Keep(a, IsUser(u)), Keep(w, IsUser(u)))
    {
      ReplayTwice(m, a, w, u);
      KeptPass(a, IsUser(u));
      NoneIsLast(Keep(a, IsUser(u)), Settled);
      HarmlessExactly(Get(m, u), Keep(a, IsUser(u)), Keep(w, IsUser(u)));
    }
    if forall u: Address :: Harmless(Get(m, u), Keep(a, IsUser(u)), Keep(w, IsUser(u))) {
      SameEverywhere(Replay(Replay(m, a), w), Replay(m, w));
    }
  }

  /**
   From the start, with any number of failed polls before the first that succeeds and any after it:
   once the last head is covered, the tracked channels are the chain-order replay of every block from
   the window of that first success on, if and only if what the failed polls before it applied is
   harmless for every user.
   */
  lemma RunFromFirstSuccess(service: Address, m: Channels, chain: seq<ChainEvent>, failed: seq<Rpc>, rest: seq<Rpc>)
    requires InBlockOrder(chain) && (forall rpc :: rpc in failed ==> !Covers(rpc)) && rest != [] && Covers(rest[0])
    requires HeadsRise(0, rest) && WindowsMayRegroup(service, 0, chain, rest)
    requires PollAll(service, Tracker(m, 0), chain, failed + rest).lastBlock == TopHead(0, rest)
    ensures var covered := Window(chain, service, WindowStart(0, rest[0].head.value), TopHead(0, rest));
            var applied := AppliedBy(service, chain, failed);
            PollAll(service, Tracker(m, 0), chain, failed + rest).channels == Replay(m, covered) <==>
            forall u: Address :: Harmless(Get(m, u), Keep(applied, IsUser(u)), Keep(covered, IsUser(u)))
  {
    hide PollAll, AppliedBy, Window, WindowStart, Replay, Keep, Harmless, HeadsRise, WindowsMayRegroup, TopHead;
    var applied := AppliedBy(service, chain, failed);
    PollAllJoins(service, Tracker(m, 0), chain, failed, rest);
    FailedPollsApply(service, m, chain, failed);
    RunFromStart(service, Replay(m, applied), chain, rest);
    NoSettlementApplied(service, chain, failed);
    AllHarmlessExactly(m, applied, Window(chain, service, WindowStart(0, rest[0].head.value), TopHead(0, rest)));
  }

  /** In particular, polls that fail before they have the openings are harmless. */
  lemma {:induction false} UnreachableIsHarmless(service: Address, chain: seq<ChainEvent>, failed: seq<Rpc>)
    requires forall rpc :: rpc in failed ==> rpc.head.None? || !rpc.openedOk
    ensures AppliedBy(service, chain, failed) == []
    ensures forall y, w :: Harmless(y, AppliedBy(service, chain, failed), w)
  {
    if failed != [] {
      UnreachableIsHarmless(service, chain, failed[1..]);
    }
  }
}
