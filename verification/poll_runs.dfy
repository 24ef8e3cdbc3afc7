/**
 Runs of polls. Each successful poll covers the blocks after the last one covered; a failed poll
 may have applied part of its window, and the next successful one repairs that.
 */
module PollRuns {
  import opened Wrappers
  import opened ChannelEvents
  import opened Sono

  datatype Tracker = Tracker(channels: Channels, lastBlock: nat)

  function PollOnce(service: Address, t: Tracker, chain: seq<ChainEvent>, rpc: Rpc): (r: Tracker)
  {
    var p := Poll(service, t.channels, t.lastBlock, chain, rpc);
    Tracker(p.channels, p.lastBlock)
  }

  function PollAll(service: Address, t: Tracker, chain: seq<ChainEvent>, rpcs: seq<Rpc>): (r: Tracker)
    decreases |rpcs|
  {
    if rpcs == [] then t else PollAll(service, PollOnce(service, t, chain, rpcs[0]), chain, rpcs[1..])
  }

  predicate Succeeds(rpc: Rpc)
  {
    rpc.head.Some? && rpc.openedOk && rpc.toppedUpOk && rpc.settledOk
  }

  /** The largest head any of the polls has seen. */
  function TopHead(top: nat, rpcs: seq<Rpc>): (r: nat)
    ensures r >= top
    decreases |rpcs|
  {
    if rpcs == [] then top
    else TopHead(if rpcs[0].head.Some? && rpcs[0].head.value > top then rpcs[0].head.value else top, rpcs[1..])
  }

  /** The head block never goes back from one poll to the next. */
  predicate HeadsRise(top: nat, rpcs: seq<Rpc>)
    decreases |rpcs|
  {
    rpcs == [] ||
    match rpcs[0].head
    case None => HeadsRise(top, rpcs[1..])
    case Some(h) => top <= h && HeadsRise(h, rpcs[1..])
  }

  /** In each window a successful poll covers, every user's events may be regrouped. */
  ghost predicate WindowsMayRegroup(service: Address, lastBlock: nat, chain: seq<ChainEvent>, rpcs: seq<Rpc>)
    decreases |rpcs|
  {
    rpcs == [] ||
    if Succeeds(rpcs[0]) && rpcs[0].head.value > lastBlock then
      var h := rpcs[0].head.value;
      && AllMayRegroup(Window(chain, service, WindowStart(lastBlock, h), h))
      && WindowsMayRegroup(service, h, chain, rpcs[1..])
    else WindowsMayRegroup(service, lastBlock, chain, rpcs[1..])
  }

  ghost predicate AllMayRegroup(w: seq<ChainEvent>)
  {
    forall u :: MayRegroup(Keep(w, IsUser(u)))
  }

  // ---------------------------------------------------------------------------------------------
  // Windows
  // ---------------------------------------------------------------------------------------------

  /** The windows the successful polls cover, in order. */
  function Windows(lastBlock: nat, rpcs: seq<Rpc>): (r: seq<(nat, nat)>)
    decreases |rpcs|
  {
    if rpcs == [] then []
    else if Succeeds(rpcs[0]) && rpcs[0].head.value > lastBlock then
      var h := rpcs[0].head.value;
      [(WindowStart(lastBlock, h), h)] + Windows(h, rpcs[1..])
    else Windows(lastBlock, rpcs[1..])
  }

  /** Each window starts right after the one before it and the cursor ends on the last one's end. */
  lemma {:induction false} WindowsAreContiguous(service: Address, t: Tracker, chain: seq<ChainEvent>, rpcs: seq<Rpc>)
    ensures var ws := Windows(t.lastBlock, rpcs);
            && (forall i :: 0 <= i < |ws| ==> ws[i].0 <= ws[i].1 && t.lastBlock < ws[i].1)
            && (forall i :: 0 <= i < |ws| - 1 ==> ws[i + 1].0 == ws[i].1 + 1)
            && (ws != [] ==> ws[0].0 == WindowStart(t.lastBlock, ws[0].1))
            && PollAll(service, t, chain, rpcs).lastBlock == if ws == [] then t.lastBlock else ws[|ws| - 1].1
    decreases |rpcs|
  {
    hide PollOnce, WindowStart, ApplyWindow, Window;
    if rpcs != [] {
      var t' := PollOnce(service, t, chain, rpcs[0]);
      CursorOfPoll(service, t, chain, rpcs[0]);
      WindowsAreContiguous(service, t', chain, rpcs[1..]);
      var ws, later := Windows(t.lastBlock, rpcs), Windows(t'.lastBlock, rpcs[1..]);
      if Succeeds(rpcs[0]) && rpcs[0].head.value > t.lastBlock {
        StartInside(t.lastBlock, rpcs[0].head.value);
        if later != [] {
          StartInside(rpcs[0].head.value, later[0].1);
        }
        forall i | 0 <= i < |ws| - 1
          ensures ws[i + 1].0 == ws[i].1 + 1
        {
          if i > 0 {
            assert later[i].0 == later[i - 1].1 + 1;
          }
        }
      }
    }
  }

  lemma StartInside(lastBlock: nat, head: nat)
    requires head > lastBlock
    ensures WindowStart(lastBlock, head) <= head
    ensures lastBlock > 0 ==> WindowStart(lastBlock, head) == lastBlock + 1
  {
  }

  lemma CursorOfPoll(service: Address, t: Tracker, chain: seq<ChainEvent>, rpc: Rpc)
    ensures PollOnce(service, t, chain, rpc).lastBlock ==
            if Succeeds(rpc) && rpc.head.value > t.lastBlock then rpc.head.value else t.lastBlock
  {
  }

  lemma WindowGrows(chain: seq<ChainEvent>, service: Address, from: nat, mid: nat, to: nat)
    requires InBlockOrder(chain) && from <= mid + 1 <= to + 1
    ensures Window(chain, service, from, to) == Window(chain, service, from, mid) + Window(chain, service, mid + 1, to)
  {
    WindowsJoin(chain, from, mid, to);
    KeepConcat(Keep(chain, InBlocks(from, mid)), Keep(chain, InBlocks(mid + 1, to)), IsService(service));
  }

  lemma EmptyWindow(chain: seq<ChainEvent>, service: Address, block: nat)
    ensures Window(chain, service, block + 1, block) == []
  {
    KeepNone(chain, block);
  }

  lemma {:induction false} KeepNone(chain: seq<ChainEvent>, block: nat)
    ensures Keep(chain, InBlocks(block + 1, block)) == []
  {
    if chain != [] {
      KeepNone(chain[..|chain| - 1], block);
    }
  }

  // ---------------------------------------------------------------------------------------------
  // Failed polls
  // ---------------------------------------------------------------------------------------------

  /**
   `x` is what the tracker holds of a channel and `y` what it should hold, and replaying the
   pending events `es` over either will give the same.
   */
  predicate HealedBy(x: Option<ChannelState>, y: Option<ChannelState>, es: seq<ChainEvent>)
  {
    || LastOf(es, Opened) >= 0
    || LastOf(es, Settled) >= 0
    || x == y
    || (LastOf(es, ToppedUp) >= 0 && x.Some? && y.Some? && x.value.(deposit := 0) == y.value.(deposit := 0))
  }

  lemma {:induction false} LastOfLonger(es: seq<ChainEvent>, more: seq<ChainEvent>, k: EventKind)
    requires LastOf(es, k) >= 0
    ensures LastOf(es + more, k) >= 0
  {
    if more == [] {
      assert es + more == es;
    } else {
      LastOfLonger(es, more[..|more| - 1], k);
      assert (es + more)[..|es + more| - 1] == es + more[..|more| - 1];
    }
  }

  lemma HealedByMore(x: Option<ChannelState>, y: Option<ChannelState>, es: seq<ChainEvent>, more: seq<ChainEvent>)
    requires HealedBy(x, y, es)
    ensures HealedBy(x, y, es + more)
  {
    if LastOf(es, Opened) >= 0 { LastOfLonger(es, more, Opened); }
    if LastOf(es, Settled) >= 0 { LastOfLonger(es, more, Settled); }
    if LastOf(es, ToppedUp) >= 0 { LastOfLonger(es, more, ToppedUp); }
  }

  /** A window applied in full makes up for a difference in the tracked channel exactly then. */
  lemma Heals(x: Option<ChannelState>, y: Option<ChannelState>, es: seq<ChainEvent>)
    ensures ReplayUser(x, Grouped(es)) == ReplayUser(y, Grouped(es)) <==> HealedBy(x, y, es)
  {
    GroupedResult(x, es);
    GroupedResult(y, es);
  }

  /** Applying the openings, or the openings and the top-ups, of the pending events keeps them able to heal. */
  lemma PartStaysHealable(x: Option<ChannelState>, y: Option<ChannelState>, es: seq<ChainEvent>)
    requires HealedBy(x, y, es)
    ensures var o, t := Keep(es, IsKind(Opened)), Keep(es, IsKind(ToppedUp));
            HealedBy(ReplayUser(x, o), y, es) && HealedBy(ReplayUser(ReplayUser(x, o), t), y, es)
  {
    var o, t := Keep(es, IsKind(Opened)), Keep(es, IsKind(ToppedUp));
    LastKept(es, Opened);
    LastKept(es, ToppedUp);
    KeptPass(es, IsKind(ToppedUp));
    if LastOf(es, Opened) < 0 {
      assert o == [];
      OneKindResult(x, t, ToppedUp);
    }
  }

  /** The tracker may be off for some users, but only where the pending window heals it. */
  ghost predicate Pending(m: Channels, ideal: Channels, w: seq<ChainEvent>)
  {
    forall u: Address :: HealedBy(Get(m, u), Get(ideal, u), Keep(w, IsUser(u)))
  }

  lemma PendingLonger(m: Channels, ideal: Channels, w: seq<ChainEvent>, more: seq<ChainEvent>)
    requires Pending(m, ideal, w)
    ensures Pending(m, ideal, w + more)
  {
    forall u: Address
      ensures HealedBy(Get(m, u), Get(ideal, u), Keep(w + more, IsUser(u)))
    {
      KeepConcat(w, more, IsUser(u));
      HealedByMore(Get(m, u), Get(ideal, u), Keep(w, IsUser(u)), Keep(more, IsUser(u)));
    }
  }

  lemma PendingNothing(m: Channels, ideal: Channels)
    requires Pending(m, ideal, [])
    ensures m == ideal
  {
    forall u: Address
      ensures Get(m, u) == Get(ideal, u)
    {
      assert HealedBy(Get(m, u), Get(ideal, u), Keep([], IsUser(u)));
    }
    SameEverywhere(m, ideal);
  }

  /** A poll that fails on the way leaves a tracker its own window still heals. */
  lemma FailedPollIsPending(m: Channels, ideal: Channels, w: seq<ChainEvent>, rpc: Rpc)
    requires Pending(m, ideal, w) && ApplyWindow(m, w, rpc).1.Err?
    ensures Pending(ApplyWindow(m, w, rpc).0, ideal, w)
  {
    var m' := ApplyWindow(m, w, rpc).0;
    var o, t := Keep(w, IsKind(Opened)), Keep(w, IsKind(ToppedUp));
    forall u: Address
      ensures HealedBy(Get(m', u), Get(ideal, u), Keep(w, IsUser(u)))
    {
      var mine := Keep(w, IsUser(u));
      assert HealedBy(Get(m, u), Get(ideal, u), mine);
      PartStaysHealable(Get(m, u), Get(ideal, u), mine);
      KeepCommutes(w, IsKind(Opened), IsUser(u));
      KeepCommutes(w, IsKind(ToppedUp), IsUser(u));
      ReplayIsPerUser(m, o, u);
      ReplayIsPerUser(Replay(m, o), t, u);
    }
  }

  /** A poll that succeeds leaves what it would have left had no poll failed before it. */
  lemma SuccessfulPollHeals(m: Channels, ideal: Channels, w: seq<ChainEvent>, rpc: Rpc)
    requires Pending(m, ideal, w) && ApplyWindow(m, w, rpc).1.Ok?
    ensures ApplyWindow(m, w, rpc).0 == Replay(ideal, Grouped(w))
  {
    var o, t, s := Keep(w, IsKind(Opened)), Keep(w, IsKind(ToppedUp)), Keep(w, IsKind(Settled));
    ReplayConcat(m, o + t, s);
    ReplayConcat(m, o, t);
    forall u: Address
      ensures Get(Replay(m, Grouped(w)), u) == Get(Replay(ideal, Grouped(w)), u)
    {
      ReplayIsPerUser(m, Grouped(w), u);
      ReplayIsPerUser(ideal, Grouped(w), u);
      GroupedOfUser(w, u);
      assert HealedBy(Get(m, u), Get(ideal, u), Keep(w, IsUser(u)));
      Heals(Get(m, u), Get(ideal, u), Keep(w, IsUser(u)));
    }
    SameEverywhere(Replay(m, Grouped(w)), Replay(ideal, Grouped(w)));
  }

  // ---------------------------------------------------------------------------------------------
  // Whole runs
  // ---------------------------------------------------------------------------------------------

  /** The tracker is right about all covered blocks, up to what the blocks seen since will heal. */
  ghost predicate Tracks(service: Address, t: Tracker, ideal: Channels, chain: seq<ChainEvent>, top: nat)
  {
    0 < t.lastBlock <= top && Pending(t.channels, ideal, Window(chain, service, t.lastBlock + 1, top))
  }

  lemma OnePollTracks(service: Address, t: Tracker, ideal: Channels, chain: seq<ChainEvent>, top: nat, rpc: Rpc)
    requires InBlockOrder(chain) && Tracks(service, t, ideal, chain, top)
    requires rpc.head.Some? ==> top <= rpc.head.value
    requires Succeeds(rpc) && rpc.head.value > t.lastBlock ==>
               AllMayRegroup(Window(chain, service, t.lastBlock + 1, rpc.head.value))
    ensures var t' := PollOnce(service, t, chain, rpc);
            && t.lastBlock <= t'.lastBlock
            && Tracks(service, t', Replay(ideal, Window(chain, service, t.lastBlock + 1, t'.lastBlock)), chain,
                      if rpc.head.Some? then rpc.head.value else top)
  {
    hide Pending, Window, ApplyWindow, Keep, Replay, MayRegroup;
    var t' := PollOnce(service, t, chain, rpc);
    EmptyWindow(chain, service, t.lastBlock);
    assert Replay(ideal, []) == ideal by { ReplayNothing(ideal); }
    if rpc.head.Some? {
      var h := rpc.head.value;
      var w := Window(chain, service, t.lastBlock + 1, h);
      WindowGrows(chain, service, t.lastBlock + 1, top, h);
      PendingLonger(t.channels, ideal, Window(chain, service, t.lastBlock + 1, top),
                    Window(chain, service, top + 1, h));
      if h > t.lastBlock {
        if ApplyWindow(t.channels, w, rpc).1.Ok? {
          OkMeansSucceeds(t.channels, w, rpc);
          SuccessfulPollHeals(t.channels, ideal, w, rpc);
          RegroupAll(ideal, w);
          EmptyWindow(chain, service, h);
          PendingSame(t'.channels);
        } else {
          FailedPollIsPending(t.channels, ideal, w, rpc);
        }
      }
    }
  }

  lemma ReplayNothing(m: Channels)
    ensures Replay(m, []) == m
  {
  }

  lemma OkMeansSucceeds(m: Channels, w: seq<ChainEvent>, rpc: Rpc)
    requires rpc.head.Some?
    ensures ApplyWindow(m, w, rpc).1.Ok? <==> Succeeds(rpc)
  {
  }

  lemma RegroupAll(m: Channels, w: seq<ChainEvent>)
    requires AllMayRegroup(w)
    ensures Replay(m, Grouped(w)) == Replay(m, w)
  {
    RegroupingIsSound(m, w);
  }

  lemma PendingSame(m: Channels)
    ensures Pending(m, m, [])
  {
  }

  /** The run seen as its first poll and the run after it. */
  lemma RunUnfolds(service: Address, t: Tracker, chain: seq<ChainEvent>, top: nat, rpcs: seq<Rpc>)
    requires t.lastBlock > 0 && rpcs != []
    requires HeadsRise(top, rpcs) && WindowsMayRegroup(service, t.lastBlock, chain, rpcs)
    ensures var t1 := PollOnce(service, t, chain, rpcs[0]);
            var top1 := if rpcs[0].head.Some? then rpcs[0].head.value else top;
            && top <= top1
            && PollAll(service, t, chain, rpcs) == PollAll(service, t1, chain, rpcs[1..])
            && TopHead(top, rpcs) == TopHead(top1, rpcs[1..])
            && HeadsRise(top1, rpcs[1..]) && WindowsMayRegroup(service, t1.lastBlock, chain, rpcs[1..])
            && (Succeeds(rpcs[0]) && rpcs[0].head.value > t.lastBlock ==>
                  AllMayRegroup(Window(chain, service, t.lastBlock + 1, rpcs[0].head.value)))
  {
    CursorOfPoll(service, t, chain, rpcs[0]);
    hide AllMayRegroup, Window, PollOnce;
  }

  lemma ReplayInTwo(service: Address, m: Channels, chain: seq<ChainEvent>, a: nat, b: nat, c: nat)
    requires InBlockOrder(chain) && a <= b <= c
    ensures Replay(Replay(m, Window(chain, service, a + 1, b)), Window(chain, service, b + 1, c))
            == Replay(m, Window(chain, service, a + 1, c))
  {
    WindowGrows(chain, service, a + 1, b, c);
    ReplayConcat(m, Window(chain, service, a + 1, b), Window(chain, service, b + 1, c));
  }

  lemma CursorIsPositive(service: Address, t: Tracker, ideal: Channels, chain: seq<ChainEvent>, top: nat)
    requires Tracks(service, t, ideal, chain, top)
    ensures t.lastBlock > 0
  {
  }

  lemma EmptyRun(service: Address, t: Tracker, chain: seq<ChainEvent>, top: nat)
    ensures PollAll(service, t, chain, []) == t && TopHead(top, []) == top
  {
  }

  /**
   After any run of polls, failed ones included: what is tracked is the chain-order replay of all
   blocks covered since, up to what the blocks seen but not yet covered will heal.
   */
  lemma {:induction false} RunTracks(service: Address, t: Tracker, ideal: Channels, chain: seq<ChainEvent>,
                                     top: nat, rpcs: seq<Rpc>)
    requires InBlockOrder(chain) && Tracks(service, t, ideal, chain, top)
    requires HeadsRise(top, rpcs) && WindowsMayRegroup(service, t.lastBlock, chain, rpcs)
    ensures var t' := PollAll(service, t, chain, rpcs);
            && t.lastBlock <= t'.lastBlock
            && Tracks(service, t', Replay(ideal, Window(chain, service, t.lastBlock + 1, t'.lastBlock)), chain,
                      TopHead(top, rpcs))
    decreases |rpcs|
  {
    hide *;
    CursorIsPositive(service, t, ideal, chain, top);
    if rpcs == [] {
      EmptyWindow(chain, service, t.lastBlock);
      ReplayNothing(ideal);
      EmptyRun(service, t, chain, top);
    } else {
      RunUnfolds(service, t, chain, top, rpcs);
      var t1 := PollOnce(service, t, chain, rpcs[0]);
      var top1 := if rpcs[0].head.Some? then rpcs[0].head.value else top;
      OnePollTracks(service, t, ideal, chain, top, rpcs[0]);
      var ideal1 := Replay(ideal, Window(chain, service, t.lastBlock + 1, t1.lastBlock));
      RunTracks(service, t1, ideal1, chain, top1, rpcs[1..]);
      ReplayInTwo(service, ideal, chain, t.lastBlock, t1.lastBlock, PollAll(service, t1, chain, rpcs[1..]).lastBlock);
    }
  }

  /**
   From the start: if the first poll succeeds, then after any run whose last head is covered the
   tracked channels are the chain-order replay of every block from the first window on, whatever
   failed in between.
   */
  lemma RunFromStart(service: Address, m: Channels, chain: seq<ChainEvent>, rpcs: seq<Rpc>)
    requires InBlockOrder(chain)
    requires rpcs != [] && Succeeds(rpcs[0]) && rpcs[0].head.value > 0
    requires HeadsRise(0, rpcs) && WindowsMayRegroup(service, 0, chain, rpcs)
    requires PollAll(service, Tracker(m, 0), chain, rpcs).lastBlock == TopHead(0, rpcs)
    ensures PollAll(service, Tracker(m, 0), chain, rpcs).channels
            == Replay(m, Window(chain, service, WindowStart(0, rpcs[0].head.value), TopHead(0, rpcs)))
  {
    hide Window, Replay, AllMayRegroup, ApplyWindow, Keep;
    var h := rpcs[0].head.value;
    var from := WindowStart(0, h);
    var w := Window(chain, service, from, h);
    var t1 := PollOnce(service, Tracker(m, 0), chain, rpcs[0]);
    OkMeansSucceeds(m, w, rpcs[0]);
    PendingSame(m);
    PendingLonger(m, m, [], w);
    assert [] + w == w;
    SuccessfulPollHeals(m, m, w, rpcs[0]);
    RegroupAll(m, w);
    assert t1 == Tracker(Replay(m, w), h);
    EmptyWindow(chain, service, h);
    PendingSame(t1.channels);
    RunTracks(service, t1, t1.channels, chain, h, rpcs[1..]);
    var t' := PollAll(service, t1, chain, rpcs[1..]);
    EmptyWindow(chain, service, t'.lastBlock);
    PendingNothing(t'.channels, Replay(t1.channels, Window(chain, service, h + 1, t'.lastBlock)));
    WindowGrows(chain, service, from, h, t'.lastBlock);
    ReplayConcat(m, w, Window(chain, service, h + 1, t'.lastBlock));
  }

  /** The cursor stands on the last head seen whenever the last poll succeeded. */
  lemma {:induction false} LastSuccessCoversAll(service: Address, t: Tracker, chain: seq<ChainEvent>,
                                                top: nat, rpcs: seq<Rpc>)
    requires t.lastBlock <= top && HeadsRise(top, rpcs)
    requires rpcs != [] && Succeeds(rpcs[|rpcs| - 1])
    ensures PollAll(service, t, chain, rpcs).lastBlock == TopHead(top, rpcs)
    decreases |rpcs|
  {
    hide Poll;
    var t1 := PollOnce(service, t, chain, rpcs[0]);
    CursorOfPoll(service, t, chain, rpcs[0]);
    var top1 := if rpcs[0].head.Some? then rpcs[0].head.value else top;
    if |rpcs| > 1 {
      assert rpcs[1..][|rpcs| - 2] == rpcs[|rpcs| - 1];
      LastSuccessCoversAll(service, t1, chain, top1, rpcs[1..]);
    }
  }

  // ---------------------------------------------------------------------------------------------
  // Where it does not hold
  // ---------------------------------------------------------------------------------------------

  /**
   Covering an opening sets the channel back: whatever had been charged before, the poll that
   covers it leaves nothing spent and nonce 0. In particular a poll repeated after a failure
   forgets what was charged in between.
   */
  lemma CoveringAnOpeningForgetsCharges(m: Channels, w: seq<ChainEvent>, rpc: Rpc, u: Address)
    requires ApplyWindow(m, w, rpc).1.Ok?
    requires LastOf(Keep(w, IsUser(u)), Opened) >= 0 && LastOf(Keep(w, IsUser(u)), Settled) < 0
    ensures u in ApplyWindow(m, w, rpc).0
    ensures ApplyWindow(m, w, rpc).0[u].spent == 0 && ApplyWindow(m, w, rpc).0[u].nonce == 0
  {
    var o, t, s := Keep(w, IsKind(Opened)), Keep(w, IsKind(ToppedUp)), Keep(w, IsKind(Settled));
    ReplayConcat(m, o + t, s);
    ReplayConcat(m, o, t);
    ReplayIsPerUser(m, Grouped(w), u);
    GroupedOfUser(w, u);
    GroupedResult(Get(m, u), Keep(w, IsUser(u)));
    assert Get(Replay(m, Grouped(w)), u).Some?;
  }

  const OPENED_THEN_SETTLED: seq<ChainEvent> :=
    [ChainEvent(Opened, 1, 7, 0, 5), ChainEvent(Settled, 2, 7, 0, 0)]

  lemma WindowsOfTheExample()
    ensures Window(OPENED_THEN_SETTLED, 0, 0, 2) == OPENED_THEN_SETTLED
    ensures Window(OPENED_THEN_SETTLED, 0, 3, 103) == []
    ensures Keep(OPENED_THEN_SETTLED, IsKind(Opened)) == OPENED_THEN_SETTLED[..1]
    ensures Keep(OPENED_THEN_SETTLED, IsKind(ToppedUp)) == []
  {
    var open, settle := OPENED_THEN_SETTLED[0], OPENED_THEN_SETTLED[1];
    var both := [open, settle];
    assert OPENED_THEN_SETTLED == both && both == [open] + [settle] && [open] == [] + [open];
    forall t: Test
      ensures Keep(both, t) == (if Passes(t, open) then [open] else []) + (if Passes(t, settle) then [settle] else [])
    {
      KeepSnoc([], open, t);
      KeepSnoc([open], settle, t);
    }
    assert Keep([], IsService(0)) == [];
  }

  lemma ReplaysOfTheExample()
    ensures Replay(map[], OPENED_THEN_SETTLED[..1]) == map[7 := ChannelState(7, 5, 0, 0)]
    ensures Replay(map[], OPENED_THEN_SETTLED) == map[]
  {
    assert OPENED_THEN_SETTLED[..1][..0] == [];
    assert Replay(map[], OPENED_THEN_SETTLED[..1][..0]) == map[];
  }

  /**
   A first poll that fails half-way is not always healed: the second window is counted back from
   the second head, so it can miss the settlement of a channel the first poll had opened.
   */
  lemma FailedFirstPollMayLoseEvents()
    ensures var rpcs := [Rpc(Some(2), true, true, false), Rpc(Some(103), true, true, true)];
            var t := PollAll(0, Tracker(map[], 0), OPENED_THEN_SETTLED, rpcs);
            && t.lastBlock == 103 && 7 in t.channels
            && Replay(map[], OPENED_THEN_SETTLED) == map[]
  {
    var first, second := Rpc(Some(2), true, true, false), Rpc(Some(103), true, true, true);
    WindowsOfTheExample();
    ReplaysOfTheExample();
    hide Window;
    var opened' := map[7 := ChannelState(7, 5, 0, 0)];
    ReplayNothing(opened');
    assert PollOnce(0, Tracker(map[], 0), OPENED_THEN_SETTLED, first) == Tracker(opened', 0);
    assert Keep([], IsKind(Opened)) == Keep([], IsKind(ToppedUp)) == Keep([], IsKind(Settled)) == [];
    assert PollOnce(0, Tracker(opened', 0), OPENED_THEN_SETTLED, second) == Tracker(opened', 103);
    assert [first, second][1..] == [second] && [second][1..] == [];
  }
}
