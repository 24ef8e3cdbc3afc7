/**
 The provider's side of the payment channels: a map from user to channel that is charged, signed,
 settled, synced from the chain once, and kept up to date by polling for events.
 */
module Sono {
  import opened Wrappers
  import opened Numbers
  import opened ChannelEvents

  /** `U256` addition wraps at this bound. */
  const U256_RANGE: int := 0x1_0000000000000000_0000000000000000_0000000000000000_0000000000000000

  datatype ChannelError = NoActiveChannel | InsufficientChannelBalance

  datatype RpcError = RpcFailed

  /** What one poll's queries to the chain meet: the head block, and which of the three log queries succeed. */
  datatype Rpc = Rpc(head: Option<nat>, openedOk: bool, toppedUpOk: bool, settledOk: bool)

  /** `getChannel` on the contract. */
  datatype OnChain = OnChain(deposit: nat, spent: nat, nonce: nat)

  // ---------------------------------------------------------------------------------------------
  // Charging
  // ---------------------------------------------------------------------------------------------

  function Charged(ch: ChannelState, amount: nat): (r: Result<ChannelState, ChannelError>)
  {
    var newSpent := (ch.spent + amount) % U256_RANGE;
    if newSpent > ch.deposit then Err(InsufficientChannelBalance)
    else Ok(ch.(spent := newSpent, nonce := (ch.nonce + 1) % U64_RANGE))
  }

  /** `deposit.saturating_sub(spent)`. */
  function RemainingOf(ch: ChannelState): (r: nat)
  {
    if ch.deposit >= ch.spent then ch.deposit - ch.spent else 0
  }

  /** A charge within the remaining credit goes through and uses it up by its amount; one beyond it only by wrapping. */
  lemma ChargeUsesRemaining(ch: ChannelState, amount: nat)
    requires ch.spent <= ch.deposit < U256_RANGE && amount < U256_RANGE
    ensures amount <= RemainingOf(ch) ==>
              Charged(ch, amount).Ok?
              && Charged(ch, amount).value.spent == ch.spent + amount
              && RemainingOf(Charged(ch, amount).value) == RemainingOf(ch) - amount
    ensures amount > RemainingOf(ch) ==>
              (Charged(ch, amount).Ok? <==> U256_RANGE <= ch.spent + amount <= ch.deposit + U256_RANGE)
  {
    if ch.spent + amount < U256_RANGE {
      assert (ch.spent + amount) % U256_RANGE == ch.spent + amount;
    } else {
      assert (ch.spent + amount) % U256_RANGE == ch.spent + amount - U256_RANGE;
    }
  }

  /** A charge lets the spent amount fall exactly when its sum wraps around and then goes through. */
  lemma SpentFallsOnlyByWrapping(ch: ChannelState, amount: nat)
    requires ch.spent <= ch.deposit < U256_RANGE && amount < U256_RANGE
    ensures Charged(ch, amount).Ok? && Charged(ch, amount).value.spent < ch.spent <==>
            U256_RANGE <= ch.spent + amount <= ch.deposit + U256_RANGE
  {
    if ch.spent + amount < U256_RANGE {
      assert (ch.spent + amount) % U256_RANGE == ch.spent + amount;
    } else {
      assert (ch.spent + amount) % U256_RANGE == ch.spent + amount - U256_RANGE;
    }
  }

  // ---------------------------------------------------------------------------------------------
  // Polling
  // ---------------------------------------------------------------------------------------------

  /** The service's events in a range of blocks, in chain order. */
  function Window(chain: seq<ChainEvent>, service: Address, from: nat, to: nat): (r: seq<ChainEvent>)
  {
    Keep(Keep(chain, InBlocks(from, to)), IsService(service))
  }

  /** The first block a poll asks for: 100 blocks back the first time, the next block after that. */
  function WindowStart(lastBlock: nat, head: nat): (r: nat)
  {
    if lastBlock == 0 then (if head >= 100 then head - 100 else 0) else lastBlock + 1
  }

  /** How many of the top-ups meet a tracked channel. */
  function Hits(m: Channels, es: seq<ChainEvent>): (r: nat)
  {
    if es == [] then 0 else Hits(m, es[..|es| - 1]) + if es[|es| - 1].user in m then 1 else 0
  }

  lemma HitsOfNothing(m: Channels)
    ensures Hits(m, []) == 0
  {
  }

  lemma HitsSnoc(m: Channels, es: seq<ChainEvent>, e: ChainEvent)
    ensures Hits(m, es + [e]) == Hits(m, es) + if e.user in m then 1 else 0
  {
    assert (es + [e])[..|es|] == es;
  }

  datatype Polled = Polled(channels: Channels, lastBlock: nat, result: Result<nat, RpcError>)

  /** The three groups of a window, as far as the queries for them succeed. */
  function ApplyWindow(m: Channels, w: seq<ChainEvent>, rpc: Rpc): (r: (Channels, Result<nat, RpcError>))
  {
    var o, t, s := Keep(w, IsKind(Opened)), Keep(w, IsKind(ToppedUp)), Keep(w, IsKind(Settled));
    var m1 := Replay(m, o);
    var m2 := Replay(m1, t);
    if !rpc.openedOk then (m, Err(RpcFailed))
    else if !rpc.toppedUpOk then (m1, Err(RpcFailed))
    else if !rpc.settledOk then (m2, Err(RpcFailed))
    else (Replay(m2, s), Ok(|o| + Hits(m1, t) + |s|))
  }

  /** One poll: a failed query leaves the earlier groups applied and the cursor where it was. */
  function Poll(service: Address, m: Channels, lastBlock: nat, chain: seq<ChainEvent>, rpc: Rpc): (r: Polled)
  {
    if rpc.head.None? then Polled(m, lastBlock, Err(RpcFailed))
    else
      var head := rpc.head.value;
      if head <= lastBlock then Polled(m, lastBlock, Ok(0))
      else
        var (m', result) := ApplyWindow(m, Window(chain, service, WindowStart(lastBlock, head), head), rpc);
        Polled(m', if result.Ok? then head else lastBlock, result)
  }

  predicate HasUser(es: seq<ChainEvent>, u: Address)
  {
    exists e :: e in es && e.user == u
  }

  lemma HasUserSnoc(es: seq<ChainEvent>, e: ChainEvent)
    ensures forall u :: HasUser(es + [e], u) <==> HasUser(es, u) || u == e.user
  {
    forall u: Address
      ensures HasUser(es + [e], u) <==> HasUser(es, u) || u == e.user
    {
      assert (es + [e])[|es|] == e;
    }
  }

  /** A tracked channel stays; an untracked one comes from the contract, if it was opened and still holds a deposit. */
  function Synced(tracked: Channels, onChain: map<Address, OnChain>, openings: seq<ChainEvent>, u: Address)
    : (r: Option<ChannelState>)
  {
    if u in tracked then Some(tracked[u])
    else if u in onChain && onChain[u].deposit > 0 && HasUser(openings, u)
    then Some(ChannelState(u, onChain[u].deposit, onChain[u].spent, onChain[u].nonce))
    else None
  }

  ghost predicate IsSynced(tracked: Channels, onChain: map<Address, OnChain>, openings: seq<ChainEvent>, m: Channels)
  {
    forall u: Address :: Get(m, u) == Synced(tracked, onChain, openings, u)
  }

  /** The chain has an opening of the user's channel with this provider in the range. */
  ghost predicate OpenedBetween(chain: seq<ChainEvent>, service: Address, u: Address, from: nat, to: nat)
  {
    exists i :: 0 <= i < |chain| && chain[i].kind.Opened? && chain[i].service == service && chain[i].user == u
                && from <= chain[i].block <= to
  }

  lemma {:induction false} OpenedIsKept(chain: seq<ChainEvent>, service: Address, u: Address, from: nat, to: nat)
    ensures OpenedBetween(chain, service, u, from, to) <==>
            HasUser(Keep(Window(chain, service, from, to), IsKind(Opened)), u)
  {
    hide Keep, HasUser;
    KeepOfNothing(InBlocks(from, to));
    KeepOfNothing(IsService(service));
    KeepOfNothing(IsKind(Opened));
    if chain == [] {
      assert !HasUser([], u) by { NobodyIn(u); }
    } else {
      var n := |chain| - 1;
      var front, e := chain[..n], chain[n];
      assert chain == front + [e];
      OpenedIsKept(front, service, u, from, to);
      OpenedSnoc(front, e, service, u, from, to);
      var a := Keep(front, InBlocks(from, to));
      KeepSnoc(front, e, InBlocks(from, to));
      KeepSnoc(a, e, IsService(service));
      KeepSnoc(Keep(a, IsService(service)), e, IsKind(Opened));
      HasUserSnoc(Keep(Keep(a, IsService(service)), IsKind(Opened)), e);
    }
  }

  lemma NobodyIn(u: Address)
    ensures !HasUser([], u)
  {
  }

  lemma OpenedSnoc(chain: seq<ChainEvent>, e: ChainEvent, service: Address, u: Address, from: nat, to: nat)
    ensures OpenedBetween(chain + [e], service, u, from, to) <==>
            OpenedBetween(chain, service, u, from, to)
            || (e.kind.Opened? && e.service == service && e.user == u && from <= e.block <= to)
  {
    var longer := chain + [e];
    if OpenedBetween(chain, service, u, from, to) {
      var i :| 0 <= i < |chain| && chain[i].kind.Opened? && chain[i].service == service && chain[i].user == u
               && from <= chain[i].block <= to;
      assert longer[i] == chain[i];
    }
    assert longer[|chain|] == e;
  }

  /** What a sync leaves, said of the chain and the contract. */
  lemma SyncedMeans(tracked: Channels, onChain: map<Address, OnChain>, chain: seq<ChainEvent>, service: Address,
                    from: nat, to: nat, m: Channels, u: Address)
    requires IsSynced(tracked, onChain, Keep(Window(chain, service, from, to), IsKind(Opened)), m)
    ensures u in tracked ==> u in m && m[u] == tracked[u]
    ensures u !in tracked ==>
              (u in m <==> u in onChain && onChain[u].deposit > 0 && OpenedBetween(chain, service, u, from, to))
    ensures u !in tracked && u in m ==>
              && m[u].user == u && m[u].deposit == onChain[u].deposit
              && m[u].spent == onChain[u].spent && m[u].nonce == onChain[u].nonce
  {
    hide Keep, HasUser;
    OpenedIsKept(chain, service, u, from, to);
    assert Get(m, u) == Synced(tracked, onChain, Keep(Window(chain, service, from, to), IsKind(Opened)), u);
  }

  lemma NothingSynced(tracked: Channels, onChain: map<Address, OnChain>)
    ensures IsSynced(tracked, onChain, [], tracked)
  {
  }

  /** `or_insert_with` of the contract's state, if it still holds a deposit. */
  function SyncOne(m: Channels, onChain: map<Address, OnChain>, u: Address): (r: Channels)
  {
    if u in onChain && onChain[u].deposit > 0 && u !in m
    then m[u := ChannelState(u, onChain[u].deposit, onChain[u].spent, onChain[u].nonce)]
    else m
  }

  lemma SyncOneOpening(tracked: Channels, onChain: map<Address, OnChain>, openings: seq<ChainEvent>,
                       e: ChainEvent, m: Channels)
    requires IsSynced(tracked, onChain, openings, m)
    ensures IsSynced(tracked, onChain, openings + [e], SyncOne(m, onChain, e.user))
  {
    HasUserSnoc(openings, e);
    hide HasUser;
    forall u: Address
      ensures Get(SyncOne(m, onChain, e.user), u) == Synced(tracked, onChain, openings + [e], u)
    {
      assert Get(m, u) == Synced(tracked, onChain, openings, u);
    }
  }

  // ---------------------------------------------------------------------------------------------
  // The service as the source runs it
  // ---------------------------------------------------------------------------------------------

  class SonoService {
    const service: Address
    var channels: Channels

    constructor (service: Address)
      ensures this.service == service && channels == map[]
    {
      this.service := service;
      channels := map[];
    }

    method Remaining(user: Address) returns (r: nat)
      ensures r == if user in channels then RemainingOf(channels[user]) else 0
    {
      r := 0;
      if user in channels {
        var ch := channels[user];
        if ch.deposit > ch.spent {
          r := ch.deposit - ch.spent;
        }
      }
    }

    method Charge(user: Address, amount: nat) returns (r: Result<nat, ChannelError>)
      modifies this
      ensures user !in old(channels) ==> r == Err(NoActiveChannel) && channels == old(channels)
      ensures user in old(channels) ==>
                match Charged(old(channels)[user], amount)
                case Ok(ch) => r == Ok(ch.spent) && channels == old(channels)[user := ch]
                case Err(e) => r == Err(e) && channels == old(channels)
    {
      if user !in channels {
        return Err(NoActiveChannel);
      }
      var ch := channels[user];
      var newSpent := (ch.spent + amount) % U256_RANGE;
      if newSpent > ch.deposit {
        return Err(InsufficientChannelBalance);
      }
      channels := channels[user := ch.(spent := newSpent, nonce := (ch.nonce + 1) % U64_RANGE)];
      r := Ok(newSpent);
    }

    /** `closed` is whether the closing transaction went through. */
    method Settle(user: Address, closed: bool) returns (r: bool)
      modifies this
      ensures r == (closed && user in old(channels))
      ensures channels == if r then old(channels) - {user} else old(channels)
    {
      if user !in channels || !closed {
        return false;
      }
      channels := channels - {user};
      r := true;
    }

    /** Start-up: channels opened in the last 1000 blocks that the contract still knows, unless tracked already. */
    method SyncChannels(chain: seq<ChainEvent>, head: nat, onChain: map<Address, OnChain>) returns (synced: nat)
      modifies this
      ensures forall u :: u in old(channels) ==> u in channels && channels[u] == old(channels)[u]
      ensures forall u :: u !in old(channels) ==>
                (u in channels <==> u in onChain && onChain[u].deposit > 0 &&
                                    OpenedBetween(chain, service, u, if head >= 1000 then head - 1000 else 0, head))
      ensures forall u :: u !in old(channels) && u in channels ==>
                && channels[u].user == u && channels[u].deposit == onChain[u].deposit
                && channels[u].spent == onChain[u].spent && channels[u].nonce == onChain[u].nonce
      ensures synced == |channels| - |old(channels)|
    {
      hide Keep, IsSynced, OpenedBetween;
      var from := if head >= 1000 then head - 1000 else 0;
      var logs := Keep(Keep(chain, InBlocks(from, head)), IsKind(Opened));
      KeepCommutes(Keep(chain, InBlocks(from, head)), IsKind(Opened), IsService(service));
      synced := 0;
      NothingSynced(channels, onChain);
      assert logs[..0] == [];
      KeepOfNothing(IsService(service));
      for i := 0 to |logs|
        invariant synced == |channels| - |old(channels)|
        invariant IsSynced(old(channels), onChain, Keep(logs[..i], IsService(service)), channels)
      {
        var event := logs[i];
        assert logs[..i + 1] == logs[..i] + [event];
        KeepSnoc(logs[..i], event, IsService(service));
        SyncOneOpening(old(channels), onChain, Keep(logs[..i], IsService(service)), event, channels);
        if event.service == service && event.user in onChain && onChain[event.user].deposit > 0
           && event.user !in channels {
          var ch := onChain[event.user];
          channels := channels[event.user := ChannelState(event.user, ch.deposit, ch.spent, ch.nonce)];
          synced := synced + 1;
        }
      }
      assert logs[..|logs|] == logs;
      forall u: Address
        ensures u in old(channels) ==> u in channels && channels[u] == old(channels)[u]
        ensures u !in old(channels) ==>
                  (u in channels <==> u in onChain && onChain[u].deposit > 0 &&
                                      OpenedBetween(chain, service, u, from, head))
        ensures u !in old(channels) && u in channels ==>
                  && channels[u].user == u && channels[u].deposit == onChain[u].deposit
                  && channels[u].spent == onChain[u].spent && channels[u].nonce == onChain[u].nonce
      {
        SyncedMeans(old(channels), onChain, chain, service, from, head, channels, u);
      }
    }

    method ApplyOpened(logs: seq<ChainEvent>) returns (count: nat)
      requires forall e :: e in logs ==> e.kind.Opened?
      modifies this
      ensures channels == Replay(old(channels), Keep(logs, IsService(service)))
      ensures count == |Keep(logs, IsService(service))|
    {
      hide Keep, Replay;
      KeepOfNothing(IsService(service));
      ReplayOfNothing(channels, None);
      assert logs[..0] == [];
      count := 0;
      for i := 0 to |logs|
        invariant channels == Replay(old(channels), Keep(logs[..i], IsService(service)))
        invariant count == |Keep(logs[..i], IsService(service))|
      {
        var event := logs[i];
        ghost var kept := Keep(logs[..i], IsService(service));
        assert logs[..i + 1] == logs[..i] + [event];
        KeepSnoc(logs[..i], event, IsService(service));
        ReplaySnoc(old(channels), kept, event);
        if event.service == service {
          channels := channels[event.user := ChannelState(event.user, event.amount, 0, 0)];
          count := count + 1;
        }
      }
      assert logs[..|logs|] == logs;
    }

    method ApplyToppedUp(logs: seq<ChainEvent>) returns (count: nat)
      requires forall e :: e in logs ==> e.kind.ToppedUp?
      modifies this
      ensures channels == Replay(old(channels), Keep(logs, IsService(service)))
      ensures count == Hits(old(channels), Keep(logs, IsService(service)))
    {
      hide Keep, Replay, Hits;
      KeepOfNothing(IsService(service));
      ReplayOfNothing(channels, None);
      HitsOfNothing(channels);
      assert logs[..0] == [];
      count := 0;
      for i := 0 to |logs|
        invariant channels == Replay(old(channels), Keep(logs[..i], IsService(service)))
        invariant count == Hits(old(channels), Keep(logs[..i], IsService(service)))
        invariant channels.Keys == old(channels).Keys
      {
        var event := logs[i];
        ghost var kept := Keep(logs[..i], IsService(service));
        assert logs[..i + 1] == logs[..i] + [event];
        KeepSnoc(logs[..i], event, IsService(service));
        ReplaySnoc(old(channels), kept, event);
        HitsSnoc(old(channels), kept, event);
        if event.service == service {
          if event.user in channels {
            channels := channels[event.user := channels[event.user].(deposit := event.amount)];
            count := count + 1;
          }
        }
      }
      assert logs[..|logs|] == logs;
    }

    method ApplySettled(logs: seq<ChainEvent>) returns (count: nat)
      requires forall e :: e in logs ==> e.kind.Settled?
      modifies this
      ensures channels == Replay(old(channels), Keep(logs, IsService(service)))
      ensures count == |Keep(logs, IsService(service))|
      ensures forall u :: u in channels <==>
                u in old(channels)
                && forall k :: 0 <= k < |logs| && logs[k].service == service ==> logs[k].user != u
      ensures forall u :: u in channels ==> channels[u] == old(channels)[u]
    {
      hide Keep, Replay;
      KeepOfNothing(IsService(service));
      ReplayOfNothing(channels, None);
      assert logs[..0] == [];
      count := 0;
      for i := 0 to |logs|
        invariant channels == Replay(old(channels), Keep(logs[..i], IsService(service)))
        invariant count == |Keep(logs[..i], IsService(service))|
        invariant forall u :: u in channels <==>
                    u in old(channels) && forall k :: 0 <= k < i && logs[k].service == service ==> logs[k].user != u
        invariant forall u :: u in channels ==> channels[u] == old(channels)[u]
      {
        var event := logs[i];
        ghost var kept := Keep(logs[..i], IsService(service));
        assert logs[..i + 1] == logs[..i] + [event];
        KeepSnoc(logs[..i], event, IsService(service));
        ReplaySnoc(old(channels), kept, event);
        if event.service == service {
          channels := channels - {event.user};
          count := count + 1;
        }
      }
      assert logs[..|logs|] == logs;
    }

    /** The three queries of one poll over the events in its blocks. */
    method ApplyGroups(inRange: seq<ChainEvent>, rpc: Rpc) returns (r: Result<nat, RpcError>)
      modifies this
      ensures (channels, r) == ApplyWindow(old(channels), Keep(inRange, IsService(service)), rpc)
    {
      hide Keep, Replay, Hits;
      KindOfWindow(inRange, service, Opened);
      KindOfWindow(inRange, service, ToppedUp);
      KindOfWindow(inRange, service, Settled);
      if !rpc.openedOk {
        return Err(RpcFailed);
      }
      var newlyOpened := ApplyOpened(Keep(inRange, IsKind(Opened)));
      if !rpc.toppedUpOk {
        return Err(RpcFailed);
      }
      var toppedUp := ApplyToppedUp(Keep(inRange, IsKind(ToppedUp)));
      if !rpc.settledOk {
        return Err(RpcFailed);
      }
      var settled := ApplySettled(Keep(inRange, IsKind(Settled)));
      r := Ok(newlyOpened + toppedUp + settled);
    }

    method PollEvents(lastBlock: nat, chain: seq<ChainEvent>, rpc: Rpc)
      returns (r: Result<nat, RpcError>, newLastBlock: nat)
      modifies this
      ensures Polled(channels, newLastBlock, r) == Poll(service, old(channels), lastBlock, chain, rpc)
    {
      hide ApplyWindow;
      newLastBlock := lastBlock;
      if rpc.head.None? {
        return Err(RpcFailed), newLastBlock;
      }
      var currentBlock := rpc.head.value;
      if currentBlock <= lastBlock {
        return Ok(0), newLastBlock;
      }
      var from := if lastBlock == 0 then (if currentBlock >= 100 then currentBlock - 100 else 0) else lastBlock + 1;
      r := ApplyGroups(Keep(chain, InBlocks(from, currentBlock)), rpc);
      if r.Ok? {
        newLastBlock := currentBlock;
      }
    }
  }

  lemma KindOfWindow(es: seq<ChainEvent>, service: Address, k: EventKind)
    ensures Keep(Keep(es, IsKind(k)), IsService(service)) == Keep(Keep(es, IsService(service)), IsKind(k))
    ensures forall e :: e in Keep(es, IsKind(k)) ==> e.kind == k
  {
    KeepCommutes(es, IsKind(k), IsService(service));
    KeptPass(es, IsKind(k));
  }
}
