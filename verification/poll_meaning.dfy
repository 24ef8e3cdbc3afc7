/**
 What a poll and a sync come to, said of the chain's own events, their blocks, providers and users, and
 of nothing that the service is written with.
 */
module PollMeaning {
  import opened Wrappers
  import opened ChannelEvents
  import opened Sono

  // ---------------------------------------------------------------------------------------------
  // Events of no concern
  // ---------------------------------------------------------------------------------------------

  lemma KeepWithout(a: seq<ChainEvent>, e: ChainEvent, b: seq<ChainEvent>, t: Test)
    ensures Keep(a + [e] + b, t) == if Passes(t, e) then Keep(a, t) + [e] + Keep(b, t) else Keep(a + b, t)
  {
    hide Keep;
    KeepSnoc(a, e, t);
    KeepConcat(a + [e], b, t);
    KeepConcat(a, b, t);
  }

  /** The first block of a poll's range: 100 back from the head if no block was covered yet. */
  function RangeStart(lastBlock: nat, head: nat): (r: nat)
  {
    if lastBlock > 0 then lastBlock + 1 else if head < 100 then 0 else head - 100
  }

  /** Another provider's event, wherever in the chain, changes nothing that a poll does, nor does one out of range. */
  lemma OthersChangeNothing(service: Address, m: Channels, lastBlock: nat, a: seq<ChainEvent>, e: ChainEvent,
                            b: seq<ChainEvent>, rpc: Rpc)
    requires e.service != service
             || (rpc.head.Some? && !(RangeStart(lastBlock, rpc.head.value) <= e.block <= rpc.head.value))
    ensures Poll(service, m, lastBlock, a + [e] + b, rpc) == Poll(service, m, lastBlock, a + b, rpc)
  {
    hide Keep, ApplyWindow;
    if rpc.head.Some? {
      var range := InBlocks(WindowStart(lastBlock, rpc.head.value), rpc.head.value);
      KeepWithout(a, e, b, range);
      KeepWithout(Keep(a, range), e, Keep(b, range), IsService(service));
      KeepConcat(a, b, range);
    }
  }

  // ---------------------------------------------------------------------------------------------
  // The poll of one user
  // ---------------------------------------------------------------------------------------------

  /** An event of this user with this provider, of this kind and in this range. */
  datatype Sort = Sort(service: Address, user: Address, kind: EventKind, from: nat, to: nat)

  predicate IsOf(e: ChainEvent, o: Sort)
  {
    e.service == o.service && e.user == o.user && e.kind == o.kind && o.from <= e.block <= o.to
  }

  /** The position of the chain's last event of the sort; -1 stands for there being none. */
  predicate IsLast(chain: seq<ChainEvent>, o: Sort, i: int)
  {
    && -1 <= i < |chain|
    && (i >= 0 ==> IsOf(chain[i], o))
    && forall j :: i < j < |chain| ==> !IsOf(chain[j], o)
  }

  function KeptOf(chain: seq<ChainEvent>, o: Sort): (r: seq<ChainEvent>)
  {
    Keep(Keep(Keep(Keep(chain, InBlocks(o.from, o.to)), IsService(o.service)), IsKind(o.kind)), IsUser(o.user))
  }

  lemma KeptSnoc(chain: seq<ChainEvent>, e: ChainEvent, o: Sort)
    ensures KeptOf(chain + [e], o) == if IsOf(e, o) then KeptOf(chain, o) + [e] else KeptOf(chain, o)
  {
    hide Keep;
    var a := Keep(chain, InBlocks(o.from, o.to));
    var b := Keep(a, IsService(o.service));
    KeepSnoc(chain, e, InBlocks(o.from, o.to));
    KeepSnoc(a, e, IsService(o.service));
    KeepSnoc(b, e, IsKind(o.kind));
    KeepSnoc(Keep(b, IsKind(o.kind)), e, IsUser(o.user));
  }

  lemma KeptOfNothing(o: Sort)
    ensures KeptOf([], o) == []
  {
  }

  lemma {:induction false} LastIsKept(chain: seq<ChainEvent>, o: Sort, i: int)
    requires IsLast(chain, o, i)
    ensures KeptOf(chain, o) == [] <==> i == -1
    ensures i >= 0 ==> KeptOf(chain, o)[|KeptOf(chain, o)| - 1] == chain[i]
    ensures forall e :: e in KeptOf(chain, o) ==> IsOf(e, o)
  {
    hide KeptOf;
    if chain == [] {
      KeptOfNothing(o);
    } else {
      var n := |chain| - 1;
      var front, e := chain[..n], chain[n];
      assert chain == front + [e];
      KeptSnoc(front, e, o);
      var j := SomeIsLast(front, o);
      LastIsKept(front, o, j);
      if i < n {
        assert IsLast(front, o, i);
        OnlyOneIsLast(front, o, i, j);
      }
    }
  }

  lemma {:induction false} SomeIsLast(chain: seq<ChainEvent>, o: Sort) returns (i: int)
    ensures IsLast(chain, o, i)
  {
    if chain == [] {
      i := -1;
    } else {
      var n := |chain| - 1;
      if IsOf(chain[n], o) {
        i := n;
      } else {
        i := SomeIsLast(chain[..n], o);
      }
    }
  }

  lemma OnlyOneIsLast(chain: seq<ChainEvent>, o: Sort, i: int, j: int)
    requires IsLast(chain, o, i) && IsLast(chain, o, j)
    ensures i == j
  {
  }

  /**
   What a poll comes to for each user, whatever the chain: the range's last opening, if its query
   succeeds, sets deposit and zeroes spent and nonce; its last top-up, if that query succeeds too, sets the
   deposit of the channel there is; any settlement, if all queries succeed, removes it, and only then the
   cursor moves, to the head.
   */
  lemma PollResult(service: Address, m: Channels, lastBlock: nat, chain: seq<ChainEvent>, rpc: Rpc, u: Address,
                   o: int, t: int, s: int)
    requires rpc.head.Some? && rpc.head.value > lastBlock
    requires IsLast(chain, Sort(service, u, Opened, RangeStart(lastBlock, rpc.head.value), rpc.head.value), o)
    requires IsLast(chain, Sort(service, u, ToppedUp, RangeStart(lastBlock, rpc.head.value), rpc.head.value), t)
    requires IsLast(chain, Sort(service, u, Settled, RangeStart(lastBlock, rpc.head.value), rpc.head.value), s)
    ensures var p := Poll(service, m, lastBlock, chain, rpc);
            var asksTopUps := rpc.openedOk && rpc.toppedUpOk;
            var asksAll := asksTopUps && rpc.settledOk;
            var newlyOpened := rpc.openedOk && o >= 0;
            && p.lastBlock == (if asksAll then rpc.head.value else lastBlock)
            && (p.result.Ok? <==> asksAll)
            && (u in p.channels <==> (newlyOpened || u in m) && !(asksAll && s >= 0))
            && (u in p.channels ==>
                  && p.channels[u].user == (if newlyOpened then u else m[u].user)
                  && p.channels[u].deposit == (if asksTopUps && t >= 0 then chain[t].amount
                                               else if newlyOpened then chain[o].amount else m[u].deposit)
                  && p.channels[u].spent == (if newlyOpened then 0 else m[u].spent)
                  && p.channels[u].nonce == (if newlyOpened then 0 else m[u].nonce))
  {
    hide Keep, Replay, ReplayUser, Hits;
    var head, from := rpc.head.value, RangeStart(lastBlock, rpc.head.value);
    var w := Window(chain, service, from, head);
    var os, ts, ss := Keep(w, IsKind(Opened)), Keep(w, IsKind(ToppedUp)), Keep(w, IsKind(Settled));
    var m1 := Replay(m, os);
    var m2 := Replay(m1, ts);
    ReplayIsPerUser(m, os, u);
    ReplayIsPerUser(m1, ts, u);
    ReplayIsPerUser(m2, ss, u);
    KindDecides(chain, Sort(service, u, Opened, from, head), o, Get(m, u));
    KindDecides(chain, Sort(service, u, ToppedUp, from, head), t, Get(m1, u));
    KindDecides(chain, Sort(service, u, Settled, from, head), s, Get(m2, u));
  }

  /** Events of one sort: the last one decides. */
  lemma KindDecides(chain: seq<ChainEvent>, o: Sort, i: int, x: Option<ChannelState>)
    requires IsLast(chain, o, i)
    ensures ReplayUser(x, KeptOf(chain, o)) ==
            if i < 0 then x
            else match o.kind
                 case Opened => Some(ChannelState(o.user, chain[i].amount, 0, 0))
                 case ToppedUp => if x.Some? then Some(x.value.(deposit := chain[i].amount)) else None
                 case Settled => None
  {
    hide KeptOf, ReplayUser;
    LastIsKept(chain, o, i);
    OneKindResult(x, KeptOf(chain, o), o.kind);
  }

  /** Without a head, or without a new one, nothing happens. */
  lemma PollOfNothingNew(service: Address, m: Channels, lastBlock: nat, chain: seq<ChainEvent>, rpc: Rpc)
    requires rpc.head.None? || rpc.head.value <= lastBlock
    ensures Poll(service, m, lastBlock, chain, rpc) ==
            Polled(m, lastBlock, if rpc.head.None? then Err(RpcFailed) else Ok(0))
  {
  }

  /** How many events of the provider there are, of one kind and in a range. */
  function HowMany(chain: seq<ChainEvent>, service: Address, kind: EventKind, from: nat, to: nat): (r: nat)
  {
    if chain == [] then 0
    else
      (if chain[0].service == service && chain[0].kind == kind && from <= chain[0].block <= to then 1 else 0)
      + HowMany(chain[1..], service, kind, from, to)
  }

  /** How many top-ups there are of users that are tracked. */
  function HowManyHit(chain: seq<ChainEvent>, service: Address, tracked: Channels, from: nat, to: nat): (r: nat)
  {
    if chain == [] then 0
    else
      (if chain[0].service == service && chain[0].kind.ToppedUp? && from <= chain[0].block <= to
          && chain[0].user in tracked then 1 else 0)
      + HowManyHit(chain[1..], service, tracked, from, to)
  }

  lemma {:induction false} HitsConcat(m: Channels, a: seq<ChainEvent>, b: seq<ChainEvent>)
    ensures Hits(m, a + b) == Hits(m, a) + Hits(m, b)
  {
    if b == [] {
      assert a + b == a;
    } else {
      var n := |b| - 1;
      HitsConcat(m, a, b[..n]);
      HitsSnoc(m, a + b[..n], b[n]);
      assert a + b == a + b[..n] + [b[n]];
    }
  }

  function OfKind(chain: seq<ChainEvent>, service: Address, kind: EventKind, from: nat, to: nat): (r: seq<ChainEvent>)
  {
    Keep(Window(chain, service, from, to), IsKind(kind))
  }

  lemma OfKindCons(e: ChainEvent, rest: seq<ChainEvent>, service: Address, kind: EventKind, from: nat, to: nat)
    ensures OfKind([e] + rest, service, kind, from, to) ==
            (if e.service == service && e.kind == kind && from <= e.block <= to then [e] else [])
            + OfKind(rest, service, kind, from, to)
  {
    hide Keep;
    KeepConcat([e], rest, InBlocks(from, to));
    KeepConcat(Keep([e], InBlocks(from, to)), Keep(rest, InBlocks(from, to)), IsService(service));
    KeepConcat(Window([e], service, from, to), Window(rest, service, from, to), IsKind(kind));
    KeepOne(e, InBlocks(from, to));
    KeepOne(e, IsService(service));
    KeepOne(e, IsKind(kind));
    KeepOfNothing(IsService(service));
    KeepOfNothing(IsKind(kind));
  }

  lemma KeepOne(e: ChainEvent, t: Test)
    ensures Keep([e], t) == if Passes(t, e) then [e] else []
  {
    KeepOfNothing(t);
    KeepSnoc([], e, t);
    assert [] + [e] == [e];
  }

  lemma {:induction false} HowManyAreKept(chain: seq<ChainEvent>, service: Address, kind: EventKind, tracked: Channels,
                                          from: nat, to: nat)
    ensures |OfKind(chain, service, kind, from, to)| == HowMany(chain, service, kind, from, to)
    ensures Hits(tracked, OfKind(chain, service, ToppedUp, from, to)) == HowManyHit(chain, service, tracked, from, to)
  {
    hide OfKind;
    if chain == [] {
      NothingOfKind(service, kind, from, to);
      NothingOfKind(service, ToppedUp, from, to);
      HitsOfNothing(tracked);
    } else {
      var e, rest := chain[0], chain[1..];
      assert chain == [e] + rest;
      HowManyAreKept(rest, service, kind, tracked, from, to);
      OfKindCons(e, rest, service, kind, from, to);
      OfKindCons(e, rest, service, ToppedUp, from, to);
      HitsConcat(tracked, [e], OfKind(rest, service, ToppedUp, from, to));
      HitsConcat(tracked, [], OfKind(rest, service, ToppedUp, from, to));
      HitsOfNothing(tracked);
      HitsSnoc(tracked, [], e);
      assert [] + [e] == [e];
    }
  }

  lemma NothingOfKind(service: Address, kind: EventKind, from: nat, to: nat)
    ensures OfKind([], service, kind, from, to) == []
  {
  }

  /** What a full poll counts: its openings and settlements, and the top-ups of channels tracked after the openings. */
  lemma PollCounts(service: Address, m: Channels, lastBlock: nat, chain: seq<ChainEvent>, head: nat)
    requires head > lastBlock
    ensures var from := RangeStart(lastBlock, head);
            var afterOpenings := Poll(service, m, lastBlock, chain, Rpc(Some(head), true, false, false)).channels;
            Poll(service, m, lastBlock, chain, Rpc(Some(head), true, true, true)).result ==
            Ok(HowMany(chain, service, Opened, from, head) + HowManyHit(chain, service, afterOpenings, from, head)
               + HowMany(chain, service, Settled, from, head))
  {
    hide Keep, Replay, Hits;
    var from := RangeStart(lastBlock, head);
    var afterOpenings := Poll(service, m, lastBlock, chain, Rpc(Some(head), true, false, false)).channels;
    HowManyAreKept(chain, service, Opened, afterOpenings, from, head);
    HowManyAreKept(chain, service, Settled, afterOpenings, from, head);
  }

  // ---------------------------------------------------------------------------------------------
  // The sync
  // ---------------------------------------------------------------------------------------------

  /** Another provider's opening, wherever in the chain, is not one that a sync finds. */
  lemma OthersOpeningsChangeNothing(service: Address, u: Address, from: nat, to: nat, a: seq<ChainEvent>, e: ChainEvent,
                                    b: seq<ChainEvent>)
    requires e.service != service
    ensures OpenedBetween(a + [e] + b, service, u, from, to) <==> OpenedBetween(a + b, service, u, from, to)
  {
    var with, without := a + [e] + b, a + b;
    if OpenedBetween(with, service, u, from, to) {
      var i :| 0 <= i < |with| && with[i].kind.Opened? && with[i].service == service && with[i].user == u
               && from <= with[i].block <= to;
      assert i != |a|;
      assert without[if i < |a| then i else i - 1] == with[i];
    }
    if OpenedBetween(without, service, u, from, to) {
      var i :| 0 <= i < |without| && without[i].kind.Opened? && without[i].service == service && without[i].user == u
               && from <= without[i].block <= to;
      assert with[if i < |a| then i else i + 1] == without[i];
    }
  }
}
