/**
 On-chain channel events and their replay.

 A poll asks the chain three times, once per kind of event, so it applies the window's openings
 first, then its top-ups, then its settlements. This module says when that is the same as
 replaying the window in chain order.
 */
module ChannelEvents {
  import opened Wrappers

  type Address = nat

  datatype ChannelState = ChannelState(user: Address, deposit: nat, spent: nat, nonce: nat)

  type Channels = map<Address, ChannelState>

  datatype EventKind = Opened | ToppedUp | Settled

  /** `amount` is the deposit, the new total, or the spent amount, by kind. */
  datatype ChainEvent = ChainEvent(kind: EventKind, block: nat, user: Address, service: Address, amount: nat)

  // ---------------------------------------------------------------------------------------------
  // Selecting events
  // ---------------------------------------------------------------------------------------------

  datatype Test =
    | IsKind(kind: EventKind)
    | IsUser(user: Address)
    | IsService(service: Address)
    | InBlocks(from: nat, to: nat)

  predicate Passes(t: Test, e: ChainEvent)
  {
    match t
    case IsKind(k) => e.kind == k
    case IsUser(u) => e.user == u
    case IsService(s) => e.service == s
    case InBlocks(a, b) => a <= e.block <= b
  }

  /** The events that pass the test, in their order. */
  function Keep(es: seq<ChainEvent>, t: Test): (r: seq<ChainEvent>)
  {
    if es == [] then []
    else
      var n := |es| - 1;
      Keep(es[..n], t) + if Passes(t, es[n]) then [es[n]] else []
  }

  lemma {:induction false} KeptPass(es: seq<ChainEvent>, t: Test)
    ensures forall e :: e in Keep(es, t) ==> Passes(t, e) && e in es
  {
    if es != [] {
      KeptPass(es[..|es| - 1], t);
    }
  }

  lemma KeepSnoc(es: seq<ChainEvent>, e: ChainEvent, t: Test)
    ensures Keep(es + [e], t) == if Passes(t, e) then Keep(es, t) + [e] else Keep(es, t)
  {
    assert (es + [e])[..|es|] == es;
  }

  lemma KeepOfNothing(t: Test)
    ensures Keep([], t) == []
  {
  }

  lemma {:induction false} KeepConcat(a: seq<ChainEvent>, b: seq<ChainEvent>, t: Test)
    ensures Keep(a + b, t) == Keep(a, t) + Keep(b, t)
  {
    hide Keep;
    if b == [] {
      KeepOfNothing(t);
      assert a + b == a && Keep(a, t) + [] == Keep(a, t);
    } else {
      var n := |b| - 1;
      var front, e := b[..n], b[n];
      KeepConcat(a, front, t);
      KeepSnoc(a + front, e, t);
      KeepSnoc(front, e, t);
      assert a + b == a + front + [e] && b == front + [e];
      assert Keep(a, t) + (Keep(front, t) + [e]) == Keep(a, t) + Keep(front, t) + [e];
    }
  }

  lemma {:induction false} KeepCommutes(es: seq<ChainEvent>, s: Test, t: Test)
    ensures Keep(Keep(es, s), t) == Keep(Keep(es, t), s)
  {
    hide Keep;
    if es == [] {
      KeepOfNothing(s);
      KeepOfNothing(t);
    } else {
      var n := |es| - 1;
      var front, e := es[..n], es[n];
      KeepCommutes(front, s, t);
      assert es == front + [e];
      KeepSnoc(front, e, s);
      KeepSnoc(front, e, t);
      KeepSnoc(Keep(front, s), e, t);
      KeepSnoc(Keep(front, t), e, s);
    }
  }

  /** The order one poll applies a window in. */
  function Grouped(es: seq<ChainEvent>): (r: seq<ChainEvent>)
  {
    Keep(es, IsKind(Opened)) + Keep(es, IsKind(ToppedUp)) + Keep(es, IsKind(Settled))
  }

  lemma GroupedOfUser(es: seq<ChainEvent>, u: Address)
    ensures Keep(Grouped(es), IsUser(u)) == Grouped(Keep(es, IsUser(u)))
  {
    var o, t, s := Keep(es, IsKind(Opened)), Keep(es, IsKind(ToppedUp)), Keep(es, IsKind(Settled));
    KeepConcat(o + t, s, IsUser(u));
    KeepConcat(o, t, IsUser(u));
    KeepCommutes(es, IsKind(Opened), IsUser(u));
    KeepCommutes(es, IsKind(ToppedUp), IsUser(u));
    KeepCommutes(es, IsKind(Settled), IsUser(u));
  }

  // ---------------------------------------------------------------------------------------------
  // Replay
  // ---------------------------------------------------------------------------------------------

  /** What one event does to the channel of its own user. */
  function ApplyToUser(x: Option<ChannelState>, e: ChainEvent): (r: Option<ChannelState>)
  {
    match e.kind
    case Opened => Some(ChannelState(e.user, e.amount, 0, 0))
    case ToppedUp => if x.Some? then Some(x.value.(deposit := e.amount)) else None
    case Settled => None
  }

  function Apply(m: Channels, e: ChainEvent): (r: Channels)
  {
    match e.kind
    case Opened => m[e.user := ChannelState(e.user, e.amount, 0, 0)]
    case ToppedUp => if e.user in m then m[e.user := m[e.user].(deposit := e.amount)] else m
    case Settled => m - {e.user}
  }

  function Replay(m: Channels, es: seq<ChainEvent>): (r: Channels)
  {
    if es == [] then m else Apply(Replay(m, es[..|es| - 1]), es[|es| - 1])
  }

  function ReplayUser(x: Option<ChannelState>, es: seq<ChainEvent>): (r: Option<ChannelState>)
  {
    if es == [] then x else ApplyToUser(ReplayUser(x, es[..|es| - 1]), es[|es| - 1])
  }

  function Get(m: Channels, u: Address): (r: Option<ChannelState>)
  {
    if u in m then Some(m[u]) else None
  }

  lemma {:induction false} ReplayConcat(m: Channels, a: seq<ChainEvent>, b: seq<ChainEvent>)
    ensures Replay(m, a + b) == Replay(Replay(m, a), b)
  {
    if b == [] {
      assert a + b == a;
    } else {
      ReplayConcat(m, a, b[..|b| - 1]);
      assert (a + b)[..|a + b| - 1] == a + b[..|b| - 1];
    }
  }

  lemma {:induction false} ReplayUserConcat(x: Option<ChannelState>, a: seq<ChainEvent>, b: seq<ChainEvent>)
    ensures ReplayUser(x, a + b) == ReplayUser(ReplayUser(x, a), b)
  {
    if b == [] {
      assert a + b == a;
    } else {
      ReplayUserConcat(x, a, b[..|b| - 1]);
      assert (a + b)[..|a + b| - 1] == a + b[..|b| - 1];
    }
  }

  lemma ReplayUserSnoc(x: Option<ChannelState>, es: seq<ChainEvent>, e: ChainEvent)
    ensures ReplayUser(x, es + [e]) == ApplyToUser(ReplayUser(x, es), e)
  {
    assert (es + [e])[..|es|] == es;
  }

  /** A replay leaves each user's channel where that user's events alone would. */
  lemma {:induction false} ReplayIsPerUser(m: Channels, es: seq<ChainEvent>, u: Address)
    ensures Get(Replay(m, es), u) == ReplayUser(Get(m, u), Keep(es, IsUser(u)))
  {
    hide Keep, Replay, ReplayUser, Apply, ApplyToUser;
    ReplayOfNothing(m, Get(m, u));
    KeepOfNothing(IsUser(u));
    if es != [] {
      var n := |es| - 1;
      var front, e := es[..n], es[n];
      assert es == front + [e];
      ReplayIsPerUser(m, front, u);
      KeepSnoc(front, e, IsUser(u));
      ReplaySnoc(m, front, e);
      ReplayUserSnoc(Get(m, u), Keep(front, IsUser(u)), e);
      ApplyIsPerUser(Replay(m, front), e, u);
    }
  }

  lemma ReplayOfNothing(m: Channels, x: Option<ChannelState>)
    ensures Replay(m, []) == m && ReplayUser(x, []) == x
  {
  }

  lemma ReplaySnoc(m: Channels, es: seq<ChainEvent>, e: ChainEvent)
    ensures Replay(m, es + [e]) == Apply(Replay(m, es), e)
  {
    assert (es + [e])[..|es|] == es;
  }

  lemma ApplyIsPerUser(m: Channels, e: ChainEvent, u: Address)
    ensures Get(Apply(m, e), u) == if e.user == u then ApplyToUser(Get(m, u), e) else Get(m, u)
  {
  }

  lemma SameEverywhere(m: Channels, n: Channels)
    requires forall u: Address :: Get(m, u) == Get(n, u)
    ensures m == n
  {
    forall u: Address
      ensures u in m <==> u in n
      ensures u in m ==> m[u] == n[u]
    {
      assert Get(m, u) == Get(n, u);
    }
  }

  // ---------------------------------------------------------------------------------------------
  // One user's events
  // ---------------------------------------------------------------------------------------------

  /** The position of the last event of a kind, or -1. */
  function LastOf(es: seq<ChainEvent>, k: EventKind): (r: int)
    ensures -1 <= r < |es|
    ensures r >= 0 ==> es[r].kind == k
  {
    if es == [] then -1
    else if es[|es| - 1].kind == k then |es| - 1
    else LastOf(es[..|es| - 1], k)
  }

  /** What a user's events come to in chain order. */
  lemma {:induction false} ChainOrderResult(x: Option<ChannelState>, es: seq<ChainEvent>)
    ensures var o, t, s := LastOf(es, Opened), LastOf(es, ToppedUp), LastOf(es, Settled);
            ReplayUser(x, es) ==
              if o < s then None
              else if o >= 0 then Some(ChannelState(es[o].user, if o < t then es[t].amount else es[o].amount, 0, 0))
              else if t >= 0 && x.Some? then Some(x.value.(deposit := es[t].amount))
              else x
  {
    if es != [] {
      ChainOrderResult(x, es[..|es| - 1]);
    }
  }

  lemma {:induction false} LastKept(es: seq<ChainEvent>, k: EventKind)
    ensures LastOf(es, k) >= 0 <==> Keep(es, IsKind(k)) != []
    ensures LastOf(es, k) >= 0 ==> Keep(es, IsKind(k))[|Keep(es, IsKind(k))| - 1] == es[LastOf(es, k)]
  {
    if es != [] {
      LastKept(es[..|es| - 1], k);
    }
  }

  /** Events of one kind only: the last one decides. */
  lemma {:induction false} OneKindResult(x: Option<ChannelState>, es: seq<ChainEvent>, k: EventKind)
    requires forall e :: e in es ==> e.kind == k
    ensures ReplayUser(x, es) ==
              if es == [] then x
              else match k
                   case Opened => Some(ChannelState(es[|es| - 1].user, es[|es| - 1].amount, 0, 0))
                   case ToppedUp => if x.Some? then Some(x.value.(deposit := es[|es| - 1].amount)) else None
                   case Settled => None
  {
    if es != [] {
      OneKindResult(x, es[..|es| - 1], k);
    }
  }

  /** What a user's events come to in the order of a poll. */
  lemma GroupedResult(x: Option<ChannelState>, es: seq<ChainEvent>)
    ensures var o, t, s := LastOf(es, Opened), LastOf(es, ToppedUp), LastOf(es, Settled);
            ReplayUser(x, Grouped(es)) ==
              if s >= 0 then None
              else if o >= 0 then Some(ChannelState(es[o].user, if t >= 0 then es[t].amount else es[o].amount, 0, 0))
              else if t >= 0 && x.Some? then Some(x.value.(deposit := es[t].amount))
              else x
  {
    var os, ts, ss := Keep(es, IsKind(Opened)), Keep(es, IsKind(ToppedUp)), Keep(es, IsKind(Settled));
    ReplayUserConcat(x, os + ts, ss);
    ReplayUserConcat(x, os, ts);
    KeptPass(es, IsKind(Opened));
    KeptPass(es, IsKind(ToppedUp));
    KeptPass(es, IsKind(Settled));
    var y := ReplayUser(x, os);
    var z := ReplayUser(y, ts);
    OneKindResult(x, os, Opened);
    OneKindResult(y, ts, ToppedUp);
    OneKindResult(z, ss, Settled);
    LastKept(es, Opened);
    LastKept(es, ToppedUp);
    LastKept(es, Settled);
  }

  /**
   The events of one user that a poll may regroup: if the window settles the channel, it is not
   opened again after that; otherwise no opening comes after the last top-up, unless with the very
   amount of that top-up.
   */
  predicate MayRegroup(es: seq<ChainEvent>)
  {
    var o, t, s := LastOf(es, Opened), LastOf(es, ToppedUp), LastOf(es, Settled);
    if s >= 0 then o < s
    else o < 0 || t < 0 || o < t || es[o].amount == es[t].amount
  }

  lemma RegroupingOneUser(x: Option<ChannelState>, es: seq<ChainEvent>)
    ensures ReplayUser(x, Grouped(es)) == ReplayUser(x, es) <==> MayRegroup(es)
  {
    ChainOrderResult(x, es);
    GroupedResult(x, es);
    if LastOf(es, Opened) >= 0 && LastOf(es, Settled) >= 0 {
      assert es[LastOf(es, Opened)].kind != es[LastOf(es, Settled)].kind;
    }
    if LastOf(es, Opened) >= 0 && LastOf(es, ToppedUp) >= 0 {
      assert es[LastOf(es, Opened)].kind != es[LastOf(es, ToppedUp)].kind;
    }
  }

  /** A poll's order gives the chain's result exactly when every user's events may be regrouped. */
  lemma RegroupingIsSound(m: Channels, es: seq<ChainEvent>)
    ensures Replay(m, Grouped(es)) == Replay(m, es) <==> forall u :: MayRegroup(Keep(es, IsUser(u)))
  {
    forall u: Address
      ensures Get(Replay(m, Grouped(es)), u) == Get(Replay(m, es), u) <==> MayRegroup(Keep(es, IsUser(u)))
    {
      ReplayIsPerUser(m, Grouped(es), u);
      ReplayIsPerUser(m, es, u);
      GroupedOfUser(es, u);
      RegroupingOneUser(Get(m, u), Keep(es, IsUser(u)));
    }
    if forall u :: MayRegroup(Keep(es, IsUser(u))) {
      SameEverywhere(Replay(m, Grouped(es)), Replay(m, es));
    }
  }

  /** The usual life of a channel, opened, then topped up, then settled, may be regrouped. */
  lemma KindOrderMayBeRegrouped(es: seq<ChainEvent>)
    requires forall i, j :: 0 <= i < j < |es| && es[i].kind != es[j].kind ==>
               es[i].kind.Opened? || es[j].kind.Settled?
    ensures MayRegroup(es)
  {
    var o, t, s := LastOf(es, Opened), LastOf(es, ToppedUp), LastOf(es, Settled);
    if o >= 0 && s >= 0 {
      assert es[o].kind != es[s].kind;
    }
    if o >= 0 && t >= 0 {
      assert es[o].kind != es[t].kind;
    }
  }

  // ---------------------------------------------------------------------------------------------
  // Windows of blocks
  // ---------------------------------------------------------------------------------------------

  predicate InBlockOrder(chain: seq<ChainEvent>)
  {
    forall i, j :: 0 <= i < j < |chain| ==> chain[i].block <= chain[j].block
  }

  lemma {:induction false} NothingAfter(chain: seq<ChainEvent>, from: nat, to: nat)
    requires forall e :: e in chain ==> e.block < from
    ensures Keep(chain, InBlocks(from, to)) == []
  {
    if chain != [] {
      NothingAfter(chain[..|chain| - 1], from, to);
    }
  }

  /** Two windows that meet give, back to back, what the window over both gives. */
  lemma {:induction false} WindowsJoin(chain: seq<ChainEvent>, from: nat, mid: nat, to: nat)
    requires InBlockOrder(chain) && from <= mid + 1 <= to + 1
    ensures Keep(chain, InBlocks(from, mid)) + Keep(chain, InBlocks(mid + 1, to)) == Keep(chain, InBlocks(from, to))
  {
    hide Keep;
    if chain == [] {
      KeepOfNothing(InBlocks(from, mid));
      KeepOfNothing(InBlocks(mid + 1, to));
      KeepOfNothing(InBlocks(from, to));
    } else {
      var n := |chain| - 1;
      var front, e := chain[..n], chain[n];
      WindowsJoin(front, from, mid, to);
      if e.block <= mid {
        NothingAfter(front, mid + 1, to);
      }
      assert chain == front + [e];
      JoinOneMore(front, e, from, mid, to);
    }
  }

  lemma JoinOneMore(front: seq<ChainEvent>, e: ChainEvent, from: nat, mid: nat, to: nat)
    requires from <= mid + 1 <= to + 1
    requires Keep(front, InBlocks(from, mid)) + Keep(front, InBlocks(mid + 1, to)) == Keep(front, InBlocks(from, to))
    requires e.block <= mid ==> Keep(front, InBlocks(mid + 1, to)) == []
    ensures Keep(front + [e], InBlocks(from, mid)) + Keep(front + [e], InBlocks(mid + 1, to))
            == Keep(front + [e], InBlocks(from, to))
  {
    hide Keep;
    KeepSnoc(front, e, InBlocks(from, mid));
    KeepSnoc(front, e, InBlocks(mid + 1, to));
    KeepSnoc(front, e, InBlocks(from, to));
  }
}
