/**
 The states of a channel that may be offered for signing, while one on-chain channel is open. Each
 covering of the opening, and a sync, starts the tracked channel over; the states are ordered exactly
 as far as the charges made after each start repeat each other.
 */
module SignedStates {
  import opened Wrappers
  import opened Numbers
  import opened ChannelEvents
  import opened Sono
  import opened ChannelLife

  /** From one start of the tracked channel: its nonce and spent amount then, and the charges since. */
  datatype Segment = Segment(nonce: nat, spent: nat, charges: seq<nat>)

  /** A state that may be signed. */
  datatype Offer = Offer(nonce: nat, spent: nat)

  function OfferAt(g: Segment, i: nat): (r: Offer)
    requires i <= |g.charges|
  {
    Offer(g.nonce + i, g.spent + Sum(g.charges[..i]))
  }

  /** Of two states, equal nonces mean equal amounts, and the larger nonce the amount at least as large. */
  predicate InOrder(a: Offer, b: Offer)
  {
    && (a.nonce == b.nonce ==> a.spent == b.spent)
    && (a.nonce < b.nonce ==> a.spent <= b.spent)
    && (b.nonce < a.nonce ==> b.spent <= a.spent)
  }

  ghost predicate SegmentsInOrder(x: Segment, y: Segment)
  {
    forall i: nat, j: nat :: i <= |x.charges| && j <= |y.charges| ==> InOrder(OfferAt(x, i), OfferAt(y, j))
  }

  // ---------------------------------------------------------------------------------------------
  // Two segments
  // ---------------------------------------------------------------------------------------------

  predicate OneExtendsTheOther(a: seq<nat>, b: seq<nat>)
  {
    a <= b || b <= a
  }

  /**
   `x` starts at the lower nonce. Either it ends before `y`'s start, with no more spent; or it passes
   through that very start, and from there on its charges and those of `y` are the same as far as both go.
   */
  predicate Agrees(x: Segment, y: Segment)
    requires x.nonce <= y.nonce
  {
    var d := y.nonce - x.nonce;
    if |x.charges| < d then x.spent + Sum(x.charges) <= y.spent
    else x.spent + Sum(x.charges[..d]) == y.spent && OneExtendsTheOther(x.charges[d..], y.charges)
  }

  predicate Compatible(x: Segment, y: Segment)
  {
    if x.nonce <= y.nonce then Agrees(x, y) else Agrees(y, x)
  }

  lemma {:induction false} SumRises(s: seq<nat>, i: nat, j: nat)
    requires i <= j <= |s|
    ensures Sum(s[..i]) <= Sum(s[..j])
    decreases j
  {
    if i < j {
      SumSnoc(s, j - 1);
      SumRises(s, i, j - 1);
    }
  }

  lemma {:induction false} SumSplits(s: seq<nat>, i: nat, j: nat)
    requires i <= j <= |s|
    ensures Sum(s[..j]) == Sum(s[..i]) + Sum(s[i..][..j - i])
    decreases j
  {
    if i < j {
      SumSnoc(s, j - 1);
      SumSplits(s, i, j - 1);
      SumSnoc(s[i..], j - 1 - i);
    }
  }

  /** Charges that agree give states in order. */
  lemma AgreeingIsInOrder(x: Segment, y: Segment, i: nat, j: nat)
    requires x.nonce <= y.nonce && Agrees(x, y) && i <= |x.charges| && j <= |y.charges|
    ensures InOrder(OfferAt(x, i), OfferAt(y, j))
  {
    hide Sum;
    var d := y.nonce - x.nonce;
    SumRises(y.charges, 0, j);
    SumOfNothing(y.charges);
    if i < d {
      var end := if |x.charges| < d then |x.charges| else d;
      SumRises(x.charges, i, end);
      assert x.charges[..|x.charges|] == x.charges;
    } else {
      SumSplits(x.charges, d, i);
      PrefixSums(x.charges[d..], y.charges, i - d, j);
    }
  }

  lemma SumOfNothing(s: seq<nat>)
    ensures Sum(s[..0]) == 0
  {
  }

  lemma PrefixSums(a: seq<nat>, b: seq<nat>, i: nat, j: nat)
    requires OneExtendsTheOther(a, b) && i <= |a| && j <= |b|
    ensures i == j ==> Sum(a[..i]) == Sum(b[..j])
    ensures i < j ==> Sum(a[..i]) <= Sum(b[..j])
    ensures j < i ==> Sum(b[..j]) <= Sum(a[..i])
  {
    hide Sum;
    if a <= b {
      assert a[..i] == b[..i];
      if i <= j { SumRises(b, i, j); } else { SumRises(b, j, i); }
    } else {
      assert b[..j] == a[..j];
      if i <= j { SumRises(a, i, j); } else { SumRises(a, j, i); }
    }
  }

  /** States in order come from charges that agree. */
  lemma InOrderAgrees(x: Segment, y: Segment)
    requires x.nonce <= y.nonce && SegmentsInOrder(x, y)
    ensures Agrees(x, y)
  {
    hide Sum;
    var d := y.nonce - x.nonce;
    SumOfNothing(y.charges);
    if |x.charges| < d {
      assert InOrder(OfferAt(x, |x.charges|), OfferAt(y, 0));
      assert x.charges[..|x.charges|] == x.charges;
    } else {
      assert InOrder(OfferAt(x, d), OfferAt(y, 0));
      var a, b := x.charges[d..], y.charges;
      forall k | 0 <= k < |a| && k < |b|
        ensures a[k] == b[k]
      {
        assert InOrder(OfferAt(x, d + k), OfferAt(y, k)) && InOrder(OfferAt(x, d + k + 1), OfferAt(y, k + 1));
        SumSnoc(x.charges, d + k);
        SumSnoc(b, k);
      }
      assert a <= b || b <= a;
    }
  }

  lemma CompatibleExactly(x: Segment, y: Segment)
    ensures SegmentsInOrder(x, y) <==> Compatible(x, y)
  {
    hide OfferAt, Agrees;
    if x.nonce <= y.nonce {
      if SegmentsInOrder(x, y) {
        InOrderAgrees(x, y);
      }
      if Agrees(x, y) {
        forall i: nat, j: nat | i <= |x.charges| && j <= |y.charges|
          ensures InOrder(OfferAt(x, i), OfferAt(y, j))
        {
          AgreeingIsInOrder(x, y, i, j);
        }
      }
    } else {
      if SegmentsInOrder(x, y) {
        assert SegmentsInOrder(y, x);
        InOrderAgrees(y, x);
      }
      if Agrees(y, x) {
        forall i: nat, j: nat | i <= |x.charges| && j <= |y.charges|
          ensures InOrder(OfferAt(x, i), OfferAt(y, j))
        {
          AgreeingIsInOrder(y, x, j, i);
        }
      }
    }
  }

  // ---------------------------------------------------------------------------------------------
  // Runs
  // ---------------------------------------------------------------------------------------------

  /** The state of a run and its segments so far. */
  datatype Life = Life(state: State, segments: seq<Segment>)

  /** The step covers the opening. */
  predicate CoversOpening(s: State, e: Step)
  {
    e.ApplyNext? && s.task.Applying? && s.task.todo != [] && s.task.todo[0].kind.Opened?
  }

  predicate Pays(s: State, e: Step)
  {
    e.Charge? && s.ch.Some? && Charged(s.ch.value, e.amount).Ok?
  }

  predicate Finds(s: State, e: Step)
  {
    e.Sync? && s.ch.None? && e.found.deposit > 0
  }

  function Charge1(segments: seq<Segment>, amount: nat): (r: seq<Segment>)
    requires segments != []
  {
    var last := segments[|segments| - 1];
    segments[|segments| - 1 := last.(charges := last.charges + [amount])]
  }

  function NextLife(chain: seq<ChainEvent>, l: Life, e: Step): (r: Life)
  {
    var s := l.state;
    Life(Next(chain, s, e),
         if CoversOpening(s, e) then l.segments + [Segment(0, 0, [])]
         else if Finds(s, e) then l.segments + [Segment(e.found.nonce, e.found.spent, [])]
         else if Pays(s, e) && l.segments != [] then Charge1(l.segments, e.amount)
         else l.segments)
  }

  function RunLife(chain: seq<ChainEvent>, l: Life, steps: seq<Step>): (r: Life)
    decreases |steps|
  {
    if steps == [] then l else RunLife(chain, NextLife(chain, l, steps[0]), steps[1..])
  }

  /** No charge's sum, and no nonce, leaves its width. */
  predicate NothingWraps(chain: seq<ChainEvent>, s: State, steps: seq<Step>)
    decreases |steps|
  {
    steps != [] ==>
      && (Pays(s, steps[0]) ==> s.ch.value.spent + steps[0].amount < U256_RANGE && s.ch.value.nonce + 1 < U64_RANGE)
      && NothingWraps(chain, Next(chain, s, steps[0]), steps[1..])
  }

  function LastOffer(g: Segment): (r: Offer)
  {
    OfferAt(g, |g.charges|)
  }

  /** The tracked channel stands at the end of the last segment. */
  predicate Tracked(l: Life)
  {
    l.state.ch.Some? ==>
      && l.segments != []
      && LastOffer(l.segments[|l.segments| - 1]) == Offer(l.state.ch.value.nonce, l.state.ch.value.spent)
  }

  lemma ChargeMovesOn(g: Segment, amount: nat)
    ensures LastOffer(g.(charges := g.charges + [amount])) == Offer(LastOffer(g).nonce + 1, LastOffer(g).spent + amount)
  {
    SumSnoc(g.charges + [amount], |g.charges|);
    assert (g.charges + [amount])[..|g.charges|] == g.charges[..|g.charges|];
    assert (g.charges + [amount])[..|g.charges| + 1] == g.charges + [amount];
  }

  lemma ChargedFits(ch: ChannelState, amount: nat)
    requires ch.spent + amount < U256_RANGE && ch.nonce + 1 < U64_RANGE && Charged(ch, amount).Ok?
    ensures Charged(ch, amount).value == ch.(spent := ch.spent + amount, nonce := ch.nonce + 1)
  {
  }

  lemma PaidIsTracked(chain: seq<ChainEvent>, l: Life, e: Step)
    requires Tracked(l) && Pays(l.state, e)
    requires l.state.ch.value.spent + e.amount < U256_RANGE && l.state.ch.value.nonce + 1 < U64_RANGE
    ensures Tracked(NextLife(chain, l, e))
  {
    hide Sum, OfferAt, WindowOf, Charged;
    ChargedFits(l.state.ch.value, e.amount);
    ChargeMovesOn(l.segments[|l.segments| - 1], e.amount);
  }

  lemma FirstOffer(g: Segment)
    requires g.charges == []
    ensures LastOffer(g) == Offer(g.nonce, g.spent)
  {
    SumOfNothing(g.charges);
  }

  lemma UnpaidIsTracked(chain: seq<ChainEvent>, l: Life, e: Step)
    requires Tracked(l) && !Pays(l.state, e)
    ensures Tracked(NextLife(chain, l, e))
  {
    hide LastOffer, WindowOf, Charged;
    FirstOffer(Segment(0, 0, []));
    if e.Sync? {
      FirstOffer(Segment(e.found.nonce, e.found.spent, []));
    }
  }

  lemma TrackedStep(chain: seq<ChainEvent>, l: Life, e: Step)
    requires Tracked(l) && NothingWraps(chain, l.state, [e])
    ensures Tracked(NextLife(chain, l, e))
  {
    hide Next, NextLife, Tracked;
    if Pays(l.state, e) {
      PaidIsTracked(chain, l, e);
    } else {
      UnpaidIsTracked(chain, l, e);
    }
  }

  lemma FirstFits(chain: seq<ChainEvent>, s: State, steps: seq<Step>)
    requires steps != [] && NothingWraps(chain, s, steps)
    ensures NothingWraps(chain, s, [steps[0]]) && NothingWraps(chain, Next(chain, s, steps[0]), steps[1..])
  {
    hide Next, Pays;
    assert [steps[0]][1..] == [];
  }

  /** The states that the run goes through while the channel is tracked, each of which may be signed. */
  function Offers(chain: seq<ChainEvent>, s: State, steps: seq<Step>): (r: seq<Offer>)
    decreases |steps|
  {
    (if s.ch.Some? then [Offer(s.ch.value.nonce, s.ch.value.spent)] else [])
    + if steps == [] then [] else Offers(chain, Next(chain, s, steps[0]), steps[1..])
  }

  /** Later segments have the same starts, and charges that go on from the earlier ones, all but the last ended. */
  predicate GoesOn(a: seq<Segment>, b: seq<Segment>)
  {
    && |a| <= |b|
    && (forall i :: 0 <= i < |a| ==>
          a[i].nonce == b[i].nonce && a[i].spent == b[i].spent && a[i].charges <= b[i].charges)
    && (forall i :: 0 <= i < |a| - 1 ==> a[i] == b[i])
  }

  lemma GoesOnStep(chain: seq<ChainEvent>, l: Life, e: Step)
    ensures GoesOn(l.segments, NextLife(chain, l, e).segments)
    ensures l.state.ch.None? && Tracked(l) && l.segments != [] ==>
              NextLife(chain, l, e).segments[|l.segments| - 1] == l.segments[|l.segments| - 1]
  {
    hide Next, CoversOpening, Finds;
  }

  lemma {:induction false} GoesOnRun(chain: seq<ChainEvent>, l: Life, steps: seq<Step>)
    ensures GoesOn(l.segments, RunLife(chain, l, steps).segments)
    decreases |steps|
  {
    hide NextLife;
    if steps != [] {
      GoesOnStep(chain, l, steps[0]);
      GoesOnRun(chain, NextLife(chain, l, steps[0]), steps[1..]);
    }
  }

  ghost predicate IsAt(gs: seq<Segment>, o: Offer)
  {
    exists i: nat, j: nat :: i < |gs| && j <= |gs[i].charges| && o == OfferAt(gs[i], j)
  }

  /** Every state of the run is on some segment. */
  lemma {:induction false} OffersAreOnSegments(chain: seq<ChainEvent>, l: Life, steps: seq<Step>)
    requires Tracked(l) && NothingWraps(chain, l.state, steps)
    ensures forall o :: o in Offers(chain, l.state, steps) ==> IsAt(RunLife(chain, l, steps).segments, o)
    decreases |steps|
  {
    hide Next, NextLife, Tracked, IsAt, Pays;
    var gs := RunLife(chain, l, steps).segments;
    GoesOnRun(chain, l, steps);
    if l.state.ch.Some? {
      CurrentIsAt(l, gs);
    }
    if steps != [] {
      FirstFits(chain, l.state, steps);
      TrackedStep(chain, l, steps[0]);
      NextState(chain, l, steps[0]);
      OffersAreOnSegments(chain, NextLife(chain, l, steps[0]), steps[1..]);
    }
  }

  lemma NextState(chain: seq<ChainEvent>, l: Life, e: Step)
    ensures NextLife(chain, l, e).state == Next(chain, l.state, e)
  {
  }

  lemma CurrentIsAt(l: Life, gs: seq<Segment>)
    requires Tracked(l) && l.state.ch.Some? && GoesOn(l.segments, gs)
    ensures IsAt(gs, Offer(l.state.ch.value.nonce, l.state.ch.value.spent))
  {
    var i := |l.segments| - 1;
    var j := |l.segments[i].charges|;
    assert l.segments[i].charges[..j] == gs[i].charges[..j];
    assert OfferAt(gs[i], j) == LastOffer(l.segments[i]);
  }

  /** A place on the segments that the run has left behind. */
  predicate Past(l: Life, i: nat, j: nat)
  {
    && i < |l.segments| && j <= |l.segments[i].charges|
    && (l.state.ch.None? || i < |l.segments| - 1 || j < |l.segments[i].charges|)
  }

  /** Every place on the segments that the run has not left behind is a state it goes through. */
  lemma {:induction false} SegmentsAreOffered(chain: seq<ChainEvent>, l: Life, steps: seq<Step>, i: nat, j: nat)
    requires Tracked(l) && NothingWraps(chain, l.state, steps)
    requires i < |RunLife(chain, l, steps).segments| && j <= |RunLife(chain, l, steps).segments[i].charges|
    ensures Past(l, i, j) || OfferAt(RunLife(chain, l, steps).segments[i], j) in Offers(chain, l.state, steps)
    decreases |steps|
  {
    hide Next, NextLife, Tracked, Past, Pays, OfferAt;
    if steps == [] {
      AtTheEnd(l, i, j);
    } else {
      FirstFits(chain, l.state, steps);
      TrackedStep(chain, l, steps[0]);
      NextState(chain, l, steps[0]);
      var next := NextLife(chain, l, steps[0]);
      SegmentsAreOffered(chain, next, steps[1..], i, j);
      if Past(next, i, j) && !Past(l, i, j) {
        JustLeft(chain, l, steps[0], i, j);
        GoesOnRun(chain, l, steps);
        CurrentIs(l, RunLife(chain, l, steps).segments, i, j);
      }
    }
  }

  lemma AtTheEnd(l: Life, i: nat, j: nat)
    requires Tracked(l) && i < |l.segments| && j <= |l.segments[i].charges|
    ensures Past(l, i, j) || l.state.ch.Some?
    ensures Past(l, i, j) || OfferAt(l.segments[i], j) == Offer(l.state.ch.value.nonce, l.state.ch.value.spent)
  {
  }

  /** What a step leaves behind is where the run stood. */
  lemma JustLeft(chain: seq<ChainEvent>, l: Life, e: Step, i: nat, j: nat)
    requires Tracked(l) && Past(NextLife(chain, l, e), i, j) && !Past(l, i, j)
    ensures l.state.ch.Some? && i == |l.segments| - 1 && j == |l.segments[i].charges|
  {
    hide WindowOf, Charged, Sum;
  }

  lemma CurrentIs(l: Life, gs: seq<Segment>, i: nat, j: nat)
    requires Tracked(l) && l.state.ch.Some? && GoesOn(l.segments, gs)
    requires i == |l.segments| - 1 && j == |l.segments[i].charges|
    ensures OfferAt(gs[i], j) == Offer(l.state.ch.value.nonce, l.state.ch.value.spent)
  {
    assert l.segments[i].charges[..j] == gs[i].charges[..j];
  }

  ghost predicate AllInOrder(offers: seq<Offer>)
  {
    forall a, b :: a in offers && b in offers ==> InOrder(a, b)
  }

  ghost predicate AllCompatible(gs: seq<Segment>)
  {
    forall i, j :: 0 <= i < |gs| && 0 <= j < |gs| ==> Compatible(gs[i], gs[j])
  }

  lemma NothingPast(s: State, i: nat, j: nat)
    requires s.ch.None?
    ensures Tracked(Life(s, [])) && !Past(Life(s, []), i, j)
  {
  }

  /**
   Over every run of charges, syncs, closings and polls, failed and repeated ones included: all states
   that may be signed are in order exactly if the segments are compatible, that is, if the charges made
   after each covering of the opening repeat those made before it as far as both go.
   */
  lemma SignableStatesAreOrderedExactly(chain: seq<ChainEvent>, s: State, steps: seq<Step>)
    requires s.ch.None? && NothingWraps(chain, s, steps)
    ensures AllInOrder(Offers(chain, s, steps)) <==> AllCompatible(RunLife(chain, Life(s, []), steps).segments)
  {
    hide Next, Pays, Compatible, OfferAt, InOrder;
    var l := Life(s, []);
    var offers, gs := Offers(chain, s, steps), RunLife(chain, l, steps).segments;
    NothingPast(s, 0, 0);
    OffersAreOnSegments(chain, l, steps);
    forall i: nat, j: nat | i < |gs| && j <= |gs[i].charges|
      ensures OfferAt(gs[i], j) in offers
    {
      SegmentsAreOffered(chain, l, steps, i, j);
      NothingPast(s, i, j);
    }
    if AllInOrder(offers) {
      forall i, j | 0 <= i < |gs| && 0 <= j < |gs|
        ensures Compatible(gs[i], gs[j])
      {
        CompatibleExactly(gs[i], gs[j]);
      }
    }
    if AllCompatible(gs) {
      forall a, b | a in offers && b in offers
        ensures InOrder(a, b)
      {
        assert IsAt(gs, a) && IsAt(gs, b);
        var i: nat, k: nat :| i < |gs| && k <= |gs[i].charges| && a == OfferAt(gs[i], k);
        var j: nat, m: nat :| j < |gs| && m <= |gs[j].charges| && b == OfferAt(gs[j], m);
        CompatibleExactly(gs[i], gs[j]);
      }
    }
  }

  // ---------------------------------------------------------------------------------------------
  // Counting charges
  // ---------------------------------------------------------------------------------------------

  /** The opening is covered again after a charge has gone through. */
  predicate CoveredAfterCharge(chain: seq<ChainEvent>, s: State, steps: seq<Step>, charged: nat)
    decreases |steps|
  {
    steps != [] &&
    ((CoversOpening(s, steps[0]) && charged > 0)
     || CoveredAfterCharge(chain, Next(chain, s, steps[0]), steps[1..],
                           if Pays(s, steps[0]) then charged + 1 else charged))
  }

  /** In every state the nonce is the number of charges that have gone through so far. */
  predicate NonceCounts(chain: seq<ChainEvent>, s: State, steps: seq<Step>, charged: nat)
    decreases |steps|
  {
    && (s.ch.Some? ==> s.ch.value.nonce == charged)
    && (steps != [] ==>
          NonceCounts(chain, Next(chain, s, steps[0]), steps[1..], if Pays(s, steps[0]) then charged + 1 else charged))
  }

  lemma CountStep(chain: seq<ChainEvent>, s: State, e: Step, charged: nat)
    requires (s.ch.Some? ==> s.ch.value.nonce == charged) && NothingWraps(chain, s, [e]) && !e.Sync?
    ensures var s', n := Next(chain, s, e), if Pays(s, e) then charged + 1 else charged;
            (s'.ch.Some? ==> s'.ch.value.nonce == n) <==> !(CoversOpening(s, e) && charged > 0)
  {
    hide WindowOf;
    if Pays(s, e) {
      ChargedFits(s.ch.value, e.amount);
    }
  }

  /**
   While one on-chain channel is open and nothing is synced: the nonce counts the charges that went
   through, in every state, exactly if the opening is not covered again after one of them.
   */
  lemma {:induction false} NonceCountsExactly(chain: seq<ChainEvent>, s: State, steps: seq<Step>, charged: nat)
    requires (s.ch.Some? ==> s.ch.value.nonce == charged) && NothingWraps(chain, s, steps)
    requires forall e :: e in steps ==> !e.Sync?
    ensures NonceCounts(chain, s, steps, charged) <==> !CoveredAfterCharge(chain, s, steps, charged)
    decreases |steps|
  {
    hide Next, CoversOpening, Pays;
    if steps != [] {
      FirstFits(chain, s, steps);
      CountStep(chain, s, steps[0], charged);
      var n := if Pays(s, steps[0]) then charged + 1 else charged;
      if !(CoversOpening(s, steps[0]) && charged > 0) {
        NonceCountsExactly(chain, Next(chain, s, steps[0]), steps[1..], n);
      } else {
        Miscounted(chain, Next(chain, s, steps[0]), steps[1..], n);
      }
    }
  }

  lemma Miscounted(chain: seq<ChainEvent>, s: State, steps: seq<Step>, charged: nat)
    requires s.ch.Some? && s.ch.value.nonce != charged
    ensures !NonceCounts(chain, s, steps, charged)
  {
  }

  /** Until the first charge, every segment is a start at the same state; after it, only the last one grows. */
  predicate OneGrows(gs: seq<Segment>, start: Offer)
  {
    && (forall i :: 0 <= i < |gs| ==> gs[i].nonce == start.nonce && gs[i].spent == start.spent)
    && (forall i :: 0 <= i < |gs| - 1 ==> gs[i].charges == [])
  }

  /** `charged` is positive once anything has been charged, before the start or since. */
  predicate CountedFrom(gs: seq<Segment>, start: Offer, charged: nat)
  {
    start.nonce + start.spent + (if gs == [] then 0 else |gs[|gs| - 1].charges|) <= charged
  }

  lemma OneGrowsStep(chain: seq<ChainEvent>, l: Life, e: Step, start: Offer, charged: nat)
    requires OneGrows(l.segments, start) && Tracked(l) && !e.Sync? && !(CoversOpening(l.state, e) && charged > 0)
    requires CountedFrom(l.segments, start, charged)
    ensures var l', n := NextLife(chain, l, e), if Pays(l.state, e) then charged + 1 else charged;
            OneGrows(l'.segments, start) && CountedFrom(l'.segments, start, n)
  {
    hide Next, CoversOpening, Sum, Pays;
  }

  lemma {:induction false} OneGrowsRun(chain: seq<ChainEvent>, l: Life, steps: seq<Step>, start: Offer, charged: nat)
    requires OneGrows(l.segments, start) && Tracked(l) && NothingWraps(chain, l.state, steps)
    requires forall e :: e in steps ==> !e.Sync?
    requires CountedFrom(l.segments, start, charged) && !CoveredAfterCharge(chain, l.state, steps, charged)
    ensures OneGrows(RunLife(chain, l, steps).segments, start)
    decreases |steps|
  {
    hide Next, NextLife, Tracked, OneGrows, CountedFrom, CoversOpening, Pays;
    if steps != [] {
      FirstFits(chain, l.state, steps);
      OneGrowsStep(chain, l, steps[0], start, charged);
      TrackedStep(chain, l, steps[0]);
      NextState(chain, l, steps[0]);
      OneGrowsRun(chain, NextLife(chain, l, steps[0]), steps[1..], start,
                  if Pays(l.state, steps[0]) then charged + 1 else charged);
    }
  }

  lemma OneGrowingIsCompatible(gs: seq<Segment>, start: Offer)
    requires OneGrows(gs, start)
    ensures AllCompatible(gs)
  {
    forall i, j | 0 <= i < |gs| && 0 <= j < |gs|
      ensures Compatible(gs[i], gs[j])
    {
      SumOfNothing(gs[i].charges);
      SumOfNothing(gs[j].charges);
      assert gs[i].charges[0..] == gs[i].charges && gs[j].charges[0..] == gs[j].charges;
    }
  }

  /** So then the states that may be signed are in order, too. */
  lemma OrderedWhileNonceCounts(chain: seq<ChainEvent>, s: State, steps: seq<Step>)
    requires s.ch.None? && NothingWraps(chain, s, steps) && (forall e :: e in steps ==> !e.Sync?)
    requires !CoveredAfterCharge(chain, s, steps, 0)
    ensures AllInOrder(Offers(chain, s, steps)) && NonceCounts(chain, s, steps, 0)
  {
    hide Next, AllCompatible, AllInOrder, OneGrows;
    NothingPast(s, 0, 0);
    assert OneGrows([], Offer(0, 0)) by { NoneGrows(); }
    OneGrowsRun(chain, Life(s, []), steps, Offer(0, 0), 0);
    OneGrowingIsCompatible(RunLife(chain, Life(s, []), steps).segments, Offer(0, 0));
    SignableStatesAreOrderedExactly(chain, s, steps);
    NonceCountsExactly(chain, s, steps, 0);
  }

  lemma SyncBegins(chain: seq<ChainEvent>, s: State, found: ChannelState)
    requires s.ch.None? && found.deposit > 0
    ensures var l, start := NextLife(chain, Life(s, []), Sync(found)), Offer(found.nonce, found.spent);
            && l.state == Next(chain, s, Sync(found)) && l.state.ch == Some(found) && Tracked(l)
            && OneGrows(l.segments, start) && CountedFrom(l.segments, start, found.nonce + found.spent)
  {
    hide LastOffer, WindowOf, Charged, Keep;
    var g := Segment(found.nonce, found.spent, []);
    assert NextLife(chain, Life(s, []), Sync(found)).segments == [g];
    FirstOffer(g);
  }

  lemma {:induction false} CoveredAfterFewer(chain: seq<ChainEvent>, s: State, steps: seq<Step>, more: nat, fewer: nat)
    requires fewer <= more && !CoveredAfterCharge(chain, s, steps, more)
    ensures !CoveredAfterCharge(chain, s, steps, fewer)
    decreases |steps|
  {
    hide Next, CoversOpening, Pays;
    if steps != [] {
      var n := if Pays(s, steps[0]) then 1 else 0;
      CoveredAfterFewer(chain, Next(chain, s, steps[0]), steps[1..], more + n, fewer + n);
    }
  }

  /**
   From a channel found by the start-up sync: the nonce goes on counting from the one found, and all
   states that may be signed are in order, unless a poll covers the opening after anything was charged,
   before the sync or since.
   */
  lemma OrderedFromASync(chain: seq<ChainEvent>, s: State, found: ChannelState, steps: seq<Step>)
    requires s.ch.None? && found.deposit > 0 && (forall e :: e in steps ==> !e.Sync?)
    requires NothingWraps(chain, s, [Sync(found)] + steps)
    requires !CoveredAfterCharge(chain, Next(chain, s, Sync(found)), steps, found.nonce + found.spent)
    ensures AllInOrder(Offers(chain, s, [Sync(found)] + steps))
    ensures NonceCounts(chain, Next(chain, s, Sync(found)), steps, found.nonce)
  {
    hide Next, NextLife, AllCompatible, AllInOrder, OneGrows, CountedFrom, Tracked, Pays;
    var synced, start := Next(chain, s, Sync(found)), Offer(found.nonce, found.spent);
    var l := NextLife(chain, Life(s, []), Sync(found));
    assert ([Sync(found)] + steps)[0] == Sync(found) && ([Sync(found)] + steps)[1..] == steps;
    SyncBegins(chain, s, found);
    OneGrowsRun(chain, l, steps, start, found.nonce + found.spent);
    OneGrowingIsCompatible(RunLife(chain, l, steps).segments, start);
    SignableStatesAreOrderedExactly(chain, s, [Sync(found)] + steps);
    CoveredAfterFewer(chain, synced, steps, found.nonce + found.spent, found.nonce);
    NonceCountsExactly(chain, synced, steps, found.nonce);
  }

  lemma NoneGrows()
    ensures OneGrows([], Offer(0, 0)) && CountedFrom([], Offer(0, 0), 0)
  {
  }

  /**
   Two states with the same nonce: a poll covers the opening and fails, a charge of 5 goes through, the
   repeated poll covers the opening again, and a charge of 3 goes through.
   */
  lemma RepeatedOpeningForks()
    ensures var chain := [OPENING];
            var poll := [Begin(1), ApplyNext, Query(false)];
            var steps := poll + ([Charge(5)] + (poll + [Charge(3)]));
            && Offer(1, 5) in Offers(chain, FRESH, steps) && Offer(1, 3) in Offers(chain, FRESH, steps)
            && !InOrder(Offer(1, 5), Offer(1, 3))
  {
    var chain := [OPENING];
    var poll := [Begin(1), ApplyNext, Query(false)];
    var opened5 := State(Some(ChannelState(7, 5, 0, 0)), 0, Idle);
    var charged := opened5.(ch := Some(ChannelState(7, 5, 5, 1)));
    var forked := opened5.(ch := Some(ChannelState(7, 5, 3, 1)));
    OneOpening(chain, FRESH);
    OneOpening(chain, charged);
    hide Next, Run;
    var rest := poll + [Charge(3)];
    assert Next(chain, opened5, Charge(5)) == charged && Next(chain, opened5, Charge(3)) == forked by {
      TwoCharges(chain);
    }
    OneStepRun(chain, opened5, Charge(5));
    OneStepRun(chain, opened5, Charge(3));
    OffersJoin(chain, charged, poll, [Charge(3)]);
    OffersJoin(chain, opened5, [Charge(5)], rest);
    OffersJoin(chain, FRESH, poll, [Charge(5)] + rest);
    StartIsOffered(chain, charged, rest);
    StartIsOffered(chain, forked, []);
    OffersJoin(chain, opened5, [Charge(3)], []);
    assert [Charge(3)] + [] == [Charge(3)];
  }

  lemma TwoCharges(chain: seq<ChainEvent>)
    ensures var s := State(Some(ChannelState(7, 5, 0, 0)), 0, Idle);
            && Next(chain, s, Charge(5)) == s.(ch := Some(ChannelState(7, 5, 5, 1)))
            && Next(chain, s, Charge(3)) == s.(ch := Some(ChannelState(7, 5, 3, 1)))
  {
  }

  lemma OneOpening(chain: seq<ChainEvent>, s: State)
    requires chain == [OPENING] && s.lastBlock == 0 && s.task.Idle?
    ensures Run(chain, s, [Begin(1), ApplyNext, Query(false)]) == State(Some(ChannelState(7, 5, 0, 0)), 0, Idle)
  {
    hide Keep, Run;
    KeepThree(OPENING, OPENING, OPENING, InBlocks(0, 1));
    KeepThree(OPENING, OPENING, OPENING, IsKind(Opened));
    var s1 := s.(task := Applying(1, Opened, [OPENING]));
    var s2 := State(Some(ChannelState(7, 5, 0, 0)), 0, Applying(1, Opened, []));
    OneStepRun(chain, s, Begin(1));
    assert [OPENING][1..] == [];
    assert Next(chain, s, Begin(1)) == s1 && Next(chain, s1, ApplyNext) == s2;
    OneStepRun(chain, s1, ApplyNext);
    OneStepRun(chain, s2, Query(false));
    RunJoins(chain, s1, [ApplyNext], [Query(false)]);
    RunJoins(chain, s, [Begin(1)], [ApplyNext] + [Query(false)]);
    assert [Begin(1), ApplyNext, Query(false)] == [Begin(1)] + ([ApplyNext] + [Query(false)]);
  }

  lemma {:induction false} OffersJoin(chain: seq<ChainEvent>, s: State, a: seq<Step>, b: seq<Step>)
    ensures forall o :: o in Offers(chain, Run(chain, s, a), b) ==> o in Offers(chain, s, a + b)
    decreases |a|
  {
    hide Next;
    if a == [] {
      assert a + b == b;
    } else {
      assert (a + b)[0] == a[0] && (a + b)[1..] == a[1..] + b;
      OffersJoin(chain, Next(chain, s, a[0]), a[1..], b);
    }
  }

  lemma StartIsOffered(chain: seq<ChainEvent>, s: State, steps: seq<Step>)
    requires s.ch.Some?
    ensures Offer(s.ch.value.nonce, s.ch.value.spent) in Offers(chain, s, steps)
  {
  }
}
