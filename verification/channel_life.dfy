/**
 One user's channel as the service tracks it, with everything that happens to it one lock at a time:
 charges, the start-up sync, the closing, and each single log that a poll applies. A poll may fail at
 any of its three queries, and charges come between its logs.
 */
module ChannelLife {
  import opened Wrappers
  import opened ChannelEvents
  import opened Sono

  /** A poll up to `head` that is applying its window's events of one kind; `todo` are those still to apply. */
  datatype Task = Idle | Applying(head: nat, kind: EventKind, todo: seq<ChainEvent>)

  datatype State = State(ch: Option<ChannelState>, lastBlock: nat, task: Task)

  /** `Begin` is a poll whose first query succeeds; `Query` ends one kind and asks for the next, which may fail. */
  datatype Step =
    | Charge(amount: nat)
    | Sync(found: ChannelState)
    | Close
    | Begin(head: nat)
    | ApplyNext
    | Query(ok: bool)

  function WindowOf(chain: seq<ChainEvent>, lastBlock: nat, head: nat, kind: EventKind): (r: seq<ChainEvent>)
  {
    Keep(Keep(chain, InBlocks(WindowStart(lastBlock, head), head)), IsKind(kind))
  }

  /** `chain` are the user's events for this service, in chain order. */
  function Next(chain: seq<ChainEvent>, s: State, e: Step): (r: State)
  {
    match e
    case Charge(amount) =>
      if s.ch.Some? && Charged(s.ch.value, amount).Ok? then s.(ch := Some(Charged(s.ch.value, amount).value)) else s
    case Sync(found) => if s.ch.None? && found.deposit > 0 then s.(ch := Some(found)) else s
    case Close => s.(ch := None)
    case Begin(head) =>
      if s.task.Idle? && head > s.lastBlock
      then s.(task := Applying(head, Opened, WindowOf(chain, s.lastBlock, head, Opened))) else s
    case ApplyNext =>
      if s.task.Applying? && s.task.todo != []
      then s.(ch := ApplyToUser(s.ch, s.task.todo[0]), task := s.task.(todo := s.task.todo[1..])) else s
    case Query(ok) =>
      if s.task.Idle? || s.task.todo != [] then s
      else
        match s.task.kind
        case Opened => s.(task := Queried(chain, s, ToppedUp, ok))
        case ToppedUp => s.(task := Queried(chain, s, Settled, ok))
        case Settled => State(s.ch, s.task.head, Idle)
  }

  function Queried(chain: seq<ChainEvent>, s: State, kind: EventKind, ok: bool): (r: Task)
    requires s.task.Applying?
  {
    if ok then Applying(s.task.head, kind, WindowOf(chain, s.lastBlock, s.task.head, kind)) else Idle
  }

  function Run(chain: seq<ChainEvent>, s: State, steps: seq<Step>): (r: State)
    decreases |steps|
  {
    if steps == [] then s else Run(chain, Next(chain, s, steps[0]), steps[1..])
  }

  lemma {:induction false} RunJoins(chain: seq<ChainEvent>, s: State, a: seq<Step>, b: seq<Step>)
    ensures Run(chain, s, a + b) == Run(chain, Run(chain, s, a), b)
    decreases |a|
  {
    hide Next;
    if a == [] {
      assert a + b == b;
    } else {
      assert (a + b)[0] == a[0] && (a + b)[1..] == a[1..] + b;
      RunJoins(chain, Next(chain, s, a[0]), a[1..], b);
    }
  }

  // ---------------------------------------------------------------------------------------------
  // Spent within deposit, exactly
  // ---------------------------------------------------------------------------------------------

  predicate Within(s: State)
  {
    s.ch.Some? ==> s.ch.value.spent <= s.ch.value.deposit
  }

  /** The next log to apply is a top-up whose total is below what has been spent. */
  predicate Undercuts(s: State, e: Step)
  {
    && e.ApplyNext? && s.task.Applying? && s.task.todo != [] && s.task.todo[0].kind.ToppedUp?
    && s.ch.Some? && s.task.todo[0].amount < s.ch.value.spent
  }

  /** The contract never holds a channel overspent. */
  predicate SyncsWithin(steps: seq<Step>)
  {
    forall i :: 0 <= i < |steps| && steps[i].Sync? ==> steps[i].found.spent <= steps[i].found.deposit
  }

  lemma WithinStep(chain: seq<ChainEvent>, s: State, e: Step)
    requires Within(s) && (e.Sync? ==> e.found.spent <= e.found.deposit)
    ensures Within(Next(chain, s, e)) <==> !Undercuts(s, e)
  {
  }

  predicate AlwaysWithin(chain: seq<ChainEvent>, s: State, steps: seq<Step>)
    decreases |steps|
  {
    Within(s) && (steps == [] || AlwaysWithin(chain, Next(chain, s, steps[0]), steps[1..]))
  }

  predicate SomeUndercut(chain: seq<ChainEvent>, s: State, steps: seq<Step>)
    decreases |steps|
  {
    steps != [] && (Undercuts(s, steps[0]) || SomeUndercut(chain, Next(chain, s, steps[0]), steps[1..]))
  }

  /**
   Over every run, with polls failing and repeated and charges between their logs: spent stays within
   deposit throughout exactly if no log of a top-up is applied below what has been spent.
   */
  lemma {:induction false} NeverOverspentExactly(chain: seq<ChainEvent>, s: State, steps: seq<Step>)
    requires Within(s) && SyncsWithin(steps)
    ensures AlwaysWithin(chain, s, steps) <==> !SomeUndercut(chain, s, steps)
    decreases |steps|
  {
    hide Next, Within, Undercuts;
    if steps != [] {
      WithinStep(chain, s, steps[0]);
      if !Undercuts(s, steps[0]) {
        NeverOverspentExactly(chain, Next(chain, s, steps[0]), steps[1..]);
      } else {
        NotWithin(chain, Next(chain, s, steps[0]), steps[1..]);
      }
    }
  }

  lemma NotWithin(chain: seq<ChainEvent>, s: State, steps: seq<Step>)
    requires !Within(s)
    ensures !AlwaysWithin(chain, s, steps)
  {
  }

  // ---------------------------------------------------------------------------------------------
  // Runs in which no poll fails
  // ---------------------------------------------------------------------------------------------

  /** On the chain, a top-up's total is never below the amount of the event before it, in one channel. */
  predicate TotalsRise(chain: seq<ChainEvent>)
  {
    forall i :: 0 < i < |chain| && chain[i].kind.ToppedUp? && !chain[i - 1].kind.Settled? ==>
      chain[i - 1].amount <= chain[i].amount
  }

  /** Openings, then top-ups, then settlements. */
  predicate InKindOrder(es: seq<ChainEvent>)
  {
    forall i, j :: 0 <= i < j < |es| && es[i].kind != es[j].kind ==> es[i].kind.Opened? || es[j].kind.Settled?
  }

  /** How many events come before a block. */
  function Cut(chain: seq<ChainEvent>, block: nat): (r: nat)
    ensures r <= |chain|
  {
    if chain == [] then 0
    else if chain[|chain| - 1].block < block then |chain|
    else Cut(chain[..|chain| - 1], block)
  }

  lemma {:induction false} CutsAreOrdered(chain: seq<ChainEvent>, a: nat, b: nat)
    requires InBlockOrder(chain) && a <= b
    ensures Cut(chain, a) <= Cut(chain, b)
    ensures forall i :: 0 <= i < |chain| ==> (i < Cut(chain, a) <==> chain[i].block < a)
  {
    if chain != [] {
      var n := |chain| - 1;
      CutsAreOrdered(chain[..n], a, b);
      assert forall i :: 0 <= i < n ==> chain[..n][i] == chain[i];
    }
  }

  /** The events of a range of blocks are a stretch of the chain. */
  lemma {:induction false} RangeIsStretch(chain: seq<ChainEvent>, a: nat, b: nat)
    requires InBlockOrder(chain) && a <= b
    ensures Cut(chain, a) <= Cut(chain, b + 1)
    ensures Keep(chain, InBlocks(a, b)) == chain[Cut(chain, a)..Cut(chain, b + 1)]
  {
    hide Keep, Cut;
    CutsAreOrdered(chain, a, b + 1);
    if chain == [] {
      KeepOfNothing(InBlocks(a, b));
    } else {
      var n := |chain| - 1;
      var front, e := chain[..n], chain[n];
      RangeIsStretch(front, a, b);
      assert chain == front + [e];
      KeepSnoc(front, e, InBlocks(a, b));
      CutSnoc(front, e, a);
      CutSnoc(front, e, b + 1);
      var i, j := Cut(front, a), Cut(front, b + 1);
      if e.block < a {
        CutOfEarlier(front, a);
        CutOfEarlier(front, b + 1);
      } else if e.block <= b {
        CutOfEarlier(front, b + 1);
        assert front[i..j] + [e] == chain[i..];
      } else {
        assert front[i..j] == chain[i..j];
      }
    }
  }

  lemma CutSnoc(chain: seq<ChainEvent>, e: ChainEvent, block: nat)
    ensures Cut(chain + [e], block) == if e.block < block then |chain| + 1 else Cut(chain, block)
  {
    assert (chain + [e])[..|chain|] == chain;
  }

  lemma CutOfEarlier(chain: seq<ChainEvent>, block: nat)
    requires forall i :: 0 <= i < |chain| ==> chain[i].block < block
    ensures Cut(chain, block) == |chain|
  {
  }

  lemma KeepNoneOfKind(es: seq<ChainEvent>, kind: EventKind)
    requires forall i :: 0 <= i < |es| ==> es[i].kind != kind
    ensures Keep(es, IsKind(kind)) == []
  {
    var kept := Keep(es, IsKind(kind));
    KeptPass(es, IsKind(kind));
    assert forall i :: 0 <= i < |kept| ==> kept[i] in kept && kept[i] in es;
  }

  /** Events in kind order are what a poll makes of them. */
  lemma {:induction false} KindOrderIsGrouped(es: seq<ChainEvent>)
    requires InKindOrder(es)
    ensures Grouped(es) == es
  {
    hide Keep;
    KeepOfNothing(IsKind(Opened));
    KeepOfNothing(IsKind(ToppedUp));
    KeepOfNothing(IsKind(Settled));
    if es != [] {
      var n := |es| - 1;
      var front, e := es[..n], es[n];
      KindOrderIsGrouped(front);
      assert es == front + [e];
      KeepSnoc(front, e, IsKind(Opened));
      KeepSnoc(front, e, IsKind(ToppedUp));
      KeepSnoc(front, e, IsKind(Settled));
      forall i | 0 <= i < n
        ensures e.kind.Opened? ==> front[i].kind.Opened?
        ensures e.kind.ToppedUp? ==> !front[i].kind.Settled?
      {
        assert front[i] == es[i];
      }
      if e.kind.Opened? {
        KeepNoneOfKind(front, ToppedUp);
        KeepNoneOfKind(front, Settled);
      } else if e.kind.ToppedUp? {
        KeepNoneOfKind(front, Settled);
      }
    }
  }

  /** What a poll in progress has still to apply. */
  function Remaining(chain: seq<ChainEvent>, s: State): (r: seq<ChainEvent>)
    requires s.task.Applying?
  {
    var h := s.task.head;
    s.task.todo
    + (if s.task.kind.Opened? then WindowOf(chain, s.lastBlock, h, ToppedUp) else [])
    + (if s.task.kind.Settled? then [] else WindowOf(chain, s.lastBlock, h, Settled))
  }

  /** All of the chain before `at`, from the first window on, has been applied once, in order. */
  predicate AppliedUpTo(chain: seq<ChainEvent>, s: State, at: nat)
  {
    && at <= |chain|
    && (s.ch.Some? ==>
          && at > 0 && !chain[at - 1].kind.Settled? && s.ch.value.deposit == chain[at - 1].amount
          && s.ch.value.spent <= s.ch.value.deposit)
    && match s.task
       case Idle => if s.lastBlock == 0 then s.ch.None? else at == Cut(chain, s.lastBlock + 1)
       case Applying(head, _, _) =>
         && head > s.lastBlock && at <= Cut(chain, head + 1)
         && Remaining(chain, s) == chain[at..Cut(chain, head + 1)]
  }

  /** Neither a failed query nor a sync. */
  predicate Untroubled(e: Step)
  {
    !e.Sync? && e != Query(false)
  }

  /** A poll's window is in kind order. */
  predicate InOrderAt(chain: seq<ChainEvent>, s: State, e: Step)
  {
    e.Begin? && s.task.Idle? && e.head > s.lastBlock ==>
      InKindOrder(Keep(chain, InBlocks(WindowStart(s.lastBlock, e.head), e.head)))
  }

  lemma BeginApplies(chain: seq<ChainEvent>, s: State, head: nat, at: nat) returns (at': nat)
    requires InBlockOrder(chain) && AppliedUpTo(chain, s, at) && s.task.Idle? && head > s.lastBlock
    requires InOrderAt(chain, s, Begin(head))
    ensures AppliedUpTo(chain, Next(chain, s, Begin(head)), at')
  {
    hide Keep, Cut;
    var from := WindowStart(s.lastBlock, head);
    RangeIsStretch(chain, from, head);
    KindOrderIsGrouped(Keep(chain, InBlocks(from, head)));
    at' := Cut(chain, from);
  }

  lemma ApplyApplies(chain: seq<ChainEvent>, s: State, at: nat)
    requires TotalsRise(chain) && AppliedUpTo(chain, s, at) && s.task.Applying? && s.task.todo != []
    ensures !Undercuts(s, ApplyNext) && AppliedUpTo(chain, Next(chain, s, ApplyNext), at + 1)
  {
    hide Keep, Cut, WindowOf;
    var rest := Remaining(chain, s);
    assert rest[0] == s.task.todo[0] == chain[at];
    assert Remaining(chain, Next(chain, s, ApplyNext)) == rest[1..];
  }

  lemma QueryApplies(chain: seq<ChainEvent>, s: State, at: nat)
    requires AppliedUpTo(chain, s, at) && s.task.Applying? && s.task.todo == []
    ensures AppliedUpTo(chain, Next(chain, s, Query(true)), at)
  {
    hide Keep, Cut, WindowOf;
    var rest := Remaining(chain, s);
    var s' := Next(chain, s, Query(true));
    if !s.task.kind.Settled? {
      assert Remaining(chain, s') == rest;
    }
  }

  lemma UntroubledStep(chain: seq<ChainEvent>, s: State, e: Step, at: nat) returns (at': nat)
    requires InBlockOrder(chain) && TotalsRise(chain) && AppliedUpTo(chain, s, at)
    requires Untroubled(e) && InOrderAt(chain, s, e)
    ensures !Undercuts(s, e) && AppliedUpTo(chain, Next(chain, s, e), at')
  {
    hide Keep, Cut, WindowOf, InKindOrder;
    at' := at;
    match e {
      case Begin(head) =>
        if s.task.Idle? && head > s.lastBlock {
          at' := BeginApplies(chain, s, head, at);
        }
      case ApplyNext =>
        if s.task.Applying? && s.task.todo != [] {
          ApplyApplies(chain, s, at);
          at' := at + 1;
        }
      case Query(_) =>
        if s.task.Applying? && s.task.todo == [] {
          QueryApplies(chain, s, at);
        }
      case Charge(_) =>
      case Close =>
      case Sync(_) =>
    }
  }

  predicate UntroubledRun(chain: seq<ChainEvent>, s: State, steps: seq<Step>)
    decreases |steps|
  {
    steps == [] ||
    (Untroubled(steps[0]) && InOrderAt(chain, s, steps[0])
     && UntroubledRun(chain, Next(chain, s, steps[0]), steps[1..]))
  }

  lemma {:induction false} UntroubledNeverUndercuts(chain: seq<ChainEvent>, s: State, steps: seq<Step>, at: nat)
    requires InBlockOrder(chain) && TotalsRise(chain) && AppliedUpTo(chain, s, at) && UntroubledRun(chain, s, steps)
    ensures !SomeUndercut(chain, s, steps)
    decreases |steps|
  {
    hide Next, AppliedUpTo, Undercuts, InOrderAt;
    if steps != [] {
      var at' := UntroubledStep(chain, s, steps[0], at);
      UntroubledNeverUndercuts(chain, Next(chain, s, steps[0]), steps[1..], at');
    }
  }

  const FRESH := State(None, 0, Idle)

  /**
   From the start, over a chain whose totals rise and windows in kind order: as long as no query fails
   and nothing is synced, each event is applied once and in order, so nothing is ever overspent.
   */
  lemma NeverOverspentUntroubled(chain: seq<ChainEvent>, steps: seq<Step>)
    requires InBlockOrder(chain) && TotalsRise(chain) && UntroubledRun(chain, FRESH, steps)
    ensures AlwaysWithin(chain, FRESH, steps)
  {
    hide Next, Undercuts, InOrderAt;
    UntroubledNeverUndercuts(chain, FRESH, steps, 0);
    NoSyncs(chain, FRESH, steps);
    NeverOverspentExactly(chain, FRESH, steps);
  }

  lemma {:induction false} NoSyncs(chain: seq<ChainEvent>, s: State, steps: seq<Step>)
    requires UntroubledRun(chain, s, steps)
    ensures SyncsWithin(steps)
    decreases |steps|
  {
    hide Next, InOrderAt;
    if steps != [] {
      NoSyncs(chain, Next(chain, s, steps[0]), steps[1..]);
      assert forall i :: 0 < i < |steps| ==> steps[i] == steps[1..][i - 1];
    }
  }

  // ---------------------------------------------------------------------------------------------
  // From a sync
  // ---------------------------------------------------------------------------------------------

  /** A poll has still to apply the chain from `at` on; the first one looks back from its own head. */
  predicate StandsAt(chain: seq<ChainEvent>, s: State, at: nat)
  {
    && at <= |chain|
    && match s.task
       case Idle => s.lastBlock == 0 || at == Cut(chain, s.lastBlock + 1)
       case Applying(head, _, _) =>
         && head > s.lastBlock && at <= Cut(chain, head + 1)
         && Remaining(chain, s) == chain[at..Cut(chain, head + 1)]
  }

  predicate AppliesOne(s: State, e: Step)
  {
    e.ApplyNext? && s.task.Applying? && s.task.todo != []
  }

  /** The first log that any poll of the run applies undercuts the channel. */
  predicate FirstLogUndercuts(chain: seq<ChainEvent>, s: State, steps: seq<Step>)
    decreases |steps|
  {
    && steps != []
    && if AppliesOne(s, steps[0]) then Undercuts(s, steps[0])
       else FirstLogUndercuts(chain, Next(chain, s, steps[0]), steps[1..])
  }

  lemma BeforeFirstLog(chain: seq<ChainEvent>, s: State, e: Step, at: nat) returns (at': nat)
    requires InBlockOrder(chain) && StandsAt(chain, s, at)
    requires Untroubled(e) && InOrderAt(chain, s, e) && !AppliesOne(s, e)
    ensures StandsAt(chain, Next(chain, s, e), at')
  {
    hide Keep, Cut, WindowOf, InKindOrder, Charged;
    at' := at;
    match e {
      case Begin(head) =>
        if s.task.Idle? && head > s.lastBlock {
          at' := BeginStandsAt(chain, s, head, at);
        }
      case Query(_) =>
        if s.task.Applying? && s.task.todo == [] {
          QueryStandsAt(chain, s, at);
        }
      case Charge(_) | Close | ApplyNext =>
      case Sync(_) =>
    }
  }

  lemma BeginStandsAt(chain: seq<ChainEvent>, s: State, head: nat, at: nat) returns (at': nat)
    requires InBlockOrder(chain) && StandsAt(chain, s, at) && s.task.Idle? && head > s.lastBlock
    requires InOrderAt(chain, s, Begin(head))
    ensures StandsAt(chain, Next(chain, s, Begin(head)), at')
  {
    hide Keep, Cut;
    var from := WindowStart(s.lastBlock, head);
    RangeIsStretch(chain, from, head);
    KindOrderIsGrouped(Keep(chain, InBlocks(from, head)));
    at' := Cut(chain, from);
  }

  lemma QueryStandsAt(chain: seq<ChainEvent>, s: State, at: nat)
    requires StandsAt(chain, s, at) && s.task.Applying? && s.task.todo == []
    ensures StandsAt(chain, Next(chain, s, Query(true)), at)
  {
    hide Keep, Cut, WindowOf;
    if !s.task.kind.Settled? {
      assert Remaining(chain, Next(chain, s, Query(true))) == Remaining(chain, s);
    }
  }

  /** Whatever was tracked before, once a log has been applied that does not undercut it, the channel is the chain's. */
  lemma FirstLogCatchesUp(chain: seq<ChainEvent>, s: State, at: nat)
    requires StandsAt(chain, s, at) && AppliesOne(s, ApplyNext) && !Undercuts(s, ApplyNext)
    ensures AppliedUpTo(chain, Next(chain, s, ApplyNext), at + 1)
  {
    hide Keep, Cut, WindowOf;
    var rest := Remaining(chain, s);
    assert rest[0] == s.task.todo[0] == chain[at];
    assert Remaining(chain, Next(chain, s, ApplyNext)) == rest[1..];
  }

  lemma {:induction false} OnlyTheFirstLog(chain: seq<ChainEvent>, s: State, steps: seq<Step>, at: nat)
    requires InBlockOrder(chain) && TotalsRise(chain) && StandsAt(chain, s, at) && UntroubledRun(chain, s, steps)
    ensures SomeUndercut(chain, s, steps) <==> FirstLogUndercuts(chain, s, steps)
    decreases |steps|
  {
    hide Next, StandsAt, AppliedUpTo, Undercuts, InOrderAt, AppliesOne;
    if steps != [] {
      if AppliesOne(s, steps[0]) {
        if !Undercuts(s, steps[0]) {
          OnlyApplyNext(s, steps[0]);
          FirstLogCatchesUp(chain, s, at);
          UntroubledNeverUndercuts(chain, Next(chain, s, steps[0]), steps[1..], at + 1);
        }
      } else {
        var at' := BeforeFirstLog(chain, s, steps[0], at);
        OnlyLogsUndercut(s, steps[0]);
        OnlyTheFirstLog(chain, Next(chain, s, steps[0]), steps[1..], at');
      }
    }
  }

  lemma OnlyApplyNext(s: State, e: Step)
    requires AppliesOne(s, e)
    ensures e == ApplyNext
  {
  }

  lemma OnlyLogsUndercut(s: State, e: Step)
    requires !AppliesOne(s, e)
    ensures !Undercuts(s, e)
  {
  }

  /**
   From a channel found by the start-up sync, in whatever state, and before any poll: over a chain whose
   totals rise and windows in kind order, as long as no query fails, spent stays within deposit
   throughout exactly if the very first log that a poll applies is not a top-up below what has been spent.
   */
  lemma NeverOverspentFromASync(chain: seq<ChainEvent>, found: ChannelState, steps: seq<Step>)
    requires InBlockOrder(chain) && TotalsRise(chain) && 0 < found.deposit && found.spent <= found.deposit
    requires UntroubledRun(chain, Next(chain, FRESH, Sync(found)), steps)
    ensures AlwaysWithin(chain, FRESH, [Sync(found)] + steps) <==>
            !FirstLogUndercuts(chain, Next(chain, FRESH, Sync(found)), steps)
  {
    hide Undercuts, InOrderAt, AppliesOne;
    var synced := Next(chain, FRESH, Sync(found));
    assert synced == State(Some(found), 0, Idle);
    OnlyTheFirstLog(chain, synced, steps, 0);
    NoSyncs(chain, synced, steps);
    NeverOverspentExactly(chain, synced, steps);
    assert ([Sync(found)] + steps)[1..] == steps;
  }

  // ---------------------------------------------------------------------------------------------
  // A poll left alone
  // ---------------------------------------------------------------------------------------------

  function Applies(n: nat): (r: seq<Step>)
  {
    if n == 0 then [] else [ApplyNext] + Applies(n - 1)
  }

  lemma {:induction false} ApplyAll(chain: seq<ChainEvent>, s: State)
    requires s.task.Applying?
    ensures Run(chain, s, Applies(|s.task.todo|)) ==
            s.(ch := ReplayUser(s.ch, s.task.todo), task := s.task.(todo := []))
    decreases |s.task.todo|
  {
    hide Keep, Cut, ApplyToUser;
    var todo := s.task.todo;
    if todo == [] {
      assert s == s.(task := s.task.(todo := []));
    } else {
      ReplayUserConcat(s.ch, [todo[0]], todo[1..]);
      assert [todo[0]] + todo[1..] == todo;
      ReplayUserSnoc(s.ch, [], todo[0]);
      assert [] + [todo[0]] == [todo[0]] && ReplayUser(s.ch, []) == s.ch;
      assert Applies(|todo|)[0] == ApplyNext && Applies(|todo|)[1..] == Applies(|todo| - 1);
      ApplyAll(chain, Next(chain, s, ApplyNext));
    }
  }

  lemma {:induction false} OnlyApplies(n: nat)
    ensures forall e :: e in Applies(n) ==> e == ApplyNext
  {
    if n > 0 {
      OnlyApplies(n - 1);
    }
  }

  /** One kind's logs, and then the query for the next kind. */
  lemma ApplyKind(chain: seq<ChainEvent>, s: State, ok: bool)
    requires s.task.Applying?
    ensures var done := s.(ch := ReplayUser(s.ch, s.task.todo), task := s.task.(todo := []));
            Run(chain, s, Applies(|s.task.todo|) + [Query(ok)]) == Next(chain, done, Query(ok))
  {
    hide Next;
    ApplyAll(chain, s);
    RunJoins(chain, s, Applies(|s.task.todo|), [Query(ok)]);
    OneStepRun(chain, Run(chain, s, Applies(|s.task.todo|)), Query(ok));
  }

  lemma OneStepRun(chain: seq<ChainEvent>, s: State, e: Step)
    ensures Run(chain, s, [e]) == Next(chain, s, e)
  {
    hide Next;
    assert [e][1..] == [];
    assert Run(chain, Next(chain, s, e), []) == Next(chain, s, e);
  }

  /** What `Poll` makes of one user's channel. */
  function PolledUser(chain: seq<ChainEvent>, s: State, rpc: Rpc): (r: State)
  {
    if rpc.head.None? || rpc.head.value <= s.lastBlock || !rpc.openedOk then s
    else
      var h := rpc.head.value;
      var x := ReplayUser(s.ch, WindowOf(chain, s.lastBlock, h, Opened));
      var y := ReplayUser(x, WindowOf(chain, s.lastBlock, h, ToppedUp));
      if !rpc.toppedUpOk then s.(ch := x)
      else if !rpc.settledOk then s.(ch := y)
      else State(ReplayUser(y, WindowOf(chain, s.lastBlock, h, Settled)), h, s.task)
  }

  lemma PollAlone(chain: seq<ChainEvent>, s: State, rpc: Rpc) returns (steps: seq<Step>)
    requires s.task.Idle?
    ensures Run(chain, s, steps) == PolledUser(chain, s, rpc)
    ensures forall e :: e in steps ==> !e.Sync?
  {
    hide WindowOf, ReplayUser, Run;
    if rpc.head.None? || rpc.head.value <= s.lastBlock || !rpc.openedOk {
      steps := [];
      NoSteps(chain, s);
    } else {
      var h := rpc.head.value;
      var begun := Next(chain, s, Begin(h));
      OneStepRun(chain, s, Begin(h));
      var opening := Applies(|begun.task.todo|) + [Query(rpc.toppedUpOk)];
      OnlyApplies(|begun.task.todo|);
      ApplyKind(chain, begun, rpc.toppedUpOk);
      RunJoins(chain, s, [Begin(h)], opening);
      steps := [Begin(h)] + opening;
      if rpc.toppedUpOk {
        var next := Run(chain, s, steps);
        var topping := Applies(|next.task.todo|) + [Query(rpc.settledOk)];
        OnlyApplies(|next.task.todo|);
        ApplyKind(chain, next, rpc.settledOk);
        RunJoins(chain, s, steps, topping);
        steps := steps + topping;
        if rpc.settledOk {
          var topped := Run(chain, s, steps);
          var settling := Applies(|topped.task.todo|) + [Query(true)];
          OnlyApplies(|topped.task.todo|);
          ApplyKind(chain, topped, true);
          RunJoins(chain, s, steps, settling);
          steps := steps + settling;
        }
      }
    }
  }

  lemma NoSteps(chain: seq<ChainEvent>, s: State)
    ensures Run(chain, s, []) == s
  {
  }

  /** One user's events for the service. */
  function ChainOf(all: seq<ChainEvent>, service: Address, user: Address): (r: seq<ChainEvent>)
  {
    Keep(Keep(all, IsService(service)), IsUser(user))
  }

  lemma UserWindow(all: seq<ChainEvent>, service: Address, u: Address, lastBlock: nat, h: nat, kind: EventKind)
    ensures Keep(Keep(Window(all, service, WindowStart(lastBlock, h), h), IsKind(kind)), IsUser(u)) ==
            WindowOf(ChainOf(all, service, u), lastBlock, h, kind)
  {
    hide Keep;
    var range := InBlocks(WindowStart(lastBlock, h), h);
    KeepCommutes(all, range, IsService(service));
    KeepCommutes(Keep(all, IsService(service)), range, IsUser(u));
    KeepCommutes(Window(all, service, WindowStart(lastBlock, h), h), IsKind(kind), IsUser(u));
  }

  /** For each user, the steps of a poll that nothing comes between do what the poll as a whole does. */
  lemma AlonePollIsPoll(service: Address, m: Channels, lastBlock: nat, all: seq<ChainEvent>, rpc: Rpc, u: Address)
    returns (steps: seq<Step>)
    ensures var p := Poll(service, m, lastBlock, all, rpc);
            Run(ChainOf(all, service, u), State(Get(m, u), lastBlock, Idle), steps) ==
            State(Get(p.channels, u), p.lastBlock, Idle)
  {
    hide Keep, Window, WindowStart, WindowOf, ChainOf, Replay, ReplayUser, Hits, Get, Run;
    var chain, s := ChainOf(all, service, u), State(Get(m, u), lastBlock, Idle);
    steps := PollAlone(chain, s, rpc);
    if rpc.head.Some? {
      var h := rpc.head.value;
      var w := Window(all, service, WindowStart(lastBlock, h), h);
      UserWindow(all, service, u, lastBlock, h, Opened);
      UserWindow(all, service, u, lastBlock, h, ToppedUp);
      UserWindow(all, service, u, lastBlock, h, Settled);
      var o, t := Keep(w, IsKind(Opened)), Keep(w, IsKind(ToppedUp));
      ReplayIsPerUser(m, o, u);
      ReplayIsPerUser(Replay(m, o), t, u);
      ReplayIsPerUser(Replay(Replay(m, o), t), Keep(w, IsKind(Settled)), u);
    }
  }

  // ---------------------------------------------------------------------------------------------
  // A channel overspent by a repeated poll
  // ---------------------------------------------------------------------------------------------

  const OPENING := ChainEvent(Opened, 1, 7, 0, 5)
  const FIRST_TOP_UP := ChainEvent(ToppedUp, 2, 7, 0, 10)
  const SECOND_TOP_UP := ChainEvent(ToppedUp, 3, 7, 0, 20)

  lemma KeepThree(a: ChainEvent, b: ChainEvent, c: ChainEvent, t: Test)
    ensures Keep([a], t) == (if Passes(t, a) then [a] else [])
    ensures Keep([a, b], t) == Keep([a], t) + (if Passes(t, b) then [b] else [])
    ensures Keep([a, b, c], t) == Keep([a, b], t) + (if Passes(t, c) then [c] else [])
  {
    KeepOfNothing(t);
    KeepSnoc([], a, t);
    KeepSnoc([a], b, t);
    KeepSnoc([a, b], c, t);
    assert [] + [a] == [a] && [a] + [b] == [a, b] && [a, b] + [c] == [a, b, c];
  }

  lemma ExampleWindows()
    ensures var chain := [OPENING, FIRST_TOP_UP, SECOND_TOP_UP];
            && WindowOf(chain, 0, 1, Opened) == [OPENING] && WindowOf(chain, 1, 3, Opened) == []
            && WindowOf(chain, 0, 1, ToppedUp) == [] && WindowOf(chain, 1, 3, ToppedUp) == [FIRST_TOP_UP, SECOND_TOP_UP]
            && WindowOf(chain, 0, 1, Settled) == []
  {
    hide Keep;
    var o, t, u := OPENING, FIRST_TOP_UP, SECOND_TOP_UP;
    KeepThree(o, t, u, InBlocks(0, 1));
    KeepThree(o, t, u, InBlocks(2, 3));
    KeepThree(o, t, u, IsKind(Opened));
    KeepThree(o, t, u, IsKind(ToppedUp));
    KeepThree(o, t, u, IsKind(Settled));
    KeepThree(t, u, u, IsKind(Opened));
    KeepThree(t, u, u, IsKind(ToppedUp));
    KeepOfNothing(IsKind(Opened));
    assert Keep([o, t, u], InBlocks(0, 1)) == [o] && Keep([o, t, u], InBlocks(2, 3)) == [t, u];
  }

  lemma ReplayTwo(x: Option<ChannelState>, a: ChainEvent, b: ChainEvent)
    ensures ReplayUser(x, []) == x && ReplayUser(x, [a]) == ApplyToUser(x, a)
    ensures ReplayUser(x, [a, b]) == ApplyToUser(ApplyToUser(x, a), b)
  {
    ReplayUserSnoc(x, [], a);
    ReplayUserSnoc(x, [a], b);
    assert [] + [a] == [a] && [a] + [b] == [a, b];
  }

  /**
   Totals only rise on the chain: deposit 5, then 10, then 20. A poll applies both top-ups and fails at
   its last query; a charge of 15 goes through; the repeated poll applies the 10 again.
   */
  lemma RepeatedTopUpUndercuts() returns (steps: seq<Step>)
    ensures var chain := [OPENING, FIRST_TOP_UP, SECOND_TOP_UP];
            && InBlockOrder(chain) && TotalsRise(chain) && SyncsWithin(steps)
            && Run(chain, FRESH, steps).ch == Some(ChannelState(7, 10, 15, 1))
  {
    hide WindowOf, ReplayUser, Run;
    var chain := [OPENING, FIRST_TOP_UP, SECOND_TOP_UP];
    ExampleWindows();
    ReplayTwo(None, OPENING, OPENING);
    ReplayTwo(Some(ChannelState(7, 5, 0, 0)), FIRST_TOP_UP, SECOND_TOP_UP);
    var first := PollAlone(chain, FRESH, Rpc(Some(1), true, true, true));
    var s1 := State(Some(ChannelState(7, 5, 0, 0)), 1, Idle);
    assert Run(chain, FRESH, first) == s1;
    var second := PollAlone(chain, s1, Rpc(Some(3), true, true, false));
    var s2 := State(Some(ChannelState(7, 20, 0, 0)), 1, Idle);
    assert Run(chain, s1, second) == s2;
    var rest := LastSteps(chain, s2);
    RunJoins(chain, s1, second, rest);
    RunJoins(chain, FRESH, first, second + rest);
    steps := first + (second + rest);
    assert forall i :: 0 <= i < |steps| ==> steps[i] in first || steps[i] in second || steps[i] in rest;
  }

  lemma LastSteps(chain: seq<ChainEvent>, s: State) returns (steps: seq<Step>)
    requires chain == [OPENING, FIRST_TOP_UP, SECOND_TOP_UP]
    requires s == State(Some(ChannelState(7, 20, 0, 0)), 1, Idle)
    ensures Run(chain, s, steps).ch == Some(ChannelState(7, 10, 15, 1))
    ensures steps == [Charge(15), Begin(3), Query(true), ApplyNext]
  {
    hide WindowOf, Run;
    ExampleWindows();
    var s1 := s.(ch := Some(ChannelState(7, 20, 15, 1)));
    var s2 := s1.(task := Applying(3, Opened, []));
    var s3 := s1.(task := Applying(3, ToppedUp, [FIRST_TOP_UP, SECOND_TOP_UP]));
    OneStepRun(chain, s, Charge(15));
    OneStepRun(chain, s1, Begin(3));
    OneStepRun(chain, s2, Query(true));
    OneStepRun(chain, s3, ApplyNext);
    RunJoins(chain, s2, [Query(true)], [ApplyNext]);
    RunJoins(chain, s1, [Begin(3)], [Query(true)] + [ApplyNext]);
    RunJoins(chain, s, [Charge(15)], [Begin(3)] + ([Query(true)] + [ApplyNext]));
    steps := [Charge(15), Begin(3), Query(true), ApplyNext];
    assert steps == [Charge(15)] + ([Begin(3)] + ([Query(true)] + [ApplyNext]));
  }

  /**
   From a sync: it finds 20 deposited, a charge of 15 goes through, and the first poll, which looks back
   100 blocks, begins with the top-up to 10.
   */
  lemma FirstWindowUndercutsASync()
    ensures var chain := [OPENING, FIRST_TOP_UP, SECOND_TOP_UP];
            var synced := Next(chain, FRESH, Sync(ChannelState(7, 20, 0, 0)));
            var steps := [Charge(15), Begin(102), Query(true), ApplyNext];
            && InBlockOrder(chain) && TotalsRise(chain) && UntroubledRun(chain, synced, steps)
            && FirstLogUndercuts(chain, synced, steps)
            && Run(chain, synced, steps).ch == Some(ChannelState(7, 10, 15, 1))
  {
    hide WindowOf, Keep;
    var chain := [OPENING, FIRST_TOP_UP, SECOND_TOP_UP];
    LaterWindow();
    var s0 := State(Some(ChannelState(7, 20, 0, 0)), 0, Idle);
    var s1 := Next(chain, s0, Charge(15));
    assert s1 == State(Some(ChannelState(7, 20, 15, 1)), 0, Idle);
    var s2 := Next(chain, s1, Begin(102));
    assert s2.task == Applying(102, Opened, []);
    var s3 := Next(chain, s2, Query(true));
    assert s3.task == Applying(102, ToppedUp, [FIRST_TOP_UP, SECOND_TOP_UP]);
    assert Undercuts(s3, ApplyNext) && AppliesOne(s3, ApplyNext);
    NoSteps(chain, Next(chain, s3, ApplyNext));
    RunUnfolds(chain, s3, ApplyNext, []);
    RunUnfolds(chain, s2, Query(true), [ApplyNext] + []);
    RunUnfolds(chain, s1, Begin(102), [Query(true)] + ([ApplyNext] + []));
    RunUnfolds(chain, s0, Charge(15), [Begin(102)] + ([Query(true)] + ([ApplyNext] + [])));
    assert [Charge(15), Begin(102), Query(true), ApplyNext]
        == [Charge(15)] + ([Begin(102)] + ([Query(true)] + ([ApplyNext] + [])));
  }

  lemma LaterWindow()
    ensures var chain := [OPENING, FIRST_TOP_UP, SECOND_TOP_UP];
            && WindowOf(chain, 0, 102, Opened) == []
            && WindowOf(chain, 0, 102, ToppedUp) == [FIRST_TOP_UP, SECOND_TOP_UP]
            && Keep(chain, InBlocks(WindowStart(0, 102), 102)) == [FIRST_TOP_UP, SECOND_TOP_UP]
  {
    hide Keep;
    var o, t, u := OPENING, FIRST_TOP_UP, SECOND_TOP_UP;
    KeepThree(o, t, u, InBlocks(2, 102));
    KeepThree(t, u, u, IsKind(Opened));
    KeepThree(t, u, u, IsKind(ToppedUp));
    assert Keep([o, t, u], InBlocks(2, 102)) == [t, u];
  }

  /** A run and what is said of it, one step at a time. */
  lemma RunUnfolds(chain: seq<ChainEvent>, s: State, e: Step, rest: seq<Step>)
    ensures Run(chain, s, [e] + rest) == Run(chain, Next(chain, s, e), rest)
    ensures UntroubledRun(chain, s, [e] + rest) <==>
            Untroubled(e) && InOrderAt(chain, s, e) && UntroubledRun(chain, Next(chain, s, e), rest)
    ensures FirstLogUndercuts(chain, s, [e] + rest) ==
            if AppliesOne(s, e) then Undercuts(s, e) else FirstLogUndercuts(chain, Next(chain, s, e), rest)
  {
    hide Next, Untroubled, InOrderAt, AppliesOne, Undercuts;
    assert ([e] + rest)[1..] == rest;
  }
}
