/**
 Dispatches that come between each other. A picker reads every worker's load, reads them all again
 to find who has the least, takes its turn among those, and only later raises the load of the worker
 it has picked. Each reading and each increment is one atomic step; no call ends meanwhile, and the
 workers here are the healthy ones.
 */
module DispatchRuns {
  import opened Wrappers
  import opened Numbers
  import opened Dispatch

  datatype Stage =
    | Reading(seen: seq<nat>)
    | Filtering(least: nat, next: nat, chosen: seq<nat>)
    | Picked(worker: nat)
    | Gone

  datatype Race = Race(loads: seq<nat>, counter: nat, pickers: seq<Stage>)

  datatype Step = Arrive | Read(p: nat) | Compare(p: nat) | Choose(p: nat) | Send(p: nat) | GiveUp(p: nat)

  function Least(s: seq<nat>): (r: nat)
    requires s != []
    ensures r in s && forall i :: 0 <= i < |s| ==> r <= s[i]
  {
    if |s| == 1 then s[0]
    else
      var m := Least(s[..|s| - 1]);
      if s[|s| - 1] < m then s[|s| - 1] else m
  }

  /** What one more reading makes of a picker; after the last of a pass it goes on to the next. */
  function AfterRead(loads: seq<nat>, seen: seq<nat>): (r: Stage)
    requires |seen| < |loads|
  {
    var seen' := seen + [loads[|seen|]];
    if |seen'| == |loads| then Filtering(Least(seen'), 0, []) else Reading(seen')
  }

  function AfterCompare(loads: seq<nat>, s: Stage): (r: Stage)
    requires s.Filtering? && s.next < |loads|
  {
    Filtering(s.least, s.next + 1, s.chosen + if loads[s.next] == s.least then [s.next] else [])
  }

  function To(r: Race, p: nat, s: Stage): (r': Race)
    requires p < |r.pickers|
  {
    r.(pickers := r.pickers[p := s])
  }

  /** One atomic step; a picker that finds none of the least loads again fails when it takes its turn. */
  function Next(r: Race, s: Step): (r': Race)
    ensures |r'.loads| == |r.loads|
  {
    match s
    case Arrive => r.(pickers := r.pickers + [Reading([])])
    case Read(p) =>
      if p < |r.pickers| && r.pickers[p].Reading? && |r.pickers[p].seen| < |r.loads|
      then To(r, p, AfterRead(r.loads, r.pickers[p].seen)) else r
    case Compare(p) =>
      if p < |r.pickers| && r.pickers[p].Filtering? && r.pickers[p].next < |r.loads|
      then To(r, p, AfterCompare(r.loads, r.pickers[p])) else r
    case Choose(p) =>
      if p < |r.pickers| && r.pickers[p].Filtering? && r.pickers[p].next == |r.loads| then
        var c := r.pickers[p].chosen;
        To(r, p, if c == [] then Gone else Picked(c[r.counter % |c|])).(counter := Bump(r.counter))
      else r
    case Send(p) =>
      if p < |r.pickers| && r.pickers[p].Picked? && r.pickers[p].worker < |r.loads| then
        var w := r.pickers[p].worker;
        To(r, p, Gone).(loads := r.loads[w := r.loads[w] + 1])
      else r
    case GiveUp(p) => if p < |r.pickers| then To(r, p, Gone) else r
  }

  // ---------------------------------------------------------------------------------------------
  // How far apart the loads can get
  // ---------------------------------------------------------------------------------------------

  /** A picker that may still send to this worker. */
  predicate Eyes(s: Stage, worker: nat)
  {
    (s.Filtering? && worker in s.chosen) || s == Picked(worker)
  }

  /** A picker between its second pass and its increment. */
  predicate InPlay(s: Stage)
  {
    s.Filtering? || s.Picked?
  }

  function Eyeing(pickers: seq<Stage>, worker: nat): (r: nat)
  {
    if pickers == [] then 0 else (if Eyes(pickers[0], worker) then 1 else 0) + Eyeing(pickers[1..], worker)
  }

  function Playing(pickers: seq<Stage>): (r: nat)
  {
    if pickers == [] then 0 else (if InPlay(pickers[0]) then 1 else 0) + Playing(pickers[1..])
  }

  lemma {:induction false} EyeingIsPlaying(pickers: seq<Stage>, worker: nat)
    ensures Eyeing(pickers, worker) <= Playing(pickers)
  {
    if pickers != [] {
      EyeingIsPlaying(pickers[1..], worker);
    }
  }

  lemma {:induction false} CountsAfterUpdate(pickers: seq<Stage>, p: nat, s: Stage, worker: nat)
    requires p < |pickers|
    ensures Eyeing(pickers[p := s], worker) + (if Eyes(pickers[p], worker) then 1 else 0) ==
            Eyeing(pickers, worker) + (if Eyes(s, worker) then 1 else 0)
    ensures Playing(pickers[p := s]) + (if InPlay(pickers[p]) then 1 else 0) ==
            Playing(pickers) + (if InPlay(s) then 1 else 0)
  {
    if p > 0 {
      CountsAfterUpdate(pickers[1..], p - 1, s, worker);
      assert pickers[p := s][1..] == pickers[1..][p - 1 := s];
    } else {
      assert pickers[p := s][1..] == pickers[1..];
    }
  }

  lemma {:induction false} CountsAfterArrival(pickers: seq<Stage>, worker: nat)
    ensures Eyeing(pickers + [Reading([])], worker) == Eyeing(pickers, worker)
    ensures Playing(pickers + [Reading([])]) == Playing(pickers)
  {
    if pickers == [] {
      assert pickers + [Reading([])] == [Reading([])];
    } else {
      CountsAfterArrival(pickers[1..], worker);
      assert (pickers + [Reading([])])[1..] == pickers[1..] + [Reading([])];
    }
  }

  /** What a picker knows stays true, since loads only rise: no load is below what it has read. */
  predicate Informed(loads: seq<nat>, s: Stage)
  {
    match s
    case Reading(seen) => |seen| < |loads| && forall i :: 0 <= i < |seen| ==> seen[i] <= loads[i]
    case Filtering(least, next, chosen) => next <= |loads| && forall i :: 0 <= i < |loads| ==> least <= loads[i]
    case Picked(_) | Gone => true
  }

  ghost predicate Sound(r: Race)
  {
    r.loads != [] && forall p :: 0 <= p < |r.pickers| ==> Informed(r.loads, r.pickers[p])
  }

  /** A load, with all that may still be added to it by pickers in play, is within `k` of every other. */
  ghost predicate Within(r: Race, k: nat)
  {
    forall v: nat, w: nat :: v < |r.loads| && w < |r.loads| ==> r.loads[w] + Eyeing(r.pickers, w) <= r.loads[v] + k
  }

  lemma SoundStep(r: Race, s: Step)
    requires Sound(r)
    ensures Sound(Next(r, s))
  {
    if s.Read? && s.p < |r.pickers| && r.pickers[s.p].Reading? {
      ReadIsInformed(r.loads, r.pickers[s.p].seen);
    }
  }

  lemma ReadIsInformed(loads: seq<nat>, seen: seq<nat>)
    requires Informed(loads, Reading(seen))
    ensures Informed(loads, AfterRead(loads, seen))
  {
    hide Least;
    var seen' := seen + [loads[|seen|]];
    if |seen'| == |loads| {
      forall i | 0 <= i < |loads|
        ensures Least(seen') <= loads[i]
      {
        assert Least(seen') <= seen'[i];
      }
    }
  }

  /** A comparison that adds a worker has found it among the least loaded of this very moment. */
  lemma ComparedIsLeast(r: Race, p: nat, w: nat)
    requires Sound(r) && p < |r.pickers| && r.pickers[p].Filtering? && r.pickers[p].next < |r.loads|
    requires Eyes(AfterCompare(r.loads, r.pickers[p]), w) && !Eyes(r.pickers[p], w)
    ensures w < |r.loads| && forall v :: 0 <= v < |r.loads| ==> r.loads[w] <= r.loads[v]
  {
    assert Informed(r.loads, r.pickers[p]);
  }

  lemma WithinStep(r: Race, s: Step, k: nat)
    requires Sound(r) && Within(r, k) && Playing(Next(r, s).pickers) <= k
    ensures Within(Next(r, s), k)
  {
    hide Eyeing, Playing, Sound, AfterRead, AfterCompare;
    var r' := Next(r, s);
    forall v: nat, w: nat | v < |r.loads| && w < |r.loads|
      ensures r'.loads[w] + Eyeing(r'.pickers, w) <= r'.loads[v] + k
    {
      assert r.loads[w] + Eyeing(r.pickers, w) <= r.loads[v] + k;
      if s.Arrive? {
        CountsAfterArrival(r.pickers, w);
      } else if s.p < |r.pickers| {
        var p := s.p;
        EyeingIsPlaying(r'.pickers, w);
        CountsAfterUpdate(r.pickers, p, r'.pickers[p], w);
        assert r.pickers[p := r'.pickers[p]] == r'.pickers;
        OnlyComparisonsEye(r, s, w);
        if s.Compare? && !Eyes(r.pickers[p], w) && Eyes(r'.pickers[p], w) {
          ComparedIsLeast(r, p, w);
        }
      }
    }
  }

  /** Only a comparison makes a picker eye a worker, and a send takes it off. */
  lemma OnlyComparisonsEye(r: Race, s: Step, w: nat)
    requires !s.Arrive? && s.p < |r.pickers|
    ensures !s.Compare? && Eyes(Next(r, s).pickers[s.p], w) ==> Eyes(r.pickers[s.p], w)
    ensures Next(r, s).loads == r.loads ||
            exists x: nat :: && r.pickers[s.p] == Picked(x) && x < |r.loads| && Next(r, s).pickers[s.p] == Gone
                        && Next(r, s).loads == r.loads[x := r.loads[x] + 1]
    ensures s.Compare? && Next(r, s) != r ==>
            && r.pickers[s.p].Filtering? && r.pickers[s.p].next < |r.loads|
            && Next(r, s) == To(r, s.p, AfterCompare(r.loads, r.pickers[s.p]))
  {
  }

  /** Never more than `k` pickers in play at once. */
  predicate IsRun(r: Race, k: nat, steps: seq<Step>)
    decreases |steps|
  {
    Playing(r.pickers) <= k && (steps == [] || IsRun(Next(r, steps[0]), k, steps[1..]))
  }

  function Run(r: Race, steps: seq<Step>): (r': Race)
    ensures |r'.loads| == |r.loads|
    decreases |steps|
  {
    if steps == [] then r else Run(Next(r, steps[0]), steps[1..])
  }

  lemma {:induction false} RunStaysWithin(r: Race, k: nat, steps: seq<Step>)
    requires Sound(r) && Within(r, k) && IsRun(r, k, steps)
    ensures Sound(Run(r, steps)) && Within(Run(r, steps), k)
    decreases |steps|
  {
    hide Sound, Within, Next, Playing;
    if steps != [] {
      IsRunUnfolds(r, k, steps);
      SoundStep(r, steps[0]);
      WithinStep(r, steps[0], k);
      RunStaysWithin(Next(r, steps[0]), k, steps[1..]);
    }
  }

  lemma IsRunUnfolds(r: Race, k: nat, steps: seq<Step>)
    requires IsRun(r, k, steps) && steps != []
    ensures IsRun(Next(r, steps[0]), k, steps[1..]) && Playing(Next(r, steps[0]).pickers) <= k
  {
  }

  function Start(workers: nat, base: nat, counter: nat): (r: Race)
    ensures |r.loads| == workers
  {
    Race(seq(workers, _ => base), counter, [])
  }

  /**
   In every interleaving of dispatches from equal loads, with at most `k` pickers at once between
   their second reading and their increment, no two loads are ever more than `k` apart.
   */
  lemma SpreadIsBounded(workers: nat, base: nat, counter: nat, k: nat, steps: seq<Step>, v: nat, w: nat)
    requires v < workers && w < workers && IsRun(Start(workers, base, counter), k, steps)
    ensures Run(Start(workers, base, counter), steps).loads[w] <= Run(Start(workers, base, counter), steps).loads[v] + k
  {
    RunStaysWithin(Start(workers, base, counter), k, steps);
  }

  // ---------------------------------------------------------------------------------------------
  // Evenness, when each pick sees all earlier increments
  // ---------------------------------------------------------------------------------------------

  /** The increments of a run. */
  function Sends(r: Race, steps: seq<Step>): (n: nat)
    decreases |steps|
  {
    if steps == [] then 0
    else (if Next(r, steps[0]).loads != r.loads then 1 else 0) + Sends(Next(r, steps[0]), steps[1..])
  }

  lemma SumStep(r: Race, s: Step)
    ensures Sum(Next(r, s).loads) == Sum(r.loads) + if Next(r, s).loads != r.loads then 1 else 0
  {
    if s.Send? && s.p < |r.pickers| && r.pickers[s.p].Picked? && r.pickers[s.p].worker < |r.loads| {
      SumUpdate(r.loads, r.pickers[s.p].worker, r.loads[r.pickers[s.p].worker] + 1);
    }
  }

  lemma {:induction false} SumOfRun(r: Race, steps: seq<Step>)
    ensures Sum(Run(r, steps).loads) == Sum(r.loads) + Sends(r, steps)
    decreases |steps|
  {
    hide Next, Sum;
    if steps != [] {
      SumStep(r, steps[0]);
      SumOfRun(Next(r, steps[0]), steps[1..]);
    }
  }

  /** How many loads are one above this. */
  function Ahead(loads: seq<nat>, level: nat): (r: nat)
    ensures r <= |loads|
  {
    if loads == [] then 0 else (if loads[0] == level + 1 then 1 else 0) + Ahead(loads[1..], level)
  }

  predicate OnTwoLevels(loads: seq<nat>, level: nat)
  {
    forall i :: 0 <= i < |loads| ==> loads[i] == level || loads[i] == level + 1
  }

  lemma {:induction false} SumOnTwoLevels(loads: seq<nat>, level: nat)
    requires OnTwoLevels(loads, level)
    ensures Sum(loads) == |loads| * level + Ahead(loads, level)
    ensures Ahead(loads, level) == |loads| ==> forall i :: 0 <= i < |loads| ==> loads[i] == level + 1
  {
    if loads != [] {
      SumOnTwoLevels(loads[1..], level);
      assert |loads| * level == level + |loads[1..]| * level;
      assert forall i :: 0 < i < |loads| ==> loads[i] == loads[1..][i - 1];
    }
  }

  lemma {:induction false} SumOfEqual(workers: nat, base: nat)
    ensures Sum(seq(workers, _ => base)) == workers * base
  {
    if workers > 0 {
      SumOfEqual(workers - 1, base);
      assert seq(workers, _ => base)[1..] == seq(workers - 1, _ => base);
      assert workers * base == base + (workers - 1) * base;
    }
  }

  /**
   With at most one picker in play at a time, so that each sees all earlier increments: after `s`
   increments every one of the `n` workers holds `s / n` more than at first, and exactly `s % n` of
   them one more than that.
   */
  lemma EvenOneByOne(workers: nat, base: nat, counter: nat, steps: seq<Step>)
    requires workers > 0 && IsRun(Start(workers, base, counter), 1, steps)
    ensures var r, s := Run(Start(workers, base, counter), steps), Sends(Start(workers, base, counter), steps);
            && OnTwoLevels(r.loads, base + Quotient(s, workers))
            && Ahead(r.loads, base + Quotient(s, workers)) == s % workers
  {
    hide Run, IsRun, Sends, Sum, Ahead, Next, Quotient;
    var start := Start(workers, base, counter);
    var loads := Run(start, steps).loads;
    forall v: nat, w: nat | v < workers && w < workers
      ensures loads[w] <= loads[v] + 1
    {
      SpreadIsBounded(workers, base, counter, 1, steps, v, w);
    }
    SumOfRun(start, steps);
    SumOfEqual(workers, base);
    EvenFromSum(loads, workers, base, Sends(start, steps));
  }

  lemma EvenFromSum(loads: seq<nat>, n: nat, base: nat, s: nat)
    requires |loads| == n > 0 && Sum(loads) == n * base + s
    requires forall v: nat, w: nat :: v < n && w < n ==> loads[w] <= loads[v] + 1
    ensures OnTwoLevels(loads, base + Quotient(s, n)) && Ahead(loads, base + Quotient(s, n)) == s % n
  {
    hide Sum, Ahead, Quotient;
    var level := Least(loads);
    SumOnTwoLevels(loads, level);
    var i :| 0 <= i < |loads| && loads[i] == level;
    LevelIsQuotient(n, base, level, s, Ahead(loads, level));
  }

  lemma LevelIsQuotient(n: nat, base: nat, level: nat, s: nat, ahead: nat)
    requires ahead < n && n * level + ahead == n * base + s
    ensures level == base + Quotient(s, n) && ahead == s % n
  {
    if level < base {
      assert n * base == n * level + n * (base - level);
      MultipleIsFar(n, base - level);
    }
    assert n * level == n * base + n * (level - base);
    DivisionIsUnique(s, n, level - base, ahead);
  }

  // ---------------------------------------------------------------------------------------------
  // A picker left alone
  // ---------------------------------------------------------------------------------------------

  lemma {:induction false} RunJoins(r: Race, a: seq<Step>, b: seq<Step>)
    ensures Run(r, a + b) == Run(Run(r, a), b)
    ensures forall k :: IsRun(r, k, a) && IsRun(Run(r, a), k, b) ==> IsRun(r, k, a + b)
    decreases |a|
  {
    hide Next, Playing;
    if a == [] {
      assert a + b == b;
    } else {
      assert (a + b)[0] == a[0] && (a + b)[1..] == a[1..] + b;
      RunJoins(Next(r, a[0]), a[1..], b);
    }
  }

  lemma OneStepRun(r: Race, s: Step)
    ensures Run(r, [s]) == Next(r, s)
    ensures forall k :: Playing(r.pickers) <= k && Playing(Next(r, s).pickers) <= k ==> IsRun(r, k, [s])
  {
    hide Next, Playing;
    assert [s][1..] == [];
    assert Run(Next(r, s), []) == Next(r, s);
    assert forall k :: Playing(Next(r, s).pickers) <= k ==> IsRun(Next(r, s), k, []);
  }

  function Reads(p: nat, n: nat): (r: seq<Step>)
  {
    if n == 0 then [] else [Read(p)] + Reads(p, n - 1)
  }

  function Compares(p: nat, n: nat): (r: seq<Step>)
  {
    if n == 0 then [] else [Compare(p)] + Compares(p, n - 1)
  }

  /** One step of a picker that leaves the rest alone, put in front of a run. */
  lemma StepThenRun(r: Race, s: Step, p: nat, stage: Stage, steps: seq<Step>, k: nat, last: Stage)
    requires p < |r.pickers| && Next(r, s) == To(r, p, stage) && Playing(r.pickers) <= k
    requires IsRun(To(r, p, stage), k, steps) && Run(To(r, p, stage), steps) == To(To(r, p, stage), p, last)
    ensures IsRun(r, k, [s] + steps) && Run(r, [s] + steps) == To(r, p, last)
  {
    hide Next, Playing;
    assert ([s] + steps)[1..] == steps;
    assert To(To(r, p, stage), p, last) == To(r, p, last);
  }

  lemma NothingRuns(r: Race, p: nat, k: nat)
    requires p < |r.pickers| && Playing(r.pickers) <= k
    ensures IsRun(r, k, []) && Run(r, []) == To(r, p, r.pickers[p])
  {
    assert To(r, p, r.pickers[p]) == r;
  }

  lemma {:induction false} ReadsAlone(r: Race, p: nat, m: nat, k: nat)
    requires p < |r.pickers| && 0 < m <= |r.loads| && Playing(r.pickers) + 1 <= k
    requires r.pickers[p] == Reading(r.loads[..|r.loads| - m])
    ensures Run(r, Reads(p, m)) == To(r, p, Filtering(Least(r.loads), 0, [])) && IsRun(r, k, Reads(p, m))
    decreases m
  {
    hide Playing, Least, Run, IsRun;
    var n := |r.loads|;
    assert r.loads[..n - m] + [r.loads[n - m]] == r.loads[..n - m + 1];
    var stage := AfterRead(r.loads, r.loads[..n - m]);
    var next := To(r, p, stage);
    CountsAfterUpdate(r.pickers, p, stage, 0);
    if m == 1 {
      assert r.loads[..n] == r.loads;
      NothingRuns(next, p, k);
    } else {
      ReadsAlone(next, p, m - 1, k);
    }
    StepThenRun(r, Read(p), p, stage, Reads(p, m - 1), k, Filtering(Least(r.loads), 0, []));
  }

  /** The workers from `i` on with exactly this load. */
  function MatchesFrom(loads: seq<nat>, i: nat, least: nat): (r: seq<nat>)
    requires i <= |loads|
    decreases |loads| - i
  {
    if i == |loads| then [] else (if loads[i] == least then [i] else []) + MatchesFrom(loads, i + 1, least)
  }

  lemma MatchesUnfold(loads: seq<nat>, i: nat, least: nat)
    requires i <= |loads|
    ensures MatchesFrom(loads, i, least) ==
            if i == |loads| then [] else (if loads[i] == least then [i] else []) + MatchesFrom(loads, i + 1, least)
  {
  }

  lemma {:induction false} ComparesAlone(r: Race, p: nat, m: nat, least: nat, chosen: seq<nat>, k: nat)
    requires p < |r.pickers| && m <= |r.loads| && Playing(r.pickers) <= k
    requires r.pickers[p] == Filtering(least, |r.loads| - m, chosen)
    ensures Run(r, Compares(p, m)) ==
            To(r, p, Filtering(least, |r.loads|, chosen + MatchesFrom(r.loads, |r.loads| - m, least)))
    ensures IsRun(r, k, Compares(p, m))
    decreases m
  {
    hide Playing, MatchesFrom, Run, IsRun;
    var i := |r.loads| - m;
    MatchesUnfold(r.loads, i, least);
    if m == 0 {
      assert chosen + [] == chosen;
      NothingRuns(r, p, k);
    } else {
      var stage := AfterCompare(r.loads, r.pickers[p]);
      CountsAfterUpdate(r.pickers, p, stage, 0);
      var later := MatchesFrom(r.loads, i + 1, least);
      ComparesAlone(To(r, p, stage), p, m - 1, least, stage.chosen, k);
      assert stage.chosen + later == chosen + MatchesFrom(r.loads, i, least);
      StepThenRun(r, Compare(p), p, stage, Compares(p, m - 1), k, Filtering(least, |r.loads|, stage.chosen + later));
    }
  }

  lemma {:induction false} MatchesAreWithLoad(loads: seq<nat>, i: nat, least: nat)
    requires i <= |loads|
    ensures MatchesFrom(loads, i, least) == WithLoad(AllOf(|loads|)[i..], loads, least)
    decreases |loads| - i
  {
    if i < |loads| {
      MatchesAreWithLoad(loads, i + 1, least);
      assert AllOf(|loads|)[i..][0] == i && AllOf(|loads|)[i..][1..] == AllOf(|loads|)[i + 1..];
    }
  }

  lemma LeastIsMinLoad(loads: seq<nat>)
    requires loads != []
    ensures Least(loads) == MinLoad(AllOf(|loads|), loads)
  {
    var k := MinLoadIsLeast(AllOf(|loads|), loads);
    assert Least(loads) <= loads[AllOf(|loads|)[k]];
    var i :| 0 <= i < |loads| && loads[i] == Least(loads);
    assert MinLoad(AllOf(|loads|), loads) <= loads[AllOf(|loads|)[i]];
  }

  function Alone(p: nat, n: nat): (r: seq<Step>)
  {
    [Arrive] + (Reads(p, n) + (Compares(p, n) + [Choose(p)]))
  }

  /** A picker that nothing comes between picks as the function does for loads at rest. */
  lemma AloneIsPick(r: Race, k: nat)
    requires r.loads != [] && Playing(r.pickers) + 1 <= k
    ensures var n, p := |r.loads|, |r.pickers|;
            var pick := PickFrom(AllOf(n), r.loads, r.loads, r.counter);
            && pick.Some?
            && Run(r, Alone(p, n)) == Race(r.loads, Bump(r.counter), r.pickers + [Picked(pick.value)])
            && IsRun(r, k, Alone(p, n))
  {
    hide Playing, PickFrom, Least, Bump;
    var n, p := |r.loads|, |r.pickers|;
    var least := Least(r.loads);
    var r1 := Next(r, Arrive);
    CountsAfterArrival(r.pickers, 0);
    OneStepRun(r, Arrive);
    assert r.loads[..0] == [];
    ReadsAlone(r1, p, n, k);
    var r2 := Run(r1, Reads(p, n));
    CountsAfterUpdate(r1.pickers, p, r2.pickers[p], 0);
    ComparesAlone(r2, p, n, least, [], k);
    var r3 := Run(r2, Compares(p, n));
    CountsAfterUpdate(r2.pickers, p, r3.pickers[p], 0);
    PickedAlone(r, r3, p);
    CountsAfterUpdate(r3.pickers, p, Next(r3, Choose(p)).pickers[p], 0);
    OneStepRun(r3, Choose(p));
    RunJoins(r2, Compares(p, n), [Choose(p)]);
    RunJoins(r1, Reads(p, n), Compares(p, n) + [Choose(p)]);
    RunJoins(r, [Arrive], Reads(p, n) + (Compares(p, n) + [Choose(p)]));
  }

  lemma PickedAlone(r: Race, r3: Race, p: nat)
    requires r.loads != [] && p == |r.pickers|
    requires r3.loads == r.loads && r3.counter == r.counter && |r3.pickers| == p + 1 && r3.pickers[..p] == r.pickers
    requires r3.pickers[p] == Filtering(Least(r.loads), |r.loads|, [] + MatchesFrom(r.loads, 0, Least(r.loads)))
    ensures var pick := PickFrom(AllOf(|r.loads|), r.loads, r.loads, r.counter);
            && pick.Some?
            && Next(r3, Choose(p)) == Race(r.loads, Bump(r.counter), r.pickers + [Picked(pick.value)])
  {
    var all := AllOf(|r.loads|);
    assert all[0..] == all;
    MatchesAreWithLoad(r.loads, 0, Least(r.loads));
    LeastIsMinLoad(r.loads);
    PickFromDefined(all, r.loads, r.loads, r.counter);
    var next := Next(r3, Choose(p));
    assert next.pickers == r.pickers + [next.pickers[p]];
  }

  // ---------------------------------------------------------------------------------------------
  // The bound is reached
  // ---------------------------------------------------------------------------------------------

  lemma {:induction false} PlayingOfOneMore(pickers: seq<Stage>, s: Stage)
    ensures Playing(pickers + [s]) == Playing(pickers) + if InPlay(s) then 1 else 0
  {
    if pickers == [] {
      assert pickers + [s] == [s];
    } else {
      PlayingOfOneMore(pickers[1..], s);
      assert (pickers + [s])[1..] == pickers[1..] + [s];
    }
  }

  lemma PickOfTwo(counter: nat)
    ensures PickFrom(AllOf(2), [0, 0], [0, 0], counter) == Some(counter % 2)
    ensures Bump(counter) % 2 == (counter + 1) % 2
  {
    hide WithLoad, MinLoad, Bump;
    var all, loads := AllOf(2), [0, 0];
    var k := MinLoadIsLeast(all, loads);
    WithLoadOfAll(all, loads, 0);
    BumpParity(counter);
  }

  lemma BumpParity(counter: nat)
    ensures Bump(counter) % 2 == (counter + 1) % 2
  {
  }

  /** Two workers at rest; of every two picks the first, of worker 0, is kept, and the second is given up. */
  ghost predicate AfterRounds(r: Race, j: nat)
  {
    && r.loads == [0, 0] && |r.pickers| == 2 * j && Playing(r.pickers) == j && r.counter % 2 == 0
    && forall i :: 0 <= i < j ==> r.pickers[2 * i] == Picked(0)
  }

  lemma {:induction false} Rounds(j: nat, k: nat) returns (steps: seq<Step>)
    requires j < k
    ensures IsRun(Start(2, 0, 0), k, steps) && AfterRounds(Run(Start(2, 0, 0), steps), j)
  {
    var start := Start(2, 0, 0);
    if j == 0 {
      steps := [];
      assert start.loads == [0, 0];
    } else {
      var before := Rounds(j - 1, k);
      var more := OneRound(Run(start, before), j - 1, k);
      RunJoins(start, before, more);
      steps := before + more;
    }
  }

  lemma OneRound(r: Race, j: nat, k: nat) returns (steps: seq<Step>)
    requires AfterRounds(r, j) && j + 1 < k
    ensures IsRun(r, k, steps) && AfterRounds(Run(r, steps), j + 1)
  {
    hide Run, IsRun, Next, Playing, PickFrom, Bump, Alone;
    PickOfTwo(r.counter);
    AloneIsPick(r, k);
    PlayingOfOneMore(r.pickers, Picked(0));
    var first := Alone(2 * j, 2);
    var r1 := Run(r, first);
    PickOfTwo(r1.counter);
    var second := OneGivenUp(r1, k);
    RunJoins(r, first, second);
    steps := first + second;
  }

  /** A pick that is given up leaves its turn taken, and nothing else. */
  lemma OneGivenUp(r: Race, k: nat) returns (steps: seq<Step>)
    requires r.loads != [] && Playing(r.pickers) + 1 <= k
    ensures IsRun(r, k, steps) && Run(r, steps) == Race(r.loads, Bump(r.counter), r.pickers + [Gone])
    ensures Playing(r.pickers + [Gone]) == Playing(r.pickers)
  {
    hide Run, IsRun, Next, Playing, PickFrom, Bump, Alone;
    var p := |r.pickers|;
    AloneIsPick(r, k);
    var r1 := Run(r, Alone(p, |r.loads|));
    PlayingOfOneMore(r.pickers, r1.pickers[p]);
    PlayingOfOneMore(r.pickers, Gone);
    GivenUp(r1, p);
    assert r1.pickers[p := Gone] == r.pickers + [Gone];
    OneStepRun(r1, GiveUp(p));
    RunJoins(r, Alone(p, |r.loads|), [GiveUp(p)]);
    steps := Alone(p, |r.loads|) + [GiveUp(p)];
  }

  lemma GivenUp(r: Race, p: nat)
    requires p < |r.pickers| && InPlay(r.pickers[p])
    ensures Next(r, GiveUp(p)) == To(r, p, Gone) && Playing(Next(r, GiveUp(p)).pickers) == Playing(r.pickers) - 1
  {
    CountsAfterUpdate(r.pickers, p, Gone, 0);
  }

  function SendsOf(m: nat): (r: seq<Step>)
  {
    if m == 0 then [] else [Send(2 * (m - 1))] + SendsOf(m - 1)
  }

  lemma {:induction false} SendAll(r: Race, m: nat, k: nat)
    requires |r.loads| == 2 && Playing(r.pickers) <= k && 2 * m <= |r.pickers| + 1
    requires forall i :: 0 <= i < m ==> r.pickers[2 * i] == Picked(0)
    ensures Run(r, SendsOf(m)).loads == r.loads[0 := r.loads[0] + m] && IsRun(r, k, SendsOf(m))
    decreases m
  {
    hide Playing;
    if m > 0 {
      var p := 2 * (m - 1);
      var next := Next(r, Send(p));
      CountsAfterUpdate(r.pickers, p, Gone, 0);
      assert SendsOf(m)[1..] == SendsOf(m - 1);
      SendAll(next, m - 1, k);
    }
  }

  /** For every `k` there is such an interleaving that leaves two loads `k` apart, so no smaller bound holds. */
  lemma SpreadIsReached(k: nat) returns (steps: seq<Step>)
    requires k > 0
    ensures IsRun(Start(2, 0, 0), k, steps) && Run(Start(2, 0, 0), steps).loads == [k, 0]
  {
    hide Run, IsRun, Next, Playing, PickFrom, Bump;
    var start := Start(2, 0, 0);
    var rounds := Rounds(k - 1, k);
    var r := Run(start, rounds);
    PickOfTwo(r.counter);
    AloneIsPick(r, k);
    PlayingOfOneMore(r.pickers, Picked(0));
    var last := Alone(2 * (k - 1), 2);
    var r1 := Run(r, last);
    SendAll(r1, k, k);
    RunJoins(r, last, SendsOf(k));
    RunJoins(start, rounds, last + SendsOf(k));
    steps := rounds + (last + SendsOf(k));
  }
}
